/**
 CTAPHID framing (sections 11.2.3 and 11.2.4 of CTAP 2.1): how a message becomes
 64-byte reports, and how one report is read back.
 */
module CtapHidFraming {
  import opened Bytes

  const HID_REPORT_SIZE := 64
  const INIT_PAYLOAD := HID_REPORT_SIZE - 7
  const CONT_PAYLOAD := HID_REPORT_SIZE - 5
  const CID_BROADCAST := 0xFFFF_FFFF
  /** The longest payload whose continuation frames fit in the seven-bit sequence number. */
  const MAX_PAYLOAD := INIT_PAYLOAD + 128 * CONT_PAYLOAD

  const CTAPHID_PING := 0x01
  const CTAPHID_MSG := 0x03
  const CTAPHID_LOCK := 0x04
  const CTAPHID_INIT := 0x06
  const CTAPHID_WINK := 0x08
  const CTAPHID_CBOR := 0x10
  const CTAPHID_CANCEL := 0x11
  const CTAPHID_KEEPALIVE := 0x3B
  const CTAPHID_ERROR := 0x3F

  type Cid = c: int | 0 <= c < 0x1_0000_0000
  type Command = c: int | 0 <= c < 0x80
  type Report = r: seq<Byte> | |r| == HID_REPORT_SIZE witness seq(HID_REPORT_SIZE, i => 0)

  datatype Message = Message(cid: Cid, command: Command, data: seq<Byte>)

  /** A report as the receiver reads it: the length of an Init frame is the declared one. */
  datatype Frame =
    | Init(cid: Cid, command: Command, length: nat, payload: seq<Byte>)
    | Cont(cid: Cid, number: nat, payload: seq<Byte>)

  function Parse(r: Report): (f: Frame)
    ensures f.Init? ==> f.length < 0x1_0000 && |f.payload| == INIT_PAYLOAD
    ensures f.Cont? ==> f.number < 0x80 && |f.payload| == CONT_PAYLOAD
  {
    var cid := UnpackWord(r[..4]);
    if r[4] >= 0x80 then
      Init(cid, r[4] - 0x80, UnpackShort(r[5..7]), r[7..])
    else
      Cont(cid, r[4], r[5..])
  }

  /** How many continuation frames a payload of this length needs. */
  function Needed(length: nat): nat {
    if length <= INIT_PAYLOAD then 0
    else (length - INIT_PAYLOAD + CONT_PAYLOAD - 1) / CONT_PAYLOAD
  }

  /** How many payload bytes the first k + 1 frames carry. */
  function Carried(length: nat, k: nat): nat {
    Min(length, INIT_PAYLOAD + CONT_PAYLOAD * k)
  }

  /** Frame k of a message. */
  function Fragment(m: Message, k: nat): Report
    requires |m.data| < 0x1_0000 && k <= Needed(|m.data|)
  {
    if k == 0 then
      var chunk := m.data[..Carried(|m.data|, 0)];
      PadTo(PackWord(m.cid) + [0x80 + m.command] + PackShort(|m.data|) + chunk, HID_REPORT_SIZE)
    else
      var chunk := m.data[Carried(|m.data|, k - 1)..Carried(|m.data|, k)];
      PadTo(PackWord(m.cid) + [(k - 1) % 0x80] + chunk, HID_REPORT_SIZE)
  }

  /** The frames of a message; a longer payload cannot declare its length and yields none. */
  function Fragments(m: Message): seq<Report> {
    if |m.data| < 0x1_0000 then FirstFragments(m, Needed(|m.data|) + 1) else []
  }

  /** The first n frames of a message. */
  function FirstFragments(m: Message, n: nat): (rs: seq<Report>)
    requires |m.data| < 0x1_0000 && n <= Needed(|m.data|) + 1
    ensures |rs| == n
  {
    if n == 0 then [] else FirstFragments(m, n - 1) + [Fragment(m, n - 1)]
  }

  lemma NeededIsExact(length: nat, k: nat)
    ensures k < Needed(length) <==> INIT_PAYLOAD + CONT_PAYLOAD * k < length
    ensures length <= MAX_PAYLOAD <==> Needed(length) <= 128
  {
  }

  lemma FirstFragmentParses(m: Message)
    requires |m.data| < 0x1_0000
    ensures var f := Parse(Fragment(m, 0));
            f.Init? && f.cid == m.cid && f.command == m.command && f.length == |m.data|
            && f.payload[..Carried(|m.data|, 0)] == m.data[..Carried(|m.data|, 0)]
  {
    var r := Fragment(m, 0);
    assert r[..4] == PackWord(m.cid);
    assert r[5..7] == PackShort(|m.data|);
    assert r[7..][..Carried(|m.data|, 0)] == m.data[..Carried(|m.data|, 0)];
    WordRoundTrip(m.cid);
  }

  lemma NextFragmentParses(m: Message, k: nat)
    requires |m.data| < 0x1_0000 && 0 < k <= Needed(|m.data|)
    ensures Carried(|m.data|, k - 1) == INIT_PAYLOAD + CONT_PAYLOAD * (k - 1) < |m.data|
    ensures var f := Parse(Fragment(m, k));
            var n := Carried(|m.data|, k) - Carried(|m.data|, k - 1);
            f.Cont? && f.cid == m.cid && f.number == (k - 1) % 0x80
            && 0 < n <= CONT_PAYLOAD
            && f.payload[..n] == m.data[Carried(|m.data|, k - 1)..Carried(|m.data|, k)]
  {
    NeededIsExact(|m.data|, k - 1);
    var r := Fragment(m, k);
    var n := Carried(|m.data|, k) - Carried(|m.data|, k - 1);
    var chunk := m.data[Carried(|m.data|, k - 1)..Carried(|m.data|, k)];
    assert r == PackWord(m.cid) + [(k - 1) % 0x80] + chunk + seq(HID_REPORT_SIZE - 5 - n, i => 0);
    assert r[..4] == PackWord(m.cid);
    assert r[5..][..n] == chunk;
    WordRoundTrip(m.cid);
  }

  /** What every report starts with: the channel id, most significant byte first. */
  function CidOf(r: Report): int {
    r[0] as int * 0x100_0000 + r[1] as int * 0x1_0000 + r[2] as int * 0x100 + r[3] as int
  }

  /** The bytes of the frames of a message: where each field and each byte of the payload is. */
  lemma FragmentBytes(m: Message, k: nat)
    requires |m.data| < 0x1_0000 && k <= Needed(|m.data|)
    ensures CidOf(Fragment(m, k)) == m.cid
    ensures k == 0 ==>
              var r := Fragment(m, 0);
              && r[4] == 128 + m.command && r[5] as int * 256 + r[6] as int == |m.data|
              && forall i :: 7 <= i < 64 ==> r[i] == if i - 7 < |m.data| then m.data[i - 7] else 0
    ensures k > 0 ==>
              && 57 + 59 * (k - 1) < |m.data|
              && var r, rest := Fragment(m, k), m.data[57 + 59 * (k - 1)..];
                 && r[4] == (k - 1) % 128
                 && forall i :: 5 <= i < 64 ==> r[i] == if i - 5 < |rest| then rest[i - 5] else 0
  {
    var r := Fragment(m, k);
    assert r[..4] == PackWord(m.cid);
    CidBytes(r);
    WordRoundTrip(m.cid);
    if k > 0 { NeededIsExact(|m.data|, k - 1); }
  }

  lemma CidBytes(r: Report)
    ensures UnpackWord(r[..4]) == CidOf(r)
  {
    assert r[..4][..2] == [r[0], r[1]] && r[..4][2..] == [r[2], r[3]];
  }

  /** Where each field of a report is read from. */
  lemma ParsedBytes(r: Report)
    ensures Parse(r) == if r[4] >= 128 then Init(CidOf(r), r[4] - 128, r[5] as int * 256 + r[6] as int, r[7..])
                        else Cont(CidOf(r), r[4], r[5..])
  {
    CidBytes(r);
    assert r[5..7] == [r[5], r[6]];
  }
}
