/** The unpadded base64url text of the credential store (sections 3.2 and 5 of RFC 4648). */
module Base64Url {
  import opened Bytes

  type Sextet = v: int | 0 <= v < 64

  function Letter(v: Sextet): char {
    if v < 26 then ('A' as int + v) as char
    else if v < 52 then ('a' as int + v - 26) as char
    else if v < 62 then ('0' as int + v - 52) as char
    else if v == 62 then '-' else '_'
  }

  function Value(c: char): Option<Sextet> {
    if 'A' <= c <= 'Z' then Some(c as int - 'A' as int)
    else if 'a' <= c <= 'z' then Some(c as int - 'a' as int + 26)
    else if '0' <= c <= '9' then Some(c as int - '0' as int + 52)
    else if c == '-' then Some(62)
    else if c == '_' then Some(63)
    else None
  }

  function Letters(a: Sextet, b: Sextet, c: Sextet, d: Sextet): string {
    [Letter(a), Letter(b), Letter(c), Letter(d)]
  }

  /** urlsafe_b64encode: four letters for three bytes, the last group filled up with '='. */
  function Encode(data: seq<Byte>): string {
    if data == [] then ""
    else if |data| == 1 then [Letter(data[0] / 4), Letter(data[0] % 4 * 16), '=', '=']
    else if |data| == 2 then
      [Letter(data[0] / 4), Letter(data[0] % 4 * 16 + data[1] / 16), Letter(data[1] % 16 * 4), '=']
    else
      Letters(data[0] / 4, data[0] % 4 * 16 + data[1] / 16, data[1] % 16 * 4 + data[2] / 64, data[2] % 64)
      + Encode(data[3..])
  }

  /** urlsafe_b64decode of a text over the alphabet, in complete groups of four. */
  function Decode(text: string): Option<seq<Byte>> {
    if text == "" then Some([])
    else if |text| < 4 then None
    else
      var a, b, c, d := Value(text[0]), Value(text[1]), Value(text[2]), Value(text[3]);
      if a.None? || b.None? then None
      else if text[2..] == "==" then Some([a.value * 4 + b.value / 16])
      else if c.None? then None
      else if text[3..] == "=" then Some([a.value * 4 + b.value / 16, b.value % 16 * 16 + c.value / 4])
      else
        var rest := Decode(text[4..]);
        if d.None? || rest.None? then None
        else
          Some([a.value * 4 + b.value / 16, b.value % 16 * 16 + c.value / 4, c.value % 4 * 64 + d.value] + rest.value)
  }

  /** rstrip("="). */
  function Strip(text: string): string {
    if text != "" && text[|text| - 1] == '=' then Strip(text[..|text| - 1]) else text
  }

  /** "=" * (-n % 4). */
  function Padding(n: nat): string {
    seq((4 - n % 4) % 4, i => '=')
  }

  function B64Encode(data: seq<Byte>): string {
    Strip(Encode(data))
  }

  function B64Decode(text: string): Option<seq<Byte>> {
    Decode(text + Padding(|text|))
  }

  lemma LetterRoundTrip(v: Sextet)
    ensures Value(Letter(v)) == Some(v) && Letter(v) != '='
  {
  }

  /** Splitting bytes into sextets and putting them together again. */
  lemma SextetsJoin(x: Byte, y: Byte, z: Byte)
    ensures x / 4 * 4 + (x % 4 * 16) / 16 == x
    ensures x / 4 * 4 + (x % 4 * 16 + y / 16) / 16 == x
    ensures (x % 4 * 16 + y / 16) % 16 * 16 + (y % 16 * 4) / 4 == y
    ensures (x % 4 * 16 + y / 16) % 16 * 16 + (y % 16 * 4 + z / 64) / 4 == y
    ensures (y % 16 * 4 + z / 64) % 4 * 64 + z % 64 == z
  {
  }

  /** A text that starts with four letters. */
  lemma DecodeFour(text: string, a: Sextet, b: Sextet, c: Sextet, d: Sextet)
    requires |text| >= 4 && text[2] != '=' && text[3] != '=' && Decode(text[4..]).Some?
    requires Value(text[0]) == Some(a) && Value(text[1]) == Some(b)
    requires Value(text[2]) == Some(c) && Value(text[3]) == Some(d)
    ensures Decode(text) == Some([a * 4 + b / 16, b % 16 * 16 + c / 4, c % 4 * 64 + d] + Decode(text[4..]).value)
  {
    hide Value;
    assert text[2..][0] != '=' && text[3..][0] != '=';
  }

  lemma FullGroup(a: Sextet, b: Sextet, c: Sextet, d: Sextet, rest: string)
    requires Decode(rest).Some?
    ensures Decode(Letters(a, b, c, d) + rest)
            == Some([a * 4 + b / 16, b % 16 * 16 + c / 4, c % 4 * 64 + d] + Decode(rest).value)
  {
    hide Letter, Value, Decode;
    LetterRoundTrip(a);
    LetterRoundTrip(b);
    LetterRoundTrip(c);
    LetterRoundTrip(d);
    var text := Letters(a, b, c, d) + rest;
    assert text[4..] == rest;
    DecodeFour(text, a, b, c, d);
  }

  lemma GroupRoundTrip(x: Byte, y: Byte, z: Byte, rest: string)
    requires Decode(rest).Some?
    ensures Decode(Letters(x / 4, x % 4 * 16 + y / 16, y % 16 * 4 + z / 64, z % 64) + rest)
            == Some([x, y, z] + Decode(rest).value)
  {
    hide Decode, Letters;
    FullGroup(x / 4, x % 4 * 16 + y / 16, y % 16 * 4 + z / 64, z % 64, rest);
    SextetsJoin(x, y, z);
  }

  lemma OneByteRoundTrip(data: seq<Byte>)
    requires |data| == 1
    ensures Decode(Encode(data)) == Some(data)
  {
    hide Letter, Value;
    LetterRoundTrip(data[0] / 4);
    LetterRoundTrip(data[0] % 4 * 16);
    SextetsJoin(data[0], 0, 0);
    assert Encode(data)[2..] == "==";
    assert data == [data[0]];
  }

  lemma TwoLetterGroup(a: Sextet, b: Sextet, c: Sextet)
    ensures Decode([Letter(a), Letter(b), Letter(c), '=']) == Some([a * 4 + b / 16, b % 16 * 16 + c / 4])
  {
    hide Letter, Value;
    LetterRoundTrip(a);
    LetterRoundTrip(b);
    LetterRoundTrip(c);
    var text := [Letter(a), Letter(b), Letter(c), '='];
    assert text[2..][0] != '=' && text[3..] == "=";
  }

  lemma TwoBytesRoundTrip(data: seq<Byte>)
    requires |data| == 2
    ensures Decode(Encode(data)) == Some(data)
  {
    hide Letter, Value, Decode;
    var x, y := data[0], data[1];
    TwoLetterGroup(x / 4, x % 4 * 16 + y / 16, y % 16 * 4);
    SextetsJoin(x, y, 0);
    assert data == [x, y];
  }

  lemma {:induction false} PaddedRoundTrip(data: seq<Byte>)
    ensures Decode(Encode(data)) == Some(data)
  {
    hide Letter, Value, Letters;
    if |data| == 1 {
      OneByteRoundTrip(data);
    } else if |data| == 2 {
      TwoBytesRoundTrip(data);
    } else if |data| >= 3 {
      PaddedRoundTrip(data[3..]);
      GroupRoundTrip(data[0], data[1], data[2], Encode(data[3..]));
      assert data == [data[0], data[1], data[2]] + data[3..];
    }
  }

  /** How many of the letters of Encode(data) carry data. */
  function Carrying(n: nat): (k: nat)
    ensures k % 4 != 1
  {
    if n >= 3 then 4 + Carrying(n - 3) else if n == 0 then 0 else n + 1
  }

  /** A text whose letters come first and whose pads fill the last group. */
  ghost predicate PadsFrom(text: string, k: nat) {
    |text| == k + |Padding(k)| && forall i :: 0 <= i < |text| ==> (text[i] == '=' <==> i >= k)
  }

  lemma GroupShape(a: Sextet, b: Sextet, c: Sextet, d: Sextet, rest: string, k: nat)
    requires PadsFrom(rest, k)
    ensures PadsFrom(Letters(a, b, c, d) + rest, 4 + k)
  {
    hide Letter;
    LetterRoundTrip(a);
    LetterRoundTrip(b);
    LetterRoundTrip(c);
    LetterRoundTrip(d);
    var text := Letters(a, b, c, d) + rest;
    forall i | 0 <= i < |text|
      ensures text[i] == '=' <==> i >= 4 + k
    {
      assert i >= 4 ==> text[i] == rest[i - 4];
    }
  }

  lemma {:induction false} EncodeShape(data: seq<Byte>)
    ensures PadsFrom(Encode(data), Carrying(|data|))
  {
    if |data| >= 3 {
      hide Letters, PadsFrom, Letter;
      var x, y, z := data[0], data[1], data[2];
      EncodeShape(data[3..]);
      GroupShape(x / 4, x % 4 * 16 + y / 16, y % 16 * 4 + z / 64, z % 64, Encode(data[3..]), Carrying(|data| - 3));
    }
  }

  lemma {:induction false} StripPads(text: string, k: nat)
    requires k <= |text| && forall i :: 0 <= i < |text| ==> (text[i] == '=' <==> i >= k)
    ensures Strip(text) == text[..k]
  {
    if k < |text| {
      StripPads(text[..|text| - 1], k);
      assert text[..|text| - 1][..k] == text[..k];
    } else {
      assert text[..k] == text;
    }
  }

  /** The stored text never has length 1 mod 4, and the padding put back is exactly what was stripped. */
  lemma PaddingRestored(data: seq<Byte>)
    ensures |B64Encode(data)| % 4 != 1
    ensures B64Encode(data) + Padding(|B64Encode(data)|) == Encode(data)
    ensures '=' !in B64Encode(data)
  {
    EncodeShape(data);
    StripPads(Encode(data), Carrying(|data|));
  }

  /** Reading back what was written gives the same bytes. */
  lemma B64RoundTrip(data: seq<Byte>)
    ensures B64Decode(B64Encode(data)) == Some(data)
  {
    PaddingRestored(data);
    PaddedRoundTrip(data);
  }

  /** The alphabet of table 2 of RFC 4648 by character codes: A to Z, a to z, 0 to 9, the hyphen and the underscore. */
  lemma LetterExactly(v: Sextet)
    ensures Letter(v) as int
            == if v < 26 then 65 + v else if v < 52 then 97 + v - 26 else if v < 62 then 48 + v - 52
               else if v == 62 then 45 else 95
  {
  }

  /** The six bits of the data from bit 6 * j on; bits after the last byte are zero. */
  function SextetAt(data: seq<Byte>, j: nat): Sextet
    requires j * 6 / 8 < |data|
  {
    var k := j * 6 / 8;
    var next := if k + 1 < |data| then data[k + 1] as int else 0;
    match j % 4
    case 0 => data[k] / 4
    case 1 => data[k] % 4 * 16 + next / 16
    case 2 => data[k] % 16 * 4 + next / 64
    case _ => data[k] % 64
  }

  lemma FullLetters(data: seq<Byte>, j: nat)
    requires |data| >= 3 && j < 4
    ensures |Encode(data)| > j && Encode(data)[j] == Letter(SextetAt(data, j))
  {
    hide Letter;
    assert j * 6 / 8 == if j == 0 then 0 else j - 1;
    assert Encode(data) == Letters(data[0] / 4, data[0] % 4 * 16 + data[1] / 16, data[1] % 16 * 4 + data[2] / 64,
                                   data[2] % 64) + Encode(data[3..]);
  }

  lemma ShortLetters(data: seq<Byte>, j: nat)
    requires 1 <= |data| <= 2 && j <= |data|
    ensures j * 6 / 8 < |data| && |Encode(data)| > j && Encode(data)[j] == Letter(SextetAt(data, j))
  {
    hide Letter;
    assert j * 6 / 8 == if j == 0 then 0 else j - 1;
  }

  lemma FirstLetters(data: seq<Byte>, j: nat)
    requires j < Carrying(|data|) && j < 4
    ensures j * 6 / 8 < |data| && |Encode(data)| > j && Encode(data)[j] == Letter(SextetAt(data, j))
  {
    hide Letter, SextetAt, Encode;
    if |data| >= 3 { FullLetters(data, j); } else { ShortLetters(data, j); }
  }

  lemma LaterSextet(data: seq<Byte>, j: nat)
    requires j >= 4 && |data| >= 3 && j * 6 / 8 < |data|
    ensures (j - 4) * 6 / 8 < |data[3..]| && SextetAt(data, j) == SextetAt(data[3..], j - 4)
  {
    assert (j - 4) * 6 / 8 == j * 6 / 8 - 3;
  }

  /** Letter j of the text stands for six bits of the data, in order. */
  lemma {:induction false} LettersExactly(data: seq<Byte>, j: nat)
    requires j < Carrying(|data|)
    ensures j * 6 / 8 < |data| && |Encode(data)| > j
    ensures Encode(data)[j] == Letter(SextetAt(data, j))
    decreases |data|
  {
    hide Letter, SextetAt;
    if j < 4 {
      FirstLetters(data, j);
    } else {
      LettersExactly(data[3..], j - 4);
      LaterSextet(data, j);
    }
  }

  /** The stored text is these letters: as many as the bits of the data need. */
  lemma B64EncodeExactly(data: seq<Byte>, j: nat)
    ensures |B64Encode(data)| == (4 * |data| + 2) / 3
    ensures j < |B64Encode(data)| ==> |Encode(data)| > j && B64Encode(data)[j] == Encode(data)[j]
  {
    EncodeShape(data);
    StripPads(Encode(data), Carrying(|data|));
    CarryingExactly(|data|);
  }

  lemma CarryingExactly(n: nat)
    ensures Carrying(n) == (4 * n + 2) / 3
  {
  }
}
