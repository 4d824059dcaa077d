/** The classes Channel and CtapHidDevice as one thread runs them, proved against CtapHidFeed. */
module CtapHidDevice {
  import opened Bytes
  import opened CtapHidFraming
  import opened CtapHidChannel
  import F = CtapHidFeed

  /** The reports that the messages sent in a list of effects put on the wire. */
  function WireOf(effects: seq<F.Effect>): seq<Report> {
    if effects == [] then []
    else
      var last := effects[|effects| - 1];
      WireOf(effects[..|effects| - 1]) + if last.Send? then Fragments(last.message) else []
  }

  lemma WireOfSnoc(effects: seq<F.Effect>, e: F.Effect)
    ensures WireOf(effects + [e]) == WireOf(effects) + if e.Send? then Fragments(e.message) else []
  {
    assert (effects + [e])[..|effects|] == effects;
  }

  class Channel {
    const cid: nat
    var command: Option<Command>
    var expectedLength: nat
    var buffer: seq<Byte>
    var nextSeq: nat

    constructor (cid: nat)
      ensures this.cid == cid && Value() == Idle
    {
      this.cid := cid;
      command, expectedLength, buffer, nextSeq := None, 0, [], 0;
    }

    ghost function Value(): Chan
      reads this
    {
      Chan(command, expectedLength, buffer, nextSeq)
    }

    method Reset()
      modifies this
      ensures Value() == Idle
    {
      command, expectedLength, buffer, nextSeq := None, 0, [], 0;
    }

    /** An accepted initialization frame: whatever was being reassembled is dropped. */
    method Begin(command: Command, length: nat, payload: seq<Byte>) returns (out: Output)
      requires Consistent(Value()) && Wellformed(Start(command, length, payload))
      modifies this
      ensures (Value(), out) == ChanStep(old(Value()), Start(command, length, payload))
    {
      Reset();
      this.command := Some(command);
      expectedLength := length;
      buffer := payload[..Min(length, INIT_PAYLOAD)];
      nextSeq := 0;
      out := Nothing;
      if |buffer| >= length {
        out := Complete();
      }
    }

    /** A continuation frame; ignored on an idle channel. */
    method Append(number: nat, payload: seq<Byte>) returns (out: Output)
      requires Consistent(Value()) && Wellformed(Continue(number, payload))
      modifies this
      ensures (Value(), out) == ChanStep(old(Value()), Continue(number, payload))
    {
      if command == None {
        return Nothing;
      }
      if number != nextSeq {
        Reset();
        return SequenceError;
      }
      nextSeq := nextSeq + 1;
      var remaining := expectedLength - |buffer|;
      buffer := buffer + payload[..Min(remaining, CONT_PAYLOAD)];
      out := Nothing;
      if |buffer| >= expectedLength {
        out := Complete();
      }
    }

    /** Hands over a complete message and clears the channel. */
    method Complete() returns (out: Output)
      requires command.Some?
      modifies this
      ensures out == Dispatched(old(command).value, old(buffer)) && Value() == Idle
    {
      out := Dispatched(command.value, buffer);
      Reset();
    }
  }

  /** One more continuation frame: the chunk at offset is what the next fragment carries. */
  lemma NextFrame(m: Message, offset: nat, number: nat)
    requires |m.data| < 0x1_0000 && number <= Needed(|m.data|)
    requires offset == Carried(|m.data|, number) < |m.data|
    ensures number < Needed(|m.data|)
    ensures var chunk := m.data[offset..Min(offset + CONT_PAYLOAD, |m.data|)];
            && Carried(|m.data|, number + 1) == offset + |chunk| && |chunk| > 0
            && |PackWord(m.cid) + [number % 0x80] + chunk| <= HID_REPORT_SIZE
            && PadTo(PackWord(m.cid) + [number % 0x80] + chunk, HID_REPORT_SIZE) == Fragment(m, number + 1)
  {
    hide PackWord, PackShort, PadTo;
    NeededIsExact(|m.data|, number);
    assert m.data[offset..Min(offset + CONT_PAYLOAD, |m.data|)]
           == m.data[Carried(|m.data|, number)..Carried(|m.data|, number + 1)];
  }

  lemma AllCarried(length: nat, k: nat)
    requires k <= Needed(length) && Carried(length, k) >= length
    ensures k == Needed(length)
  {
    NeededIsExact(length, k);
  }

  class CtapHidDevice {
    var channels: map<nat, Channel>
    var nextCid: nat
    var activeCid: Option<nat>
    var cancelled: bool
    var cancelReply: bool
    /** The reports written so far. */
    var wire: seq<Report>
    /** What has been done so far. */
    ghost var effects: seq<F.Effect>

    ghost function State(): F.Dev
      reads `channels, `nextCid, `activeCid, `cancelled, `cancelReply, channels.Values
    {
      F.Dev(map c | c in channels :: channels[c].Value(), nextCid, activeCid, cancelled, cancelReply)
    }

    /** Every channel sits under its own id, and the wire carries exactly the messages sent. */
    ghost predicate Valid()
      reads this, channels.Values
    {
      && (forall c :: c in channels ==> channels[c].cid == c)
      && F.ValidDev(State())
      && wire == WireOf(effects)
    }

    constructor ()
      ensures Valid() && State() == F.Fresh && effects == []
    {
      channels, nextCid, activeCid, cancelled, cancelReply := map[], 1, None, false, true;
      wire, effects := [], [];
    }

    /** Writes a message as an Init frame and continuation frames; fails before the first if it is too long. */
    method SendFrames(m: Message) returns (ok: bool)
      modifies `wire
      ensures wire == old(wire) + Fragments(m)
      ensures ok <==> |m.data| < 0x1_0000
    {
      hide PackWord, PackShort;
      ok := |m.data| < 0x1_0000;
      if !ok { return; }
      var length := |m.data|;
      var chunk := m.data[..Min(length, INIT_PAYLOAD)];
      var frame := PackWord(m.cid) + [0x80 + m.command] + PackShort(length) + chunk;
      wire := wire + [PadTo(frame, HID_REPORT_SIZE)];
      var offset := |chunk|;
      var number := 0;
      assert wire == old(wire) + FirstFragments(m, 1);
      assert number <= Needed(length) && offset == Carried(length, number);
      hide Fragment, PadTo, Needed, Carried;
      while offset < length
        invariant 0 <= number <= Needed(length) && offset == Carried(length, number)
        invariant wire == old(wire) + FirstFragments(m, number + 1)
        decreases length - offset
      {
        NextFrame(m, offset, number);
        chunk := m.data[offset..Min(offset + CONT_PAYLOAD, length)];
        frame := PackWord(m.cid) + [number % 0x80] + chunk;
        wire := wire + [PadTo(frame, HID_REPORT_SIZE)];
        offset := offset + |chunk|;
        number := number + 1;
      }
      AllCarried(length, number);
    }

    method SendMessage(m: Message) returns (ok: bool)
      requires Valid()
      modifies `wire, `effects
      ensures Valid()
      ensures effects == old(effects) + [F.Send(m)] && wire == old(wire) + Fragments(m)
      ensures ok <==> |m.data| < 0x1_0000
    {
      hide WireOf, Fragments;
      ok := SendFrames(m);
      effects := effects + [F.Send(m)];
      WireOfSnoc(old(effects), F.Send(m));
    }

    method SendError(cid: Cid, code: Byte)
      requires Valid()
      modifies `wire, `effects
      ensures Valid()
      ensures effects == old(effects) + [F.Send(F.Error(cid, code))]
    {
      var _ := SendMessage(Message(cid, CTAPHID_ERROR, [code]));
    }

    /** Flags the running transaction if it belongs to this channel, and aborts its face check. */
    method CancelActive(cid: Cid, reply: bool)
      requires Valid()
      modifies `cancelled, `cancelReply, `effects
      ensures Valid()
      ensures var (d, es) := F.CancelActive(old(State()), cid, reply);
              State() == d && effects == old(effects) + es
    {
      hide WireOf, Fragments;
      if activeCid != Some(cid) { return; }
      cancelled := true;
      cancelReply := reply;
      effects := effects + [F.Abort];
      WireOfSnoc(old(effects), F.Abort);
    }

    method StartCbor(cid: Cid, payload: seq<Byte>)
      requires Valid() && cid in channels
      modifies `wire, `effects, `activeCid, `cancelled
      ensures Valid()
      ensures var (d, es) := F.Begin(old(State()), cid, payload);
              State() == d && effects == old(effects) + es
    {
      hide WireOf, Fragments;
      if payload == [] {
        SendError(cid, F.ERR_INVALID_LEN);
        return;
      }
      if activeCid.Some? {
        SendError(cid, F.ERR_CHANNEL_BUSY);
        return;
      }
      activeCid, cancelled := Some(cid), false;
      effects := effects + [F.Spawn(cid, payload)];
      WireOfSnoc(old(effects), F.Spawn(cid, payload));
    }

    /** Acts on a complete message. */
    method Act(m: Message)
      requires Valid() && m.cid in channels
      modifies `wire, `effects, `activeCid, `cancelled
      ensures Valid()
      ensures var (d, es) := F.Act(old(State()), m);
              State() == d && effects == old(effects) + es
    {
      hide WireOf, Fragments;
      if m.command == CTAPHID_PING {
        var _ := SendMessage(Message(m.cid, CTAPHID_PING, m.data));
      } else if m.command == CTAPHID_WINK {
        var _ := SendMessage(Message(m.cid, CTAPHID_WINK, []));
      } else if m.command == CTAPHID_MSG {
        SendError(m.cid, F.ERR_INVALID_CMD);
      } else if m.command == CTAPHID_CBOR {
        StartCbor(m.cid, m.data);
      } else if m.command == CTAPHID_LOCK {
        var _ := SendMessage(Message(m.cid, CTAPHID_LOCK, []));
      } else {
        SendError(m.cid, F.ERR_INVALID_CMD);
      }
    }

    method Deliver(m: Message)
      requires Valid() && m.cid in channels
      modifies `wire, `effects, `activeCid, `cancelled
      ensures Valid()
      ensures var (d, es) := F.Deliveries(old(State()), m);
              State() == d && effects == old(effects) + es
    {
      hide WireOf, Fragments;
      effects := effects + [F.Deliver(m)];
      WireOfSnoc(old(effects), F.Deliver(m));
      Act(m);
      ghost var es := F.Act(old(State()), m).1;
      assert old(effects) + [F.Deliver(m)] + es == old(effects) + ([F.Deliver(m)] + es);
    }

    /** Reacts to what channel cid made of a frame. */
    method React(cid: Cid, out: Output)
      requires Valid() && cid in channels
      modifies `wire, `effects, `activeCid, `cancelled
      ensures Valid()
      ensures var (d, es) := F.Outcome(old(State()), cid, out);
              State() == d && effects == old(effects) + es
    {
      hide WireOf, Fragments;
      match out
      case Nothing =>
      case SequenceError => SendError(cid, F.ERR_INVALID_SEQ);
      case Dispatched(command, payload) => Deliver(Message(cid, command, payload));
    }

    /** An initialization frame that no other rule caught starts a message on its channel. */
    method StartMessage(cid: Cid, command: Command, length: nat, payload: seq<Byte>)
      requires Valid() && cid in channels && Wellformed(Start(command, length, payload))
      modifies this, channels[cid]
      ensures Valid() && channels == old(channels)
      ensures var (d, es) := F.Absorb(old(State()), cid, Start(command, length, payload));
              State() == d && effects == old(effects) + es
    {
      hide WireOf, Fragments;
      assert State().channels[cid] == channels[cid].Value();
      var out := channels[cid].Begin(command, length, payload);
      ghost var now := channels[cid].Value();
      assert State() == F.Updated(old(State()), cid, now);
      React(cid, out);
    }

    method HandleContFrame(cid: Cid, number: nat, payload: seq<Byte>)
      requires Valid() && Wellformed(Continue(number, payload))
      modifies this, if cid in channels then {channels[cid]} else {}
      ensures Valid() && channels == old(channels)
      ensures var (d, es) := F.Continuation(old(State()), cid, Continue(number, payload));
              State() == d && effects == old(effects) + es
    {
      hide WireOf, Fragments, F.Outcome;
      if cid !in channels { return; }
      assert State().channels[cid] == channels[cid].Value();
      var out := channels[cid].Append(number, payload);
      ghost var now := channels[cid].Value();
      assert State() == F.Updated(old(State()), cid, now);
      React(cid, out);
    }

    /** Takes the next channel id. */
    method Register() returns (newCid: nat)
      requires Valid()
      modifies `nextCid, `channels
      ensures Valid() && newCid == old(nextCid) && State() == F.Allocated(old(State()))
      ensures newCid in channels && fresh(channels[newCid])
      ensures channels == old(channels)[newCid := channels[newCid]]
    {
      hide WireOf, Fragments, Consistent;
      ghost var before := State();
      assert nextCid !in before.channels;
      newCid := nextCid;
      var channel := new Channel(newCid);
      nextCid := nextCid + 1;
      channels := channels[newCid := channel];
      assert State() == F.Allocated(before) by {
        assert State().channels == before.channels[newCid := Idle];
      }
    }

    /** CTAPHID_INIT on the broadcast channel allocates a channel; raises when the new id no longer fits. */
    method AllocateChannel(nonce: seq<Byte>) returns (raised: bool)
      requires Valid() && |nonce| == F.NONCE_LENGTH
      modifies this
      ensures Valid() && fresh(channels.Values - old(channels.Values))
      ensures var (d, es) := F.Initialise(old(State()), CID_BROADCAST, nonce);
              State() == d && effects == old(effects) + es
      ensures raised <==> old(nextCid) >= 0x1_0000_0000
    {
      hide WireOf, Fragments;
      var newCid := Register();
      raised := newCid >= 0x1_0000_0000;
      if raised {
        effects := effects + [F.Raise];
        WireOfSnoc(old(effects), F.Raise);
      } else {
        var _ := SendMessage(F.InitReply(CID_BROADCAST, newCid, nonce));
      }
    }

    method ClearChannel(cid: Cid)
      requires Valid()
      modifies if cid in channels then {channels[cid]} else {}
      ensures Valid() && State() == F.Reset(old(State()), cid)
    {
      hide WireOf, Fragments;
      if cid in channels {
        channels[cid].Reset();
        assert State().channels == old(State()).channels[cid := Idle];
      }
    }

    /** CTAPHID_INIT on another channel clears it and aborts its transaction. */
    method Resync(cid: Cid, nonce: seq<Byte>)
      requires Valid() && |nonce| == F.NONCE_LENGTH
      modifies this, if cid in channels then {channels[cid]} else {}
      ensures Valid() && channels == old(channels)
      ensures var (d, es) := F.CancelActive(F.Reset(old(State()), cid), cid, false);
              State() == d && effects == old(effects) + (es + [F.Send(F.InitReply(cid, cid, nonce))])
    {
      hide WireOf, Fragments, F.Reset, F.CancelActive, F.InitReply;
      ClearChannel(cid);
      CancelActive(cid, false);
      var _ := SendMessage(F.InitReply(cid, cid, nonce));
    }

    method HandleCtapHidInit(cid: Cid, nonce: seq<Byte>) returns (raised: bool)
      requires Valid() && |nonce| <= INIT_PAYLOAD
      modifies this, if cid in channels then {channels[cid]} else {}
      ensures Valid() && fresh(channels.Values - old(channels.Values))
      ensures var (d, es) := F.Initialise(old(State()), cid, nonce);
              State() == d && effects == old(effects) + es
      ensures raised <==> |nonce| == F.NONCE_LENGTH && cid == CID_BROADCAST && old(nextCid) >= 0x1_0000_0000
    {
      raised := false;
      if |nonce| != F.NONCE_LENGTH {
        SendError(cid, F.ERR_INVALID_LEN);
      } else if cid == CID_BROADCAST {
        raised := AllocateChannel(nonce);
      } else {
        Resync(cid, nonce);
      }
    }

    method HandleInitFrame(cid: Cid, command: Command, length: nat, payload: seq<Byte>) returns (raised: bool)
      requires Valid() && Wellformed(Start(command, length, payload))
      modifies this, if cid in channels then {channels[cid]} else {}
      ensures Valid() && fresh(channels.Values - old(channels.Values))
      ensures var (d, es) := F.InitFrame(old(State()), cid, command, length, payload);
              State() == d && effects == old(effects) + es
      ensures raised ==> effects == old(effects) + [F.Raise]
    {
      hide WireOf, Fragments;
      raised := false;
      if command == CTAPHID_INIT {
        raised := HandleCtapHidInit(cid, payload[..Min(length, INIT_PAYLOAD)]);
      } else if cid == CID_BROADCAST || cid !in channels {
        SendError(cid, F.ERR_INVALID_CHANNEL);
      } else if command == CTAPHID_CANCEL {
        CancelActive(cid, true);
      } else if activeCid != None && activeCid != Some(cid) {
        SendError(cid, F.ERR_CHANNEL_BUSY);
      } else {
        StartMessage(cid, command, length, payload);
      }
    }

    /** Handles one report from the host. */
    method FeedReport(r: Report) returns (raised: bool)
      requires Valid()
      modifies this, channels.Values
      ensures Valid() && fresh(channels.Values - old(channels.Values))
      ensures var (d, es) := F.FeedReport(old(State()), r);
              State() == d && effects == old(effects) + es
      ensures raised ==> effects == old(effects) + [F.Raise]
    {
      raised := false;
      match Parse(r)
      case Init(cid, command, length, payload) => raised := HandleInitFrame(cid, command, length, payload);
      case Cont(cid, number, payload) => HandleContFrame(cid, number, payload);
    }
  }
}
