/** A schedule of the transport in which a host does not get an answer: one that is too long to be reassembled. */
module CtapHidWitness {
  import opened Bytes
  import opened CtapHidFraming
  import opened CtapHidChannel
  import opened CtapHidFeed
  import opened CtapHidThreads
  import opened CtapHidGuarantees

  lemma AfterSnoc(steps: seq<Step>, w: World, s: Step)
    requires After(steps) == Some(w) && Enabled(w, s)
    ensures After(steps + [s]) == Some(Do(w, s))
  {
    hide Do, Enabled;
    assert (steps + [s])[..|steps|] == steps;
  }

  /** How much of its message the holder of the send lock has left. */
  function Left(f: InFlight): int {
    match f.stage
    case Header => |f.message.data| + 1
    case Body(offset, _) => |f.message.data| - offset
    case Failed => 0
  }

  lemma EmitShrinks(f: InFlight)
    requires StageFits(f) && !Done(f)
    ensures StageFits(f.(stage := EmitOne(f).1)) && 0 <= Left(f.(stage := EmitOne(f).1)) < Left(f)
  {
    hide PackWord, PackShort, PadTo;
    EmitBuilds(f);
    if f.stage.Body? { NeededIsExact(|f.message.data|, f.stage.number); }
  }

  /** The holder of the send lock can write its message to the end. */
  lemma Drains(steps: seq<Step>, w: World) returns (steps': seq<Step>, w': World)
    requires After(steps) == Some(w) && w.sending.Some? && StageFits(w.sending.value)
    ensures After(steps') == Some(w') && w'.sending.Some? && Done(w'.sending.value)
    ensures w'.sending.value.owner == w.sending.value.owner && w'.sending.value.message == w.sending.value.message
    ensures w' == w.(wire := w'.wire, sending := w'.sending)
  {
    hide After, EmitOne, StageFits;
    steps', w' := steps, w;
    while !Done(w'.sending.value)
      invariant After(steps') == Some(w') && w'.sending.Some? && StageFits(w'.sending.value)
      invariant w'.sending.value.owner == w.sending.value.owner && w'.sending.value.message == w.sending.value.message
      invariant w' == w.(wire := w'.wire, sending := w'.sending)
      decreases Left(w'.sending.value)
    {
      EmitShrinks(w'.sending.value);
      AfterSnoc(steps', w', Emit);
      steps', w' := steps' + [Emit], Do(w', Emit);
    }
  }

  /** Letting go of the send lock. */
  lemma LetsGo(w: World)
    requires Enabled(w, Release) && Pending(w, w.sending.value.owner).Some? && !w.sending.value.owner.Keepalive?
    ensures var w' := Do(w, Release);
            && w'.sending.None? && w'.log == w.log && w'.dev == w.dev
            && (w.sending.value.owner.FeedThread? ==>
                  w'.txns == w.txns && (!w.sending.value.stage.Failed? ==> w'.feed == Ready))
  {
  }

  /** A thread that wants to send, and finds the send lock free, can get its message logged and let go of the lock. */
  lemma Sends(steps: seq<Step>, w: World, t: Thread, m: Message) returns (steps': seq<Step>, w': World)
    requires After(steps) == Some(w) && w.sending.None? && Pending(w, t) == Some(m) && !t.Keepalive?
    ensures After(steps') == Some(w') && w'.sending.None? && w'.log == w.log + [Entry(t, m)] && w'.dev == w.dev
    ensures t.FeedThread? ==> w'.txns == w.txns && (|m.data| < 0x1_0000 ==> w'.feed == Ready)
  {
    hide After, EmitOne;
    AfterSnoc(steps, w, Acquire(t));
    var w1 := Do(w, Acquire(t));
    var steps2, w2 := Drains(steps + [Acquire(t)], w1);
    assert Pending(w2, t) == Pending(w, t);
    Invariant(steps2);
    hide InvActive, InvTxns, InvLog, InvDesk, InvFed, WireOf, Written;
    AfterSnoc(steps2, w2, Release);
    LetsGo(w2);
    hide Do, Enabled;
    steps', w' := steps2 + [Release], Do(w2, Release);
  }

  /** One more step. */
  lemma Takes(steps: seq<Step>, w: World, s: Step) returns (steps': seq<Step>, w': World)
    requires After(steps) == Some(w) && Enabled(w, s)
    ensures After(steps') == Some(w') && w' == Do(w, s)
  {
    AfterSnoc(steps, w, s);
    steps', w' := steps + [s], Do(w, s);
  }

  /** The host opens a channel. */
  lemma Opens() returns (steps: seq<Step>, w: World)
    ensures After(steps) == Some(w) && w.sending.None? && w.feed == Ready && w.txns == [] && |w.log| == 1
    ensures w.log[0].owner == FeedThread
    ensures w.dev == Fresh.(nextCid := 2, channels := map[1 := Idle])
  {
    var m := Message(CID_BROADCAST, CTAPHID_INIT, [0, 0, 0, 0, 0, 0, 0, 0]);
    var r := Fragment(m, 0);
    FirstFragmentParses(m);
    hide Fragment, Parse, After, InitReply;
    assert After([]) == Some(Initial) by { InitialAfter(); }
    steps, w := Takes([], Initial, FeedReceive(r));
    assert Parse(r).payload[..NONCE_LENGTH] == m.data;
    assert w.feed == Allocate(m.data);
    steps, w := Takes(steps, w, FeedMove);
    assert w.feed.Sending?;
    steps, w := Sends(steps, w, FeedThread, w.feed.message);
  }

  lemma InitialAfter()
    ensures After([]) == Some(Initial)
  {
  }

  /** It asks for something on it. */
  lemma Asks() returns (steps: seq<Step>, w: World, payload: seq<Byte>)
    ensures After(steps) == Some(w) && w.sending.None? && w.txns == [] && |w.log| == 1
    ensures w.log[0].owner == FeedThread
    ensures w.dev == Fresh.(nextCid := 2, channels := map[1 := Idle])
    ensures |payload| == INIT_PAYLOAD && payload[..1] == [4]
    ensures w.feed == CheckBusy(1, Start(CTAPHID_CBOR, 1, payload))
  {
    var m := Message(1, CTAPHID_CBOR, [4]);
    var r := Fragment(m, 0);
    FirstFragmentParses(m);
    hide Fragment, Parse, After;
    steps, w := Opens();
    steps, w := Takes(steps, w, FeedReceive(r));
    payload := Parse(r).payload;
  }

  /** And a transaction starts. */
  lemma Begins() returns (steps: seq<Step>, w: World)
    ensures After(steps) == Some(w) && w.sending.None? && |w.log| == 1 && w.log[0].owner == FeedThread
    ensures w.txns == [Txn(1, [4], Spawned, NotStarted, [])]
    ensures w.feed == Ready && w.dev.active == Some(1) && !w.dev.cancelled
  {
    hide After, Parse;
    var payload;
    steps, w, payload := Asks();
    steps, w := Takes(steps, w, FeedMove);
    assert w.feed == StartCbor(1, [4]);
    steps, w := Takes(steps, w, FeedMove);
  }

  /** Whatever the authenticator answers, there is a schedule in which this answer is the last message sent. */
  lemma AnyResponse(response: seq<Byte>) returns (steps: seq<Step>, w: World)
    ensures After(steps) == Some(w) && w.sending.None? && |w.log| == 2
    ensures w.log[1] == Entry(Worker(0), Message(1, CTAPHID_CBOR, response))
  {
    hide After;
    steps, w := Begins();
    steps, w := Takes(steps, w, StartKeepalive(0));
    steps, w := Takes(steps, w, HandlerReturns(0, response));
    steps, w := Takes(steps, w, KeepaliveExits(0));
    steps, w := Takes(steps, w, Join(0));
    steps, w := Takes(steps, w, LockedRead(0));
    steps, w := Sends(steps, w, Worker(0), Message(1, CTAPHID_CBOR, response));
  }

  /** What the host does not read is not among what it reads. */
  lemma {:induction false} LongIsUnread(ms: seq<Message>, m: Message)
    requires |m.data| > MAX_PAYLOAD
    ensures m !in Readable(ms)
  {
    if ms != [] { LongIsUnread(ms[..|ms| - 1], m); }
  }

  /** A response of 7610 bytes or more is logged in such a schedule, and the host does not read it. */
  lemma LongResponseIsLost(response: seq<Byte>) returns (steps: seq<Step>, w: World)
    requires |response| > MAX_PAYLOAD
    ensures After(steps) == Some(w) && w.sending.None?
    ensures w.log != [] && w.log[|w.log| - 1] == Entry(Worker(0), Message(1, CTAPHID_CBOR, response))
    ensures Message(1, CTAPHID_CBOR, response) !in HostRun(w.wire).1
  {
    hide After, HostRun;
    steps, w := AnyResponse(response);
    WholeMessages(steps, w);
    LongIsUnread(MessagesOf(w.log), Message(1, CTAPHID_CBOR, response));
  }
}
