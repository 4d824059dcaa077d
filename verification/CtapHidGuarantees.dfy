/** What holds in every schedule of the transport's threads. */
module CtapHidGuarantees {
  import opened Bytes
  import opened CtapHidFraming
  import opened CtapHidChannel
  import opened CtapHidFeed
  import opened CtapHidThreads
  import S = CtapHidStreams

  // ---------- the wire ----------

  function WireOf(log: seq<Entry>): seq<Report> {
    if log == [] then [] else WireOf(log[..|log| - 1]) + Fragments(log[|log| - 1].message)
  }

  /** What the holder of the send lock has written of its message. */
  function Written(f: InFlight): seq<Report>
    requires StageFits(f)
  {
    if f.stage.Body? then FirstFragments(f.message, f.stage.number + 1) else []
  }

  ghost predicate StageFits(f: InFlight) {
    match f.stage
    case Header => true
    case Body(offset, number) =>
      |f.message.data| < 0x1_0000 && number <= Needed(|f.message.data|) && offset == Carried(|f.message.data|, number)
    case Failed => |f.message.data| >= 0x1_0000
  }

  /** The wire carries the logged messages whole and in order, and a beginning of the one being sent. */
  ghost predicate InvWire(w: World) {
    match w.sending
    case None => w.wire == WireOf(w.log)
    case Some(f) => StageFits(f) && w.log != [] && w.wire == WireOf(w.log[..|w.log| - 1]) + Written(f)
  }

  lemma EmitBuilds(f: InFlight)
    requires StageFits(f) && !Done(f)
    ensures var (reports, stage) := EmitOne(f);
            var f' := f.(stage := stage);
            StageFits(f') && Written(f') == Written(f) + reports
  {
    hide PackWord, PackShort;
    var m := f.message;
    if f.stage.Body? {
      var number := f.stage.number;
      NeededIsExact(|m.data|, number);
      assert m.data[f.stage.offset..Min(f.stage.offset + CONT_PAYLOAD, |m.data|)]
             == m.data[Carried(|m.data|, number)..Carried(|m.data|, number + 1)];
      assert EmitOne(f).0 == [Fragment(m, number + 1)];
    } else if |m.data| < 0x1_0000 {
      assert EmitOne(f).0 == [Fragment(m, 0)];
      assert FirstFragments(m, 1) == [] + [Fragment(m, 0)];
    }
  }

  lemma EmitKeepsWire(w: World)
    requires InvWire(w) && Enabled(w, Emit)
    ensures InvWire(Emits(w))
  {
    hide EmitOne, StageFits, Written, WireOf;
    EmitBuilds(w.sending.value);
  }

  lemma WrittenWhenDone(f: InFlight)
    requires StageFits(f) && Done(f)
    ensures Written(f) == Fragments(f.message)
  {
    if f.stage.Body? { NeededIsExact(|f.message.data|, f.stage.number); }
  }

  lemma ReleaseKeepsWire(w: World)
    requires InvWire(w) && InvSending(w) && Enabled(w, Release)
    ensures InvWire(Releases(w))
  {
    hide StageFits, Written, Fragments;
    WrittenWhenDone(w.sending.value);
  }

  lemma WireKept(w: World, s: Step)
    requires InvWire(w) && InvSending(w) && Enabled(w, s)
    ensures InvWire(Do(w, s))
  {
    hide Receives, Moves, Emits, Releases, Fragments;
    match s {
      case FeedReceive(r) => WireUntouched(w, s);
      case FeedMove => WireUntouched(w, s);
      case Acquire(t) =>
        var e := Entry(t, Pending(w, t).value);
        assert (w.log + [e])[..|w.log|] == w.log;
        assert w.wire + [] == w.wire;
      case Emit => EmitKeepsWire(w);
      case Release => ReleaseKeepsWire(w);
      case _ => WireUntouched(w, s);
    }
  }

  lemma WireUntouched(w: World, s: Step)
    requires Enabled(w, s) && !s.Acquire? && !s.Emit? && !s.Release?
    ensures var w' := Do(w, s); w'.wire == w.wire && w'.sending == w.sending && w'.log == w.log
  {
    hide Receive, FeedStep, ValidDev, ValidPhase, S.Delivered;
  }

  // ---------- the channels ----------

  /** What the feed thread still has to do to the channels agrees with the report it is handling. */
  ghost predicate PhaseFits(w: World) {
    var f := Parse(w.current);
    match w.feed
    case CheckBusy(cid, start) =>
      f.Init? && f.cid == cid && cid != CID_BROADCAST && f.command != CTAPHID_INIT && f.command != CTAPHID_CANCEL
      && start == Start(f.command, f.length, f.payload)
    case Allocate(nonce) => S.Allocates(f)
    case _ => true
  }

  /** The channels and the delivered messages are what the inputs so far lead to. */
  ghost predicate InvDesk(w: World) {
    && PhaseFits(w)
    && (S.DeskOf(w.dev), w.delivered) == S.HandleAll(S.Desk(map[], 1), w.inputs)
  }

  lemma DeliveredByReact(cid: Cid, out: Output)
    ensures S.Delivered(React(cid, out).1) == S.DispatchedOn(cid, out)
  {
    hide Dispatch;
    if out.Dispatched? { S.DeliveredSnoc([], Deliver(Message(cid, out.command, out.payload))); }
  }

  lemma DeliveredByTake(d: Dev, cid: Cid, e: Event)
    requires ValidDev(d) && cid in d.channels && Wellformed(e)
    ensures var m := Take(d, cid, e);
            S.DeskOf(m.dev) == S.DeskOf(d).(channels := d.channels[cid := ChanStep(d.channels[cid], e).0])
            && S.Delivered(m.effects) == S.DispatchedOn(cid, ChanStep(d.channels[cid], e).1)
  {
    assert Consistent(d.channels[cid]);
    hide ChanStep, React, S.Delivered, S.DispatchedOn, ValidDev, Consistent;
    DeliveredByReact(cid, ChanStep(d.channels[cid], e).1);
  }

  /** What the local part of a report does to the channels is what Handle says, unless a lock comes first. */
  lemma ReceiveHandles(d: Dev, r: Report)
    requires ValidDev(d)
    ensures var m := Receive(d, r);
            && PhaseFits(Initial.(feed := m.phase, current := r))
            && if m.phase.CheckBusy? || m.phase.Allocate? then S.DeskOf(m.dev) == S.DeskOf(d) && m.effects == []
               else S.Handle(S.DeskOf(d), S.Input(r, false)) == (S.DeskOf(m.dev), S.Delivered(m.effects))
  {
    hide ChanStep, Parse;
    var f := Parse(r);
    if f.Cont? && f.cid in d.channels {
      DeliveredByTake(d, f.cid, Continue(f.number, f.payload));
    } else {
      S.NothingDelivered([]);
      if f.cid in d.channels { S.ResyncClears(d.channels[f.cid]); }
    }
  }

  /** A phase of the feed thread changes the channels only where it appends an input. */
  lemma FeedStepHandles(w: World)
    requires InvActive(w) && PhaseFits(w) && Enabled(w, FeedMove)
    ensures var m := FeedStep(w.dev, w.feed);
            && !m.phase.CheckBusy? && !m.phase.Allocate?
            && if w.feed.CheckBusy? || w.feed.Allocate? then
                 var busy := w.feed.CheckBusy? && BusyWithOther(w.dev, w.feed.cid);
                 S.Handle(S.DeskOf(w.dev), S.Input(w.current, busy)) == (S.DeskOf(m.dev), S.Delivered(m.effects))
               else S.DeskOf(m.dev) == S.DeskOf(w.dev) && S.Delivered(m.effects) == []
  {
    hide ChanStep, Parse, Dispatch;
    if w.feed.CheckBusy? && !BusyWithOther(w.dev, w.feed.cid) {
      DeliveredByTake(w.dev, w.feed.cid, w.feed.start);
    } else {
      S.NothingDelivered(FeedStep(w.dev, w.feed).effects);
    }
  }

  lemma DeskKept(w: World, s: Step)
    requires InvDesk(w) && InvActive(w) && Enabled(w, s)
    ensures InvDesk(Do(w, s))
  {
    hide Receive, FeedStep, S.Handle, S.HandleAll, EmitOne, ValidDev, ValidPhase, Parse, S.Delivered;
    match s {
      case FeedReceive(r) =>
        ReceiveHandles(w.dev, r);
        S.HandleAllSnoc(S.Desk(map[], 1), w.inputs, S.Input(r, false));
        S.NothingDelivered([]);
        assert w.delivered + [] == w.delivered && w.inputs + [] == w.inputs;
      case FeedMove =>
        FeedStepHandles(w);
        var busy := w.feed.CheckBusy? && BusyWithOther(w.dev, w.feed.cid);
        S.HandleAllSnoc(S.Desk(map[], 1), w.inputs, S.Input(w.current, busy));
        assert w.delivered + [] == w.delivered;
      case _ =>
    }
  }

  /** The reports that the schedule fed. */
  function Fed(steps: seq<Step>): seq<Report> {
    if steps == [] then []
    else
      var s := steps[|steps| - 1];
      Fed(steps[..|steps| - 1]) + if s.FeedReceive? then [s.report] else []
  }

  function ReportsOf(inputs: seq<S.Input>): seq<Report> {
    if inputs == [] then [] else ReportsOf(inputs[..|inputs| - 1]) + [inputs[|inputs| - 1].report]
  }

  /** The inputs are the fed reports in order, but for one that still waits for a lock. */
  ghost predicate InvFed(w: World, fed: seq<Report>) {
    fed == ReportsOf(w.inputs) + if w.feed.CheckBusy? || w.feed.Allocate? then [w.current] else []
  }

  lemma ReportsOfSnoc(inputs: seq<S.Input>, input: S.Input)
    ensures ReportsOf(inputs + [input]) == ReportsOf(inputs) + [input.report]
  {
    assert (inputs + [input])[..|inputs|] == inputs;
  }

  lemma FedKept(w: World, s: Step, fed: seq<Report>)
    requires InvFed(w, fed) && InvActive(w) && PhaseFits(w) && InvSending(w) && Enabled(w, s)
    ensures InvFed(Do(w, s), fed + if s.FeedReceive? then [s.report] else [])
  {
    hide Receives, Moves, Emits, ValidDev, ValidPhase;
    match s {
      case FeedReceive(r) => FedKeptByReceive(w, r, fed);
      case FeedMove => FedKeptByMove(w, fed);
      case _ => OthersKeepInputs(w, s); assert fed + [] == fed;
    }
  }

  lemma OthersKeepInputs(w: World, s: Step)
    requires Enabled(w, s) && InvSending(w) && !s.FeedReceive? && !s.FeedMove?
    ensures var w' := Do(w, s);
            w'.inputs == w.inputs && w'.current == w.current
            && (w'.feed == w.feed || (w.feed.Sending? && (w'.feed.Ready? || w'.feed.Crashed?)))
  {
    hide EmitOne;
  }

  lemma FedKeptByReceive(w: World, r: Report, fed: seq<Report>)
    requires InvFed(w, fed) && Enabled(w, FeedReceive(r))
    ensures InvFed(Receives(w, r), fed + [r])
  {
    hide Receive, S.Delivered, ValidDev;
    ReportsOfSnoc(w.inputs, S.Input(r, false));
    assert fed + [] == fed && ReportsOf(w.inputs) + [] == ReportsOf(w.inputs) && w.inputs + [] == w.inputs;
  }

  lemma FedKeptByMove(w: World, fed: seq<Report>)
    requires InvFed(w, fed) && InvActive(w) && PhaseFits(w) && Enabled(w, FeedMove)
    ensures InvFed(Moves(w), fed + [])
  {
    hide FeedStep, S.Delivered, S.Handle, ValidDev, ValidPhase, Parse;
    FeedStepHandles(w);
    ReportsOfSnoc(w.inputs, S.Input(w.current, w.feed.CheckBusy? && BusyWithOther(w.dev, w.feed.cid)));
    assert fed + [] == fed && ReportsOf(w.inputs) + [] == ReportsOf(w.inputs);
  }

  // ---------- every schedule ----------

  ghost predicate Inv(w: World, fed: seq<Report>) {
    InvActive(w) && InvTxns(w) && InvLog(w) && InvWire(w) && InvDesk(w) && InvFed(w, fed)
  }

  lemma {:induction false} Invariant(steps: seq<Step>)
    requires After(steps).Some?
    ensures Inv(After(steps).value, Fed(steps))
    decreases |steps|
  {
    hide Do, Enabled, InvActive, InvTxns, InvWire, InvDesk, InvFed;
    if steps == [] {
      InitialHolds();
    } else {
      var w, s := After(steps[..|steps| - 1]).value, steps[|steps| - 1];
      Invariant(steps[..|steps| - 1]);
      StepKeeps(w, s, Fed(steps[..|steps| - 1]));
    }
  }

  lemma InitialHolds()
    ensures Inv(Initial, [])
  {
  }

  lemma StepKeeps(w: World, s: Step, fed: seq<Report>)
    requires Inv(w, fed) && Enabled(w, s)
    ensures Inv(Do(w, s), fed + if s.FeedReceive? then [s.report] else [])
  {
    hide Do, Enabled, InvActive, InvTxns, InvWire, InvFed;
    ActiveKept(w, s);
    LogKept(w, s);
    WireKept(w, s);
    DeskKept(w, s);
    FedKept(w, s, fed);
  }

  // ---------- what the host reads ----------

  /** A host that reassembles by channel id and sequence number (section 11.2.4 of CTAP 2.1). */
  function HostStep(h: map<Cid, Chan>, r: Report): (t: (map<Cid, Chan>, seq<Message>))
    requires forall c :: c in h ==> Consistent(h[c])
    ensures forall c :: c in t.0 ==> Consistent(t.0[c])
  {
    var f := Parse(r);
    var (ch, out) := ChanStep(if f.cid in h then h[f.cid] else Idle, EventOf(f));
    (h[f.cid := ch], S.DispatchedOn(f.cid, out))
  }

  function HostRun(rs: seq<Report>): (t: (map<Cid, Chan>, seq<Message>))
    ensures forall c :: c in t.0 ==> Consistent(t.0[c])
  {
    if rs == [] then (map[], [])
    else
      var (h, ms) := HostRun(rs[..|rs| - 1]);
      var (h', more) := HostStep(h, rs[|rs| - 1]);
      (h', ms + more)
  }

  lemma HostRunSnoc(rs: seq<Report>, r: Report)
    ensures var (h, ms) := HostRun(rs);
            var (h', more) := HostStep(h, r);
            HostRun(rs + [r]) == (h', ms + more)
  {
    hide HostStep;
    assert (rs + [r])[..|rs|] == rs;
  }

  lemma HostStepFragment(h: map<Cid, Chan>, m: Message, k: nat)
    requires forall c :: c in h ==> Consistent(h[c])
    requires |m.data| < 0x1_0000 && k <= Needed(|m.data|)
    requires k > 0 ==> m.cid in h && h[m.cid] == AfterFragment(m, k - 1)
    ensures HostStep(h, Fragment(m, k))
            == (h[m.cid := AfterFragment(m, k)], S.DispatchedOn(m.cid, FragmentOutput(m, k)))
  {
    hide Fragment, ChanStep, AfterFragment, FragmentOutput, Parse;
    if k == 0 {
      FirstFragmentParses(m);
      FirstFragmentStep(if m.cid in h then h[m.cid] else Idle, m);
    } else {
      NextFragmentParses(m, k);
      FragmentStep(m, k);
    }
  }

  lemma {:induction false} HostReadsFragments(rs: seq<Report>, m: Message, k: nat)
    requires |m.data| < 0x1_0000 && k <= Needed(|m.data|)
    ensures var (h, ms) := HostRun(rs + FirstFragments(m, k + 1));
            m.cid in h && h[m.cid] == AfterFragment(m, k)
            && ms == HostRun(rs).1 + if k >= Needed(|m.data|) && |m.data| <= MAX_PAYLOAD then [m] else []
  {
    hide HostStep, HostRun, Fragment, AfterFragment;
    NeededIsExact(|m.data|, 128);
    var sofar := rs + FirstFragments(m, k);
    assert rs + FirstFragments(m, k + 1) == sofar + [Fragment(m, k)];
    HostRunSnoc(sofar, Fragment(m, k));
    if k == 0 {
      assert sofar == rs;
    } else {
      HostReadsFragments(rs, m, k - 1);
    }
    HostStepFragment(HostRun(sofar).0, m, k);
    assert HostRun(rs).1 + [] == HostRun(rs).1;
  }

  /** The messages whose payload can be reassembled. */
  function Readable(ms: seq<Message>): seq<Message> {
    if ms == [] then []
    else
      var last := ms[|ms| - 1];
      Readable(ms[..|ms| - 1]) + if |last.data| <= MAX_PAYLOAD then [last] else []
  }

  lemma HostReadsMessage(rs: seq<Report>, m: Message)
    ensures HostRun(rs + Fragments(m)).1 == HostRun(rs).1 + if |m.data| <= MAX_PAYLOAD then [m] else []
  {
    hide HostRun;
    if |m.data| < 0x1_0000 {
      HostReadsFragments(rs, m, Needed(|m.data|));
    } else {
      assert rs + [] == rs && HostRun(rs).1 + [] == HostRun(rs).1;
    }
  }

  function MessagesOf(log: seq<Entry>): (ms: seq<Message>)
    ensures |ms| == |log| && forall i :: 0 <= i < |log| ==> ms[i] == log[i].message
  {
    if log == [] then [] else MessagesOf(log[..|log| - 1]) + [log[|log| - 1].message]
  }

  lemma {:induction false} HostReadsLog(log: seq<Entry>)
    ensures HostRun(WireOf(log)).1 == Readable(MessagesOf(log))
    decreases |log|
  {
    hide HostStep, Fragments;
    if log != [] {
      HostReadsLog(log[..|log| - 1]);
      HostReadsMessage(WireOf(log[..|log| - 1]), log[|log| - 1].message);
    }
  }

  lemma {:induction false} ReadableAll(ms: seq<Message>)
    requires forall i :: 0 <= i < |ms| ==> |ms[i].data| <= MAX_PAYLOAD
    ensures Readable(ms) == ms
    decreases |ms|
  {
    if ms != [] {
      var init, last := ms[..|ms| - 1], ms[|ms| - 1];
      assert forall i :: 0 <= i < |init| ==> init[i] == ms[i];
      ReadableAll(init);
      assert init + [last] == ms;
    }
  }

  lemma {:induction false} ReadableFewer(ms: seq<Message>)
    ensures |Readable(ms)| <= |ms|
    ensures (exists i :: 0 <= i < |ms| && |ms[i].data| > MAX_PAYLOAD) ==> |Readable(ms)| < |ms|
  {
    if ms != [] {
      var init := ms[..|ms| - 1];
      ReadableFewer(init);
      if i :| 0 <= i < |ms| && |ms[i].data| > MAX_PAYLOAD {
        assert i < |init| ==> init[i] == ms[i];
      }
    }
  }

  lemma AllReadable(ms: seq<Message>)
    ensures Readable(ms) == ms <==> forall i :: 0 <= i < |ms| ==> |ms[i].data| <= MAX_PAYLOAD
  {
    hide Readable;
    ReadableFewer(ms);
    if forall i :: 0 <= i < |ms| ==> |ms[i].data| <= MAX_PAYLOAD { ReadableAll(ms); }
  }

  // ---------- the guarantees ----------

  /**
   In every schedule, whenever nobody is sending, the wire is the logged messages, whole and in the order their
   senders took the send lock. A host reads exactly those of at most MAX_PAYLOAD bytes, in that order; so it reads
   all of them exactly if no response is longer.
   */
  lemma WholeMessages(steps: seq<Step>, w: World)
    requires After(steps) == Some(w) && w.sending.None?
    ensures w.wire == WireOf(w.log)
    ensures HostRun(w.wire).1 == Readable(MessagesOf(w.log))
    ensures HostRun(w.wire).1 == MessagesOf(w.log) <==>
            forall i :: 0 <= i < |w.log| && w.log[i].owner.Worker? ==> |w.log[i].message.data| <= MAX_PAYLOAD
  {
    hide After, HostRun, WireOf, MessagesOf, Readable;
    Invariant(steps);
    HostReadsLog(w.log);
    AllReadable(MessagesOf(w.log));
    forall i | 0 <= i < |w.log| && !w.log[i].owner.Worker?
      ensures |w.log[i].message.data| <= MAX_PAYLOAD
    {
      assert EntryFits(w, w.log[i]);
    }
  }

  /** In every schedule at most one handle_cbor is running, and only for the newest transaction. */
  lemma OneHandlerAtATime(steps: seq<Step>, w: World, i: nat, j: nat)
    requires After(steps) == Some(w) && i < |w.txns| && j < |w.txns|
    ensures w.txns[i].worker.Handling? && w.txns[j].worker.Handling? ==> i == j == |w.txns| - 1
  {
    hide After;
    Invariant(steps);
  }

  /** The replies that a transaction has sent: those of which a frame is written. */
  function RepliesOf(log: seq<Entry>, n: nat): seq<Message> {
    if log == [] then []
    else
      var last := log[|log| - 1];
      RepliesOf(log[..|log| - 1], n)
      + if last.owner == Worker(n) && Fragments(last.message) != [] then [last.message] else []
  }

  lemma {:induction false} FragmentsExist(m: Message)
    ensures Fragments(m) != [] <==> |m.data| < 0x1_0000
  {
    hide Fragment;
    if |m.data| < 0x1_0000 { assert |Fragments(m)| == Needed(|m.data|) + 1; }
  }

  lemma {:induction false} NoReply(log: seq<Entry>, n: nat)
    requires forall i :: 0 <= i < |log| ==> log[i].owner != Worker(n)
    ensures RepliesOf(log, n) == []
    decreases |log|
  {
    if log != [] { NoReply(log[..|log| - 1], n); }
  }

  lemma {:induction false} OneReply(log: seq<Entry>, n: nat, i: nat)
    requires ReplyComesLast(log) && i < |log| && log[i].owner == Worker(n)
    ensures RepliesOf(log, n) == if |log[i].message.data| < 0x1_0000 then [log[i].message] else []
    decreases |log|
  {
    hide Fragments;
    var init := log[..|log| - 1];
    if i == |log| - 1 {
      NoReply(init, n);
      FragmentsExist(log[i].message);
    } else {
      assert init[i] == log[i];
      OneReply(init, n, i);
    }
  }

  /**
   In every schedule, a transaction that has ended sent exactly one reply, the response of its handle_cbor, unless the
   last cancel accepted before its locked read was a re-sync or the length of the response does not fit the frame
   header: then it sent none.
   */
  lemma ExactlyOneReply(steps: seq<Step>, w: World, n: nat)
    requires After(steps) == Some(w) && n < |w.txns|
    requires w.txns[n].worker.Finished? || w.txns[n].worker.Dropped?
    ensures RepliesOf(w.log, n)
            == if Resynced(w.txns[n]) || |w.txns[n].worker.response| >= 0x1_0000 then []
               else [Message(w.txns[n].cid, 0x10, w.txns[n].worker.response)]
  {
    hide After;
    Invariant(steps);
    assert VerdictFits(w.txns[n]);
    if w.txns[n].worker.Finished? {
      assert Replied(w.log, n);
      var i: nat :| i < |w.log| && w.log[i].owner == Worker(n);
      assert EntryFits(w, w.log[i]);
      OneReply(w.log, n, i);
    } else {
      forall i | 0 <= i < |w.log|
        ensures w.log[i].owner != Worker(n)
      {
        assert EntryFits(w, w.log[i]);
      }
      NoReply(w.log, n);
    }
  }

  /** In every schedule, the keepalives of a transaction all come before its reply, and only while it runs. */
  lemma KeepalivesBeforeReply(steps: seq<Step>, w: World, i: nat, j: nat)
    requires After(steps) == Some(w) && i < |w.log| && j < |w.log|
    requires w.log[i].owner.Keepalive? && w.log[j].owner == Worker(w.log[i].owner.n)
    ensures i < j
    ensures w.log[i].message == Message(w.log[j].message.cid, 0x3B, [0x02])
  {
    hide After;
    Invariant(steps);
    assert EntryFits(w, w.log[i]) && EntryFits(w, w.log[j]);
  }

  /**
   In every schedule the channels and the delivered messages are what the fed reports lead to, in order,
   with some answers to the busy checks; DeliveredExactly says what that is, channel by channel.
   */
  lemma DeliveriesAreHandled(steps: seq<Step>, w: World)
    requires After(steps) == Some(w)
    ensures (S.DeskOf(w.dev), w.delivered) == S.HandleAll(S.Desk(map[], 1), w.inputs)
    ensures w.feed.Ready? ==> ReportsOf(w.inputs) == Fed(steps)
  {
    hide After;
    Invariant(steps);
    assert ReportsOf(w.inputs) + [] == ReportsOf(w.inputs);
  }

  /**
   In every schedule a registered channel holds what its events since the report that allocated it lead an idle one to,
   and the messages delivered on it are, in order, those that they complete: a message is delivered exactly if some of
   them completes it. Nothing is delivered on any other id.
   */
  lemma DeliveredExactly(steps: seq<Step>, w: World, m: Message) returns (n: nat)
    requires After(steps) == Some(w)
    ensures if m.cid in w.dev.channels then
              && S.AllocatedBy(w.inputs, m.cid, n)
              && var events := S.EventsOn(m.cid, w.inputs[n..]);
                 && w.dev.channels[m.cid] == ChanRun(Idle, events).0
                 && S.MessagesOn(m.cid, w.delivered) == S.DispatchesOf(m.cid, ChanRun(Idle, events).1)
                 && (m in w.delivered <==> exists i: nat, k: nat :: S.IsCompletion(events, i, k, m))
            else m !in w.delivered
  {
    hide After, S.HandleAll, S.MessagesOn, ChanRun, S.EventsOn, S.DispatchesOf, S.IsCompletion;
    DeliveriesAreHandled(steps, w);
    n := S.ChannelHistory(w.inputs, m.cid);
    S.InMessagesOn(w.delivered, m);
    if m.cid in w.dev.channels {
      S.DeliveredIsCompleted(m.cid, S.EventsOn(m.cid, w.inputs[n..]), m);
    }
  }

  /** Whether some thread other than the host has something left to do. */
  predicate Unfinished(w: World) {
    w.sending.Some? || (!w.feed.Ready? && !w.feed.Crashed?)
    || exists n :: 0 <= n < |w.txns| && !w.txns[n].worker.Finished? && !w.txns[n].worker.Dropped?
  }

  /** No schedule deadlocks: while something is left to do, some step other than a new report is possible. */
  lemma NeverStuck(steps: seq<Step>, w: World)
    requires After(steps) == Some(w) && Unfinished(w)
    ensures exists s :: Enabled(w, s) && !s.FeedReceive?
  {
    hide After, Unfinished;
    Invariant(steps);
    var s := NextStep(w);
  }

  lemma NextStep(w: World) returns (s: Step)
    requires InvActive(w) && InvTxns(w) && Unfinished(w)
    ensures Enabled(w, s) && !s.FeedReceive?
  {
    hide ValidDev, ValidPhase;
    if w.sending.Some? {
      return if Done(w.sending.value) then Release else Emit;
    }
    if w.feed.Sending? {
      return Acquire(FeedThread);
    }
    if !w.feed.Ready? && !w.feed.Crashed? {
      return FeedMove;
    }
    var n :| 0 <= n < |w.txns| && !w.txns[n].worker.Finished? && !w.txns[n].worker.Dropped?;
    s := NextOfTxn(w, n);
  }

  lemma NextOfTxn(w: World, n: nat) returns (s: Step)
    requires InvTxns(w) && w.sending.None? && !LockHeld(w)
    requires n < |w.txns| && !w.txns[n].worker.Finished? && !w.txns[n].worker.Dropped?
    ensures Enabled(w, s) && !s.FeedReceive?
  {
    assert KeepFits(w.txns[n]);
    match w.txns[n].worker
    case Spawned => s := StartKeepalive(n);
    case Handling => s := HandlerReturns(n, []);
    case Stopping(_) =>
      s := if w.txns[n].keep.Waiting? then KeepaliveExits(n)
           else if w.txns[n].keep.Beating? then Acquire(Keepalive(n)) else Join(n);
    case Joined(_) => s := LockedRead(n);
    case Replying(_) => s := Acquire(Worker(n));
  }
}
