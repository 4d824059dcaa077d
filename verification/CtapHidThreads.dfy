/**
 The feed thread, the worker of each CBOR transaction and its keepalive thread, interleaved at
 every lock, every report written and every thread start, stop and join.
 */
module CtapHidThreads {
  import opened Bytes
  import opened CtapHidFraming
  import opened CtapHidChannel
  import opened CtapHidFeed
  import S = CtapHidStreams

  const STATUS_UPNEEDED: Byte := 0x02

  datatype Thread = FeedThread | Worker(n: nat) | Keepalive(n: nat)

  /** How far the holder of the send lock is: Body holds the loop variables offset and seq. */
  datatype Stage = Header | Body(offset: nat, number: nat) | Failed
  datatype InFlight = InFlight(owner: Thread, message: Message, stage: Stage)

  /** The worker of a transaction: handle_cbor runs in Handling, the stop event is set from Stopping on. */
  datatype WorkerPhase =
    | Spawned
    | Handling
    | Stopping(response: seq<Byte>)
    | Joined(response: seq<Byte>)
    | Replying(response: seq<Byte>)
    | Finished(response: seq<Byte>)
    | Dropped(response: seq<Byte>)

  datatype KeepPhase = NotStarted | Waiting | Beating | Exited

  /** A CBOR transaction; cancels records the reply flags of the cancels accepted for it. */
  datatype Txn = Txn(cid: Cid, payload: seq<Byte>, worker: WorkerPhase, keep: KeepPhase, cancels: seq<bool>)

  datatype Entry = Entry(owner: Thread, message: Message)

  datatype World = World(
    dev: Dev, feed: Phase, current: Report, txns: seq<Txn>,
    sending: Option<InFlight>, wire: seq<Report>,
    log: seq<Entry>,               // messages in the order their senders took the send lock
    inputs: seq<S.Input>,          // reports in the order they acted on the channels
    delivered: seq<Message>)       // messages in the order they were dispatched

  const Initial := World(Fresh, Ready, PadTo([], HID_REPORT_SIZE), [], None, [], [], [], [])

  datatype Step =
    | FeedReceive(report: Report)
    | FeedMove
    | Acquire(thread: Thread)
    | Emit
    | Release
    | StartKeepalive(n: nat)
    | HandlerReturns(n: nat, response: seq<Byte>)
    | Beat(n: nat)
    | KeepaliveExits(n: nat)
    | Join(n: nat)
    | LockedRead(n: nat)

  /** The message a thread wants to send. */
  function Pending(w: World, t: Thread): Option<Message> {
    match t
    case FeedThread => if w.feed.Sending? then Some(w.feed.message) else None
    case Worker(n) =>
      if n < |w.txns| && w.txns[n].worker.Replying? then
        Some(Message(w.txns[n].cid, CTAPHID_CBOR, w.txns[n].worker.response))
      else None
    case Keepalive(n) =>
      if n < |w.txns| && w.txns[n].keep.Beating? then
        Some(Message(w.txns[n].cid, CTAPHID_KEEPALIVE, [STATUS_UPNEEDED]))
      else None
  }

  predicate Done(f: InFlight) {
    f.stage.Failed? || (f.stage.Body? && f.stage.offset >= |f.message.data|)
  }

  /** Whether the feed thread is inside the critical section of _start_cbor that sends an error. */
  predicate LockHeld(w: World) {
    w.feed.Sending? && w.feed.locked
  }

  predicate Enabled(w: World, s: Step) {
    match s
    case FeedReceive(_) => w.feed.Ready? && ValidDev(w.dev)
    case FeedMove =>
      !w.feed.Ready? && !w.feed.Crashed? && !w.feed.Sending? && ValidDev(w.dev) && ValidPhase(w.dev, w.feed)
    case Acquire(t) => w.sending.None? && Pending(w, t).Some?
    case Emit => w.sending.Some? && !Done(w.sending.value)
    case Release => w.sending.Some? && Done(w.sending.value)
    case StartKeepalive(n) => n < |w.txns| && w.txns[n].worker.Spawned?
    case HandlerReturns(n, _) => n < |w.txns| && w.txns[n].worker.Handling?
    case Beat(n) => n < |w.txns| && w.txns[n].worker.Handling? && w.txns[n].keep.Waiting?
    case KeepaliveExits(n) => n < |w.txns| && w.txns[n].worker.Stopping? && w.txns[n].keep.Waiting?
    case Join(n) => n < |w.txns| && w.txns[n].worker.Stopping? && w.txns[n].keep.Exited?
    case LockedRead(n) => n < |w.txns| && w.txns[n].worker.Joined? && !LockHeld(w)
  }

  function SetWorker(w: World, n: nat, p: WorkerPhase): World
    requires n < |w.txns|
  {
    w.(txns := w.txns[n := w.txns[n].(worker := p)])
  }

  function SetKeep(w: World, n: nat, p: KeepPhase): World
    requires n < |w.txns|
  {
    w.(txns := w.txns[n := w.txns[n].(keep := p)])
  }

  /** The feed thread starts on a report. */
  function Receives(w: World, r: Report): World
    requires ValidDev(w.dev)
  {
    var m := Receive(w.dev, r);
    w.(dev := m.dev, feed := m.phase, current := r, delivered := w.delivered + S.Delivered(m.effects),
       inputs := w.inputs + if m.phase.CheckBusy? || m.phase.Allocate? then [] else [S.Input(r, false)])
  }

  /** The feed thread's next phase that is not a send. */
  function Moves(w: World): World
    requires ValidDev(w.dev) && ValidPhase(w.dev, w.feed)
  {
    var m := FeedStep(w.dev, w.feed);
    var w' := w.(dev := m.dev, feed := m.phase, delivered := w.delivered + S.Delivered(m.effects));
    match w.feed
    case CheckBusy(cid, _) => w'.(inputs := w.inputs + [S.Input(w.current, BusyWithOther(w.dev, cid))])
    case Allocate(_) => w'.(inputs := w.inputs + [S.Input(w.current, false)])
    case Cancelling(_, reply, _) =>
      if m.phase.Aborting? && w.txns != [] then
        var n := |w.txns| - 1;
        w'.(txns := w.txns[n := w.txns[n].(cancels := w.txns[n].cancels + [reply])])
      else w'
    case StartCbor(cid, payload) =>
      if m.phase.Ready? then w'.(txns := w.txns + [Txn(cid, payload, Spawned, NotStarted, [])]) else w'
    case _ => w'
  }

  /** The holder of the send lock writes one report, or fails to pack the header. */
  function EmitOne(f: InFlight): (seq<Report>, Stage)
    requires !Done(f)
  {
    var m := f.message;
    match f.stage
    case Header =>
      if |m.data| >= 0x1_0000 then ([], Failed)
      else
        var chunk := m.data[..Min(|m.data|, INIT_PAYLOAD)];
        var frame := PackWord(m.cid) + [0x80 + m.command] + PackShort(|m.data|) + chunk;
        ([PadTo(frame, HID_REPORT_SIZE)], Body(|chunk|, 0))
    case Body(offset, number) =>
      var chunk := m.data[offset..Min(offset + CONT_PAYLOAD, |m.data|)];
      var frame := PackWord(m.cid) + [number % 0x80] + chunk;
      ([PadTo(frame, HID_REPORT_SIZE)], Body(offset + |chunk|, number + 1))
  }

  function Emits(w: World): World
    requires Enabled(w, Emit)
  {
    var f := w.sending.value;
    var (reports, stage) := EmitOne(f);
    w.(wire := w.wire + reports, sending := Some(f.(stage := stage)))
  }

  /** The holder gives the send lock back and goes on. */
  function Releases(w: World): World
    requires Enabled(w, Release)
  {
    var f := w.sending.value;
    var w' := w.(sending := None);
    match f.owner
    case FeedThread => w'.(feed := if f.stage.Failed? then Crashed else Ready)
    case Worker(n) => if Pending(w, f.owner).Some? then SetWorker(w', n, Finished(w.txns[n].worker.response)) else w'
    case Keepalive(n) => if n < |w.txns| then SetKeep(w', n, Waiting) else w'
  }

  function Do(w: World, s: Step): World
    requires Enabled(w, s)
  {
    match s
    case FeedReceive(r) => Receives(w, r)
    case FeedMove => Moves(w)
    case Acquire(t) =>
      var m := Pending(w, t).value;
      w.(sending := Some(InFlight(t, m, Header)), log := w.log + [Entry(t, m)])
    case Emit => Emits(w)
    case Release => Releases(w)
    case StartKeepalive(n) => SetKeep(SetWorker(w, n, Handling), n, Waiting)
    case HandlerReturns(n, response) => SetWorker(w, n, Stopping(response))
    case Beat(n) => SetKeep(w, n, Beating)
    case KeepaliveExits(n) => SetKeep(w, n, Exited)
    case Join(n) => SetWorker(w, n, Joined(w.txns[n].worker.response))
    case LockedRead(n) =>
      var response := w.txns[n].worker.response;
      SetWorker(w.(dev := w.dev.(active := None)), n,
                if w.dev.cancelled && !w.dev.cancelReply then Dropped(response) else Replying(response))
  }

  /** The world after a schedule, if every step of it was possible. */
  function After(steps: seq<Step>): Option<World> {
    if steps == [] then Some(Initial)
    else
      match After(steps[..|steps| - 1])
      case None => None
      case Some(w) =>
        var s := steps[|steps| - 1];
        if Enabled(w, s) then Some(Do(w, s)) else None
  }

  // ---------- what every step keeps ----------

  predicate Unread(p: WorkerPhase) {
    p.Spawned? || p.Handling? || p.Stopping? || p.Joined?
  }

  /** The keepalive thread runs only between its start and the join. */
  ghost predicate KeepFits(t: Txn) {
    match t.worker
    case Spawned => t.keep.NotStarted?
    case Handling => t.keep.Waiting? || t.keep.Beating?
    case Stopping(_) => !t.keep.NotStarted?
    case _ => t.keep.Exited?
  }

  ghost predicate Resynced(t: Txn) {
    t.cancels != [] && !t.cancels[|t.cancels| - 1]
  }

  /** A transaction past its locked read was dropped exactly when its last accepted cancel was a re-sync. */
  ghost predicate VerdictFits(t: Txn) {
    !Unread(t.worker) ==> (t.worker.Dropped? <==> Resynced(t))
  }

  /** The shared fields describe the newest transaction while it is unread, and no other is. */
  ghost predicate InvActive(w: World) {
    && ValidDev(w.dev) && ValidPhase(w.dev, w.feed)
    && (forall i :: 0 <= i < |w.txns| - 1 ==> !Unread(w.txns[i].worker))
    && (w.dev.active.Some? <==> w.txns != [] && Unread(w.txns[|w.txns| - 1].worker))
    && (w.dev.active.Some? ==>
          var t := w.txns[|w.txns| - 1];
          && w.dev.active.value == t.cid
          && (w.dev.cancelled <==> t.cancels != [])
          && (t.cancels != [] ==> w.dev.cancelReply == t.cancels[|t.cancels| - 1]))
  }

  ghost predicate InvTxns(w: World) {
    forall i :: 0 <= i < |w.txns| ==> KeepFits(w.txns[i]) && VerdictFits(w.txns[i])
  }

  ghost predicate SameFlags(d: Dev, d': Dev) {
    d'.active == d.active && d'.cancelled == d.cancelled && d'.cancelReply == d.cancelReply
  }

  lemma ReceiveKeepsFlags(d: Dev, r: Report)
    requires ValidDev(d)
    ensures SameFlags(d, Receive(d, r).dev)
  {
    hide ChanStep, Parse;
  }

  /** Only an accepted cancel and an accepted transaction change the shared flags. */
  lemma FeedStepFlags(d: Dev, p: Phase)
    requires ValidDev(d) && ValidPhase(d, p)
    requires p.CheckBusy? || p.Allocate? || p.Cancelling? || p.Aborting? || p.StartCbor?
    ensures var m := FeedStep(d, p);
            if p.Cancelling? && d.active == Some(p.cid) then
              m.dev == d.(cancelled := true, cancelReply := p.reply) && m.phase.Aborting?
            else if p.StartCbor? && d.active.None? then
              m.dev == d.(active := Some(p.cid), cancelled := false) && m.phase.Ready?
            else
              SameFlags(d, m.dev) && !(p.Cancelling? && m.phase.Aborting?) && !(p.StartCbor? && m.phase.Ready?)
  {
    hide ChanStep;
  }

  lemma FeedReceiveKeeps(w: World, r: Report)
    requires InvActive(w) && InvTxns(w) && Enabled(w, FeedReceive(r))
    ensures InvActive(Receives(w, r)) && InvTxns(Receives(w, r))
  {
    hide Receive, ValidDev, ValidPhase, Receives;
    ReceiveKeepsFlags(w.dev, r);
    assert Receives(w, r).dev == Receive(w.dev, r).dev && Receives(w, r).feed == Receive(w.dev, r).phase
           && Receives(w, r).txns == w.txns by {
      ReceivesShape(w, r);
    }
  }

  lemma ReceivesShape(w: World, r: Report)
    requires ValidDev(w.dev)
    ensures Receives(w, r).dev == Receive(w.dev, r).dev && Receives(w, r).feed == Receive(w.dev, r).phase
    ensures Receives(w, r).txns == w.txns
  {
    hide Receive, ValidDev, ValidPhase, S.Delivered;
  }

  lemma FeedMoveKeeps(w: World)
    requires InvActive(w) && InvTxns(w) && Enabled(w, FeedMove)
    ensures InvActive(Moves(w)) && InvTxns(Moves(w))
  {
    hide FeedStep, ValidDev, ValidPhase, S.Delivered;
    FeedStepFlags(w.dev, w.feed);
  }

  /** A transaction before its locked read changes, and stays before it. */
  lemma UnreadChange(w: World, n: nat, t: Txn)
    requires InvActive(w) && InvTxns(w) && n < |w.txns| && Unread(w.txns[n].worker)
    requires Unread(t.worker) && KeepFits(t) && t.cid == w.txns[n].cid && t.cancels == w.txns[n].cancels
    ensures var w' := w.(txns := w.txns[n := t]); InvActive(w') && InvTxns(w')
  {
    hide ValidDev, ValidPhase, KeepFits;
  }

  /** A step of a worker or keepalive thread short of its locked read. */
  lemma ThreadKeepsActive(w: World, s: Step)
    requires InvActive(w) && InvTxns(w) && Enabled(w, s)
    requires s.StartKeepalive? || s.HandlerReturns? || s.Beat? || s.KeepaliveExits? || s.Join?
    ensures InvActive(Do(w, s)) && InvTxns(Do(w, s))
  {
    assert KeepFits(w.txns[s.n]);
    hide InvActive, InvTxns;
    UnreadChange(w, s.n, Do(w, s).txns[s.n]);
    assert Do(w, s) == w.(txns := w.txns[s.n := Do(w, s).txns[s.n]]);
  }

  /** Every step keeps the shared flags in line with the transactions. */
  lemma ActiveKept(w: World, s: Step)
    requires InvActive(w) && InvTxns(w) && Enabled(w, s)
    requires w.sending.Some? ==> Pending(w, w.sending.value.owner) == Some(w.sending.value.message)
    ensures InvActive(Do(w, s)) && InvTxns(Do(w, s))
  {
    hide Receives, Moves, Emits, Releases, ValidDev, ValidPhase;
    match s {
      case FeedReceive(r) => FeedReceiveKeeps(w, r);
      case FeedMove => FeedMoveKeeps(w);
      case Acquire(t) =>
      case Emit => EmitsShape(w);
      case Release => ReleaseKeeps(w);
      case LockedRead(n) => LockedReadKeeps(w, n);
      case _ => ThreadKeepsActive(w, s);
    }
  }

  lemma EmitsShape(w: World)
    requires Enabled(w, Emit)
    ensures Emits(w) == w.(wire := Emits(w).wire, sending := Emits(w).sending)
  {
    hide EmitOne;
  }

  lemma ReleaseKeeps(w: World)
    requires InvActive(w) && InvTxns(w) && Enabled(w, Release)
    requires Pending(w, w.sending.value.owner) == Some(w.sending.value.message)
    ensures InvActive(Releases(w)) && InvTxns(Releases(w))
  {
    hide ValidDev;
    assert ValidPhase(w.dev, Ready) && ValidPhase(w.dev, Crashed);
  }

  lemma LockedReadKeeps(w: World, n: nat)
    requires InvActive(w) && InvTxns(w) && Enabled(w, LockedRead(n))
    ensures InvActive(Do(w, LockedRead(n))) && InvTxns(Do(w, LockedRead(n)))
  {
  }

  // ---------- the order of the messages ----------

  /** The thread that holds the send lock is the one that wants to send this message, and it is logged last. */
  ghost predicate InvSending(w: World) {
    w.sending.Some? ==>
      && Pending(w, w.sending.value.owner) == Some(w.sending.value.message)
      && w.log != [] && w.log[|w.log| - 1] == Entry(w.sending.value.owner, w.sending.value.message)
  }

  /** A logged message is one its sender wanted to send; a reply is logged from its lock acquisition on. */
  ghost predicate EntryFits(w: World, e: Entry) {
    match e.owner
    case FeedThread => |e.message.data| <= MAX_PAYLOAD
    case Worker(n) =>
      n < |w.txns|
      && ((w.txns[n].worker.Replying? && w.sending.Some? && w.sending.value.owner == e.owner)
          || w.txns[n].worker.Finished?)
      && e.message == Message(w.txns[n].cid, CTAPHID_CBOR, w.txns[n].worker.response)
    case Keepalive(n) =>
      n < |w.txns| && !w.txns[n].worker.Spawned?
      && e.message == Message(w.txns[n].cid, CTAPHID_KEEPALIVE, [STATUS_UPNEEDED])
  }

  /** After the reply of a transaction comes neither another reply nor a keepalive of it. */
  ghost predicate ReplyComesLast(log: seq<Entry>) {
    forall i, j :: 0 <= i < j < |log| && log[i].owner.Worker? ==>
      log[j].owner != log[i].owner && log[j].owner != Keepalive(log[i].owner.n)
  }

  ghost predicate Replied(log: seq<Entry>, n: nat) {
    exists i :: 0 <= i < |log| && log[i].owner == Worker(n)
  }

  ghost predicate InvLog(w: World) {
    && InvSending(w)
    && (forall i :: 0 <= i < |w.log| ==> EntryFits(w, w.log[i]))
    && ReplyComesLast(w.log)
    && (forall n :: 0 <= n < |w.txns| && w.txns[n].worker.Finished? ==> Replied(w.log, n))
  }

  /** A step that changes no worker or keepalive thread that a log entry or the send lock depends on. */
  lemma LogKeptByOthers(w: World, w': World)
    requires InvLog(w) && w'.log == w.log && |w'.txns| >= |w.txns|
    requires w.sending.Some? <==> w'.sending.Some?
    requires w.sending.Some? ==>
               && w'.sending.value.owner == w.sending.value.owner && w'.sending.value.message == w.sending.value.message
               && Pending(w', w.sending.value.owner) == Pending(w, w.sending.value.owner)
    requires forall n :: 0 <= n < |w.txns| ==>
               && w'.txns[n].cid == w.txns[n].cid
               && (w.txns[n].worker.Replying? || w.txns[n].worker.Finished? ==> w'.txns[n].worker == w.txns[n].worker)
               && (!w.txns[n].worker.Spawned? ==> !w'.txns[n].worker.Spawned?)
    requires forall n :: 0 <= n < |w'.txns| && w'.txns[n].worker.Finished? ==>
               n < |w.txns| && w.txns[n].worker.Finished?
    ensures InvLog(w')
  {
    forall i | 0 <= i < |w.log|
      ensures EntryFits(w', w.log[i])
    {
      assert EntryFits(w, w.log[i]);
    }
  }

  lemma AcquireKeepsLog(w: World, t: Thread)
    requires InvLog(w) && InvTxns(w) && InvActive(w) && Enabled(w, Acquire(t))
    ensures InvLog(Do(w, Acquire(t)))
  {
    hide ValidDev;
    var w' := Do(w, Acquire(t));
    assert Pending(w', t) == Pending(w, t);
    forall i | 0 <= i < |w'.log|
      ensures EntryFits(w', w'.log[i])
    {
      if i < |w.log| { assert EntryFits(w, w.log[i]); }
    }
    forall i | 0 <= i < |w.log| && w.log[i].owner.Worker?
      ensures t != w.log[i].owner && t != Keepalive(w.log[i].owner.n)
    {
      assert EntryFits(w, w.log[i]);
      var n := w.log[i].owner.n;
      assert KeepFits(w.txns[n]);
    }
    forall n | 0 <= n < |w.txns| && w.txns[n].worker.Finished?
      ensures Replied(w'.log, n)
    {
      assert Replied(w.log, n);
      var i :| 0 <= i < |w.log| && w.log[i].owner == Worker(n);
      assert w'.log[i].owner == Worker(n);
    }
  }

  lemma ReleaseKeepsLog(w: World)
    requires InvLog(w) && Enabled(w, Release)
    ensures InvLog(Releases(w))
  {
    var w' := Releases(w);
    forall i | 0 <= i < |w.log|
      ensures EntryFits(w', w.log[i])
    {
      assert EntryFits(w, w.log[i]);
    }
    assert w.log[|w.log| - 1].owner == w.sending.value.owner;
  }

  /** The feed thread changes no worker or keepalive thread. */
  lemma MovesShape(w: World)
    requires Enabled(w, FeedMove)
    ensures var w' := Moves(w);
            && w'.dev == FeedStep(w.dev, w.feed).dev && w'.feed == FeedStep(w.dev, w.feed).phase
            && w'.log == w.log && w'.wire == w.wire && w'.sending == w.sending && |w'.txns| >= |w.txns|
            && (forall n :: 0 <= n < |w.txns| ==> w'.txns[n] == w.txns[n].(cancels := w'.txns[n].cancels))
            && (forall n :: |w.txns| <= n < |w'.txns| ==> w'.txns[n].worker.Spawned?)
  {
    hide FeedStep, ValidDev, ValidPhase, S.Delivered;
  }

  lemma LogKept(w: World, s: Step)
    requires InvLog(w) && InvTxns(w) && InvActive(w) && Enabled(w, s)
    ensures InvLog(Do(w, s))
  {
    hide Receives, Moves, Emits, Releases, ValidDev, ValidPhase, InvLog;
    match s {
      case FeedReceive(r) => FeedReceiveKeepsLog(w, r);
      case FeedMove => FeedMoveKeepsLog(w);
      case Acquire(t) => AcquireKeepsLog(w, t);
      case Emit => EmitKeepsLog(w);
      case Release => ReleaseKeepsLog(w);
      case _ => ThreadKeepsLog(w, s);
    }
  }

  lemma FeedReceiveKeepsLog(w: World, r: Report)
    requires InvLog(w) && Enabled(w, FeedReceive(r))
    ensures InvLog(Receives(w, r))
  {
    hide Receive, ValidDev, S.Delivered;
    LogKeptByOthers(w, Receives(w, r));
  }

  lemma FeedMoveKeepsLog(w: World)
    requires InvLog(w) && Enabled(w, FeedMove)
    ensures InvLog(Moves(w))
  {
    hide Moves, FeedStep, ValidDev, ValidPhase;
    MovesShape(w);
    LogKeptByOthers(w, Moves(w));
  }

  lemma EmitKeepsLog(w: World)
    requires InvLog(w) && Enabled(w, Emit)
    ensures InvLog(Emits(w))
  {
    hide EmitOne;
    EmitsShape(w);
    LogKeptByOthers(w, Emits(w));
  }

  lemma ThreadKeepsLog(w: World, s: Step)
    requires InvLog(w) && Enabled(w, s)
    requires s.StartKeepalive? || s.HandlerReturns? || s.Beat? || s.KeepaliveExits? || s.Join? || s.LockedRead?
    ensures InvLog(Do(w, s))
  {
    LogKeptByOthers(w, Do(w, s));
  }
}
