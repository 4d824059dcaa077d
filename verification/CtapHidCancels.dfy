/**
 The transport and the face verifier together: the worker of a transaction calls verify inside handle_cbor, and an
 accepted cancel calls cancel after it has let go of the transport's lock. When does a cancel take effect?
 */
module CtapHidCancels {
  import opened Bytes
  import opened CtapHidFraming
  import opened CtapHidChannel
  import opened CtapHidFeed
  import T = CtapHidThreads
  import V = FaceVerifier
  import G = CtapHidGuarantees
  import W = CtapHidWitness

  /**
   Both machines; which transaction made each call of verify; for which transaction the last cancel was accepted; and
   for which one the cancel was accepted whose call of cancel holds the verifier's lock at a position of its log.
   */
  datatype World = World(t: T.World, v: V.World, caller: seq<nat>, target: int, aborts: map<nat, int>)

  const Initial := World(T.Initial, V.Initial, [], 0, map[])

  datatype Step =
    | Transport(step: T.Step)
    | Cancel(polled: bool)
    | Verify(n: nat, user: string, bounded: bool)
    | Verifier(action: V.Step)

  /** A call of verify made for transaction n has not returned. */
  ghost predicate Checking(w: World, n: nat) {
    exists c :: 0 <= c < |w.caller| && c < |w.v.calls| && w.caller[c] == n && !w.v.calls[c].phase.Returned?
  }

  ghost predicate Enabled(w: World, s: Step) {
    match s
    case Transport(step) =>
      && T.Enabled(w.t, step)
      && !(step.FeedMove? && w.t.feed.Aborting?)
      && (step.HandlerReturns? ==> !Checking(w, step.n))
    case Cancel(_) => w.t.feed.Aborting? && T.Enabled(w.t, T.FeedMove)
    case Verify(n, _, _) => n < |w.t.txns| && w.t.txns[n].worker.Handling? && !Checking(w, n)
    case Verifier(action) => V.Enabled(w.v, action) && !action.Invoke? && !action.CancelLock?
  }

  ghost function Do(w: World, s: Step): World
    requires Enabled(w, s)
  {
    match s
    case Transport(step) =>
      var t := T.Do(w.t, step);
      w.(t := t, target := if step.FeedMove? && t.feed.Aborting? then |w.t.txns| - 1 else w.target)
    case Cancel(polled) =>
      w.(t := T.Do(w.t, T.FeedMove), v := V.Do(w.v, V.CancelLock(polled)), aborts := w.aborts[|w.v.log| := w.target])
    case Verify(n, user, bounded) => w.(v := V.Do(w.v, V.Invoke(user, bounded)), caller := w.caller + [n])
    case Verifier(action) => w.(v := V.Do(w.v, action))
  }

  ghost function After(steps: seq<Step>): Option<World> {
    if steps == [] then Some(Initial)
    else
      match After(steps[..|steps| - 1])
      case None => None
      case Some(w) =>
        var s := steps[|steps| - 1];
        if Enabled(w, s) then Some(Do(w, s)) else None
  }

  // ---------- the two machines run as they do alone ----------

  function TransportOf(s: Step): seq<T.Step> {
    match s
    case Transport(step) => [step]
    case Cancel(_) => [T.FeedMove]
    case _ => []
  }

  function VerifierOf(s: Step): seq<V.Step> {
    match s
    case Transport(_) => []
    case Cancel(polled) => [V.CancelLock(polled)]
    case Verify(_, user, bounded) => [V.Invoke(user, bounded)]
    case Verifier(action) => [action]
  }

  function TransportSteps(steps: seq<Step>): seq<T.Step> {
    if steps == [] then [] else TransportSteps(steps[..|steps| - 1]) + TransportOf(steps[|steps| - 1])
  }

  function VerifierSteps(steps: seq<Step>): seq<V.Step> {
    if steps == [] then [] else VerifierSteps(steps[..|steps| - 1]) + VerifierOf(steps[|steps| - 1])
  }

  lemma TransportExtends(steps: seq<T.Step>, more: seq<T.Step>, w: T.World)
    requires T.After(steps) == Some(w) && |more| <= 1 && (more != [] ==> T.Enabled(w, more[0]))
    ensures T.After(steps + more) == Some(if more == [] then w else T.Do(w, more[0]))
  {
    hide T.Do, T.Enabled;
    if more == [] {
      assert steps + more == steps;
    } else {
      assert (steps + more)[..|steps|] == steps;
    }
  }

  lemma VerifierExtends(steps: seq<V.Step>, more: seq<V.Step>, w: V.World)
    requires V.After(steps) == Some(w) && |more| <= 1 && (more != [] ==> V.Enabled(w, more[0]))
    ensures V.After(steps + more) == Some(if more == [] then w else V.Do(w, more[0]))
  {
    hide V.Do, V.Enabled;
    if more == [] {
      assert steps + more == steps;
    } else {
      assert (steps + more)[..|steps|] == steps;
    }
  }

  /** What a schedule of both does to either is a schedule of that one. */
  lemma {:induction false} Projections(steps: seq<Step>)
    requires After(steps).Some?
    ensures T.After(TransportSteps(steps)) == Some(After(steps).value.t)
    ensures V.After(VerifierSteps(steps)) == Some(After(steps).value.v)
    decreases |steps|
  {
    hide T.Do, T.Enabled, V.Do, T.After, V.After;
    if steps == [] {
      BothStart();
    } else {
      var init, s := steps[..|steps| - 1], steps[|steps| - 1];
      Projections(init);
      TransportExtends(TransportSteps(init), TransportOf(s), After(init).value.t);
      VerifierExtends(VerifierSteps(init), VerifierOf(s), After(init).value.v);
    }
  }

  lemma BothStart()
    ensures T.After([]) == Some(T.Initial) && V.After([]) == Some(V.Initial)
  {
  }

  // ---------- what every step keeps ----------

  /** A step of the transport accepts a cancel, for the newest transaction. */
  predicate Accepts(s: T.Step, t': T.World) {
    s.FeedMove? && t'.feed.Aborting?
  }

  /** What a step of the transport may do to the transactions. */
  ghost predicate Changes(t: T.World, s: T.Step, t': T.World) {
    && |t.txns| <= |t'.txns|
    && (t'.feed.Aborting? ==> |t'.txns| == |t.txns|)
    && (Accepts(s, t') ==> t.dev.active.Some?)
    && (t'.feed.Aborting? <==> Accepts(s, t') || (t.feed.Aborting? && !s.FeedMove?))
    && (forall n :: 0 <= n < |t.txns| ==>
          && (t.txns[n].worker.Handling? && !(s.HandlerReturns? && s.n == n) ==> t'.txns[n].worker.Handling?)
          && |t'.txns[n].cancels| == |t.txns[n].cancels| + if Accepts(s, t') && n == |t.txns| - 1 then 1 else 0)
    && (forall n :: |t.txns| <= n < |t'.txns| ==> t'.txns[n].cancels == [])
  }

  lemma ReceiveChanges(t: T.World, r: Report)
    requires T.Enabled(t, T.FeedReceive(r))
    ensures Changes(t, T.FeedReceive(r), T.Receives(t, r))
  {
    hide ChanStep, Parse, Dispatch, InitReply;
    T.ReceivesShape(t, r);
    hide T.Receives;
  }

  lemma MoveChanges(t: T.World)
    requires T.Enabled(t, T.FeedMove)
    ensures Changes(t, T.FeedMove, T.Moves(t))
  {
    hide ChanStep, Dispatch, InitReply, ValidDev;
  }

  lemma StepChanges(t: T.World, s: T.Step)
    requires T.Enabled(t, s) && T.InvSending(t)
    ensures Changes(t, s, T.Do(t, s))
  {
    hide T.Receives, T.Moves, T.EmitOne, ValidDev, ValidPhase;
    match s {
      case FeedReceive(r) => ReceiveChanges(t, r);
      case FeedMove => MoveChanges(t);
      case _ =>
    }
  }

  /** What a step of the verifier may do to its calls and its log. */
  ghost predicate Progresses(v: V.World, s: V.Step, v': V.World) {
    && |v'.calls| == |v.calls| + (if s.Invoke? then 1 else 0)
    && (forall c :: 0 <= c < |v.calls| && v.calls[c].phase.Returned? ==> v'.calls[c].phase.Returned?)
    && (v'.log == v.log || (|v'.log| == |v.log| + 1 && v'.log[..|v.log|] == v.log))
    && (s.CancelLock? ==> v'.log == v.log + [V.CancelCalled])
    && (!s.CancelLock? && v'.log != v.log ==> v'.log[|v.log|] != V.CancelCalled)
  }

  lemma VerifierProgresses(v: V.World, s: V.Step)
    requires V.Enabled(v, s)
    ensures Progresses(v, s, V.Do(v, s))
  {
  }

  /** A call that has not returned is the only one; the handler of the newest transaction made it, and is running. */
  ghost predicate InvCallers(w: World) {
    && |w.caller| == |w.v.calls|
    && (forall c :: 0 <= c < |w.caller| ==> w.caller[c] < |w.t.txns|)
    && (forall c :: 0 <= c < |w.caller| && !w.v.calls[c].phase.Returned? ==>
          w.caller[c] == |w.t.txns| - 1 && w.t.txns[w.caller[c]].worker.Handling?)
    && (forall c, d :: 0 <= c < d < |w.caller| ==> w.v.calls[c].phase.Returned? || w.v.calls[d].phase.Returned?)
  }

  /** Between its two critical sections, a cancel is for the newest transaction. */
  ghost predicate InvTarget(w: World) {
    w.t.feed.Aborting? ==> w.t.txns != [] && w.target == |w.t.txns| - 1
  }

  /** By the end of the log, call c has spawned its child and not done its final read. */
  ghost predicate Open(log: seq<V.Section>, c: nat) {
    V.SpawnedBy(c) in log && V.ReadBy(c) !in log
  }

  /** The cancels of the log, and those that find a call between its sections are for the transaction of that call. */
  ghost predicate AbortsFit(log: seq<V.Section>, aborts: map<nat, int>, caller: seq<nat>, size: nat) {
    && (forall k :: 0 <= k < |log| && log[k] == V.CancelCalled ==> k in aborts)
    && (forall k :: k in aborts ==> k < |log| && log[k] == V.CancelCalled && 0 <= aborts[k] < size)
    && (forall k, c :: k in aborts && 0 <= c < |caller| && Open(log[..k], c) ==> aborts[k] == caller[c])
  }

  ghost predicate InvAborts(w: World) {
    AbortsFit(w.v.log, w.aborts, w.caller, |w.t.txns|)
  }

  /** The cancels that were accepted for transaction n and have called the verifier. */
  ghost function AbortsOf(aborts: map<nat, int>, n: nat): set<nat> {
    set k | k in aborts && aborts[k] == n
  }

  ghost predicate InvCount(w: World) {
    forall n :: 0 <= n < |w.t.txns| ==>
      |w.t.txns[n].cancels| == |AbortsOf(w.aborts, n)| + if w.t.feed.Aborting? && n == |w.t.txns| - 1 then 1 else 0
  }

  ghost predicate Inv(w: World) {
    T.InvActive(w.t) && T.InvTxns(w.t) && T.InvSending(w.t) && V.Inv(w.v)
    && InvCallers(w) && InvTarget(w) && InvAborts(w) && InvCount(w)
  }

  /** A handler that is running belongs to the newest transaction. */
  lemma HandlingIsNewest(t: T.World, n: nat)
    requires T.InvActive(t) && n < |t.txns| && t.txns[n].worker.Handling?
    ensures n == |t.txns| - 1 && t.dev.active.Some?
  {
    hide ValidDev, ValidPhase;
  }

  lemma TransportKeeps(w: World, s: T.Step)
    requires Inv(w) && Enabled(w, Transport(s)) && T.InvActive(Do(w, Transport(s)).t)
    ensures var w' := Do(w, Transport(s)); InvCallers(w') && InvTarget(w') && InvAborts(w') && InvCount(w')
  {
    var w' := Do(w, Transport(s));
    StepChanges(w.t, s);
    assert T.InvActive(w.t) && (w.t.dev.active.Some? ==> w.t.txns != []);
    hide T.Do, T.Enabled, V.Inv, T.InvActive, T.InvTxns, T.InvSending;
    forall c | 0 <= c < |w.caller| && !w.v.calls[c].phase.Returned?
      ensures w.caller[c] == |w'.t.txns| - 1 && w'.t.txns[w.caller[c]].worker.Handling?
    {
      assert Checking(w, w.caller[c]);
      HandlingIsNewest(w'.t, w.caller[c]);
    }
    forall n | 0 <= n < |w'.t.txns|
      ensures |w.t.txns| <= n ==> AbortsOf(w.aborts, n) == {}
    {
    }
  }

  lemma AbortsFitMore(log: seq<V.Section>, log': seq<V.Section>, aborts: map<nat, int>, caller: seq<nat>, size: nat)
    requires AbortsFit(log, aborts, caller, size)
    requires log' == log || (|log'| == |log| + 1 && log'[..|log|] == log && log'[|log|] != V.CancelCalled)
    ensures AbortsFit(log', aborts, caller, size)
  {
    hide Open;
    forall k | k in aborts
      ensures log'[..k] == log[..k] && log'[k] == log[k]
    {
    }
    forall k | 0 <= k < |log'| && log'[k] == V.CancelCalled
      ensures k in aborts
    {
      assert k < |log| ==> log[k] == log'[k];
    }
  }

  lemma AbortsFitCancel(log: seq<V.Section>, aborts: map<nat, int>, caller: seq<nat>, size: nat, target: int)
    requires AbortsFit(log, aborts, caller, size) && 0 <= target < size
    requires forall c :: 0 <= c < |caller| && Open(log, c) ==> caller[c] == target
    ensures AbortsFit(log + [V.CancelCalled], aborts[|log| := target], caller, size)
  {
    hide Open;
    var log' := log + [V.CancelCalled];
    forall k | 0 <= k <= |log|
      ensures log'[..k] == log[..k]
    {
    }
    assert log[..|log|] == log;
  }

  lemma AbortsOfCancel(log: seq<V.Section>, aborts: map<nat, int>, caller: seq<nat>, size: nat, target: int, n: nat)
    requires AbortsFit(log, aborts, caller, size)
    ensures |AbortsOf(aborts[|log| := target], n)| == |AbortsOf(aborts, n)| + if n == target then 1 else 0
  {
    assert |log| !in aborts;
    assert AbortsOf(aborts[|log| := target], n) == AbortsOf(aborts, n) + if n == target then {|log|} else {};
  }

  /** A cancel calls the verifier. */
  lemma CancelKeeps(w: World, polled: bool)
    requires Inv(w) && Enabled(w, Cancel(polled))
    ensures var w' := Do(w, Cancel(polled)); InvCallers(w') && InvTarget(w') && InvAborts(w') && InvCount(w')
  {
    AbortingEnds(w.t);
    CancelProgresses(w.v, polled);
    forall c | 0 <= c < |w.caller| && Open(w.v.log, c)
      ensures w.caller[c] == w.target
    {
      OpenIsHandled(w, c);
    }
    hide T.Do, T.Enabled, V.Do, V.Inv, T.InvActive, T.InvTxns, T.InvSending, AbortsFit, Open, AbortsOf;
    AbortsFitCancel(w.v.log, w.aborts, w.caller, |w.t.txns|, w.target);
    forall n: nat
      ensures |AbortsOf(w.aborts[|w.v.log| := w.target], n)| == |AbortsOf(w.aborts, n)| + if n == w.target then 1 else 0
    {
      AbortsOfCancel(w.v.log, w.aborts, w.caller, |w.t.txns|, w.target, n);
    }
  }

  lemma AbortingEnds(t: T.World)
    requires T.Enabled(t, T.FeedMove) && t.feed.Aborting?
    ensures T.Do(t, T.FeedMove).txns == t.txns && !T.Do(t, T.FeedMove).feed.Aborting?
  {
    hide ChanStep, InitReply, ValidDev;
  }

  lemma CancelProgresses(v: V.World, polled: bool)
    ensures var v' := V.Do(v, V.CancelLock(polled));
            && v'.log == v.log + [V.CancelCalled] && |v'.calls| == |v.calls|
            && forall c :: 0 <= c < |v.calls| ==> v'.calls[c].phase == v.calls[c].phase
  {
  }

  /** A call between its two critical sections is one that has not returned. */
  lemma OpenIsHandled(w: World, c: nat)
    requires V.Inv(w.v) && InvCallers(w) && c < |w.caller| && Open(w.v.log, c)
    ensures w.caller[c] == |w.t.txns| - 1
  {
    assert V.LogFits(w.v.log, w.v.shared, c, w.v.calls[c]) && V.CallFits(w.v.calls[c]);
  }

  /** A handler calls verify. */
  lemma VerifyKeeps(w: World, n: nat, user: string, bounded: bool)
    requires Inv(w) && Enabled(w, Verify(n, user, bounded))
    ensures var w' := Do(w, Verify(n, user, bounded)); InvCallers(w') && InvTarget(w') && InvAborts(w') && InvCount(w')
  {
    hide T.InvTxns, T.InvSending, AbortsOf;
    HandlingIsNewest(w.t, n);
    hide T.InvActive;
    forall k | k in w.aborts
      ensures !Open(w.v.log[..k], |w.caller|)
    {
    }
    forall c | 0 <= c < |w.caller|
      ensures w.v.calls[c].phase.Returned?
    {
      assert !w.v.calls[c].phase.Returned? ==> Checking(w, n);
    }
  }

  /** A call of verify goes on. */
  lemma VerifierKeeps(w: World, s: V.Step)
    requires Inv(w) && Enabled(w, Verifier(s))
    ensures var w' := Do(w, Verifier(s)); InvCallers(w') && InvTarget(w') && InvAborts(w') && InvCount(w')
  {
    VerifierProgresses(w.v, s);
    hide V.Do, V.Enabled, V.Inv, T.InvActive, T.InvTxns, T.InvSending, AbortsFit, AbortsOf;
    AbortsFitMore(w.v.log, V.Do(w.v, s).log, w.aborts, w.caller, |w.t.txns|);
  }

  // ---------- every schedule ----------

  lemma StepKeeps(w: World, s: Step)
    requires Inv(w) && Enabled(w, s) && T.InvActive(Do(w, s).t)
    ensures var w' := Do(w, s); InvCallers(w') && InvTarget(w') && InvAborts(w') && InvCount(w')
  {
    hide Do, Enabled, Inv, T.InvActive, InvCallers, InvTarget, InvAborts, InvCount;
    match s {
      case Transport(step) => TransportKeeps(w, step);
      case Cancel(polled) => CancelKeeps(w, polled);
      case Verify(n, user, bounded) => VerifyKeeps(w, n, user, bounded);
      case Verifier(action) => VerifierKeeps(w, action);
    }
  }

  lemma {:induction false} Invariant(steps: seq<Step>)
    requires After(steps).Some?
    ensures Inv(After(steps).value)
    decreases |steps|
  {
    hide Do, Enabled, T.InvActive, T.InvTxns, T.InvSending, T.InvLog, V.Inv, InvCallers, InvTarget, InvAborts, InvCount;
    ComponentsHold(steps);
    if steps == [] {
      InitialHolds();
    } else {
      Invariant(steps[..|steps| - 1]);
      StepKeeps(After(steps[..|steps| - 1]).value, steps[|steps| - 1]);
    }
  }

  lemma ComponentsHold(steps: seq<Step>)
    requires After(steps).Some?
    ensures var w := After(steps).value; T.InvActive(w.t) && T.InvTxns(w.t) && T.InvSending(w.t) && V.Inv(w.v)
  {
    hide After, T.After, V.After, TransportSteps, VerifierSteps, T.InvActive, T.InvTxns, T.InvSending, V.Inv;
    Projections(steps);
    G.Invariant(TransportSteps(steps));
    V.Invariant(VerifierSteps(steps));
  }

  lemma InitialHolds()
    ensures InvCallers(Initial) && InvTarget(Initial) && InvAborts(Initial) && InvCount(Initial)
  {
  }

  // ---------- the guarantees ----------

  /** In every schedule, a cancel that finds a call between its two sections was accepted for its transaction. */
  lemma AbortsStayHome(steps: seq<Step>, w: World, c: nat, k: nat)
    requires After(steps) == Some(w) && c < |w.v.calls| && k < |w.v.log| && w.v.log[k] == V.CancelCalled
    requires Open(w.v.log[..k], c)
    ensures k in w.aborts && c < |w.caller| && w.aborts[k] == w.caller[c]
  {
    hide After, T.InvActive, T.InvTxns, T.InvSending, V.Inv, InvCount;
    Invariant(steps);
  }

  /** In every schedule, each cancel accepted for a transaction calls the verifier once, unless it is about to. */
  lemma EveryCancelAborts(steps: seq<Step>, w: World, n: nat)
    requires After(steps) == Some(w) && n < |w.t.txns|
    ensures |w.t.txns[n].cancels|
            == |AbortsOf(w.aborts, n)| + if w.t.feed.Aborting? && n == |w.t.txns| - 1 then 1 else 0
  {
    hide After, T.InvActive, T.InvTxns, T.InvSending, V.Inv;
    Invariant(steps);
  }

  /** A cancel accepted for transaction n held the verifier's lock between the two sections of call c. */
  ghost predicate CancelledWithin(w: World, n: nat, c: nat) {
    exists k :: 0 <= k < |w.v.log| && k in AbortsOf(w.aborts, n) && Open(w.v.log[..k], c)
  }

  lemma InsideIsOpen(log: seq<V.Section>, c: nat)
    ensures V.CancelledInside(log, c) <==> exists k :: 0 <= k < |log| && log[k] == V.CancelCalled && Open(log[..k], c)
  {
    if V.CancelledInside(log, c) {
      var i, k :| 0 <= i < k < |log| && log[i] == V.SpawnedBy(c) && log[k] == V.CancelCalled
                  && forall j :: 0 <= j < k ==> log[j] != V.ReadBy(c);
      assert log[..k][i] == V.SpawnedBy(c);
      assert Open(log[..k], c);
    }
    if k :| 0 <= k < |log| && log[k] == V.CancelCalled && Open(log[..k], c) {
      var i :| 0 <= i < k && log[..k][i] == V.SpawnedBy(c);
      assert log[i] == V.SpawnedBy(c);
      forall j | 0 <= j < k
        ensures log[j] != V.ReadBy(c)
      {
        assert log[..k][j] == log[j];
      }
    }
  }

  /**
   In every schedule, a call of verify that spawned a child returns CANCELLED exactly if a cancel accepted for its own
   transaction held the lock between the spawn and the final read, or the child exited with 250 in time.
   */
  lemma CancelTakesEffect(steps: seq<Step>, w: World, c: nat)
    requires After(steps) == Some(w) && c < |w.v.calls| && w.v.calls[c].phase.Returned? && V.SpawnedBy(c) in w.v.log
    ensures c < |w.caller| && w.v.calls[c].child.Reaped?
    ensures w.v.calls[c].phase.result == V.Cancelled
            <==> CancelledWithin(w, w.caller[c], c) || (!w.v.calls[c].timedOut && w.v.calls[c].child.code == 250)
  {
    hide After, V.After, T.After, T.InvActive, T.InvTxns, T.InvSending, V.Inv, V.CancelledInside, Open;
    Invariant(steps);
    Projections(steps);
    V.VerdictByLockOrder(VerifierSteps(steps), w.v, c);
    InsideIsOpen(w.v.log, c);
    forall k | 0 <= k < |w.v.log| && w.v.log[k] == V.CancelCalled && Open(w.v.log[..k], c)
      ensures k in AbortsOf(w.aborts, w.caller[c])
    {
      AbortsStayHome(steps, w, c, k);
    }
  }

  /** In no schedule is a call of verify refused because another is running: the first section fails only with Popen. */
  lemma NeverBusy(steps: seq<Step>, w: World, c: nat, ok: bool)
    requires After(steps) == Some(w) && Enabled(w, Verifier(V.EnterLock(c, ok)))
    ensures Do(w, Verifier(V.EnterLock(c, ok))).v.calls[c].phase
            == if ok then V.Waiting else V.Returned(V.UnknownError)
  {
    hide After, V.After, T.After, T.InvActive, T.InvTxns, T.InvSending, T.Enabled, T.Do, V.Inv;
    Invariant(steps);
    Projections(steps);
    V.BusyAborts(VerifierSteps(steps), w.v, c, ok);
  }

  // ---------- a cancel that comes too early ----------

  /** One more step. */
  lemma Takes(steps: seq<Step>, w: World, s: Step) returns (steps': seq<Step>, w': World)
    requires After(steps) == Some(w) && Enabled(w, s)
    ensures After(steps') == Some(w') && w' == Do(w, s)
  {
    hide Do, Enabled;
    assert (steps + [s])[..|steps|] == steps;
    steps', w' := steps + [s], Do(w, s);
  }

  /** No call of verify has been made. */
  ghost predicate Unchecked(w: World) {
    w.caller == [] && w.v.calls == [] && w.v.shared.process == None
  }

  /** A step of the transport, while no call of verify has been made. */
  lemma Moves(steps: seq<Step>, w: World, s: T.Step) returns (steps': seq<Step>, w': World)
    requires After(steps) == Some(w) && Unchecked(w) && T.Enabled(w.t, s)
    ensures After(steps') == Some(w') && Unchecked(w') && w'.t == T.Do(w.t, s)
  {
    hide After, T.Do, T.Enabled;
    steps', w' := Takes(steps, w, if s.FeedMove? && w.t.feed.Aborting? then Cancel(false) else Transport(s));
  }

  /** Every schedule of the transport is possible beside an idle verifier. */
  lemma {:induction false} Lifts(ts: seq<T.Step>) returns (steps: seq<Step>, w: World)
    requires T.After(ts).Some?
    ensures After(steps) == Some(w) && Unchecked(w) && w.t == T.After(ts).value
    decreases |ts|
  {
    hide T.Do, T.Enabled, Unchecked;
    if ts == [] {
      steps, w := [], Initial;
      assert Unchecked(w) by { InitialUnchecked(); }
    } else {
      steps, w := Lifts(ts[..|ts| - 1]);
      steps, w := Moves(steps, w, ts[|ts| - 1]);
    }
  }

  lemma InitialUnchecked()
    ensures Unchecked(Initial)
  {
  }

  /** The host cancels a transaction whose worker has not called verify yet. */
  lemma CancelsEarly() returns (steps: seq<Step>, w: World)
    ensures After(steps) == Some(w) && Unchecked(w) && w.t.feed == Ready && |w.t.txns| == 1
    ensures w.t.txns[0].worker.Handling? && w.t.txns[0].cancels == [true]
  {
    hide After, T.After, Parse, Fragment;
    var ts, t := W.Begins();
    var m := Message(1, CTAPHID_CANCEL, []);
    FirstFragmentParses(m);
    assert ValidDev(t.dev) && 1 in t.dev.channels by { ActiveIsRegistered(ts, t); }
    steps, w := Lifts(ts);
    steps, w := Moves(steps, w, T.FeedReceive(Fragment(m, 0)));
    assert w.t.feed == Cancelling(1, true, None);
    steps, w := Moves(steps, w, T.FeedMove);
    assert w.t.feed == Aborting(None);
    steps, w := Moves(steps, w, T.FeedMove);
    steps, w := Moves(steps, w, T.StartKeepalive(0));
  }

  lemma ActiveIsRegistered(ts: seq<T.Step>, t: T.World)
    requires T.After(ts) == Some(t) && t.dev.active.Some?
    ensures ValidDev(t.dev) && t.dev.active.value in t.dev.channels
  {
    hide T.After;
    G.Invariant(ts);
  }

  /** The face check of a handler that is running succeeds, whatever was cancelled before its spawn. */
  lemma Succeeds(steps: seq<Step>, w: World, user: string) returns (steps': seq<Step>, w': World)
    requires After(steps) == Some(w) && Unchecked(w) && |w.t.txns| == 1 && w.t.txns[0].worker.Handling?
    requires user != "" && user != "root"
    ensures After(steps') == Some(w') && w'.t == w.t && w'.caller == [0] && |w'.v.calls| == 1
    ensures w'.v.calls[0].phase == V.Returned(V.Success)
  {
    hide After, T.Enabled, T.Do;
    steps', w' := Takes(steps, w, Verify(0, user, true));
    steps', w' := Takes(steps', w', Verifier(V.EnterLock(0, true)));
    steps', w' := Takes(steps', w', Verifier(V.Exits(0, 0)));
    steps', w' := Takes(steps', w', Verifier(V.WaitReturns(0)));
    steps', w' := Takes(steps', w', Verifier(V.ReadLock(0)));
  }

  /** A cancel is accepted for a transaction whose face check then succeeds all the same. */
  lemma EarlyCancelIsLost(user: string) returns (steps: seq<Step>, w: World)
    requires user != "" && user != "root"
    ensures After(steps) == Some(w) && w.caller == [0] && |w.t.txns| == 1 && |w.v.calls| == 1
    ensures w.t.txns[0].cancels == [true] && w.v.calls[0].phase == V.Returned(V.Success)
  {
    hide After;
    steps, w := CancelsEarly();
    steps, w := Succeeds(steps, w, user);
  }
}
