/**
 The face verifier: one child process at a time, a lock around the fields that verify and cancel share, and
 any number of threads calling either of them.
 */
module FaceVerifier {
  import opened Bytes

  datatype VerificationResult =
    | Success
    | NoFaceModel
    | TimeoutReached
    | Abort
    | TooDark
    | InvalidDevice
    | Rubberstamp
    | PresentationAttack
    | Cancelled
    | UnknownError

  function ValueOf(r: VerificationResult): int {
    match r
    case Success => 0
    case NoFaceModel => 10
    case TimeoutReached => 11
    case Abort => 12
    case TooDark => 13
    case InvalidDevice => 14
    case Rubberstamp => 15
    case PresentationAttack => 16
    case Cancelled => 250
    case UnknownError => 251
  }

  /** The result with this value; every other code is an unknown error. */
  function FromExitCode(code: int): (r: VerificationResult)
    ensures r == UnknownError || ValueOf(r) == code
    ensures forall q :: ValueOf(q) == code ==> r == q
  {
    if code == 0 then Success
    else if code == 10 then NoFaceModel
    else if code == 11 then TimeoutReached
    else if code == 12 then Abort
    else if code == 13 then TooDark
    else if code == 14 then InvalidDevice
    else if code == 15 then Rubberstamp
    else if code == 16 then PresentationAttack
    else if code == 250 then Cancelled
    else UnknownError
  }

  function ResultOf(cancelled: bool, code: int): VerificationResult {
    if cancelled then Cancelled else if code < 0 then Abort else FromExitCode(code)
  }

  // ---------- the critical sections ----------

  /** The fields under the lock; a child is named by the call that spawned it. */
  datatype Shared = Shared(process: Option<nat>, cancelled: bool)

  /** The first critical section of verify; ok says whether Popen succeeds. A result ends the call. */
  function Spawning(s: Shared, n: nat, ok: bool): (Shared, Option<VerificationResult>) {
    if s.process.Some? then (s, Some(Abort))
    else if !ok then (Shared(None, false), Some(UnknownError))
    else (Shared(Some(n), false), None)
  }

  function Reading(s: Shared): (Shared, bool) {
    (s.(process := None), s.cancelled)
  }

  /** The critical section of cancel, and the child that it terminates. */
  function Cancelling(s: Shared): (Shared, Option<nat>) {
    (s.(cancelled := true), s.process)
  }

  class FaceVerifier {
    var process: Option<nat>
    var cancelled: bool

    ghost function State(): Shared
      reads this
    {
      Shared(process, cancelled)
    }

    constructor ()
      ensures State() == Shared(None, false)
    {
      process, cancelled := None, false;
    }

    method Spawn(n: nat, ok: bool) returns (result: Option<VerificationResult>)
      modifies this
      ensures (State(), result) == Spawning(old(State()), n, ok)
    {
      if process != None { return Some(Abort); }
      cancelled := false;
      if !ok {
        process := None;
        return Some(UnknownError);
      }
      process := Some(n);
      result := None;
    }

    method FinalRead() returns (wasCancelled: bool)
      modifies this
      ensures (State(), wasCancelled) == Reading(old(State()))
    {
      process := None;
      wasCancelled := cancelled;
    }

    method Cancel() returns (terminated: Option<nat>)
      modifies this
      ensures (State(), terminated) == Cancelling(old(State()))
    {
      cancelled := true;
      terminated := None;
      if process != None { terminated := process; }
    }
  }

  // ---------- calls of verify and cancel, interleaved ----------

  datatype Child = NoChild | Running | Zombie(code: int) | Reaped(code: int)

  datatype Phase =
    | Entering
    | Waiting
    | Terminating
    | Killing
    | Collected(code: int)
    | Returned(result: VerificationResult)

  /** A call of verify; bounded says whether it has a timeout, terminated whether terminate was called on its child. */
  datatype Call = Call(user: string, bounded: bool, phase: Phase, child: Child, timedOut: bool, terminated: bool)

  /** The critical sections in the order in which they held the lock. */
  datatype Section = SpawnedBy(n: nat) | CancelCalled | ReadBy(n: nat) | Refused(n: nat)

  datatype World = World(shared: Shared, calls: seq<Call>, log: seq<Section>)

  const Initial := World(Shared(None, false), [], [])

  /** polled: whether terminate found the child dead and reaped it. */
  datatype Step =
    | Invoke(user: string, bounded: bool)
    | EnterLock(n: nat, ok: bool)
    | Exits(n: nat, code: int)
    | WaitReturns(n: nat)
    | TimesOut(n: nat, polled: bool)
    | KillsIt(n: nat)
    | ReadLock(n: nat)
    | CancelLock(polled: bool)

  predicate Dead(c: Child) {
    c.Zombie? || c.Reaped?
  }

  predicate Enabled(w: World, s: Step) {
    match s
    case Invoke(_, _) => true
    case EnterLock(n, _) => n < |w.calls| && w.calls[n].phase.Entering?
    case Exits(n, _) => n < |w.calls| && w.calls[n].child.Running?
    case WaitReturns(n) =>
      n < |w.calls| && (w.calls[n].phase.Waiting? || w.calls[n].phase.Terminating? || w.calls[n].phase.Killing?)
      && Dead(w.calls[n].child)
    case TimesOut(n, _) => n < |w.calls| && w.calls[n].phase.Waiting? && w.calls[n].bounded
    case KillsIt(n) => n < |w.calls| && w.calls[n].phase.Terminating?
    case ReadLock(n) => n < |w.calls| && w.calls[n].phase.Collected?
    case CancelLock(_) => true
  }

  function Polled(c: Child, polled: bool): Child {
    if c.Zombie? && polled then Reaped(c.code) else c
  }

  function Put(w: World, n: nat, c: Call): World
    requires n < |w.calls|
  {
    w.(calls := w.calls[n := c])
  }

  function Do(w: World, s: Step): World
    requires Enabled(w, s)
  {
    match s
    case Invoke(user, bounded) =>
      var phase := if user == "" || user == "root" then Returned(Abort) else Entering;
      w.(calls := w.calls + [Call(user, bounded, phase, NoChild, false, false)])
    case EnterLock(n, ok) =>
      var (shared, result) := Spawning(w.shared, n, ok);
      var c := w.calls[n];
      Put(w, n, if result.Some? then c.(phase := Returned(result.value)) else c.(phase := Waiting, child := Running))
        .(shared := shared, log := w.log + [if result.Some? then Refused(n) else SpawnedBy(n)])
    case Exits(n, code) => Put(w, n, w.calls[n].(child := Zombie(code)))
    case WaitReturns(n) =>
      var c := w.calls[n];
      var code := if c.phase.Waiting? then c.child.code else ValueOf(TimeoutReached);
      Put(w, n, c.(phase := Collected(code), child := Reaped(c.child.code)))
    case TimesOut(n, polled) =>
      var c := w.calls[n];
      Put(w, n, c.(phase := Terminating, timedOut := true, child := Polled(c.child, polled), terminated := true))
    case KillsIt(n) => Put(w, n, w.calls[n].(phase := Killing))
    case ReadLock(n) =>
      var (shared, cancelled) := Reading(w.shared);
      var c := w.calls[n];
      Put(w, n, c.(phase := Returned(ResultOf(cancelled, c.phase.code)))).(shared := shared, log := w.log + [ReadBy(n)])
    case CancelLock(polled) =>
      var (shared, target) := Cancelling(w.shared);
      var w' := w.(shared := shared, log := w.log + [CancelCalled]);
      if target.Some? && target.value < |w.calls| then
        var c := w.calls[target.value];
        Put(w', target.value, c.(child := Polled(c.child, polled), terminated := true))
      else w'
  }

  function After(steps: seq<Step>): Option<World> {
    if steps == [] then Some(Initial)
    else
      match After(steps[..|steps| - 1])
      case None => None
      case Some(w) =>
        var s := steps[|steps| - 1];
        if Enabled(w, s) then Some(Do(w, s)) else None
  }

  // ---------- what every step keeps ----------

  /** Between the spawn section and the final locked read. */
  predicate Inside(p: Phase) {
    p.Waiting? || p.Terminating? || p.Killing? || p.Collected?
  }

  /** The process field names the one call that is between its two critical sections. */
  ghost predicate InvProcess(w: World) {
    && (w.shared.process.Some? ==> w.shared.process.value < |w.calls| && Inside(w.calls[w.shared.process.value].phase))
    && (forall n :: 0 <= n < |w.calls| && Inside(w.calls[n].phase) ==> w.shared.process == Some(n))
  }

  ghost predicate CallFits(c: Call) {
    match c.phase
    case Entering => c.child.NoChild? && !c.timedOut
    case Waiting => !c.child.NoChild? && !c.timedOut
    case Terminating => !c.child.NoChild? && c.timedOut && c.terminated
    case Killing => !c.child.NoChild? && c.timedOut && c.terminated
    case Collected(code) =>
      && c.child.Reaped? && (c.timedOut ==> c.terminated)
      && code == if c.timedOut then ValueOf(TimeoutReached) else c.child.code
    case Returned(_) => (c.child.NoChild? || c.child.Reaped?) && (c.timedOut ==> c.terminated)
  }

  ghost predicate InvCalls(w: World) {
    forall n :: 0 <= n < |w.calls| ==> CallFits(w.calls[n]) && (w.calls[n].timedOut ==> w.calls[n].bounded)
  }

  /** Some cancel held the lock after the call spawned and, if it did its final read, before that. */
  ghost predicate CancelledInside(log: seq<Section>, n: nat) {
    exists i, j :: 0 <= i < j < |log| && log[i] == SpawnedBy(n) && log[j] == CancelCalled
                   && forall k :: 0 <= k < j ==> log[k] != ReadBy(n)
  }

  /** The result that the lock order and the child of a call call for. */
  function Expected(cancelled: bool, c: Call): VerificationResult
    requires c.child.Reaped?
  {
    ResultOf(cancelled, if c.timedOut then ValueOf(TimeoutReached) else c.child.code)
  }

  ghost predicate LogFits(log: seq<Section>, shared: Shared, n: nat, c: Call) {
    && (SpawnedBy(n) in log <==> !c.child.NoChild?)
    && (ReadBy(n) in log <==> c.phase.Returned? && !c.child.NoChild?)
    && (Inside(c.phase) ==> (shared.cancelled <==> CancelledInside(log, n)))
    && (CancelledInside(log, n) ==> c.terminated)
    && (c.phase.Returned? && c.child.Reaped? ==> c.phase.result == Expected(CancelledInside(log, n), c))
  }

  ghost predicate InvLog(w: World) {
    && (forall n :: 0 <= n < |w.calls| ==> LogFits(w.log, w.shared, n, w.calls[n]))
    && (forall n :: |w.calls| <= n ==> SpawnedBy(n) !in w.log && ReadBy(n) !in w.log)
  }

  ghost predicate Inv(w: World) {
    InvProcess(w) && InvCalls(w) && InvLog(w)
  }

  lemma ProcessKept(w: World, s: Step)
    requires InvProcess(w) && Enabled(w, s)
    ensures InvProcess(Do(w, s))
  {
  }

  lemma CallsKept(w: World, s: Step)
    requires InvCalls(w) && Enabled(w, s)
    ensures InvCalls(Do(w, s))
  {
  }

  /** A critical section of somebody else changes nothing for a call, a cancel only for one that is inside. */
  lemma CancelledInsideSnoc(log: seq<Section>, e: Section, n: nat)
    ensures CancelledInside(log + [e], n) <==>
            CancelledInside(log, n) || (e == CancelCalled && SpawnedBy(n) in log && ReadBy(n) !in log)
  {
    var log' := log + [e];
    if CancelledInside(log, n) {
      var i, j :| 0 <= i < j < |log| && log[i] == SpawnedBy(n) && log[j] == CancelCalled
                  && forall k :: 0 <= k < j ==> log[k] != ReadBy(n);
      assert log'[i] == log[i] && log'[j] == log[j];
      assert forall k :: 0 <= k < j ==> log'[k] == log[k];
    }
    if CancelledInside(log', n) {
      var i, j :| 0 <= i < j < |log'| && log'[i] == SpawnedBy(n) && log'[j] == CancelCalled
                  && forall k :: 0 <= k < j ==> log'[k] != ReadBy(n);
      assert forall k :: 0 <= k < |log| ==> log'[k] == log[k];
      if j < |log| {
        assert log[i] == SpawnedBy(n) && log[j] == CancelCalled;
      } else {
        assert log[i] in log;
      }
    }
    if e == CancelCalled && SpawnedBy(n) in log && ReadBy(n) !in log {
      var i :| 0 <= i < |log| && log[i] == SpawnedBy(n);
      assert log'[i] == SpawnedBy(n) && log'[|log|] == CancelCalled;
      assert forall k :: 0 <= k < |log| ==> log'[k] in log;
    }
  }

  /** What a step does to a call that it is not about. */
  lemma LogKeptForOther(w: World, s: Step, n: nat)
    requires Inv(w) && Enabled(w, s) && n < |w.calls| && Do(w, s).calls[n] == w.calls[n]
    requires !((s.EnterLock? || s.ReadLock?) && s.n == n)
    ensures LogFits(Do(w, s).log, Do(w, s).shared, n, w.calls[n])
  {
    hide CancelledInside;
    var w' := Do(w, s);
    if w'.log != w.log {
      CancelledInsideSnoc(w.log, w'.log[|w.log|], n);
    }
  }

  /** The call a step is about. */
  function Subject(w: World, s: Step): Option<nat> {
    match s
    case Invoke(_, _) => None
    case CancelLock(_) => w.shared.process
    case _ => Some(s.n)
  }

  lemma LogKeptForSubject(w: World, s: Step, n: nat)
    requires Inv(w) && Enabled(w, s) && n < |w.calls| && Subject(w, s) == Some(n)
    ensures LogFits(Do(w, s).log, Do(w, s).shared, n, Do(w, s).calls[n])
  {
    hide CancelledInside;
    var w' := Do(w, s);
    if w'.log != w.log {
      CancelledInsideSnoc(w.log, w'.log[|w.log|], n);
    }
    if s.EnterLock? { NeverCancelled(w.log, n); }
  }

  lemma NeverCancelled(log: seq<Section>, n: nat)
    requires SpawnedBy(n) !in log
    ensures !CancelledInside(log, n)
  {
  }

  lemma LogKept(w: World, s: Step)
    requires Inv(w) && Enabled(w, s)
    ensures InvLog(Do(w, s))
  {
    hide CancelledInside, LogFits;
    var w' := Do(w, s);
    forall n | 0 <= n < |w'.calls|
      ensures LogFits(w'.log, w'.shared, n, w'.calls[n])
    {
      if n < |w.calls| && Subject(w, s) == Some(n) {
        LogKeptForSubject(w, s, n);
      } else if n < |w.calls| {
        LogKeptForOther(w, s, n);
      } else {
        NewCallFits(w, s);
      }
    }
  }

  lemma NewCallFits(w: World, s: Step)
    requires InvLog(w) && s.Invoke?
    ensures LogFits(Do(w, s).log, Do(w, s).shared, |w.calls|, Do(w, s).calls[|w.calls|])
  {
  }

  lemma {:induction false} Invariant(steps: seq<Step>)
    requires After(steps).Some?
    ensures Inv(After(steps).value)
    decreases |steps|
  {
    hide Do, Enabled;
    if steps != [] {
      Invariant(steps[..|steps| - 1]);
      var w, s := After(steps[..|steps| - 1]).value, steps[|steps| - 1];
      hide InvProcess, InvCalls, InvLog;
      ProcessKept(w, s);
      CallsKept(w, s);
      LogKept(w, s);
    }
  }

  // ---------- the guarantees ----------

  /**
   A call that spawned a child and returned: it returns CANCELLED exactly if some cancel held the lock between
   its two critical sections, or the child exited with 250 in time; SUCCESS exactly if it was not cancelled, not
   timed out and the child exited with 0; ABORT for a child killed by a signal.
   */
  lemma VerdictByLockOrder(steps: seq<Step>, w: World, n: nat)
    requires After(steps) == Some(w) && n < |w.calls| && w.calls[n].phase.Returned? && SpawnedBy(n) in w.log
    ensures w.calls[n].child.Reaped?
    ensures var c, cancelled := w.calls[n], CancelledInside(w.log, n);
            && (c.phase.result == Cancelled <==> cancelled || (!c.timedOut && c.child.code == 250))
            && (c.phase.result == Success <==> !cancelled && !c.timedOut && c.child.code == 0)
            && (c.timedOut && !cancelled ==> c.phase.result == TimeoutReached)
            && (!c.timedOut && !cancelled && c.child.code < 0 ==> c.phase.result == Abort)
            && (!c.timedOut && !cancelled && c.child.code >= 0 ==> c.phase.result == FromExitCode(c.child.code))
            && (cancelled || c.timedOut ==> c.terminated) && (c.timedOut ==> c.bounded)
  {
    hide After, CancelledInside;
    Invariant(steps);
  }

  /** The exit codes of the compare process. */
  lemma ExitCodes(code: int)
    ensures FromExitCode(0) == Success && FromExitCode(10) == NoFaceModel && FromExitCode(11) == TimeoutReached
    ensures FromExitCode(12) == Abort && FromExitCode(13) == TooDark && FromExitCode(14) == InvalidDevice
    ensures FromExitCode(15) == Rubberstamp && FromExitCode(16) == PresentationAttack && FromExitCode(250) == Cancelled
    ensures code != 0 && code != 250 && !(10 <= code <= 16) ==> FromExitCode(code) == UnknownError
  {
  }

  /**
   In every schedule a cancel terminates the child of the call that is between its two critical sections, if there is
   one, and touches no other call.
   */
  lemma CancelTerminates(steps: seq<Step>, w: World, polled: bool, n: nat)
    requires After(steps) == Some(w) && n < |w.calls|
    ensures var c, c' := w.calls[n], Do(w, CancelLock(polled)).calls[n];
            if c.phase.Waiting? || c.phase.Terminating? || c.phase.Killing? || c.phase.Collected? then
              c'.terminated && c' == c.(child := c'.child, terminated := true)
            else c' == c
    ensures Cancelling(w.shared).1 == Some(n) <==>
            var p := w.calls[n].phase; p.Waiting? || p.Terminating? || p.Killing? || p.Collected?
  {
    hide After, InvLog, InvCalls;
    Invariant(steps);
  }

  predicate Unreaped(c: Child) {
    c.Running? || c.Zombie?
  }

  /** At most one child is unreaped at any time, and its call is still inside; a returned call leaves none. */
  lemma OneChildAtATime(steps: seq<Step>, w: World, n: nat, m: nat)
    requires After(steps) == Some(w) && n < |w.calls| && m < |w.calls|
    ensures Unreaped(w.calls[n].child) && Unreaped(w.calls[m].child) ==> n == m
    ensures Unreaped(w.calls[n].child) ==> w.shared.process == Some(n) && !w.calls[n].phase.Returned?
  {
    hide After, InvLog;
    Invariant(steps);
    assert CallFits(w.calls[n]) && CallFits(w.calls[m]);
  }

  /** A call that finds the lock free spawns exactly if no child is unfinished and Popen succeeds. */
  lemma BusyAborts(steps: seq<Step>, w: World, n: nat, ok: bool)
    requires After(steps) == Some(w) && Enabled(w, EnterLock(n, ok))
    ensures var w' := Do(w, EnterLock(n, ok));
            if exists m :: 0 <= m < |w.calls| && Inside(w.calls[m].phase) then
              w'.calls[n].phase == Returned(Abort) && w'.shared == w.shared
            else if !ok then w'.calls[n].phase == Returned(UnknownError)
            else w'.calls[n].phase == Waiting && !w'.shared.cancelled
  {
    hide After, InvLog, InvCalls;
    Invariant(steps);
  }

  /** Without a user, or for root, verify returns at once and spawns nothing; any other call goes for the lock. */
  lemma InvokeExactly(w: World, user: string, bounded: bool)
    ensures var w' := Do(w, Invoke(user, bounded));
            && w'.shared == w.shared && w'.log == w.log && |w'.calls| == |w.calls| + 1
            && w'.calls[|w.calls|].child == NoChild
            && w'.calls[|w.calls|].phase == if |user| == 0 || user == "root" then Returned(Abort) else Entering
  {
  }
}
