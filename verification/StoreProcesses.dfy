/**
 Several processes on one credential store: the lock, the reload, the change in memory, the temporary file,
 the rename, the release of the lock and the return are separate steps, and a process may fail or die between
 any two of them.
 */
module StoreProcesses {
  import opened Bytes
  import opened CredentialStore
  import opened StoreLaws

  datatype Phase =
    | Dead
    | Quiet
    | Waiting(op: Op)
    | Entered(op: Op)
    | Reloaded(op: Op)
    | Changed(op: Op, reply: Reply)
    | Opened(op: Op, reply: Reply)
    | Written(op: Op, reply: Reply)
    | Committed(op: Op, reply: Reply)
    | Broken(op: Op)
    | Unlocked(op: Op, reply: Reply, commit: nat)

  /** since and heard: how many commits and how many returned replies there were when the current call began. */
  datatype Proc = Proc(phase: Phase, cache: seq<Credential>, since: nat, heard: nat)

  /**
   An operation that took effect: under which grant of the lock, by whom, what it replies, and how many replies
   had been returned, by anybody, before it was called.
   */
  datatype Commit = Commit(grant: nat, process: nat, op: Op, reply: Reply, heard: nat)

  /** A reply that a call returned: of which commit, and how many commits there were when the call began and ended. */
  datatype Answer = Answer(process: nat, op: Op, reply: Reply, commit: nat, since: nat, until: nat)

  datatype World = World(
    file: File, temp: Option<File>, lock: Option<nat>, procs: map<nat, Proc>,
    grants: seq<nat>,        // who got the lock, in order
    commits: seq<Commit>,    // operations in the order they took effect
    answered: seq<Answer>)   // replies in the order they were returned

  datatype Step =
    | Start(p: nat)
    | Refresh(p: nat)
    | Call(p: nat, op: Op)
    | Lock(p: nat)
    | LockFails(p: nat)      // the lock file cannot be opened
    | Reload(p: nat)
    | Change(p: nat)
    | OpenTemp(p: nat)
    | WriteTemp(p: nat)
    | Replace(p: nat)
    | IoError(p: nat)
    | Unlock(p: nat)
    | Return(p: nat)
    | Crash(p: nat)

  function ProcOf(w: World, p: nat): Proc {
    if p in w.procs then w.procs[p] else Proc(Dead, [], 0, 0)
  }

  predicate Holding(ph: Phase) {
    !ph.Dead? && !ph.Quiet? && !ph.Waiting? && !ph.Unlocked?
  }

  predicate Enabled(w: World, s: Step) {
    var ph := ProcOf(w, s.p).phase;
    match s
    case Start(_) => ph.Dead?
    case Refresh(_) => ph.Quiet?
    case Call(_, _) => ph.Quiet?
    case Lock(_) => ph.Waiting? && w.lock.None?
    case LockFails(_) => ph.Waiting?
    case Reload(_) => ph.Entered?
    case Change(_) => ph.Reloaded?
    case OpenTemp(_) => ph.Changed? && !ph.op.DestroyAll?
    case WriteTemp(_) => ph.Opened?
    case Replace(_) => (ph.Written? && w.temp.Some?) || (ph.Changed? && ph.op.DestroyAll?)
    case IoError(_) => ph.Changed? || ph.Opened? || ph.Written?
    case Unlock(_) => (ph.Committed? && w.commits != []) || ph.Broken?
    case Return(_) => ph.Unlocked?
    case Crash(_) => !ph.Dead?
  }

  function Put(w: World, p: nat, proc: Proc): World {
    w.(procs := w.procs[p := proc])
  }

  /** The operation of the lock holder takes effect. */
  function Commits(w: World, p: nat, file: File, op: Op, reply: Reply): World {
    var grant := if |w.grants| > 0 then |w.grants| - 1 else 0;
    Put(w, p, ProcOf(w, p).(phase := Committed(op, reply)))
      .(file := file, commits := w.commits + [Commit(grant, p, op, reply, ProcOf(w, p).heard)])
  }

  function Do(w: World, s: Step): World
    requires Enabled(w, s)
  {
    var p := s.p;
    var proc := ProcOf(w, p);
    match s
    case Start(_) => Put(w, p, Proc(Quiet, [], 0, 0))
    case Refresh(_) => Put(w, p, proc.(cache := if Loaded(w.file).Some? then Loaded(w.file).value else proc.cache))
    case Call(_, op) => Put(w, p, proc.(phase := Waiting(op), since := |w.commits|, heard := |w.answered|))
    case Lock(_) => Put(w, p, proc.(phase := Entered(proc.phase.op))).(lock := Some(p), grants := w.grants + [p])
    case LockFails(_) => Put(w, p, proc.(phase := Quiet))
    case Reload(_) =>
      var op := proc.phase.op;
      if op.DestroyAll? then Put(w, p, proc.(phase := Changed(op, Done), cache := []))
      else if Loaded(w.file).None? then Commits(w, p, w.file, op, Failed)
      else Put(w, p, proc.(phase := Reloaded(op), cache := Loaded(w.file).value))
    case Change(_) =>
      var op := proc.phase.op;
      var (cs, reply) := Mutated(proc.cache, op);
      if cs.None? then Commits(w, p, w.file, op, reply)
      else Put(w, p, proc.(phase := Changed(op, reply), cache := cs.value))
    case OpenTemp(_) =>
      Put(w, p, proc.(phase := Opened(proc.phase.op, proc.phase.reply))).(temp := Some(Unreadable))
    case WriteTemp(_) =>
      Put(w, p, proc.(phase := Written(proc.phase.op, proc.phase.reply))).(temp := Some(Saved(proc.cache)))
    case Replace(_) =>
      if proc.phase.Written? then Commits(w, p, w.temp.value, proc.phase.op, proc.phase.reply).(temp := None)
      else Commits(w, p, Missing, proc.phase.op, proc.phase.reply)
    case IoError(_) =>
      Put(w, p, proc.(phase := Broken(proc.phase.op))).(temp := if proc.phase.Changed? then w.temp else None)
    case Unlock(_) =>
      Put(w, p, proc.(phase := if proc.phase.Broken? then Quiet
                               else Unlocked(proc.phase.op, proc.phase.reply, |w.commits| - 1))).(lock := None)
    case Return(_) =>
      var ph := proc.phase;
      Put(w, p, proc.(phase := Quiet)).(
        answered := w.answered + [Answer(p, ph.op, ph.reply, ph.commit, proc.since, |w.commits|)])
    case Crash(_) => Put(w, p, Proc(Dead, [], 0, 0)).(lock := if w.lock == Some(p) then None else w.lock)
  }

  function Initially(f: File): World {
    World(f, None, None, map[], [], [], [])
  }

  function After(f: File, steps: seq<Step>): Option<World> {
    if steps == [] then Some(Initially(f))
    else
      match After(f, steps[..|steps| - 1])
      case None => None
      case Some(w) =>
        var s := steps[|steps| - 1];
        if Enabled(w, s) then Some(Do(w, s)) else None
  }

  function OpsOf(commits: seq<Commit>): (ops: seq<Op>)
    ensures |ops| == |commits| && forall i :: 0 <= i < |ops| ==> ops[i] == commits[i].op
  {
    if commits == [] then [] else OpsOf(commits[..|commits| - 1]) + [commits[|commits| - 1].op]
  }

  function RepliesOf(commits: seq<Commit>): (rs: seq<Reply>)
    ensures |rs| == |commits| && forall i :: 0 <= i < |rs| ==> rs[i] == commits[i].reply
  {
    if commits == [] then [] else RepliesOf(commits[..|commits| - 1]) + [commits[|commits| - 1].reply]
  }

  // ---------- what every step keeps ----------

  ghost predicate InvLock(w: World) {
    && (forall p :: p in w.procs && Holding(w.procs[p].phase) ==> w.lock == Some(p))
    && (w.lock.Some? ==> w.lock.value in w.procs && Holding(w.procs[w.lock.value].phase)
                         && w.grants != [] && w.grants[|w.grants| - 1] == w.lock.value)
  }

  /** The file is what the committed operations make of the first one. */
  ghost predicate InvFile(f: File, w: World) {
    (w.file, RepliesOf(w.commits)) == ApplyAll(f, OpsOf(w.commits))
  }

  /** What the holder of the lock has prepared is what its operation will do to the file. */
  ghost predicate InvHolder(w: World) {
    w.lock.Some? && w.lock.value in w.procs ==>
      var proc := w.procs[w.lock.value];
      match proc.phase
      case Reloaded(op) => Loaded(w.file) == Some(proc.cache) && !op.DestroyAll?
      case Changed(op, reply) =>
        if op.DestroyAll? then reply == Done && proc.cache == [] else Apply(w.file, op) == (Saved(proc.cache), reply)
      case Opened(op, reply) => Apply(w.file, op) == (Saved(proc.cache), reply)
      case Written(op, reply) => Apply(w.file, op) == (Saved(proc.cache), reply) && w.temp == Some(Saved(proc.cache))
      case _ => true
  }

  ghost predicate Ordered(grants: seq<nat>, commits: seq<Commit>) {
    && (forall i :: 0 <= i < |commits| ==>
          commits[i].grant < |grants| && grants[commits[i].grant] == commits[i].process)
    && (forall i, j :: 0 <= i < j < |commits| ==> commits[i].grant < commits[j].grant)
  }

  ghost predicate AllBefore(commits: seq<Commit>, grant: int) {
    forall i :: 0 <= i < |commits| ==> commits[i].grant < grant
  }

  /** Commits come in the order of the grants they were made under. */
  ghost predicate InvOrder(w: World) {
    && Ordered(w.grants, w.commits)
    && (w.lock.Some? && w.lock.value in w.procs && !w.procs[w.lock.value].phase.Committed? ==>
          AllBefore(w.commits, |w.grants| - 1))
  }

  /** Commit k is by process p, and the only one of p from lo up to hi. */
  ghost predicate OnlyCommit(commits: seq<Commit>, p: nat, k: nat, lo: nat, hi: nat) {
    lo <= k < hi <= |commits| && commits[k].process == p
    && forall i :: lo <= i < hi && commits[i].process == p ==> i == k
  }

  /** A call under way has committed exactly if it is in one of the last phases, and then exactly once. */
  ghost predicate CallFits(commits: seq<Commit>, p: nat, proc: Proc) {
    match proc.phase
    case Dead => true
    case Quiet => true
    case Committed(op, reply) =>
      commits != [] && OnlyCommit(commits, p, |commits| - 1, proc.since, |commits|)
      && commits[|commits| - 1] == commits[|commits| - 1].(op := op, reply := reply, heard := proc.heard)
    case Unlocked(op, reply, k) =>
      OnlyCommit(commits, p, k, proc.since, |commits|)
      && commits[k] == commits[k].(op := op, reply := reply, heard := proc.heard)
    case _ => proc.since <= |commits| && forall i :: proc.since <= i < |commits| ==> commits[i].process != p
  }

  ghost predicate InvCalls(w: World) {
    forall p :: p in w.procs ==>
      CallFits(w.commits, p, w.procs[p]) && (!w.procs[p].phase.Dead? ==> w.procs[p].heard <= |w.answered|)
  }

  /** A returned reply is that of the one commit of its process during the call. */
  ghost predicate AnswerFits(commits: seq<Commit>, a: Answer) {
    OnlyCommit(commits, a.process, a.commit, a.since, a.until)
    && commits[a.commit] == commits[a.commit].(op := a.op, reply := a.reply)
  }

  /** No commit is returned twice, and one whose reply is still to be returned has not been. */
  ghost predicate InvAnswered(w: World) {
    && (forall i :: 0 <= i < |w.answered| ==> AnswerFits(w.commits, w.answered[i]))
    && (forall i, j :: 0 <= i < j < |w.answered| ==> w.answered[i].commit != w.answered[j].commit)
    && (forall p, i :: p in w.procs && w.procs[p].phase.Unlocked? && 0 <= i < |w.answered| ==>
          w.answered[i].commit != w.procs[p].phase.commit)
    && (forall p, i :: p in w.procs && w.procs[p].phase.Committed? && 0 <= i < |w.answered| ==>
          w.answered[i].commit < |w.commits| - 1)
  }

  /** Whatever was returned before a call began was committed before the commit of that call. */
  ghost predicate InvHeard(w: World) {
    forall k :: 0 <= k < |w.commits| ==>
      w.commits[k].heard <= |w.answered|
      && forall i :: 0 <= i < w.commits[k].heard ==> w.answered[i].commit < k
  }

  predicate InCriticalSection(s: Step) {
    s.Reload? || s.Change? || s.OpenTemp? || s.WriteTemp? || s.Replace? || s.IoError?
  }

  /** What a step of the lock holder between reload and the release of the lock changes. */
  lemma HolderStep(w: World, s: Step)
    requires InvLock(w) && Enabled(w, s) && InCriticalSection(s)
    ensures var w', p := Do(w, s), s.p;
            && w.lock == Some(p) && p in w.procs && Holding(w.procs[p].phase) && !w.procs[p].phase.Committed?
            && w'.lock == w.lock && w'.grants == w.grants && w'.answered == w.answered
            && p in w'.procs && w'.procs == w.procs[p := w'.procs[p]] && Holding(w'.procs[p].phase)
            && w'.procs[p].since == w.procs[p].since && w'.procs[p].heard == w.procs[p].heard
            && w'.commits
               == if w'.procs[p].phase.Committed? then
                    var phase := w'.procs[p].phase;
                    w.commits + [Commit(|w.grants| - 1, p, phase.op, phase.reply, w.procs[p].heard)]
                  else w.commits
  {
    hide Loaded, Mutated, Saved;
  }

  /** What every other step changes: it releases the lock after a commit, returns a reply, or does neither. */
  lemma OuterStep(w: World, s: Step)
    requires Enabled(w, s) && !InCriticalSection(s)
    ensures var w', p, proc := Do(w, s), s.p, ProcOf(w, s.p);
            && w'.commits == w.commits && p in w'.procs && w'.procs == w.procs[p := w'.procs[p]]
            && (if s.Return? then
                  && p in w.procs && proc.phase.Unlocked? && w'.procs[p].phase.Quiet?
                  && w'.answered == w.answered
                     + [Answer(p, proc.phase.op, proc.phase.reply, proc.phase.commit, proc.since, |w.commits|)]
                else w'.answered == w.answered)
            && (if s.Unlock? && proc.phase.Committed? then
                  && p in w.procs && w.commits != []
                  && w'.procs[p] == proc.(phase := Unlocked(proc.phase.op, proc.phase.reply, |w.commits| - 1))
                else
                  w'.procs[p].phase.Dead? || w'.procs[p].phase.Quiet? || w'.procs[p].phase.Waiting?
                  || w'.procs[p].phase.Entered?)
  {
    hide Loaded, Mutated, Saved;
  }

  lemma LockKeptByHolder(w: World, s: Step)
    requires InvLock(w) && Enabled(w, s) && InCriticalSection(s)
    ensures InvLock(Do(w, s))
  {
    HolderStep(w, s);
    hide Do, Enabled;
  }

  lemma LockKept(w: World, s: Step)
    requires InvLock(w) && Enabled(w, s)
    ensures InvLock(Do(w, s))
  {
    hide Loaded, Mutated, Saved;
    if InCriticalSection(s) {
      LockKeptByHolder(w, s);
      hide Do;
    }
  }

  lemma HolderKept(w: World, s: Step)
    requires InvLock(w) && InvHolder(w) && Enabled(w, s)
    ensures InvHolder(Do(w, s))
  {
    hide Loaded, Mutated, Saved;
    if s.Change? {
      var proc := ProcOf(w, s.p);
      assert w.lock == Some(s.p);
      assert Mutated(proc.cache, proc.phase.op).0.Some? ==>
               Apply(w.file, proc.phase.op)
               == (Saved(Mutated(proc.cache, proc.phase.op).0.value), Mutated(proc.cache, proc.phase.op).1);
    }
  }

  lemma OrderedSnoc(grants: seq<nat>, commits: seq<Commit>, c: Commit)
    requires Ordered(grants, commits) && AllBefore(commits, c.grant)
    requires c.grant < |grants| && grants[c.grant] == c.process
    ensures Ordered(grants, commits + [c])
  {
  }

  lemma OrderedGrant(grants: seq<nat>, commits: seq<Commit>, p: nat)
    requires Ordered(grants, commits)
    ensures Ordered(grants + [p], commits) && AllBefore(commits, |grants|)
  {
  }

  lemma OrderKeptByHolder(w: World, s: Step)
    requires InvLock(w) && InvOrder(w) && Enabled(w, s) && InCriticalSection(s)
    ensures InvOrder(Do(w, s))
  {
    HolderStep(w, s);
    hide Do, Enabled, Ordered, AllBefore;
    var w' := Do(w, s);
    if w'.commits != w.commits {
      OrderedSnoc(w.grants, w.commits, w'.commits[|w.commits|]);
    }
  }

  lemma OrderKept(w: World, s: Step)
    requires InvLock(w) && InvOrder(w) && Enabled(w, s)
    ensures InvOrder(Do(w, s))
  {
    hide Loaded, Mutated, Saved, Ordered, AllBefore;
    if InCriticalSection(s) {
      OrderKeptByHolder(w, s);
      hide Do;
    } else if s.Lock? {
      OrderedGrant(w.grants, w.commits, s.p);
    }
  }

  /** A commit of another process does not matter to a call. */
  lemma OtherCommits(commits: seq<Commit>, p: nat, proc: Proc, c: Commit)
    requires CallFits(commits, p, proc) && c.process != p && !proc.phase.Committed?
    ensures CallFits(commits + [c], p, proc)
  {
  }

  /** The first commit of a call. */
  lemma OwnCommit(commits: seq<Commit>, p: nat, proc: Proc, proc': Proc, c: Commit)
    requires CallFits(commits, p, proc) && Holding(proc.phase) && !proc.phase.Committed?
    requires proc'.phase.Committed? && proc'.since == proc.since
    requires c.process == p && c.op == proc'.phase.op && c.reply == proc'.phase.reply && c.heard == proc'.heard
    ensures CallFits(commits + [c], p, proc')
  {
  }

  lemma CallKeptByHolder(w: World, s: Step, p: nat)
    requires InvLock(w) && InvCalls(w) && Enabled(w, s) && InCriticalSection(s) && p in Do(w, s).procs
    ensures var proc := Do(w, s).procs[p];
            CallFits(Do(w, s).commits, p, proc) && (!proc.phase.Dead? ==> proc.heard <= |Do(w, s).answered|)
  {
    HolderStep(w, s);
    hide Do, Enabled, OnlyCommit, InvLock;
    var w' := Do(w, s);
    assert p in w.procs && CallFits(w.commits, p, w.procs[p]);
    if w'.commits != w.commits {
      var c := w'.commits[|w.commits|];
      assert w'.commits == w.commits + [c];
      hide CallFits;
      if p == s.p {
        OwnCommit(w.commits, p, w.procs[p], w'.procs[p], c);
      } else {
        OtherCommits(w.commits, p, w.procs[p], c);
      }
    }
  }

  lemma CallsKeptByHolder(w: World, s: Step)
    requires InvLock(w) && InvCalls(w) && Enabled(w, s) && InCriticalSection(s)
    ensures InvCalls(Do(w, s))
  {
    hide Do, Enabled, CallFits, InvLock, InCriticalSection;
    forall p | p in Do(w, s).procs
      ensures var proc := Do(w, s).procs[p];
              CallFits(Do(w, s).commits, p, proc) && (!proc.phase.Dead? ==> proc.heard <= |Do(w, s).answered|)
    {
      CallKeptByHolder(w, s, p);
    }
  }

  lemma CallsKept(w: World, s: Step)
    requires InvLock(w) && InvCalls(w) && Enabled(w, s)
    ensures InvCalls(Do(w, s))
  {
    hide Loaded, Mutated, Saved, OnlyCommit;
    if InCriticalSection(s) {
      CallsKeptByHolder(w, s);
      hide Do;
    } else {
      OuterStep(w, s);
      hide CallFits;
      var w' := Do(w, s);
      assert CallFits(w.commits, s.p, ProcOf(w, s.p)) by {
        assert s.p in w.procs || ProcOf(w, s.p).phase.Dead?;
        DeadFits(w.commits, s.p);
      }
      OwnCallKept(w, s);
      forall p | p in w'.procs && p != s.p
        ensures CallFits(w'.commits, p, w'.procs[p])
      {
        assert CallFits(w.commits, p, w.procs[p]);
      }
    }
  }

  lemma DeadFits(commits: seq<Commit>, p: nat)
    ensures CallFits(commits, p, Proc(Dead, [], 0, 0))
  {
  }

  /** A step outside the critical section keeps the call of its own process in line. */
  lemma OwnCallKept(w: World, s: Step)
    requires Enabled(w, s) && !InCriticalSection(s) && CallFits(w.commits, s.p, ProcOf(w, s.p))
    ensures var w' := Do(w, s); s.p in w'.procs && CallFits(w'.commits, s.p, w'.procs[s.p])
  {
    hide Loaded, Mutated, Saved, OnlyCommit;
  }

  lemma AnsweredKeptByHolder(w: World, s: Step)
    requires InvLock(w) && InvCalls(w) && InvAnswered(w) && Enabled(w, s) && InCriticalSection(s)
    ensures InvAnswered(Do(w, s))
  {
    HolderStep(w, s);
    hide Do, Enabled;
  }

  /** A returned reply fits its commit, which no other reply was of. */
  lemma AnsweredSnoc(w: World, p: nat)
    requires InvCalls(w) && InvAnswered(w) && p in w.procs && w.procs[p].phase.Unlocked?
    ensures var proc := w.procs[p];
            var a := Answer(p, proc.phase.op, proc.phase.reply, proc.phase.commit, proc.since, |w.commits|);
            AnswerFits(w.commits, a) && forall i :: 0 <= i < |w.answered| ==> w.answered[i].commit != a.commit
  {
    assert CallFits(w.commits, p, w.procs[p]);
  }

  lemma AnsweredKeptByReturn(w: World, s: Step)
    requires InvLock(w) && InvCalls(w) && InvAnswered(w) && Enabled(w, s) && s.Return?
    ensures InvAnswered(Do(w, s))
  {
    OuterStep(w, s);
    hide Do, Enabled, AnswerFits;
    AnsweredSnoc(w, s.p);
    var k := w.procs[s.p].phase.commit;
    forall q | q in w.procs && q != s.p && w.procs[q].phase.Unlocked?
      ensures w.procs[q].phase.commit != k
    {
      assert CallFits(w.commits, q, w.procs[q]) && CallFits(w.commits, s.p, w.procs[s.p]);
    }
    forall q | q in w.procs && q != s.p && w.procs[q].phase.Committed?
      ensures k < |w.commits| - 1
    {
      assert CallFits(w.commits, q, w.procs[q]) && CallFits(w.commits, s.p, w.procs[s.p]);
    }
  }

  lemma AnsweredKept(w: World, s: Step)
    requires InvLock(w) && InvCalls(w) && InvAnswered(w) && Enabled(w, s)
    ensures InvAnswered(Do(w, s))
  {
    if InCriticalSection(s) {
      AnsweredKeptByHolder(w, s);
      hide Do;
    } else if s.Return? {
      AnsweredKeptByReturn(w, s);
      hide Do;
    } else {
      OuterStep(w, s);
      hide Do, Enabled, AnswerFits, InvCalls, InvLock;
    }
  }

  lemma HeardKeptByHolder(w: World, s: Step)
    requires InvLock(w) && InvCalls(w) && InvAnswered(w) && InvHeard(w) && Enabled(w, s) && InCriticalSection(s)
    ensures InvHeard(Do(w, s))
  {
    HolderStep(w, s);
    hide Do, Enabled;
  }

  lemma HeardKept(w: World, s: Step)
    requires InvLock(w) && InvCalls(w) && InvAnswered(w) && InvHeard(w) && Enabled(w, s)
    ensures InvHeard(Do(w, s))
  {
    hide Loaded, Mutated, Saved;
    if InCriticalSection(s) {
      HeardKeptByHolder(w, s);
      hide Do;
    }
  }

  lemma CommitSnoc(f: File, commits: seq<Commit>, c: Commit)
    requires Apply(ApplyAll(f, OpsOf(commits)).0, c.op).1 == c.reply
    requires RepliesOf(commits) == ApplyAll(f, OpsOf(commits)).1
    ensures ApplyAll(f, OpsOf(commits + [c]))
            == (Apply(ApplyAll(f, OpsOf(commits)).0, c.op).0, RepliesOf(commits + [c]))
  {
    hide Apply, ApplyAll;
    assert (commits + [c])[..|commits|] == commits;
    ApplyAllSnoc(f, OpsOf(commits), c.op);
  }

  /** A commit does to the file what its operation says. */
  lemma CommitApplies(w: World, s: Step)
    requires InvLock(w) && InvHolder(w) && Enabled(w, s) && Do(w, s).commits != w.commits
    ensures var w' := Do(w, s);
            |w'.commits| == |w.commits| + 1 && w'.commits[..|w.commits|] == w.commits
            && Apply(w.file, w'.commits[|w.commits|].op) == (w'.file, w'.commits[|w.commits|].reply)
  {
    hide Loaded, Mutated, Saved;
  }

  lemma FileKept(f: File, w: World, s: Step)
    requires InvLock(w) && InvHolder(w) && InvFile(f, w) && Enabled(w, s)
    ensures InvFile(f, Do(w, s))
  {
    hide Do, Enabled, Apply, ApplyAll, OpsOf, RepliesOf, InvLock, InvHolder;
    if Do(w, s).commits != w.commits {
      CommitApplies(w, s);
      var c := Do(w, s).commits[|w.commits|];
      assert Do(w, s).commits == w.commits + [c];
      CommitSnoc(f, w.commits, c);
    } else {
      UncommittedFile(w, s);
    }
  }

  lemma UncommittedFile(w: World, s: Step)
    requires Enabled(w, s) && Do(w, s).commits == w.commits
    ensures Do(w, s).file == w.file
  {
    hide Loaded, Mutated, Saved;
  }

  ghost predicate Inv(f: File, w: World) {
    InvLock(w) && InvHolder(w) && InvOrder(w) && InvCalls(w) && InvAnswered(w) && InvHeard(w) && InvFile(f, w)
  }

  lemma {:induction false} Invariant(f: File, steps: seq<Step>)
    requires After(f, steps).Some?
    ensures Inv(f, After(f, steps).value)
    decreases |steps|
  {
    hide Do, Enabled;
    if steps != [] {
      hide InvLock, InvHolder, InvOrder, InvCalls, InvAnswered, InvHeard, InvFile;
      Invariant(f, steps[..|steps| - 1]);
      var w, s := After(f, steps[..|steps| - 1]).value, steps[|steps| - 1];
      LockKept(w, s);
      HolderKept(w, s);
      OrderKept(w, s);
      CallsKept(w, s);
      AnsweredKept(w, s);
      HeardKept(w, s);
      FileKept(f, w, s);
    }
  }

  // ---------- the guarantees ----------

  /**
   In every schedule of any number of processes, with failures and crashes anywhere: the file is what the
   committed operations make of the first file, one by one in the order their processes got the lock, and
   each replies what it would reply then. A returned reply is that of the one commit its call made, between
   the beginning and the end of the call; and a call that returned before another began comes before it.
   */
  lemma Linearizable(f: File, steps: seq<Step>, w: World)
    requires After(f, steps) == Some(w)
    ensures (w.file, RepliesOf(w.commits)) == ApplyAll(f, OpsOf(w.commits))
    ensures forall i, j :: 0 <= i < j < |w.commits| ==> w.commits[i].grant < w.commits[j].grant
    ensures forall i :: 0 <= i < |w.commits| ==>
              w.commits[i].grant < |w.grants| && w.grants[w.commits[i].grant] == w.commits[i].process
    ensures forall i :: 0 <= i < |w.answered| ==>
              var a := w.answered[i];
              && a.since <= a.commit < a.until <= |w.commits|
              && w.commits[a.commit].process == a.process
              && w.commits[a.commit].op == a.op && w.commits[a.commit].reply == a.reply
              && (forall k :: a.since <= k < a.until && w.commits[k].process == a.process ==> k == a.commit)
    ensures forall i, j :: 0 <= i < j < |w.answered| ==> w.answered[i].commit != w.answered[j].commit
    ensures forall i, k :: 0 <= k < |w.commits| && 0 <= i < w.commits[k].heard ==>
              i < |w.answered| && w.answered[i].commit < k
  {
    hide After;
    Invariant(f, steps);
    forall i | 0 <= i < |w.answered|
      ensures AnswerFits(w.commits, w.answered[i])
    {
    }
  }

  /** A crash, a failed write or a read leaves the file as it was; only a commit of the lock holder changes it. */
  lemma OnlyCommitsChangeTheFile(f: File, steps: seq<Step>, w: World, s: Step)
    requires After(f, steps) == Some(w) && Enabled(w, s)
    ensures Do(w, s).file != w.file ==>
              w.lock == Some(s.p) && |Do(w, s).commits| == |w.commits| + 1
              && Do(w, s).file == Apply(w.file, Do(w, s).commits[|w.commits|].op).0
    ensures s.Crash? || s.IoError? ==> Do(w, s).file == w.file && Do(w, s).commits == w.commits
  {
    hide After;
    Invariant(f, steps);
    hide InvCalls, InvAnswered, InvHeard, InvFile, InvOrder;
    if Do(w, s).commits != w.commits {
      CommitApplies(w, s);
      CommitterHoldsLock(w, s);
    } else {
      UncommittedFile(w, s);
    }
    if s.Crash? || s.IoError? { CrashCommitsNothing(w, s); }
  }

  lemma CommitterHoldsLock(w: World, s: Step)
    requires InvLock(w) && Enabled(w, s) && Do(w, s).commits != w.commits
    ensures w.lock == Some(s.p)
  {
    hide Loaded, Mutated, Saved;
  }

  lemma CrashCommitsNothing(w: World, s: Step)
    requires Enabled(w, s) && (s.Crash? || s.IoError?)
    ensures Do(w, s).commits == w.commits && Do(w, s).file == w.file
  {
    hide Loaded, Mutated, Saved;
  }

  /**
   What a process has cached: a refresh reads the file, if it is readable; when an operation takes effect on a readable
   file, its process has the list that the file then holds; otherwise only a reload or a change touches the cache.
   */
  lemma CachesFollow(f: File, steps: seq<Step>, w: World, s: Step, p: nat)
    requires After(f, steps) == Some(w) && Enabled(w, s) && p in w.procs && !s.Start? && !s.Crash?
    ensures var w' := Do(w, s);
            && p in w'.procs
            && (s == Refresh(p) && Loaded(w.file).Some? ==> Some(w'.procs[p].cache) == Loaded(w.file))
            && (s == Refresh(p) && Loaded(w.file).None? ==> w'.procs[p].cache == w.procs[p].cache)
            && (s.p == p && w'.commits != w.commits && Loaded(w.file).Some? ==>
                  Loaded(w'.file) == Some(w'.procs[p].cache))
            && (s.p != p || !(s.Refresh? || s.Reload? || s.Change?) ==> w'.procs[p].cache == w.procs[p].cache)
  {
    hide After;
    Invariant(f, steps);
    hide InvCalls, InvAnswered, InvHeard, InvFile, InvOrder, InvLock, InvHolder, Do, Enabled;
    CachesStep(w, s, p);
    if s.p == p && Do(w, s).commits != w.commits && Loaded(w.file).Some? {
      CommitterHoldsLock(w, s);
      CommitCaches(w, s);
    }
  }

  lemma CachesStep(w: World, s: Step, p: nat)
    requires Enabled(w, s) && p in w.procs && !s.Start? && !s.Crash?
    ensures var w' := Do(w, s);
            && p in w'.procs
            && (s == Refresh(p) && Loaded(w.file).Some? ==> Some(w'.procs[p].cache) == Loaded(w.file))
            && (s == Refresh(p) && Loaded(w.file).None? ==> w'.procs[p].cache == w.procs[p].cache)
            && (s.p != p || !(s.Refresh? || s.Reload? || s.Change?) ==> w'.procs[p].cache == w.procs[p].cache)
  {
    hide Saved, Mutated, Loaded;
  }

  lemma CommitCaches(w: World, s: Step)
    requires InvHolder(w) && w.lock == Some(s.p) && s.p in w.procs && Enabled(w, s)
    requires Do(w, s).commits != w.commits && Loaded(w.file).Some?
    ensures s.p in Do(w, s).procs && Loaded(Do(w, s).file) == Some(Do(w, s).procs[s.p].cache)
  {
    hide Saved, Mutated, Loaded, Apply;
    LoadRestoresSaved(w.procs[s.p].cache);
    MissingIsEmpty();
  }

  lemma MissingIsEmpty()
    ensures Loaded(Missing) == Some([])
  {
  }

  predicate Counts(a: Answer, id: seq<Byte>) {
    a.op == Increment(id) && a.reply.Counter?
  }

  /**
   No value that increment_counter returned for a credential is ever returned for it again, whatever failed or
   crashed in between and in whatever order overlapping calls return, if no id is ever added twice. The values are
   ordered as the commits are; so a call that begins after another has returned returns the larger value.
   */
  lemma CountersNeverRepeat(f: File, cs0: seq<Credential>, steps: seq<Step>, w: World, i: nat, j: nat, id: seq<Byte>)
    requires After(f, steps) == Some(w)
    requires Loaded(f) == Some(cs0) && DistinctIds(cs0) && FreshAdds(cs0, OpsOf(w.commits))
    requires i < |w.answered| && j < |w.answered| && i != j
    requires Counts(w.answered[i], id) && Counts(w.answered[j], id)
    ensures w.answered[i].reply.value != w.answered[j].reply.value
    ensures w.answered[i].reply.value < w.answered[j].reply.value <==> w.answered[i].commit < w.answered[j].commit
    ensures w.answered[j].commit < |w.commits|
    ensures i < w.commits[w.answered[j].commit].heard ==> w.answered[i].reply.value < w.answered[j].reply.value
  {
    hide After, DistinctIds, FreshAdds, ApplyAll, Loaded;
    Linearizable(f, steps, w);
    var a, b := w.answered[i].commit, w.answered[j].commit;
    assert a != b;
    if a < b {
      CountersIncrease(cs0, OpsOf(w.commits), f, a, b, id);
    } else {
      CountersIncrease(cs0, OpsOf(w.commits), f, b, a, id);
    }
  }

  // ---------- overlapping calls ----------

  lemma AfterSnoc(f: File, steps: seq<Step>, w: World, s: Step)
    requires After(f, steps) == Some(w) && Enabled(w, s)
    ensures After(f, steps + [s]) == Some(Do(w, s))
  {
    hide Do, Enabled;
    assert (steps + [s])[..|steps|] == steps;
  }

  /** One more step. */
  lemma Takes(f: File, steps: seq<Step>, w: World, s: Step) returns (steps': seq<Step>, w': World)
    requires After(f, steps) == Some(w) && Enabled(w, s)
    ensures After(f, steps') == Some(w') && w' == Do(w, s)
  {
    hide Do, Enabled;
    AfterSnoc(f, steps, w, s);
    steps', w' := steps + [s], Do(w, s);
  }

  /** A waiting call that finds the lock free reloads the file and makes its change in memory. */
  lemma Prepares(f: File, steps: seq<Step>, w: World, p: nat, op: Op, cs: seq<Credential>)
    returns (steps': seq<Step>, w': World)
    requires After(f, steps) == Some(w) && w.lock.None? && p in w.procs && w.procs[p].phase == Waiting(op)
    requires Loaded(w.file) == Some(cs) && !op.DestroyAll? && Mutated(cs, op).0.Some?
    ensures After(f, steps') == Some(w')
    ensures var (cs', reply) := Mutated(cs, op);
            var proc := w.procs[p].(phase := Changed(op, reply), cache := cs'.value);
            w' == w.(lock := Some(p), grants := w.grants + [p], procs := w.procs[p := proc])
  {
    hide Loaded, Mutated, Saved, After;
    steps', w' := Takes(f, steps, w, Lock(p));
    steps', w' := Takes(f, steps', w', Reload(p));
    steps', w' := Takes(f, steps', w', Change(p));
  }

  /** The lock holder writes what it has prepared, and lets go of the lock. */
  lemma Finishes(f: File, steps: seq<Step>, w: World, p: nat) returns (steps': seq<Step>, w': World)
    requires After(f, steps) == Some(w) && w.grants != [] && p in w.procs
    requires w.procs[p].phase.Changed? && !w.procs[p].phase.op.DestroyAll?
    ensures After(f, steps') == Some(w')
    ensures var proc, op, reply := w.procs[p], w.procs[p].phase.op, w.procs[p].phase.reply;
            w' == w.(file := Saved(proc.cache), temp := None, lock := None,
                     commits := w.commits + [Commit(|w.grants| - 1, p, op, reply, proc.heard)],
                     procs := w.procs[p := proc.(phase := Unlocked(op, reply, |w.commits|))])
  {
    hide Loaded, Mutated, Saved, After;
    steps', w' := Takes(f, steps, w, OpenTemp(p));
    steps', w' := Takes(f, steps', w', WriteTemp(p));
    steps', w' := Takes(f, steps', w', Replace(p));
    steps', w' := Takes(f, steps', w', Unlock(p));
  }

  /** A waiting call that finds the lock free and meets no failure commits and releases the lock in seven steps. */
  lemma Uncontended(f: File, steps: seq<Step>, w: World, p: nat, op: Op, cs: seq<Credential>)
    returns (steps': seq<Step>, w': World)
    requires After(f, steps) == Some(w) && w.lock.None? && p in w.procs && w.procs[p].phase == Waiting(op)
    requires Loaded(w.file) == Some(cs) && !op.DestroyAll? && Mutated(cs, op).0.Some?
    ensures After(f, steps') == Some(w')
    ensures var (cs', reply) := Mutated(cs, op);
            var proc := w.procs[p];
            && w'.file == Saved(cs'.value) && w'.lock.None? && w'.answered == w.answered
            && w'.commits == w.commits + [Commit(|w.grants|, p, op, reply, proc.heard)]
            && w'.procs == w.procs[p := Proc(Unlocked(op, reply, |w.commits|), cs'.value, proc.since, proc.heard)]
  {
    hide Loaded, Mutated, Saved, After, Do;
    steps', w' := Prepares(f, steps, w, p, op, cs);
    steps', w' := Finishes(f, steps', w', p);
  }

  lemma Begins(f: File, steps: seq<Step>, w: World, p: nat, op: Op) returns (steps': seq<Step>, w': World)
    requires After(f, steps) == Some(w) && p !in w.procs
    ensures After(f, steps') == Some(w')
    ensures w' == w.(procs := w.procs[p := Proc(Waiting(op), [], |w.commits|, |w.answered|)])
  {
    hide After;
    steps', w' := Takes(f, steps, w, Start(p));
    steps', w' := Takes(f, steps', w', Call(p, op));
  }

  /**
   Two overlapping calls of increment_counter may return out of order: the one that counted second returns first.
   So the order of the returns alone says nothing; only calls that do not overlap return growing values.
   */
  lemma OverlappingReturns(cs: seq<Credential>, id: seq<Byte>) returns (steps: seq<Step>, w: World)
    requires IndexOf(cs, id) < |cs|
    ensures After(Saved(cs), steps) == Some(w) && |w.answered| == 2
    ensures var n := cs[IndexOf(cs, id)].signCount;
            && Counts(w.answered[0], id) && w.answered[0].reply.value == n + 2
            && Counts(w.answered[1], id) && w.answered[1].reply.value == n + 1
  {
    hide Loaded, Saved, IndexOf, Mutated, Do, Enabled, After;
    var f, op, k := Saved(cs), Increment(id), IndexOf(cs, id);
    LoadRestoresSaved(cs);
    IncrementMutates(cs, id);
    assert After(f, []) == Some(Initially(f)) by { InitialAfter(f); }
    steps, w := Begins(f, [], Initially(f), 1, op);
    steps, w := Begins(f, steps, w, 2, op);
    steps, w := Uncontended(f, steps, w, 1, op, cs);
    var cs' := Incremented(cs, k);
    LoadRestoresSaved(cs');
    IndexKept(cs, id);
    IncrementMutates(cs', id);
    steps, w := Uncontended(f, steps, w, 2, op, cs');
    steps, w := Returns(f, steps, w, 2);
    steps, w := Returns(f, steps, w, 1);
  }

  lemma Returns(f: File, steps: seq<Step>, w: World, p: nat) returns (steps': seq<Step>, w': World)
    requires After(f, steps) == Some(w) && p in w.procs && w.procs[p].phase.Unlocked?
    ensures After(f, steps') == Some(w') && w'.procs == w.procs[p := w.procs[p].(phase := Quiet)]
    ensures var proc := w.procs[p];
            w'.answered == w.answered
                           + [Answer(p, proc.phase.op, proc.phase.reply, proc.phase.commit, proc.since, |w.commits|)]
  {
    steps', w' := Takes(f, steps, w, Return(p));
  }

  lemma InitialAfter(f: File)
    ensures After(f, []) == Some(Initially(f))
  {
  }

  lemma IncrementMutates(cs: seq<Credential>, id: seq<Byte>)
    requires IndexOf(cs, id) < |cs|
    ensures var k := IndexOf(cs, id);
            Mutated(cs, Increment(id)) == (Some(Incremented(cs, k)), Counter(cs[k].signCount + 1))
  {
    hide IndexOf;
  }

  lemma IndexKept(cs: seq<Credential>, id: seq<Byte>)
    requires IndexOf(cs, id) < |cs|
    ensures IndexOf(Incremented(cs, IndexOf(cs, id)), id) == IndexOf(cs, id)
  {
    var i := IndexOf(cs, id);
    var j := IndexOf(Incremented(cs, i), id);
    assert Incremented(cs, i)[i].credentialId == id;
    assert forall k :: 0 <= k < |cs| ==> Incremented(cs, i)[k].credentialId == cs[k].credentialId;
  }
}
