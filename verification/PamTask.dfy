/** optional_task: a thread that is started only on demand, and its joining and result preconditions. */
module PamTask {

  /** The fields of optional_task, whether its thread object holds a thread, and how often it was joined. */
  datatype Task = Task(joinable: bool, spawned: bool, isActive: bool, joins: nat)

  const Created := Task(false, false, false, 0)

  function Activated(t: Task): Task {
    Task(true, true, true, t.joins)
  }

  /**
   What stop does: nothing to join; one join; for a thread that never was, std::thread's error from the join, or
   undefined behaviour if it is to be cancelled first.
   */
  datatype StopOutcome = Skips | Joins | Throws | Undefined

  function StopOutcomeOf(t: Task, force: bool): StopOutcome {
    if !(t.isActive && t.joinable) && t.spawned then Skips
    else if t.joinable then Joins
    else if force then Undefined
    else Throws
  }

  /** The fields after stop, if it gets to its end. */
  function Stopped(t: Task): Task {
    match StopOutcomeOf(t, false)
    case Skips => t.(isActive := false)
    case Joins => t.(joinable := false, isActive := false, joins := t.joins + 1)
    case _ => t
  }

  /** The assertion of get. */
  predicate GetAllowed(t: Task) {
    !t.isActive && t.spawned
  }

  /** The destructor stops a task that is still active. */
  function Destroyed(t: Task): Task {
    if t.isActive && t.spawned then Stopped(t) else t
  }

  class OptionalTask {
    var joinable: bool
    var spawned: bool
    var isActive: bool
    ghost var joins: nat

    ghost function State(): Task
      reads this
    {
      Task(joinable, spawned, isActive, joins)
    }

    constructor ()
      ensures State() == Created
    {
      joinable, spawned, isActive, joins := false, false, false, 0;
    }

    method Activate()
      modifies this
      ensures State() == Activated(old(State()))
    {
      joinable := true;
      spawned := true;
      isActive := true;
    }

    /** A cancel before the join changes no field of the task. */
    method Stop(force: bool) returns (outcome: StopOutcome)
      modifies this
      ensures State() == Stopped(old(State())) && outcome == StopOutcomeOf(old(State()), force)
    {
      if !(isActive && joinable) && spawned {
        isActive := false;
        return Skips;
      }
      if force && !joinable {
        return Undefined;
      }
      if !joinable {
        return Throws;
      }
      joinable := false;
      joins := joins + 1;
      isActive := false;
      outcome := Joins;
    }

    method Destroy() returns (threw: bool)
      modifies this
      ensures State() == Destroyed(old(State())) && !threw
    {
      threw := false;
      if isActive && spawned {
        var outcome := Stop(false);
        threw := outcome.Throws?;
      }
    }
  }

  /** Stopping joins an activated task once however often it is repeated, and makes get allowed. */
  lemma StopJoinsOnce(t: Task)
    requires t.joins == 0 && !t.joinable
    ensures var s := Stopped(Activated(t));
            s.joins == 1 && GetAllowed(s) && Stopped(s) == s && Destroyed(s) == s
    ensures StopOutcomeOf(t, false).Throws? <==> !t.spawned
    ensures StopOutcomeOf(t, true).Undefined? <==> !t.spawned
  {
  }

  /** What stop and the destructor do to a task in any state. */
  lemma StopExactly(t: Task, force: bool)
    ensures var skip, outcome := !(t.isActive && t.joinable) && t.spawned, StopOutcomeOf(t, force);
            && (outcome == Skips <==> skip)
            && (outcome == Joins <==> !skip && t.joinable)
            && (outcome == Throws <==> !skip && !t.joinable && !force)
            && (outcome == Undefined <==> !skip && !t.joinable && force)
            && (skip ==> Stopped(t) == Task(t.joinable, t.spawned, false, t.joins))
            && (!skip && t.joinable ==> Stopped(t) == Task(false, t.spawned, false, t.joins + 1))
            && (!skip && !t.joinable ==> Stopped(t) == t)
    ensures !t.isActive || !t.spawned ==> Destroyed(t) == t
    ensures t.isActive && t.spawned && t.joinable ==> Destroyed(t) == Task(false, true, false, t.joins + 1)
    ensures t.isActive && t.spawned && !t.joinable ==> Destroyed(t) == Task(false, true, false, t.joins)
  {
  }
}
