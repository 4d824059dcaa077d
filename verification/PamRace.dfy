/**
 The race of face verification and password prompt in identify: the main thread, the task that waits for
 the compare process and the task that asks for the password, interleaved at every step they share.
 */
module PamRace {
  import opened Bytes
  import opened PamTask

  const PAM_SUCCESS := 0
  const PAM_AUTH_ERR := 7
  const PAM_IGNORE := 25
  const MAX_RETRIES := 5

  datatype Workaround = Off | Input | Native
  datatype Confirmation = Unset | Howdy | Pam
  datatype Config = Config(askAuthTok: bool, workaround: Workaround)

  predicate AskPass(c: Config) {
    c.askAuthTok && c.workaround != Off
  }

  // ---------- wait statuses ----------

  /** WIFEXITED and WEXITSTATUS of a raw 32-bit wait status. */
  predicate Exited(status: int) {
    status % 0x80 == 0
  }

  function ExitStatus(status: int): int {
    (status / 0x100) % 0x100
  }

  /** howdy_status and howdy_error: only the raw status 0 is a success. */
  function HowdyStatus(status: int): int {
    if status != 0 then PAM_AUTH_ERR else PAM_SUCCESS
  }

  /** The child ended on its own with an error code: the user may still be typing a password. */
  predicate AwaitsPassword(c: Config, status: int) {
    Exited(status) && ExitStatus(status) != 0 && AskPass(c)
  }

  // ---------- the three threads ----------

  datatype ChildPc =
    | ChildIdle
    | ChildRuns
    | ChildReaped(status: int)
    | ChildNotifies(status: int)
    | ChildReturned(status: int)
  datatype PassPc =
    | PassIdle
    | PassAsks
    | PassGot(res: int)
    | PassNotifies(res: int)
    | PassReturned(res: int)
    | PassCancelled

  /** Where a return statement sits. */
  datatype Site = PasswordError | PasswordFirst | FaceThenPasswordError | FaceThenPassword | FaceVerdict

  datatype MainPc =
    | ActivateChild | ActivatePass
    | Lock | Check | Blocked
    | Decide
    | KillChild | StopChildAfterPass | StopPass | GetPass
    | StopChild | GetChild
    | StopPassAfterChild(status: int) | GetPassAfterChild(status: int)
    | CancelPass(status: int) | JoinCancelled(status: int)
    | Press(status: int) | Retry(status: int, retries: nat) | StopPassAfterInput(status: int)
    | Returned(result: int, site: Site)
    | Threw                                 // std::thread::join on a thread that never was
    | Undefined                             // pthread_cancel on a thread that never was

  predicate Ended(p: MainPc) {
    p.Returned? || p.Threw? || p.Undefined?
  }

  datatype World = World(
    main: MainPc, child: ChildPc, pass: PassPc,
    childTask: Task, passTask: Task,
    flag: Confirmation, notified: bool, cancelRequested: bool,
    writes: nat, presses: nat)

  const Initial := World(ActivateChild, ChildIdle, PassIdle, Created, Created, Unset, false, false, 0, 0)

  datatype Step =
    | Main
    | Wake                     // a notified waiter runs again
    | SpuriousWake
    | GiveUp                   // no permission for the fake Enter device, or it fails
    | Child(status: int)       // the next step of the child task; the status is what waitpid reports
    | Pass(res: int)           // the next step of the password task; res is what pam_get_authtok reports
    | PassDies                 // the password task acts on pthread_cancel

  /** Main holds the mutex only while it evaluates the predicate of the wait. */
  predicate MutexFree(w: World) {
    !w.main.Check?
  }

  predicate ChildDone(w: World) {
    w.child.ChildReturned?
  }

  predicate PassDone(w: World) {
    w.pass.PassReturned? || w.pass.PassCancelled?
  }

  /** A stop that has a thread to join waits for it. */
  predicate StopReady(t: Task, done: bool) {
    StopOutcomeOf(t, false).Joins? ==> done
  }

  predicate MainEnabled(w: World) {
    match w.main
    case Blocked => false
    case StopChildAfterPass => StopReady(w.childTask, ChildDone(w))
    case StopChild => StopReady(w.childTask, ChildDone(w))
    case StopPass => StopReady(w.passTask, PassDone(w))
    case StopPassAfterChild(_) => StopReady(w.passTask, PassDone(w))
    case JoinCancelled(_) => StopReady(w.passTask, PassDone(w))
    case StopPassAfterInput(_) => StopReady(w.passTask, PassDone(w))
    case GetPass => w.pass.PassReturned?
    case GetPassAfterChild(_) => w.pass.PassReturned?
    case GetChild => w.child.ChildReturned?
    case Returned(_, _) => false
    case Threw => false
    case Undefined => false
    case _ => true
  }

  predicate Enabled(w: World, s: Step) {
    match s
    case Main => MainEnabled(w)
    case Wake => w.main.Blocked? && w.notified
    case SpuriousWake => w.main.Blocked?
    case GiveUp => w.main.Press? || w.main.Retry?
    case Child(_) =>
      match w.child {
        case ChildRuns => true
        case ChildReaped(_) => MutexFree(w)
        case ChildNotifies(_) => true
        case _ => false
      }
    case Pass(_) =>
      match w.pass {
        case PassAsks => true
        case PassGot(_) => MutexFree(w)
        case PassNotifies(_) => true
        case _ => false
      }
    case PassDies => w.pass.PassAsks? && w.cancelRequested
  }

  /** stop(false), whose join may throw. */
  function AfterStop(t: Task, next: MainPc): MainPc {
    if StopOutcomeOf(t, false).Throws? then Threw else next
  }

  /** Where the main thread goes once the child's status is known. */
  function AfterChild(c: Config, status: int): MainPc {
    if AwaitsPassword(c, status) then StopPassAfterChild(status)
    else
      match c.workaround
      case Native => CancelPass(status)
      case Input => Press(status)
      case Off => Returned(HowdyStatus(status), FaceVerdict)
  }

  function MainStep(c: Config, w: World): World
    requires MainEnabled(w)
  {
    match w.main
    case ActivateChild =>
      w.(main := if AskPass(c) then ActivatePass else Lock, childTask := Activated(w.childTask), child := ChildRuns)
    case ActivatePass => w.(main := Lock, passTask := Activated(w.passTask), pass := PassAsks)
    case Lock => w.(main := Check)
    case Check => if w.flag != Unset then w.(main := Decide) else w.(main := Blocked, notified := false)
    case Decide => w.(main := if w.flag == Pam then KillChild else StopChild)
    case KillChild => w.(main := StopChildAfterPass)
    case StopChildAfterPass => w.(main := AfterStop(w.childTask, StopPass), childTask := Stopped(w.childTask))
    case StopPass => w.(main := AfterStop(w.passTask, GetPass), passTask := Stopped(w.passTask))
    case GetPass =>
      w.(main := if w.pass.res != PAM_SUCCESS then Returned(w.pass.res, PasswordError)
                 else Returned(PAM_IGNORE, PasswordFirst))
    case StopChild => w.(main := AfterStop(w.childTask, GetChild), childTask := Stopped(w.childTask))
    case GetChild => w.(main := AfterChild(c, w.child.status))
    case StopPassAfterChild(status) =>
      w.(main := AfterStop(w.passTask, GetPassAfterChild(status)), passTask := Stopped(w.passTask))
    case GetPassAfterChild(status) =>
      w.(main := if w.pass.res != PAM_SUCCESS then Returned(HowdyStatus(status), FaceThenPasswordError)
                 else Returned(PAM_IGNORE, FaceThenPassword))
    case CancelPass(status) =>
      if StopOutcomeOf(w.passTask, true).Undefined? then w.(main := MainPc.Undefined)
      else w.(main := JoinCancelled(status), cancelRequested := true)
    case JoinCancelled(status) =>
      w.(main := AfterStop(w.passTask, Returned(HowdyStatus(status), FaceVerdict)), passTask := Stopped(w.passTask))
    case Press(status) => w.(main := Retry(status, 0), presses := w.presses + 1)
    case Retry(status, retries) =>
      if retries < MAX_RETRIES && !w.pass.PassReturned? then
        w.(main := Retry(status, retries + 1), presses := w.presses + 1)
      else w.(main := StopPassAfterInput(status))
    case StopPassAfterInput(status) =>
      w.(main := AfterStop(w.passTask, Returned(HowdyStatus(status), FaceVerdict)), passTask := Stopped(w.passTask))
  }

  /** Writes the flag unless somebody has. */
  function Confirm(w: World, winner: Confirmation): World {
    if w.flag == Unset then w.(flag := winner, writes := w.writes + 1) else w
  }

  /** notify_one: only a thread that is blocked can take it. */
  function Notify(w: World): World {
    if w.main.Blocked? then w.(notified := true) else w
  }

  function Do(c: Config, w: World, s: Step): World
    requires Enabled(w, s)
  {
    match s
    case Main => MainStep(c, w)
    case Wake => w.(main := Lock, notified := false)
    case SpuriousWake => w.(main := Lock, notified := false)
    case GiveUp => w.(main := StopPassAfterInput(w.main.status))
    case Child(status) =>
      (match w.child
       case ChildRuns => w.(child := ChildReaped(status))
       case ChildReaped(st) => Confirm(w, Howdy).(child := ChildNotifies(st))
       case ChildNotifies(st) => Notify(w).(child := ChildReturned(st)))
    case Pass(res) =>
      (match w.pass
       case PassAsks => w.(pass := PassGot(res))
       case PassGot(r) => Confirm(w, Pam).(pass := PassNotifies(r))
       case PassNotifies(r) => Notify(w).(pass := PassReturned(r)))
    case PassDies => w.(pass := PassCancelled)
  }

  function After(c: Config, steps: seq<Step>): Option<World> {
    if steps == [] then Some(Initial)
    else
      match After(c, steps[..|steps| - 1])
      case None => None
      case Some(w) =>
        var s := steps[|steps| - 1];
        if Enabled(w, s) then Some(Do(c, w, s)) else None
  }

  // ---------- what every step keeps ----------

  const Running := Task(true, true, true, 0)
  const Joined := Task(false, true, false, 1)

  predicate BeforeChildStop(p: MainPc) {
    p.ActivatePass? || p.Lock? || p.Check? || p.Blocked? || p.Decide? || p.KillChild? || p.StopChildAfterPass?
    || p.StopChild?
  }

  predicate AfterPassStop(p: MainPc) {
    p.GetPass? || p.GetPassAfterChild? || p.Returned?
  }

  predicate PassStarted(c: Config, p: MainPc) {
    AskPass(c) && !p.ActivateChild? && !p.ActivatePass?
  }

  /** The task objects follow the main thread. */
  ghost predicate TasksFit(c: Config, w: World) {
    && w.childTask == (if w.main.ActivateChild? then Created else if BeforeChildStop(w.main) then Running else Joined)
    && w.passTask == (if !PassStarted(c, w.main) then Created else if AfterPassStop(w.main) then Joined else Running)
    && (w.child.ChildIdle? <==> w.main.ActivateChild?)
    && (w.pass.PassIdle? <==> !PassStarted(c, w.main))
    && (w.main.ActivatePass? ==> AskPass(c))
    && (!w.main.ActivateChild? && !BeforeChildStop(w.main) ==> ChildDone(w))
    && (PassStarted(c, w.main) && AfterPassStop(w.main) ==> PassDone(w))
  }

  predicate Confirmed(w: World) {
    w.child.ChildNotifies? || w.child.ChildReturned? || w.pass.PassNotifies? || w.pass.PassReturned?
  }

  /** The flag is written once, by a task that has ended, and a blocked main thread will hear of it. */
  ghost predicate FlagFits(c: Config, w: World) {
    && w.writes == (if w.flag == Unset then 0 else 1)
    && (w.flag != Unset <==> Confirmed(w))
    && (w.flag == Howdy ==> w.child.ChildNotifies? || w.child.ChildReturned?)
    && (w.flag == Pam ==> (w.pass.PassNotifies? || w.pass.PassReturned?))
    && (w.main.Blocked? ==> w.flag == Unset || w.notified || w.child.ChildNotifies? || w.pass.PassNotifies?)
  }

  /** What the main thread knows at each point. */
  ghost predicate MainFits(c: Config, w: World) {
    && (w.cancelRequested ==>
          && c.workaround == Native && (w.main.JoinCancelled? || w.main.Returned?)
          && w.flag == Howdy && w.child.ChildReturned? && !AwaitsPassword(c, w.child.status))
    && (w.pass.PassCancelled? ==> w.cancelRequested)
    && w.presses <= MAX_RETRIES + 1
    && (w.presses > 0 ==>
          c.workaround == Input && w.flag == Howdy && w.child.ChildReturned? && !AwaitsPassword(c, w.child.status))
    && (w.presses > 0 ==> w.main.Retry? || w.main.StopPassAfterInput? || w.main.Returned? || w.main.Threw?)
    && (match w.main
        case Decide => w.flag != Unset
        case KillChild => w.flag == Pam
        case StopChildAfterPass => w.flag == Pam
        case StopPass => w.flag == Pam
        case GetPass => w.flag == Pam
        case StopChild => w.flag == Howdy
        case GetChild => w.flag == Howdy
        case StopPassAfterChild(status) =>
          w.flag == Howdy && w.child == ChildReturned(status) && AwaitsPassword(c, status)
        case GetPassAfterChild(status) =>
          w.flag == Howdy && w.child == ChildReturned(status) && AwaitsPassword(c, status)
        case CancelPass(status) => FaceDecides(c, w, status) && c.workaround == Native
        case JoinCancelled(status) =>
          FaceDecides(c, w, status) && c.workaround == Native && c.askAuthTok && w.cancelRequested
        case Press(status) => FaceDecides(c, w, status) && c.workaround == Input
        case Retry(status, retries) =>
          FaceDecides(c, w, status) && c.workaround == Input && w.presses == retries + 1 && retries <= MAX_RETRIES
        case StopPassAfterInput(status) => FaceDecides(c, w, status) && c.workaround == Input
        case Returned(result, site) => OutcomeFits(c, w, result, site)
        case Threw => w.flag == Howdy && !c.askAuthTok && c.workaround == Input
        case Undefined => w.flag == Howdy && !c.askAuthTok && c.workaround == Native
        case _ => true)
  }

  /** The face was first, and its result does not wait for a password. */
  ghost predicate FaceDecides(c: Config, w: World, status: int) {
    w.flag == Howdy && w.child == ChildReturned(status) && !AwaitsPassword(c, status)
  }

  ghost predicate OutcomeFits(c: Config, w: World, result: int, site: Site) {
    && ChildDone(w)
    && (c.askAuthTok || c.workaround == Off)
    && match site
       case PasswordError => w.flag == Pam && w.pass.PassReturned? && w.pass.res != PAM_SUCCESS && result == w.pass.res
       case PasswordFirst => w.flag == Pam && w.pass == PassReturned(PAM_SUCCESS) && result == PAM_IGNORE
       case FaceThenPasswordError =>
         && w.flag == Howdy && AwaitsPassword(c, w.child.status)
         && w.pass.PassReturned? && w.pass.res != PAM_SUCCESS && result == HowdyStatus(w.child.status)
       case FaceThenPassword =>
         && w.flag == Howdy && AwaitsPassword(c, w.child.status)
         && w.pass == PassReturned(PAM_SUCCESS) && result == PAM_IGNORE
       case FaceVerdict =>
         && FaceDecides(c, w, w.child.status) && result == HowdyStatus(w.child.status)
         && (c.workaround == Native ==> w.cancelRequested)
  }

  ghost predicate Inv(c: Config, w: World) {
    TasksFit(c, w) && FlagFits(c, w) && MainFits(c, w)
  }

  lemma EarlyMainKeeps(c: Config, w: World)
    requires Inv(c, w) && MainEnabled(w) && (w.main.ActivateChild? || BeforeChildStop(w.main))
    ensures Inv(c, MainStep(c, w))
  {
    hide Exited, ExitStatus, AwaitsPassword, HowdyStatus;
  }

  predicate EndsPrompt(p: MainPc) {
    p.CancelPass? || p.JoinCancelled? || p.Press? || p.Retry? || p.StopPassAfterInput?
  }

  lemma PromptMainKeeps(c: Config, w: World)
    requires Inv(c, w) && MainEnabled(w) && EndsPrompt(w.main)
    ensures Inv(c, MainStep(c, w))
  {
    hide Exited, ExitStatus, HowdyStatus;
  }

  lemma LateMainKeeps(c: Config, w: World)
    requires Inv(c, w) && MainEnabled(w) && !w.main.ActivateChild? && !BeforeChildStop(w.main) && !EndsPrompt(w.main)
    ensures Inv(c, MainStep(c, w))
  {
    hide Exited, ExitStatus, HowdyStatus;
  }

  lemma ChildKeeps(c: Config, w: World, status: int)
    requires Inv(c, w) && Enabled(w, Child(status))
    ensures Inv(c, Do(c, w, Child(status)))
  {
    hide AwaitsPassword, HowdyStatus;
  }

  lemma PassKeeps(c: Config, w: World, res: int)
    requires Inv(c, w) && Enabled(w, Pass(res))
    ensures Inv(c, Do(c, w, Pass(res)))
  {
    hide AwaitsPassword, HowdyStatus;
  }

  lemma OthersKeep(c: Config, w: World, s: Step)
    requires Inv(c, w) && Enabled(w, s) && !s.Main? && !s.Child? && !s.Pass?
    ensures Inv(c, Do(c, w, s))
  {
    hide AwaitsPassword, HowdyStatus;
  }

  lemma {:induction false} Invariant(c: Config, steps: seq<Step>)
    requires After(c, steps).Some?
    ensures Inv(c, After(c, steps).value)
    decreases |steps|
  {
    hide Inv, Enabled, MainEnabled, MainStep;
    if steps == [] {
      InitialHolds(c);
    } else {
      Invariant(c, steps[..|steps| - 1]);
      var w, s := After(c, steps[..|steps| - 1]).value, steps[|steps| - 1];
      StepKeeps(c, w, s);
    }
  }

  lemma InitialHolds(c: Config)
    ensures Inv(c, Initial)
  {
  }

  lemma StepKeeps(c: Config, w: World, s: Step)
    requires Inv(c, w) && Enabled(w, s)
    ensures Inv(c, Do(c, w, s))
  {
    hide Inv, MainEnabled, MainStep;
    match s {
      case Main =>
        if w.main.ActivateChild? || BeforeChildStop(w.main) { EarlyMainKeeps(c, w); }
        else if EndsPrompt(w.main) { PromptMainKeeps(c, w); } else { LateMainKeeps(c, w); }
      case Child(status) => ChildKeeps(c, w, status);
      case Pass(res) => PassKeeps(c, w, res);
      case _ => OthersKeep(c, w, s);
    }
  }

  // ---------- the guarantees ----------

  /** The result of identify as a function of who confirmed first and of what the two tasks found. */
  function Result(c: Config, first: Confirmation, status: int, res: int): int {
    if first == Pam then (if res == PAM_SUCCESS then PAM_IGNORE else res)
    else if AwaitsPassword(c, status) && res == PAM_SUCCESS then PAM_IGNORE
    else HowdyStatus(status)
  }

  /**
   In every schedule that returns, the flag was written exactly once. If the password was first, its result counts. If
   the face was first: the raw status 0 is a success; an exit with an error code lets a prompt run to its end, without
   a press or a cancel, and then a good password is handed on; every other status, a signal among them, is an error.
   A native prompt is cancelled otherwise.
   */
  lemma ReturnedResult(c: Config, steps: seq<Step>, w: World)
    requires After(c, steps) == Some(w) && w.main.Returned?
    ensures w.writes == 1 && w.flag != Unset && w.child.ChildReturned?
    ensures w.main.result == PAM_SUCCESS <==> w.flag == Howdy && w.child.status == 0
    ensures w.main.result
            == Result(c, w.flag, w.child.status, if w.pass.PassReturned? then w.pass.res else PAM_AUTH_ERR)
    ensures w.flag == Pam ==> w.pass.PassReturned? && w.main.result == if w.pass.res == 0 then 25 else w.pass.res
    ensures w.flag == Howdy && w.child.status == 0 ==> w.main.result == 0
    ensures w.flag == Howdy && w.child.status != 0 ==>
              var status := w.child.status;
              if status % 128 == 0 && status / 256 % 256 != 0 && c.askAuthTok && c.workaround != Off then
                && w.presses == 0 && !w.cancelRequested && w.pass.PassReturned?
                && w.main.result == if w.pass.res == 0 then 25 else 7
              else w.main.result == 7 && (w.cancelRequested <==> c.workaround == Native)
    ensures w.flag == Howdy && w.child.status == 0 ==> (w.cancelRequested <==> c.workaround == Native)
  {
    hide After;
    Invariant(c, steps);
  }

  /** A compare process that exits with an error code first, a timeout say, leaves the decision to the password. */
  lemma ErrorExitWaits(c: Config, steps: seq<Step>, w: World, code: int)
    requires After(c, steps) == Some(w) && w.main.Returned? && w.flag == Howdy
    requires c.askAuthTok && c.workaround != Off && w.child == ChildReturned(256 * code) && 1 <= code <= 255
    ensures w.presses == 0 && !w.cancelRequested && w.pass.PassReturned?
    ensures w.main.result == if w.pass.res == 0 then 25 else 7
  {
    hide After;
    ReturnedResult(c, steps, w);
  }

  /** One that a signal ended first is an error, whatever was typed. */
  lemma SignalFails(c: Config, steps: seq<Step>, w: World)
    requires After(c, steps) == Some(w) && w.main.Returned? && w.flag == Howdy
    requires w.child.ChildReturned? && 1 <= w.child.status % 128 <= 126
    ensures w.main.result == 7
  {
    hide After;
    ReturnedResult(c, steps, w);
  }

  /** The two returns that hand a typed password on happen only after pam_get_authtok succeeded. */
  lemma IgnoreMeansPassword(c: Config, steps: seq<Step>, w: World)
    requires After(c, steps) == Some(w) && w.main.Returned?
    ensures w.main.site == PasswordFirst || w.main.site == FaceThenPassword ==>
              w.pass == PassReturned(PAM_SUCCESS) && w.main.result == PAM_IGNORE
    ensures w.main.result == PAM_IGNORE ==>
              w.main.site == PasswordFirst || w.main.site == FaceThenPassword
              || (w.main.site == PasswordError && w.pass == PassReturned(PAM_IGNORE))
  {
    hide After;
    Invariant(c, steps);
  }

  /** Every get meets its assertion and finds a result, in every schedule. */
  lemma GetsAllowed(c: Config, steps: seq<Step>, w: World)
    requires After(c, steps) == Some(w)
    ensures w.main.GetChild? ==> GetAllowed(w.childTask) && w.child.ChildReturned?
    ensures w.main.GetPass? || w.main.GetPassAfterChild? ==> GetAllowed(w.passTask) && w.pass.PassReturned?
  {
    hide After;
    Invariant(c, steps);
  }

  /** Before a return every activated task has been joined exactly once, so the destructors do nothing. */
  lemma JoinedOnce(c: Config, steps: seq<Step>, w: World)
    requires After(c, steps) == Some(w) && w.main.Returned?
    ensures w.childTask.joins == 1 && Destroyed(w.childTask) == w.childTask
    ensures w.passTask.joins == (if c.askAuthTok && c.workaround != Off then 1 else 0)
    ensures Destroyed(w.passTask) == w.passTask
    ensures !w.childTask.joinable && !w.passTask.joinable
  {
    hide After;
    Invariant(c, steps);
  }

  /** The fake Enter key is pressed at most six times, and after the first time only while the prompt is open. */
  lemma PressesBounded(c: Config, steps: seq<Step>, w: World)
    requires After(c, steps) == Some(w)
    ensures w.presses <= 6
    ensures Enabled(w, Main) && Do(c, w, Main).presses > w.presses ==>
              Do(c, w, Main).presses == w.presses + 1 && (w.presses == 0 || !w.pass.PassReturned?)
    ensures w.presses > 0 ==>
              && c.workaround == Input && w.flag == Howdy && w.child.ChildReturned?
              && !(c.askAuthTok && w.child.status % 128 == 0 && w.child.status / 256 % 256 != 0)
  {
    hide After;
    Invariant(c, steps);
  }

  /**
   identify returns exactly when a password is asked for or no workaround is configured. Otherwise it ends on a task
   that was never activated: with an exception from joining it for the input workaround, with undefined behaviour from
   cancelling it for the native one.
   */
  lemma ThrowsExactlyWhen(c: Config, steps: seq<Step>, w: World)
    requires After(c, steps) == Some(w) && Ended(w.main)
    ensures w.main.Returned? <==> c.askAuthTok || c.workaround == Off
    ensures w.main.Threw? <==> !c.askAuthTok && c.workaround == Input
    ensures w.main.Undefined? <==> !c.askAuthTok && c.workaround == Native
  {
    hide After;
    Invariant(c, steps);
  }

  lemma AfterSnoc(c: Config, steps: seq<Step>, w: World, s: Step)
    requires After(c, steps) == Some(w) && Enabled(w, s)
    ensures After(c, steps + [s]) == Some(Do(c, w, s))
  {
    assert (steps + [s])[..|steps|] == steps;
  }

  /** One more step. */
  lemma Takes(c: Config, steps: seq<Step>, w: World, s: Step) returns (steps': seq<Step>, w': World)
    requires After(c, steps) == Some(w) && Enabled(w, s)
    ensures After(c, steps') == Some(w') && w' == Do(c, w, s)
  {
    hide Do, Enabled;
    AfterSnoc(c, steps, w, s);
    steps', w' := steps + [s], Do(c, w, s);
  }

  /** Without a password task: the child succeeds and reports first. */
  lemma ChildReports(c: Config) returns (steps: seq<Step>, w: World)
    requires !AskPass(c)
    ensures After(c, steps) == Some(w)
    ensures w == Initial.(main := Lock, child := ChildReturned(0), childTask := Running, flag := Howdy, writes := 1)
  {
    assert After(c, []) == Some(Initial);
    hide After;
    steps, w := Takes(c, [], Initial, Main);
    steps, w := Takes(c, steps, w, Child(0));
    steps, w := Takes(c, steps, w, Child(0));
    steps, w := Takes(c, steps, w, Child(0));
  }

  /** Then the main thread gets its status. */
  lemma FaceAlone(c: Config) returns (steps: seq<Step>, w: World)
    requires !AskPass(c)
    ensures After(c, steps) == Some(w) && w.main == AfterChild(c, 0)
    ensures w.child == ChildReturned(0) && w.passTask == Created
  {
    hide AfterChild, After, AskPass;
    steps, w := ChildReports(c);
    steps, w := Takes(c, steps, w, Main);
    steps, w := Takes(c, steps, w, Main);
    steps, w := Takes(c, steps, w, Main);
    steps, w := Takes(c, steps, w, Main);
    steps, w := Takes(c, steps, w, Main);
  }

  /** A session opened with the default workaround: the child succeeds, and identify throws. */
  lemma SessionThrows() returns (steps: seq<Step>, w: World)
    ensures After(Config(false, Input), steps) == Some(w) && w.main.Threw? && w.child == ChildReturned(0)
  {
    hide After;
    var c := Config(false, Input);
    steps, w := FaceAlone(c);
    steps, w := Takes(c, steps, w, Main);
    steps, w := Takes(c, steps, w, GiveUp);
    steps, w := Takes(c, steps, w, Main);
  }

  /** A session opened with the native workaround: the child succeeds, and identify cancels a thread that never was. */
  lemma SessionUndefined() returns (steps: seq<Step>, w: World)
    ensures After(Config(false, Native), steps) == Some(w) && w.main.Undefined? && w.child == ChildReturned(0)
  {
    hide After;
    var c := Config(false, Native);
    steps, w := FaceAlone(c);
    steps, w := Takes(c, steps, w, Main);
  }

  /**
   No schedule gets stuck: until identify ends, some step other than a spurious wake-up is possible. And no
   notification is lost: once the flag is set, a main thread that still waits can be woken, or the task that is about
   to notify it is still to do so.
   */
  lemma NeverStuck(c: Config, steps: seq<Step>, w: World)
    requires After(c, steps) == Some(w) && !Ended(w.main)
    ensures exists s :: Enabled(w, s) && s != SpuriousWake
    ensures w.main.Blocked? && w.flag != Unset ==>
              Enabled(w, Wake) || w.child.ChildNotifies? || w.pass.PassNotifies?
  {
    hide After;
    Invariant(c, steps);
    var s := NextStep(c, w);
  }

  lemma NextStep(c: Config, w: World) returns (s: Step)
    requires Inv(c, w) && !Ended(w.main)
    ensures Enabled(w, s) && s != SpuriousWake
  {
    if MainEnabled(w) { return Main; }
    if w.main.Blocked? && w.notified { return Wake; }
    if Enabled(w, Child(0)) { return Child(0); }
    return Pass(0);
  }
}
