/**
  * The launcher-keeper's protocol as a step system: who holds the write ends of the log pipes, and when the files
  * `pid`, `exit.json` and `start-error` appear.
  */
module Launcher {
  import opened Seqs

  /**
    * A log pipe: which processes hold its write end, how many bytes are written but not yet read, and whether the
    * logger has seen its end of file.
    */
  datatype Pipe = Pipe(byLauncher: bool, byLogger: bool, byContainer: bool, unread: nat, done: bool) {
    predicate Closed() { !byLauncher && !byLogger && !byContainer }
    predicate AtEof() { Closed() && unread == 0 }
  }

  datatype LauncherPc =
    | Started      // nothing done yet
    | Wired        // fds 1 and 2 are the pipes' write ends
    | Prepared     // the logger is forked if there is a log path; the bundle is still to be loaded
    | Loaded       // the bundle is loaded and valid
    | Launched     // the container process exists
    | Reported     // the pid callback has run
    | Returned     // the launch call has returned an exit code
    | ReleasedOut  // fd 1 is redirected to /dev/null
    | Released     // fd 2 too, or there was nothing to redirect
    | Recorded     // exit.json is written
    | Failing      // an error is on its way out of `run`
    | Gone         // the process has exited

  datatype LoggerPc =
    | Absent        // not forked
    | Forked        // holds inherited copies of both write ends
    | RedirectedOut // fd 1 is redirected to /dev/null
    | Redirected    // fd 2 too, or /dev/null could not be opened
    | Draining      // the log file is open; both streams are read until end of file
    | LoggerExited  // the log file could not be opened
    | Finished      // both streams reached end of file

  /**
    * Whether a log path was given, whether /dev/null can be opened in the launcher and in the logger, and how many
    * bytes a pipe can hold.
    */
  datatype Config = Config(logging: bool, launcherNull: bool, loggerNull: bool, capacity: nat)

  /** Whether the pid callback has run, and which protocol files exist. */
  datatype Files = Files(pidCallback: bool, pid: bool, exit: bool, startError: bool)

  /**
    * `launched` remembers whether a container process has ever existed, and `failedAt` where the launcher was when an
    * error started on its way out of `run`.
    */
  datatype State = State(
    config: Config, launcher: LauncherPc, logger: LoggerPc, initAlive: bool, out: Pipe, err: Pipe, files: Files,
    launched: bool, failedAt: Option<LauncherPc>)

  function Init(config: Config): State {
    var unused := Pipe(false, false, false, 0, false);
    State(config, Started, Absent, false, unused, unused, Files(false, false, false, false), false, None)
  }

  datatype Step =
    | LauncherStep(launcherStep: LauncherStep)
    | LoggerStep(loggerStep: LoggerStep)
    | ContainerStep(containerStep: ContainerStep)

  // ----- the launcher -----

  datatype LauncherStep =
    | WirePipes | ForkLogger | SkipLogging | LoadBundle | Launch
    | PidCallback(written: bool) | LaunchReturns
    | RedirectOut | RedirectErr | SkipRedirect
    | RecordExit | Fail | ReportFailure(written: bool) | Exit

  /** Positions with a call that can fail; letting go of the pipes tolerates every error. */
  predicate CanFail(pc: LauncherPc) {
    pc.Started? || pc.Wired? || pc.Prepared? || pc.Loaded? || pc.Launched? || pc.Reported? || pc.Released?
  }

  predicate LauncherEnabled(s: State, step: LauncherStep) {
    match step
    case WirePipes => s.launcher.Started? && s.config.logging
    case ForkLogger => s.launcher.Wired?
    case SkipLogging => s.launcher.Started? && !s.config.logging
    case LoadBundle => s.launcher.Prepared?
    case Launch => s.launcher.Loaded?
    case PidCallback(_) => s.launcher.Launched?
    case LaunchReturns => s.launcher.Reported? && !s.initAlive
    case RedirectOut => s.launcher.Returned? && s.config.logging && s.config.launcherNull
    case RedirectErr => s.launcher.ReleasedOut?
    case SkipRedirect => s.launcher.Returned? && !(s.config.logging && s.config.launcherNull)
    case RecordExit => s.launcher.Released?
    case Fail => CanFail(s.launcher)
    case ReportFailure(_) => s.launcher.Failing?
    case Exit => s.launcher.Recorded?
  }

  function LauncherApply(s: State, step: LauncherStep): State
    requires LauncherEnabled(s, step)
  {
    match step
    case WirePipes => s.(launcher := Wired, out := s.out.(byLauncher := true), err := s.err.(byLauncher := true))
    case ForkLogger =>
      s.(launcher := Prepared, logger := Forked, out := s.out.(byLogger := true), err := s.err.(byLogger := true))
    case SkipLogging => s.(launcher := Prepared)
    case LoadBundle => s.(launcher := Loaded)
    case Launch =>
      s.(launcher := Launched, launched := true, initAlive := true,
         out := s.out.(byContainer := s.config.logging), err := s.err.(byContainer := s.config.logging))
    case PidCallback(written) => s.(launcher := Reported, files := s.files.(pidCallback := true, pid := written))
    case LaunchReturns => s.(launcher := Returned)
    case RedirectOut => s.(launcher := ReleasedOut, out := s.out.(byLauncher := false))
    case RedirectErr => s.(launcher := Released, err := s.err.(byLauncher := false))
    case SkipRedirect => s.(launcher := Released)
    case RecordExit => s.(launcher := Recorded, files := s.files.(exit := true))
    case Fail => s.(launcher := Failing, failedAt := Some(s.launcher))
    case ReportFailure(written) =>
      s.(launcher := Gone, files := s.files.(startError := written),
         out := s.out.(byLauncher := false), err := s.err.(byLauncher := false))
    case Exit => s.(launcher := Gone, out := s.out.(byLauncher := false), err := s.err.(byLauncher := false))
  }

  // ----- the logger -----

  datatype LoggerStep =
    | LoggerRedirectOut | LoggerRedirectErr | LoggerSkipsRedirect | OpenLog(ok: bool)
    | ReadOut | ReadErr | EofOut | EofErr | Finish

  predicate LoggerEnabled(s: State, step: LoggerStep) {
    match step
    case LoggerRedirectOut => s.logger.Forked? && s.config.loggerNull
    case LoggerRedirectErr => s.logger.RedirectedOut?
    case LoggerSkipsRedirect => s.logger.Forked? && !s.config.loggerNull
    case OpenLog(_) => s.logger.Redirected?
    case ReadOut => s.logger.Draining? && !s.out.done && 0 < s.out.unread
    case ReadErr => s.logger.Draining? && !s.err.done && 0 < s.err.unread
    case EofOut => s.logger.Draining? && !s.out.done && s.out.AtEof()
    case EofErr => s.logger.Draining? && !s.err.done && s.err.AtEof()
    case Finish => s.logger.Draining? && s.out.done && s.err.done
  }

  function LoggerApply(s: State, step: LoggerStep): State
    requires LoggerEnabled(s, step)
  {
    match step
    case LoggerRedirectOut => s.(logger := RedirectedOut, out := s.out.(byLogger := false))
    case LoggerRedirectErr => s.(logger := Redirected, err := s.err.(byLogger := false))
    case LoggerSkipsRedirect => s.(logger := Redirected)
    case OpenLog(ok) =>
      if ok then s.(logger := Draining)
      else s.(logger := LoggerExited, out := s.out.(byLogger := false), err := s.err.(byLogger := false))
    case ReadOut => s.(out := s.out.(unread := s.out.unread - 1))
    case ReadErr => s.(err := s.err.(unread := s.err.unread - 1))
    case EofOut => s.(out := s.out.(done := true))
    case EofErr => s.(err := s.err.(done := true))
    case Finish => s.(logger := Finished)
  }

  // ----- the container's processes -----

  datatype ContainerStep = WriteOut(n: nat) | WriteErr(n: nat) | InitExits | LastClose

  predicate ContainerEnabled(s: State, step: ContainerStep) {
    match step
    case WriteOut(n) => s.out.byContainer && s.out.unread + n <= s.config.capacity
    case WriteErr(n) => s.err.byContainer && s.err.unread + n <= s.config.capacity
    case InitExits => s.initAlive
    case LastClose => !s.initAlive
  }

  function ContainerApply(s: State, step: ContainerStep): State
    requires ContainerEnabled(s, step)
  {
    match step
    case WriteOut(n) => s.(out := s.out.(unread := s.out.unread + n))
    case WriteErr(n) => s.(err := s.err.(unread := s.err.unread + n))
    case InitExits => s.(initAlive := false)
    case LastClose => s.(out := s.out.(byContainer := false), err := s.err.(byContainer := false))
  }

  // ----- runs -----

  predicate Enabled(s: State, step: Step) {
    match step
    case LauncherStep(x) => LauncherEnabled(s, x)
    case LoggerStep(x) => LoggerEnabled(s, x)
    case ContainerStep(x) => ContainerEnabled(s, x)
  }

  function Apply(s: State, step: Step): State
    requires Enabled(s, step)
  {
    match step
    case LauncherStep(x) => LauncherApply(s, x)
    case LoggerStep(x) => LoggerApply(s, x)
    case ContainerStep(x) => ContainerApply(s, x)
  }

  ghost predicate Runs(s: State, steps: seq<Step>, t: State)
    decreases |steps|
  {
    if steps == [] then s == t
    else Enabled(s, steps[0]) && Runs(Apply(s, steps[0]), steps[1..], t)
  }

  ghost predicate Reachable(t: State) {
    exists config, steps :: Runs(Init(config), steps, t)
  }

  // ----- the invariant -----

  /** No container process can exist yet. */
  predicate BeforeLaunch(pc: LauncherPc) {
    pc.Started? || pc.Wired? || pc.Prepared? || pc.Loaded?
  }

  predicate BeforeFork(pc: LauncherPc) {
    pc.Started? || pc.Wired?
  }

  /** The pid callback has run: the launch call promises that before it returns. */
  predicate AfterPid(pc: LauncherPc) {
    pc.Reported? || pc.Returned? || pc.ReleasedOut? || pc.Released? || pc.Recorded?
  }

  /** Exactly when the launcher holds the write end behind fd 1 (`first`) or fd 2; open while it is failing. */
  predicate LauncherInv(c: Config, pc: LauncherPc, first: bool, holds: bool) {
    match pc
    case Started => !holds
    case Gone => !holds
    case ReleasedOut => c.logging && c.launcherNull && holds == !first
    case Released => holds == (c.logging && !c.launcherNull)
    case Recorded => holds == (c.logging && !c.launcherNull)
    case Failing => true
    case _ => holds == c.logging
  }

  /** Exactly when the logger still holds an inherited copy of a write end. */
  predicate LoggerInv(c: Config, pc: LoggerPc, first: bool, holds: bool) {
    match pc
    case Absent => !holds
    case Forked => holds
    case RedirectedOut => c.loggerNull && holds == !first
    case LoggerExited => !holds
    case _ => holds == !c.loggerNull
  }

  predicate PipeInv(s: State, first: bool, p: Pipe) {
    && LauncherInv(s.config, s.launcher, first, p.byLauncher)
    && LoggerInv(s.config, s.logger, first, p.byLogger)
    && (p.byContainer ==> s.config.logging && !BeforeLaunch(s.launcher))
    && (s.initAlive && s.config.logging ==> p.byContainer)
    && (p.done ==> p.AtEof() && !BeforeFork(s.launcher) && s.config.logging)
    && (!s.config.logging ==> p.unread == 0)
    && p.unread <= s.config.capacity
  }

  /** Which files exist at each position; after a failure, by the position it happened at. */
  predicate FilesInv(pc: LauncherPc, failedAt: Option<LauncherPc>, f: Files) {
    && (f.pid ==> f.pidCallback)
    && (f.exit <==> pc.Recorded? || (pc.Gone? && failedAt.None?))
    && (f.startError ==> pc.Gone? && failedAt.Some?)
    && (pc.Failing? ==> failedAt.Some?)
    && (failedAt.Some? ==> (pc.Failing? || pc.Gone?) && CanFail(failedAt.value))
    && (f.pidCallback <==> if failedAt.Some? then AfterPid(failedAt.value) else AfterPid(pc) || pc.Gone?)
  }

  /** The launch call returns only after the container's init has exited, so nothing is recorded before. */
  predicate ReturnedInv(s: State) {
    s.launcher.Returned? || s.launcher.ReleasedOut? || s.launcher.Released? || s.launcher.Recorded? || s.files.exit ==>
      !s.initAlive
  }

  /** A container process has existed exactly past the launch, or where the launcher failed past it. */
  predicate LaunchInv(s: State) {
    && (s.launched <==> !BeforeLaunch(if s.failedAt.Some? then s.failedAt.value else s.launcher))
    && (s.initAlive || s.out.byContainer || s.err.byContainer ==> s.launched)
  }

  predicate LoggerExists(c: Config, launcher: LauncherPc, logger: LoggerPc) {
    && (BeforeFork(launcher) ==> logger.Absent?)
    && (launcher.Wired? ==> c.logging)
    && (!c.logging ==> logger.Absent?)
  }

  predicate Inv(s: State) {
    && PipeInv(s, true, s.out) && PipeInv(s, false, s.err)
    && LoggerExists(s.config, s.launcher, s.logger)
    && (s.logger.Finished? ==> s.out.done && s.err.done)
    && FilesInv(s.launcher, s.failedAt, s.files)
    && LaunchInv(s) && ReturnedInv(s)
  }

  lemma {:induction false} LauncherKeepsFiles(s: State, step: LauncherStep)
    requires FilesInv(s.launcher, s.failedAt, s.files) && LauncherEnabled(s, step)
    ensures
      var t := LauncherApply(s, step);
      FilesInv(t.launcher, t.failedAt, t.files)
  {
  }

  lemma {:induction false} LauncherKeepsOut(s: State, step: LauncherStep)
    requires Inv(s) && LauncherEnabled(s, step)
    ensures PipeInv(LauncherApply(s, step), true, LauncherApply(s, step).out)
  {
  }

  lemma {:induction false} LauncherKeepsErr(s: State, step: LauncherStep)
    requires Inv(s) && LauncherEnabled(s, step)
    ensures PipeInv(LauncherApply(s, step), false, LauncherApply(s, step).err)
  {
  }

  lemma {:induction false} LauncherKeeps(s: State, step: LauncherStep)
    requires Inv(s) && LauncherEnabled(s, step)
    ensures Inv(LauncherApply(s, step))
  {
    LauncherKeepsFiles(s, step);
    LauncherKeepsOut(s, step);
    LauncherKeepsErr(s, step);
    LauncherKeepsLaunch(s, step);
  }

  lemma {:induction false} LauncherKeepsLaunch(s: State, step: LauncherStep)
    requires LaunchInv(s) && FilesInv(s.launcher, s.failedAt, s.files) && LauncherEnabled(s, step)
    ensures LaunchInv(LauncherApply(s, step))
    ensures ReturnedInv(s) ==> ReturnedInv(LauncherApply(s, step))
  {
  }

  lemma {:induction false} LoggerKeepsPipes(s: State, step: LoggerStep)
    requires Inv(s) && LoggerEnabled(s, step)
    ensures
      var t := LoggerApply(s, step);
      PipeInv(t, true, t.out) && PipeInv(t, false, t.err)
  {
    match step
    case LoggerRedirectOut =>
    case LoggerRedirectErr =>
    case LoggerSkipsRedirect =>
    case OpenLog(_) =>
    case _ =>
      assert s.logger.Draining?;
  }

  lemma {:induction false} LoggerKeeps(s: State, step: LoggerStep)
    requires Inv(s) && LoggerEnabled(s, step)
    ensures Inv(LoggerApply(s, step))
  {
    LoggerKeepsPipes(s, step);
    LoggerKeepsRest(s, step);
  }

  lemma {:induction false} LoggerKeepsRest(s: State, step: LoggerStep)
    requires Inv(s) && LoggerEnabled(s, step)
    ensures
      var t := LoggerApply(s, step);
      && LoggerExists(t.config, t.launcher, t.logger) && (t.logger.Finished? ==> t.out.done && t.err.done)
      && FilesInv(t.launcher, t.failedAt, t.files) && LaunchInv(t) && ReturnedInv(t)
  {
    LoggerKeepsLaunch(s, step);
  }

  lemma {:induction false} LoggerKeepsLaunch(s: State, step: LoggerStep)
    requires LaunchInv(s) && LoggerEnabled(s, step)
    ensures LaunchInv(LoggerApply(s, step))
  {
  }

  lemma {:induction false} ContainerKeeps(s: State, step: ContainerStep)
    requires Inv(s) && ContainerEnabled(s, step)
    ensures Inv(ContainerApply(s, step))
  {
  }

  lemma {:induction false} StepKeeps(s: State, step: Step)
    requires Inv(s) && Enabled(s, step)
    ensures Inv(Apply(s, step))
  {
    match step
    case LauncherStep(x) => LauncherKeeps(s, x);
    case LoggerStep(x) => LoggerKeeps(s, x);
    case ContainerStep(x) => ContainerKeeps(s, x);
  }

  lemma {:induction false} RunKeeps(s: State, steps: seq<Step>, t: State)
    requires Inv(s) && Runs(s, steps, t)
    ensures Inv(t)
    decreases |steps|
  {
    if steps == [] {
    } else {
      StepKeeps(s, steps[0]);
      RunKeeps(Apply(s, steps[0]), steps[1..], t);
    }
  }

  lemma {:induction false} ReachableInv(t: State)
    requires Reachable(t)
    ensures Inv(t)
  {
    var config, steps :| Runs(Init(config), steps, t);
    RunKeeps(Init(config), steps, t);
  }

  // ----- what holds in every reachable state -----

  /** The logger waits for an end of file that only it could bring about. */
  predicate WaitsForItself(s: State) {
    && s.logger.Draining?
    && ((!s.out.done && s.out.byLogger && !s.out.byLauncher && !s.out.byContainer)
        || (!s.err.done && s.err.byLogger && !s.err.byLauncher && !s.err.byContainer))
  }

  /** Given its redirection, the logger never waits for itself; without it, it never finishes. */
  lemma {:induction false} LoggerNeverWaitsForItself(t: State)
    requires Reachable(t)
    ensures t.config.loggerNull ==> !WaitsForItself(t)
    ensures !t.config.loggerNull ==> !t.logger.Finished?
  {
    ReachableInv(t);
  }

  /**
    * At most one outcome file exists, and `exit.json` implies that the pid callback has run and the container's init
    * has exited.
    */
  lemma {:induction false} OneOutcome(t: State)
    requires Reachable(t)
    ensures !(t.files.exit && t.files.startError)
    ensures t.files.exit ==> t.files.pidCallback && !t.initAlive
  {
    ReachableInv(t);
  }

  /** When the exit is recorded, the launcher holds no pipe exactly if it had none or its redirection worked. */
  lemma {:induction false} ExitAfterRelease(t: State)
    requires Reachable(t) && t.files.exit
    ensures t.config.launcherNull || !t.config.logging ==> !t.out.byLauncher && !t.err.byLauncher
    ensures t.launcher.Recorded? && !t.config.launcherNull && t.config.logging ==> t.out.byLauncher && t.err.byLauncher
  {
    ReachableInv(t);
  }

  /** A finished logger has read everything, and nothing can be written any more. */
  lemma {:induction false} FinishedLogIsComplete(t: State)
    requires Reachable(t) && t.logger.Finished?
    ensures t.out.AtEof() && t.err.AtEof()
    ensures !t.initAlive || !t.config.logging
  {
    ReachableInv(t);
  }

  lemma {:induction false} RunSnoc(s: State, steps: seq<Step>, t: State, step: Step)
    requires Runs(s, steps, t) && Enabled(t, step)
    ensures Runs(s, steps + [step], Apply(t, step))
    decreases |steps|
  {
    if steps == [] {
      assert Runs(Apply(t, step), [], Apply(t, step));
      assert [step][1..] == [];
    } else {
      RunSnoc(Apply(s, steps[0]), steps[1..], t, step);
      assert (steps + [step])[1..] == steps[1..] + [step];
    }
  }

  lemma {:induction false} ReachableStep(t: State, step: Step)
    requires Reachable(t) && Enabled(t, step)
    ensures Reachable(Apply(t, step))
  {
    var config, steps :| Runs(Init(config), steps, t);
    RunSnoc(Init(config), steps, t, step);
  }

  // ----- `start-error` and the pid -----

  /**
    * `start-error` means that no container process, and so no pid, ever existed exactly when the failure came before
    * the launch; it means that no pid was ever reported exactly when the failure came before the pid callback.
    */
  lemma {:induction false} StartErrorExactly(t: State)
    requires Reachable(t) && t.files.startError
    ensures t.failedAt.Some? && CanFail(t.failedAt.value)
    ensures t.failedAt.value in {Started, Wired, Prepared, Loaded, Launched, Reported, Released}
    ensures !t.launched <==> BeforeLaunch(t.failedAt.value)
    ensures !t.files.pidCallback <==> !AfterPid(t.failedAt.value)
    ensures t.files.pid ==> t.files.pidCallback && t.launched
  {
    ReachableInv(t);
  }

  /** At every position with a call that can fail it may do so, and leaves the very state said above. */
  lemma {:induction false} FailureReported(s: State) returns (t: State)
    requires Reachable(s) && LauncherEnabled(s, Fail)
    ensures Reachable(t) && t.config == s.config && t.files.startError && t.failedAt == Some(s.launcher)
    ensures t.launched <==> !BeforeLaunch(s.launcher)
    ensures t.files.pidCallback <==> AfterPid(s.launcher)
    ensures t.files.pid == s.files.pid && !t.files.exit && t.initAlive == s.initAlive
  {
    ReachableInv(s);
    ReachableStep(s, LauncherStep(Fail));
    t := LauncherApply(s, Fail);
    ReachableStep(t, LauncherStep(ReportFailure(true)));
    t := LauncherApply(t, ReportFailure(true));
  }

  // ----- the log when the exit is recorded -----

  /** The logger of a container with a log, once it drains the pipes. */
  lemma {:induction false} Drained(c: Config) returns (t: State)
    requires c.logging
    ensures Reachable(t) && t.config == c && t.launcher.Prepared? && t.logger.Draining? && !t.initAlive
    ensures t.out == Pipe(true, !c.loggerNull, false, 0, false) && t.err == Pipe(true, !c.loggerNull, false, 0, false)
    ensures t.files == Files(false, false, false, false)
  {
    t := Init(c);
    assert Runs(t, [], t);
    ReachableStep(t, LauncherStep(WirePipes));
    t := LauncherApply(t, WirePipes);
    ReachableStep(t, LauncherStep(ForkLogger));
    t := LauncherApply(t, ForkLogger);
    if c.loggerNull {
      ReachableStep(t, LoggerStep(LoggerRedirectOut));
      t := LoggerApply(t, LoggerRedirectOut);
      ReachableStep(t, LoggerStep(LoggerRedirectErr));
      t := LoggerApply(t, LoggerRedirectErr);
    } else {
      ReachableStep(t, LoggerStep(LoggerSkipsRedirect));
      t := LoggerApply(t, LoggerSkipsRedirect);
    }
    ReachableStep(t, LoggerStep(OpenLog(true)));
    t := LoggerApply(t, OpenLog(true));
  }

  /** A container process exists and its pid is not reported yet. */
  lemma {:induction false} Unreported(c: Config) returns (t: State)
    requires c.logging
    ensures Reachable(t) && t.config == c && t.launcher.Launched? && t.logger.Draining? && t.initAlive
    ensures t.out == Pipe(true, !c.loggerNull, true, 0, false) && t.err == Pipe(true, !c.loggerNull, true, 0, false)
    ensures t.files == Files(false, false, false, false)
  {
    t := Drained(c);
    ReachableStep(t, LauncherStep(LoadBundle));
    t := LauncherApply(t, LoadBundle);
    ReachableStep(t, LauncherStep(Launch));
    t := LauncherApply(t, Launch);
  }

  /** A container that has been launched, has written `n` and `e` bytes to its pipes and whose pid has been reported. */
  lemma {:induction false} Running(c: Config, n: nat, e: nat) returns (t: State)
    requires c.logging && n <= c.capacity && e <= c.capacity
    ensures Reachable(t) && t.config == c && t.launcher.Reported? && t.files.pid && t.logger.Draining? && t.initAlive
    ensures t.out == Pipe(true, !c.loggerNull, true, n, false) && t.err == Pipe(true, !c.loggerNull, true, e, false)
    ensures !t.files.exit && !t.files.startError
  {
    t := Unreported(c);
    ReachableStep(t, LauncherStep(PidCallback(true)));
    t := LauncherApply(t, PidCallback(true));
    ReachableStep(t, ContainerStep(WriteOut(n)));
    t := ContainerApply(t, WriteOut(n));
    ReachableStep(t, ContainerStep(WriteErr(e)));
    t := ContainerApply(t, WriteErr(e));
  }

  /** The same container after it has exited and the launcher has let go of both pipes, as far as it can. */
  lemma {:induction false} Ended(c: Config, n: nat, e: nat) returns (t: State)
    requires c.logging && n <= c.capacity && e <= c.capacity
    ensures Reachable(t) && t.config == c && t.launcher.Released? && t.files.pid && t.logger.Draining?
    ensures t.out == Pipe(!c.launcherNull, !c.loggerNull, false, n, false)
    ensures t.err == Pipe(!c.launcherNull, !c.loggerNull, false, e, false)
    ensures !t.files.exit && !t.files.startError
  {
    t := Running(c, n, e);
    ReachableStep(t, ContainerStep(InitExits));
    t := ContainerApply(t, InitExits);
    ReachableStep(t, ContainerStep(LastClose));
    t := ContainerApply(t, LastClose);
    ReachableStep(t, LauncherStep(LaunchReturns));
    t := LauncherApply(t, LaunchReturns);
    if c.launcherNull {
      ReachableStep(t, LauncherStep(RedirectOut));
      t := LauncherApply(t, RedirectOut);
      ReachableStep(t, LauncherStep(RedirectErr));
      t := LauncherApply(t, RedirectErr);
    } else {
      ReachableStep(t, LauncherStep(SkipRedirect));
      t := LauncherApply(t, SkipRedirect);
    }
  }

  /**
    * The recorded exit can become visible while as much container output is still unread as the pipes can hold:
    * releasing the pipes first makes end of file possible, it does not wait for the logger to reach it.
    */
  lemma {:induction false} ExitMayPrecedeLog(c: Config, n: nat, e: nat) returns (t: State)
    requires c.logging && n <= c.capacity && e <= c.capacity
    ensures Reachable(t) && t.config == c && t.files.exit && t.logger.Draining?
    ensures t.out.unread == n && t.err.unread == e
  {
    t := Ended(c, n, e);
    ReachableStep(t, LauncherStep(RecordExit));
    t := LauncherApply(t, RecordExit);
  }

  predicate AllRead(t: State) {
    t.out.unread == 0 && t.err.unread == 0
  }

  /**
    * A reader acting on the recorded exit never races an incomplete log exactly when there is no log (or the pipes
    * can hold nothing at all).
    */
  lemma {:induction false} LogCompleteAtExitExactly(c: Config)
    ensures (forall t :: Reachable(t) && t.config == c && t.files.exit ==> AllRead(t)) <==> !c.logging || c.capacity == 0
  {
    if c.logging && c.capacity > 0 {
      var t := ExitMayPrecedeLog(c, 1, 0);
      assert !AllRead(t);
    } else {
      forall t | Reachable(t) && t.config == c && t.files.exit
        ensures AllRead(t)
      {
        ReachableInv(t);
      }
    }
  }

  /** `start-error` can appear beside `pid`: it also records a failure to write `exit.json`. */
  lemma {:induction false} StartErrorAfterPid() returns (t: State)
    ensures Reachable(t) && t.config.launcherNull && t.config.loggerNull && t.files.pid && t.files.startError
  {
    var s := Ended(Config(true, true, true, 0), 0, 0);
    t := FailureReported(s);
  }

  /** And without a report although a container process, and its pid, existed: a hook failed and it was killed. */
  lemma {:induction false} StartErrorAfterLaunch(c: Config) returns (t: State)
    requires c.logging
    ensures Reachable(t) && t.config == c && t.files.startError && !t.files.pidCallback && t.launched && !t.initAlive
  {
    var s := Unreported(c);
    ReachableStep(s, ContainerStep(InitExits));
    s := ContainerApply(s, InitExits);
    t := FailureReported(s);
  }

  lemma {:induction false} PidUnwritten() returns (t: State)
    ensures Reachable(t) && t.launcher.Reported? && t.initAlive && t.config == Config(false, true, true, 0)
    ensures t.files.pidCallback && !t.files.pid
  {
    t := Init(Config(false, true, true, 0));
    assert Runs(t, [], t);
    ReachableStep(t, LauncherStep(SkipLogging));
    t := LauncherApply(t, SkipLogging);
    ReachableStep(t, LauncherStep(LoadBundle));
    t := LauncherApply(t, LoadBundle);
    ReachableStep(t, LauncherStep(Launch));
    t := LauncherApply(t, Launch);
    ReachableStep(t, LauncherStep(PidCallback(false)));
    t := LauncherApply(t, PidCallback(false));
  }

  /** Both protocol files are written as well as can be: a container may run to its end without `pid` ever existing. */
  lemma {:induction false} PidWriteMayFail() returns (t: State)
    ensures Reachable(t) && t.files.exit && t.files.pidCallback && !t.files.pid
  {
    t := PidUnwritten();
    ReachableStep(t, ContainerStep(InitExits));
    t := ContainerApply(t, InitExits);
    ReachableStep(t, LauncherStep(LaunchReturns));
    t := LauncherApply(t, LaunchReturns);
    ReachableStep(t, LauncherStep(SkipRedirect));
    t := LauncherApply(t, SkipRedirect);
    ReachableStep(t, LauncherStep(RecordExit));
    t := LauncherApply(t, RecordExit);
  }

  /** And a launcher may fail and leave no file behind at all. */
  lemma {:induction false} ErrorWriteMayFail(c: Config) returns (t: State)
    ensures Reachable(t) && t.config == c && t.launcher.Gone? && t.failedAt == Some(Started)
    ensures t.files == Files(false, false, false, false)
  {
    t := Init(c);
    assert Runs(t, [], t);
    ReachableStep(t, LauncherStep(Fail));
    t := LauncherApply(t, Fail);
    ReachableStep(t, LauncherStep(ReportFailure(false)));
    t := LauncherApply(t, ReportFailure(false));
  }

  // ----- the logger's end -----

  /** Without the redirection the logger does end up waiting for itself. */
  lemma {:induction false} UnredirectedLoggerHangs() returns (t: State)
    ensures Reachable(t) && !t.config.loggerNull && WaitsForItself(t)
  {
    t := Ended(Config(true, true, false, 0), 0, 0);
  }

  /** Nobody but the logger itself could still hold a pipe open. */
  predicate LetGo(s: State) {
    !s.out.byLauncher && !s.out.byContainer && !s.err.byLauncher && !s.err.byContainer
  }

  /** The logger has been forked and is still at work, having opened its log or not come to it yet. */
  predicate AtWork(pc: LoggerPc) {
    pc.Forked? || pc.RedirectedOut? || pc.Redirected? || pc.Draining?
  }

  /** What the logger still has to do before it can finish. */
  function Work(s: State): nat {
    s.out.unread + s.err.unread + (if s.out.done then 0 else 1) + (if s.err.done then 0 else 1)
    + match s.logger
      case Forked => 3
      case RedirectedOut => 2
      case Redirected => 1
      case _ => 0
  }

  /** While something is left to do, the logger can take a step of its own, which leaves less. */
  lemma {:induction false} LoggerProgress(s: State) returns (step: LoggerStep)
    requires Inv(s) && AtWork(s.logger) && s.config.loggerNull && LetGo(s) && Work(s) > 0
    ensures LoggerEnabled(s, step) && AtWork(LoggerApply(s, step).logger) && LetGo(LoggerApply(s, step))
    ensures LoggerApply(s, step).config == s.config && Work(LoggerApply(s, step)) < Work(s)
  {
    step := if s.logger.Forked? then LoggerRedirectOut
            else if s.logger.RedirectedOut? then LoggerRedirectErr
            else if s.logger.Redirected? then OpenLog(true)
            else if !s.out.done then (if s.out.unread > 0 then ReadOut else EofOut)
            else if s.err.unread > 0 then ReadErr else EofErr;
  }

  /**
    * Once launcher and container have let go of the pipes, the redirected logger can finish all by itself, wherever
    * it is; only failing to open its log would have ended it otherwise.
    */
  lemma {:induction false} LoggerFinishes(s: State) returns (steps: seq<Step>, t: State)
    requires Reachable(s) && AtWork(s.logger) && s.config.loggerNull && LetGo(s)
    ensures Runs(s, steps, t) && (forall x :: x in steps ==> x.LoggerStep?) && t.logger.Finished?
    decreases Work(s)
  {
    ReachableInv(s);
    var step: LoggerStep;
    if Work(s) == 0 {
      step := Finish;
      t := LoggerApply(s, step);
      steps := [];
      assert Runs(t, steps, t);
    } else {
      step := LoggerProgress(s);
      ReachableStep(s, LoggerStep(step));
      steps, t := LoggerFinishes(LoggerApply(s, step));
    }
    var all := [LoggerStep(step)] + steps;
    assert all[1..] == steps;
    steps := all;
  }
}
