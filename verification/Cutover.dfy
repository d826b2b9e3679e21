/**
 execute_cutover as a machine over its durable steps. Any step may raise before or after its
 effect, the process may die between any two steps, and an operator may change everything but
 the marker and the database schema between attempts. One attempt runs at a time: the script
 holds an exclusive host lock.
 */
module Cutover {
  import opened Outcomes
  import opened ResumeMarker
  import opened MarkerStore

  /** The release directories: the pinned previous one, and one per candidate commit. */
  datatype Release = PinnedPrevious | OfCommit(commit: nat)

  /** The two submission settings of the environment file. */
  datatype Environment = Environment(submission: bool, entryDisabled: Option<bool>)

  datatype Service = Stopped | Running(release: Release, submission: bool)

  datatype Host = Host(
    marker: Option<Marker>, schema: bool, batches: nat, clock: int,
    current: Release, env: Environment, killSwitch: bool, service: Service)

  datatype Mode =
    | Fresh
    | ResumePreAdoption
    | SupersedePrepared(approvedCommit: nat, approvedSha: Digest)
    | ResumeMigrationApplied(runtime: Identity, approvedSha: Digest)

  /** script is the identity of the running candidate tree. */
  datatype Args = Args(mode: Mode, script: Identity, previousCommit: nat)

  /** EXPECTED_PREVIOUS_COMMIT, the commit of the pinned previous release. */
  const PINNED_COMMIT: nat := 0x49f50538f3189e82738f291ed3e923b0caaa8512

  function CommitOf(r: Release): nat {
    if r.PinnedPrevious? then PINNED_COMMIT else r.commit
  }

  datatype AuthorizeStep =
    | Preflight | CheckApplied | AuthorizeApplied | SupersedeMarker | RequireResume | RequireFresh

  datatype PrepareStep = TakeBackup | InstallRelease | CloseGates | StopService | CollectEvidence

  datatype MigrateStep =
    | EnterMigration | RunMigration | RecordApplied | ConfigureEnvironment | ProbeSchema | PassNoReturn

  datatype AdoptStep =
    | LaunchReconciliation | BuildRows | CloseGatesAgain | SelectCandidate | ConfirmEvidence
    | CommitAdjustment | RecordCommitted

  datatype HandoffStep = ConfirmAfterCommit | ReconfigureEnvironment | StartCandidate | VerifyHandoff

  datatype FixStep = FixGates | FixSelect | FixConfigure | FixStart | FixStop

  datatype RollStep = RollGates | RollStop | RollEnvironment | RollSubmission | RollSelect

  /** The next step of an attempt, or of the handler of its exception. */
  datatype Pc =
    | Authorizing(auth: AuthorizeStep)
    | Preparing(prep: PrepareStep)
    | Migrating(migrate: MigrateStep)
    | Adopting(adopt: AdoptStep)
    | HandingOff(handoff: HandoffStep)
    | Fixing(fix: FixStep)
    | Rolling(roll: RollStep)

  datatype Backup = Backup(release: Release, env: Environment)

  /** The local variables of one attempt. */
  datatype Run = Run(args: Args, pc: Pc, irreversible: bool, backup: Option<Backup>, release: Option<Release>)

  datatype State = State(host: Host, run: Option<Run>)

  datatype Fault = Smooth | RaisesBefore | RaisesAfter

  datatype Action =
    | Begin(args: Args)
    | Advance(fault: Fault, tick: nat)
    | Crash
    | Operate(current: Release, env: Environment, killSwitch: bool, service: Service, tick: nat)

  /** What a step did: it went on, finished, or raised with this host. */
  datatype Effect = Went(host: Host, run: Run) | Finished(host: Host) | Raised(host: Host)

  /** resume_identity: the applied runtime when recovering, otherwise the candidate itself. */
  function Target(args: Args): Identity {
    if args.mode.ResumeMigrationApplied? then args.mode.runtime else args.script
  }

  /** validate_production_args and verify_script_only_migration_applied_resume_candidate. */
  predicate ArgsAllowed(args: Args) {
    match args.mode
    case Fresh => true
    case ResumePreAdoption => args.previousCommit == PINNED_COMMIT
    case SupersedePrepared(commit, _) => args.previousCommit == PINNED_COMMIT && commit != args.script.commit
    case ResumeMigrationApplied(runtime, _) =>
      && runtime.commit != args.script.commit
      && runtime.binary == args.script.binary && runtime.migration == args.script.migration
  }

  /** The runtime checks made before the first database read. */
  predicate StartAllowed(args: Args, h: Host) {
    && !h.env.submission
    && match args.mode
       case Fresh => h.service.Running? && CommitOf(h.service.release) == args.previousCommit
       case ResumeMigrationApplied(runtime, _) =>
         h.env.entryDisabled == Some(true) && h.current == OfCommit(runtime.commit) && h.service.Stopped?
       case _ =>
         h.env.entryDisabled != Some(false) && h.current == PinnedPrevious && h.service.Stopped?
  }

  function CandidateEnvironment(): Environment {
    Environment(false, Some(true))
  }

  function To(h: Host, run: Run, pc: Pc): Effect {
    Went(h, run.(pc := pc))
  }

  function Check(ok: bool, h: Host, run: Run, pc: Pc): Effect {
    if ok then To(h, run, pc) else Raised(h)
  }

  function Store(w: Written, h: Host, run: Run, pc: Pc): Effect {
    Check(w.accepted, h.(marker := w.file), run, pc)
  }

  /** The marker check of a MIGRATION_APPLIED resume, before its stale-run recovery. */
  predicate AppliedMarkerApproved(h: Host, args: Args)
    requires args.mode.ResumeMigrationApplied?
  {
    && h.marker.Some?
    && Validate(h.marker.value, Target(args), Present) == Some(MigrationApplied)
    && var m := h.marker.value;
       || OfMarker(m) == args.mode.approvedSha
       || (&& Resumed(m) && m.resume.sha256 == Str(Hex64(args.mode.approvedSha))
           && m.resume.commit == Str(Hex40(args.script.commit))
           && m.resume.script == Str(Hex64(args.script.script)))
  }

  /** The steps up to the backup: marker and schema authorization. */
  function AuthorizeEffect(h: Host, run: Run, step: AuthorizeStep): Effect {
    var i := Target(run.args);
    var mode := run.args.mode;
    match step
    case Preflight =>
      Check(h.killSwitch, h, run,
            match mode
            case Fresh => Authorizing(RequireFresh)
            case ResumePreAdoption => Authorizing(RequireResume)
            case SupersedePrepared(_, _) => Authorizing(SupersedeMarker)
            case ResumeMigrationApplied(_, _) => Authorizing(CheckApplied))
    case CheckApplied =>
      Check(&& mode.ResumeMigrationApplied? && AppliedMarkerApproved(h, run.args)
            && RequireStateResult(h.marker, h.schema, h.batches, i, h.clock).accepted && h.schema,
            h, run, Authorizing(AuthorizeApplied))
    case AuthorizeApplied =>
      if && mode.ResumeMigrationApplied?
         && RequireStateResult(h.marker, h.schema, h.batches, i, h.clock).accepted && h.marker.Some?
      then
        Store(AuthorizeResult(h.marker, i, mode.approvedSha, run.args.script.commit, run.args.script.script, h.clock),
              h, run, Preparing(TakeBackup))
      else Raised(h)
    case SupersedeMarker =>
      if mode.SupersedePrepared? then
        Store(SupersedeResult(h.marker, h.schema, h.batches, i, mode.approvedCommit, mode.approvedSha, h.clock),
              h, run, Authorizing(RequireResume))
      else Raised(h)
    case RequireResume =>
      Store(RequireStateResult(h.marker, h.schema, h.batches, i, h.clock), h, run, Preparing(TakeBackup))
    case RequireFresh =>
      Check(h.marker.None? && !h.schema, h, run, Preparing(TakeBackup))
  }

  /** The steps from the backup to the evidence. */
  function PrepareEffect(h: Host, run: Run, step: PrepareStep): Effect {
    match step
    case TakeBackup =>
      To(h, run.(backup := Some(Backup(h.current, h.env))),
         if run.args.mode.ResumeMigrationApplied? then Preparing(CloseGates) else Preparing(InstallRelease))
    case InstallRelease => To(h, run.(release := Some(OfCommit(run.args.script.commit))), Preparing(CloseGates))
    case CloseGates => To(h.(killSwitch := true), run, Preparing(StopService))
    case StopService => To(h.(service := Stopped), run, Preparing(CollectEvidence))
    case CollectEvidence => To(h, run, Migrating(EnterMigration))
  }

  /** apply_migration_0016 and the steps to the point of no return. */
  function MigrateEffect(h: Host, run: Run, step: MigrateStep): Effect {
    var i := Target(run.args);
    match step
    case EnterMigration =>
      if !run.args.mode.Fresh? then
        Store(RequireStateResult(h.marker, h.schema, h.batches, i, h.clock), h, run, Migrating(RunMigration))
      else if h.marker.None? && !h.schema then
        To(h.(marker := Some(PreparedMarker(i, h.clock))), run, Migrating(RunMigration))
      else Raised(h)
    case RunMigration =>
      Check(h.marker.Some? && Validate(h.marker.value, i, Boundary(h.schema)).Some?,
            if h.marker.Some? && Validate(h.marker.value, i, Boundary(h.schema)).Some?
            then h.(schema := true) else h,
            run, Migrating(RecordApplied))
    case RecordApplied =>
      if h.marker.Some? && TimedPhase(h.marker.value) == Some(Prepared)
      then To(h.(marker := Some(AppliedMarker(h.marker.value, h.clock))), run, Migrating(ConfigureEnvironment))
      else To(h, run, Migrating(ConfigureEnvironment))
    case ConfigureEnvironment => To(h.(env := CandidateEnvironment()), run, Migrating(ProbeSchema))
    case ProbeSchema => To(h, run, Migrating(PassNoReturn))
    case PassNoReturn =>
      To(h, run.(irreversible := true, release := Some(OfCommit(i.commit))), Adopting(LaunchReconciliation))
  }

  /** The steps from the live reconciliation to the recorded commit. */
  function AdoptEffect(h: Host, run: Run, step: AdoptStep): Effect {
    match step
    case LaunchReconciliation => To(h, run, Adopting(BuildRows))
    case BuildRows => Check(h.killSwitch, h, run, Adopting(CloseGatesAgain))
    case CloseGatesAgain => To(h.(killSwitch := true), run, Adopting(SelectCandidate))
    case SelectCandidate =>
      if run.release.Some? then To(h.(current := run.release.value), run, Adopting(ConfirmEvidence)) else Raised(h)
    case ConfirmEvidence => To(h, run, Adopting(CommitAdjustment))
    case CommitAdjustment =>
      Check(h.killSwitch && h.schema,
            if h.killSwitch && h.schema then h.(batches := h.batches + 1) else h, run, Adopting(RecordCommitted))
    case RecordCommitted =>
      Store(CommitResult(h.marker, Target(run.args), h.clock), h, run, HandingOff(ConfirmAfterCommit))
  }

  /** The steps that hand the candidate over with its gates closed. */
  function HandoffEffect(h: Host, run: Run, step: HandoffStep): Effect {
    match step
    case ConfirmAfterCommit => To(h, run, HandingOff(ReconfigureEnvironment))
    case ReconfigureEnvironment => To(h.(env := CandidateEnvironment()), run, HandingOff(StartCandidate))
    case StartCandidate => To(h.(service := Running(h.current, h.env.submission)), run, HandingOff(VerifyHandoff))
    case VerifyHandoff =>
      if run.release == Some(h.current) && h.killSwitch && h.env == CandidateEnvironment()
      then Finished(h) else Raised(h)
  }

  /** fix_forward_failure. */
  function FixEffect(h: Host, run: Run, step: FixStep): Effect {
    match step
    case FixGates => To(h.(killSwitch := true), run, Fixing(FixSelect))
    case FixSelect =>
      if run.release.Some? then To(h.(current := run.release.value), run, Fixing(FixConfigure))
      else To(h, run, Fixing(FixStart))
    case FixConfigure => To(h.(env := CandidateEnvironment()), run, Fixing(FixStart))
    case FixStart =>
      To(if h.service.Stopped? && run.release.Some? then h.(service := Running(h.current, h.env.submission)) else h,
         run, Fixing(FixStop))
    case FixStop => Finished(if h.service.Running? && h.service.submission then h.(service := Stopped) else h)
  }

  /** restore_before_irreversible. */
  function RollEffect(h: Host, run: Run, step: RollStep): Effect {
    match step
    case RollGates => To(h.(killSwitch := true), run, Rolling(RollStop))
    case RollStop => To(h.(service := Stopped), run, Rolling(RollEnvironment))
    case RollEnvironment =>
      if run.backup.Some? then To(h.(env := run.backup.value.env), run, Rolling(RollSubmission)) else Raised(h)
    case RollSubmission => To(h.(env := h.env.(submission := false)), run, Rolling(RollSelect))
    case RollSelect =>
      if run.backup.Some? then Finished(h.(current := run.backup.value.release)) else Raised(h)
  }

  function EffectOf(h: Host, run: Run): Effect {
    match run.pc
    case Authorizing(step) => AuthorizeEffect(h, run, step)
    case Preparing(step) => PrepareEffect(h, run, step)
    case Migrating(step) => MigrateEffect(h, run, step)
    case Adopting(step) => AdoptEffect(h, run, step)
    case HandingOff(step) => HandoffEffect(h, run, step)
    case Fixing(step) => FixEffect(h, run, step)
    case Rolling(step) => RollEffect(h, run, step)
  }

  /**
   Where an exception goes. A handler swallows the failures of its guarded parts: gate closing in both,
   candidate selection and candidate start when fixing forward. A service whose start failed counts as
   not running, so nothing is left to stop.
   */
  function Handle(h: Host, run: Run): State {
    match run.pc
    case Fixing(step) =>
      (match step
       case FixGates => State(h, Some(run.(pc := Fixing(FixSelect))))
       case FixSelect => State(h, Some(run.(pc := Fixing(FixStart))))
       case FixConfigure => State(h, Some(run.(pc := Fixing(FixStart))))
       case FixStart => State(h, None)
       case FixStop => State(h, None))
    case Rolling(step) =>
      if step.RollGates? then State(h, Some(run.(pc := Rolling(RollStop)))) else State(h, None)
    case _ =>
      if run.irreversible then State(h, Some(run.(pc := Fixing(FixGates))))
      else if run.backup.Some? then State(h, Some(run.(pc := Rolling(RollGates))))
      else State(h, None)
  }

  function Advanced(h: Host, run: Run, fault: Fault): State {
    if fault.RaisesBefore? then Handle(h, run)
    else
      match EffectOf(h, run)
      case Raised(h') => Handle(h', run)
      case Went(h', run') => if fault.RaisesAfter? then Handle(h', run) else State(h', Some(run'))
      case Finished(h') => if fault.RaisesAfter? then Handle(h', run) else State(h', None)
  }

  function Later(h: Host, tick: nat): Host {
    h.(clock := h.clock + tick)
  }

  /** The next step of the current attempt, if there is one. */
  function Continued(s: State, fault: Fault, tick: nat): State {
    if s.run.None? then s else Advanced(Later(s.host, tick), s.run.value, fault)
  }

  function Begun(s: State, args: Args): State {
    if s.run.None? && ArgsAllowed(args) && StartAllowed(args, s.host)
    then s.(run := Some(Run(args, Authorizing(Preflight), args.mode.ResumeMigrationApplied?, None, None)))
    else s
  }

  /** What an operator may do between attempts. */
  function Operated(s: State, current: Release, env: Environment, killSwitch: bool, service: Service, tick: nat): State
  {
    if s.run.Some? then s
    else s.(host := Later(s.host, tick).(current := current, env := env, killSwitch := killSwitch, service := service))
  }

  function Step(s: State, a: Action): State {
    if a.Advance? then Continued(s, a.fault, a.tick)
    else if a.Begin? then Begun(s, a.args)
    else if a.Crash? then s.(run := None)
    else Operated(s, a.current, a.env, a.killSwitch, a.service, a.tick)
  }

  /** The state after a whole history of attempts. */
  function After(s: State, actions: seq<Action>): State
    decreases |actions|
  {
    if actions == [] then s else After(Step(s, actions[0]), actions[1..])
  }

  predicate Initial(s: State) {
    s.run.None? && s.host.marker.None? && !s.host.schema && s.host.batches == 0
  }
}
