/** Every attempt that stopped before the adjustment transaction can be taken to its end. */
module CutoverRecovery {
  import opened Outcomes
  import opened ResumeMarker
  import opened MarkerStore
  import opened Cutover
  import opened CutoverSafety

  function Iterate<T>(f: T -> T, x: T, n: nat): T
    decreases n
  {
    if n == 0 then x else Iterate(f, f(x), n - 1)
  }

  lemma {:induction false} IterateInTwo<T>(f: T -> T, x: T, n: nat, k: nat)
    ensures Iterate(f, x, n + k) == Iterate(f, Iterate(f, x, n), k)
    decreases n
  {
    if n == 0 {
    } else {
      IterateInTwo(f, f(x), n - 1, k);
    }
  }

  /** One step in which nothing fails. */
  function Next(s: State): State {
    Step(s, Advance(Smooth, 0))
  }

  /** The state after n such steps. */
  function Smoothly(s: State, n: nat): State {
    Iterate(Next, s, n)
  }

  lemma {:induction false} Goes(h: Host, run: Run, h': Host, run': Run, n: nat)
    requires EffectOf(h, run) == Went(h', run')
    ensures Smoothly(State(h, Some(run)), n + 1) == Smoothly(State(h', Some(run')), n)
  {
    assert Later(h, 0) == h;
    assert Next(State(h, Some(run))) == State(h', Some(run'));
  }

  predicate Completed(s: State, i: Identity) {
    && s.run.None? && s.host.batches == 1 && s.host.schema
    && s.host.marker.Some? && Validate(s.host.marker.value, i, Committed) == Some(AdoptionCommitted)
    && s.host.current == OfCommit(i.commit) && s.host.service == Running(OfCommit(i.commit), false)
    && s.host.killSwitch && s.host.env == CandidateEnvironment()
  }

  /** From the taken backup to the migration. */
  lemma {:induction false} PreparesToEnd(h: Host, run: Run) returns (run': Run, n: nat)
    requires run.pc == Preparing(TakeBackup)
    ensures run' == run.(pc := Migrating(EnterMigration), backup := run'.backup, release := run'.release)
    ensures Smoothly(State(h, Some(run)), n) == State(h.(killSwitch := true, service := Stopped), Some(run'))
  {
    var installs := !run.args.mode.ResumeMigrationApplied?;
    var backed := run.(backup := Some(Backup(h.current, h.env)));
    var installed := if installs then backed.(release := Some(OfCommit(run.args.script.commit))) else backed;
    var closed := h.(killSwitch := true);
    var stopped := closed.(service := Stopped);
    run' := installed.(pc := Migrating(EnterMigration));
    Goes(stopped, installed.(pc := Preparing(CollectEvidence)), stopped, run', 0);
    Goes(closed, installed.(pc := Preparing(StopService)), stopped, installed.(pc := Preparing(CollectEvidence)), 1);
    Goes(h, installed.(pc := Preparing(CloseGates)), closed, installed.(pc := Preparing(StopService)), 2);
    if installs {
      Goes(h, backed.(pc := Preparing(InstallRelease)), h, installed.(pc := Preparing(CloseGates)), 3);
      Goes(h, run, h, backed.(pc := Preparing(InstallRelease)), 4);
      n := 5;
    } else {
      Goes(h, run, h, installed.(pc := Preparing(CloseGates)), 3);
      n := 4;
    }
  }

  /**
   The three migrate steps are apply_migration_0016: they leave the marker and the schema that it leaves,
   and raise at the first of them exactly when it raises.
   */
  lemma {:induction false} StepsApplyMigration(h: Host, run: Run)
    requires run.pc == Migrating(EnterMigration)
    ensures var r := ApplyResult(h.marker, h.schema, h.batches, Target(run.args), !run.args.mode.Fresh?,
                                 h.clock, h.clock);
            && (r.accepted ==>
                  Smoothly(State(h, Some(run)), 3) ==
                  State(h.(marker := r.file, schema := r.schema), Some(run.(pc := Migrating(ConfigureEnvironment)))))
            && (!r.accepted <==> EffectOf(h, run).Raised?)
            && (!r.accepted ==> EffectOf(h, run).host == h.(marker := r.file, schema := r.schema))
  {
    var i := Target(run.args);
    var w := EnterResult(h.marker, h.schema, h.batches, i, !run.args.mode.Fresh?, h.clock);
    PreparedIsValid(i, h.clock, Absent);
    if w.accepted {
      var h1 := h.(marker := w.file);
      AppliesFrom(h1, run.(pc := Migrating(RunMigration)));
      Goes(h, run, h1, run.(pc := Migrating(RunMigration)), 2);
    }
  }

  /** From a valid marker the migration installs the schema and records the phase. */
  lemma {:induction false} AppliesFrom(h: Host, run: Run)
    requires run.pc == Migrating(RunMigration)
    requires h.marker.Some? && Validate(h.marker.value, Target(run.args), Boundary(h.schema)).Some?
    ensures var prepared := Validate(h.marker.value, Target(run.args), Boundary(h.schema)) == Some(Prepared);
            Smoothly(State(h, Some(run)), 2) ==
            State(h.(marker := Some(if prepared then AppliedMarker(h.marker.value, h.clock) else h.marker.value),
                     schema := true),
                  Some(run.(pc := Migrating(ConfigureEnvironment))))
  {
    var m := h.marker.value;
    var recorded := if TimedPhase(m) == Some(Prepared) then AppliedMarker(m, h.clock) else m;
    var h1 := h.(schema := true);
    Goes(h1, run.(pc := Migrating(RecordApplied)), h1.(marker := Some(recorded)),
         run.(pc := Migrating(ConfigureEnvironment)), 0);
    Goes(h, run, h1, run.(pc := Migrating(RecordApplied)), 1);
  }

  predicate ReadyToMigrate(h: Host, args: Args) {
    && h.batches == 0
    && if args.mode.Fresh? then h.marker.None? && !h.schema
       else h.marker.Some? && Validate(h.marker.value, Target(args), Boundary(h.schema)).Some?
  }

  /** apply_migration_0016 succeeds from every marker and schema state before the commit. */
  lemma {:induction false} MigrationApplies(h: Host, args: Args)
    requires ReadyToMigrate(h, args)
    ensures var r := ApplyResult(h.marker, h.schema, h.batches, Target(args), !args.mode.Fresh?, h.clock, h.clock);
            && r.accepted && r.schema && r.file.Some?
            && Validate(r.file.value, Target(args), Present) == Some(MigrationApplied)
            && (Resumed(r.file.value) ==> h.marker.Some? && Resumed(h.marker.value))
  {
    var i := Target(args);
    var w := EnterResult(h.marker, h.schema, h.batches, i, !args.mode.Fresh?, h.clock);
    PreparedIsValid(i, h.clock, Absent);
    PreparedAtBothBoundaries(w.file.value, i);
    if Validate(w.file.value, i, Boundary(h.schema)) == Some(Prepared) {
      AppliedIsValid(w.file.value, i, h.clock);
    }
  }

  /** From the recorded phase to the point of no return. */
  lemma {:induction false} PassesNoReturn(h: Host, run: Run)
    requires run.pc == Migrating(ConfigureEnvironment)
    ensures Smoothly(State(h, Some(run)), 3) ==
            State(h.(env := CandidateEnvironment()),
                  Some(run.(pc := Adopting(LaunchReconciliation), irreversible := true,
                            release := Some(OfCommit(Target(run.args).commit)))))
  {
    var h1 := h.(env := CandidateEnvironment());
    var last := run.(pc := Adopting(LaunchReconciliation), irreversible := true,
                     release := Some(OfCommit(Target(run.args).commit)));
    Goes(h1, run.(pc := Migrating(PassNoReturn)), h1, last, 0);
    Goes(h1, run.(pc := Migrating(ProbeSchema)), h1, run.(pc := Migrating(PassNoReturn)), 1);
    Goes(h, run, h1, run.(pc := Migrating(ProbeSchema)), 2);
  }

  /** From the live reconciliation to the committed transaction. */
  lemma {:induction false} AdoptsToCommit(h: Host, run: Run) returns (n: nat)
    requires run.pc == Adopting(LaunchReconciliation) && run.release.Some?
    requires h.killSwitch && h.schema
    ensures Smoothly(State(h, Some(run)), n) ==
            State(h.(current := run.release.value, batches := h.batches + 1),
                  Some(run.(pc := Adopting(RecordCommitted))))
  {
    var h1 := h.(current := run.release.value);
    var h2 := h1.(batches := h.batches + 1);
    Goes(h1, run.(pc := Adopting(CommitAdjustment)), h2, run.(pc := Adopting(RecordCommitted)), 0);
    Goes(h1, run.(pc := Adopting(ConfirmEvidence)), h1, run.(pc := Adopting(CommitAdjustment)), 1);
    Goes(h, run.(pc := Adopting(SelectCandidate)), h1, run.(pc := Adopting(ConfirmEvidence)), 2);
    Goes(h, run.(pc := Adopting(CloseGatesAgain)), h, run.(pc := Adopting(SelectCandidate)), 3);
    Goes(h, run.(pc := Adopting(BuildRows)), h, run.(pc := Adopting(CloseGatesAgain)), 4);
    Goes(h, run, h, run.(pc := Adopting(BuildRows)), 5);
    n := 6;
  }

  lemma {:induction false} HandsOffToEnd(h: Host, run: Run) returns (n: nat)
    requires run.pc == HandingOff(ConfirmAfterCommit) && run.release == Some(h.current) && h.killSwitch
    ensures Smoothly(State(h, Some(run)), n) ==
            State(h.(env := CandidateEnvironment(), service := Running(h.current, false)), None)
  {
    var h1 := h.(env := CandidateEnvironment());
    var h2 := h1.(service := Running(h.current, false));
    var last := run.(pc := HandingOff(VerifyHandoff));
    assert Later(h2, 0) == h2;
    assert Next(State(h2, Some(last))) == State(h2, None);
    assert Smoothly(State(h2, Some(last)), 1) == Smoothly(State(h2, None), 0);
    Goes(h1, run.(pc := HandingOff(StartCandidate)), h2, last, 1);
    Goes(h, run.(pc := HandingOff(ReconfigureEnvironment)), h1, run.(pc := HandingOff(StartCandidate)), 2);
    Goes(h, run, h, run.(pc := HandingOff(ReconfigureEnvironment)), 3);
    n := 4;
  }

  /** An attempt that has committed the transaction and has its last marker write ahead. */
  predicate AtLastWrite(h: Host, run: Run) {
    && run.pc == Adopting(RecordCommitted) && h.batches == 1 && h.schema && h.killSwitch
    && h.current == OfCommit(Target(run.args).commit) && run.release == Some(h.current)
    && h.marker.Some? && Validate(h.marker.value, Target(run.args), Present) == Some(MigrationApplied)
  }

  /** An attempt that has recorded the migration and is about to start the live reconciliation. */
  predicate AtLaunch(h: Host, run: Run) {
    && run.pc == Adopting(LaunchReconciliation) && run.release == Some(OfCommit(Target(run.args).commit))
    && h.batches == 0 && h.schema && h.killSwitch
    && h.marker.Some? && Validate(h.marker.value, Target(run.args), Present) == Some(MigrationApplied)
  }

  lemma {:induction false} MigrationReachesLaunch(h: Host, run: Run) returns (h': Host, run': Run, n: nat)
    requires run.pc == Migrating(EnterMigration) && ReadyToMigrate(h, run.args) && h.killSwitch
    ensures run'.args == run.args && AtLaunch(h', run')
    ensures Resumed(h'.marker.value) ==> h.marker.Some? && Resumed(h.marker.value)
    ensures Smoothly(State(h, Some(run)), n) == State(h', Some(run'))
  {
    var i := Target(run.args);
    var r := ApplyResult(h.marker, h.schema, h.batches, i, !run.args.mode.Fresh?, h.clock, h.clock);
    MigrationApplies(h, run.args);
    StepsApplyMigration(h, run);
    var h1 := h.(marker := r.file, schema := r.schema);
    PassesNoReturn(h1, run.(pc := Migrating(ConfigureEnvironment)));
    IterateInTwo(Next, State(h, Some(run)), 3, 3);
    h' := h1.(env := CandidateEnvironment());
    run' := run.(pc := Adopting(LaunchReconciliation), irreversible := true, release := Some(OfCommit(i.commit)));
    n := 3 + 3;
  }

  /** From the backup on, an attempt that meets no failure gets to the live reconciliation. */
  lemma {:induction false} AuthorizedReachesLaunch(h: Host, run: Run) returns (h': Host, run': Run, n: nat)
    requires run.pc == Preparing(TakeBackup) && ReadyToMigrate(h, run.args)
    ensures run'.args == run.args && AtLaunch(h', run')
    ensures Resumed(h'.marker.value) ==> h.marker.Some? && Resumed(h.marker.value)
    ensures Smoothly(State(h, Some(run)), n) == State(h', Some(run'))
  {
    var run1, n1 := PreparesToEnd(h, run);
    var n2;
    h', run', n2 := MigrationReachesLaunch(h.(killSwitch := true, service := Stopped), run1);
    IterateInTwo(Next, State(h, Some(run)), n1, n2);
    n := n1 + n2;
  }

  /** And from there it commits the transaction. */
  lemma {:induction false} AuthorizedReachesCommit(h: Host, run: Run) returns (h': Host, run': Run, n: nat)
    requires run.pc == Preparing(TakeBackup) && ReadyToMigrate(h, run.args)
    ensures run'.args == run.args && AtLastWrite(h', run')
    ensures Smoothly(State(h, Some(run)), n) == State(h', Some(run'))
  {
    var h1, run1, n1 := AuthorizedReachesLaunch(h, run);
    var n2 := AdoptsToCommit(h1, run1);
    IterateInTwo(Next, State(h, Some(run)), n1, n2);
    h', run' := h1.(current := run1.release.value, batches := 1), run1.(pc := Adopting(RecordCommitted));
    n := n1 + n2;
  }

  /** From the committed transaction to the handed over candidate. */
  lemma {:induction false} CommittedCompletes(h: Host, run: Run) returns (n: nat)
    requires AtLastWrite(h, run)
    ensures Completed(Smoothly(State(h, Some(run)), n), Target(run.args))
  {
    var m := CommittedMarker(h.marker.value, h.clock);
    CommittedIsValid(h.marker.value, Target(run.args), h.clock);
    var h1, run1 := h.(marker := Some(m)), run.(pc := HandingOff(ConfirmAfterCommit));
    var n1 := HandsOffToEnd(h1, run1);
    Goes(h, run, h1, run1, n1);
    n := n1 + 1;
  }

  /** An authorized attempt that meets no further failure completes. */
  lemma {:induction false} AuthorizedCompletes(h: Host, run: Run) returns (n: nat)
    requires run.pc == Preparing(TakeBackup) && ReadyToMigrate(h, run.args)
    ensures Completed(Smoothly(State(h, Some(run)), n), Target(run.args))
  {
    var h', run', n1 := AuthorizedReachesCommit(h, run);
    var n2 := CommittedCompletes(h', run');
    IterateInTwo(Next, State(h, Some(run)), n1, n2);
    n := n1 + n2;
  }

  /** What an attempt needs of the runtime and the gates before it starts. */
  predicate Ready(h: Host, args: Args) {
    ArgsAllowed(args) && StartAllowed(args, h) && h.killSwitch
  }

  /** The authorization of a pre-adoption resume. */
  lemma {:induction false} ResumeIsAuthorized(s: State, args: Args) returns (h: Host, run: Run)
    requires Sound(s) && s.run.None? && s.host.batches == 0
    requires args.mode.ResumePreAdoption? && Ready(s.host, args)
    requires s.host.marker.Some? ==> ReadIdentity(s.host.marker.value.identity) == Some(args.script)
    ensures run.args == args && run.pc == Preparing(TakeBackup) && ReadyToMigrate(h, args)
    ensures s.host.marker.Some? ==> h.marker == s.host.marker
    ensures s.host.marker.None? ==> h.marker.Some? && !Resumed(h.marker.value)
    ensures Smoothly(Step(s, Begin(args)), 2) == State(h, Some(run))
  {
    var start := Run(args, Authorizing(Preflight), false, None, None);
    var w := RequireStateResult(s.host.marker, s.host.schema, s.host.batches, args.script, s.host.clock);
    BoundaryAccepts(s.host, args.script);
    h, run := s.host.(marker := w.file), start.(pc := Preparing(TakeBackup));
    Goes(s.host, start.(pc := Authorizing(RequireResume)), h, run, 0);
    Goes(s.host, start, s.host, start.(pc := Authorizing(RequireResume)), 1);
  }

  /**
   A pre-adoption resume with the identity of the marker completes from every sound state before the
   transaction: no marker yet, PREPARED with or without the schema, or MIGRATION_APPLIED.
   */
  lemma {:induction false} ResumeCompletes(s: State, args: Args) returns (n: nat)
    requires Sound(s) && s.run.None? && s.host.batches == 0
    requires args.mode.ResumePreAdoption? && Ready(s.host, args)
    requires s.host.marker.Some? ==> ReadIdentity(s.host.marker.value.identity) == Some(args.script)
    ensures Completed(Smoothly(Step(s, Begin(args)), n), args.script)
  {
    var h, run := ResumeIsAuthorized(s, args);
    var rest := AuthorizedCompletes(h, run);
    IterateInTwo(Next, Step(s, Begin(args)), 2, rest);
    n := 2 + rest;
  }

  lemma {:induction false} BoundaryAccepts(h: Host, i: Identity)
    requires Consistent(h) && h.batches == 0
    requires h.marker.Some? ==> ReadIdentity(h.marker.value.identity) == Some(i)
    ensures var w := RequireStateResult(h.marker, h.schema, h.batches, i, h.clock);
            w.accepted && w.file.Some? && Validate(w.file.value, i, Boundary(h.schema)).Some?
  {
    RequireStateKeepsBoundary(h.marker, h.schema, h.batches, h.clock, i, h.clock);
    if h.marker.Some? {
      var j :| ValidFor(h.marker.value, j, h.schema, h.batches, h.clock);
      PreparedAtBothBoundaries(h.marker.value, j);
    }
  }

  lemma {:induction false} ResumptionAccepted(h: Host, args: Args)
    requires Consistent(h) && args.mode.ResumeMigrationApplied? && ArgsAllowed(args) && !SameScript(args)
    requires AppliedMarkerApproved(h, args)
    requires Resumed(h.marker.value) ==>
               && h.marker.value.resume.commit == Str(Hex40(args.script.commit))
               && h.marker.value.resume.script == Str(Hex64(args.script.script))
    ensures AuthorizeResult(h.marker, args.mode.runtime, args.mode.approvedSha,
                            args.script.commit, args.script.script, h.clock).accepted
  {
    var m := h.marker.value;
    AcceptedIsValidFor(m, args.mode.runtime, Present, h.schema, h.batches, h.clock);
    if !Resumed(m) {
      ResumedIsValid(m, args.mode.runtime, args.script.commit, args.script.script, h.clock);
    }
  }

  /** The authorization of a recovery by a new script. */
  lemma {:induction false} RecoveryIsAuthorized(h: Host, args: Args) returns (h': Host, run: Run)
    requires Consistent(h) && h.batches == 0 && h.killSwitch && Rank(h.marker) == 2
    requires args.mode.ResumeMigrationApplied? && ArgsAllowed(args) && !SameScript(args)
    requires AppliedMarkerApproved(h, args)
    requires Resumed(h.marker.value) ==>
               && h.marker.value.resume.commit == Str(Hex40(args.script.commit))
               && h.marker.value.resume.script == Str(Hex64(args.script.script))
    ensures run.args == args && run.pc == Preparing(TakeBackup) && ReadyToMigrate(h', args)
    ensures Smoothly(State(h, Some(Run(args, Authorizing(Preflight), true, None, None))), 3) == State(h', Some(run))
  {
    var i, start := args.mode.runtime, Run(args, Authorizing(Preflight), true, None, None);
    var w := AuthorizeResult(h.marker, i, args.mode.approvedSha, args.script.commit, args.script.script, h.clock);
    AuthorizeKeepsBoundary(h.marker, h.schema, h.batches, h.clock, i, args.mode.approvedSha,
                           args.script.commit, args.script.script, h.clock);
    AcceptedIsValidFor(h.marker.value, i, Present, h.schema, h.batches, h.clock);
    ResumptionAccepted(h, args);
    h', run := h.(marker := w.file), start.(pc := Preparing(TakeBackup));
    Goes(h, start.(pc := Authorizing(AuthorizeApplied)), h', run, 0);
    Goes(h, start.(pc := Authorizing(CheckApplied)), h, start.(pc := Authorizing(AuthorizeApplied)), 1);
    Goes(h, start, h, start.(pc := Authorizing(CheckApplied)), 2);
  }

  /**
   A recovery by a new script completes from every MIGRATION_APPLIED state before the transaction,
   also when that script was authorized by an earlier recovery that was cut off.
   */
  lemma {:induction false} RecoveryCompletes(s: State, args: Args) returns (n: nat)
    requires Sound(s) && s.run.None? && s.host.batches == 0 && Rank(s.host.marker) == 2
    requires args.mode.ResumeMigrationApplied? && Ready(s.host, args) && !SameScript(args)
    requires AppliedMarkerApproved(s.host, args)
    requires Resumed(s.host.marker.value) ==>
               && s.host.marker.value.resume.commit == Str(Hex40(args.script.commit))
               && s.host.marker.value.resume.script == Str(Hex64(args.script.script))
    ensures Completed(Smoothly(Step(s, Begin(args)), n), args.mode.runtime)
  {
    var h, run := RecoveryIsAuthorized(s.host, args);
    var rest := AuthorizedCompletes(h, run);
    IterateInTwo(Next, Step(s, Begin(args)), 3, rest);
    n := 3 + rest;
  }
}
