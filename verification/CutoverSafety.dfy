/** What every history of cutover attempts keeps. */
module CutoverSafety {
  import opened Outcomes
  import opened ResumeMarker
  import opened MarkerStore
  import opened Cutover

  /** The steps between the applied marker and the adjustment transaction. */
  predicate BeforeCommit(pc: Pc) {
    match pc
    case Migrating(step) => step.ConfigureEnvironment? || step.ProbeSchema? || step.PassNoReturn?
    case Adopting(step) =>
      || step.LaunchReconciliation? || step.BuildRows? || step.CloseGatesAgain? || step.SelectCandidate?
      || step.ConfirmEvidence? || step.CommitAdjustment?
    case _ => false
  }

  predicate MainLine(pc: Pc) {
    !pc.Fixing? && !pc.Rolling?
  }

  ghost predicate Consistent(h: Host) {
    AtBoundary(h.marker, h.schema, h.batches, h.clock)
  }

  predicate AppliedFor(h: Host, i: Identity) {
    h.marker.Some? && h.schema && Validate(h.marker.value, i, Present) == Some(MigrationApplied)
  }

  /** What the control position of an attempt says of its local variables and the gates. */
  predicate ControlInv(h: Host, run: Run) {
    && ArgsAllowed(run.args)
    && !h.env.submission
    && (run.args.mode.ResumeMigrationApplied? ==> run.irreversible)
    && (run.backup.Some? ==> !run.backup.value.env.submission)
    && (run.backup.Some? && !run.irreversible ==> run.backup.value.release == h.current)
    && (run.release.Some? ==> run.release == Some(OfCommit(Target(run.args).commit)))
    && (run.pc.Authorizing? ==> run.backup.None? && run.release.None?)
    && (run.pc == Preparing(InstallRelease) ==> !run.args.mode.ResumeMigrationApplied?)
    && (run.pc.Rolling? ==> !run.irreversible && run.backup.Some? && h.killSwitch)
    && (run.pc.Fixing? ==> run.irreversible)
    && (run.pc.Adopting? || run.pc.HandingOff? ==> run.irreversible && run.release.Some?)
    && (MainLine(run.pc) && run.pc != Authorizing(Preflight) ==> h.killSwitch)
  }

  /** What the control position says of the marker and the database. */
  ghost predicate LedgerInv(h: Host, run: Run) {
    var i := Target(run.args);
    && (run.pc == Migrating(RunMigration) ==>
          h.batches == 0 && h.marker.Some? && ValidFor(h.marker.value, i, h.schema, 0, h.clock))
    && (run.pc == Migrating(RecordApplied) ==>
          h.batches == 0 && h.schema && h.marker.Some? && ValidFor(h.marker.value, i, true, 0, h.clock))
    && (BeforeCommit(run.pc) ==> h.batches == 0 && AppliedFor(h, i))
    && (run.pc == Adopting(RecordCommitted) ==> h.batches == 1 && AppliedFor(h, i))
  }

  /** The marker agrees with the database and the attempt. */
  ghost predicate Sound(s: State) {
    && Consistent(s.host)
    && (s.run.Some? ==> ControlInv(s.host, s.run.value) && LedgerInv(s.host, s.run.value))
  }

  /** A recovery with the runtime's own script has left an applied marker that nothing accepts. */
  ghost predicate Spoiled(h: Host) {
    && h.schema && h.batches == 0
    && h.marker.Some? && Unreadable(h.marker.value) && Rank(h.marker) == 2
  }

  /** The steps that lead up to an authorization, and the handlers. */
  predicate Sidelined(pc: Pc) {
    pc.Authorizing? || pc.Fixing? || pc.Rolling?
  }

  ghost predicate Stuck(s: State) {
    && Spoiled(s.host)
    && (s.run.Some? ==> ControlInv(s.host, s.run.value) && Sidelined(s.run.value.pc))
  }

  ghost predicate Inv(s: State) {
    Sound(s) || Stuck(s)
  }

  // ----- the control part

  /** What one step of an attempt may do to the gates, the service, the selection and the batches. */
  predicate HostStep(h: Host, run: Run, h': Host) {
    && !h'.env.submission
    && (h.killSwitch ==> h'.killSwitch)
    && (h'.service == h.service || h'.service.Stopped? || !h'.service.submission)
    && (h'.current == h.current || (run.irreversible && h'.current == OfCommit(Target(run.args).commit)))
    && h.batches <= h'.batches <= h.batches + 1
  }

  predicate SameAttempt(run: Run, run': Run) {
    run'.args == run.args && (run.irreversible ==> run'.irreversible)
  }

  lemma {:induction false} AuthorizeIsHostStep(h: Host, run: Run)
    requires ControlInv(h, run) && run.pc.Authorizing?
    ensures HostStep(h, run, EffectOf(h, run).host)
  {
  }

  lemma {:induction false} AuthorizeKeepsControl(h: Host, run: Run)
    requires ControlInv(h, run) && run.pc.Authorizing?
    ensures HostStep(h, run, EffectOf(h, run).host)
    ensures var e := EffectOf(h, run);
            e.Went? ==> ControlInv(e.host, e.run) && SameAttempt(run, e.run)
  {
    AuthorizeIsHostStep(h, run);
    match run.pc.auth
    case Preflight =>
    case AuthorizeApplied =>
    case SupersedeMarker =>
    case _ =>
  }

  lemma {:induction false} PrepareKeepsControl(h: Host, run: Run)
    requires ControlInv(h, run) && run.pc.Preparing?
    ensures HostStep(h, run, EffectOf(h, run).host)
    ensures var e := EffectOf(h, run);
            e.Went? ==> ControlInv(e.host, e.run) && SameAttempt(run, e.run)
  {
  }

  lemma {:induction false} MigrateIsHostStep(h: Host, run: Run)
    requires ControlInv(h, run) && run.pc.Migrating?
    ensures HostStep(h, run, EffectOf(h, run).host)
  {
  }

  lemma {:induction false} MigrateKeepsControl(h: Host, run: Run)
    requires ControlInv(h, run) && run.pc.Migrating?
    ensures HostStep(h, run, EffectOf(h, run).host)
    ensures var e := EffectOf(h, run);
            e.Went? ==> ControlInv(e.host, e.run) && SameAttempt(run, e.run)
  {
    MigrateIsHostStep(h, run);
    match run.pc.migrate
    case EnterMigration =>
    case PassNoReturn =>
    case _ =>
  }

  lemma {:induction false} HandoffKeepsControl(h: Host, run: Run)
    requires ControlInv(h, run) && run.pc.HandingOff?
    ensures HostStep(h, run, EffectOf(h, run).host)
    ensures var e := EffectOf(h, run);
            e.Went? ==> ControlInv(e.host, e.run) && SameAttempt(run, e.run)
  {
  }

  lemma {:induction false} AdoptKeepsControl(h: Host, run: Run)
    requires ControlInv(h, run) && run.pc.Adopting?
    ensures HostStep(h, run, EffectOf(h, run).host)
    ensures var e := EffectOf(h, run);
            e.Went? ==> ControlInv(e.host, e.run) && SameAttempt(run, e.run)
  {
  }

  lemma {:induction false} FixKeepsControl(h: Host, run: Run)
    requires ControlInv(h, run) && run.pc.Fixing?
    ensures HostStep(h, run, EffectOf(h, run).host)
    ensures var e := EffectOf(h, run);
            e.Went? ==> ControlInv(e.host, e.run) && SameAttempt(run, e.run)
  {
  }

  lemma {:induction false} RollKeepsControl(h: Host, run: Run)
    requires ControlInv(h, run) && run.pc.Rolling?
    ensures HostStep(h, run, EffectOf(h, run).host)
    ensures var e := EffectOf(h, run);
            e.Went? ==> ControlInv(e.host, e.run) && SameAttempt(run, e.run)
  {
  }

  lemma {:induction false} EffectKeepsControl(h: Host, run: Run)
    requires ControlInv(h, run)
    ensures HostStep(h, run, EffectOf(h, run).host)
    ensures var e := EffectOf(h, run);
            e.Went? ==> ControlInv(e.host, e.run) && SameAttempt(run, e.run)
  {
    match run.pc
    case Authorizing(_) => AuthorizeKeepsControl(h, run);
    case Preparing(_) => PrepareKeepsControl(h, run);
    case Migrating(_) => MigrateKeepsControl(h, run);
    case HandingOff(_) => HandoffKeepsControl(h, run);
    case Adopting(_) => AdoptKeepsControl(h, run);
    case Fixing(_) => FixKeepsControl(h, run);
    case Rolling(_) => RollKeepsControl(h, run);
  }

  /** An exception finds the local variables as they were before the step, whatever the step did to the host. */
  lemma {:induction false} HandleKeepsControl(h: Host, h': Host, run: Run)
    requires ControlInv(h, run)
    requires HostStep(h, run, h')
    ensures var s := Handle(h', run);
            && s.host == h'
            && (s.run.Some? ==> ControlInv(h', s.run.value) && LedgerInv(h', s.run.value)
                                && SameAttempt(run, s.run.value))
  {
  }

  lemma {:induction false} AdvancedKeepsControl(h: Host, run: Run, fault: Fault)
    requires ControlInv(h, run)
    ensures var s := Advanced(h, run, fault);
            && HostStep(h, run, s.host)
            && (s.run.Some? ==> ControlInv(s.host, s.run.value) && SameAttempt(run, s.run.value))
  {
    EffectKeepsControl(h, run);
    HandleKeepsControl(h, h, run);
    HandleKeepsControl(h, EffectOf(h, run).host, run);
  }

  lemma {:induction false} AdvanceIsBounded(s: State, a: Action, s': State)
    requires s.run.Some? && ControlInv(s.host, s.run.value)
    requires a.Advance? && s' == Step(s, a)
    ensures HostStep(s.host, s.run.value, s'.host)
    ensures s'.run.Some? ==> ControlInv(s'.host, s'.run.value) && SameAttempt(s.run.value, s'.run.value)
  {
    var h := Later(s.host, a.tick);
    AdvancedKeepsControl(h, s.run.value, a.fault);
  }

  // ----- the ledger part

  lemma TimePasses(h: Host, tick: nat)
    requires Consistent(h)
    ensures Consistent(Later(h, tick))
  {
    if h.marker.Some? {
      var i :| ValidFor(h.marker.value, i, h.schema, h.batches, h.clock);
      assert ValidFor(h.marker.value, i, h.schema, h.batches, h.clock + tick);
    }
  }

  lemma {:induction false} AuthorizeKeepsLedger(h: Host, run: Run)
    requires Consistent(h) && ControlInv(h, run) && run.pc.Authorizing?
    ensures var e := EffectOf(h, run);
            && (Consistent(e.host) || (Spoiled(e.host) && e.Raised? && SameScript(run.args)))
            && e.host.schema == h.schema && e.host.batches == h.batches
            && Rank(h.marker) <= Rank(e.host.marker)
            && (e.Went? ==> LedgerInv(e.host, e.run))
  {
    var i := Target(run.args);
    var mode := run.args.mode;
    match run.pc.auth
    case AuthorizeApplied => AuthorizeAppliedKeepsLedger(h, run);
    case SupersedeMarker =>
      if mode.SupersedePrepared? {
        SupersedeKeepsBoundary(h.marker, h.schema, h.batches, h.clock,
                               i, mode.approvedCommit, mode.approvedSha, h.clock);
      }
    case RequireResume => RequireStateKeepsBoundary(h.marker, h.schema, h.batches, h.clock, i, h.clock);
    case _ =>
  }

  /** A recovery by the very script of the runtime, as after a change of its file mode. */
  predicate SameScript(args: Args) {
    args.mode.ResumeMigrationApplied? && args.mode.runtime.script == args.script.script
  }

  lemma {:induction false} AuthorizeAppliedKeepsLedger(h: Host, run: Run)
    requires Consistent(h) && ControlInv(h, run) && run.pc == Authorizing(AuthorizeApplied)
    ensures var e := EffectOf(h, run);
            && (Consistent(e.host) || (Spoiled(e.host) && e.Raised? && SameScript(run.args)))
            && e.host.schema == h.schema && e.host.batches == h.batches
            && Rank(h.marker) <= Rank(e.host.marker)
  {
    var mode := run.args.mode;
    if mode.ResumeMigrationApplied? {
      AuthorizeKeepsBoundary(h.marker, h.schema, h.batches, h.clock, mode.runtime, mode.approvedSha,
                             run.args.script.commit, run.args.script.script, h.clock);
      if Spoils(h.marker, mode.runtime, mode.approvedSha, run.args.script.commit, run.args.script.script, h.clock) {
        AcceptedIsValidFor(h.marker.value, mode.runtime, Present, h.schema, h.batches, h.clock);
      }
    }
  }

  lemma {:induction false} EnterKeepsLedger(h: Host, run: Run)
    requires Consistent(h) && run.pc == Migrating(EnterMigration)
    ensures var e := EffectOf(h, run);
            && Consistent(e.host)
            && e.host.batches == h.batches && (h.schema ==> e.host.schema)
            && Rank(h.marker) <= Rank(e.host.marker)
            && (e.Went? ==> LedgerInv(e.host, e.run))
  {
    var i := Target(run.args);
    RequireStateKeepsBoundary(h.marker, h.schema, h.batches, h.clock, i, h.clock);
    if run.args.mode.Fresh? && h.marker.None? && !h.schema {
      PreparedIsValid(i, h.clock, Absent);
      assert ValidFor(PreparedMarker(i, h.clock), i, false, 0, h.clock);
    }
  }

  lemma {:induction false} MigrateKeepsLedger(h: Host, run: Run)
    requires Consistent(h) && LedgerInv(h, run) && run.pc.Migrating?
    ensures var e := EffectOf(h, run);
            && Consistent(e.host)
            && e.host.batches == h.batches && (h.schema ==> e.host.schema)
            && Rank(h.marker) <= Rank(e.host.marker)
            && (e.Went? ==> LedgerInv(e.host, e.run))
  {
    var i := Target(run.args);
    match run.pc.migrate
    case EnterMigration => EnterKeepsLedger(h, run);
    case RunMigration =>
      assert ValidFor(h.marker.value, i, true, 0, h.clock);
    case RecordApplied =>
      if TimedPhase(h.marker.value) == Some(Prepared) {
        ApplyKeepsBoundary(h.marker.value, i, h.clock, h.clock);
      }
    case _ =>
  }

  lemma {:induction false} AdoptKeepsLedger(h: Host, run: Run)
    requires Consistent(h) && LedgerInv(h, run) && run.pc.Adopting?
    ensures var e := EffectOf(h, run);
            && Consistent(e.host)
            && e.host.schema == h.schema && h.batches <= e.host.batches
            && Rank(h.marker) <= Rank(e.host.marker)
            && (e.Went? ==> LedgerInv(e.host, e.run))
  {
    var i := Target(run.args);
    match run.pc.adopt
    case CommitAdjustment =>
      AcceptedIsValidFor(h.marker.value, i, Present, h.schema, h.batches, h.clock);
      assert ValidFor(h.marker.value, i, h.schema, 1, h.clock);
    case RecordCommitted =>
      CommitKeepsBoundary(h.marker, h.schema, h.batches, h.clock, i, h.clock);
    case _ =>
  }

  /** The other steps and the handlers touch neither the marker nor the database. */
  lemma {:induction false} OthersKeepLedger(h: Host, run: Run)
    requires !run.pc.Authorizing? && !run.pc.Migrating? && !run.pc.Adopting?
    ensures var e := EffectOf(h, run);
            && e.host.marker == h.marker && e.host.schema == h.schema
            && e.host.batches == h.batches && e.host.clock == h.clock
            && (e.Went? ==> LedgerInv(e.host, e.run))
  {
    match run.pc
    case Preparing(_) =>
    case HandingOff(_) =>
    case Fixing(_) =>
    case Rolling(_) =>
  }

  lemma {:induction false} EffectKeepsLedger(h: Host, run: Run)
    requires Consistent(h) && ControlInv(h, run) && LedgerInv(h, run)
    ensures var e := EffectOf(h, run);
            && (Consistent(e.host) || (Spoiled(e.host) && e.Raised? && SameScript(run.args)))
            && (h.schema ==> e.host.schema) && h.batches <= e.host.batches
            && Rank(h.marker) <= Rank(e.host.marker)
            && (e.Went? ==> LedgerInv(e.host, e.run))
  {
    match run.pc
    case Authorizing(_) => AuthorizeKeepsLedger(h, run);
    case Migrating(_) => MigrateKeepsLedger(h, run);
    case Adopting(_) => AdoptKeepsLedger(h, run);
    case _ => OthersKeepLedger(h, run);
  }

  lemma {:induction false} AdvancedKeepsSound(h: Host, run: Run, fault: Fault)
    requires Consistent(h) && ControlInv(h, run) && LedgerInv(h, run)
    ensures var s := Advanced(h, run, fault);
            && (Sound(s) || (Stuck(s) && SameScript(run.args)))
            && (h.schema ==> s.host.schema) && h.batches <= s.host.batches
            && Rank(h.marker) <= Rank(s.host.marker)
  {
    EffectKeepsControl(h, run);
    EffectKeepsLedger(h, run);
    HandleKeepsControl(h, h, run);
    HandleKeepsControl(h, EffectOf(h, run).host, run);
    HandleSidelines(EffectOf(h, run).host, run);
  }

  // ----- a host that no attempt can change any more

  /** A batch is committed, or nothing accepts the marker. */
  ghost predicate Final(h: Host) {
    h.marker.Some? && (h.batches == 1 || (h.schema && Unreadable(h.marker.value)))
  }

  /** The ledger is the one of the given host and the attempt is not past its authorization. */
  predicate Refused(s: State, last: Host) {
    && s.host.batches == last.batches && s.host.marker == last.marker && s.host.schema == last.schema
    && (s.run.Some? ==> Sidelined(s.run.value.pc))
  }

  /** No authorization is given on a final host. */
  lemma {:induction false} AuthorizingIsRefused(h: Host, run: Run)
    requires run.pc.Authorizing? && Final(h)
    ensures EffectOf(h, run).host == h
    ensures EffectOf(h, run).Went? ==> EffectOf(h, run).run.pc.Authorizing?
  {
  }

  lemma {:induction false} EffectStaysRefused(h: Host, run: Run)
    requires Sidelined(run.pc) && Final(h)
    ensures var e := EffectOf(h, run);
            && e.host.batches == h.batches && e.host.marker == h.marker && e.host.schema == h.schema
            && (e.Went? ==> Sidelined(e.run.pc))
  {
    if run.pc.Authorizing? {
      AuthorizingIsRefused(h, run);
    } else {
      OthersKeepLedger(h, run);
    }
  }

  lemma {:induction false} HandleSidelines(h: Host, run: Run)
    ensures Handle(h, run).host == h
    ensures Handle(h, run).run.Some? ==> Sidelined(Handle(h, run).run.value.pc)
  {
  }

  lemma {:induction false} AdvancedStaysRefused(h: Host, run: Run, fault: Fault)
    requires Sidelined(run.pc) && Final(h)
    ensures Refused(Advanced(h, run, fault), h)
  {
    EffectStaysRefused(h, run);
    HandleSidelines(h, run);
    HandleSidelines(EffectOf(h, run).host, run);
  }

  lemma {:induction false} AdvanceStaysRefused(s: State, a: Action, last: Host, s': State)
    requires Refused(s, last) && Final(last) && s.run.Some?
    requires a.Advance? && s' == Step(s, a)
    ensures Refused(s', last)
  {
    var h := Later(s.host, a.tick);
    AdvancedStaysRefused(h, s.run.value, a.fault);
  }

  lemma {:induction false} StepStaysRefused(s: State, a: Action, last: Host, s': State)
    requires Refused(s, last) && Final(last) && s' == Step(s, a)
    ensures Refused(s', last)
  {
    if a.Advance? {
      if s.run.Some? {
        AdvanceStaysRefused(s, a, last, s');
      } else {
        assert s' == s;
      }
    }
  }

  // ----- every step, every history

  lemma LedgerOutlivesTime(h: Host, run: Run, tick: nat)
    requires LedgerInv(h, run)
    ensures LedgerInv(Later(h, tick), run)
  {
  }

  lemma BeginKeepsSound(s: State, args: Args)
    requires Sound(s)
    ensures Sound(Step(s, Begin(args)))
  {
  }

  lemma {:induction false} AdvanceKeepsSound(s: State, a: Action, s': State)
    requires Sound(s) && s.run.Some? && a.Advance? && s' == Step(s, a)
    ensures Sound(s') || (Stuck(s') && SameScript(s.run.value.args))
    ensures (s.host.schema ==> s'.host.schema) && s.host.batches <= s'.host.batches
    ensures Rank(s.host.marker) <= Rank(s'.host.marker)
  {
    var h := Later(s.host, a.tick);
    TimePasses(s.host, a.tick);
    LedgerOutlivesTime(s.host, s.run.value, a.tick);
    AdvancedKeepsSound(h, s.run.value, a.fault);
  }

  lemma {:induction false} StepKeepsSound(s: State, a: Action)
    requires Sound(s)
    ensures Sound(Step(s, a)) || (Stuck(Step(s, a)) && s.run.Some? && SameScript(s.run.value.args))
    ensures (s.host.schema ==> Step(s, a).host.schema) && s.host.batches <= Step(s, a).host.batches
    ensures Rank(s.host.marker) <= Rank(Step(s, a).host.marker)
  {
    match a
    case Advance(_, _) =>
      if s.run.Some? {
        AdvanceKeepsSound(s, a, Step(s, a));
      } else {
        assert Step(s, a) == s;
      }
    case Begin(args) => BeginKeepsSound(s, args);
    case Operate(_, _, _, _, tick) => TimePasses(s.host, tick);
    case Crash =>
  }

  lemma {:induction false} StepKeepsStuck(s: State, a: Action, s': State)
    requires Stuck(s) && s' == Step(s, a)
    ensures Stuck(s')
  {
    StepStaysRefused(s, a, s.host, s');
    if a.Advance? && s.run.Some? {
      AdvanceIsBounded(s, a, s');
    }
  }

  lemma {:induction false} StepKeepsInv(s: State, a: Action)
    requires Inv(s)
    ensures Inv(Step(s, a))
    ensures (s.host.schema ==> Step(s, a).host.schema) && s.host.batches <= Step(s, a).host.batches
    ensures Rank(s.host.marker) <= Rank(Step(s, a).host.marker)
  {
    if Sound(s) {
      StepKeepsSound(s, a);
    } else {
      StepKeepsStuck(s, a, Step(s, a));
      StepStaysRefused(s, a, s.host, Step(s, a));
    }
  }

  lemma {:induction false} HistoryKeepsInv(s: State, actions: seq<Action>)
    requires Inv(s)
    ensures Inv(After(s, actions))
    ensures s.host.batches <= After(s, actions).host.batches
    ensures Rank(s.host.marker) <= Rank(After(s, actions).host.marker)
    decreases |actions|
  {
    if actions == [] {
    } else {
      StepKeepsInv(s, actions[0]);
      HistoryKeepsInv(Step(s, actions[0]), actions[1..]);
    }
  }
}
