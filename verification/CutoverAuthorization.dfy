/** Exactly which attempts get as far as their backup, in terms of the host they find. */
module CutoverAuthorization {
  import opened Outcomes
  import opened ResumeMarker
  import opened MarkerStore
  import opened Cutover
  import opened CutoverSafety
  import opened CutoverRecovery

  /** The attempt is authorized and about to take its backup. */
  predicate AtBackup(s: State) {
    s.run.Some? && s.run.value.pc == Preparing(TakeBackup)
  }

  ghost predicate Proceeds(s: State) {
    exists n: nat :: AtBackup(Smoothly(s, n))
  }

  /** The previous release is selected and stopped, and entries are not enabled. */
  predicate OnStoppedPrevious(h: Host) {
    h.current == PinnedPrevious && h.service.Stopped? && h.env.entryDisabled != Some(false)
  }

  /** The exact condition of each mode. */
  predicate MayProceed(h: Host, args: Args) {
    && h.killSwitch && !h.env.submission
    && match args.mode
       case Fresh =>
         && h.service.Running? && CommitOf(h.service.release) == args.previousCommit
         && h.marker.None? && !h.schema
       case ResumePreAdoption =>
         && args.previousCommit == PINNED_COMMIT && OnStoppedPrevious(h)
         && h.batches == 0 && (h.marker.Some? ==> h.marker.value.identity == Fields(args.script))
       case SupersedePrepared(commit, sha) =>
         && args.previousCommit == PINNED_COMMIT && OnStoppedPrevious(h)
         && MaySupersede(h.marker, h.schema, h.batches, args.script, commit, sha)
       case ResumeMigrationApplied(runtime, sha) =>
         && h.current == OfCommit(runtime.commit) && h.service.Stopped? && h.env.entryDisabled == Some(true)
         && runtime.commit != args.script.commit
         && runtime.binary == args.script.binary && runtime.migration == args.script.migration
         && h.batches == 0
         && MayRecover(h.marker, runtime, sha, args.script.commit, args.script.script)
  }

  lemma ProceedsStep(s: State)
    requires !AtBackup(s)
    ensures Proceeds(s) <==> Proceeds(Next(s))
  {
    if Proceeds(s) {
      var n: nat :| AtBackup(Smoothly(s, n));
      assert n > 0;
      assert AtBackup(Smoothly(Next(s), n - 1));
    }
    if Proceeds(Next(s)) {
      var n: nat :| AtBackup(Smoothly(Next(s), n));
      assert AtBackup(Smoothly(s, n + 1));
    }
  }

  lemma AtBackupProceeds(s: State)
    requires AtBackup(s)
    ensures Proceeds(s)
  {
    assert AtBackup(Smoothly(s, 0));
  }

  /** An attempt that is over or in its fix-forward handler. */
  predicate Out(s: State) {
    s.run.None? || s.run.value.pc.Fixing?
  }

  lemma {:induction false} OutStaysOut(s: State, n: nat)
    requires Out(s)
    ensures Out(Smoothly(s, n))
    decreases n
  {
    if n == 0 {
    } else {
      OutStaysOut(Next(s), n - 1);
    }
  }

  lemma OutNeverProceeds(s: State)
    requires Out(s)
    ensures !Proceeds(s)
  {
    forall n: nat ensures !AtBackup(Smoothly(s, n)) {
      OutStaysOut(s, n);
    }
  }

  lemma {:induction false} RaisedIsOut(h: Host, run: Run)
    requires run.pc.Authorizing? && run.backup.None? && EffectOf(h, run).Raised?
    ensures !Proceeds(State(h, Some(run)))
  {
    var s := State(h, Some(run));
    assert Later(h, 0) == h;
    ProceedsStep(s);
    OutNeverProceeds(Next(s));
  }

  lemma {:induction false} WentGoesOn(h: Host, run: Run, h': Host, run': Run)
    requires run.pc.Authorizing? && EffectOf(h, run) == Went(h', run')
    ensures Proceeds(State(h, Some(run))) <==> Proceeds(State(h', Some(run')))
  {
    assert Later(h, 0) == h;
    assert Next(State(h, Some(run))) == State(h', Some(run'));
    ProceedsStep(State(h, Some(run)));
  }

  /** The start of an attempt, behind the checks of its arguments and of the runtime. */
  function Started(args: Args): Run {
    Run(args, Authorizing(Preflight), args.mode.ResumeMigrationApplied?, None, None)
  }

  /** The preflight leads to the first check of the mode exactly when the kill switch is closed. */
  lemma {:induction false} PreflightDecides(h: Host, args: Args, step: AuthorizeStep)
    requires match args.mode
             case Fresh => step == RequireFresh
             case ResumePreAdoption => step == RequireResume
             case SupersedePrepared(_, _) => step == SupersedeMarker
             case ResumeMigrationApplied(_, _) => step == CheckApplied
    ensures Proceeds(State(h, Some(Started(args))))
            <==> h.killSwitch && Proceeds(State(h, Some(Started(args).(pc := Authorizing(step)))))
  {
    var run := Started(args);
    if h.killSwitch {
      WentGoesOn(h, run, h, run.(pc := Authorizing(step)));
    } else {
      RaisedIsOut(h, run);
    }
  }

  lemma {:induction false} FreshDecides(h: Host, run: Run)
    requires run.pc == Authorizing(RequireFresh) && run.backup.None?
    ensures Proceeds(State(h, Some(run))) <==> h.marker.None? && !h.schema
  {
    if h.marker.None? && !h.schema {
      WentGoesOn(h, run, h, run.(pc := Preparing(TakeBackup)));
      AtBackupProceeds(State(h, Some(run.(pc := Preparing(TakeBackup)))));
    } else {
      RaisedIsOut(h, run);
    }
  }

  lemma {:induction false} ResumeDecides(h: Host, run: Run)
    requires Consistent(h) && run.pc == Authorizing(RequireResume) && run.backup.None?
    ensures Proceeds(State(h, Some(run)))
            <==> h.batches == 0 && (h.marker.Some? ==> h.marker.value.identity == Fields(Target(run.args)))
  {
    var w := RequireStateResult(h.marker, h.schema, h.batches, Target(run.args), h.clock);
    RequireStateKeepsBoundary(h.marker, h.schema, h.batches, h.clock, Target(run.args), h.clock);
    if w.accepted {
      var h', run' := h.(marker := w.file), run.(pc := Preparing(TakeBackup));
      WentGoesOn(h, run, h', run');
      AtBackupProceeds(State(h', Some(run')));
    } else {
      RaisedIsOut(h, run);
    }
  }

  lemma {:induction false} SupersedeDecides(h: Host, run: Run)
    requires Consistent(h) && run.pc == Authorizing(SupersedeMarker) && run.backup.None?
    requires run.args.mode.SupersedePrepared?
    ensures Proceeds(State(h, Some(run)))
            <==> MaySupersede(h.marker, h.schema, h.batches, run.args.script,
                              run.args.mode.approvedCommit, run.args.mode.approvedSha)
  {
    var i, mode := run.args.script, run.args.mode;
    var w := SupersedeResult(h.marker, h.schema, h.batches, i, mode.approvedCommit, mode.approvedSha, h.clock);
    SupersedeKeepsBoundary(h.marker, h.schema, h.batches, h.clock, i, mode.approvedCommit, mode.approvedSha, h.clock);
    if w.accepted {
      var h', run' := h.(marker := w.file), run.(pc := Authorizing(RequireResume));
      WentGoesOn(h, run, h', run');
      ResumeDecides(h', run');
    } else {
      RaisedIsOut(h, run);
    }
  }

  lemma {:induction false} AuthorizeDecides(h: Host, run: Run)
    requires Consistent(h) && run.pc == Authorizing(AuthorizeApplied) && run.backup.None?
    requires run.args.mode.ResumeMigrationApplied? && h.batches == 0
    ensures Proceeds(State(h, Some(run)))
            <==> MayRecover(h.marker, run.args.mode.runtime, run.args.mode.approvedSha,
                            run.args.script.commit, run.args.script.script)
  {
    var i, sha, script := run.args.mode.runtime, run.args.mode.approvedSha, run.args.script;
    var w := AuthorizeResult(h.marker, i, sha, script.commit, script.script, h.clock);
    AuthorizeKeepsBoundary(h.marker, h.schema, h.batches, h.clock, i, sha, script.commit, script.script, h.clock);
    RequireStateKeepsBoundary(h.marker, h.schema, h.batches, h.clock, i, h.clock);
    if w.accepted {
      var h', run' := h.(marker := w.file), run.(pc := Preparing(TakeBackup));
      WentGoesOn(h, run, h', run');
      AtBackupProceeds(State(h', Some(run')));
    } else {
      RaisedIsOut(h, run);
    }
  }

  /** What may recover passes the check before the stale-run recovery. */
  lemma {:induction false} RecoveryIsChecked(h: Host, args: Args)
    requires Consistent(h) && args.mode.ResumeMigrationApplied?
    requires MayRecover(h.marker, args.mode.runtime, args.mode.approvedSha, args.script.commit, args.script.script)
    ensures h.schema && AppliedMarkerApproved(h, args)
  {
    var i :| ValidFor(h.marker.value, i, h.schema, h.batches, h.clock);
    assert ReadIdentity(h.marker.value.identity) == Some(i);
  }

  /**
   The stale reconciliation runs are recovered only behind this: before any batch, on the applied marker of
   the runtime, approved by its digest or as the recovery that this very script has recorded in it.
   */
  lemma {:induction false} CheckedExactly(h: Host, run: Run)
    requires Consistent(h) && run.pc == Authorizing(CheckApplied) && run.args.mode.ResumeMigrationApplied?
    ensures EffectOf(h, run).Went?
            <==> && h.batches == 0 && Rank(h.marker) == 2
                 && h.marker.value.identity == Fields(run.args.mode.runtime)
                 && var m, sha, script := h.marker.value, run.args.mode.approvedSha, run.args.script;
                    || sha == OfMarker(m)
                    || (&& m.resume.sha256 == Str(Hex64(sha)) && m.resume.commit == Str(Hex40(script.commit))
                        && m.resume.script == Str(Hex64(script.script)))
  {
    RequireStateKeepsBoundary(h.marker, h.schema, h.batches, h.clock, run.args.mode.runtime, h.clock);
    if h.marker.Some? {
      var i :| ValidFor(h.marker.value, i, h.schema, h.batches, h.clock);
      assert ReadIdentity(h.marker.value.identity) == Some(i);
    }
  }

  lemma {:induction false} RecoveryDecides(h: Host, run: Run)
    requires Consistent(h) && run.pc == Authorizing(CheckApplied) && run.backup.None?
    requires run.args.mode.ResumeMigrationApplied?
    ensures Proceeds(State(h, Some(run)))
            <==> h.batches == 0 && MayRecover(h.marker, run.args.mode.runtime, run.args.mode.approvedSha,
                                              run.args.script.commit, run.args.script.script)
  {
    var i, run' := run.args.mode.runtime, run.(pc := Authorizing(AuthorizeApplied));
    RequireStateKeepsBoundary(h.marker, h.schema, h.batches, h.clock, i, h.clock);
    if EffectOf(h, run).Went? {
      WentGoesOn(h, run, h, run');
      AuthorizeDecides(h, run');
    } else {
      RaisedIsOut(h, run);
      if MayRecover(h.marker, i, run.args.mode.approvedSha, run.args.script.commit, run.args.script.script) {
        RecoveryIsChecked(h, run.args);
      }
    }
  }

  /**
   From any sound state between attempts, an attempt that meets no failure reaches its backup if and only
   if the host and the arguments satisfy the condition of its mode.
   */
  lemma {:induction false} AuthorizedExactly(s: State, args: Args)
    requires Sound(s) && s.run.None?
    ensures Proceeds(Step(s, Begin(args))) <==> MayProceed(s.host, args)
  {
    var begun := Step(s, Begin(args));
    if begun.run.None? {
      OutNeverProceeds(begun);
    } else {
      var h, run := s.host, Started(args);
      assert begun == State(h, Some(run));
      match args.mode
      case Fresh =>
        PreflightDecides(h, args, RequireFresh);
        FreshDecides(h, run.(pc := Authorizing(RequireFresh)));
      case ResumePreAdoption =>
        PreflightDecides(h, args, RequireResume);
        ResumeDecides(h, run.(pc := Authorizing(RequireResume)));
      case SupersedePrepared(_, _) =>
        PreflightDecides(h, args, SupersedeMarker);
        SupersedeDecides(h, run.(pc := Authorizing(SupersedeMarker)));
      case ResumeMigrationApplied(_, _) =>
        PreflightDecides(h, args, CheckApplied);
        RecoveryDecides(h, run.(pc := Authorizing(CheckApplied)));
    }
  }
}
