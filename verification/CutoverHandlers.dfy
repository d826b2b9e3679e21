/**
 What the two exception handlers of execute_cutover leave behind, step by step and end to end: a failure
 before the point of no return restores what the attempt found, one behind it goes on to the candidate.
 */
module CutoverHandlers {
  import opened Outcomes
  import opened ResumeMarker
  import opened MarkerStore
  import opened Cutover
  import opened CutoverSafety
  import opened CutoverHistories

  /** How a step goes, and the time it takes. */
  datatype Fate = Fate(fault: Fault, tick: nat)

  /** n steps of an attempt, each with the fate of its control position. */
  function Follow(s: State, fate: Pc -> Fate, n: nat): State
    decreases n
  {
    if n == 0 || s.run.None? then s
    else Follow(Step(s, Advance(fate(s.run.value.pc).fault, fate(s.run.value.pc).tick)), fate, n - 1)
  }

  lemma FollowStep(h: Host, run: Run, fate: Pc -> Fate, n: nat)
    requires n > 0
    ensures Follow(State(h, Some(run)), fate, n)
            == Follow(Advanced(Later(h, fate(run.pc).tick), run, fate(run.pc).fault), fate, n - 1)
  {
  }

  lemma Ended(h: Host, fate: Pc -> Fate, n: nat)
    ensures Follow(State(h, None), fate, n) == State(h, None)
  {
  }

  // ----- fix_forward_failure

  /**
   The host behind the fix-forward handler, whichever of its steps fail: each guarded part is tried
   whatever happened to the parts before it, and nothing touches the marker or the database.
   */
  predicate FixedForward(h: Host, release: Option<Release>, fate: Pc -> Fate, h': Host) {
    var gates, select, configure := fate(Fixing(FixGates)).fault, fate(Fixing(FixSelect)).fault,
                                    fate(Fixing(FixConfigure)).fault;
    var start, stop := fate(Fixing(FixStart)).fault, fate(Fixing(FixStop)).fault;
    var service := if h.service.Stopped? && release.Some? && !start.RaisesBefore?
                   then Running(h'.current, h'.env.submission) else h.service;
    && h'.marker == h.marker && h'.schema == h.schema && h'.batches == h.batches
    && h'.killSwitch == (h.killSwitch || !gates.RaisesBefore?)
    && h'.current == (if release.Some? && !select.RaisesBefore? then release.value else h.current)
    && h'.env == (if release.Some? && select.Smooth? && !configure.RaisesBefore?
                  then Environment(false, Some(true)) else h.env)
    && h'.service == (if service.Running? && service.submission && start.Smooth? && !stop.RaisesBefore?
                      then Stopped else service)
  }

  lemma {:induction false} AfterGates(h: Host, run: Run, fate: Pc -> Fate, n: nat, h': Host)
    requires run.pc == Fixing(FixGates) && n > 0
    requires var f, later := fate(run.pc).fault, Later(h, fate(run.pc).tick);
             h' == if f.RaisesBefore? then later else later.(killSwitch := true)
    ensures Follow(State(h, Some(run)), fate, n)
            == Follow(State(h', Some(run.(pc := Fixing(FixSelect)))), fate, n - 1)
  {
    FollowStep(h, run, fate, n);
  }

  lemma {:induction false} AfterSelect(h: Host, run: Run, fate: Pc -> Fate, n: nat, h': Host)
    requires run.pc == Fixing(FixSelect) && n > 0
    requires var f, later := fate(run.pc).fault, Later(h, fate(run.pc).tick);
             h' == if run.release.Some? && !f.RaisesBefore? then later.(current := run.release.value) else later
    ensures var next := if run.release.Some? && fate(run.pc).fault.Smooth? then FixConfigure else FixStart;
            Follow(State(h, Some(run)), fate, n) == Follow(State(h', Some(run.(pc := Fixing(next)))), fate, n - 1)
  {
    FollowStep(h, run, fate, n);
  }

  lemma {:induction false} AfterConfigure(h: Host, run: Run, fate: Pc -> Fate, n: nat, h': Host)
    requires run.pc == Fixing(FixConfigure) && n > 0
    requires var f, later := fate(run.pc).fault, Later(h, fate(run.pc).tick);
             h' == if f.RaisesBefore? then later else later.(env := Environment(false, Some(true)))
    ensures Follow(State(h, Some(run)), fate, n)
            == Follow(State(h', Some(run.(pc := Fixing(FixStart)))), fate, n - 1)
  {
    FollowStep(h, run, fate, n);
  }

  lemma {:induction false} AfterStart(h: Host, run: Run, fate: Pc -> Fate, n: nat, h': Host)
    requires run.pc == Fixing(FixStart) && n > 0
    requires var f, later := fate(run.pc).fault, Later(h, fate(run.pc).tick);
             h' == if h.service.Stopped? && run.release.Some? && !f.RaisesBefore?
                   then later.(service := Running(h.current, h.env.submission)) else later
    ensures Follow(State(h, Some(run)), fate, n)
            == if fate(run.pc).fault.Smooth? then Follow(State(h', Some(run.(pc := Fixing(FixStop)))), fate, n - 1)
               else State(h', None)
  {
    FollowStep(h, run, fate, n);
    Ended(h', fate, n - 1);
  }

  lemma {:induction false} AfterStop(h: Host, run: Run, fate: Pc -> Fate, n: nat, h': Host)
    requires run.pc == Fixing(FixStop) && n > 0
    requires var f, later := fate(run.pc).fault, Later(h, fate(run.pc).tick);
             h' == if h.service.Running? && h.service.submission && !f.RaisesBefore?
                   then later.(service := Stopped) else later
    ensures Follow(State(h, Some(run)), fate, n) == State(h', None)
  {
    FollowStep(h, run, fate, n);
    Ended(h', fate, n - 1);
  }

  /** The start of the service and the check of what runs. */
  lemma {:induction false} StartsToEnd(h: Host, run: Run, fate: Pc -> Fate, n: nat) returns (h': Host)
    requires run.pc == Fixing(FixStart) && n >= 2
    ensures Follow(State(h, Some(run)), fate, n) == State(h', None)
    ensures var start, stop := fate(Fixing(FixStart)).fault, fate(Fixing(FixStop)).fault;
            var service := if h.service.Stopped? && run.release.Some? && !start.RaisesBefore?
                           then Running(h.current, h.env.submission) else h.service;
            h' == h.(clock := h'.clock,
                     service := if service.Running? && service.submission && start.Smooth? && !stop.RaisesBefore?
                                then Stopped else service)
  {
    var start, later := fate(run.pc).fault, Later(h, fate(run.pc).tick);
    var started := if h.service.Stopped? && run.release.Some? && !start.RaisesBefore?
                   then later.(service := Running(h.current, h.env.submission)) else later;
    AfterStart(h, run, fate, n, started);
    if start.Smooth? {
      h' := ChecksService(started, run.(pc := Fixing(FixStop)), fate, n - 1);
    } else {
      h' := started;
    }
  }

  lemma {:induction false} ChecksService(h: Host, run: Run, fate: Pc -> Fate, n: nat) returns (h': Host)
    requires run.pc == Fixing(FixStop) && n > 0
    ensures Follow(State(h, Some(run)), fate, n) == State(h', None)
    ensures h' == h.(clock := h'.clock,
                     service := if h.service.Running? && h.service.submission && !fate(run.pc).fault.RaisesBefore?
                                then Stopped else h.service)
  {
    var stop, later := fate(run.pc).fault, Later(h, fate(run.pc).tick);
    h' := if h.service.Running? && h.service.submission && !stop.RaisesBefore?
          then later.(service := Stopped) else later;
    AfterStop(h, run, fate, n, h');
  }

  /** The selection of the candidate and its environment. */
  lemma {:induction false} SelectsCandidate(h: Host, run: Run, fate: Pc -> Fate, n: nat) returns (h': Host, m: nat)
    requires run.pc == Fixing(FixSelect) && n >= 4
    ensures m >= 2
    ensures Follow(State(h, Some(run)), fate, n) == Follow(State(h', Some(run.(pc := Fixing(FixStart)))), fate, m)
    ensures var select, configure := fate(Fixing(FixSelect)).fault, fate(Fixing(FixConfigure)).fault;
            h' == h.(clock := h'.clock,
                     current := if run.release.Some? && !select.RaisesBefore? then run.release.value else h.current,
                     env := if run.release.Some? && select.Smooth? && !configure.RaisesBefore?
                            then Environment(false, Some(true)) else h.env)
  {
    var select, later := fate(run.pc).fault, Later(h, fate(run.pc).tick);
    h' := if run.release.Some? && !select.RaisesBefore? then later.(current := run.release.value) else later;
    m := n - 1;
    AfterSelect(h, run, fate, n, h');
    if run.release.Some? && select.Smooth? {
      var selected, configuring := h', run.(pc := Fixing(FixConfigure));
      var configure, last := fate(configuring.pc).fault, Later(selected, fate(configuring.pc).tick);
      h' := if configure.RaisesBefore? then last else last.(env := Environment(false, Some(true)));
      m := n - 2;
      AfterConfigure(selected, configuring, fate, n - 1, h');
    }
  }

  /** The handler always ends, and leaves exactly this. */
  lemma {:induction false} FixForwardExactly(h: Host, run: Run, fate: Pc -> Fate, n: nat)
    requires run.pc == Fixing(FixGates) && n >= 5
    ensures var t := Follow(State(h, Some(run)), fate, n);
            t.run.None? && FixedForward(h, run.release, fate, t.host)
  {
    var later := Later(h, fate(run.pc).tick);
    var closed := if fate(run.pc).fault.RaisesBefore? then later else later.(killSwitch := true);
    AfterGates(h, run, fate, n, closed);
    var selected, m := SelectsCandidate(closed, run.(pc := Fixing(FixSelect)), fate, n - 1);
    var last := StartsToEnd(selected, run.(pc := Fixing(FixStart)), fate, m);
  }

  // ----- restore_before_irreversible

  /** The host behind the rollback handler: only the closing of the gates may fail without ending it. */
  predicate RolledBack(h: Host, backup: Backup, fate: Pc -> Fate, h': Host) {
    var gates, stop, env := fate(Rolling(RollGates)).fault, fate(Rolling(RollStop)).fault,
                            fate(Rolling(RollEnvironment)).fault;
    var submission, select := fate(Rolling(RollSubmission)).fault, fate(Rolling(RollSelect)).fault;
    && h'.marker == h.marker && h'.schema == h.schema && h'.batches == h.batches
    && h'.killSwitch == (h.killSwitch || !gates.RaisesBefore?)
    && h'.service == (if stop.RaisesBefore? then h.service else Stopped)
    && h'.env == (if !stop.Smooth? || env.RaisesBefore? then h.env
                  else if !env.Smooth? || submission.RaisesBefore? then backup.env
                  else backup.env.(submission := false))
    && h'.current == (if stop.Smooth? && env.Smooth? && submission.Smooth? && !select.RaisesBefore?
                      then backup.release else h.current)
  }

  lemma {:induction false} RollsGates(h: Host, run: Run, fate: Pc -> Fate, n: nat, h': Host)
    requires run.pc == Rolling(RollGates) && n > 0
    requires var f, later := fate(run.pc).fault, Later(h, fate(run.pc).tick);
             h' == if f.RaisesBefore? then later else later.(killSwitch := true)
    ensures Follow(State(h, Some(run)), fate, n)
            == Follow(State(h', Some(run.(pc := Rolling(RollStop)))), fate, n - 1)
  {
    FollowStep(h, run, fate, n);
  }

  /** A step of the unguarded part: its failure ends the handler. */
  lemma {:induction false} RollsOn(h: Host, run: Run, fate: Pc -> Fate, n: nat, done: Host, next: RollStep)
    requires run.pc.Rolling? && !run.pc.roll.RollGates? && n > 0
    requires EffectOf(Later(h, fate(run.pc).tick), run) == Went(done, run.(pc := Rolling(next)))
    ensures Follow(State(h, Some(run)), fate, n)
            == if fate(run.pc).fault.Smooth? then Follow(State(done, Some(run.(pc := Rolling(next)))), fate, n - 1)
               else State(if fate(run.pc).fault.RaisesBefore? then Later(h, fate(run.pc).tick) else done, None)
  {
    FollowStep(h, run, fate, n);
    Ended(done, fate, n - 1);
    Ended(Later(h, fate(run.pc).tick), fate, n - 1);
  }

  lemma {:induction false} RollsSelection(h: Host, run: Run, fate: Pc -> Fate, n: nat) returns (h': Host)
    requires run.pc == Rolling(RollSelect) && run.backup.Some? && n > 0
    ensures Follow(State(h, Some(run)), fate, n) == State(h', None)
    ensures h' == h.(clock := h'.clock,
                     current := if fate(run.pc).fault.RaisesBefore? then h.current else run.backup.value.release)
  {
    var later := Later(h, fate(run.pc).tick);
    h' := if fate(run.pc).fault.RaisesBefore? then later else later.(current := run.backup.value.release);
    FollowStep(h, run, fate, n);
    Ended(h', fate, n - 1);
  }

  lemma {:induction false} RollsEnvironment(h: Host, run: Run, fate: Pc -> Fate, n: nat) returns (h': Host)
    requires run.pc == Rolling(RollEnvironment) && run.backup.Some? && n >= 3
    ensures Follow(State(h, Some(run)), fate, n) == State(h', None)
    ensures var env, submission, select := fate(Rolling(RollEnvironment)).fault, fate(Rolling(RollSubmission)).fault,
                                           fate(Rolling(RollSelect)).fault;
            var b := run.backup.value;
            h' == h.(clock := h'.clock,
                     env := if env.RaisesBefore? then h.env
                            else if !env.Smooth? || submission.RaisesBefore? then b.env
                            else b.env.(submission := false),
                     current := if env.Smooth? && submission.Smooth? && !select.RaisesBefore?
                                then b.release else h.current)
  {
    var restored := Later(h, fate(run.pc).tick).(env := run.backup.value.env);
    RollsOn(h, run, fate, n, restored, RollSubmission);
    if fate(run.pc).fault.Smooth? {
      var next := run.(pc := Rolling(RollSubmission));
      var later := Later(restored, fate(next.pc).tick);
      var closed := later.(env := later.env.(submission := false));
      RollsOn(restored, next, fate, n - 1, closed, RollSelect);
      if fate(next.pc).fault.Smooth? {
        h' := RollsSelection(closed, run.(pc := Rolling(RollSelect)), fate, n - 2);
      } else {
        h' := if fate(next.pc).fault.RaisesBefore? then later else closed;
      }
    } else {
      h' := if fate(run.pc).fault.RaisesBefore? then Later(h, fate(run.pc).tick) else restored;
    }
  }

  lemma {:induction false} RollbackExactly(h: Host, run: Run, fate: Pc -> Fate, n: nat)
    requires run.pc == Rolling(RollGates) && run.backup.Some? && n >= 5
    ensures var t := Follow(State(h, Some(run)), fate, n);
            t.run.None? && RolledBack(h, run.backup.value, fate, t.host)
  {
    var later := Later(h, fate(run.pc).tick);
    var closed := if fate(run.pc).fault.RaisesBefore? then later else later.(killSwitch := true);
    RollsGates(h, run, fate, n, closed);
    var stopping := run.(pc := Rolling(RollStop));
    var stopped := Later(closed, fate(stopping.pc).tick).(service := Stopped);
    RollsOn(closed, stopping, fate, n - 1, stopped, RollEnvironment);
    if fate(stopping.pc).fault.Smooth? {
      var last := RollsEnvironment(stopped, run.(pc := Rolling(RollEnvironment)), fate, n - 2);
    }
  }

  // ----- a failed attempt, from its start to the end of its handler

  /** The step raises, before or behind its effect or because of it. */
  predicate Fails(s: State, a: Action) {
    s.run.Some? && a.Advance?
    && (!a.fault.Smooth? || EffectOf(Later(s.host, a.tick), s.run.value).Raised?)
  }

  /** The backup of an attempt is what it found, and until it takes it nothing of that has changed. */
  predicate Remembers(found: Host, h: Host, run: Run) {
    && (run.backup.Some? ==> run.backup.value == Backup(found.current, found.env))
    && (run.pc.Authorizing? || run.pc == Preparing(TakeBackup) ==> h.current == found.current && h.env == found.env)
  }

  lemma {:induction false} AuthorizeRemembers(found: Host, h: Host, run: Run)
    requires Remembers(found, h, run) && run.pc.Authorizing?
    ensures var e := EffectOf(h, run); e.Went? ==> Remembers(found, e.host, e.run)
  {
  }

  lemma {:induction false} PrepareRemembers(found: Host, h: Host, run: Run)
    requires Remembers(found, h, run) && run.pc.Preparing?
    ensures var e := EffectOf(h, run); e.Went? ==> Remembers(found, e.host, e.run)
  {
  }

  /** Behind the preparation no step touches the backup. */
  lemma {:induction false} LaterStepsRemember(found: Host, h: Host, run: Run)
    requires Remembers(found, h, run) && !run.pc.Authorizing? && !run.pc.Preparing?
    ensures var e := EffectOf(h, run); e.Went? ==> Remembers(found, e.host, e.run)
  {
    match run.pc
    case Migrating(_) =>
    case Adopting(_) =>
    case HandingOff(_) =>
    case Fixing(_) =>
    case Rolling(_) =>
  }

  lemma {:induction false} EffectRemembers(found: Host, h: Host, run: Run)
    requires Remembers(found, h, run)
    ensures var e := EffectOf(h, run); e.Went? ==> Remembers(found, e.host, e.run)
  {
    match run.pc
    case Authorizing(_) => AuthorizeRemembers(found, h, run);
    case Preparing(_) => PrepareRemembers(found, h, run);
    case _ => LaterStepsRemember(found, h, run);
  }

  lemma {:induction false} StepRemembers(found: Host, s: State, a: Action)
    requires s.run.Some? && Remembers(found, s.host, s.run.value) && a.Advance?
    ensures Step(s, a).run.Some? ==> Remembers(found, Step(s, a).host, Step(s, a).run.value)
  {
    var h := Later(s.host, a.tick);
    EffectRemembers(found, h, s.run.value);
    HandleSidelines(h, s.run.value);
    HandleSidelines(EffectOf(h, s.run.value).host, s.run.value);
  }

  lemma {:induction false} AttemptRemembers(found: Host, s: State, actions: seq<Action>)
    requires s.run.Some? ==> Remembers(found, s.host, s.run.value)
    requires forall a :: a in actions ==> a.Advance?
    ensures var t := After(s, actions); t.run.Some? ==> Remembers(found, t.host, t.run.value)
    decreases |actions|
  {
    if actions == [] {
    } else if s.run.None? {
      IdleStays(s, actions);
    } else {
      StepRemembers(found, s, actions[0]);
      AttemptRemembers(found, Step(s, actions[0]), actions[1..]);
    }
  }

  /** From the backup to the point of no return every failure goes to the rollback. */
  lemma {:induction false} FailureRollsBack(t: State, a: Action)
    requires Fails(t, a) && MainLine(t.run.value.pc) && t.run.value.backup.Some? && !t.run.value.irreversible
    ensures Step(t, a).run == Some(t.run.value.(pc := Rolling(RollGates)))
  {
  }

  /**
   An attempt that fails between its backup and the point of no return ends, when its rollback meets no
   failure, with the release and the environment it found, a stopped service and the kill switch closed.
   */
  lemma {:induction false} RollbackRestores(
    s: State, args: Args, actions: seq<Action>, a: Action, fate: Pc -> Fate, n: nat)
    requires s.run.None? && forall b :: b in actions ==> b.Advance?
    requires var t := After(Step(s, Begin(args)), actions);
             && Fails(t, a) && MainLine(t.run.value.pc)
             && t.run.value.backup.Some? && !t.run.value.irreversible
    requires n >= 5 && forall pc :: fate(pc).fault.Smooth?
    ensures var failed := Step(After(Step(s, Begin(args)), actions), a);
            var r := Follow(failed, fate, n);
            && r.run.None? && r.host.current == s.host.current && r.host.env == s.host.env
            && r.host.service.Stopped? && r.host.killSwitch
            && r.host.marker == failed.host.marker && r.host.schema == failed.host.schema
            && r.host.batches == failed.host.batches
  {
    var started := Step(s, Begin(args));
    if started.run.None? {
      IdleStays(started, actions);
    }
    AttemptRemembers(s.host, started, actions);
    var t := After(started, actions);
    FailureRollsBack(t, a);
    RollbackExactly(Step(t, a).host, Step(t, a).run.value, fate, n);
  }

  /** From the point of no return on every failure goes to the fix-forward handler. */
  lemma {:induction false} FailureFixesForward(t: State, a: Action)
    requires Fails(t, a) && MainLine(t.run.value.pc) && t.run.value.irreversible
    ensures Step(t, a).run == Some(t.run.value.(pc := Fixing(FixGates)))
  {
  }

  /**
   An attempt that fails behind the point of no return ends, when its handler meets no failure, on its
   candidate with all gates closed: a stopped service is started from it, a service that submits is stopped,
   and marker and database are what the failed step left.
   */
  lemma {:induction false} FixForwardCompletes(t: State, a: Action, fate: Pc -> Fate, n: nat)
    requires Inv(t) && Fails(t, a) && MainLine(t.run.value.pc) && t.run.value.irreversible
    requires n >= 5 && forall pc :: fate(pc).fault.Smooth?
    ensures var failed, candidate := Step(t, a), OfCommit(Target(t.run.value.args).commit);
            var r := Follow(failed, fate, n);
            && r.run.None? && r.host.killSwitch && !r.host.env.submission
            && r.host.marker == failed.host.marker && r.host.schema == failed.host.schema
            && r.host.batches == failed.host.batches
            && (t.run.value.release.None? ==> r.host.current == failed.host.current && r.host.env == failed.host.env)
            && (t.run.value.release.Some? ==>
                  && r.host.current == candidate && r.host.env == Environment(false, Some(true))
                  && (failed.host.service.Stopped? ==> r.host.service == Running(candidate, false)))
            && (failed.host.service.Running? ==>
                  r.host.service == if failed.host.service.submission then Stopped else failed.host.service)
  {
    StepKeepsInv(t, a);
    FailureFixesForward(t, a);
    FixForwardExactly(Step(t, a).host, Step(t, a).run.value, fate, n);
  }

  // ----- what holds when the adjustment commits

  predicate ServiceIsShut(pc: Pc) {
    || pc == Preparing(CollectEvidence) || pc.Migrating? || pc.Adopting?
    || (pc.HandingOff? && !pc.handoff.VerifyHandoff?)
  }

  predicate EnvironmentIsSet(pc: Pc) {
    (pc.Migrating? && (pc.migrate.ProbeSchema? || pc.migrate.PassNoReturn?)) || pc.Adopting? || pc.HandingOff?
  }

  predicate CandidateIsSelected(pc: Pc) {
    || (pc.Adopting? && (pc.adopt.ConfirmEvidence? || pc.adopt.CommitAdjustment? || pc.adopt.RecordCommitted?))
    || pc.HandingOff?
  }

  /** What the stages of an attempt have done to the host so far. */
  predicate Staged(h: Host, run: Run) {
    && (ServiceIsShut(run.pc) ==> h.service.Stopped?)
    && (EnvironmentIsSet(run.pc) ==> h.env == Environment(false, Some(true)))
    && (CandidateIsSelected(run.pc) ==> run.release == Some(h.current))
  }

  lemma {:induction false} AuthorizeKeepsStage(h: Host, run: Run)
    requires Staged(h, run) && run.pc.Authorizing?
    ensures var e := EffectOf(h, run); e.Went? ==> Staged(e.host, e.run)
  {
  }

  lemma {:induction false} PrepareKeepsStage(h: Host, run: Run)
    requires Staged(h, run) && run.pc.Preparing?
    ensures var e := EffectOf(h, run); e.Went? ==> Staged(e.host, e.run)
  {
  }

  lemma {:induction false} MigrateKeepsStage(h: Host, run: Run)
    requires Staged(h, run) && run.pc.Migrating?
    ensures var e := EffectOf(h, run); e.Went? ==> Staged(e.host, e.run)
  {
  }

  lemma {:induction false} AdoptKeepsStage(h: Host, run: Run)
    requires Staged(h, run) && run.pc.Adopting?
    ensures var e := EffectOf(h, run); e.Went? ==> Staged(e.host, e.run)
  {
  }

  lemma {:induction false} HandoffKeepsStage(h: Host, run: Run)
    requires Staged(h, run) && run.pc.HandingOff?
    ensures var e := EffectOf(h, run); e.Went? ==> Staged(e.host, e.run)
  {
  }

  lemma {:induction false} HandlersHaveNoStage(h: Host, run: Run)
    requires run.pc.Fixing? || run.pc.Rolling?
    ensures var e := EffectOf(h, run); e.Went? ==> Staged(e.host, e.run)
  {
  }

  lemma {:induction false} EffectKeepsStage(h: Host, run: Run)
    requires Staged(h, run)
    ensures var e := EffectOf(h, run); e.Went? ==> Staged(e.host, e.run)
  {
    match run.pc
    case Authorizing(_) => AuthorizeKeepsStage(h, run);
    case Preparing(_) => PrepareKeepsStage(h, run);
    case Migrating(_) => MigrateKeepsStage(h, run);
    case Adopting(_) => AdoptKeepsStage(h, run);
    case HandingOff(_) => HandoffKeepsStage(h, run);
    case _ => HandlersHaveNoStage(h, run);
  }

  lemma {:induction false} StepKeepsStage(s: State, a: Action)
    requires s.run.Some? ==> Staged(s.host, s.run.value)
    ensures Step(s, a).run.Some? ==> Staged(Step(s, a).host, Step(s, a).run.value)
  {
    if a.Advance? && s.run.Some? {
      var h := Later(s.host, a.tick);
      EffectKeepsStage(h, s.run.value);
      HandleSidelines(h, s.run.value);
      HandleSidelines(EffectOf(h, s.run.value).host, s.run.value);
    }
  }

  lemma {:induction false} HistoryKeepsStage(s: State, actions: seq<Action>)
    requires s.run.Some? ==> Staged(s.host, s.run.value)
    ensures var t := After(s, actions); t.run.Some? ==> Staged(t.host, t.run.value)
    decreases |actions|
  {
    if actions == [] {
    } else {
      StepKeepsStage(s, actions[0]);
      HistoryKeepsStage(Step(s, actions[0]), actions[1..]);
    }
  }

  /** The transaction itself checks the kill switch and the schema, whatever was checked before. */
  lemma {:induction false} OnlyAdoptionCommits(h: Host, run: Run)
    requires EffectOf(h, run).host.batches != h.batches
    ensures run.pc == Adopting(CommitAdjustment) && h.killSwitch && h.schema
  {
    if !run.pc.Authorizing? && !run.pc.Migrating? && !run.pc.Adopting? {
      OthersKeepLedger(h, run);
    }
  }

  /**
   Over every history, the adjustment commits only on the selected candidate, with the service stopped, its
   environment set, the kill switch closed, the schema installed and MIGRATION_APPLIED recorded for it.
   */
  lemma {:induction false} CommitIsGuarded(s: State, actions: seq<Action>, a: Action)
    requires Initial(s)
    requires Step(After(s, actions), a).host.batches != After(s, actions).host.batches
    ensures var t := After(s, actions);
            && t.run.Some? && t.run.value.pc == Adopting(CommitAdjustment)
            && var h, i := t.host, Target(t.run.value.args);
               && h.service.Stopped? && h.env == Environment(false, Some(true)) && h.killSwitch
               && h.current == OfCommit(i.commit) && h.schema && h.batches == 0
               && h.marker.Some? && Validate(h.marker.value, i, Present) == Some(MigrationApplied)
  {
    HistoryKeepsInv(s, actions);
    HistoryKeepsStage(s, actions);
    var t := After(s, actions);
    if Stuck(t) {
      StepStaysRefused(t, a, t.host, Step(t, a));
    }
    var h := Later(t.host, a.tick);
    HandleSidelines(h, t.run.value);
    HandleSidelines(EffectOf(h, t.run.value).host, t.run.value);
    OnlyAdoptionCommits(h, t.run.value);
  }

  /** Only the migration installs the schema, and only on a marker that is valid for the attempt. */
  lemma {:induction false} OnlyMigrationInstalls(h: Host, run: Run)
    requires EffectOf(h, run).host.schema != h.schema
    ensures run.pc == Migrating(RunMigration)
    ensures h.marker.Some? && Validate(h.marker.value, Target(run.args), Boundary(h.schema)).Some?
  {
    if !run.pc.Authorizing? && !run.pc.Migrating? && !run.pc.Adopting? {
      OthersKeepLedger(h, run);
    }
  }

  /** An attempt finishes only on its selected candidate with closed gates, whoever changed the host meanwhile. */
  lemma {:induction false} FinishIsVerified(h: Host, run: Run)
    requires MainLine(run.pc) && EffectOf(h, run).Finished?
    ensures run.release == Some(h.current) && h.killSwitch && h.env == Environment(false, Some(true))
    ensures EffectOf(h, run).host == h
  {
  }

  /** The rows are built only with the kill switch closed, and behind them it is closed again. */
  lemma {:induction false} GatesAreReadAgain(h: Host, run: Run)
    ensures run.pc == Adopting(BuildRows) && EffectOf(h, run).Went? ==> h.killSwitch
    ensures run.pc == Adopting(CloseGatesAgain) ==> EffectOf(h, run).host.killSwitch
  {
  }
}
