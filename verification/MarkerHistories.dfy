/** What the marker of a later state owes to the marker of an earlier one, over every history. */
module MarkerHistories {
  import opened Outcomes
  import opened ResumeMarker
  import opened MarkerStore
  import opened Cutover
  import opened CutoverSafety
  import opened CutoverHistories

  // ----- one write

  /** An unsuperseded PREPARED gives way to a new PREPARED that embeds it unchanged, with its digest. */
  predicate Supersedes(m: Marker, n: Marker, now: int) {
    && TimedPhase(m) == Some(Prepared) && !Superseded(m)
    && TimedPhase(n) == Some(Prepared) && !Resumed(n)
    && n.preparedAt == Rendered(now)
    && n.supersede == SupersedeAudit(Object(m), Str(Hex64(OfMarker(m))), n.preparedAt)
  }

  /** Only the phase and its own timestamp change. */
  predicate Applies(m: Marker, n: Marker, now: int) {
    && TimedPhase(m) == Some(Prepared) && TimedPhase(n) == Some(MigrationApplied)
    && n == m.(phase := n.phase, appliedAt := Rendered(now))
  }

  /** An applied marker is embedded unchanged, with its digest, next to everything it held. */
  predicate Resumes(m: Marker, n: Marker, now: int) {
    && TimedPhase(m) == Some(MigrationApplied) && !Resumed(m)
    && n == m.(resume := n.resume) && n.resume.at == Rendered(now)
    && n.resume.source == Object(m) && n.resume.sha256 == Str(Hex64(OfMarker(m)))
  }

  predicate CommitsMarker(m: Marker, n: Marker, now: int) {
    && TimedPhase(m) == Some(MigrationApplied) && TimedPhase(n) == Some(AdoptionCommitted)
    && n == m.(phase := n.phase, committedAt := Rendered(now))
  }

  predicate Evolves(m: Marker, n: Marker, now: int) {
    n == m || Supersedes(m, n, now) || Applies(m, n, now) || Resumes(m, n, now) || CommitsMarker(m, n, now)
  }

  /** The first marker is a plain PREPARED. Every write is stamped with the clock reading of its step. */
  predicate FileEvolves(before: Option<Marker>, after: Option<Marker>, now: int) {
    || after == before
    || (&& before.None? && after.Some? && Rank(after) == 1 && after.value.preparedAt == Rendered(now)
        && !Superseded(after.value) && !Resumed(after.value))
    || (before.Some? && after.Some? && Evolves(before.value, after.value, now))
  }

  lemma {:induction false} SupersedeEvolves(
    file: Option<Marker>, schema: bool, batches: nat, i: Identity, approvedCommit: nat, approvedSha: Digest, now: int)
    ensures FileEvolves(file, SupersedeResult(file, schema, batches, i, approvedCommit, approvedSha, now).file, now)
  {
  }

  lemma {:induction false} AuthorizeEvolves(
    file: Option<Marker>, runtime: Identity, approvedSha: Digest, commit: nat, script: Digest, now: int)
    ensures FileEvolves(file, AuthorizeResult(file, runtime, approvedSha, commit, script, now).file, now)
  {
  }

  lemma {:induction false} OtherWritesEvolve(file: Option<Marker>, schema: bool, batches: nat, i: Identity, now: int)
    ensures FileEvolves(file, RequireStateResult(file, schema, batches, i, now).file, now)
    ensures FileEvolves(file, CommitResult(file, i, now).file, now)
    ensures file.Some? && TimedPhase(file.value) == Some(Prepared) ==>
              FileEvolves(file, Some(AppliedMarker(file.value, now)), now)
  {
  }

  lemma {:induction false} AuthorizeEffectEvolves(h: Host, run: Run, step: AuthorizeStep)
    ensures FileEvolves(h.marker, AuthorizeEffect(h, run, step).host.marker, h.clock)
  {
    var i, mode := Target(run.args), run.args.mode;
    OtherWritesEvolve(h.marker, h.schema, h.batches, i, h.clock);
    match mode
    case SupersedePrepared(approvedCommit, approvedSha) =>
      SupersedeEvolves(h.marker, h.schema, h.batches, i, approvedCommit, approvedSha, h.clock);
    case ResumeMigrationApplied(runtime, approvedSha) =>
      AuthorizeEvolves(h.marker, i, approvedSha, run.args.script.commit, run.args.script.script, h.clock);
    case _ =>
  }

  lemma {:induction false} MigrateEffectEvolves(h: Host, run: Run, step: MigrateStep)
    ensures FileEvolves(h.marker, MigrateEffect(h, run, step).host.marker, h.clock)
  {
    OtherWritesEvolve(h.marker, h.schema, h.batches, Target(run.args), h.clock);
  }

  lemma {:induction false} AdoptEffectEvolves(h: Host, run: Run, step: AdoptStep)
    ensures FileEvolves(h.marker, AdoptEffect(h, run, step).host.marker, h.clock)
  {
    OtherWritesEvolve(h.marker, h.schema, h.batches, Target(run.args), h.clock);
  }

  /** Every step of an attempt writes the marker at most once, and only so. */
  lemma {:induction false} EffectEvolves(h: Host, run: Run)
    ensures FileEvolves(h.marker, EffectOf(h, run).host.marker, h.clock)
  {
    match run.pc
    case Authorizing(step) => AuthorizeEffectEvolves(h, run, step);
    case Migrating(step) => MigrateEffectEvolves(h, run, step);
    case Adopting(step) => AdoptEffectEvolves(h, run, step);
    case _ => OthersKeepMarker(h, run);
  }

  lemma {:induction false} OthersKeepMarker(h: Host, run: Run)
    requires !run.pc.Authorizing? && !run.pc.Migrating? && !run.pc.Adopting?
    ensures EffectOf(h, run).host.marker == h.marker
  {
    OthersKeepLedger(h, run);
  }

  /** No step reads the clock twice. */
  lemma {:induction false} EffectKeepsClock(h: Host, run: Run)
    ensures EffectOf(h, run).host.clock == h.clock
  {
    match run.pc
    case Authorizing(_) =>
    case Migrating(_) =>
    case Adopting(_) =>
    case _ => OthersKeepLedger(h, run);
  }

  lemma {:induction false} AdvancedEvolves(h: Host, run: Run, fault: Fault)
    ensures FileEvolves(h.marker, Advanced(h, run, fault).host.marker, h.clock)
    ensures Advanced(h, run, fault).host.clock == h.clock
  {
    EffectEvolves(h, run);
    EffectKeepsClock(h, run);
    HandleSidelines(h, run);
    HandleSidelines(EffectOf(h, run).host, run);
  }

  /** So does every action, whatever fails and whoever acts. */
  lemma {:induction false} StepEvolves(s: State, a: Action)
    ensures FileEvolves(s.host.marker, Step(s, a).host.marker, Step(s, a).host.clock)
    ensures s.host.clock <= Step(s, a).host.clock
  {
    if a.Advance? && s.run.Some? {
      AdvancedEvolves(Later(s.host, a.tick), s.run.value, a.fault);
    }
  }

  // ----- a whole history

  /** n is m with later phases and audits added: what m already held is there unchanged. */
  predicate Extends(m: Marker, n: Marker) {
    && n == m.(phase := n.phase, appliedAt := n.appliedAt, committedAt := n.committedAt, resume := n.resume)
    && Rank(Some(m)) <= Rank(Some(n))
    && (Rank(Some(n)) == 1 ==> n == m)
    && (Rank(Some(m)) >= 2 ==> n.appliedAt == m.appliedAt)
    && (Rank(Some(m)) == 3 ==> n == m)
    && (Resumed(m) ==> n.resume == m.resume)
  }

  /** n goes back to a PREPARED that superseded m and embeds m unchanged, with its digest. */
  predicate Replaces(m: Marker, n: Marker) {
    && Rank(Some(m)) == 1 && !Superseded(m) && Rank(Some(n)) >= 1
    && n.supersede == SupersedeAudit(Object(m), Str(Hex64(OfMarker(m))), n.preparedAt)
  }

  predicate Descends(m: Marker, n: Marker) {
    Extends(m, n) || Replaces(m, n)
  }

  lemma {:induction false} DescentGrows(m: Marker, n: Marker, k: Marker, now: int)
    requires Rank(Some(m)) >= 1 && Descends(m, n) && Evolves(n, k, now)
    ensures Descends(m, k)
  {
    if Extends(m, n) {
      ExtensionGrows(m, n, k, now);
    }
  }

  lemma {:induction false} ExtensionGrows(m: Marker, n: Marker, k: Marker, now: int)
    requires Rank(Some(m)) >= 1 && Extends(m, n) && Evolves(n, k, now)
    ensures Descends(m, k)
  {
    if Supersedes(n, k, now) {
      assert n == m;
    }
  }

  lemma AfterOne(s: State, a: Action)
    ensures After(s, [a]) == Step(s, a)
  {
    assert After(Step(s, a), [a][1..]) == Step(s, a);
  }

  lemma {:induction false} AfterLast(s: State, actions: seq<Action>)
    requires actions != []
    ensures After(s, actions) == Step(After(s, actions[..|actions| - 1]), actions[|actions| - 1])
  {
    var front, last := actions[..|actions| - 1], actions[|actions| - 1];
    assert actions == front + [last];
    AfterConcat(s, front, [last]);
    AfterOne(After(s, front), last);
  }

  /** Whatever happens, a marker is never lost and every later one descends from it. */
  lemma {:induction false} MarkerDescends(s: State, actions: seq<Action>)
    requires s.host.marker.Some? && Rank(s.host.marker) >= 1
    ensures var later := After(s, actions).host.marker;
            later.Some? && Descends(s.host.marker.value, later.value)
    decreases |actions|
  {
    if actions == [] {
    } else {
      var front := actions[..|actions| - 1];
      MarkerDescends(s, front);
      AfterLast(s, actions);
      StepEvolves(After(s, front), actions[|actions| - 1]);
      DescentGrows(s.host.marker.value, After(s, front).host.marker.value, After(s, actions).host.marker.value,
                   After(s, actions).host.clock);
    }
  }

  /** From a clean host, the marker of any state is a written phase, and its supersede audit names the right digest. */
  ghost predicate WellWritten(file: Option<Marker>) {
    file.Some? ==> Rank(file) >= 1 && SupersedeDigestHolds(file.value)
  }

  lemma {:induction false} MarkersAreWritten(s: State, actions: seq<Action>)
    requires Initial(s)
    ensures WellWritten(After(s, actions).host.marker)
    decreases |actions|
  {
    if actions == [] {
    } else {
      MarkersAreWritten(s, actions[..|actions| - 1]);
      AfterLast(s, actions);
      StepEvolves(After(s, actions[..|actions| - 1]), actions[|actions| - 1]);
    }
  }

  /**
   Over every history the script itself never writes a supersede audit with another digest than the
   one of the marker it embeds. The validator does not look, so only a file from elsewhere can have one.
   */
  lemma {:induction false} SupersedeDigestsHold(s: State, actions: seq<Action>)
    requires Initial(s) && After(s, actions).host.marker.Some?
    ensures SupersedeDigestHolds(After(s, actions).host.marker.value)
  {
    MarkersAreWritten(s, actions);
  }

  /**
   Between any two points of a history: the identity, the timestamps and the audits of the earlier
   marker are kept, except where a PREPARED was superseded, and then it is embedded unchanged.
   */
  lemma {:induction false} EarlierPhasesAreKept(s: State, first: seq<Action>, second: seq<Action>)
    requires Initial(s) && After(s, first).host.marker.Some?
    ensures var earlier, later := After(s, first).host.marker, After(s, first + second).host.marker;
            && later.Some? && Descends(earlier.value, later.value)
            && (Rank(earlier) >= 2 || Superseded(earlier.value) ==>
                  && later.value.identity == earlier.value.identity
                  && later.value.preparedAt == earlier.value.preparedAt
                  && later.value.supersede == earlier.value.supersede)
            && (Rank(earlier) >= 2 ==> later.value.appliedAt == earlier.value.appliedAt)
            && (Rank(earlier) == 3 ==> later == earlier)
  {
    MarkersAreWritten(s, first);
    AfterConcat(s, first, second);
    MarkerDescends(After(s, first), second);
  }

  lemma EvolvesByOnePhase(before: Option<Marker>, after: Option<Marker>, now: int)
    requires WellWritten(before) && FileEvolves(before, after, now)
    ensures Rank(before) <= Rank(after) <= Rank(before) + 1
  {
  }

  /** No phase is skipped: a history that has reached a phase has been in every phase before it. */
  lemma {:induction false} NoPhaseIsSkipped(s: State, actions: seq<Action>, k: nat) returns (n: nat)
    requires Initial(s) && k <= Rank(After(s, actions).host.marker)
    ensures n <= |actions| && Rank(After(s, actions[..n]).host.marker) == k
    decreases |actions|
  {
    if Rank(After(s, actions).host.marker) == k {
      n := |actions|;
      assert actions[..n] == actions;
    } else {
      var front := actions[..|actions| - 1];
      MarkersAreWritten(s, front);
      AfterLast(s, actions);
      StepEvolves(After(s, front), actions[|actions| - 1]);
      EvolvesByOnePhase(After(s, front).host.marker, After(s, actions).host.marker, After(s, actions).host.clock);
      n := NoPhaseIsSkipped(s, front, k);
      assert front[..n] == actions[..n];
    }
  }

  // ----- who writes the marker

  /** The attempt writes markers of its own identity, and replaces one only with the approval of its digest. */
  predicate Approved(before: Option<Marker>, after: Option<Marker>, args: Args) {
    after != before ==>
      && after.Some? && after.value.identity == Fields(Target(args))
      && (Rank(before) == 1 && Rank(after) == 1 ==>
            && args.mode.SupersedePrepared? && args.mode.approvedSha == OfMarker(before.value)
            && before.value.identity.commit == Str(Hex40(args.mode.approvedCommit)))
      && (Rank(before) == 2 && Rank(after) == 2 ==>
            && args.mode.ResumeMigrationApplied? && args.mode.approvedSha == OfMarker(before.value)
            && after.value.resume.commit == Str(Hex40(args.script.commit))
            && after.value.resume.script == Str(Hex64(args.script.script)))
  }

  lemma {:induction false} AuthorizeIsApproved(h: Host, run: Run, step: AuthorizeStep)
    ensures Approved(h.marker, AuthorizeEffect(h, run, step).host.marker, run.args)
  {
    match step
    case AuthorizeApplied =>
    case SupersedeMarker =>
    case RequireResume =>
    case _ =>
  }

  lemma {:induction false} MigrateIsApproved(h: Host, run: Run)
    requires run.pc.Migrating? && LedgerInv(h, run)
    ensures Approved(h.marker, MigrateEffect(h, run, run.pc.migrate).host.marker, run.args)
  {
    match run.pc.migrate
    case EnterMigration =>
    case RecordApplied =>
    case _ =>
  }

  lemma {:induction false} EffectIsApproved(h: Host, run: Run)
    requires LedgerInv(h, run)
    ensures Approved(h.marker, EffectOf(h, run).host.marker, run.args)
  {
    match run.pc
    case Authorizing(step) => AuthorizeIsApproved(h, run, step);
    case Migrating(_) => MigrateIsApproved(h, run);
    case Adopting(_) =>
    case _ => OthersKeepMarker(h, run);
  }

  /** Over every history, whatever step changes the marker: a run does it, and with approval. */
  lemma {:induction false} WritesAreApproved(s: State, actions: seq<Action>, a: Action)
    requires Initial(s)
    ensures var before, after := After(s, actions), Step(After(s, actions), a);
            after.host.marker != before.host.marker ==>
              before.run.Some? && Approved(before.host.marker, after.host.marker, before.run.value.args)
  {
    HistoryKeepsInv(s, actions);
    var before := After(s, actions);
    if Stuck(before) {
      StepStaysRefused(before, a, before.host, Step(before, a));
    } else if a.Advance? && before.run.Some? {
      var h := Later(before.host, a.tick);
      LedgerOutlivesTime(before.host, before.run.value, a.tick);
      EffectIsApproved(h, before.run.value);
      HandleSidelines(h, before.run.value);
      HandleSidelines(EffectOf(h, before.run.value).host, before.run.value);
    }
  }

  // ----- the timestamps

  /** Every timestamp is behind the ones of the earlier phases and not ahead of the clock. */
  predicate TimesInOrder(m: Marker, clock: int) {
    && m.preparedAt.IsStamp() && m.preparedAt.text.instant <= clock
    && (Rank(Some(m)) >= 2 ==>
          m.appliedAt.IsStamp() && m.preparedAt.text.instant <= m.appliedAt.text.instant <= clock)
    && (Rank(Some(m)) == 3 ==>
          m.committedAt.IsStamp() && m.appliedAt.text.instant <= m.committedAt.text.instant <= clock)
    && (Superseded(m) ==>
          && m.supersede.source.Object? && m.supersede.source.marker.preparedAt.IsStamp()
          && m.supersede.source.marker.preparedAt.text.instant <= m.preparedAt.text.instant)
    && (Resumed(m) ==>
          && Rank(Some(m)) >= 2 && m.resume.at.IsStamp()
          && m.appliedAt.text.instant <= m.resume.at.text.instant <= clock
          && (Rank(Some(m)) == 3 ==> m.resume.at.text.instant <= m.committedAt.text.instant))
  }

  lemma {:induction false} EvolvesInOrder(m: Marker, n: Marker, clock: int, now: int)
    requires Rank(Some(m)) >= 1 && TimesInOrder(m, clock) && clock <= now && Evolves(m, n, now)
    ensures TimesInOrder(n, now)
  {
  }

  /** Over every history from a clean host the timestamps of the marker are in the order of its phases. */
  lemma {:induction false} TimestampsAreOrdered(s: State, actions: seq<Action>)
    requires Initial(s)
    ensures var h := After(s, actions).host; h.marker.Some? ==> TimesInOrder(h.marker.value, h.clock)
    decreases |actions|
  {
    if actions == [] {
    } else {
      var front, last := actions[..|actions| - 1], actions[|actions| - 1];
      TimestampsAreOrdered(s, front);
      MarkersAreWritten(s, front);
      AfterLast(s, actions);
      StepEvolves(After(s, front), last);
      var before, after := After(s, front).host, After(s, actions).host;
      if before.marker.Some? {
        EvolvesInOrder(before.marker.value, after.marker.value, before.clock, after.clock);
      }
    }
  }
}
