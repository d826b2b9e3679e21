/**
 The durable resume marker of the position-adoption cutover: its JSON shape, the
 recursive validator and the five writers.

 A marker is a JSON object. Every key the format knows is a field here, and a key that is
 not in the object holds Missing; `foreign` stands for the keys the format does not know. Texts
 are represented by what the validator can observe of them. A payload is hashed by a free
 constructor, so the digest is injective and nothing else is known of it. A raised CutoverError
 is `None`.
 */
module ResumeMarker {
  import opened Outcomes

  datatype Digest = OfFile(id: nat) | OfMarker(payload: Marker)

  /**
   The constant texts of the format are constructors of their own; Word numbers the other texts.
   Two stamps of one instant may be rendered differently; the script renders form 0.
   */
  datatype Text =
    | SchemaV1 | CutoverActor | CutoverScript | Migration0016
    | PhaseName(phase: Phase)
    | Hex40(commit: nat)
    | Hex64(digest: Digest)
    | Stamp(instant: int, rendering: nat)
    | Word(id: nat)

  datatype Value = Missing | Null | Str(text: Text) | Scalar(id: nat) | Object(marker: Marker)
  {
    /** dict.get returned None. */
    predicate IsNone() { Missing? || Null? }

    predicate IsHex40() { Str? && text.Hex40? }

    predicate IsHex64() { Str? && text.Hex64? }

    predicate IsStamp() { Str? && text.Stamp? }
  }

  /** RESUME_IDENTITY_KEYS. */
  datatype IdentityFields = IdentityFields(
    schema: Value, actor: Value, commit: Value, binary: Value,
    scriptPath: Value, script: Value, migrationPath: Value, migration: Value)

  /** RESUME_SUPERSEDE_AUDIT_KEYS. */
  datatype SupersedeAudit = SupersedeAudit(source: Value, sha256: Value, at: Value)

  /** MIGRATION_APPLIED_RESUME_AUDIT_KEYS. */
  datatype ResumeAudit = ResumeAudit(source: Value, sha256: Value, commit: Value, script: Value, at: Value)

  datatype Marker = Marker(
    identity: IdentityFields,
    phase: Value, preparedAt: Value, appliedAt: Value, committedAt: Value,
    supersede: SupersedeAudit, resume: ResumeAudit,
    foreign: nat)

  datatype Phase = Prepared | MigrationApplied | AdoptionCommitted

  datatype SchemaState = Absent | Present | Committed

  /** The identities that pass validate_resume_identity: the other identity fields are constants. */
  datatype Identity = Identity(commit: nat, binary: Digest, script: Digest, migration: Digest)

  const NO_SUPERSEDE := SupersedeAudit(Missing, Missing, Missing)
  const NO_RESUME := ResumeAudit(Missing, Missing, Missing, Missing, Missing)

  function Fields(i: Identity): IdentityFields {
    IdentityFields(Str(SchemaV1), Str(CutoverActor), Str(Hex40(i.commit)), Str(Hex64(i.binary)),
                   Str(CutoverScript), Str(Hex64(i.script)), Str(Migration0016), Str(Hex64(i.migration)))
  }

  /** validate_resume_identity. */
  function ReadIdentity(f: IdentityFields): (r: Option<Identity>)
    ensures forall i :: r == Some(i) <==> f == Fields(i)
  {
    if && f.schema == Str(SchemaV1) && f.actor == Str(CutoverActor)
       && f.commit.IsHex40() && f.binary.IsHex64()
       && f.scriptPath == Str(CutoverScript) && f.script.IsHex64()
       && f.migrationPath == Str(Migration0016) && f.migration.IsHex64()
    then Some(Identity(f.commit.text.commit, f.binary.text.digest, f.script.text.digest, f.migration.text.digest))
    else None
  }

  /** Some key of the audit is present. */
  predicate Superseded(m: Marker) {
    m.supersede != NO_SUPERSEDE
  }

  predicate Resumed(m: Marker) {
    m.resume != NO_RESUME
  }

  predicate SupersedeAuditValid(m: Marker, expected: Identity)
    decreases m, 0
  {
    && m.supersede.source.Object?
    && !Superseded(m.supersede.source.marker)
    && var identity := ReadIdentity(m.supersede.source.marker.identity);
    && identity.Some?
    && Validate(m.supersede.source.marker, identity.value, Absent) == Some(Prepared)
    && m.supersede.sha256.IsHex64()
    && m.supersede.at.IsStamp()
    && identity.value.commit != expected.commit
    && identity.value.migration == expected.migration
    && m.supersede.at == m.preparedAt
  }

  predicate ResumeAuditValid(m: Marker, expected: Identity)
    decreases m, 0
  {
    && m.resume.source.Object?
    && var previous := m.resume.source.marker;
    && !Resumed(previous)
    && Validate(previous, expected, Present) == Some(MigrationApplied)
    && m.resume.sha256 == Str(Hex64(OfMarker(previous)))
    && m.resume.commit.IsHex40() && m.resume.commit.text.commit != expected.commit
    && m.resume.script.IsHex64() && m.resume.script.text.digest != expected.script
    && m.resume.at.IsStamp() && previous.appliedAt.IsStamp()
    && previous.appliedAt.text.instant <= m.resume.at.text.instant
    && m.preparedAt == previous.preparedAt
    && m.appliedAt == previous.appliedAt
  }

  /** The phase the marker names, when it carries exactly the timestamps of that phase. */
  function TimedPhase(m: Marker): Option<Phase> {
    if !m.preparedAt.IsStamp() || !m.phase.Str? || !m.phase.text.PhaseName? then None
    else
      var phase := m.phase.text.phase;
      if match phase
         case Prepared => m.appliedAt.IsNone() && m.committedAt.IsNone()
         case MigrationApplied => m.appliedAt.IsStamp() && m.committedAt.IsNone()
         case AdoptionCommitted => m.appliedAt.IsStamp() && m.committedAt.IsStamp()
      then Some(phase)
      else None
  }

  predicate BoundaryAllows(phase: Phase, state: SchemaState) {
    match state
    case Absent => phase.Prepared?
    case Present => phase.Prepared? || phase.MigrationApplied?
    case Committed => phase.AdoptionCommitted?
  }

  /** validate_migration_resume_marker. */
  function Validate(m: Marker, expected: Identity, state: SchemaState): (r: Option<Phase>)
    ensures r.Some? ==> r == TimedPhase(m) && m.identity == Fields(expected) && BoundaryAllows(r.value, state)
    decreases m, 1
  {
    var phase := TimedPhase(m);
    if && m.foreign == 0
       && ReadIdentity(m.identity) == Some(expected)
       && (Superseded(m) ==> SupersedeAuditValid(m, expected))
       && (Resumed(m) ==> ResumeAuditValid(m, expected))
       && phase.Some?
       && (Resumed(m) ==> !phase.value.Prepared?)
       && BoundaryAllows(phase.value, state)
    then phase
    else None
  }

  // ----- the writers

  function Rendered(now: int): Value {
    Str(Stamp(now, 0))
  }

  function PreparedMarker(i: Identity, now: int): Marker {
    Marker(Fields(i), Str(PhaseName(Prepared)), Rendered(now), Missing, Missing, NO_SUPERSEDE, NO_RESUME, 0)
  }

  function SupersededMarker(previous: Marker, i: Identity, now: int): Marker {
    PreparedMarker(i, now).(
      supersede := SupersedeAudit(Object(previous), Str(Hex64(OfMarker(previous))), Rendered(now)))
  }

  function AppliedMarker(m: Marker, now: int): Marker {
    m.(phase := Str(PhaseName(MigrationApplied)), appliedAt := Rendered(now))
  }

  function ResumedMarker(m: Marker, commit: nat, script: Digest, now: int): Marker {
    m.(resume := ResumeAudit(Object(m), Str(Hex64(OfMarker(m))), Str(Hex40(commit)), Str(Hex64(script)),
                             Rendered(now)))
  }

  function CommittedMarker(m: Marker, now: int): Marker {
    m.(phase := Str(PhaseName(AdoptionCommitted)), committedAt := Rendered(now))
  }

  // ----- what the validator accepts, whoever wrote it

  function Values(m: Marker): seq<Value> {
    var i := m.identity;
    [i.schema, i.actor, i.commit, i.binary, i.scriptPath, i.script, i.migrationPath, i.migration,
     m.phase, m.preparedAt, m.appliedAt, m.committedAt,
     m.supersede.source, m.supersede.sha256, m.supersede.at,
     m.resume.source, m.resume.sha256, m.resume.commit, m.resume.script, m.resume.at]
  }

  /** No object sits deeper than n levels inside the marker. */
  ghost predicate NestedAtMost(m: Marker, n: nat)
    decreases n
  {
    forall v :: v in Values(m) && v.Object? ==> n > 0 && NestedAtMost(v.marker, n - 1)
  }

  /** An accepted marker holds objects only as the sources of its two audits. */
  lemma {:induction false} AcceptedObjects(m: Marker, i: Identity, state: SchemaState, v: Value)
    requires Validate(m, i, state).Some?
    requires v in Values(m) && v.Object?
    ensures || (v == m.supersede.source && Superseded(m))
            || (v == m.resume.source && Resumed(m))
  {
  }

  /** Superseding happens once: an accepted PREPARED marker embeds at most one plain PREPARED. */
  lemma {:induction false} AcceptedPrepared(m: Marker, i: Identity, state: SchemaState)
    requires Validate(m, i, state) == Some(Prepared)
    ensures !Resumed(m)
    ensures !Superseded(m) ==> NestedAtMost(m, 0)
    ensures NestedAtMost(m, 1)
    decreases m
  {
    forall v | v in Values(m) && v.Object?
      ensures Superseded(m) && NestedAtMost(v.marker, 0)
    {
      AcceptedObjects(m, i, state, v);
      AcceptedPrepared(v.marker, ReadIdentity(v.marker.identity).value, Absent);
    }
  }

  /**
   What the audits of an accepted marker prove: a superseded PREPARED of another commit and the same
   migration, and an applied marker of the same identity and timestamps with its own digest.
   */
  lemma {:induction false} AcceptedAudits(m: Marker, i: Identity, state: SchemaState)
    requires Validate(m, i, state).Some?
    ensures Superseded(m) ==>
              && m.supersede.source.Object? && m.supersede.at == m.preparedAt
              && exists j :: && Validate(m.supersede.source.marker, j, Absent) == Some(Prepared)
                             && j.commit != i.commit && j.migration == i.migration
    ensures Resumed(m) ==>
              && m.resume.source.Object?
              && var before := m.resume.source.marker;
                 && Validate(before, i, Present) == Some(MigrationApplied)
                 && m.resume.sha256 == Str(Hex64(OfMarker(before)))
                 && m.resume.commit != m.identity.commit && m.resume.script != m.identity.script
                 && m.preparedAt == before.preparedAt && m.appliedAt == before.appliedAt
  {
    if Superseded(m) {
      var j := ReadIdentity(m.supersede.source.marker.identity).value;
      assert Validate(m.supersede.source.marker, j, Absent) == Some(Prepared);
    }
  }

  /**
   Every accepted marker embeds at most two levels: a recovery audit whose applied source
   carries a supersede audit of a plain PREPARED marker. No audit repeats down that chain.
   */
  lemma {:induction false} AcceptedNesting(m: Marker, i: Identity, state: SchemaState)
    requires Validate(m, i, state).Some?
    ensures NestedAtMost(m, 2)
    ensures !Resumed(m) ==> NestedAtMost(m, 1)
    ensures Superseded(m) ==>
              && m.supersede.source.Object?
              && !Superseded(m.supersede.source.marker) && !Resumed(m.supersede.source.marker)
    ensures Resumed(m) ==> m.resume.source.Object? && !Resumed(m.resume.source.marker)
    decreases m
  {
    if Superseded(m) {
      var source := m.supersede.source.marker;
      AcceptedPrepared(source, ReadIdentity(source.identity).value, Absent);
    }
    if Resumed(m) {
      AcceptedNesting(m.resume.source.marker, i, Present);
    }
    forall v | v in Values(m) && v.Object?
      ensures NestedAtMost(v.marker, 1)
      ensures !Resumed(m) ==> NestedAtMost(v.marker, 0)
    {
      AcceptedObjects(m, i, state, v);
    }
  }

  // ----- the accepted markers, without recursion

  /** Some rendering of some instant. */
  predicate IsInstant(v: Value) {
    v.Str? && v.text.Stamp?
  }

  /** Exactly the known keys, the identity, and the timestamps of the phase and of none behind it. */
  predicate Headed(m: Marker, i: Identity, phase: Phase) {
    && m.foreign == 0 && m.identity == Fields(i)
    && m.phase == Str(PhaseName(phase)) && IsInstant(m.preparedAt)
    && (if phase.Prepared? then m.appliedAt in {Missing, Null} else IsInstant(m.appliedAt))
    && (if phase.AdoptionCommitted? then IsInstant(m.committedAt) else m.committedAt in {Missing, Null})
  }

  /** The audit of m embeds p, a PREPARED of another commit j and the same migration, under any digest. */
  predicate EmbedsPrepared(m: Marker, i: Identity, p: Marker, j: Identity) {
    && m.supersede == SupersedeAudit(Object(p), m.supersede.sha256, m.preparedAt)
    && m.supersede.sha256.Str? && m.supersede.sha256.text.Hex64?
    && Headed(p, j, Prepared) && p.supersede == NO_SUPERSEDE && p.resume == NO_RESUME
    && j.commit != i.commit && j.migration == i.migration
  }

  ghost predicate SupersedesOrNot(m: Marker, i: Identity) {
    m.supersede == NO_SUPERSEDE || exists p, j :: EmbedsPrepared(m, i, p, j)
  }

  /** The audit of m embeds q, an applied marker of the same identity and timestamps, under its own digest. */
  ghost predicate EmbedsApplied(m: Marker, i: Identity, q: Marker) {
    && m.resume == ResumeAudit(Object(q), Str(Hex64(OfMarker(q))), m.resume.commit, m.resume.script, m.resume.at)
    && m.resume.commit.Str? && m.resume.commit.text.Hex40? && m.resume.commit != Str(Hex40(i.commit))
    && m.resume.script.Str? && m.resume.script.text.Hex64? && m.resume.script != Str(Hex64(i.script))
    && IsInstant(m.resume.at)
    && Headed(q, i, MigrationApplied) && q.resume == NO_RESUME && SupersedesOrNot(q, i)
    && q.preparedAt == m.preparedAt && q.appliedAt == m.appliedAt
    && q.appliedAt.text.instant <= m.resume.at.text.instant
  }

  lemma {:induction false} TimedIsHeaded(m: Marker, i: Identity, phase: Phase)
    requires m.foreign == 0 && m.identity == Fields(i)
    ensures TimedPhase(m) == Some(phase) <==> Headed(m, i, phase)
  {
  }

  lemma {:induction false} PreparedExactly(p: Marker, j: Identity)
    requires !Superseded(p)
    ensures Validate(p, j, Absent) == Some(Prepared) <==> Headed(p, j, Prepared) && p.resume == NO_RESUME
  {
    if p.foreign == 0 && p.identity == Fields(j) {
      TimedIsHeaded(p, j, Prepared);
    }
  }

  lemma {:induction false} SupersedeExactly(m: Marker, i: Identity)
    requires m.preparedAt.IsStamp()
    ensures (Superseded(m) ==> SupersedeAuditValid(m, i)) <==> SupersedesOrNot(m, i)
  {
    if Superseded(m) {
      if SupersedeAuditValid(m, i) {
        var p := m.supersede.source.marker;
        var j := ReadIdentity(p.identity).value;
        PreparedExactly(p, j);
        assert EmbedsPrepared(m, i, p, j);
      }
      if SupersedesOrNot(m, i) {
        var p, j :| EmbedsPrepared(m, i, p, j);
        assert ReadIdentity(p.identity) == Some(j);
        PreparedExactly(p, j);
      }
    }
  }

  lemma {:induction false} AppliedExactly(q: Marker, i: Identity)
    requires !Resumed(q)
    ensures Validate(q, i, Present) == Some(MigrationApplied)
            <==> Headed(q, i, MigrationApplied) && SupersedesOrNot(q, i)
  {
    if q.foreign == 0 && q.identity == Fields(i) {
      TimedIsHeaded(q, i, MigrationApplied);
      if q.preparedAt.IsStamp() {
        SupersedeExactly(q, i);
      }
    }
  }

  lemma {:induction false} ResumeExactly(m: Marker, i: Identity)
    ensures ResumeAuditValid(m, i) <==> exists q :: EmbedsApplied(m, i, q)
  {
    if m.resume.source.Object? && !Resumed(m.resume.source.marker) {
      var q := m.resume.source.marker;
      AppliedExactly(q, i);
      if ResumeAuditValid(m, i) {
        assert EmbedsApplied(m, i, q);
      }
    }
  }

  /**
   The recursive validator accepts exactly the markers of this grammar: the head of the phase, at most
   one supersede audit of a plain PREPARED, and behind the migration at most one recovery audit of an
   applied marker that may itself carry a supersede audit.
   */
  lemma {:induction false} ValidatesExactly(m: Marker, i: Identity, state: SchemaState, phase: Phase)
    ensures Validate(m, i, state) == Some(phase)
            <==> && Headed(m, i, phase)
                 && (state.Absent? ==> phase.Prepared?)
                 && (state.Committed? <==> phase.AdoptionCommitted?)
                 && SupersedesOrNot(m, i)
                 && (m.resume == NO_RESUME || (!phase.Prepared? && exists q :: EmbedsApplied(m, i, q)))
  {
    if m.foreign == 0 && m.identity == Fields(i) {
      TimedIsHeaded(m, i, phase);
      assert ReadIdentity(m.identity) == Some(i);
      if m.preparedAt.IsStamp() {
        SupersedeExactly(m, i);
      }
      ResumeExactly(m, i);
    }
  }

  /**
   The validator checks that a supersede audit names some SHA-256, not that it is the one of
   the embedded marker: with any other digest in its place the verdict is the same.
   */
  lemma {:induction false} SupersedeDigestIsUnchecked(m: Marker, i: Identity, state: SchemaState, d: Digest)
    requires m.supersede.sha256.IsHex64()
    ensures Validate(m.(supersede := m.supersede.(sha256 := Str(Hex64(d)))), i, state) == Validate(m, i, state)
  {
    var m' := m.(supersede := m.supersede.(sha256 := Str(Hex64(d))));
    assert SupersedeAuditValid(m', i) == SupersedeAuditValid(m, i);
    assert ResumeAuditValid(m', i) == ResumeAuditValid(m, i);
  }

  /** A marker the validator accepts although its supersede audit names the digest of some file. */
  function ForgedMarker(): Marker {
    var before, after := Identity(1, OfFile(1), OfFile(2), OfFile(3)), Identity(2, OfFile(1), OfFile(2), OfFile(3));
    var m := SupersededMarker(PreparedMarker(before, 0), after, 1);
    m.(supersede := m.supersede.(sha256 := Str(Hex64(OfFile(0)))))
  }

  lemma ForgedDigestIsAccepted()
    ensures Validate(ForgedMarker(), Identity(2, OfFile(1), OfFile(2), OfFile(3)), Absent) == Some(Prepared)
    ensures !SupersedeDigestHolds(ForgedMarker())
  {
    var before, after := Identity(1, OfFile(1), OfFile(2), OfFile(3)), Identity(2, OfFile(1), OfFile(2), OfFile(3));
    var m := SupersededMarker(PreparedMarker(before, 0), after, 1);
    SupersededIsValid(PreparedMarker(before, 0), before, after, 1);
    SupersedeDigestIsUnchecked(m, after, Absent, OfFile(0));
  }

  /** The supersede audit, if any, names the digest of the marker it embeds. */
  predicate SupersedeDigestHolds(m: Marker) {
    Superseded(m) ==>
      m.supersede.source.Object? && m.supersede.sha256 == Str(Hex64(OfMarker(m.supersede.source.marker)))
  }

  // ----- what the writers produce validates at its boundary

  lemma PreparedIsValid(i: Identity, now: int, state: SchemaState)
    requires !state.Committed?
    ensures Validate(PreparedMarker(i, now), i, state) == Some(Prepared)
  {
  }

  /** A PREPARED marker is accepted before the migration exactly when it is accepted after it. */
  lemma {:induction false} PreparedAtBothBoundaries(m: Marker, i: Identity)
    ensures Validate(m, i, Absent) == Some(Prepared) <==> Validate(m, i, Present) == Some(Prepared)
  {
  }

  /** Superseding yields a valid PREPARED marker exactly for another commit of the same migration. */
  lemma {:induction false} SupersededIsValid(previous: Marker, before: Identity, i: Identity, now: int)
    requires Validate(previous, before, Absent) == Some(Prepared)
    requires !Superseded(previous)
    ensures Validate(SupersededMarker(previous, i, now), i, Absent) == Some(Prepared)
            <==> before.commit != i.commit && before.migration == i.migration
  {
    var m := SupersededMarker(previous, i, now);
    assert SupersedeAuditValid(m, i) <==> before.commit != i.commit && before.migration == i.migration;
  }

  lemma {:induction false} AppliedIsValid(m: Marker, i: Identity, now: int)
    requires Validate(m, i, Absent) == Some(Prepared)
    ensures Validate(AppliedMarker(m, now), i, Present) == Some(MigrationApplied)
  {
    assert SupersedeAuditValid(AppliedMarker(m, now), i) == SupersedeAuditValid(m, i);
  }

  /**
   The recovery audit is appended before it is validated. The new marker is valid exactly when
   the recovery script is another commit and another file and the clock has not gone back.
   */
  lemma {:induction false} ResumedIsValid(m: Marker, i: Identity, commit: nat, script: Digest, now: int)
    requires Validate(m, i, Present) == Some(MigrationApplied)
    requires !Resumed(m)
    ensures Validate(ResumedMarker(m, commit, script, now), i, Present) == Some(MigrationApplied)
            <==> commit != i.commit && script != i.script && m.appliedAt.text.instant <= now
  {
    var m' := ResumedMarker(m, commit, script, now);
    assert SupersedeAuditValid(m', i) == SupersedeAuditValid(m, i);
    assert ResumeAuditValid(m', i) <==>
           commit != i.commit && script != i.script && m.appliedAt.text.instant <= now;
  }

  /** No identity and no boundary accepts the marker. */
  ghost predicate Unreadable(m: Marker) {
    forall i, state :: Validate(m, i, state).None?
  }

  /** An appended recovery audit that does not validate leaves a marker that nothing accepts any more. */
  lemma {:induction false} ResumedIsUnreadable(m: Marker, i: Identity, commit: nat, script: Digest, now: int)
    requires Validate(m, i, Present) == Some(MigrationApplied)
    requires !Resumed(m)
    ensures Unreadable(ResumedMarker(m, commit, script, now))
            <==> commit == i.commit || script == i.script || now < m.appliedAt.text.instant
  {
    var m' := ResumedMarker(m, commit, script, now);
    ResumedIsValid(m, i, commit, script, now);
    forall j, state | Validate(m', j, state).Some? ensures j == i && state == Present {
      assert ReadIdentity(m'.identity) == Some(j) && ReadIdentity(m.identity) == Some(i);
    }
  }

  lemma {:induction false} CommittedIsValid(m: Marker, i: Identity, now: int)
    requires Validate(m, i, Present) == Some(MigrationApplied)
    ensures Validate(CommittedMarker(m, now), i, Committed) == Some(AdoptionCommitted)
  {
    var m' := CommittedMarker(m, now);
    assert SupersedeAuditValid(m', i) == SupersedeAuditValid(m, i);
    assert ResumeAuditValid(m', i) == ResumeAuditValid(m, i);
  }
}
