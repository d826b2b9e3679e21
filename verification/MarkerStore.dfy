/**
 The marker file next to the facts it must agree with: whether migration 0016 is installed
 and how many adjustment batches the database holds. The adjustment transaction writes the
 batch, its rows and the linked events together, so one count stands for all of them.
 */
module MarkerStore {
  import opened Outcomes
  import opened ResumeMarker

  function Boundary(schema: bool): SchemaState {
    if schema then Present else Absent
  }

  /** What a call left in the file, and whether it returned or raised. */
  datatype Written = Written(file: Option<Marker>, accepted: bool)

  /** supersede_prepared_resume_marker. */
  function SupersedeResult(file: Option<Marker>, schema: bool, batches: nat, i: Identity,
                           approvedCommit: nat, approvedSha: Digest, now: int): Written
  {
    if schema || batches != 0 || file.None? || approvedSha != OfMarker(file.value) then Written(file, false)
    else
      var before := ReadIdentity(file.value.identity);
      if && before.Some?
         && Validate(file.value, before.value, Absent) == Some(Prepared)
         && !Superseded(file.value)
         && before.value.commit == approvedCommit
         && before.value.commit != i.commit
         && before.value.migration == i.migration
      then Written(Some(SupersededMarker(file.value, i, now)), true)
      else Written(file, false)
  }

  /** require_resume_migration_state: an absent schema without a marker bootstraps one. */
  function RequireStateResult(file: Option<Marker>, schema: bool, batches: nat, i: Identity, now: int): Written {
    if batches != 0 then Written(file, false)
    else if file.None? then
      if schema then Written(file, false) else Written(Some(PreparedMarker(i, now)), true)
    else Written(file, Validate(file.value, i, Boundary(schema)).Some?)
  }

  /** authorize_migration_applied_resume_marker: the new marker is validated after it is written. */
  function AuthorizeResult(file: Option<Marker>, runtime: Identity, approvedSha: Digest,
                           commit: nat, script: Digest, now: int): Written
  {
    if file.None? || Validate(file.value, runtime, Present) != Some(MigrationApplied) then Written(file, false)
    else
      var m := file.value;
      if approvedSha != OfMarker(m) && !(Resumed(m) && m.resume.sha256 == Str(Hex64(approvedSha)))
      then Written(file, false)
      else if Resumed(m) then
        Written(file, m.resume.commit == Str(Hex40(commit)) && m.resume.script == Str(Hex64(script)))
      else
        var resumed := ResumedMarker(m, commit, script, now);
        Written(Some(resumed), Validate(resumed, runtime, Present) == Some(MigrationApplied))
  }

  /** mark_resume_adoption_committed. */
  function CommitResult(file: Option<Marker>, i: Identity, now: int): Written {
    if file.Some? && Validate(file.value, i, Present) == Some(MigrationApplied)
    then Written(Some(CommittedMarker(file.value, now)), true)
    else Written(file, false)
  }

  /** What a call of apply_migration_0016 left, and whether it returned. */
  datatype Migrated = Migrated(file: Option<Marker>, schema: bool, accepted: bool)

  function EnterResult(file: Option<Marker>, schema: bool, batches: nat, i: Identity, resume: bool, now: int): Written {
    if resume then RequireStateResult(file, schema, batches, i, now)
    else if schema || file.Some? then Written(file, false)
    else Written(Some(PreparedMarker(i, now)), true)
  }

  /** apply_migration_0016, entered and applied at these clock readings. */
  function ApplyResult(file: Option<Marker>, schema: bool, batches: nat, i: Identity, resume: bool,
                       entered: int, applied: int): Migrated
  {
    var w := EnterResult(file, schema, batches, i, resume, entered);
    if !w.accepted || w.file.None? then Migrated(w.file, schema, false)
    else
      match Validate(w.file.value, i, Boundary(schema))
      case None => Migrated(w.file, schema, false)
      case Some(phase) =>
        Migrated(Some(if phase.Prepared? then AppliedMarker(w.file.value, applied) else w.file.value), true, true)
  }

  // ----- the file agrees with the database

  /** Every marker in the file is valid at the boundary the database is at, and no further. */
  ghost predicate AtBoundary(file: Option<Marker>, schema: bool, batches: nat, clock: int) {
    && batches <= 1
    && match file
       case None => !schema && batches == 0
       case Some(m) =>
         exists i :: ValidFor(m, i, schema, batches, clock)
  }

  ghost predicate ValidFor(m: Marker, i: Identity, schema: bool, batches: nat, clock: int) {
    match TimedPhase(m)
    case None => false
    case Some(Prepared) => batches == 0 && Validate(m, i, Absent) == Some(Prepared)
    case Some(MigrationApplied) =>
      && schema && Validate(m, i, Present) == Some(MigrationApplied)
      && m.appliedAt.text.instant <= clock
    case Some(AdoptionCommitted) =>
      schema && batches == 1 && Validate(m, i, Committed) == Some(AdoptionCommitted)
  }

  /** An accepted identity is the one in the file, so it is the one the file is valid for. */
  lemma AcceptedIsValidFor(m: Marker, i: Identity, state: SchemaState, schema: bool, batches: nat, clock: int)
    requires AtBoundary(Some(m), schema, batches, clock)
    requires Validate(m, i, state).Some?
    ensures ValidFor(m, i, schema, batches, clock)
  {
    var j :| ValidFor(m, j, schema, batches, clock);
    assert ReadIdentity(m.identity) == Some(i);
    assert ReadIdentity(m.identity) == Some(j);
  }

  /** 0 for no marker, then the phases in order. */
  function Rank(file: Option<Marker>): nat {
    if file.None? then 0
    else
      match TimedPhase(file.value)
      case None => 0
      case Some(Prepared) => 1
      case Some(MigrationApplied) => 2
      case Some(AdoptionCommitted) => 3
  }

  /**
   What the operator approves by digest and commit: the first PREPARED marker of another candidate of the
   same migration, before the schema and any batch exist. Only fields of the file itself are read.
   */
  predicate MaySupersede(file: Option<Marker>, schema: bool, batches: nat, i: Identity,
                         approvedCommit: nat, approvedSha: Digest)
  {
    && !schema && batches == 0 && file.Some? && approvedSha == OfMarker(file.value)
    && file.value.phase == Str(PhaseName(Prepared)) && file.value.supersede == NO_SUPERSEDE
    && file.value.identity.commit == Str(Hex40(approvedCommit)) && approvedCommit != i.commit
    && file.value.identity.migration == Str(Hex64(i.migration))
  }

  lemma {:induction false} SupersedesExactly(
    file: Option<Marker>, schema: bool, batches: nat, clock: int,
    i: Identity, approvedCommit: nat, approvedSha: Digest, now: int)
    requires AtBoundary(file, schema, batches, clock)
    ensures SupersedeResult(file, schema, batches, i, approvedCommit, approvedSha, now).accepted
            <==> MaySupersede(file, schema, batches, i, approvedCommit, approvedSha)
  {
    if file.Some? {
      var j :| ValidFor(file.value, j, schema, batches, clock);
      assert ReadIdentity(file.value.identity) == Some(j);
    }
  }

  /**
   Superseding keeps the file at its boundary and at PREPARED. It is accepted exactly when the operator
   approved this very file, and the new marker is a PREPARED of the new identity and this instant that
   embeds the old one unchanged, under its digest.
   */
  lemma {:induction false} SupersedeKeepsBoundary(
    file: Option<Marker>, schema: bool, batches: nat, clock: int,
    i: Identity, approvedCommit: nat, approvedSha: Digest, now: int)
    requires AtBoundary(file, schema, batches, clock) && clock <= now
    ensures var w := SupersedeResult(file, schema, batches, i, approvedCommit, approvedSha, now);
            && AtBoundary(w.file, schema, batches, now)
            && Rank(w.file) == Rank(file)
            && (w.accepted <==> MaySupersede(file, schema, batches, i, approvedCommit, approvedSha))
            && (w.accepted ==>
                  && file.Some? && w.file.Some?
                  && w.file.value.identity == Fields(i) && w.file.value.preparedAt == Rendered(now)
                  && w.file.value.supersede
                     == SupersedeAudit(Object(file.value), Str(Hex64(OfMarker(file.value))), Rendered(now))
                  && Validate(w.file.value, i, Absent) == Some(Prepared))
            && (!w.accepted ==> w.file == file)
  {
    var w := SupersedeResult(file, schema, batches, i, approvedCommit, approvedSha, now);
    SupersedesExactly(file, schema, batches, clock, i, approvedCommit, approvedSha, now);
    if w.accepted {
      SupersededIsValid(file.value, ReadIdentity(file.value.identity).value, i, now);
      assert ValidFor(w.file.value, i, schema, batches, now);
    } else if file.Some? {
      var j :| ValidFor(file.value, j, schema, batches, clock);
      assert ValidFor(file.value, j, schema, batches, now);
    }
  }

  lemma {:induction false} RequireStateKeepsBoundary(
    file: Option<Marker>, schema: bool, batches: nat, clock: int, i: Identity, now: int)
    requires AtBoundary(file, schema, batches, clock) && clock <= now
    ensures var w := RequireStateResult(file, schema, batches, i, now);
            && AtBoundary(w.file, schema, batches, now)
            && Rank(file) <= Rank(w.file)
            && (w.accepted <==> batches == 0 && (file.Some? ==> file.value.identity == Fields(i)))
            && (w.accepted ==>
                  && batches == 0 && w.file.Some?
                  && Validate(w.file.value, i, Boundary(schema)).Some?
                  && ValidFor(w.file.value, i, schema, batches, now))
            && (file.Some? ==> w.file == file)
            && (file.None? && w.accepted ==>
                  && w.file.value.preparedAt == Rendered(now)
                  && w.file.value.supersede == NO_SUPERSEDE && w.file.value.resume == NO_RESUME)
  {
    var w := RequireStateResult(file, schema, batches, i, now);
    if file.None? && w.accepted {
      PreparedIsValid(i, now, Absent);
      assert ValidFor(w.file.value, i, schema, batches, now);
    } else if file.Some? {
      var j :| ValidFor(file.value, j, schema, batches, clock);
      assert ValidFor(file.value, j, schema, batches, now);
      assert ReadIdentity(file.value.identity) == Some(j);
      PreparedAtBothBoundaries(file.value, j);
      if w.accepted {
        AcceptedIsValidFor(file.value, i, Boundary(schema), schema, batches, now);
      }
    }
  }

  /** The call appends an audit that names the runtime's own commit or script, or an instant before the migration. */
  predicate Spoils(
    file: Option<Marker>, runtime: Identity, approvedSha: Digest, commit: nat, script: Digest, now: int)
  {
    && file.Some? && Validate(file.value, runtime, Present) == Some(MigrationApplied)
    && !Resumed(file.value) && approvedSha == OfMarker(file.value)
    && (commit == runtime.commit || script == runtime.script || now < file.value.appliedAt.text.instant)
  }

  /**
   What the operator approves by digest: the applied marker for a script that is another commit and another
   file than the runtime's, or the recovery that this very script has already recorded in it.
   */
  predicate MayRecover(
    file: Option<Marker>, runtime: Identity, approvedSha: Digest, commit: nat, script: Digest)
  {
    && Rank(file) == 2 && file.value.identity == Fields(runtime)
    && var m := file.value;
       if m.resume == NO_RESUME then
         approvedSha == OfMarker(m) && commit != runtime.commit && script != runtime.script
       else
         && (approvedSha == OfMarker(m) || m.resume.sha256 == Str(Hex64(approvedSha)))
         && m.resume.commit == Str(Hex40(commit)) && m.resume.script == Str(Hex64(script))
  }

  lemma {:induction false} RecoversExactly(
    file: Option<Marker>, schema: bool, batches: nat, clock: int,
    runtime: Identity, approvedSha: Digest, commit: nat, script: Digest, now: int)
    requires AtBoundary(file, schema, batches, clock) && clock <= now
    ensures AuthorizeResult(file, runtime, approvedSha, commit, script, now).accepted
            <==> MayRecover(file, runtime, approvedSha, commit, script)
  {
    if file.Some? {
      var j :| ValidFor(file.value, j, schema, batches, clock);
      assert ReadIdentity(file.value.identity) == Some(j);
      if Rank(file) == 2 && j == runtime && !Resumed(file.value) {
        ResumedIsValid(file.value, runtime, commit, script, now);
      }
    }
  }

  /**
   Authorizing a recovery script embeds the applied marker unchanged and keeps its timestamps. The
   file stays at its boundary exactly when the script is another commit and another file, written
   no earlier than the migration; otherwise the call raises and leaves a marker that nothing accepts.
   */
  lemma {:induction false} AuthorizeKeepsBoundary(
    file: Option<Marker>, schema: bool, batches: nat, clock: int,
    runtime: Identity, approvedSha: Digest, commit: nat, script: Digest, now: int)
    requires AtBoundary(file, schema, batches, clock) && clock <= now
    ensures var w := AuthorizeResult(file, runtime, approvedSha, commit, script, now);
            && (AtBoundary(w.file, schema, batches, now) <==> !Spoils(file, runtime, approvedSha, commit, script, now))
            && (Spoils(file, runtime, approvedSha, commit, script, now) <==> w.file.Some? && Unreadable(w.file.value))
            && Rank(w.file) == Rank(file)
            && (w.file != file ==>
                  && w.file.Some? && file.Some? && !Resumed(file.value)
                  && w.file.value
                     == file.value.(resume := ResumeAudit(Object(file.value), Str(Hex64(OfMarker(file.value))),
                                                          Str(Hex40(commit)), Str(Hex64(script)), Rendered(now))))
            && (w.accepted <==> MayRecover(file, runtime, approvedSha, commit, script))
            && (w.accepted ==>
                  && w.file.Some? && Resumed(w.file.value)
                  && Validate(w.file.value, runtime, Present) == Some(MigrationApplied))
            && (!w.accepted && w.file != file ==> Spoils(file, runtime, approvedSha, commit, script, now))
  {
    var w := AuthorizeResult(file, runtime, approvedSha, commit, script, now);
    RecoversExactly(file, schema, batches, clock, runtime, approvedSha, commit, script, now);
    if file.Some? {
      var j :| ValidFor(file.value, j, schema, batches, clock);
      assert ValidFor(file.value, j, schema, batches, now);
      if w.file != file {
        ResumedIsValid(file.value, runtime, commit, script, now);
        ResumedIsUnreadable(file.value, runtime, commit, script, now);
        if w.accepted {
          assert ValidFor(w.file.value, runtime, schema, batches, now);
        }
      }
    }
  }

  lemma {:induction false} CommitKeepsBoundary(
    file: Option<Marker>, schema: bool, batches: nat, clock: int, i: Identity, now: int)
    requires AtBoundary(file, schema, batches, clock) && clock <= now
    requires batches == 1
    ensures var w := CommitResult(file, i, now);
            && AtBoundary(w.file, schema, batches, now)
            && Rank(file) <= Rank(w.file)
            && (w.accepted <==> Rank(file) == 2 && file.value.identity == Fields(i))
            && (w.accepted ==>
                  && Rank(w.file) == 3
                  && w.file.value
                     == file.value.(phase := Str(PhaseName(AdoptionCommitted)), committedAt := Rendered(now)))
            && (!w.accepted ==> w.file == file)
  {
    var w := CommitResult(file, i, now);
    var j :| ValidFor(file.value, j, schema, batches, clock);
    assert ValidFor(file.value, j, schema, batches, now);
    if w.accepted {
      CommittedIsValid(file.value, i, now);
      assert ValidFor(w.file.value, i, schema, batches, now);
    }
  }

  /** The last write of apply_migration_0016. */
  lemma {:induction false} ApplyKeepsBoundary(m: Marker, i: Identity, clock: int, now: int)
    requires ValidFor(m, i, true, 0, clock) && clock <= now
    requires TimedPhase(m) == Some(Prepared)
    ensures ValidFor(AppliedMarker(m, now), i, true, 0, now)
    ensures AtBoundary(Some(AppliedMarker(m, now)), true, 0, now)
    ensures var n := AppliedMarker(m, now);
            && n.identity == m.identity && n.preparedAt == m.preparedAt
            && n.supersede == m.supersede && n.resume == m.resume
  {
    AppliedIsValid(m, i, now);
    assert ValidFor(AppliedMarker(m, now), i, true, 0, now);
  }

  /**
   apply_migration_0016 goes through exactly from a clean host, or when it resumes before any batch with no
   marker or its own. It installs the schema, and changes the phase and its timestamp of a PREPARED marker only.
   */
  lemma {:induction false} AppliesExactly(
    file: Option<Marker>, schema: bool, batches: nat, clock: int, i: Identity, resume: bool, entered: int, applied: int)
    requires AtBoundary(file, schema, batches, clock) && clock <= entered
    ensures var r := ApplyResult(file, schema, batches, i, resume, entered, applied);
            && (r.accepted <==> if resume then batches == 0 && (file.Some? ==> file.value.identity == Fields(i))
                                else !schema && file.None?)
            && (r.accepted ==>
                  var m := if file.Some? then file.value else PreparedMarker(i, entered);
                  && r.schema
                  && r.file == Some(if Rank(file) == 2 then m
                                    else m.(phase := Str(PhaseName(MigrationApplied)), appliedAt := Rendered(applied))))
            && (!r.accepted ==> r.file == file && r.schema == schema)
  {
    RequireStateKeepsBoundary(file, schema, batches, clock, i, entered);
    PreparedIsValid(i, entered, Absent);
    if file.Some? {
      var j :| ValidFor(file.value, j, schema, batches, clock);
    }
  }

  /** The host the script runs on: every method takes the clock reading of its write. */
  class MarkerHost {
    var file: Option<Marker>
    var schema: bool
    var batches: nat
    var clock: int

    ghost predicate Consistent()
      reads this
    {
      AtBoundary(file, schema, batches, clock)
    }

    /** write_secure_resume_marker: create refuses an existing file, replace checks the approved digest. */
    method Write(value: Marker, create: bool, expected: Option<Digest>) returns (written: bool)
      modifies this`file
      ensures written <==>
              if create then old(file).None? && expected.None?
              else old(file).Some? && (expected.None? || expected.value == OfMarker(old(file).value))
      ensures file == if written then Some(value) else old(file)
    {
      if create {
        if expected.Some? || file.Some? {
          return false;
        }
      } else {
        if file.None? {
          return false;
        }
        if expected.Some? && expected.value != OfMarker(file.value) {
          return false;
        }
      }
      file := Some(value);
      return true;
    }

    method Supersede(i: Identity, approvedCommit: nat, approvedSha: Digest, now: int) returns (accepted: bool)
      requires Consistent() && clock <= now
      modifies this`file, this`clock
      ensures Consistent() && clock == now
      ensures Written(file, accepted)
              == SupersedeResult(old(file), schema, batches, i, approvedCommit, approvedSha, now)
      ensures accepted <==> MaySupersede(old(file), schema, batches, i, approvedCommit, approvedSha)
      ensures Rank(file) == old(Rank(file))
    {
      SupersedeKeepsBoundary(file, schema, batches, clock, i, approvedCommit, approvedSha, now);
      clock := now;
      if schema || batches != 0 || file.None? {
        return false;
      }
      var previous := file.value;
      var observed := OfMarker(previous);
      if observed != approvedSha {
        return false;
      }
      var before := ReadIdentity(previous.identity);
      if before.None? || Validate(previous, before.value, Absent) != Some(Prepared) || Superseded(previous) {
        return false;
      }
      if || before.value.commit != approvedCommit || before.value.commit == i.commit
         || before.value.migration != i.migration {
        return false;
      }
      accepted := Write(SupersededMarker(previous, i, now), false, Some(observed));
    }

    method RequireState(i: Identity, now: int) returns (state: Option<SchemaState>)
      requires Consistent() && clock <= now
      modifies this`file, this`clock
      ensures Consistent() && clock == now
      ensures Written(file, state.Some?) == RequireStateResult(old(file), schema, batches, i, now)
      ensures state.Some? <==> batches == 0 && (old(file).Some? ==> old(file).value.identity == Fields(i))
      ensures state.Some? ==> state.value == Boundary(schema) && batches == 0 && file.Some?
                              && ValidFor(file.value, i, schema, batches, now)
      ensures Rank(old(file)) <= Rank(file)
    {
      RequireStateKeepsBoundary(file, schema, batches, clock, i, now);
      clock := now;
      if !schema {
        if batches != 0 {
          return None;
        }
        if file.None? {
          var _ := Write(PreparedMarker(i, now), true, None);
        }
        return if Validate(file.value, i, Absent).Some? then Some(Absent) else None;
      }
      if file.None? || Validate(file.value, i, Present).None? || batches != 0 {
        return None;
      }
      return Some(Present);
    }

    method Authorize(runtime: Identity, approvedSha: Digest, commit: nat, script: Digest, now: int)
      returns (accepted: bool)
      requires Consistent() && clock <= now
      modifies this`file, this`clock
      ensures clock == now
      ensures Consistent() <==> !Spoils(old(file), runtime, approvedSha, commit, script, now)
      ensures Written(file, accepted) == AuthorizeResult(old(file), runtime, approvedSha, commit, script, now)
      ensures accepted <==> MayRecover(old(file), runtime, approvedSha, commit, script)
      ensures Rank(file) == old(Rank(file))
    {
      AuthorizeKeepsBoundary(file, schema, batches, clock, runtime, approvedSha, commit, script, now);
      clock := now;
      if file.None? || Validate(file.value, runtime, Present) != Some(MigrationApplied) {
        return false;
      }
      var m := file.value;
      var approvedOriginal := Resumed(m) && m.resume.sha256 == Str(Hex64(approvedSha));
      if approvedSha != OfMarker(m) && !approvedOriginal {
        return false;
      }
      if Resumed(m) {
        return m.resume.commit == Str(Hex40(commit)) && m.resume.script == Str(Hex64(script));
      }
      accepted := Write(ResumedMarker(m, commit, script, now), false, Some(OfMarker(m)));
      accepted := accepted && Validate(file.value, runtime, Present) == Some(MigrationApplied);
    }

    /**
     apply_migration_0016. An accepted call leaves the schema installed, no batch and a marker at
     MIGRATION_APPLIED for this identity, whichever boundary it started from.
     */
    method ApplyMigration(i: Identity, resume: bool, entered: int, applied: int) returns (accepted: bool)
      requires Consistent() && clock <= entered <= applied
      modifies this`file, this`schema, this`clock
      ensures Consistent()
      ensures Migrated(file, schema, accepted)
              == ApplyResult(old(file), old(schema), batches, i, resume, entered, applied)
      ensures accepted <==> if resume then batches == 0 && (old(file).Some? ==> old(file).value.identity == Fields(i))
                            else !old(schema) && old(file).None?
      ensures accepted ==> schema && batches == 0 && file.Some?
                           && Validate(file.value, i, Present) == Some(MigrationApplied)
      ensures old(schema) ==> schema
      ensures Rank(old(file)) <= Rank(file)
      ensures !resume && (old(schema) || old(file).Some?) ==> !accepted && file == old(file) && schema == old(schema)
      ensures old(batches) != 0 ==> !accepted && file == old(file) && schema == old(schema)
    {
      AppliesExactly(file, schema, batches, clock, i, resume, entered, applied);
      if resume {
        var state := RequireState(i, entered);
        if state.None? {
          return false;
        }
      } else {
        if schema || file.Some? {
          return false;
        }
        clock := entered;
        var _ := Write(PreparedMarker(i, entered), true, None);
        PreparedIsValid(i, entered, Absent);
        assert ValidFor(file.value, i, schema, batches, clock);
      }
      assert ValidFor(file.value, i, schema, batches, clock);
      var phase := Validate(file.value, i, Boundary(schema));
      if phase.None? {
        return false;
      }
      PreparedAtBothBoundaries(file.value, i);
      schema := true;
      clock := applied;
      assert ValidFor(file.value, i, schema, batches, clock);
      if phase == Some(Prepared) {
        ApplyKeepsBoundary(file.value, i, entered, applied);
        var _ := Write(AppliedMarker(file.value, applied), false, None);
      }
      return true;
    }

    method MarkCommitted(i: Identity, now: int) returns (accepted: bool)
      requires Consistent() && clock <= now
      requires batches == 1
      modifies this`file, this`clock
      ensures Consistent() && clock == now
      ensures Written(file, accepted) == CommitResult(old(file), i, now)
      ensures accepted <==> Rank(old(file)) == 2 && old(file).value.identity == Fields(i)
      ensures accepted ==> Rank(file) == 3
    {
      CommitKeepsBoundary(file, schema, batches, clock, i, now);
      clock := now;
      if file.None? || Validate(file.value, i, Present) != Some(MigrationApplied) {
        return false;
      }
      accepted := Write(CommittedMarker(file.value, now), false, None);
    }
  }
}
