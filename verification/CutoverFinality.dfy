/** Which states between attempts can still be finished, and how a history gets to one that cannot. */
module CutoverFinality {
  import opened Outcomes
  import opened ResumeMarker
  import opened MarkerStore
  import opened Cutover
  import opened CutoverSafety
  import opened CutoverHistories
  import opened CutoverRecovery

  function Steps(n: nat): seq<Action> {
    if n == 0 then [] else [Advance(Smooth, 0)] + Steps(n - 1)
  }

  lemma {:induction false} StepsAreSmooth(s: State, n: nat)
    ensures After(s, Steps(n)) == Smoothly(s, n)
    decreases n
  {
    if n == 0 {
    } else {
      StepsAreSmooth(Next(s), n - 1);
      assert Steps(n)[1..] == Steps(n - 1);
    }
  }

  /** The operator stops the service on the previous release and closes the gates. */
  const PREPARE_HOST := Operate(PinnedPrevious, Environment(false, None), true, Stopped, 0)

  function ResumeArgs(i: Identity): Args {
    Args(ResumePreAdoption, i, PINNED_COMMIT)
  }

  /** The identity a resume must have: the one of the marker, or any. */
  function ResumableIdentity(h: Host): Identity {
    if h.marker.Some? && ReadIdentity(h.marker.value.identity).Some? then ReadIdentity(h.marker.value.identity).value
    else Identity(1, OfFile(0), OfFile(0), OfFile(0))
  }

  /** The start of a resumed attempt on the prepared host. */
  function Resuming(s: State): State {
    Step(Step(s, PREPARE_HOST), Begin(ResumeArgs(ResumableIdentity(s.host))))
  }

  /** The history of one resumed attempt of n smooth steps. */
  function ResumeFor(h: Host, n: nat): seq<Action> {
    [PREPARE_HOST, Begin(ResumeArgs(ResumableIdentity(h)))] + Steps(n)
  }

  lemma {:induction false} ResumeForRuns(s: State, n: nat)
    ensures After(s, ResumeFor(s.host, n))
            == Smoothly(Resuming(s), n)
  {
    var begin := Begin(ResumeArgs(ResumableIdentity(s.host)));
    var actions := ResumeFor(s.host, n);
    assert actions[1..] == [begin] + Steps(n);
    assert ([begin] + Steps(n))[1..] == Steps(n);
    StepsAreSmooth(Step(Step(s, PREPARE_HOST), begin), n);
  }

  /** Every sound state before the transaction is made ready for a resume by the operator. */
  lemma {:induction false} PreparedForResume(s: State, s': State)
    requires Sound(s) && s.run.None? && s.host.batches == 0 && s' == Step(s, PREPARE_HOST)
    ensures Sound(s') && s'.run.None? && s'.host.batches == 0 && s'.host.marker == s.host.marker
    ensures Ready(s'.host, ResumeArgs(ResumableIdentity(s.host)))
    ensures s'.host.marker.Some? ==> ReadIdentity(s'.host.marker.value.identity) == Some(ResumableIdentity(s.host))
  {
    StepKeepsSound(s, PREPARE_HOST);
    if s.host.marker.Some? {
      var i :| ValidFor(s.host.marker.value, i, s.host.schema, s.host.batches, s.host.clock);
      assert ReadIdentity(s.host.marker.value.identity) == Some(i);
    }
  }

  /** Every sound state before the transaction can be taken to the recorded commit. */
  lemma {:induction false} SoundFinishes(s: State) returns (actions: seq<Action>)
    requires Sound(s) && s.run.None? && s.host.batches == 0
    ensures Rank(After(s, actions).host.marker) == 3
  {
    var s' := Step(s, PREPARE_HOST);
    PreparedForResume(s, s');
    var n := ResumeCompletes(s', ResumeArgs(ResumableIdentity(s.host)));
    actions := ResumeFor(s.host, n);
    ResumeForRuns(s, n);
  }

  /** The operator selects the applied release, stops the service and closes the gates. */
  function PrepareRecovery(runtime: Identity): Action {
    Operate(OfCommit(runtime.commit), Environment(false, Some(true)), true, Stopped, 0)
  }

  /** The recovery script that an applied marker asks for: the one it was authorized for, or any other. */
  function RecoveryArgs(m: Marker, runtime: Identity): Args {
    var script :=
      if m.resume.commit.IsHex40() && m.resume.script.IsHex64()
      then runtime.(commit := m.resume.commit.text.commit, script := m.resume.script.text.digest)
      else runtime.(commit := runtime.commit + 1,
                    script := if runtime.script == OfFile(0) then OfFile(1) else OfFile(0));
    Args(ResumeMigrationApplied(runtime, OfMarker(m)), script, PINNED_COMMIT)
  }

  /** Every sound state with an applied marker and no batch is made ready for its recovery by the operator. */
  lemma {:induction false} PreparedForRecovery(s: State, runtime: Identity, s': State)
    requires Sound(s) && s.run.None? && s.host.batches == 0 && Rank(s.host.marker) == 2
    requires Validate(s.host.marker.value, runtime, Present) == Some(MigrationApplied)
    requires s' == Step(s, PrepareRecovery(runtime))
    ensures Sound(s') && s'.run.None? && s'.host.batches == 0 && s'.host.marker == s.host.marker
    ensures var args := RecoveryArgs(s.host.marker.value, runtime);
            && Ready(s'.host, args) && !SameScript(args) && AppliedMarkerApproved(s'.host, args)
            && (Resumed(s.host.marker.value) ==>
                  && s.host.marker.value.resume.commit == Str(Hex40(args.script.commit))
                  && s.host.marker.value.resume.script == Str(Hex64(args.script.script)))
  {
    StepKeepsSound(s, PrepareRecovery(runtime));
    AcceptedAudits(s.host.marker.value, runtime, Present);
  }

  /**
   From every sound state with an applied marker and no batch there is a history to the recorded commit
   in which the operator never goes back to the previous release.
   */
  lemma {:induction false} AppliedFinishesForward(s: State) returns (actions: seq<Action>)
    requires Sound(s) && s.run.None? && s.host.batches == 0 && Rank(s.host.marker) == 2
    ensures Rank(After(s, actions).host.marker) == 3
    ensures forall a :: a in actions && a.Operate? ==> a.current.OfCommit?
  {
    var m := s.host.marker.value;
    var runtime :| ValidFor(m, runtime, s.host.schema, s.host.batches, s.host.clock);
    var prepare, begin := PrepareRecovery(runtime), Begin(RecoveryArgs(m, runtime));
    var s' := Step(s, prepare);
    PreparedForRecovery(s, runtime, s');
    var n := RecoveryCompletes(s', begin.args);
    actions := [prepare, begin] + Steps(n);
    assert actions[1..] == [begin] + Steps(n);
    assert ([begin] + Steps(n))[1..] == Steps(n);
    StepsAreSmooth(Step(s', begin), n);
    OnlyAdvances(n);
  }

  lemma {:induction false} OnlyAdvances(n: nat)
    ensures forall a :: a in Steps(n) ==> a.Advance?
  {
    if n == 0 {
    } else {
      OnlyAdvances(n - 1);
    }
  }

  /** A consistent marker is readable. */
  lemma ConsistentIsNotSpoiled(h: Host)
    requires Consistent(h)
    ensures !Spoiled(h)
  {
    if h.marker.Some? {
      var i :| ValidFor(h.marker.value, i, h.schema, h.batches, h.clock);
    }
  }

  /**
   The exact condition: from a state between attempts the recorded commit can still be reached if and
   only if it is recorded already, or no batch has committed and the marker is readable.
   */
  lemma {:induction false} FinishableExactly(s: State)
    requires Inv(s) && s.run.None?
    ensures (exists actions :: Rank(After(s, actions).host.marker) == 3)
            <==> Rank(s.host.marker) == 3 || (s.host.batches == 0 && !Spoiled(s.host))
  {
    if Rank(s.host.marker) == 3 {
      assert Rank(After(s, []).host.marker) == 3;
    } else if Stuck(s) {
      forall actions ensures Rank(After(s, actions).host.marker) != 3 {
        RefusedForGood(s, actions, s.host);
      }
    } else {
      ConsistentIsNotSpoiled(s.host);
      if s.host.batches == 0 {
        var actions := SoundFinishes(s);
      } else {
        forall actions ensures Rank(After(s, actions).host.marker) != 3 {
          InterruptedCommitIsFinal(s, actions);
        }
      }
    }
  }

  /** A crash in the middle of a resumed attempt. */
  lemma {:induction false} CrashAfter(s: State, n: nat)
    ensures var t := After(s, ResumeFor(s.host, n) + [Crash]);
            t.run.None? && t.host == Smoothly(Resuming(s), n).host
  {
    var before := ResumeFor(s.host, n);
    ResumeForRuns(s, n);
    AfterConcat(s, before, [Crash]);
    assert After(After(s, before), [Crash]) == After(Step(After(s, before), Crash), []);
  }

  /** The resumed attempt of a clean host, up to the live reconciliation. */
  lemma {:induction false} CleanReachesLaunch(s: State) returns (h: Host, run: Run, n: nat)
    requires Initial(s)
    ensures AtLaunch(h, run) && !Resumed(h.marker.value) && run.args == ResumeArgs(ResumableIdentity(s.host))
    ensures Smoothly(Resuming(s), n) == State(h, Some(run))
  {
    var s' := Step(s, PREPARE_HOST);
    var args := ResumeArgs(ResumableIdentity(s.host));
    PreparedForResume(s, s');
    var h1, run1 := ResumeIsAuthorized(s', args);
    var rest;
    h, run, rest := AuthorizedReachesLaunch(h1, run1);
    IterateInTwo(Next, Step(s', Begin(args)), 2, rest);
    n := 2 + rest;
  }

  /** A crash right after the transaction: from every clean host there is such a history. */
  lemma {:induction false} InterruptedCommitIsReachable(s: State) returns (actions: seq<Action>)
    requires Initial(s)
    ensures var t := After(s, actions);
            t.run.None? && t.host.batches == 1 && t.host.schema && Rank(t.host.marker) == 2
  {
    var h, run, n := CleanReachesLaunch(s);
    var rest := AdoptsToCommit(h, run);
    IterateInTwo(Next, Resuming(s), n, rest);
    actions := ResumeFor(s.host, n + rest) + [Crash];
    CrashAfter(s, n + rest);
  }

  // ----- a recovery with the runtime's own script

  /** A later commit whose script is the one of the runtime. */
  function SameScriptArgs(m: Marker, runtime: Identity): Args {
    Args(ResumeMigrationApplied(runtime, OfMarker(m)), runtime.(commit := runtime.commit + 1), PINNED_COMMIT)
  }

  lemma {:induction false} RaisesTo(h: Host, run: Run, h': Host)
    requires EffectOf(h, run) == Raised(h')
    ensures Smoothly(State(h, Some(run)), 1).host == h'
  {
    assert Later(h, 0) == h;
    HandleSidelines(h', run);
    assert Smoothly(State(h, Some(run)), 1) == Next(State(h, Some(run)));
  }

  /** Its authorization writes the audit, then raises, and leaves a marker that nothing accepts. */
  lemma {:induction false} SameScriptIsRaised(h: Host, args: Args)
    requires Consistent(h) && h.killSwitch && h.batches == 0 && Rank(h.marker) == 2
    requires !Resumed(h.marker.value) && ReadIdentity(h.marker.value.identity).Some?
    requires args == SameScriptArgs(h.marker.value, ReadIdentity(h.marker.value.identity).value)
    ensures var run := Run(args, Authorizing(Preflight), true, None, None);
            Spoiled(Smoothly(State(h, Some(run)), 3).host)
  {
    var m := h.marker.value;
    var runtime := ReadIdentity(m.identity).value;
    var i :| ValidFor(m, i, h.schema, h.batches, h.clock);
    var run := Run(args, Authorizing(Preflight), true, None, None);
    var last := run.(pc := Authorizing(AuthorizeApplied));
    var w := AuthorizeResult(h.marker, runtime, OfMarker(m), args.script.commit, args.script.script, h.clock);
    AuthorizeKeepsBoundary(h.marker, h.schema, h.batches, h.clock, runtime, OfMarker(m),
                           args.script.commit, args.script.script, h.clock);
    RaisesTo(h, last, h.(marker := w.file));
    Goes(h, run.(pc := Authorizing(CheckApplied)), h, last, 1);
    Goes(h, run, h, run.(pc := Authorizing(CheckApplied)), 2);
  }

  /** So every applied marker without a recovery audit can be spoiled before the transaction. */
  lemma {:induction false} SameScriptSpoils(s: State) returns (actions: seq<Action>)
    requires Sound(s) && s.run.None? && s.host.batches == 0 && Rank(s.host.marker) == 2
    requires !Resumed(s.host.marker.value)
    ensures Spoiled(After(s, actions).host)
  {
    var i :| ValidFor(s.host.marker.value, i, s.host.schema, s.host.batches, s.host.clock);
    assert ReadIdentity(s.host.marker.value.identity) == Some(i);
    var s' := Step(s, PrepareRecovery(i));
    StepKeepsSound(s, PrepareRecovery(i));
    var begin := Begin(SameScriptArgs(s.host.marker.value, i));
    SameScriptIsRaised(s'.host, begin.args);
    actions := [PrepareRecovery(i), begin] + Steps(3);
    assert actions[1..] == [begin] + Steps(3);
    assert ([begin] + Steps(3))[1..] == Steps(3);
    StepsAreSmooth(Step(s', begin), 3);
  }

  /** From every clean host there is a history to such a marker. */
  lemma {:induction false} SpoiledIsReachable(s: State) returns (actions: seq<Action>)
    requires Initial(s)
    ensures Spoiled(After(s, actions).host)
  {
    var h, run, n := CleanReachesLaunch(s);
    var before := ResumeFor(s.host, n) + [Crash];
    CrashAfter(s, n);
    HistoryKeepsInv(s, before);
    assert Validate(h.marker.value, Target(run.args), Present) == Some(MigrationApplied);
    var rest := SameScriptSpoils(After(s, before));
    actions := before + rest;
    AfterConcat(s, before, rest);
  }

  /** A history in which every recovery brings another script stays sound. */
  lemma {:induction false} OtherScriptsStaySound(s: State, actions: seq<Action>)
    requires Sound(s) && (s.run.Some? ==> !SameScript(s.run.value.args))
    requires forall a :: a in actions && a.Begin? ==> !SameScript(a.args)
    ensures Sound(After(s, actions))
    decreases |actions|
  {
    if actions == [] {
    } else {
      assert actions[0] in actions;
      StepKeepsSound(s, actions[0]);
      if !actions[0].Operate? {
        StepIsBounded(s, actions[0], Step(s, actions[0]));
      }
      OtherScriptsStaySound(Step(s, actions[0]), actions[1..]);
    }
  }
}
