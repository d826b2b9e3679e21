/** The promises of the cutover over every history of attempts, however each was cut off. */
module CutoverHistories {
  import opened Outcomes
  import opened ResumeMarker
  import opened MarkerStore
  import opened Cutover
  import opened CutoverSafety

  /** One action of the script changes the host as one step of the current attempt, and no more. */
  lemma {:induction false} StepIsBounded(s: State, a: Action, s': State)
    requires s.run.Some? ==> ControlInv(s.host, s.run.value)
    requires !a.Operate? && s' == Step(s, a)
    ensures s.run.Some? ==>
              && HostStep(s.host, s.run.value, s'.host)
              && (s'.run.Some? ==> SameAttempt(s.run.value, s'.run.value))
    ensures s.run.None? ==> s'.host == s.host
  {
    if s.run.Some? {
      if a.Advance? {
        AdvanceIsBounded(s, a, s');
      } else if a.Begin? {
        assert s' == s;
      } else {
        assert s' == s.(run := None);
      }
    }
  }

  // ----- the adjustment commits at most once

  /** The number of steps of a history that committed an adjustment transaction. */
  function Commits(s: State, actions: seq<Action>): nat
    decreases |actions|
  {
    if actions == [] then 0
    else
      var next := Step(s, actions[0]);
      (if next.host.batches != s.host.batches then 1 else 0) + Commits(next, actions[1..])
  }

  lemma {:induction false} CommitsAreBatches(s: State, actions: seq<Action>)
    requires Inv(s)
    ensures After(s, actions).host.batches == s.host.batches + Commits(s, actions)
    decreases |actions|
  {
    if actions == [] {
    } else {
      StepKeepsInv(s, actions[0]);
      if !actions[0].Operate? {
        StepIsBounded(s, actions[0], Step(s, actions[0]));
      }
      CommitsAreBatches(Step(s, actions[0]), actions[1..]);
    }
  }

  /**
   Over every history of fresh, resumed, superseding and recovering attempts, each cut off after
   any step, the adjustment transaction commits at most once and the marker is never ahead of the
   schema or of the committed batch, nor behind a committed batch by more than its last write.
   */
  lemma {:induction false} AdjustmentCommitsAtMostOnce(s: State, actions: seq<Action>)
    requires Initial(s)
    ensures var h := After(s, actions).host;
            && Commits(s, actions) == h.batches <= 1
            && (h.schema ==> Rank(h.marker) >= 1)
            && (Rank(h.marker) >= 2 ==> h.schema)
            && (Rank(h.marker) == 3 ==> h.batches == 1)
            && (h.batches == 1 ==> Rank(h.marker) >= 2)
  {
    HistoryKeepsInv(s, actions);
    CommitsAreBatches(s, actions);
  }

  lemma {:induction false} AfterConcat(s: State, first: seq<Action>, second: seq<Action>)
    ensures After(s, first + second) == After(After(s, first), second)
    decreases |first|
  {
    if first == [] {
      assert first + second == second;
    } else {
      assert (first + second)[1..] == first[1..] + second;
      AfterConcat(Step(s, first[0]), first[1..], second);
    }
  }

  /** The phase moves only forward, and in every reachable state the marker validates at its boundary. */
  lemma {:induction false} PhaseMovesForward(s: State, first: seq<Action>, second: seq<Action>)
    requires Initial(s)
    ensures var earlier, later := After(s, first).host, After(s, first + second).host;
            && Rank(earlier.marker) <= Rank(later.marker)
            && (Consistent(earlier) || Spoiled(earlier)) && (Consistent(later) || Spoiled(later))
  {
    HistoryKeepsInv(s, first);
    AfterConcat(s, first, second);
    HistoryKeepsInv(After(s, first), second);
  }

  // ----- an interrupted commit is final

  /**
   Once the transaction has committed and its attempt is over, no attempt of any mode ever changes
   the marker, the schema or the batches again. A crash between the commit and the last marker write
   therefore leaves MIGRATION_APPLIED for good.
   */
  lemma {:induction false} InterruptedCommitIsFinal(s: State, actions: seq<Action>)
    requires Inv(s) && s.run.None? && s.host.batches == 1
    ensures var h := After(s, actions).host;
            h.batches == 1 && h.marker == s.host.marker && h.schema == s.host.schema
  {
    RefusedForGood(s, actions, s.host);
  }

  lemma {:induction false} RefusedForGood(s: State, actions: seq<Action>, last: Host)
    requires Refused(s, last) && Final(last)
    ensures Refused(After(s, actions), last)
    decreases |actions|
  {
    if actions == [] {
    } else {
      StepStaysRefused(s, actions[0], last, Step(s, actions[0]));
      RefusedForGood(Step(s, actions[0]), actions[1..], last);
    }
  }

  // ----- gates and releases

  /**
   No step of the script opens the kill switch, enables submission or starts a service that submits.
   From its database preflight on, an attempt runs with both gates closed until a handler takes over.
   */
  lemma {:induction false} GatesStayClosed(s: State, a: Action)
    requires Inv(s) && !a.Operate?
    ensures var s' := Step(s, a);
            && (s.host.killSwitch ==> s'.host.killSwitch)
            && (s.run.Some? ==> !s'.host.env.submission)
            && (s'.host.service == s.host.service || s'.host.service.Stopped? || !s'.host.service.submission)
            && (s'.run.Some? && MainLine(s'.run.value.pc) && s'.run.value.pc != Authorizing(Preflight)
                ==> s'.host.killSwitch && !s'.host.env.submission)
  {
    StepKeepsInv(s, a);
    StepIsBounded(s, a, Step(s, a));
  }

  /** Once closed, both gates stay closed through every history without an operator, handlers included. */
  lemma {:induction false} ClosedGatesStayClosed(s: State, actions: seq<Action>)
    requires Inv(s) && s.host.killSwitch && !s.host.env.submission
    requires forall a :: a in actions ==> !a.Operate?
    ensures After(s, actions).host.killSwitch && !After(s, actions).host.env.submission
    decreases |actions|
  {
    if actions == [] {
    } else {
      StepKeepsInv(s, actions[0]);
      StepIsBounded(s, actions[0], Step(s, actions[0]));
      ClosedGatesStayClosed(Step(s, actions[0]), actions[1..]);
    }
  }

  /**
   No step of any attempt selects another release than the one of its own candidate: a rollback
   restores the selection it found. So the previous release never comes back once it was left.
   */
  lemma {:induction false} SelectionOnlyMovesToCandidate(s: State, a: Action)
    requires Inv(s) && !a.Operate?
    ensures var s' := Step(s, a);
            || s'.host.current == s.host.current
            || (s.run.Some? && s'.host.current == OfCommit(Target(s.run.value.args).commit))
  {
    StepIsBounded(s, a, Step(s, a));
  }

  lemma {:induction false} PreviousNeverComesBack(s: State, actions: seq<Action>)
    requires Inv(s) && s.host.current.OfCommit?
    requires forall a :: a in actions ==> !a.Operate?
    ensures After(s, actions).host.current.OfCommit?
    decreases |actions|
  {
    if actions == [] {
    } else {
      StepKeepsInv(s, actions[0]);
      SelectionOnlyMovesToCandidate(s, actions[0]);
      PreviousNeverComesBack(Step(s, actions[0]), actions[1..]);
    }
  }

  /**
   From the launch of the live reconciliation on, an attempt that fails at any step goes to the
   fix-forward handler and stays there; the rollback handler is never entered.
   */
  lemma {:induction false} NoRollbackAfterLaunch(s: State, actions: seq<Action>)
    requires Inv(s) && s.run.Some?
    requires s.run.value.irreversible || s.run.value.pc.Adopting? || s.run.value.pc.HandingOff?
    requires forall a :: a in actions ==> a.Advance?
    ensures var s' := After(s, actions);
            s'.run.Some? ==>
              && s'.run.value.args == s.run.value.args && s'.run.value.irreversible
              && !s'.run.value.pc.Rolling?
              && (MainLine(s'.run.value.pc) ==>
                    Handle(s'.host, s'.run.value).run == Some(s'.run.value.(pc := Fixing(FixGates))))
    decreases |actions|
  {
    if actions == [] {
    } else {
      StepKeepsInv(s, actions[0]);
      var next := Step(s, actions[0]);
      if next.run.Some? {
        StepIsBounded(s, actions[0], Step(s, actions[0]));
        NoRollbackAfterLaunch(next, actions[1..]);
      } else {
        IdleStays(next, actions[1..]);
      }
    }
  }

  lemma {:induction false} IdleStays(s: State, actions: seq<Action>)
    requires s.run.None?
    requires forall a :: a in actions ==> a.Advance?
    ensures After(s, actions) == s
    decreases |actions|
  {
    if actions == [] {
    } else {
      assert actions[0] in actions && actions[0].Advance?;
      assert Step(s, actions[0]) == s;
      IdleStays(s, actions[1..]);
    }
  }
}
