/**
 The registry of accounts in maintenance and the probe that clears recovered reasons, as atomic
 registry calls that interleave with reasons entered elsewhere. Identifiers are already trimmed, the
 bounded detail text is a number.
 */
module Maintenance {
  datatype Stage = ClobAuth | FundingUnavailable | AllowanceMissing | EligibilityUnavailable | NotEligible

  /** Reason codes; Other stands for the codes the probe does not know, such as the Kalshi ones. */
  datatype Reason = Empty | Unspecified | Preflight(stage: Stage) | StartupReconciliationFailed | Other(code: nat)

  datatype Entry = Entry(detail: nat, since: int)

  type Entries = map<string, map<Reason, Entry>>

  predicate Has(e: Entries, account: string, r: Reason) {
    account in e && r in e[account]
  }

  function ReasonsOf(e: Entries, account: string): set<Reason> {
    if account in e then e[account].Keys else {}
  }

  function Named(r: Reason): Reason {
    if r.Empty? then Unspecified else r
  }

  /** The registry after Enter. */
  function Entered(e: Entries, account: string, reason: Reason, detail: nat, now: int): Entries {
    if account == "" then e
    else
      var r := Named(reason);
      var reasons := if account in e then e[account] else map[];
      e[account := reasons[r := Entry(detail, if r in reasons then reasons[r].since else now)]]
  }

  /** The registry after Exit. */
  function Exited(e: Entries, account: string, r: Reason): Entries {
    if !Has(e, account, r) then e
    else
      var reasons := e[account] - {r};
      if reasons == map[] then e - {account} else e[account := reasons]
  }

  /** No account without a reason is listed, and no entry is invisible. */
  predicate WellKept(e: Entries) {
    forall a :: a in e ==> a != "" && e[a] != map[] && Empty !in e[a]
  }

  class Registry {
    var entries: Entries

    method Enter(account: string, reason: Reason, detail: nat, now: int) returns (isNew: bool)
      modifies this
      ensures entries == Entered(old(entries), account, reason, detail, now)
      ensures isNew <==> account != "" && !Has(old(entries), account, Named(reason))
      ensures WellKept(old(entries)) ==> WellKept(entries)
    {
      if account == "" {
        return false;
      }
      var r := if reason.Empty? then Unspecified else reason;
      var reasons := if account in entries then entries[account] else map[];
      if r in reasons {
        var existing := reasons[r];
        entries := entries[account := reasons[r := existing.(detail := detail)]];
        return false;
      }
      entries := entries[account := reasons[r := Entry(detail, now)]];
      return true;
    }

    method Exit(account: string, r: Reason) returns (present: bool)
      modifies this
      ensures entries == Exited(old(entries), account, r)
      ensures present <==> Has(old(entries), account, r)
      ensures WellKept(old(entries)) ==> WellKept(entries)
    {
      if !(account in entries && r in entries[account]) {
        return false;
      }
      var reasons := entries[account] - {r};
      entries := entries[account := reasons];
      if reasons == map[] {
        entries := entries - {account};
      }
      return true;
    }
  }

  lemma {:induction false} EnteredReasons(e: Entries, account: string, reason: Reason, detail: nat, now: int, a: string)
    ensures ReasonsOf(Entered(e, account, reason, detail, now), a)
            == if a == account && account != "" then ReasonsOf(e, a) + {Named(reason)} else ReasonsOf(e, a)
  {
    var after := Entered(e, account, reason, detail, now);
    if account != "" && a == account {
      var reasons := if account in e then e[account] else map[];
      assert after[account].Keys == reasons.Keys + {Named(reason)};
    }
  }

  lemma {:induction false} ExitedReasons(e: Entries, account: string, r: Reason, a: string)
    ensures ReasonsOf(Exited(e, account, r), a) == if a == account then ReasonsOf(e, a) - {r} else ReasonsOf(e, a)
  {
    if Has(e, account, r) && a == account {
      assert (e[account] - {r}).Keys == e[account].Keys - {r};
      if e[account] - {r} == map[] {
        assert e[account].Keys - {r} == {};
      }
    }
  }

  /** Entering writes one entry: its detail is new, its time is the one of the first time. No other entry changes. */
  lemma {:induction false} EnteredEntries(
    e: Entries, account: string, reason: Reason, detail: nat, now: int, a: string, r: Reason)
    requires account != ""
    ensures var after, named := Entered(e, account, reason, detail, now), if reason.Empty? then Unspecified else reason;
            if a == account && r == named then
              && Has(after, a, r)
              && after[a][r] == Entry(detail, if Has(e, a, r) then e[a][r].since else now)
            else
              (Has(after, a, r) <==> Has(e, a, r)) && (Has(e, a, r) ==> after[a][r] == e[a][r])
  {
  }

  /** Exiting takes one entry and changes no other. */
  lemma {:induction false} ExitedEntries(e: Entries, account: string, reason: Reason, a: string, r: Reason)
    ensures var after := Exited(e, account, reason);
            && (Has(after, a, r) <==> Has(e, a, r) && !(a == account && r == reason))
            && (Has(after, a, r) ==> after[a][r] == e[a][r])
  {
    if Has(e, account, reason) && a == account && Has(e, a, r) && r != reason {
      assert r in e[account] - {reason};
    }
  }

  // ----- the probe

  datatype Outcome = Passed | FailedAt(stage: Stage) | FailedOtherwise

  /** Where the probe is: between accounts, or in the probe of one of them. */
  datatype Pc =
    | Idle
    | Walking(todo: seq<string>)
    | Asking(account: string, current: set<Reason>, reconcile: bool, todo: seq<string>)
    | Entering(account: string, stage: Stage, current: set<Reason>, reconcile: bool, todo: seq<string>)
    | Exiting(account: string, pending: set<Reason>, reconcile: bool, todo: seq<string>)
    | Recovering(account: string, reconcile: bool, todo: seq<string>)

  datatype State = State(entries: Entries, pc: Pc)

  /** One atomic step: a reason entered elsewhere, or the next step of the probe. */
  datatype Action =
    | EnterElsewhere(account: string, reason: Reason, detail: nat, now: int)
    | Start(ids: seq<string>)
    | Stop
    | Visit
    | Answer(outcome: Outcome)
    | Record(detail: nat, now: int)
    | Clear(reason: Reason)
    | Cleared
    | Judge(recovered: bool)

  function PreflightReasons(e: Entries, account: string): set<Reason> {
    set r | r in ReasonsOf(e, account) && r.Preflight?
  }

  /** The step of the probe; a step that does not fit leaves the state as it is. */
  function ProbeStep(s: State, a: Action): State {
    match (s.pc, a)
    case (Idle, Start(ids)) =>
      if (set id | id in ids) == s.entries.Keys then s.(pc := Walking(ids)) else s
    case (Walking(todo), Stop) => s.(pc := Idle)
    case (Walking(todo), Visit) =>
      if todo == [] then s.(pc := Idle)
      else
        var current := PreflightReasons(s.entries, todo[0]);
        var reconcile := Has(s.entries, todo[0], StartupReconciliationFailed);
        s.(pc := if current != {} then Asking(todo[0], current, reconcile, todo[1..])
                 else Recovering(todo[0], reconcile, todo[1..]))
    case (Asking(account, current, reconcile, todo), Answer(outcome)) =>
      s.(pc := match outcome
               case Passed => Exiting(account, current, reconcile, todo)
               case FailedAt(stage) => Entering(account, stage, current, reconcile, todo)
               case FailedOtherwise => Recovering(account, reconcile, todo))
    case (Entering(account, stage, current, reconcile, todo), Record(detail, now)) =>
      State(Entered(s.entries, account, Preflight(stage), detail, now),
            Exiting(account, current - {Preflight(stage)}, reconcile, todo))
    case (Exiting(account, pending, reconcile, todo), Clear(r)) =>
      if r in pending then State(Exited(s.entries, account, r), Exiting(account, pending - {r}, reconcile, todo)) else s
    case (Exiting(account, pending, reconcile, todo), Cleared) =>
      if pending == {} then s.(pc := Recovering(account, reconcile, todo)) else s
    case (Recovering(account, reconcile, todo), Judge(recovered)) =>
      State(if reconcile && recovered then Exited(s.entries, account, StartupReconciliationFailed) else s.entries,
            Walking(todo))
    case _ => s
  }

  function Step(s: State, a: Action): State {
    match a
    case EnterElsewhere(account, reason, detail, now) =>
      s.(entries := Entered(s.entries, account, reason, detail, now))
    case _ => ProbeStep(s, a)
  }

  function After(s: State, actions: seq<Action>): State
    decreases |actions|
  {
    if actions == [] then s else Step(After(s, actions[..|actions| - 1]), actions[|actions| - 1])
  }

  /** What the probe holds was read from the registry and only the probe clears. */
  predicate Inv(s: State) {
    && WellKept(s.entries)
    && match s.pc
       case Asking(account, current, _, _) => current != {} && current <= PreflightReasons(s.entries, account)
       case Entering(account, _, current, _, _) => current != {} && current <= PreflightReasons(s.entries, account)
       case Exiting(_, pending, _, _) => forall r :: r in pending ==> r.Preflight?
       case _ => true
  }

  lemma EnteredIsWellKept(e: Entries, account: string, reason: Reason, detail: nat, now: int)
    requires WellKept(e)
    ensures WellKept(Entered(e, account, reason, detail, now))
  {
  }

  lemma ExitedIsWellKept(e: Entries, account: string, r: Reason)
    requires WellKept(e)
    ensures WellKept(Exited(e, account, r))
  {
  }

  lemma {:induction false} StepKeepsInv(s: State, a: Action)
    requires Inv(s)
    ensures Inv(Step(s, a))
  {
    match a
    case EnterElsewhere(account, reason, detail, now) =>
      EnteredIsWellKept(s.entries, account, reason, detail, now);
      if s.pc.Asking? || s.pc.Entering? {
        EnteredReasons(s.entries, account, reason, detail, now, s.pc.account);
      }
    case Record(detail, now) =>
      if s.pc.Entering? {
        EnteredIsWellKept(s.entries, s.pc.account, Preflight(s.pc.stage), detail, now);
      }
    case Clear(r) =>
      if s.pc.Exiting? {
        ExitedIsWellKept(s.entries, s.pc.account, r);
      }
    case Judge(recovered) =>
      if s.pc.Recovering? {
        ExitedIsWellKept(s.entries, s.pc.account, StartupReconciliationFailed);
      }
    case _ =>
  }

  lemma {:induction false} RunKeepsInv(s: State, actions: seq<Action>)
    requires Inv(s)
    ensures Inv(After(s, actions))
    decreases |actions|
  {
    if actions == [] {
    } else {
      RunKeepsInv(s, actions[..|actions| - 1]);
      StepKeepsInv(After(s, actions[..|actions| - 1]), actions[|actions| - 1]);
    }
  }

  /** What a step takes from the registry: a preflight reason it was about to clear, or the startup reason. */
  lemma {:induction false} StepRemoves(s: State, a: Action, account: string, r: Reason)
    requires Inv(s) && r in ReasonsOf(s.entries, account) && r !in ReasonsOf(Step(s, a).entries, account)
    ensures || (s.pc.Exiting? && s.pc.account == account && r in s.pc.pending && r.Preflight?)
            || (s.pc.Recovering? && s.pc.account == account && a == Judge(true) && r == StartupReconciliationFailed)
  {
    match a
    case EnterElsewhere(other, reason, detail, now) =>
      EnteredReasons(s.entries, other, reason, detail, now, account);
    case Record(detail, now) =>
      if s.pc.Entering? {
        EnteredReasons(s.entries, s.pc.account, Preflight(s.pc.stage), detail, now, account);
      }
    case Clear(c) =>
      if s.pc.Exiting? {
        ExitedReasons(s.entries, s.pc.account, c, account);
      }
    case Judge(recovered) =>
      if s.pc.Recovering? {
        ExitedReasons(s.entries, s.pc.account, StartupReconciliationFailed, account);
      }
    case _ =>
  }

  /** Over every interleaving a reason of another kind, once entered, stays. */
  lemma {:induction false} OtherReasonsStay(s: State, actions: seq<Action>, account: string, r: Reason)
    requires Inv(s) && r in ReasonsOf(s.entries, account)
    requires !r.Preflight? && r != StartupReconciliationFailed
    ensures r in ReasonsOf(After(s, actions).entries, account)
    decreases |actions|
  {
    if actions == [] {
    } else {
      var before, a := After(s, actions[..|actions| - 1]), actions[|actions| - 1];
      OtherReasonsStay(s, actions[..|actions| - 1], account, r);
      RunKeepsInv(s, actions[..|actions| - 1]);
      if r !in ReasonsOf(Step(before, a).entries, account) {
        StepRemoves(before, a, account, r);
      }
    }
  }

  /** The account has a preflight reason that the probe is not about to clear. */
  predicate Guarded(s: State, account: string) {
    exists r :: && r in ReasonsOf(s.entries, account) && r.Preflight?
                && !(s.pc.Exiting? && s.pc.account == account && r in s.pc.pending)
  }

  /** The step is a passing preflight of the account. */
  predicate Passes(s: State, a: Action, account: string) {
    s.pc.Asking? && s.pc.account == account && a == Answer(Passed)
  }

  /** Only a passing preflight of the account takes its guard away. */
  lemma {:induction false} StepKeepsGuard(s: State, a: Action, account: string)
    requires Inv(s) && Guarded(s, account) && !Passes(s, a, account)
    ensures Guarded(Step(s, a), account)
  {
    var r :| && r in ReasonsOf(s.entries, account) && r.Preflight?
             && !(s.pc.Exiting? && s.pc.account == account && r in s.pc.pending);
    var s' := Step(s, a);
    if r !in ReasonsOf(s'.entries, account) {
      StepRemoves(s, a, account, r);
    }
    if s.pc.Entering? && s.pc.account == account && a.Record? {
      EnteredReasons(s.entries, account, Preflight(s.pc.stage), a.detail, a.now, account);
      assert Preflight(s.pc.stage) in ReasonsOf(s'.entries, account);
    } else {
      assert r in ReasonsOf(s'.entries, account);
    }
  }

  /** No step of the run is a passing preflight of the account. */
  ghost predicate NeverPasses(s: State, actions: seq<Action>, account: string) {
    forall n :: 0 <= n < |actions| ==> !Passes(After(s, actions[..n]), actions[n], account)
  }

  lemma {:induction false} RunKeepsGuard(s: State, actions: seq<Action>, account: string)
    requires Inv(s) && Guarded(s, account) && NeverPasses(s, actions, account)
    ensures Guarded(After(s, actions), account)
    decreases |actions|
  {
    if actions == [] {
    } else {
      var front := actions[..|actions| - 1];
      forall n | 0 <= n < |front| ensures !Passes(After(s, front[..n]), front[n], account) {
        assert front[..n] == actions[..n];
      }
      RunKeepsGuard(s, front, account);
      RunKeepsInv(s, front);
      StepKeepsGuard(After(s, front), actions[|actions| - 1], account);
    }
  }

  /**
   A preflight that fails at any stage leaves no gap: from its answer on, through the recording of the
   new reason and the clearing of the old ones and whatever is interleaved, until a preflight of the
   account passes, the account is in maintenance in every state.
   */
  lemma {:induction false} FailureLeavesNoGap(s: State, stage: Stage, actions: seq<Action>)
    requires Inv(s) && s.pc.Asking? && NeverPasses(Step(s, Answer(FailedAt(stage))), actions, s.pc.account)
    ensures forall n :: 0 <= n <= |actions| ==>
                          s.pc.account in After(Step(s, Answer(FailedAt(stage))), actions[..n]).entries
  {
    var account := s.pc.account;
    var answered := Step(s, Answer(FailedAt(stage)));
    StepKeepsInv(s, Answer(FailedAt(stage)));
    var r :| r in s.pc.current;
    assert r in ReasonsOf(answered.entries, account);
    assert Guarded(answered, account);
    forall n | 0 <= n <= |actions| ensures account in After(answered, actions[..n]).entries {
      var front := actions[..n];
      forall m | 0 <= m < |front| ensures !Passes(After(answered, front[..m]), front[m], account) {
        assert front[..m] == actions[..m];
      }
      RunKeepsGuard(answered, front, account);
    }
  }

  /** An account leaves maintenance only by the clearing after a passing preflight or a recovered reconciliation. */
  lemma {:induction false} LeavesByRecovery(s: State, a: Action, account: string)
    requires Inv(s) && account in s.entries && account !in Step(s, a).entries
    ensures || (s.pc.Exiting? && s.pc.account == account && a.Clear?
                && ReasonsOf(s.entries, account) == {a.reason} <= s.pc.pending)
            || (s.pc.Recovering? && s.pc.account == account && a == Judge(true)
                && ReasonsOf(s.entries, account) == {StartupReconciliationFailed})
  {
    var r :| r in s.entries[account];
    StepRemoves(s, a, account, r);
    match a
    case Clear(c) => ExitedReasons(s.entries, account, c, account);
    case Judge(recovered) => ExitedReasons(s.entries, account, StartupReconciliationFailed, account);
    case _ =>
  }

  // ----- a whole round of the probe

  /** What a probe with these answers makes of the reasons of one account. */
  function Probed(reasons: set<Reason>, outcome: Outcome, recovered: bool): set<Reason> {
    var preflight := set r | r in reasons && r.Preflight?;
    var asked :=
      if preflight == {} || outcome.FailedOtherwise? then reasons
      else if outcome.Passed? then reasons - preflight
      else reasons - preflight + {Preflight(outcome.stage)};
    if recovered && StartupReconciliationFailed in reasons then asked - {StartupReconciliationFailed} else asked
  }

  lemma {:induction false} AfterConcat(s: State, first: seq<Action>, second: seq<Action>)
    ensures After(s, first + second) == After(After(s, first), second)
    decreases |second|
  {
    if second == [] {
      assert first + second == first;
    } else {
      var front := second[..|second| - 1];
      AfterConcat(s, first, front);
      assert (first + second)[..|first + second| - 1] == first + front;
    }
  }

  lemma AfterOne(s: State, a: Action)
    ensures After(s, [a]) == Step(s, a)
  {
    assert [a][..0] == [];
  }

  /** The reasons of one account are now these; every other account has those it had. */
  ghost predicate Became(e: Entries, account: string, reasons: set<Reason>, after: Entries) {
    forall a :: ReasonsOf(after, a) == if a == account then reasons else ReasonsOf(e, a)
  }

  lemma {:induction false} ExitBecomes(e: Entries, account: string, r: Reason)
    ensures Became(e, account, ReasonsOf(e, account) - {r}, Exited(e, account, r))
  {
    forall a ensures ReasonsOf(Exited(e, account, r), a)
                     == if a == account then ReasonsOf(e, account) - {r} else ReasonsOf(e, a)
    {
      ExitedReasons(e, account, r, a);
    }
  }

  lemma BecameTwice(e: Entries, account: string, some: set<Reason>, middle: Entries, all: set<Reason>, after: Entries)
    requires Became(e, account, some, middle) && Became(middle, account, all, after)
    ensures Became(e, account, all, after)
  {
  }

  lemma ClearsOne(e: Entries, account: string, pending: set<Reason>, reconcile: bool, todo: seq<string>, r: Reason)
    requires r in pending
    ensures After(State(e, Exiting(account, pending, reconcile, todo)), [Clear(r)])
            == State(Exited(e, account, r), Exiting(account, pending - {r}, reconcile, todo))
  {
    AfterOne(State(e, Exiting(account, pending, reconcile, todo)), Clear(r));
  }

  lemma {:induction false} RestIsCleared(e: Entries, account: string, pending: set<Reason>, r: Reason, after: Entries)
    requires r in pending
    requires var next := Exited(e, account, r);
             Became(next, account, ReasonsOf(next, account) - (pending - {r}), after)
    ensures Became(e, account, ReasonsOf(e, account) - pending, after)
  {
    var next := Exited(e, account, r);
    ExitBecomes(e, account, r);
    assert ReasonsOf(next, account) - (pending - {r}) == ReasonsOf(e, account) - pending;
    BecameTwice(e, account, ReasonsOf(next, account), next, ReasonsOf(e, account) - pending, after);
  }

  /** The probe can clear all that it has pending. */
  lemma {:induction false} ClearsPending(e: Entries, account: string, pending: set<Reason>, reconcile: bool,
                                         todo: seq<string>)
    returns (actions: seq<Action>, after: Entries)
    ensures After(State(e, Exiting(account, pending, reconcile, todo)), actions)
            == State(after, Exiting(account, {}, reconcile, todo))
    ensures Became(e, account, ReasonsOf(e, account) - pending, after)
    decreases |pending|
  {
    if pending == {} {
      actions, after := [], e;
    } else {
      var r :| r in pending;
      var next := Exited(e, account, r);
      var rest;
      rest, after := ClearsPending(next, account, pending - {r}, reconcile, todo);
      actions := [Clear(r)] + rest;
      AfterConcat(State(e, Exiting(account, pending, reconcile, todo)), [Clear(r)], rest);
      ClearsOne(e, account, pending, reconcile, todo, r);
      RestIsCleared(e, account, pending, r, after);
    }
  }

  /** From the preflight on: the answer is recorded, then what it clears is cleared. */
  lemma {:induction false} AsksToEnd(e: Entries, account: string, current: set<Reason>, reconcile: bool,
                                     todo: seq<string>, outcome: Outcome, detail: nat, now: int)
    returns (actions: seq<Action>, after: Entries)
    requires account != "" && current == PreflightReasons(e, account) != {}
    ensures After(State(e, Asking(account, current, reconcile, todo)), actions)
            == State(after, Recovering(account, reconcile, todo))
    ensures Became(e, account, Probed(ReasonsOf(e, account), outcome, false), after)
  {
    var s := State(e, Asking(account, current, reconcile, todo));
    AfterOne(s, Answer(outcome));
    if outcome.FailedOtherwise? {
      actions, after := [Answer(outcome)], e;
    } else {
      var before, middle, rest := AnswerIsRecorded(e, account, current, reconcile, todo, outcome, detail, now);
      var clears;
      clears, after := ClearsPending(middle, account, rest, reconcile, todo);
      actions := before + clears + [Cleared];
      AfterConcat(s, before, clears);
      AfterConcat(s, before + clears, [Cleared]);
      AfterOne(State(after, Exiting(account, {}, reconcile, todo)), Cleared);
      BecameTwice(e, account, ReasonsOf(middle, account), middle, ReasonsOf(middle, account) - rest, after);
    }
  }

  lemma {:induction false} AnswerIsRecorded(e: Entries, account: string, current: set<Reason>, reconcile: bool,
                                            todo: seq<string>, outcome: Outcome, detail: nat, now: int)
    returns (actions: seq<Action>, after: Entries, rest: set<Reason>)
    requires account != "" && current == PreflightReasons(e, account) != {} && !outcome.FailedOtherwise?
    ensures After(State(e, Asking(account, current, reconcile, todo)), actions)
            == State(after, Exiting(account, rest, reconcile, todo))
    ensures Became(e, account, ReasonsOf(after, account), after)
    ensures ReasonsOf(after, account) - rest == Probed(ReasonsOf(e, account), outcome, false)
  {
    var s := State(e, Asking(account, current, reconcile, todo));
    AfterOne(s, Answer(outcome));
    if outcome.Passed? {
      actions, after, rest := [Answer(outcome)], e, current;
    } else {
      var p, record := Preflight(outcome.stage), Record(detail, now);
      actions := [Answer(outcome)] + [record];
      AfterConcat(s, [Answer(outcome)], [record]);
      AfterOne(Step(s, Answer(outcome)), record);
      after, rest := Entered(e, account, p, detail, now), current - {p};
      EntryBecomes(e, account, p, detail, now);
    }
  }

  lemma {:induction false} EntryBecomes(e: Entries, account: string, reason: Reason, detail: nat, now: int)
    requires account != "" && !reason.Empty?
    ensures Became(e, account, ReasonsOf(e, account) + {reason}, Entered(e, account, reason, detail, now))
  {
    forall a ensures ReasonsOf(Entered(e, account, reason, detail, now), a)
                     == if a == account then ReasonsOf(e, account) + {reason} else ReasonsOf(e, a)
    {
      EnteredReasons(e, account, reason, detail, now, a);
    }
  }

  /** The verdict on the reconciliation ends the probe of an account. */
  lemma {:induction false} JudgesToEnd(e: Entries, account: string, reconcile: bool, todo: seq<string>, recovered: bool)
    returns (after: Entries)
    ensures After(State(e, Recovering(account, reconcile, todo)), [Judge(recovered)]) == State(after, Walking(todo))
    ensures Became(e, account, if reconcile && recovered then ReasonsOf(e, account) - {StartupReconciliationFailed}
                               else ReasonsOf(e, account), after)
  {
    AfterOne(State(e, Recovering(account, reconcile, todo)), Judge(recovered));
    after := if reconcile && recovered then Exited(e, account, StartupReconciliationFailed) else e;
    ExitBecomes(e, account, StartupReconciliationFailed);
  }

  /** A visit reads the reasons of the account and asks for its preflight when there is one to clear. */
  lemma {:induction false} VisitsToEnd(e: Entries, account: string, todo: seq<string>, outcome: Outcome,
                                       detail: nat, now: int)
    returns (actions: seq<Action>, after: Entries)
    requires account != ""
    ensures After(State(e, Walking([account] + todo)), actions)
            == State(after, Recovering(account, Has(e, account, StartupReconciliationFailed), todo))
    ensures Became(e, account, Probed(ReasonsOf(e, account), outcome, false), after)
  {
    var s := State(e, Walking([account] + todo));
    var current, reconcile := PreflightReasons(e, account), Has(e, account, StartupReconciliationFailed);
    assert ([account] + todo)[1..] == todo;
    AfterOne(s, Visit);
    if current == {} {
      actions, after := [Visit], e;
    } else {
      var asked;
      asked, after := AsksToEnd(e, account, current, reconcile, todo, outcome, detail, now);
      actions := [Visit] + asked;
      AfterConcat(s, [Visit], asked);
    }
  }

  /** The probe of one account, with whatever answers, leaves it with the reasons of Probed. */
  lemma {:induction false} ProbesOne(e: Entries, account: string, todo: seq<string>, outcome: Outcome, recovered: bool,
                                     detail: nat, now: int)
    returns (actions: seq<Action>, after: Entries)
    requires account != ""
    ensures After(State(e, Walking([account] + todo)), actions) == State(after, Walking(todo))
    ensures Became(e, account, Probed(ReasonsOf(e, account), outcome, recovered), after)
  {
    var visit, middle := VisitsToEnd(e, account, todo, outcome, detail, now);
    var reconcile := Has(e, account, StartupReconciliationFailed);
    after := JudgesToEnd(middle, account, reconcile, todo, recovered);
    actions := visit + [Judge(recovered)];
    AfterConcat(State(e, Walking([account] + todo)), visit, [Judge(recovered)]);
    BecameTwice(e, account, Probed(ReasonsOf(e, account), outcome, false), middle, ReasonsOf(after, account), after);
  }

  /** The probe of the first k accounts of the walk; behind them it stops or has come to the end. */
  lemma {:induction false} ProbesFirst(e: Entries, ids: seq<string>, k: nat, outcome: string -> Outcome,
                                       recovered: string -> bool, detail: nat, now: int)
    returns (actions: seq<Action>, after: Entries)
    requires "" !in ids && k <= |ids| && forall i, j :: 0 <= i < j < |ids| ==> ids[i] != ids[j]
    ensures After(State(e, Walking(ids)), actions) == State(after, Idle)
    ensures forall a :: ReasonsOf(after, a) == if a in ids[..k] then Probed(ReasonsOf(e, a), outcome(a), recovered(a))
                                               else ReasonsOf(e, a)
    decreases k
  {
    var s := State(e, Walking(ids));
    if k == 0 {
      actions, after := [if ids == [] then Visit else Stop], e;
      AfterOne(s, actions[0]);
    } else {
      var id, todo := ids[0], ids[1..];
      assert ids == [id] + todo && id !in todo;
      var first, middle := ProbesOne(e, id, todo, outcome(id), recovered(id), detail, now);
      var rest;
      rest, after := ProbesFirst(middle, todo, k - 1, outcome, recovered, detail, now);
      actions := first + rest;
      AfterConcat(s, first, rest);
      assert ids[..k] == [id] + todo[..k - 1];
    }
  }

  /**
   An undisturbed round of the probe over the accounts in maintenance, stopped behind the first k of them or
   not at all: whatever the preflights and reconciliations answer, each account visited ends with exactly
   the reasons of Probed, and every other keeps its own.
   */
  lemma {:induction false} RoundIsComplete(e: Entries, ids: seq<string>, k: nat, outcome: string -> Outcome,
                                           recovered: string -> bool, detail: nat, now: int)
    returns (actions: seq<Action>)
    requires WellKept(e) && (forall a :: a in ids <==> a in e) && k <= |ids|
    requires forall i, j :: 0 <= i < j < |ids| ==> ids[i] != ids[j]
    ensures var t := After(State(e, Idle), actions);
            && t.pc == Idle
            && forall a :: ReasonsOf(t.entries, a) == if a in ids[..k]
                                                      then Probed(ReasonsOf(e, a), outcome(a), recovered(a))
                                                      else ReasonsOf(e, a)
  {
    var s := State(e, Idle);
    var round, after := ProbesFirst(e, ids, k, outcome, recovered, detail, now);
    actions := [Start(ids)] + round;
    AfterConcat(s, [Start(ids)], round);
    AfterOne(s, Start(ids));
    assert (set id | id in ids) == e.Keys;
  }
}
