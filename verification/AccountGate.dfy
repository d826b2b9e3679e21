/**
 The gate that serializes intent delivery per Kalshi execution account: one buffered channel with
 one place per account, and a release that a sync.Once guards. A run is an interleaving of the
 atomic steps of any number of calls.
 */
module AccountGate {
  import opened Outcomes

  const PREFIX := "kalshi:"

  /** The constructor's loop over the trimmed account identifiers. */
  method NewSlots(ids: seq<string>) returns (slots: Option<map<string, nat>>)
    ensures slots.Some? <==> && (forall i :: 0 <= i < |ids| ==> PREFIX <= ids[i])
                             && (forall i, j :: 0 <= i < j < |ids| ==> ids[i] != ids[j])
    ensures slots.Some? ==> forall a :: a in slots.value <==> a in ids
    ensures slots.Some? ==> forall a :: a in slots.value ==> slots.value[a] == 0
  {
    var made: map<string, nat> := map[];
    for n := 0 to |ids|
      invariant forall i :: 0 <= i < n ==> PREFIX <= ids[i] && ids[i] in made
      invariant forall i, j :: 0 <= i < j < n ==> ids[i] != ids[j]
      invariant forall a :: a in made ==> a in ids[..n] && made[a] == 0
    {
      if !(PREFIX <= ids[n]) || ids[n] in made {
        return None;
      }
      made := made[ids[n] := 0];
    }
    return Some(made);
  }

  /**
   One call of AcquireExecutionAccount. Held: the slot is taken and no release has run; Firing: a
   first release runs inside the Once; Released: the Once is done.
   */
  datatype Call =
    | Waiting(account: string)
    | Cancelled(account: string)
    | Held(account: string)
    | Firing(account: string)
    | Released(account: string)

  /** The number of elements in each channel, and the calls so far. */
  datatype Gate = Gate(slots: map<string, nat>, calls: map<nat, Call>)

  /**
   Ask: a new call reaches the select. Send: its send goes through. Cancel: its context is done.
   Release: some goroutine calls its release function. Receive: the guarded receive goes through.
   */
  datatype Action =
    | Ask(id: nat, account: string)
    | Send(id: nat)
    | Cancel(id: nat)
    | Release(id: nat)
    | Receive(id: nat)

  /** An action that is not possible yet leaves the gate as it is. */
  function Step(g: Gate, a: Action): Gate {
    match a
    case Ask(id, account) =>
      if id !in g.calls && account in g.slots then g.(calls := g.calls[id := Waiting(account)]) else g
    case Send(id) =>
      if id in g.calls && g.calls[id].Waiting? && g.calls[id].account in g.slots && g.slots[g.calls[id].account] < 1
      then
        var account := g.calls[id].account;
        Gate(g.slots[account := g.slots[account] + 1], g.calls[id := Held(account)])
      else g
    case Cancel(id) =>
      if id in g.calls && g.calls[id].Waiting? then g.(calls := g.calls[id := Cancelled(g.calls[id].account)]) else g
    case Release(id) =>
      if id in g.calls && g.calls[id].Held? then g.(calls := g.calls[id := Firing(g.calls[id].account)]) else g
    case Receive(id) =>
      if id in g.calls && g.calls[id].Firing? && g.calls[id].account in g.slots && g.slots[g.calls[id].account] > 0
      then
        var account := g.calls[id].account;
        Gate(g.slots[account := g.slots[account] - 1], g.calls[id := Released(account)])
      else g
  }

  function After(g: Gate, actions: seq<Action>): Gate
    decreases |actions|
  {
    if actions == [] then g else Step(After(g, actions[..|actions| - 1]), actions[|actions| - 1])
  }

  predicate IsLive(c: Call) {
    c.Held? || c.Firing?
  }

  /** The calls that hold the account and whose release has not drained the slot. */
  function Live(g: Gate, account: string): set<nat> {
    set id | id in g.calls && IsLive(g.calls[id]) && g.calls[id].account == account
  }

  predicate Inv(g: Gate) {
    && (forall id :: id in g.calls ==> g.calls[id].account in g.slots)
    && (forall account :: account in g.slots ==> g.slots[account] == |Live(g, account)| <= 1)
  }

  /** A step that is not a send or receive for the account keeps its holders. */
  lemma OthersKeepLive(g: Gate, a: Action, account: string)
    requires a.id in g.calls && g.calls[a.id].account == account ==> !a.Send? && !a.Receive?
    ensures Live(Step(g, a), account) == Live(g, account)
  {
  }

  lemma {:induction false} SendTakes(g: Gate, a: Action)
    requires Inv(g) && a.Send? && Step(g, a) != g
    ensures Inv(Step(g, a))
  {
    var g' := Step(g, a);
    var mine := g.calls[a.id].account;
    assert Live(g', mine) == Live(g, mine) + {a.id};
    forall account | account in g.slots && account != mine ensures Live(g', account) == Live(g, account) {
    }
  }

  lemma {:induction false} ReceiveFrees(g: Gate, a: Action)
    requires Inv(g) && a.Receive? && Step(g, a) != g
    ensures Inv(Step(g, a))
  {
    var g' := Step(g, a);
    var mine := g.calls[a.id].account;
    assert Live(g', mine) == Live(g, mine) - {a.id};
    assert a.id in Live(g, mine);
    forall account | account in g.slots && account != mine ensures Live(g', account) == Live(g, account) {
    }
  }

  /** A send fills the slot for the new holder, a receive empties it, no other step touches either. */
  lemma {:induction false} StepKeepsInv(g: Gate, a: Action)
    requires Inv(g)
    ensures Inv(Step(g, a))
  {
    var g' := Step(g, a);
    if g' != g {
      if a.Send? {
        SendTakes(g, a);
      } else if a.Receive? {
        ReceiveFrees(g, a);
      } else {
        forall account | account in g'.slots ensures Live(g', account) == Live(g, account) {
          OthersKeepLive(g, a, account);
        }
      }
    }
  }

  /** Over every interleaving of any calls, an account has at most one holder and its slot says whether. */
  lemma {:induction false} AtMostOneHolder(g: Gate, actions: seq<Action>)
    requires Inv(g)
    ensures Inv(After(g, actions))
    ensures forall i, j :: var calls := After(g, actions).calls;
              i in calls && j in calls && IsLive(calls[i]) && IsLive(calls[j]) && calls[i].account == calls[j].account
              ==> i == j
    decreases |actions|
  {
    if actions == [] {
    } else {
      AtMostOneHolder(g, actions[..|actions| - 1]);
      StepKeepsInv(After(g, actions[..|actions| - 1]), actions[|actions| - 1]);
    }
    var now := After(g, actions);
    forall i, j | i in now.calls && j in now.calls && IsLive(now.calls[i]) && IsLive(now.calls[j])
                  && now.calls[i].account == now.calls[j].account
      ensures i == j
    {
      var live := Live(now, now.calls[i].account);
      assert i in live && j in live && |live - {i}| == |live| - 1;
      assert now.calls[i].account in now.slots;
      assert |live - {i}| == 0;
    }
  }

  /** The first release never blocks: whenever it runs, its receive finds the element of its own send. */
  lemma {:induction false} ReleaseNeverBlocks(g: Gate, actions: seq<Action>, id: nat)
    requires Inv(g)
    requires id in After(g, actions).calls && After(g, actions).calls[id].Firing?
    ensures Step(After(g, actions), Receive(id)).calls[id].Released?
  {
    AtMostOneHolder(g, actions);
    var now := After(g, actions);
    assert id in Live(now, now.calls[id].account);
  }

  /** A release that has run is spent: whatever follows, no call of it changes the gate again. */
  lemma {:induction false} ReleaseRunsOnce(g: Gate, actions: seq<Action>, id: nat)
    requires id in g.calls && g.calls[id].Released?
    ensures id in After(g, actions).calls && After(g, actions).calls[id] == g.calls[id]
    ensures Step(After(g, actions), Release(id)) == After(g, actions)
    ensures Step(After(g, actions), Receive(id)) == After(g, actions)
    decreases |actions|
  {
    if actions == [] {
    } else {
      ReleaseRunsOnce(g, actions[..|actions| - 1], id);
    }
  }

  /** A freed account can be taken again: a waiting call of an account without holder goes through. */
  lemma {:induction false} FreeAccountIsGranted(g: Gate, id: nat)
    requires Inv(g) && id in g.calls && g.calls[id].Waiting?
    ensures Step(g, Send(id)).calls[id].Held? <==> Live(g, g.calls[id].account) == {}
  {
    var account := g.calls[id].account;
    assert account in g.slots;
    if Live(g, account) == {} {
      assert g.slots[account] == 0;
    }
  }

  /** A call is admitted exactly for an account of the gate, and then waits. */
  lemma {:induction false} AskWaits(g: Gate, id: nat, account: string)
    requires id !in g.calls
    ensures id in Step(g, Ask(id, account)).calls <==> account in g.slots
    ensures account in g.slots ==> Step(g, Ask(id, account)) == g.(calls := g.calls[id := Waiting(account)])
  {
  }

  /** Only its own release ends a hold: whatever else happens, the holder keeps the account. */
  lemma {:induction false} HoldLasts(g: Gate, actions: seq<Action>, id: nat)
    requires id in g.calls && g.calls[id].Held? && Release(id) !in actions
    ensures id in After(g, actions).calls && After(g, actions).calls[id] == g.calls[id]
    decreases |actions|
  {
    if actions == [] {
    } else {
      HoldLasts(g, actions[..|actions| - 1], id);
      assert actions[|actions| - 1] in actions;
    }
  }

  lemma {:induction false} FiringLasts(g: Gate, actions: seq<Action>, id: nat)
    requires id in g.calls && g.calls[id].Firing? && Receive(id) !in actions
    ensures id in After(g, actions).calls && After(g, actions).calls[id] == g.calls[id]
    decreases |actions|
  {
    if actions == [] {
    } else {
      FiringLasts(g, actions[..|actions| - 1], id);
      assert actions[|actions| - 1] in actions;
    }
  }

  /**
   The first release of a holder frees its account, whatever is interleaved between the call of it and
   its receive, and the next waiting call can then be granted.
   */
  lemma {:induction false} ReleaseFrees(g: Gate, actions: seq<Action>, id: nat)
    requires Inv(g) && id in g.calls && g.calls[id].Held? && Receive(id) !in actions
    ensures var account := g.calls[id].account;
            var freed := Step(After(Step(g, Release(id)), actions), Receive(id));
            && Live(freed, account) == {} && account in freed.slots && freed.slots[account] == 0
            && forall w :: w in freed.calls && freed.calls[w] == Waiting(account) ==>
                             Step(freed, Send(w)).calls[w] == Held(account)
  {
    var account, fired := g.calls[id].account, Step(g, Release(id));
    StepKeepsInv(g, Release(id));
    AtMostOneHolder(fired, actions);
    FiringLasts(fired, actions, id);
    var before := After(fired, actions);
    assert id in Live(before, account);
    StepKeepsInv(before, Receive(id));
    var freed := Step(before, Receive(id));
    assert freed.slots[account] == |Live(freed, account)| == 0;
  }

  /** A cancelled call never holds the account afterwards. */
  lemma {:induction false} CancelledNeverHolds(g: Gate, actions: seq<Action>, id: nat)
    requires id in g.calls && g.calls[id].Waiting?
    ensures var now := After(Step(g, Cancel(id)), actions);
            id in now.calls && now.calls[id] == Cancelled(g.calls[id].account)
    decreases |actions|
  {
    if actions == [] {
    } else {
      CancelledNeverHolds(g, actions[..|actions| - 1], id);
    }
  }

  /** A new gate holds nothing. */
  lemma NewGateIsFree(slots: map<string, nat>)
    requires forall a :: a in slots ==> slots[a] == 0
    ensures Inv(Gate(slots, map[]))
  {
    forall a | a in slots ensures Live(Gate(slots, map[]), a) == {} {
    }
  }
}
