/**
 The one-pass choice of the effective prediction of each market and model in a snapshot. Times are
 integers, identifiers are represented by their rank in text order, payload and identity tuples by
 a number each.
 */
module EffectivePredictions {
  import opened Outcomes
  import opened Sorting

  datatype SourceMode = Direct | Sandbox

  datatype Key = Key(market: nat, model: nat)

  datatype Prediction = Prediction(
    id: nat, key: Key, sandboxed: bool, asOf: int, completedAt: int, availableAt: int,
    payload: nat, identity: nat, sourceJob: nat, condition: nat, outcomes: nat)

  /** The active models, their configured modes, the decision time and the freshness bound. */
  datatype Rules = Rules(models: set<nat>, modes: map<nat, SourceMode>, decisionAt: int, freshAfter: int)

  predicate Configured(r: Rules) {
    r.models <= r.modes.Keys
  }

  /** The time checks of _snapshot_prediction. */
  predicate Visible(p: Prediction, r: Rules) {
    p.asOf <= p.completedAt <= p.availableAt <= r.decisionAt
  }

  predicate Eligible(p: Prediction, r: Rules)
    requires Configured(r)
  {
    && p.key.model in r.models
    && (r.modes[p.key.model].Direct? ==> !p.sandboxed)
    && (r.modes[p.key.model].Sandbox? ==> p.sandboxed)
    && r.freshAfter <= p.asOf && r.freshAfter <= p.completedAt
  }

  predicate SameRecency(p: Prediction, q: Prediction) {
    p.asOf == q.asOf && p.availableAt == q.availableAt && p.completedAt == q.completedAt
  }

  predicate MoreRecent(p: Prediction, q: Prediction) {
    || p.asOf > q.asOf
    || (p.asOf == q.asOf && (p.availableAt > q.availableAt
                             || (p.availableAt == q.availableAt && p.completedAt > q.completedAt)))
  }

  /** Greater by (as_of, available_at, completed_at, prediction_id). */
  predicate Newer(p: Prediction, q: Prediction) {
    MoreRecent(p, q) || (SameRecency(p, q) && p.id > q.id)
  }

  /** The four fields are compared as Python compares the tuples. */
  lemma NewerIsTupleOrder(p: Prediction, q: Prediction)
    ensures Newer(p, q)
            <==> TupleLess([q.asOf, q.availableAt, q.completedAt, q.id], [p.asOf, p.availableAt, p.completedAt, p.id])
  {
    Tuples4(q.asOf, q.availableAt, q.completedAt, q.id, p.asOf, p.availableAt, p.completedAt, p.id);
  }

  /** p is eligible for its key and newer than every other eligible prediction of that key. */
  ghost predicate Newest(s: seq<Prediction>, r: Rules, p: Prediction)
    requires Configured(r)
  {
    && p in s && Eligible(p, r)
    && forall q :: q in s && q.key == p.key && Eligible(q, r) ==> q == p || Newer(p, q)
  }

  /** Prediction i ties with the one held for its key by then and says something else. */
  ghost predicate Clashes(s: seq<Prediction>, r: Rules, i: nat)
    requires Configured(r) && i < |s|
  {
    && Eligible(s[i], r)
    && exists p :: Newest(s[..i], r, p) && p.key == s[i].key && SameRecency(p, s[i]) && p.payload != s[i].payload
  }

  predicate DistinctIds(s: seq<Prediction>) {
    forall i, j :: 0 <= i < j < |s| ==> s[i].id != s[j].id
  }

  ghost predicate AllVisible(s: seq<Prediction>, r: Rules) {
    forall p :: p in s ==> Visible(p, r)
  }

  /** The chosen predictions of one market agree on its identity across models. */
  ghost predicate WinnersAgree(s: seq<Prediction>, r: Rules)
    requires Configured(r)
  {
    forall p, q :: Newest(s, r, p) && Newest(s, r, q) && p.key.market == q.key.market ==> p.identity == q.identity
  }

  /** What acceptance of a snapshot in this order means. */
  ghost predicate Accepts(s: seq<Prediction>, r: Rules)
    requires Configured(r)
  {
    && AllVisible(s, r) && DistinctIds(s) && WinnersAgree(s, r)
    && forall i :: 0 <= i < |s| ==> !Clashes(s, r, i)
  }

  /** selected holds for each key exactly the newest eligible prediction. */
  ghost predicate Selects(selected: map<Key, Prediction>, s: seq<Prediction>, r: Rules)
    requires Configured(r)
  {
    && (forall k :: k in selected ==> selected[k].key == k && Newest(s, r, selected[k]))
    && (forall p :: p in s && Eligible(p, r) ==> p.key in selected)
  }

  ghost predicate Indexes(byId: map<nat, Prediction>, s: seq<Prediction>) {
    && (forall p :: p in s ==> p.id in byId && byId[p.id] == p)
    && (forall id :: id in byId ==> byId[id] in s && byId[id].id == id)
  }

  lemma NewestIsUnique(s: seq<Prediction>, r: Rules, p: Prediction, q: Prediction)
    requires Configured(r) && Newest(s, r, p) && Newest(s, r, q) && p.key == q.key
    ensures p == q
  {
  }

  /** The choice one loop step makes for an accepted item, None when it raises. */
  function Offer(selected: map<Key, Prediction>, x: Prediction, r: Rules): Option<map<Key, Prediction>>
    requires Configured(r)
  {
    if x.key.model !in r.models then Some(selected)
    else
      var mode := r.modes[x.key.model];
      if (mode.Direct? && x.sandboxed) || (mode.Sandbox? && !x.sandboxed) then Some(selected)
      else if x.asOf < r.freshAfter || x.completedAt < r.freshAfter then Some(selected)
      else if x.key !in selected then Some(selected[x.key := x])
      else
        var held := selected[x.key];
        if x.asOf == held.asOf && x.availableAt == held.availableAt && x.completedAt == held.completedAt then
          if x.payload != held.payload then None
          else if x.id > held.id then Some(selected[x.key := x])
          else Some(selected)
        else if x.asOf != held.asOf then if x.asOf > held.asOf then Some(selected[x.key := x]) else Some(selected)
        else if x.availableAt != held.availableAt then
          if x.availableAt > held.availableAt then Some(selected[x.key := x]) else Some(selected)
        else if x.completedAt > held.completedAt then Some(selected[x.key := x])
        else Some(selected)
  }

  lemma {:induction false} OfferSelects(selected: map<Key, Prediction>, s: seq<Prediction>, x: Prediction, r: Rules)
    requires Configured(r) && Selects(selected, s, r)
    requires forall q :: q in s ==> q.id != x.id
    requires Offer(selected, x, r).Some?
    ensures Selects(Offer(selected, x, r).value, s + [x], r)
  {
    var next := Offer(selected, x, r).value;
    forall k | k in next
      ensures next[k].key == k && Newest(s + [x], r, next[k])
    {
      var p := next[k];
      forall q | q in s + [x] && q.key == p.key && Eligible(q, r) ensures q == p || Newer(p, q) {
        if p == x && q != x && k in selected {
          NewerIsTransitive(x, selected[k], q);
        }
      }
    }
  }

  /** The step raises exactly on a clash. */
  lemma {:induction false} OfferClashes(selected: map<Key, Prediction>, s: seq<Prediction>, r: Rules, n: nat)
    requires Configured(r) && n < |s| && Selects(selected, s[..n], r)
    ensures Offer(selected, s[n], r).None? <==> Clashes(s, r, n)
  {
    forall p | Newest(s[..n], r, p) && p.key == s[n].key
      ensures s[n].key in selected && p == selected[s[n].key]
    {
      NewestIsUnique(s[..n], r, p, selected[p.key]);
    }
  }

  lemma NewerIsTransitive(a: Prediction, b: Prediction, c: Prediction)
    ensures Newer(a, b) && (b == c || Newer(b, c)) ==> Newer(a, c)
  {
  }

  /** The state of the loop behind the first n predictions. */
  ghost predicate Reached(
    s: seq<Prediction>, r: Rules, n: nat, selected: map<Key, Prediction>, byId: map<nat, Prediction>)
    requires Configured(r) && n <= |s|
  {
    && Selects(selected, s[..n], r) && Indexes(byId, s[..n])
    && DistinctIds(s[..n]) && AllVisible(s[..n], r)
    && forall i :: 0 <= i < n ==> !Clashes(s, r, i)
  }

  lemma {:induction false} NextReached(
    s: seq<Prediction>, r: Rules, n: nat, selected: map<Key, Prediction>, byId: map<nat, Prediction>)
    requires Configured(r) && n < |s| && Reached(s, r, n, selected, byId)
    requires Visible(s[n], r) && s[n].id !in byId && Offer(selected, s[n], r).Some?
    ensures Reached(s, r, n + 1, Offer(selected, s[n], r).value, byId[s[n].id := s[n]])
  {
    assert s[..n + 1] == s[..n] + [s[n]];
    OfferSelects(selected, s[..n], s[n], r);
    OfferClashes(selected, s, r, n);
  }

  lemma {:induction false} RaiseRefuses(
    s: seq<Prediction>, r: Rules, n: nat, selected: map<Key, Prediction>, byId: map<nat, Prediction>)
    requires Configured(r) && n < |s| && Reached(s, r, n, selected, byId)
    requires !Visible(s[n], r) || s[n].id in byId || Offer(selected, s[n], r).None?
    ensures !Accepts(s, r)
  {
    if !Visible(s[n], r) {
      assert s[n] in s;
    } else if s[n].id in byId {
      var k :| 0 <= k < n && s[..n][k] == byId[s[n].id];
      assert s[k].id == s[n].id;
    } else {
      OfferClashes(selected, s, r, n);
    }
  }

  /** _select_effective_snapshot_predictions */
  method Select(s: seq<Prediction>, r: Rules)
    returns (result: Option<map<Key, Prediction>>, byId: map<nat, Prediction>)
    requires Configured(r)
    ensures result.Some? <==> Accepts(s, r)
    ensures result.Some? ==> Selects(result.value, s, r) && Indexes(byId, s)
  {
    var selected: map<Key, Prediction> := map[];
    byId := map[];
    for n := 0 to |s|
      invariant Reached(s, r, n, selected, byId)
    {
      var x := s[n];
      if x.asOf > r.decisionAt || x.completedAt > r.decisionAt || x.availableAt > r.decisionAt {
        RaiseRefuses(s, r, n, selected, byId);
        return None, map[];
      }
      if x.completedAt < x.asOf || x.availableAt < x.completedAt || x.id in byId {
        RaiseRefuses(s, r, n, selected, byId);
        return None, map[];
      }
      var offered := Offer(selected, x, r);
      if offered.None? {
        RaiseRefuses(s, r, n, selected, byId);
        return None, map[];
      }
      NextReached(s, r, n, selected, byId);
      byId := byId[x.id := x];
      selected := offered.value;
    }
    assert s[..|s|] == s;
    var agree := CheckIdentities(selected);
    SelectedAreWinners(selected, s, r);
    if !agree {
      return None, map[];
    }
    return Some(selected), byId;
  }

  /** The identity loop over the chosen predictions, in whatever order the dictionary lists them. */
  method CheckIdentities(selected: map<Key, Prediction>) returns (agree: bool)
    ensures agree <==> IdentitiesAgree(selected)
  {
    var identities: map<nat, nat> := map[];
    var rest := selected.Keys;
    while rest != {}
      invariant rest <= selected.Keys
      invariant forall k :: k in selected.Keys - rest ==>
                  k.market in identities && identities[k.market] == selected[k].identity
      invariant forall m :: m in identities ==>
                  exists k :: k in selected.Keys - rest && k.market == m
      decreases |rest|
    {
      var k :| k in rest;
      var p := selected[k];
      if k.market in identities && identities[k.market] != p.identity {
        return false;
      }
      identities := identities[k.market := p.identity];
      rest := rest - {k};
    }
    return true;
  }

  ghost predicate IdentitiesAgree(selected: map<Key, Prediction>) {
    forall j, k :: j in selected && k in selected && j.market == k.market ==>
                     selected[j].identity == selected[k].identity
  }

  lemma {:induction false} SelectedAreWinners(selected: map<Key, Prediction>, s: seq<Prediction>, r: Rules)
    requires Configured(r) && Selects(selected, s, r)
    ensures IdentitiesAgree(selected) <==> WinnersAgree(s, r)
  {
    forall p | Newest(s, r, p) ensures p.key in selected && selected[p.key] == p {
      NewestIsUnique(s, r, p, selected[p.key]);
    }
    if WinnersAgree(s, r) {
      forall j, k | j in selected && k in selected && j.market == k.market
        ensures selected[j].identity == selected[k].identity
      {
        assert Newest(s, r, selected[j]) && Newest(s, r, selected[k]);
      }
    }
  }

  // ----- what depends on the order of the snapshot, and what does not

  lemma {:induction false} NewestIgnoresOrder(s: seq<Prediction>, t: seq<Prediction>, r: Rules)
    requires Configured(r) && multiset(s) == multiset(t)
    ensures forall p :: p in s <==> p in t
    ensures forall p :: Newest(s, r, p) <==> Newest(t, r, p)
  {
    SameMembers(s, t);
  }

  /** Two accepted orders of the same predictions choose the same prediction for every key. */
  lemma {:induction false} SelectionIgnoresOrder(
    s: seq<Prediction>, t: seq<Prediction>, r: Rules, a: map<Key, Prediction>, b: map<Key, Prediction>)
    requires Configured(r) && multiset(s) == multiset(t)
    requires Selects(a, s, r) && Selects(b, t, r)
    ensures a == b
  {
    NewestIgnoresOrder(s, t, r);
    forall k | k in a ensures k in b && b[k] == a[k] {
      assert a[k] in t;
      NewestIsUnique(t, r, a[k], b[k]);
    }
    forall k | k in b ensures k in a {
      assert b[k] in s;
    }
  }

  predicate SaysOtherwise(p: Prediction, q: Prediction) {
    p.key == q.key && SameRecency(p, q) && p.payload != q.payload
  }

  /** Two eligible revisions of one key and recency that differ. */
  ghost predicate Ambiguous(s: seq<Prediction>, r: Rules)
    requires Configured(r)
  {
    exists p, q :: p in s && q in s && Eligible(p, r) && Eligible(q, r) && SaysOtherwise(p, q)
  }

  /** Nothing eligible of its key is more recent than p. */
  ghost predicate Top(s: seq<Prediction>, r: Rules, p: Prediction)
    requires Configured(r)
  {
    p in s && Eligible(p, r) && forall q :: q in s && q.key == p.key && Eligible(q, r) ==> !MoreRecent(q, p)
  }

  /** The ambiguity is at the most recent revision itself. */
  ghost predicate AmbiguousAtTop(s: seq<Prediction>, r: Rules)
    requires Configured(r)
  {
    exists p, q :: Top(s, r, p) && q in s && Eligible(q, r) && SaysOtherwise(p, q)
  }

  ghost predicate Sound(s: seq<Prediction>, r: Rules)
    requires Configured(r)
  {
    AllVisible(s, r) && DistinctIds(s) && WinnersAgree(s, r) && !AmbiguousAtTop(s, r)
  }

  function IdsOf(s: seq<Prediction>): seq<nat> {
    seq(|s|, i requires 0 <= i < |s| => s[i].id)
  }

  lemma DistinctIdsPermute(s: seq<Prediction>, t: seq<Prediction>)
    requires multiset(s) == multiset(t) && DistinctIds(s)
    ensures DistinctIds(t)
  {
    var id := (p: Prediction) => p.id;
    MapPermutes(s, t, id);
    assert IdsOf(s) == Map(s, id) && IdsOf(t) == Map(t, id);
    assert forall i :: 0 <= i < |s| ==> IdsOf(s)[i] == s[i].id;
    PermutationHasNoRepeats(IdsOf(s), IdsOf(t));
    forall i, j | 0 <= i < j < |t| ensures t[i].id != t[j].id {
      assert IdsOf(t)[i] != IdsOf(t)[j];
    }
  }

  lemma {:induction false} SoundIgnoresOrder(s: seq<Prediction>, t: seq<Prediction>, r: Rules)
    requires Configured(r) && multiset(s) == multiset(t) && Sound(s, r)
    ensures Sound(t, r)
  {
    NewestIgnoresOrder(s, t, r);
    DistinctIdsPermute(s, t);
    forall p | Top(t, r, p) ensures Top(s, r, p) {
    }
  }

  /** The newest of the first predictions and one more: the newer of the two. */
  lemma {:induction false} NewestGrows(
    front: seq<Prediction>, last: Prediction, r: Rules, held: Prediction) returns (p: Prediction)
    requires Configured(r) && Newest(front, r, held) && held.id != last.id
    ensures Newest(front + [last], r, p) && p.key == held.key
  {
    if last.key == held.key && Eligible(last, r) && Newer(last, held) {
      p := last;
      forall q | q in front + [last] && q.key == p.key && Eligible(q, r) ensures q == p || Newer(p, q) {
        NewerIsTransitive(last, held, q);
      }
    } else {
      p := held;
    }
  }

  lemma {:induction false} NewestExists(s: seq<Prediction>, r: Rules, x: Prediction) returns (p: Prediction)
    requires Configured(r) && DistinctIds(s) && x in s && Eligible(x, r)
    ensures Newest(s, r, p) && p.key == x.key
  {
    var front, last := s[..|s| - 1], s[|s| - 1];
    assert s == front + [last];
    if exists y :: y in front && y.key == x.key && Eligible(y, r) {
      var y :| y in front && y.key == x.key && Eligible(y, r);
      var held := NewestExists(front, r, y);
      var k :| 0 <= k < |front| && front[k] == held;
      assert s[k].id != s[|s| - 1].id;
      p := NewestGrows(front, last, r, held);
    } else {
      p := x;
      assert x == last;
    }
  }

  /** While nothing clashed, everything as recent as the held prediction says the same as it. */
  lemma {:induction false} HeldSpeaksForTies(s: seq<Prediction>, r: Rules, n: nat, p: Prediction, q: Prediction)
    requires Configured(r) && DistinctIds(s) && n <= |s|
    requires forall i :: 0 <= i < n ==> !Clashes(s, r, i)
    requires Newest(s[..n], r, p) && q in s[..n] && Eligible(q, r) && p.key == q.key && SameRecency(p, q)
    ensures p.payload == q.payload
  {
    var x := s[n - 1];
    assert s[..n] == s[..n - 1] + [x];
    if p == x && q == x {
    } else if p != x {
      assert Newest(s[..n - 1], r, p);
      if q == x {
        assert !Clashes(s, r, n - 1);
      } else {
        HeldSpeaksForTies(s, r, n - 1, p, q);
      }
    } else {
      assert DistinctIds(s[..n - 1]);
      var held := NewestExists(s[..n - 1], r, q);
      TieWithHeld(s[..n - 1], r, p, held, q);
      assert !Clashes(s, r, n - 1);
      HeldSpeaksForTies(s, r, n - 1, held, q);
    }
  }

  lemma TieWithHeld(s: seq<Prediction>, r: Rules, p: Prediction, held: Prediction, q: Prediction)
    requires Configured(r) && Newest(s, r, held) && held.key == q.key == p.key && q in s && Eligible(q, r)
    requires SameRecency(p, q) && Newer(p, held)
    ensures SameRecency(held, q) && SameRecency(held, p)
  {
  }

  lemma {:induction false} AcceptedIsSound(s: seq<Prediction>, r: Rules)
    requires Configured(r) && Accepts(s, r)
    ensures Sound(s, r)
  {
    forall p, q | Top(s, r, p) && q in s && Eligible(q, r) ensures !SaysOtherwise(p, q) {
      if SaysOtherwise(p, q) {
        var held := NewestExists(s, r, p);
        assert s[..|s|] == s;
        HeldSpeaksForTies(s, r, |s|, held, p);
        HeldSpeaksForTies(s, r, |s|, held, q);
      }
    }
  }

  // ----- an order that is accepted: the chosen predictions first

  ghost function Winners(s: seq<Prediction>, all: seq<Prediction>, r: Rules, wanted: bool): seq<Prediction>
    requires Configured(r)
  {
    if s == [] then []
    else
      var rest, last := Winners(s[..|s| - 1], all, r, wanted), s[|s| - 1];
      if Newest(all, r, last) == wanted then rest + [last] else rest
  }

  lemma {:induction false} WinnersPermute(s: seq<Prediction>, all: seq<Prediction>, r: Rules)
    requires Configured(r)
    ensures multiset(Winners(s, all, r, true) + Winners(s, all, r, false)) == multiset(s)
  {
    if s == [] {
    } else {
      WinnersPermute(s[..|s| - 1], all, r);
      assert s == s[..|s| - 1] + [s[|s| - 1]];
    }
  }

  lemma {:induction false} WinnersSplit(s: seq<Prediction>, all: seq<Prediction>, r: Rules)
    requires Configured(r)
    ensures forall p :: p in Winners(s, all, r, true) <==> p in s && Newest(all, r, p)
    ensures forall p :: p in Winners(s, all, r, false) ==> !Newest(all, r, p)
  {
    if s == [] {
    } else {
      WinnersSplit(s[..|s| - 1], all, r);
      assert s == s[..|s| - 1] + [s[|s| - 1]];
    }
  }

  lemma {:induction false} WinnersFirstIsAccepted(s: seq<Prediction>, r: Rules) returns (t: seq<Prediction>)
    requires Configured(r) && Sound(s, r)
    ensures multiset(t) == multiset(s) && Accepts(t, r)
  {
    var first, second := Winners(s, s, r, true), Winners(s, s, r, false);
    t := first + second;
    WinnersPermute(s, s, r);
    WinnersSplit(s, s, r);
    SoundIgnoresOrder(s, t, r);
    NewestIgnoresOrder(s, t, r);
    forall i | 0 <= i < |t| ensures !Clashes(t, r, i) {
      NoClashBehindWinners(first, t, r, i);
    }
  }

  lemma {:induction false} NoClashBehindWinners(first: seq<Prediction>, t: seq<Prediction>, r: Rules, i: nat)
    requires Configured(r) && i < |t| && |first| <= |t| && first == t[..|first|]
    requires DistinctIds(t) && !AmbiguousAtTop(t, r)
    requires forall p :: p in first <==> Newest(t, r, p)
    ensures !Clashes(t, r, i)
  {
    forall p | Newest(t[..i], r, p) && p.key == t[i].key && Eligible(t[i], r)
      ensures !(SameRecency(p, t[i]) && p.payload != t[i].payload)
    {
      var k :| 0 <= k < i && t[..i][k] == p;
      assert t[k].id != t[i].id;
      if i < |first| {
        assert t[k] == first[k] && t[i] == first[i];
        NewestIsUnique(t, r, p, t[i]);
      } else {
        var best := NewestExists(t, r, t[i]);
        BestIsHeld(first, t, i, r, best, p);
        assert Top(t, r, p);
      }
    }
  }

  lemma BestIsHeld(first: seq<Prediction>, t: seq<Prediction>, i: nat, r: Rules, best: Prediction, p: Prediction)
    requires Configured(r) && |first| <= i < |t| && first == t[..|first|]
    requires Newest(t, r, best) && best in first && Newest(t[..i], r, p) && p.key == best.key
    ensures p == best
  {
    var k :| 0 <= k < |first| && first[k] == best;
    assert t[..i][k] == best;
    assert best in t[..i];
    assert p in t;
  }

  /**
   Some order of a snapshot is accepted exactly when its predictions are visible with distinct
   identifiers, the most recent revisions are unambiguous and the choices agree on each market.
   */
  lemma {:induction false} SomeOrderIsAccepted(s: seq<Prediction>, r: Rules)
    requires Configured(r)
    ensures (exists t :: multiset(t) == multiset(s) && Accepts(t, r)) <==> Sound(s, r)
  {
    if Sound(s, r) {
      var t := WinnersFirstIsAccepted(s, r);
    }
    forall t | multiset(t) == multiset(s) && Accepts(t, r) ensures Sound(s, r) {
      AcceptedIsSound(t, r);
      SoundIgnoresOrder(t, s, r);
    }
  }

  lemma PullOut(s: seq<Prediction>, p: Prediction) returns (rest: seq<Prediction>)
    requires p in s
    ensures multiset(s) == multiset(rest) + multiset{p}
  {
    var i :| 0 <= i < |s| && s[i] == p;
    rest := s[..i] + s[i + 1..];
    assert s == s[..i] + [p] + s[i + 1..];
  }

  /** An ambiguous pair at the front of the snapshot is refused. */
  lemma {:induction false} AmbiguousPairIsRefused(s: seq<Prediction>, r: Rules) returns (t: seq<Prediction>)
    requires Configured(r) && Ambiguous(s, r)
    ensures multiset(t) == multiset(s) && !Accepts(t, r)
  {
    var p, q :| p in s && q in s && Eligible(p, r) && Eligible(q, r) && SaysOtherwise(p, q);
    var rest := PullOut(s, p);
    assert q in multiset(s) && q != p;
    assert q in multiset(rest);
    var others := PullOut(rest, q);
    t := [p, q] + others;
    assert t[..1] == [p];
    assert Newest(t[..1], r, p);
    assert Clashes(t, r, 1);
  }

  lemma {:induction false} UnambiguousNeverClashes(s: seq<Prediction>, t: seq<Prediction>, r: Rules, i: nat)
    requires Configured(r) && !Ambiguous(s, r) && i < |t| && forall p :: p in t ==> p in s
    ensures !Clashes(t, r, i)
  {
    if Clashes(t, r, i) {
      var p :| Newest(t[..i], r, p) && p.key == t[i].key && SameRecency(p, t[i]) && p.payload != t[i].payload;
      assert p in t && t[i] in t;
      assert SaysOtherwise(p, t[i]);
    }
  }

  lemma {:induction false} UnambiguousIsAccepted(s: seq<Prediction>, t: seq<Prediction>, r: Rules)
    requires Configured(r) && multiset(t) == multiset(s) && Sound(s, r) && !Ambiguous(s, r)
    ensures Accepts(t, r)
  {
    SoundIgnoresOrder(s, t, r);
    SameMembers(s, t);
    forall i | 0 <= i < |t| ensures !Clashes(t, r, i) {
      UnambiguousNeverClashes(s, t, r, i);
    }
  }

  /** Acceptance is the same in every order exactly when no eligible revisions tie and differ. */
  lemma {:induction false} EveryOrderIsAccepted(s: seq<Prediction>, r: Rules)
    requires Configured(r)
    ensures (forall t :: multiset(t) == multiset(s) ==> Accepts(t, r)) <==> Sound(s, r) && !Ambiguous(s, r)
  {
    if Sound(s, r) && !Ambiguous(s, r) {
      forall t | multiset(t) == multiset(s) ensures Accepts(t, r) {
        UnambiguousIsAccepted(s, t, r);
      }
    } else if Sound(s, r) {
      var t := AmbiguousPairIsRefused(s, r);
    } else if Accepts(s, r) {
      AcceptedIsSound(s, r);
    }
  }

  // ----- a snapshot whose acceptance depends on its order

  /** Two older revisions tie and differ, a newer one of the same key does not. */
  const OLDER := Prediction(1, Key(0, 0), false, 1, 1, 1, 1, 0, 1, 0, 0)
  const OTHER := Prediction(2, Key(0, 0), false, 1, 1, 1, 2, 0, 2, 0, 0)
  const NEWER := Prediction(3, Key(0, 0), false, 2, 2, 2, 3, 0, 3, 0, 0)
  const ONE_MODEL := Rules({0}, map[0 := Direct], 2, 0)

  lemma {:induction false} NewerFirstIsAccepted()
    ensures Configured(ONE_MODEL) && Accepts([NEWER, OLDER, OTHER], ONE_MODEL)
  {
    var s, r := [NEWER, OLDER, OTHER], ONE_MODEL;
    forall i | 0 <= i < |s| ensures !Clashes(s, r, i) {
      forall p | Newest(s[..i], r, p) ensures p == NEWER {
        assert s[..i][0] == NEWER;
        assert NEWER in s[..i];
      }
    }
    forall p | Newest(s, r, p) ensures p == NEWER {
      assert s[0] == NEWER && NEWER in s;
    }
  }

  lemma {:induction false} OlderFirstIsRefused()
    ensures Configured(ONE_MODEL) && !Accepts([OLDER, OTHER, NEWER], ONE_MODEL)
  {
    var s, r := [OLDER, OTHER, NEWER], ONE_MODEL;
    assert s[..1] == [OLDER];
    assert Newest(s[..1], r, OLDER);
    assert Clashes(s, r, 1);
  }

  /** The same three predictions are accepted in one order and refused in another. */
  lemma {:induction false} OrderCanDecide()
    ensures multiset([NEWER, OLDER, OTHER]) == multiset([OLDER, OTHER, NEWER])
    ensures Configured(ONE_MODEL)
    ensures Accepts([NEWER, OLDER, OTHER], ONE_MODEL) && !Accepts([OLDER, OTHER, NEWER], ONE_MODEL)
  {
    NewerFirstIsAccepted();
    OlderFirstIsRefused();
  }
}
