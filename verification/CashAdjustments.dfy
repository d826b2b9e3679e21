/**
 The pUSD cash side of the external SELLs: the proof of each transaction delta, and the chain of
 account balances built from those deltas. Cash is in integer base units, transaction and trade
 identifiers are represented by their rank in text order.
 */
module CashAdjustments {
  import opened Outcomes
  import opened Sorting

  datatype Sell = Sell(tradeId: nat, orderHash: nat, token: nat, tx: nat, shares: int, netCash: int, matchTime: int)

  datatype TxDelta = TxDelta(tx: nat, tradeIds: multiset<nat>, delta: int)

  datatype CashRow = CashRow(
    tx: nat, tradeIds: multiset<nat>, delta: int, occurredAt: int, cashId: nat, before: int, after: int)

  /** The cash a list of sells brings in. */
  function Cash(s: seq<Sell>): int {
    if s == [] then 0 else Cash(s[..|s| - 1]) + s[|s| - 1].netCash
  }

  function Ids(s: seq<Sell>): multiset<nat> {
    if s == [] then multiset{} else Ids(s[..|s| - 1]) + multiset{s[|s| - 1].tradeId}
  }

  /** The sells of one transaction, in order. */
  function Of(s: seq<Sell>, tx: nat): seq<Sell> {
    if s == [] then []
    else
      var rest := Of(s[..|s| - 1], tx);
      if s[|s| - 1].tx == tx then rest + [s[|s| - 1]] else rest
  }

  function Latest(s: seq<Sell>): int
    requires s != []
  {
    var last := s[|s| - 1].matchTime;
    if |s| == 1 then last
    else
      var before := Latest(s[..|s| - 1]);
      if before >= last then before else last
  }

  /** The time of the last of the sells. */
  ghost predicate IsLatest(s: seq<Sell>, time: int) {
    (exists x :: x in s && x.matchTime == time) && forall x :: x in s ==> x.matchTime <= time
  }

  lemma {:induction false} LatestIsMaximal(s: seq<Sell>)
    requires s != []
    ensures IsLatest(s, Latest(s))
  {
    var front, last := s[..|s| - 1], s[|s| - 1];
    assert s == front + [last];
    if |s| == 1 {
    } else {
      LatestIsMaximal(front);
    }
    assert last in s;
  }

  /** sum, sorted identifiers and max over the sells of a transaction. */
  method Summarize(trades: seq<Sell>) returns (cash: int, ids: multiset<nat>, latest: int)
    requires trades != []
    ensures cash == Cash(trades) && ids == Ids(trades) && latest == Latest(trades)
  {
    cash, ids, latest := 0, multiset{}, trades[0].matchTime;
    for n := 0 to |trades|
      invariant cash == Cash(trades[..n]) && ids == Ids(trades[..n])
      invariant latest == if n == 0 then trades[0].matchTime else Latest(trades[..n])
    {
      assert trades[..n + 1][..n] == trades[..n];
      cash := cash + trades[n].netCash;
      ids := ids + multiset{trades[n].tradeId};
      if trades[n].matchTime > latest {
        latest := trades[n].matchTime;
      }
    }
    assert trades[..|trades|] == trades;
  }

  predicate NatLeq(a: nat, b: nat) { a <= b }

  /** The keys of a dictionary filled in this order. */
  ghost predicate GroupsBy(groups: map<nat, seq<Sell>>, order: seq<nat>, sells: seq<Sell>) {
    && NoRepeats(order)
    && (forall tx :: tx in order <==> tx in groups)
    && (forall tx :: tx in groups <==> Of(sells, tx) != [])
    && (forall tx :: tx in groups ==> groups[tx] == Of(sells, tx))
  }

  lemma {:induction false} OfExtends(s: seq<Sell>, x: Sell, tx: nat)
    ensures Of(s + [x], tx) == if x.tx == tx then Of(s, tx) + [x] else Of(s, tx)
  {
    assert (s + [x])[..|s|] == s;
  }

  /** dict.setdefault(tx, []).append(trade) over a list of sells. */
  method GroupByTransaction(sells: seq<Sell>) returns (groups: map<nat, seq<Sell>>, order: seq<nat>)
    ensures GroupsBy(groups, order, sells)
  {
    groups, order := map[], [];
    for n := 0 to |sells|
      invariant GroupsBy(groups, order, sells[..n])
    {
      var x := sells[n];
      assert sells[..n + 1] == sells[..n] + [x];
      forall tx ensures Of(sells[..n + 1], tx) == if x.tx == tx then Of(sells[..n], tx) + [x] else Of(sells[..n], tx) {
        OfExtends(sells[..n], x, tx);
      }
      if x.tx !in groups {
        order := order + [x.tx];
        groups := groups[x.tx := [x]];
      } else {
        groups := groups[x.tx := groups[x.tx] + [x]];
      }
    }
    assert sells[..|sells|] == sells;
  }

  // ----- conservation across groups

  function CashByKey(keys: seq<nat>, s: seq<Sell>): int {
    if keys == [] then 0 else CashByKey(keys[..|keys| - 1], s) + Cash(Of(s, keys[|keys| - 1]))
  }

  function IdsByKey(keys: seq<nat>, s: seq<Sell>): multiset<nat> {
    if keys == [] then multiset{} else IdsByKey(keys[..|keys| - 1], s) + Ids(Of(s, keys[|keys| - 1]))
  }

  lemma {:induction false} NoSellsNoCash(keys: seq<nat>)
    ensures CashByKey(keys, []) == 0 && IdsByKey(keys, []) == multiset{}
  {
    if keys == [] {
    } else {
      NoSellsNoCash(keys[..|keys| - 1]);
    }
  }

  lemma {:induction false} OneMoreSell(keys: seq<nat>, s: seq<Sell>, x: Sell)
    requires NoRepeats(keys)
    ensures CashByKey(keys, s + [x]) == CashByKey(keys, s) + if x.tx in keys then x.netCash else 0
    ensures IdsByKey(keys, s + [x])
            == IdsByKey(keys, s) + if x.tx in keys then multiset{x.tradeId} else multiset{}
  {
    if keys == [] {
    } else {
      var front, last := keys[..|keys| - 1], keys[|keys| - 1];
      OneMoreSell(front, s, x);
      OfExtends(s, x, last);
      assert (Of(s, last) + [x])[..|Of(s, last)|] == Of(s, last);
      assert x.tx in keys <==> x.tx in front || x.tx == last;
      assert last !in front;
    }
  }

  /** Grouping loses nothing: over distinct keys that cover the sells, cash and trades add up. */
  lemma {:induction false} GroupsConserve(keys: seq<nat>, s: seq<Sell>)
    requires NoRepeats(keys) && forall x :: x in s ==> x.tx in keys
    ensures CashByKey(keys, s) == Cash(s)
    ensures IdsByKey(keys, s) == Ids(s)
  {
    if s == [] {
      NoSellsNoCash(keys);
    } else {
      var front, last := s[..|s| - 1], s[|s| - 1];
      assert s == front + [last];
      GroupsConserve(keys, front);
      OneMoreSell(keys, front, last);
    }
  }

  /** A group holds the sells of its transaction as often as they were given. */
  lemma {:induction false} OfCounts(s: seq<Sell>, tx: nat, y: Sell)
    ensures multiset(Of(s, tx))[y] == if y.tx == tx then multiset(s)[y] else 0
  {
    if s == [] {
    } else {
      var front, last := s[..|s| - 1], s[|s| - 1];
      OfCounts(front, tx, y);
      assert s == front + [last];
    }
  }

  lemma {:induction false} OfPermutation(a: seq<Sell>, b: seq<Sell>, tx: nat)
    requires multiset(a) == multiset(b)
    ensures multiset(Of(a, tx)) == multiset(Of(b, tx))
  {
    forall y ensures multiset(Of(a, tx))[y] == multiset(Of(b, tx))[y] {
      OfCounts(a, tx, y);
      OfCounts(b, tx, y);
    }
  }

  lemma CashExtends(s: seq<Sell>, y: Sell)
    ensures Cash(s + [y]) == Cash(s) + y.netCash
  {
    assert (s + [y])[..|s|] == s;
  }

  lemma {:induction false} CashPulledOut(front: seq<Sell>, x: Sell, back: seq<Sell>)
    ensures Cash(front + [x] + back) == Cash(front + back) + x.netCash
  {
    if back == [] {
      assert front + [x] + back == front + [x] && front + back == front;
      CashExtends(front, x);
    } else {
      var b, y := back[..|back| - 1], back[|back| - 1];
      CashPulledOut(front, x, b);
      assert front + [x] + back == (front + [x] + b) + [y];
      assert front + back == (front + b) + [y];
      CashExtends(front + [x] + b, y);
      CashExtends(front + b, y);
    }
  }

  lemma {:induction false} CashPermutes(a: seq<Sell>, b: seq<Sell>)
    requires multiset(a) == multiset(b)
    ensures Cash(a) == Cash(b)
  {
    if a == [] {
      assert |b| == |multiset(b)| == |multiset(a)|;
    } else {
      var front, back := SplitAt(a, b);
      CashPermutes(a[..|a| - 1], front + back);
      CashPulledOut(front, a[|a| - 1], back);
    }
  }

  lemma {:induction false} IdsAreMapped(s: seq<Sell>, id: Sell -> nat)
    requires forall x :: id(x) == x.tradeId
    ensures Ids(s) == multiset(Map(s, id))
  {
    if s == [] {
    } else {
      var front := s[..|s| - 1];
      IdsAreMapped(front, id);
      assert Map(s, id) == Map(front, id) + [id(s[|s| - 1])];
    }
  }

  lemma IdsOfPermutation(a: seq<Sell>, b: seq<Sell>)
    requires multiset(a) == multiset(b)
    ensures Ids(a) == Ids(b)
  {
    var id := (x: Sell) => x.tradeId;
    IdsAreMapped(a, id);
    IdsAreMapped(b, id);
    MapPermutes(a, b, id);
  }

  /** The cash and the trades of a group do not depend on the order of the sells. */
  lemma {:induction false} CashOfPermutation(a: seq<Sell>, b: seq<Sell>, tx: nat)
    requires multiset(a) == multiset(b)
    ensures Cash(Of(a, tx)) == Cash(Of(b, tx))
    ensures Ids(Of(a, tx)) == Ids(Of(b, tx))
    ensures Cash(a) == Cash(b)
  {
    OfPermutation(a, b, tx);
    CashPermutes(Of(a, tx), Of(b, tx));
    IdsOfPermutation(Of(a, tx), Of(b, tx));
    CashPermutes(a, b);
  }

  // ----- the proved transaction deltas

  /** One delta per transaction of the sells, naming its trades and their cash. */
  ghost predicate Proven(deltas: seq<TxDelta>, sells: seq<Sell>) {
    && (forall i, j :: 0 <= i < j < |deltas| ==> deltas[i].tx != deltas[j].tx)
    && (forall i :: 0 <= i < |deltas| ==>
          && Of(sells, deltas[i].tx) != []
          && deltas[i].tradeIds == Ids(Of(sells, deltas[i].tx))
          && deltas[i].delta == Cash(Of(sells, deltas[i].tx)))
    && (forall x :: x in sells ==> exists i :: 0 <= i < |deltas| && deltas[i].tx == x.tx)
  }

  lemma {:induction false} GroupIsInhabited(s: seq<Sell>, tx: nat)
    ensures Of(s, tx) != [] <==> exists x :: x in s && x.tx == tx
    ensures forall x :: x in Of(s, tx) ==> x in s && x.tx == tx
  {
    if s == [] {
    } else {
      GroupIsInhabited(s[..|s| - 1], tx);
      assert s[|s| - 1] in s;
      assert forall x :: x in s <==> x in s[..|s| - 1] || x == s[|s| - 1];
    }
  }

  /** sorted(by_transaction.items()) */
  method SortedGroups(sells: seq<Sell>) returns (groups: map<nat, seq<Sell>>, keys: seq<nat>)
    ensures NoRepeats(keys)
    ensures forall i :: 0 <= i < |keys| ==> keys[i] in groups && groups[keys[i]] == Of(sells, keys[i]) != []
    ensures forall x :: x in sells ==> x.tx in keys
  {
    var order;
    groups, order := GroupByTransaction(sells);
    keys := Sort(order, NatLeq);
    SortPermutes(order, NatLeq);
    PermutationHasNoRepeats(order, keys);
    SameMembers(order, keys);
    forall i | 0 <= i < |keys| ensures keys[i] in groups {
      assert keys[i] in keys;
    }
    forall x | x in sells ensures x.tx in keys {
      GroupIsInhabited(sells, x.tx);
    }
  }

  function DeltaOf(sells: seq<Sell>, tx: nat): TxDelta {
    TxDelta(tx, Ids(Of(sells, tx)), Cash(Of(sells, tx)))
  }

  /** The receipt of the transaction moved exactly the net cash of its sells. */
  predicate Moved(receipts: map<nat, int>, sells: seq<Sell>, tx: nat) {
    tx in receipts && receipts[tx] == Cash(Of(sells, tx))
  }

  /** What the loop over the sorted transactions has collected after these keys. */
  ghost predicate Collected(
    keys: seq<nat>, found: seq<TxDelta>, total: int, receipts: map<nat, int>, sells: seq<Sell>)
  {
    && |found| == |keys| && total == CashByKey(keys, sells)
    && forall i :: 0 <= i < |keys| ==> Moved(receipts, sells, keys[i]) && found[i] == DeltaOf(sells, keys[i])
  }

  lemma {:induction false} NextCollected(
    keys: seq<nat>, found: seq<TxDelta>, total: int, receipts: map<nat, int>, sells: seq<Sell>, tx: nat)
    requires Collected(keys, found, total, receipts, sells) && Moved(receipts, sells, tx)
    ensures Collected(keys + [tx], found + [DeltaOf(sells, tx)], total + Cash(Of(sells, tx)), receipts, sells)
  {
    assert (keys + [tx])[..|keys|] == keys;
  }

  lemma HasReceipt(sells: seq<Sell>, receipts: map<nat, int>, tx: nat)
    requires Of(sells, tx) != [] && forall x :: x in sells ==> x.tx in receipts
    ensures tx in receipts
  {
    GroupIsInhabited(sells, tx);
  }

  lemma NotMoved(sells: seq<Sell>, receipts: map<nat, int>, tx: nat)
    requires !Moved(receipts, sells, tx) && Of(sells, tx) != []
    ensures exists x :: x in sells && !Moved(receipts, sells, x.tx)
  {
    GroupIsInhabited(sells, tx);
    var x :| x in sells && x.tx == tx;
  }

  /** One transaction: its receipt must move what its sells bring in. */
  method ProveDelta(sells: seq<Sell>, receipts: map<nat, int>, tx: nat, components: seq<Sell>)
    returns (delta: Option<TxDelta>)
    requires components == Of(sells, tx) != [] && tx in receipts
    ensures delta == if Moved(receipts, sells, tx) then Some(DeltaOf(sells, tx)) else None
  {
    var expected, ids, _ := Summarize(components);
    var exact := receipts[tx];
    return if exact == expected then Some(TxDelta(tx, ids, exact)) else None;
  }

  /** The pUSD grouping of collect_trade_and_fifo_evidence: receipts hold the exact transfer deltas. */
  method CollectDeltas(sells: seq<Sell>, receipts: map<nat, int>) returns (deltas: Option<seq<TxDelta>>, total: int)
    requires forall x :: x in sells ==> x.tx in receipts
    ensures deltas.Some? <==> forall x :: x in sells ==> Moved(receipts, sells, x.tx)
    ensures deltas.Some? ==> Proven(deltas.value, sells) && total == Cash(sells)
  {
    var groups, keys := SortedGroups(sells);
    var found: seq<TxDelta> := [];
    total := 0;
    for n := 0 to |keys|
      invariant Collected(keys[..n], found, total, receipts, sells)
    {
      var tx := keys[n];
      HasReceipt(sells, receipts, tx);
      var delta := ProveDelta(sells, receipts, tx, groups[tx]);
      if delta.None? {
        NotMoved(sells, receipts, tx);
        return None, 0;
      }
      NextCollected(keys[..n], found, total, receipts, sells, tx);
      assert keys[..n + 1] == keys[..n] + [tx];
      total := total + delta.value.delta;
      found := found + [delta.value];
    }
    assert keys[..|keys|] == keys;
    CollectedIsProven(keys, found, total, receipts, sells);
    deltas := Some(found);
  }

  lemma {:induction false} CollectedIsProven(
    keys: seq<nat>, found: seq<TxDelta>, total: int, receipts: map<nat, int>, sells: seq<Sell>)
    requires NoRepeats(keys) && Collected(keys, found, total, receipts, sells)
    requires forall i :: 0 <= i < |keys| ==> Of(sells, keys[i]) != []
    requires forall x :: x in sells ==> x.tx in keys
    ensures Proven(found, sells) && total == Cash(sells)
    ensures forall x :: x in sells ==> Moved(receipts, sells, x.tx)
  {
    KeysProveDeltas(keys, found, sells);
    AllMoved(keys, receipts, sells);
  }

  lemma AllMoved(keys: seq<nat>, receipts: map<nat, int>, sells: seq<Sell>)
    requires forall x :: x in sells ==> x.tx in keys
    requires forall i :: 0 <= i < |keys| ==> Moved(receipts, sells, keys[i])
    ensures forall x :: x in sells ==> Moved(receipts, sells, x.tx)
  {
  }

  lemma {:induction false} KeysProveDeltas(keys: seq<nat>, found: seq<TxDelta>, sells: seq<Sell>)
    requires NoRepeats(keys) && |found| == |keys|
    requires forall i :: 0 <= i < |keys| ==> Of(sells, keys[i]) != []
    requires forall x :: x in sells ==> x.tx in keys
    requires forall i :: 0 <= i < |keys| ==>
               found[i] == DeltaOf(sells, keys[i])
    ensures Proven(found, sells) && CashByKey(keys, sells) == Cash(sells)
  {
    forall x | x in sells
      ensures exists i :: 0 <= i < |found| && found[i].tx == x.tx
    {
      var i :| 0 <= i < |keys| && keys[i] == x.tx;
      assert found[i].tx == x.tx;
    }
    GroupsConserve(keys, sells);
  }

  // ----- the balance chain

  predicate CashLeq(a: CashRow, b: CashRow) {
    a.occurredAt < b.occurredAt || (a.occurredAt == b.occurredAt && a.cashId <= b.cashId)
  }

  function RowKey(row: CashRow): seq<int> {
    [row.occurredAt, row.cashId]
  }

  function Final(rows: seq<CashRow>, start: int): int {
    if rows == [] then start else rows[|rows| - 1].after
  }

  /** Each row starts where the one before it ended, and every row adds cash. */
  predicate Linked(rows: seq<CashRow>, start: int) {
    && (forall i :: 0 <= i < |rows| ==> rows[i].after == rows[i].before + rows[i].delta && rows[i].delta > 0)
    && (forall i :: 0 <= i < |rows| ==> rows[i].before == Final(rows[..i], start))
  }

  function Txs(rows: seq<CashRow>): seq<nat> {
    seq(|rows|, i requires 0 <= i < |rows| => rows[i].tx)
  }

  lemma TxsPermute(a: seq<CashRow>, b: seq<CashRow>)
    requires multiset(a) == multiset(b)
    ensures multiset(Txs(a)) == multiset(Txs(b))
  {
    var tx := (row: CashRow) => row.tx;
    MapPermutes(a, b, tx);
    assert Txs(a) == Map(a, tx) && Txs(b) == Map(b, tx);
  }

  /** One row per transaction of the sells, with its trades, its time and its proved delta. */
  ghost predicate Accounted(rows: seq<CashRow>, sells: seq<Sell>, deltas: map<nat, TxDelta>) {
    && NoRepeats(Txs(rows))
    && (forall tx :: tx in Txs(rows) <==> Of(sells, tx) != [])
    && (forall i :: 0 <= i < |rows| ==>
          var group := Of(sells, rows[i].tx);
          && group != [] && rows[i].tx in deltas
          && rows[i].tradeIds == Ids(group) == deltas[rows[i].tx].tradeIds
          && rows[i].occurredAt == Latest(group)
          && rows[i].delta == deltas[rows[i].tx].delta)
  }

  function Indexed(deltas: seq<TxDelta>): map<nat, TxDelta> {
    if deltas == [] then map[]
    else Indexed(deltas[..|deltas| - 1])[deltas[|deltas| - 1].tx := deltas[|deltas| - 1]]
  }

  lemma {:induction false} IndexFindsProven(deltas: seq<TxDelta>, n: nat)
    requires n <= |deltas|
    requires forall i, j :: 0 <= i < j < |deltas| ==> deltas[i].tx != deltas[j].tx
    ensures forall i :: 0 <= i < n ==>
              deltas[i].tx in Indexed(deltas[..n]) && Indexed(deltas[..n])[deltas[i].tx] == deltas[i]
  {
    if n == 0 {
    } else {
      IndexFindsProven(deltas, n - 1);
      assert deltas[..n][..n - 1] == deltas[..n - 1];
    }
  }

  /** The evidence names the trades of the transaction and a positive delta. */
  predicate Evidenced(deltas: map<nat, TxDelta>, sells: seq<Sell>, tx: nat) {
    tx in deltas && deltas[tx].tradeIds == Ids(Of(sells, tx)) && deltas[tx].delta > 0
  }

  function StagedRow(sells: seq<Sell>, deltas: map<nat, TxDelta>, cashId: nat -> nat, tx: nat): CashRow
    requires tx in deltas && Of(sells, tx) != []
  {
    CashRow(tx, Ids(Of(sells, tx)), deltas[tx].delta, Latest(Of(sells, tx)), cashId(tx), 0, 0)
  }

  ghost predicate Staged(
    order: seq<nat>, staged: seq<CashRow>, sells: seq<Sell>, deltas: map<nat, TxDelta>, cashId: nat -> nat)
  {
    && |staged| == |order|
    && forall i :: 0 <= i < |order| ==> && Of(sells, order[i]) != [] && Evidenced(deltas, sells, order[i])
                                        && staged[i] == StagedRow(sells, deltas, cashId, order[i])
  }

  lemma {:induction false} StagedIsAccounted(
    order: seq<nat>, staged: seq<CashRow>, sells: seq<Sell>, deltas: map<nat, TxDelta>, cashId: nat -> nat)
    requires Staged(order, staged, sells, deltas, cashId)
    requires NoRepeats(order) && forall tx :: tx in order <==> Of(sells, tx) != []
    ensures Accounted(staged, sells, deltas)
    ensures forall i :: 0 <= i < |staged| ==> staged[i].delta > 0 && staged[i].cashId == cashId(staged[i].tx)
    ensures forall x :: x in sells ==> Evidenced(deltas, sells, x.tx)
  {
    assert Txs(staged) == order;
    forall x | x in sells ensures Evidenced(deltas, sells, x.tx) {
      GroupIsInhabited(sells, x.tx);
      assert x.tx in order;
    }
  }

  lemma NotEvidenced(sells: seq<Sell>, deltas: map<nat, TxDelta>, tx: nat)
    requires !Evidenced(deltas, sells, tx) && Of(sells, tx) != []
    ensures exists x :: x in sells && !Evidenced(deltas, sells, x.tx)
  {
    GroupIsInhabited(sells, tx);
    var x :| x in sells && x.tx == tx;
  }

  /** The staged cash rows of build_adjustment_rows, None when a transaction lacks its exact evidence. */
  method StageCash(sells: seq<Sell>, deltas: map<nat, TxDelta>, cashId: nat -> nat) returns (r: Option<seq<CashRow>>)
    ensures r.Some? <==> forall x :: x in sells ==> Evidenced(deltas, sells, x.tx)
    ensures r.Some? ==> Accounted(r.value, sells, deltas)
    ensures r.Some? ==> forall i :: 0 <= i < |r.value| ==>
                                      r.value[i].delta > 0 && r.value[i].cashId == cashId(r.value[i].tx)
  {
    var groups, order := GroupByTransaction(sells);
    var staged: seq<CashRow> := [];
    for n := 0 to |order|
      invariant Staged(order[..n], staged, sells, deltas, cashId)
    {
      var tx := order[n];
      assert tx in order;
      var trades := groups[tx];
      var _, ids, latest := Summarize(trades);
      if tx !in deltas || ids != deltas[tx].tradeIds || deltas[tx].delta <= 0 {
        NotEvidenced(sells, deltas, tx);
        return None;
      }
      assert order[..n + 1] == order[..n] + [tx];
      staged := staged + [CashRow(tx, ids, deltas[tx].delta, latest, cashId(tx), 0, 0)];
    }
    assert order[..|order|] == order;
    StagedIsAccounted(order, staged, sells, deltas, cashId);
    return Some(staged);
  }

  /** The balance chain over the staged rows, in whatever order they were sorted. */
  method ChainCash(staged: seq<CashRow>, start: int) returns (rows: seq<CashRow>, balance: int)
    requires forall i :: 0 <= i < |staged| ==> staged[i].delta > 0
    ensures |rows| == |staged| && Linked(rows, start) && balance == Final(rows, start)
    ensures forall i :: 0 <= i < |rows| ==>
              rows[i] == staged[i].(before := rows[i].before, after := rows[i].after)
  {
    rows, balance := [], start;
    for n := 0 to |staged|
      invariant |rows| == n && Linked(rows, start) && balance == Final(rows, start)
      invariant forall i :: 0 <= i < n ==>
                  rows[i] == staged[i].(before := rows[i].before, after := rows[i].after)
    {
      var before := balance;
      balance := balance + staged[n].delta;
      var row := staged[n].(before := before, after := balance);
      LinkedGrows(rows, start, row);
      rows := rows + [row];
    }
  }

  lemma LinkedGrows(rows: seq<CashRow>, start: int, row: CashRow)
    requires Linked(rows, start) && row.before == Final(rows, start)
    requires row.after == row.before + row.delta && row.delta > 0
    ensures Linked(rows + [row], start)
  {
    var grown := rows + [row];
    forall i | 0 <= i < |grown| ensures grown[i].before == Final(grown[..i], start) {
      assert grown[..i] == rows[..i];
      assert rows[..|rows|] == rows;
    }
  }

  function DeltaSum(rows: seq<CashRow>): int {
    if rows == [] then 0 else DeltaSum(rows[..|rows| - 1]) + rows[|rows| - 1].delta
  }

  lemma {:induction false} ChainAddsDeltas(rows: seq<CashRow>, start: int)
    requires Linked(rows, start)
    ensures Final(rows, start) == start + DeltaSum(rows)
  {
    if rows == [] {
    } else {
      var front := rows[..|rows| - 1];
      assert forall i :: 0 <= i < |front| ==> front[..i] == rows[..i];
      ChainAddsDeltas(front, start);
    }
  }

  lemma {:induction false} DeltasAreCash(rows: seq<CashRow>, sells: seq<Sell>)
    requires forall i :: 0 <= i < |rows| ==> rows[i].delta == Cash(Of(sells, rows[i].tx))
    requires forall i :: 0 <= i < |rows| ==> rows[i].tradeIds == Ids(Of(sells, rows[i].tx))
    ensures DeltaSum(rows) == CashByKey(Txs(rows), sells)
    ensures AllIds(rows) == IdsByKey(Txs(rows), sells)
  {
    if rows == [] {
    } else {
      var front := rows[..|rows| - 1];
      DeltasAreCash(front, sells);
      assert Txs(rows)[..|rows| - 1] == Txs(front);
    }
  }

  /** The trades of all rows, each as often as the rows name it. */
  function AllIds(rows: seq<CashRow>): multiset<nat> {
    if rows == [] then multiset{} else AllIds(rows[..|rows| - 1]) + rows[|rows| - 1].tradeIds
  }

  lemma CashOrders()
    ensures TotalPreorder(CashLeq)
  {
  }

  lemma CashIsOrdered(rows: seq<CashRow>)
    ensures Sorted(Sort(rows, CashLeq), CashLeq)
  {
    CashOrders();
    SortSorts(rows, CashLeq);
  }

  /** Filling in the balances changes neither the order nor what the rows account for. */
  lemma {:induction false} ChainedStaysAccounted(
    sorted: seq<CashRow>, rows: seq<CashRow>, sells: seq<Sell>, deltas: map<nat, TxDelta>)
    requires Sorted(sorted, CashLeq) && Accounted(sorted, sells, deltas) && |rows| == |sorted|
    requires forall i :: 0 <= i < |rows| ==>
               rows[i] == sorted[i].(before := rows[i].before, after := rows[i].after)
    ensures Sorted(rows, CashLeq) && Accounted(rows, sells, deltas)
    ensures forall i :: 0 <= i < |rows| ==> rows[i].tx == sorted[i].tx && rows[i].cashId == sorted[i].cashId
  {
    assert Txs(rows) == Txs(sorted);
  }

  predicate SellLeq(a: Sell, b: Sell) {
    || a.matchTime < b.matchTime
    || (a.matchTime == b.matchTime && (a.tradeId < b.tradeId || (a.tradeId == b.tradeId && a.orderHash <= b.orderHash)))
  }

  lemma SellOrders()
    ensures TotalPreorder(SellLeq)
  {
  }

  lemma SellsAreOrdered(sells: seq<Sell>)
    ensures Sorted(Sort(sells, SellLeq), SellLeq)
  {
    SellOrders();
    SortSorts(sells, SellLeq);
  }

  /** The cash rows of build_adjustment_rows over the sorted sells. */
  method BuildCash(ordered: seq<Sell>, deltas: map<nat, TxDelta>, start: int, cashId: nat -> nat)
    returns (rows: Option<seq<CashRow>>, balance: int)
    ensures rows.Some? <==>
            forall x :: x in ordered ==> Evidenced(deltas, ordered, x.tx)
    ensures rows.Some? ==> && Accounted(rows.value, ordered, deltas)
                           && Linked(rows.value, start) && balance == Final(rows.value, start)
    ensures rows.Some? ==> && Sorted(rows.value, CashLeq)
                           && forall i :: 0 <= i < |rows.value| ==> rows.value[i].cashId == cashId(rows.value[i].tx)
  {
    var staged := StageCash(ordered, deltas, cashId);
    if staged.None? {
      return None, start;
    }
    CashIsOrdered(staged.value);
    SortPermutes(staged.value, CashLeq);
    var sorted := Sort(staged.value, CashLeq);
    SortedRowsStayAccounted(staged.value, sorted, ordered, deltas, cashId);
    var chained, final := ChainCash(sorted, start);
    ChainedStaysAccounted(sorted, chained, ordered, deltas);
    return Some(chained), final;
  }

  /**
   The cash part of one adoption: the deltas are proved over the sells as they were read, the rows
   are built over the sells as they are sorted. Rows exist exactly when every transaction moved the
   positive net cash of its sells. Each sell is then in exactly one row, the balances form one rising
   chain, and the chain ends above the start by the net cash of all sells.
   */
  method AdjustCash(sells: seq<Sell>, receipts: map<nat, int>, start: int, cashId: nat -> nat)
    returns (r: Option<seq<CashRow>>)
    requires forall x :: x in sells ==> x.tx in receipts
    ensures r.Some? <==> forall x :: x in sells ==>
                           Moved(receipts, sells, x.tx) && Cash(Of(sells, x.tx)) > 0
    ensures r.Some? ==> && Linked(r.value, start) && Final(r.value, start) == start + Cash(sells)
                        && NoRepeats(Txs(r.value)) && AllIds(r.value) == Ids(sells)
                        && forall i :: 0 <= i < |r.value| ==>
                             && r.value[i].delta == Cash(Of(sells, r.value[i].tx))
                             && r.value[i].tradeIds == Ids(Of(sells, r.value[i].tx))
    ensures r.Some? ==> forall i :: 0 <= i < |r.value| ==>
                          && IsLatest(Of(sells, r.value[i].tx), r.value[i].occurredAt)
                          && r.value[i].cashId == cashId(r.value[i].tx)
    ensures r.Some? ==> forall i, j :: 0 <= i < j < |r.value| ==> TupleLeq(RowKey(r.value[i]), RowKey(r.value[j]))
  {
    var deltas, sealed := CollectDeltas(sells, receipts);
    if deltas.None? {
      return None;
    }
    var ordered := Sort(sells, SellLeq);
    SortPermutes(sells, SellLeq);
    forall tx ensures Cash(Of(ordered, tx)) == Cash(Of(sells, tx)) && Ids(Of(ordered, tx)) == Ids(Of(sells, tx)) {
      CashOfPermutation(ordered, sells, tx);
    }
    EvidenceCoversOrder(deltas.value, sells, ordered);
    var rows, balance := BuildCash(ordered, Indexed(deltas.value), start, cashId);
    if rows.None? {
      return None;
    }
    RowsConserve(rows.value, start, sells, ordered, Indexed(deltas.value));
    RowsAreTimed(rows.value, sells, ordered, Indexed(deltas.value));
    RowsAreOrdered(rows.value);
    if balance - start != sealed {
      return None;
    }
    return rows;
  }

  /** Every row carries the time of the last of its sells, in whatever order they were read. */
  lemma {:induction false} RowsAreTimed(
    rows: seq<CashRow>, sells: seq<Sell>, ordered: seq<Sell>, deltas: map<nat, TxDelta>)
    requires Accounted(rows, ordered, deltas) && multiset(ordered) == multiset(sells)
    ensures forall i :: 0 <= i < |rows| ==> IsLatest(Of(sells, rows[i].tx), rows[i].occurredAt)
  {
    forall i | 0 <= i < |rows| ensures IsLatest(Of(sells, rows[i].tx), rows[i].occurredAt) {
      var tx := rows[i].tx;
      LatestIsMaximal(Of(ordered, tx));
      OfPermutation(ordered, sells, tx);
      SameMembers(Of(ordered, tx), Of(sells, tx));
    }
  }

  lemma {:induction false} RowsAreOrdered(rows: seq<CashRow>)
    requires Sorted(rows, CashLeq)
    ensures forall i, j :: 0 <= i < j < |rows| ==> TupleLeq(RowKey(rows[i]), RowKey(rows[j]))
  {
    forall i, j | 0 <= i < j < |rows| ensures TupleLeq(RowKey(rows[i]), RowKey(rows[j])) {
      Tuples2(rows[i].occurredAt, rows[i].cashId, rows[j].occurredAt, rows[j].cashId);
      assert CashLeq(rows[i], rows[j]);
    }
  }

  lemma {:induction false} EvidenceCoversOrder(deltas: seq<TxDelta>, sells: seq<Sell>, ordered: seq<Sell>)
    requires Proven(deltas, sells) && multiset(ordered) == multiset(sells)
    ensures forall x :: x in ordered <==> x in sells
    ensures forall x :: x in sells ==>
              && x.tx in Indexed(deltas)
              && Indexed(deltas)[x.tx].tradeIds == Ids(Of(sells, x.tx))
              && Indexed(deltas)[x.tx].delta == Cash(Of(sells, x.tx))
  {
    SameMembers(ordered, sells);
    IndexFindsProven(deltas, |deltas|);
    assert deltas[..|deltas|] == deltas;
  }

  lemma {:induction false} SortedRowsStayAccounted(
    staged: seq<CashRow>, sorted: seq<CashRow>, sells: seq<Sell>, deltas: map<nat, TxDelta>, cashId: nat -> nat)
    requires Accounted(staged, sells, deltas) && multiset(sorted) == multiset(staged)
    requires forall i :: 0 <= i < |staged| ==> staged[i].delta > 0 && staged[i].cashId == cashId(staged[i].tx)
    ensures Accounted(sorted, sells, deltas)
    ensures forall i :: 0 <= i < |sorted| ==> sorted[i].delta > 0 && sorted[i].cashId == cashId(sorted[i].tx)
  {
    TxsPermute(staged, sorted);
    PermutationHasNoRepeats(Txs(staged), Txs(sorted));
    SameMembers(Txs(staged), Txs(sorted));
    forall i | 0 <= i < |sorted| ensures sorted[i] in staged {
      assert sorted[i] in multiset(sorted);
    }
  }

  lemma {:induction false} RowsConserve(
    rows: seq<CashRow>, start: int, sells: seq<Sell>, ordered: seq<Sell>, deltas: map<nat, TxDelta>)
    requires Linked(rows, start) && Accounted(rows, ordered, deltas)
    requires forall x :: x in ordered <==> x in sells
    requires forall tx :: Cash(Of(ordered, tx)) == Cash(Of(sells, tx)) && Ids(Of(ordered, tx)) == Ids(Of(sells, tx))
    requires forall x :: x in sells ==> x.tx in deltas && deltas[x.tx].delta == Cash(Of(sells, x.tx))
    ensures Final(rows, start) == start + Cash(sells) && AllIds(rows) == Ids(sells)
    ensures forall i :: 0 <= i < |rows| ==>
              rows[i].delta == Cash(Of(sells, rows[i].tx)) && rows[i].tradeIds == Ids(Of(sells, rows[i].tx))
  {
    forall i | 0 <= i < |rows|
      ensures rows[i].delta == Cash(Of(sells, rows[i].tx)) && rows[i].tradeIds == Ids(Of(sells, rows[i].tx))
    {
      GroupIsInhabited(ordered, rows[i].tx);
      var x :| x in ordered && x.tx == rows[i].tx;
    }
    ChainAddsDeltas(rows, start);
    DeltasAreCash(rows, sells);
    forall x | x in sells ensures x.tx in Txs(rows) {
      GroupIsInhabited(ordered, x.tx);
    }
    GroupsConserve(Txs(rows), sells);
  }
}
