/**
 The disposition rows of one adoption batch: every external SELL consumes the immutable baseline of
 the main token, audit rows consume nothing, and each adoption takes exactly what is left. Shares are
 integer base units, times are whole seconds.
 */
module Dispositions {
  import opened Outcomes
  import opened Sorting
  import opened CashAdjustments

  datatype Key = Key(account: nat, token: nat)

  datatype Kind = ExternalSell | AuditOnly | Adoption

  datatype Row = Row(
    key: Key, kind: Kind, sequence: Option<nat>, before: int, delta: int, after: int, tradeId: Option<nat>)

  datatype Baseline = Baseline(shares: int, observedAt: int)

  /** A FIFO reconstruction to adopt, next to what the other evidence surfaces say of its token. */
  datatype Target = Target(
    key: Key, shares: int, openedAt: int,
    snapshotShares: Option<int>, marketKnown: bool, economicsHold: bool)

  datatype Inputs = Inputs(
    main: Key, approved: int, baselines: map<Key, Baseline>,
    sells: seq<Sell>, openIssues: set<nat>, currentShares: int,
    audits: seq<Row>, targets: seq<Target>, adoptedAt: int,
    adoptionCount: nat, adoptionAccounts: set<nat>)

  /** The shares of the first n sells. */
  function Sold(s: seq<Sell>, n: nat): int
    requires n <= |s|
  {
    if n == 0 then 0 else Sold(s, n - 1) + s[n - 1].shares
  }

  function Ordered(x: Inputs): seq<Sell> {
    Sort(x.sells, SellLeq)
  }

  /** transition_tail: the last sequence, shares and time of a chain before its adoption. */
  datatype Tail = Tail(sequence: nat, shares: int, time: int)

  function TailOf(x: Inputs, key: Key): Tail
    requires key in x.baselines && Ordered(x) != []
  {
    var ordered := Ordered(x);
    if key == x.main then Tail(|ordered|, x.currentShares, ordered[|ordered| - 1].matchTime)
    else Tail(0, x.baselines[key].shares, x.baselines[key].observedAt)
  }

  function AdoptionRow(t: Target, tail: Tail): Row {
    Row(t.key, Adoption, Some(tail.sequence + 1), t.shares, t.shares, 0, None)
  }

  /** What the rows demand of the sells. */
  ghost predicate SellsAccepted(x: Inputs) {
    var ordered := Ordered(x);
    && x.main in x.baselines && x.baselines[x.main].shares == x.approved
    && (forall i, j :: 0 <= i < j < |ordered| ==> ordered[i].tradeId != ordered[j].tradeId)
    && (forall i :: 0 <= i < |ordered| ==> ordered[i].tradeId in x.openIssues)
    && (forall i :: 0 < i <= |ordered| ==> Sold(ordered, i) <= x.approved)
    && x.approved - Sold(ordered, |ordered|) == x.currentShares
    && ordered != []
  }

  /** What the rows demand of one adoption. */
  predicate TargetAccepted(x: Inputs, t: Target)
    requires Ordered(x) != []
  {
    && t.key in x.baselines && t.marketKnown && t.economicsHold
    && t.snapshotShares == Some(t.shares)
    && t.openedAt <= x.baselines[t.key].observedAt <= x.adoptedAt
    && TailOf(x, t.key).shares == t.shares && TailOf(x, t.key).time <= x.adoptedAt
  }

  ghost predicate Acceptable(x: Inputs) {
    && SellsAccepted(x)
    && (forall i :: 0 <= i < |x.targets| ==> TargetAccepted(x, x.targets[i]))
    && |x.targets| == x.adoptionCount
    && (forall a :: a in x.adoptionAccounts <==> exists t :: t in x.targets && t.key.account == a)
  }

  /** The callers pass the sells of the main token, zero-share audit rows and one target per token. */
  predicate WellFormed(x: Inputs) {
    && (forall i :: 0 <= i < |x.sells| ==> x.sells[i].token == x.main.token)
    && (forall i :: 0 <= i < |x.audits| ==> x.audits[i].kind.AuditOnly? && x.audits[i].sequence.None?)
    && (forall i, j :: 0 <= i < j < |x.targets| ==> x.targets[i].key != x.targets[j].key)
  }

  /** The transition rows of one account and token, in the order they were appended. */
  function Chain(rows: seq<Row>, key: Key): seq<Row> {
    if rows == [] then []
    else
      var rest, last := Chain(rows[..|rows| - 1], key), rows[|rows| - 1];
      if last.key == key && last.sequence.Some? then rest + [last] else rest
  }

  /** The shares that rows give away. */
  function DeltaTotal(rows: seq<Row>): int {
    if rows == [] then 0 else DeltaTotal(rows[..|rows| - 1]) + rows[|rows| - 1].delta
  }

  /** Rows numbered from one that link from one number of shares to another and never go negative. */
  predicate Links(rows: seq<Row>, from: int, to: int) {
    if rows == [] then to == from
    else
      var last := rows[|rows| - 1];
      && last.sequence == Some(|rows|) && last.after == last.before - last.delta == to && to >= 0
      && Links(rows[..|rows| - 1], from, last.before)
  }

  lemma LinksGrow(rows: seq<Row>, from: int, row: Row)
    requires Links(rows, from, row.before) && row.sequence == Some(|rows| + 1)
    requires row.after == row.before - row.delta && row.after >= 0
    ensures Links(rows + [row], from, row.after)
  {
    assert (rows + [row])[..|rows|] == rows;
  }

  lemma {:induction false} LinksNumber(rows: seq<Row>, from: int, to: int)
    requires Links(rows, from, to)
    ensures forall i :: 0 <= i < |rows| ==> rows[i].sequence == Some(i + 1)
  {
    if rows == [] {
    } else {
      LinksNumber(rows[..|rows| - 1], from, rows[|rows| - 1].before);
    }
  }

  /** A chain numbered 1..n that links from the baseline to zero and ends in its only adoption. */
  predicate Complete(chain: seq<Row>, baseline: int) {
    && chain != [] && Links(chain, baseline, 0)
    && (forall i :: 0 <= i < |chain| ==> (chain[i].kind.Adoption? <==> i == |chain| - 1))
  }

  /** The row of a sell gives away the shares of that sell. */
  predicate Records(row: Row, t: Sell, main: Key) {
    && row.kind.ExternalSell? && row.key == Key(main.account, t.token)
    && row.delta == t.shares && row.tradeId == Some(t.tradeId)
  }

  predicate RecordsAll(rows: seq<Row>, sells: seq<Sell>, main: Key) {
    |rows| == |sells| && forall i :: 0 <= i < |rows| ==> Records(rows[i], sells[i], main)
  }

  /** The rows of the sells, one for each in their order, from the approved shares to the current ones. */
  predicate SalesRecorded(rows: seq<Row>, x: Inputs) {
    RecordsAll(rows, Ordered(x), x.main) && Links(rows, x.approved, x.currentShares)
  }

  function AdoptionRows(x: Inputs, n: nat): seq<Row>
    requires n <= |x.targets| && Ordered(x) != []
    requires forall i :: 0 <= i < n ==> x.targets[i].key in x.baselines
  {
    if n == 0 then []
    else AdoptionRows(x, n - 1) + [AdoptionRow(x.targets[n - 1], TailOf(x, x.targets[n - 1].key))]
  }

  /** The rows of an acceptable batch: its sales, the audit rows, its adoptions. */
  predicate IsBatch(sales: seq<Row>, rows: seq<Row>, x: Inputs)
    requires Ordered(x) != [] && forall i :: 0 <= i < |x.targets| ==> x.targets[i].key in x.baselines
  {
    SalesRecorded(sales, x) && rows == sales + (x.audits + AdoptionRows(x, |x.targets|))
  }

  // ----- the loops of build_adjustment_rows

  /** The loop over the sells behind the first n of them. */
  ghost predicate SoldSoFar(x: Inputs, ordered: seq<Sell>, n: nat, rows: seq<Row>, running: int) {
    && n <= |ordered| && running == x.approved - Sold(ordered, n)
    && RecordsAll(rows, ordered[..n], x.main) && Links(rows, x.approved, running)
    && (forall i :: 0 <= i < n ==> ordered[i].tradeId in x.openIssues)
    && (forall i :: 0 < i <= n ==> Sold(ordered, i) <= x.approved)
  }

  lemma {:induction false} NextSold(x: Inputs, ordered: seq<Sell>, n: nat, rows: seq<Row>, running: int, row: Row)
    requires n < |ordered| && SoldSoFar(x, ordered, n, rows, running)
    requires ordered[n].tradeId in x.openIssues && running - ordered[n].shares >= 0
    requires Records(row, ordered[n], x.main) && row.sequence == Some(n + 1)
    requires row.before == running && row.after == running - ordered[n].shares
    ensures SoldSoFar(x, ordered, n + 1, rows + [row], row.after)
  {
    LinksGrow(rows, x.approved, row);
    assert ordered[..n + 1] == ordered[..n] + [ordered[n]];
  }

  lemma {:induction false} SaleRefuses(x: Inputs, ordered: seq<Sell>, n: nat, rows: seq<Row>, running: int)
    requires ordered == Ordered(x) && n < |ordered| && SoldSoFar(x, ordered, n, rows, running)
    requires ordered[n].tradeId !in x.openIssues || running - ordered[n].shares < 0
    ensures !SellsAccepted(x)
  {
    assert Sold(ordered, n + 1) == Sold(ordered, n) + ordered[n].shares;
  }

  method AppendSells(x: Inputs) returns (r: Option<seq<Row>>, tail: Tail)
    ensures r.Some? <==> SellsAccepted(x)
    ensures r.Some? ==> SalesRecorded(r.value, x)
    ensures r.Some? ==> tail == TailOf(x, x.main)
  {
    tail := Tail(0, 0, 0);
    if x.main !in x.baselines || x.baselines[x.main].shares != x.approved {
      return None, tail;
    }
    var ordered := Ordered(x);
    var distinct := DistinctTradeIds(ordered);
    if !distinct {
      return None, tail;
    }
    var rows, running := [], x.approved;
    for n := 0 to |ordered|
      invariant SoldSoFar(x, ordered, n, rows, running)
    {
      var trade := ordered[n];
      var before := running;
      var after := before - trade.shares;
      if trade.tradeId !in x.openIssues || after < 0 {
        SaleRefuses(x, ordered, n, rows, running);
        return None, tail;
      }
      var row := Row(Key(x.main.account, trade.token), ExternalSell, Some(n + 1), before, trade.shares, after,
                     Some(trade.tradeId));
      NextSold(x, ordered, n, rows, running, row);
      rows, running := rows + [row], after;
    }
    assert ordered[..|ordered|] == ordered;
    if running != x.currentShares || ordered == [] {
      return None, tail;
    }
    return Some(rows), Tail(|ordered|, running, ordered[|ordered| - 1].matchTime);
  }

  method DistinctTradeIds(s: seq<Sell>) returns (distinct: bool)
    ensures distinct <==> forall i, j :: 0 <= i < j < |s| ==> s[i].tradeId != s[j].tradeId
  {
    var seen: set<nat> := {};
    for n := 0 to |s|
      invariant forall k :: 0 <= k < n ==> s[k].tradeId in seen
      invariant forall id :: id in seen ==> exists k :: 0 <= k < n && s[k].tradeId == id
      invariant forall i, j :: 0 <= i < j < n ==> s[i].tradeId != s[j].tradeId
    {
      if s[n].tradeId in seen {
        return false;
      }
      seen := seen + {s[n].tradeId};
    }
    return true;
  }

  /** One adoption of the loop over the reconstructions; tails is transition_tail. */
  method Adopt(x: Inputs, t: Target, tails: map<Key, Tail>) returns (row: Option<Row>)
    requires Ordered(x) != [] && x.main in x.baselines && tails == map[x.main := TailOf(x, x.main)]
    ensures row.Some? <==> TargetAccepted(x, t)
    ensures row.Some? ==> row.value == AdoptionRow(t, TailOf(x, t.key))
  {
    if t.key !in x.baselines || t.snapshotShares.None? || !t.marketKnown {
      return None;
    }
    var baseline := x.baselines[t.key];
    if t.shares != t.snapshotShares.value || !t.economicsHold {
      return None;
    }
    if t.openedAt > baseline.observedAt || baseline.observedAt > x.adoptedAt {
      return None;
    }
    var tail := if t.key in tails then tails[t.key] else Tail(0, baseline.shares, baseline.observedAt);
    if tail.shares != t.shares || x.adoptedAt < tail.time {
      return None;
    }
    return Some(Row(t.key, Adoption, Some(tail.sequence + 1), t.shares, t.shares, 0, None));
  }

  method AppendAdoptions(x: Inputs, mainTail: Tail) returns (r: Option<seq<Row>>)
    requires Ordered(x) != [] && x.main in x.baselines && mainTail == TailOf(x, x.main)
    ensures r.Some? <==> forall i :: 0 <= i < |x.targets| ==> TargetAccepted(x, x.targets[i])
    ensures r.Some? ==> r.value == AdoptionRows(x, |x.targets|)
  {
    var tails := map[x.main := mainTail];
    var rows := [];
    for n := 0 to |x.targets|
      invariant forall i :: 0 <= i < n ==> TargetAccepted(x, x.targets[i])
      invariant rows == AdoptionRows(x, n)
    {
      var row := Adopt(x, x.targets[n], tails);
      if row.None? {
        return None;
      }
      rows := rows + [row.value];
    }
    return Some(rows);
  }

  /** The number of the adoptions and the set of their accounts. */
  method CheckAdoptions(x: Inputs) returns (ok: bool)
    ensures ok <==> && |x.targets| == x.adoptionCount
                    && forall a :: a in x.adoptionAccounts <==> exists t :: t in x.targets && t.key.account == a
  {
    var accounts: set<nat> := {};
    for n := 0 to |x.targets|
      invariant forall a :: a in accounts <==> exists t :: t in x.targets[..n] && t.key.account == a
    {
      assert x.targets[..n + 1] == x.targets[..n] + [x.targets[n]];
      accounts := accounts + {x.targets[n].key.account};
    }
    assert x.targets[..|x.targets|] == x.targets;
    return |x.targets| == x.adoptionCount && accounts == x.adoptionAccounts;
  }

  /** The sales and the adoptions, when both are accepted. */
  method CollectRows(x: Inputs) returns (r: Option<(seq<Row>, seq<Row>)>)
    ensures r.Some? <==> Acceptable(x)
    ensures r.Some? ==> SalesRecorded(r.value.0, x) && r.value.1 == AdoptionRows(x, |x.targets|)
  {
    var sold, mainTail := AppendSells(x);
    if sold.None? {
      return None;
    }
    var adopted := AppendAdoptions(x, mainTail);
    if adopted.None? {
      return None;
    }
    var complete := CheckAdoptions(x);
    if !complete {
      return None;
    }
    return Some((sold.value, adopted.value));
  }

  /** Every row of a sale records one of the sells, and every sell is recorded by exactly one row. */
  ghost predicate EachSellOnce(rows: seq<Row>, x: Inputs) {
    && (forall i :: 0 <= i < |rows| && rows[i].kind.ExternalSell? ==>
                      exists t :: t in x.sells && Records(rows[i], t, x.main))
    && (forall t :: t in x.sells ==> exists i :: 0 <= i < |rows| && IsOnlyRowOf(rows, i, t, x.main))
  }

  predicate IsOnlyRowOf(rows: seq<Row>, i: nat, t: Sell, main: Key)
    requires i < |rows|
  {
    && Records(rows[i], t, main)
    && forall j :: 0 <= j < |rows| && rows[j].kind.ExternalSell? && rows[j].tradeId == Some(t.tradeId) ==> j == i
  }

  method BuildDispositions(x: Inputs) returns (r: Option<seq<Row>>)
    requires WellFormed(x)
    ensures r.Some? <==> Acceptable(x)
    ensures r.Some? ==> exists sales :: IsBatch(sales, r.value, x)
    ensures r.Some? ==> EachSellOnce(r.value, x) && SellTrades(r.value) == Ids(x.sells)
    ensures r.Some? ==> forall i :: 0 <= i < |x.targets| ==>
                          Complete(Chain(r.value, x.targets[i].key), x.baselines[x.targets[i].key].shares)
  {
    var collected := CollectRows(x);
    if collected.None? {
      return None;
    }
    var sales, adoptions := collected.value.0, collected.value.1;
    var rows := sales + (x.audits + adoptions);
    assert IsBatch(sales, rows, x);
    SellsAreRecordedOnce(sales, rows, x);
    ChainsAreComplete(sales, rows, x);
    RowsNameTheSells(sales, rows, x);
    return Some(rows);
  }

  // ----- one row for each sell

  predicate NoSales(rows: seq<Row>) {
    forall i :: 0 <= i < |rows| ==> !rows[i].kind.ExternalSell?
  }

  lemma {:induction false} RecordedOnce(sales: seq<Row>, others: seq<Row>, sells: seq<Sell>, t: Sell, main: Key)
    requires RecordsAll(sales, sells, main) && t in sells
    requires forall i, j :: 0 <= i < j < |sells| ==> sells[i].tradeId != sells[j].tradeId
    requires NoSales(others)
    ensures exists i :: 0 <= i < |sales + others| && IsOnlyRowOf(sales + others, i, t, main)
  {
    var rows := sales + others;
    var i :| 0 <= i < |sells| && sells[i] == t;
    forall j | 0 <= j < |rows| && rows[j].kind.ExternalSell? && rows[j].tradeId == Some(t.tradeId) ensures j == i {
      assert rows[j] == sales[j] && Records(sales[j], sells[j], main);
    }
    assert rows[i] == sales[i] && Records(sales[i], t, main);
    assert IsOnlyRowOf(rows, i, t, main);
  }

  lemma {:induction false} SaleRecordsSell(sales: seq<Row>, others: seq<Row>, sells: seq<Sell>, main: Key, i: nat)
    requires RecordsAll(sales, sells, main) && i < |sales + others| && (sales + others)[i].kind.ExternalSell?
    requires NoSales(others)
    ensures exists t :: t in sells && Records((sales + others)[i], t, main)
  {
    var rows := sales + others;
    assert forall k :: |sales| <= k < |rows| ==> rows[k] == others[k - |sales|];
    assert i < |sales|;
    assert Records(rows[i], sells[i], main);
  }

  lemma {:induction false} RecordedExactly(sales: seq<Row>, others: seq<Row>, x: Inputs)
    requires SellsAccepted(x) && RecordsAll(sales, Ordered(x), x.main)
    requires NoSales(others)
    ensures EachSellOnce(sales + others, x)
  {
    var rows, ordered := sales + others, Ordered(x);
    SortPermutes(x.sells, SellLeq);
    SameMembers(x.sells, ordered);
    forall i | 0 <= i < |rows| && rows[i].kind.ExternalSell?
      ensures exists t :: t in x.sells && Records(rows[i], t, x.main)
    {
      SaleRecordsSell(sales, others, ordered, x.main, i);
    }
    forall t | t in x.sells ensures exists i :: 0 <= i < |rows| && IsOnlyRowOf(rows, i, t, x.main) {
      RecordedOnce(sales, others, ordered, t, x.main);
    }
  }

  lemma {:induction false} SellsAreRecordedOnce(sales: seq<Row>, rows: seq<Row>, x: Inputs)
    requires WellFormed(x) && Acceptable(x) && IsBatch(sales, rows, x)
    ensures EachSellOnce(rows, x)
  {
    OthersAreNoSells(x);
    RecordedExactly(sales, x.audits + AdoptionRows(x, |x.targets|), x);
  }

  lemma OthersAreNoSells(x: Inputs)
    requires WellFormed(x) && Acceptable(x)
    ensures NoSales(x.audits + AdoptionRows(x, |x.targets|))
  {
    AdoptionsAreNoSells(x, |x.targets|);
  }

  // ----- the chain of one token

  lemma {:induction false} ChainConcat(a: seq<Row>, b: seq<Row>, key: Key)
    ensures Chain(a + b, key) == Chain(a, key) + Chain(b, key)
  {
    if b == [] {
      assert a + b == a;
    } else {
      ChainConcat(a, b[..|b| - 1], key);
      assert (a + b)[..|a + b| - 1] == a + b[..|b| - 1];
    }
  }

  lemma {:induction false} ChainOfAudits(rows: seq<Row>, key: Key)
    requires forall i :: 0 <= i < |rows| ==> rows[i].sequence.None?
    ensures Chain(rows, key) == []
  {
    if rows == [] {
    } else {
      ChainOfAudits(rows[..|rows| - 1], key);
    }
  }

  lemma {:induction false} ChainOfSales(rows: seq<Row>, main: Key, key: Key)
    requires forall i :: 0 <= i < |rows| ==> rows[i].key == main && rows[i].sequence.Some?
    ensures Chain(rows, key) == if key == main then rows else []
  {
    if rows == [] {
    } else {
      ChainOfSales(rows[..|rows| - 1], main, key);
    }
  }

  lemma {:induction false} ChainOfAdoptions(x: Inputs, n: nat, key: Key)
    requires WellFormed(x) && n <= |x.targets| && Ordered(x) != []
    requires forall i :: 0 <= i < n ==> x.targets[i].key in x.baselines
    ensures (forall i :: 0 <= i < n ==> x.targets[i].key != key) ==> Chain(AdoptionRows(x, n), key) == []
    ensures forall i :: 0 <= i < n && x.targets[i].key == key ==>
              Chain(AdoptionRows(x, n), key) == [AdoptionRow(x.targets[i], TailOf(x, key))]
  {
    if n == 0 {
    } else {
      ChainOfAdoptions(x, n - 1, key);
      var rows := AdoptionRows(x, n);
      assert rows[..|rows| - 1] == AdoptionRows(x, n - 1);
    }
  }

  lemma {:induction false} SortedSellsKeepToken(x: Inputs)
    requires WellFormed(x)
    ensures forall i :: 0 <= i < |Ordered(x)| ==> Ordered(x)[i].token == x.main.token
  {
    SortPermutes(x.sells, SellLeq);
    forall i | 0 <= i < |Ordered(x)| ensures Ordered(x)[i].token == x.main.token {
      assert Ordered(x)[i] in multiset(Ordered(x));
      assert Ordered(x)[i] in x.sells;
    }
  }

  lemma {:induction false} ChainOfParts(sells: seq<Row>, audits: seq<Row>, adoptions: seq<Row>, key: Key)
    requires forall i :: 0 <= i < |audits| ==> audits[i].sequence.None?
    ensures Chain(sells + (audits + adoptions), key) == Chain(sells, key) + Chain(adoptions, key)
  {
    ChainConcat(sells, audits + adoptions, key);
    ChainConcat(audits, adoptions, key);
    ChainOfAudits(audits, key);
    assert [] + Chain(adoptions, key) == Chain(adoptions, key);
  }

  /** The rows before and behind a target leave its own chain: its sales, if any, and its adoption. */
  lemma {:induction false} ChainOfTarget(sales: seq<Row>, rows: seq<Row>, x: Inputs, i: nat)
    requires WellFormed(x) && Acceptable(x) && IsBatch(sales, rows, x) && i < |x.targets|
    ensures var key := x.targets[i].key;
            Chain(rows, key) == (if key == x.main then sales else []) + [AdoptionRow(x.targets[i], TailOf(x, key))]
  {
    var key := x.targets[i].key;
    ChainOfParts(sales, x.audits, AdoptionRows(x, |x.targets|), key);
    SortedSellsKeepToken(x);
    LinksNumber(sales, x.approved, x.currentShares);
    ChainOfSales(sales, x.main, key);
    ChainOfAdoptions(x, |x.targets|, key);
  }

  lemma {:induction false} ChainIsComplete(sales: seq<Row>, rows: seq<Row>, x: Inputs, i: nat)
    requires WellFormed(x) && Acceptable(x) && IsBatch(sales, rows, x) && i < |x.targets|
    ensures Complete(Chain(rows, x.targets[i].key), x.baselines[x.targets[i].key].shares)
  {
    var key := x.targets[i].key;
    var row := AdoptionRow(x.targets[i], TailOf(x, key));
    ChainOfTarget(sales, rows, x, i);
    if key == x.main {
      LinksGrow(sales, x.approved, row);
    } else {
      LinksGrow([], x.baselines[key].shares, row);
    }
  }

  lemma {:induction false} ChainsAreComplete(sales: seq<Row>, rows: seq<Row>, x: Inputs)
    requires WellFormed(x) && Acceptable(x) && IsBatch(sales, rows, x)
    ensures forall i :: 0 <= i < |x.targets| ==>
                          Complete(Chain(rows, x.targets[i].key), x.baselines[x.targets[i].key].shares)
  {
    forall i | 0 <= i < |x.targets|
      ensures Complete(Chain(rows, x.targets[i].key), x.baselines[x.targets[i].key].shares)
    {
      ChainIsComplete(sales, rows, x, i);
    }
  }

  lemma {:induction false} LinkedTotal(rows: seq<Row>, from: int, to: int)
    requires Links(rows, from, to)
    ensures DeltaTotal(rows) == from - to
  {
    if rows == [] {
    } else {
      LinkedTotal(rows[..|rows| - 1], from, rows[|rows| - 1].before);
    }
  }

  /** A complete chain gives away exactly its baseline: sold plus adopted shares are conserved. */
  lemma {:induction false} ChainConserves(chain: seq<Row>, baseline: int)
    requires Complete(chain, baseline)
    ensures DeltaTotal(chain) == baseline
    ensures DeltaTotal(chain[..|chain| - 1]) + chain[|chain| - 1].delta == baseline
  {
    LinkedTotal(chain, baseline, 0);
  }

  // ----- the order of the sells

  function SellKey(t: Sell): seq<int> {
    [t.matchTime, t.tradeId, t.orderHash]
  }

  lemma SellOrderIsTupleOrder(a: Sell, b: Sell)
    ensures SellLeq(a, b) <==> TupleLeq(SellKey(a), SellKey(b))
  {
    Tuples3(a.matchTime, a.tradeId, a.orderHash, b.matchTime, b.tradeId, b.orderHash);
    assert SellKey(a) == SellKey(b) <==> forall i :: 0 <= i < 3 ==> SellKey(a)[i] == SellKey(b)[i];
  }

  /** The sells behind the rows are in order of match time, trade and order; the tail of their chain is the latest. */
  lemma {:induction false} TailIsLatest(x: Inputs)
    requires x.main in x.baselines && Ordered(x) != []
    ensures forall i, j :: 0 <= i < j < |Ordered(x)| ==> TupleLeq(SellKey(Ordered(x)[i]), SellKey(Ordered(x)[j]))
    ensures forall t :: t in x.sells ==> t.matchTime <= TailOf(x, x.main).time
    ensures exists t :: t in x.sells && t.matchTime == TailOf(x, x.main).time
  {
    var ordered := Ordered(x);
    SellsAreOrdered(x.sells);
    SortPermutes(x.sells, SellLeq);
    SameMembers(x.sells, ordered);
    forall i, j | 0 <= i < j < |ordered|
      ensures ordered[i].matchTime <= ordered[j].matchTime && TupleLeq(SellKey(ordered[i]), SellKey(ordered[j]))
    {
      assert SellLeq(ordered[i], ordered[j]);
      SellOrderIsTupleOrder(ordered[i], ordered[j]);
    }
    assert ordered[|ordered| - 1] in ordered;
  }

  predicate SellBefore(a: Sell, b: Sell) {
    a.matchTime < b.matchTime || (a.matchTime == b.matchTime && a.tradeId < b.tradeId)
  }

  /** Sells with distinct trade ids have one order, whatever order they were read in. */
  lemma {:induction false} ReadOrderIsIrrelevant(x: Inputs, y: Inputs)
    requires multiset(x.sells) == multiset(y.sells)
    requires forall s, t :: s in x.sells && t in x.sells && s.tradeId == t.tradeId ==> s == t
    requires forall t :: t in x.sells ==> multiset(x.sells)[t] == 1
    ensures Ordered(x) == Ordered(y)
  {
    OrderedStrictly(x.sells);
    SameMembers(x.sells, y.sells);
    OrderedStrictly(y.sells);
    SortPermutes(x.sells, SellLeq);
    SortPermutes(y.sells, SellLeq);
    StrictOrderIsUnique(Ordered(x), Ordered(y), SellBefore);
  }

  lemma {:induction false} OrderedStrictly(sells: seq<Sell>)
    requires forall s, t :: s in sells && t in sells && s.tradeId == t.tradeId ==> s == t
    requires forall t :: t in sells ==> multiset(sells)[t] == 1
    ensures Sorted(Sort(sells, SellLeq), SellBefore)
  {
    var ordered := Sort(sells, SellLeq);
    SellsAreOrdered(sells);
    SortPermutes(sells, SellLeq);
    SameMembers(sells, ordered);
    forall i, j | 0 <= i < j < |ordered| ensures SellBefore(ordered[i], ordered[j]) {
      assert ordered[i] in ordered && ordered[j] in ordered;
      if ordered[i] == ordered[j] {
        SplitTwice(ordered, i, j);
      }
      assert SellLeq(ordered[i], ordered[j]);
    }
  }

  lemma SplitTwice(s: seq<Sell>, i: nat, j: nat)
    requires i < j < |s| && s[i] == s[j]
    ensures multiset(s)[s[i]] >= 2
  {
    assert s == s[..i] + [s[i]] + s[i + 1..j] + [s[j]] + s[j + 1..];
  }

  // ----- shares and cash of the same trades

  /** The trades of the sell rows, each as often as the rows name it. */
  function SellTrades(rows: seq<Row>): multiset<nat> {
    if rows == [] then multiset{}
    else
      var rest, last := SellTrades(rows[..|rows| - 1]), rows[|rows| - 1];
      if last.kind.ExternalSell? && last.tradeId.Some? then rest + multiset{last.tradeId.value} else rest
  }

  lemma {:induction false} SellTradesConcat(a: seq<Row>, b: seq<Row>)
    ensures SellTrades(a + b) == SellTrades(a) + SellTrades(b)
  {
    if b == [] {
      assert a + b == a;
    } else {
      assert (a + b)[..|a + b| - 1] == a + b[..|b| - 1];
      SellTradesConcat(a, b[..|b| - 1]);
    }
  }

  lemma {:induction false} NoSellTrades(rows: seq<Row>)
    requires NoSales(rows)
    ensures SellTrades(rows) == multiset{}
  {
    if rows == [] {
    } else {
      NoSellTrades(rows[..|rows| - 1]);
    }
  }

  lemma OneMoreTrade(rows: seq<Row>, row: Row)
    requires row.kind.ExternalSell? && row.tradeId.Some?
    ensures SellTrades(rows + [row]) == SellTrades(rows) + multiset{row.tradeId.value}
  {
    assert (rows + [row])[..|rows|] == rows;
  }

  lemma {:induction false} SalesNameTheirTrades(rows: seq<Row>, sells: seq<Sell>, main: Key)
    requires RecordsAll(rows, sells, main)
    ensures SellTrades(rows) == Ids(sells)
  {
    if rows == [] {
    } else {
      var front, before := rows[..|rows| - 1], sells[..|sells| - 1];
      SalesNameTheirTrades(front, before, main);
      assert Records(rows[|rows| - 1], sells[|rows| - 1], main);
    }
  }

  lemma {:induction false} AdoptionsAreNoSells(x: Inputs, n: nat)
    requires n <= |x.targets| && Ordered(x) != []
    requires forall i :: 0 <= i < n ==> x.targets[i].key in x.baselines
    ensures forall i :: 0 <= i < |AdoptionRows(x, n)| ==> AdoptionRows(x, n)[i].kind.Adoption?
  {
    if n == 0 {
    } else {
      AdoptionsAreNoSells(x, n - 1);
    }
  }

  /** All rows of a batch name exactly the trades of its sells. */
  lemma {:induction false} RowsNameTheSells(sales: seq<Row>, rows: seq<Row>, x: Inputs)
    requires WellFormed(x) && Acceptable(x) && IsBatch(sales, rows, x)
    ensures SellTrades(rows) == Ids(x.sells)
  {
    var adoptions := AdoptionRows(x, |x.targets|);
    SellTradesConcat(sales, x.audits + adoptions);
    OthersAreNoSells(x);
    NoSellTrades(x.audits + adoptions);
    SalesNameTheirTrades(sales, Ordered(x), x.main);
    SortPermutes(x.sells, SellLeq);
    IdsOfPermutation(Ordered(x), x.sells);
  }

  /** Every sell has an open issue; snapshot, market and times of every target agree with its reconstruction. */
  predicate SurfacesAgree(x: Inputs) {
    && (forall t :: t in x.sells ==> t.tradeId in x.openIssues)
    && (forall t :: t in x.targets ==>
          && t.key in x.baselines && t.snapshotShares == Some(t.shares) && t.marketKnown && t.economicsHold
          && t.openedAt <= x.baselines[t.key].observedAt <= x.adoptedAt)
  }

  lemma {:induction false} AcceptableAgrees(x: Inputs)
    requires Acceptable(x)
    ensures SurfacesAgree(x)
  {
    SortPermutes(x.sells, SellLeq);
    SameMembers(x.sells, Ordered(x));
  }

  datatype Adjustment = Adjustment(rows: seq<Row>, cash: seq<CashRow>)

  /**
   The share and the cash side of one batch, built from the same sells: exactly the trades that give
   away shares bring in the cash, each once.
   */
  method BuildAdjustment(x: Inputs, receipts: map<nat, int>, start: int, cashId: nat -> nat)
    returns (r: Option<Adjustment>)
    requires WellFormed(x) && forall t :: t in x.sells ==> t.tx in receipts
    ensures r.Some? <==> && Acceptable(x)
                         && forall t :: t in x.sells ==>
                              Moved(receipts, x.sells, t.tx) && Cash(Of(x.sells, t.tx)) > 0
    ensures r.Some? ==> SellTrades(r.value.rows) == AllIds(r.value.cash) == Ids(x.sells)
    ensures r.Some? ==> EachSellOnce(r.value.rows, x) && SurfacesAgree(x)
    ensures r.Some? ==> && Linked(r.value.cash, start) && Final(r.value.cash, start) == start + Cash(x.sells)
                        && forall i :: 0 <= i < |x.targets| ==>
                             Complete(Chain(r.value.rows, x.targets[i].key), x.baselines[x.targets[i].key].shares)
  {
    var rows := BuildDispositions(x);
    if rows.None? {
      return None;
    }
    var cash := AdjustCash(x.sells, receipts, start, cashId);
    if cash.None? {
      return None;
    }
    AcceptableAgrees(x);
    return Some(Adjustment(rows.value, cash.value));
  }
}
