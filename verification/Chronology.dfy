/**
 The finalized order of the trades around the wallet's MERGE, and the history it gives to FIFO.
 Receipts and blocks are inputs. Identifiers are represented by their rank in text order.
 */
module Chronology {
  import opened Outcomes
  import opened Fifo
  import opened Sorting

  /** Where a log sits in the finalized chain. */
  datatype ChainOrder = ChainOrder(block: nat, transaction: nat, log: nat)

  /** What verify_trade_event and the block reader report of one trade. */
  datatype Trade = Trade(
    event: Event, tradeId: nat, orderHash: nat, debitId: nat,
    confirmed: bool, price: real, precision: int,
    chain: ChainOrder, blockHash: nat, settlementBlock: nat, settlementHash: nat)

  datatype MergeSide = PreMerge | PostMerge

  datatype Component = Component(trade: Trade, side: MergeSide)

  predicate ChainLess(a: ChainOrder, b: ChainOrder) {
    || a.block < b.block
    || (a.block == b.block && (a.transaction < b.transaction
                               || (a.transaction == b.transaction && a.log < b.log)))
  }

  /** The tuples (block, transaction, log) are compared as Python compares them. */
  lemma ChainOrderIsTupleOrder(a: ChainOrder, b: ChainOrder)
    ensures ChainLess(a, b) <==> TupleLess([a.block, a.transaction, a.log], [b.block, b.transaction, b.log])
  {
    Tuples3(a.block, a.transaction, a.log, b.block, b.transaction, b.log);
  }

  /** The sort key of a history: match time, then the identifiers. */
  predicate KeyLeq(a: Trade, b: Trade) {
    || a.event.matchTime < b.event.matchTime
    || (&& a.event.matchTime == b.event.matchTime
        && (|| a.tradeId < b.tradeId
            || (a.tradeId == b.tradeId && (a.orderHash < b.orderHash
                                           || (a.orderHash == b.orderHash && a.debitId <= b.debitId)))))
  }

  /** require_confirmed_component_economics. */
  predicate ConfirmedEconomics(t: Trade) {
    && t.confirmed && (t.event.side.Buy? || t.event.side.Sell?)
    && t.event.shares > 0 && 0.0 < t.price < 1.0 && 1 <= t.precision <= 18
  }

  /** What the loop demands of one trade on its own. */
  predicate Placed(t: Trade, mergeBlock: nat, mergeTime: int) {
    && ConfirmedEconomics(t)
    && t.event.matchTime != mergeTime
    && t.settlementBlock == t.chain.block && t.settlementHash == t.blockHash
    && (if t.event.matchTime < mergeTime then t.chain.block < mergeBlock else mergeBlock < t.chain.block)
  }

  predicate InChainOrder(trades: seq<Trade>) {
    forall i :: 0 < i < |trades| ==> ChainLess(trades[i - 1].chain, trades[i].chain)
  }

  ghost predicate Accepted(trades: seq<Trade>, mergeBlock: nat, mergeTime: int) {
    && trades != [] && InChainOrder(trades)
    && forall i :: 0 <= i < |trades| ==> Placed(trades[i], mergeBlock, mergeTime)
  }

  /** verify_wallet_1_fifo_component_chronology. */
  method VerifyChronology(trades: seq<Trade>, mergeBlock: nat, mergeTime: int) returns (r: Option<seq<Component>>)
    ensures r.Some? <==> Accepted(trades, mergeBlock, mergeTime)
    ensures r.Some? ==> && |r.value| == |trades|
                        && forall i :: 0 <= i < |trades| ==>
                             && r.value[i].trade == trades[i]
                             && (r.value[i].side.PreMerge? <==> trades[i].chain.block < mergeBlock)
                             && (r.value[i].side.PreMerge? <==> trades[i].event.matchTime < mergeTime)
  {
    var placed: seq<Component> := [];
    var previous: Option<ChainOrder> := None;
    for n := 0 to |trades|
      invariant |placed| == n
      invariant previous == if n == 0 then None else Some(trades[n - 1].chain)
      invariant forall i :: 0 <= i < n ==>
                  && Placed(trades[i], mergeBlock, mergeTime)
                  && placed[i].trade == trades[i]
                  && (placed[i].side.PreMerge? <==> trades[i].chain.block < mergeBlock)
                  && (placed[i].side.PreMerge? <==> trades[i].event.matchTime < mergeTime)
      invariant forall i :: 0 < i < n ==> ChainLess(trades[i - 1].chain, trades[i].chain)
    {
      var t := trades[n];
      if !t.confirmed {
        return None;
      }
      if || (!t.event.side.Buy? && !t.event.side.Sell?) || t.event.shares <= 0
         || !(0.0 < t.price < 1.0) || t.precision < 1 || t.precision > 18 {
        return None;
      }
      if t.event.matchTime == mergeTime {
        return None;
      }
      if t.settlementBlock != t.chain.block || t.settlementHash != t.blockHash {
        return None;
      }
      var side;
      if t.event.matchTime < mergeTime {
        side := PreMerge;
        if t.chain.block >= mergeBlock {
          return None;
        }
      } else {
        side := PostMerge;
        if t.chain.block <= mergeBlock {
          return None;
        }
      }
      if previous.Some? && !ChainLess(previous.value, t.chain) {
        return None;
      }
      previous := Some(t.chain);
      placed := placed + [Component(t, side)];
    }
    if placed == [] {
      return None;
    }
    return Some(placed);
  }

  // ----- what acceptance gives

  predicate EarlierOnChain(a: Trade, b: Trade) {
    ChainLess(a.chain, b.chain)
  }

  lemma {:induction false} ChainOrderIsTotal(trades: seq<Trade>, i: nat, j: nat)
    requires InChainOrder(trades) && i < j < |trades|
    ensures EarlierOnChain(trades[i], trades[j])
    decreases j
  {
    assert ChainLess(trades[j - 1].chain, trades[j].chain);
    if i < j - 1 {
      ChainOrderIsTotal(trades, i, j - 1);
    }
  }

  /** The events given to reconstruct_fifo. */
  function Events(trades: seq<Trade>): seq<Event> {
    seq(|trades|, i requires 0 <= i < |trades| => trades[i].event)
  }

  /** ordered_events: the debit sorted in among the trades by match time. */
  function OrderedEvents(trades: seq<Trade>, debit: Trade): seq<Trade> {
    Sort(trades + [debit], KeyLeq)
  }

  lemma KeyOrders()
    ensures TotalPreorder(KeyLeq)
  {
  }

  function KeyOf(t: Trade): seq<int> {
    [t.event.matchTime, t.tradeId, t.orderHash, t.debitId]
  }

  lemma KeyOrderIsTupleOrder(a: Trade, b: Trade)
    ensures KeyLeq(a, b) <==> TupleLeq(KeyOf(a), KeyOf(b))
  {
    Tuples4(a.event.matchTime, a.tradeId, a.orderHash, a.debitId, b.event.matchTime, b.tradeId, b.orderHash, b.debitId);
    assert KeyOf(a) == KeyOf(b) <==> forall i :: 0 <= i < 4 ==> KeyOf(a)[i] == KeyOf(b)[i];
  }

  /** Whatever order the trades come in, the history is ordered by match time, then by the identifiers. */
  lemma HistoryIsOrdered(trades: seq<Trade>, debit: Trade)
    ensures Sorted(OrderedEvents(trades, debit), KeyLeq)
    ensures forall i, j :: 0 <= i < j < |OrderedEvents(trades, debit)| ==>
                             TupleLeq(KeyOf(OrderedEvents(trades, debit)[i]), KeyOf(OrderedEvents(trades, debit)[j]))
  {
    KeyOrders();
    SortSorts(trades + [debit], KeyLeq);
    var ordered := OrderedEvents(trades, debit);
    forall i, j | 0 <= i < j < |ordered| ensures TupleLeq(KeyOf(ordered[i]), KeyOf(ordered[j])) {
      KeyOrderIsTupleOrder(ordered[i], ordered[j]);
    }
  }

  /** The number of trades matched before the merge: the first ones, as the history is sorted. */
  function PreMergeCount(trades: seq<Trade>, mergeTime: int): (k: nat)
    ensures k <= |trades|
    ensures k < |trades| ==> trades[k].event.matchTime >= mergeTime
    ensures forall i :: 0 <= i < k ==> trades[i].event.matchTime < mergeTime
  {
    if trades == [] || trades[0].event.matchTime >= mergeTime then 0
    else 1 + PreMergeCount(trades[1..], mergeTime)
  }

  /** Sorting by match time puts the debit between the pre-merge and the post-merge trades. */
  lemma {:induction false} DebitSplitsHistory(trades: seq<Trade>, debit: Trade, mergeBlock: nat) returns (k: nat)
    requires Accepted(trades, mergeBlock, debit.event.matchTime)
    requires Sorted(trades, KeyLeq)
    ensures k <= |trades|
    ensures OrderedEvents(trades, debit) == trades[..k] + [debit] + trades[k..]
    ensures forall i :: 0 <= i < k ==> trades[i].chain.block < mergeBlock
    ensures forall i :: k <= i < |trades| ==> mergeBlock < trades[i].chain.block
  {
    var time := debit.event.matchTime;
    k := PreMergeCount(trades, time);
    forall i | k <= i < |trades|
      ensures trades[i].event.matchTime > time
    {
      assert i == k || KeyLeq(trades[k], trades[i]);
    }
    assert (trades + [debit])[..|trades|] == trades;
    SortKeepsSorted(trades, KeyLeq);
    InsertSplits(trades, debit, KeyLeq, k);
  }

  /**
   The history given to FIFO is sorted by match time and is at once the strict finalized chain
   order of the trades and the merge, wherever in its block the merge sits.
   */
  lemma {:induction false} MatchOrderIsChainOrder(trades: seq<Trade>, debit: Trade)
    requires Accepted(trades, debit.chain.block, debit.event.matchTime)
    requires Sorted(trades, KeyLeq)
    ensures Sorted(OrderedEvents(trades, debit), EarlierOnChain)
    ensures multiset(OrderedEvents(trades, debit)) == multiset(trades + [debit])
  {
    SortPermutes(trades + [debit], KeyLeq);
    var k := DebitSplitsHistory(trades, debit, debit.chain.block);
    var ordered := OrderedEvents(trades, debit);
    forall i, j | 0 <= i < j < |ordered|
      ensures EarlierOnChain(ordered[i], ordered[j])
    {
      assert i < k ==> ordered[i] == trades[i];
      assert i > k ==> ordered[i] == trades[i - 1];
      assert j < k ==> ordered[j] == trades[j];
      assert j > k ==> ordered[j] == trades[j - 1];
      if i != k && j != k {
        ChainOrderIsTotal(trades, if i < k then i else i - 1, if j < k then j else j - 1);
      }
    }
  }

  /** Every event of an accepted history is the debit or a confirmed trade with its own settlement evidence. */
  predicate Checked(t: Trade) {
    && t.confirmed && t.event.side in {Buy, Sell} && t.event.shares > 0 && 0.0 < t.price < 1.0
    && t.settlementBlock == t.chain.block && t.settlementHash == t.blockHash
  }

  lemma {:induction false} HistoryIsChecked(trades: seq<Trade>, debit: Trade, history: seq<Trade>)
    requires Accepted(trades, debit.chain.block, debit.event.matchTime) && debit.event.shares >= 0
    requires multiset(history) == multiset(trades + [debit])
    ensures forall i :: 0 <= i < |history| ==> history[i] == debit || Checked(history[i])
    ensures NonNegative(Events(history))
  {
    SameMembers(history, trades + [debit]);
    forall i | 0 <= i < |history| ensures history[i] == debit || Checked(history[i]) {
      assert history[i] in trades + [debit];
    }
  }

  /**
   Whoever orders the same trades and the merge by the finalized chain feeds FIFO the same history,
   so the residual is the same; it is the closed form and every share count in it is positive.
   */
  lemma {:induction false} FifoFollowsTheChain(trades: seq<Trade>, debit: Trade, byChain: seq<Trade>, expected: int)
    requires Accepted(trades, debit.chain.block, debit.event.matchTime)
    requires Sorted(trades, KeyLeq)
    requires debit.event.side.PositionDebit? && debit.event.shares >= 0
    requires Sorted(byChain, EarlierOnChain) && multiset(byChain) == multiset(trades + [debit])
    ensures byChain == OrderedEvents(trades, debit)
    ensures forall i :: 0 <= i < |byChain| ==> byChain[i] == debit || Checked(byChain[i])
    ensures |Events(byChain)| == |byChain| && forall i :: 0 <= i < |byChain| ==> Events(byChain)[i] == byChain[i].event
    ensures NonNegative(Events(byChain))
    ensures Rebuilt(Events(byChain), expected) == Rebuilt(Events(OrderedEvents(trades, debit)), expected)
    ensures Rebuilt(Events(byChain), expected).Some?
            <==> && Covered(Events(byChain)) && expected > 0
                 && var e := Events(byChain); Shares(e, Buy) - (Shares(e, Sell) + Shares(e, PositionDebit)) == expected
  {
    MatchOrderIsChainOrder(trades, debit);
    StrictOrderIsUnique(byChain, OrderedEvents(trades, debit), EarlierOnChain);
    HistoryIsChecked(trades, debit, byChain);
    FifoIsClosedForm(Events(byChain), expected);
  }
}
