/**
 FIFO reconstruction of one token position: BUYs queue up, SELLs and out-of-band position debits
 consume the queue from its head, and what is left must be the expected position. Shares are
 integer base units, match times are whole seconds.
 */
module Fifo {
  import opened Outcomes

  datatype Side = Buy | Sell | PositionDebit | OtherSide

  datatype Event = Event(side: Side, shares: int, matchTime: int, id: nat)

  datatype Lot = Lot(event: Event, remaining: int)

  datatype Reconstruction = Reconstruction(enteredAt: int, shares: int, residual: seq<Lot>)

  // ----- the closed form

  /** The shares that the events of one side of a history add up to. */
  function Shares(h: seq<Event>, side: Side): int {
    if h == [] then 0 else Shares(h[..|h| - 1], side) + if h[|h| - 1].side == side then h[|h| - 1].shares else 0
  }

  function Bought(h: seq<Event>): int {
    Shares(h, Buy)
  }

  /** SELLs and out-of-band position debits take shares away alike. */
  function Debited(h: seq<Event>): int {
    Shares(h, Sell) + Shares(h, PositionDebit)
  }

  function Min(a: int, b: int): int { if a <= b then a else b }

  function Max(a: int, b: int): int { if a >= b then a else b }

  /** What a buy of these shares keeps once `debited` of all shares bought up to it have left from the front. */
  function KeptOf(shares: int, bought: int, debited: int): int {
    Max(0, Min(shares, bought - debited))
  }

  function WithBuy(rest: seq<Lot>, e: Event, kept: int): seq<Lot> {
    if e.side.Buy? && kept > 0 then rest + [Lot(e, kept)] else rest
  }

  /** The buys of h that keep something, in order, each with its part of the tail of the shares bought. */
  function Residual(h: seq<Event>, debited: int): seq<Lot> {
    if h == [] then []
    else
      var front, e := h[..|h| - 1], h[|h| - 1];
      WithBuy(Residual(front, debited), e, KeptOf(e.shares, Bought(h), debited))
  }

  predicate NonNegative(h: seq<Event>) {
    forall i :: 0 <= i < |h| ==> h[i].shares >= 0
  }

  /** Every event is a BUY, a SELL or a position debit, and no prefix debits more than it bought. */
  predicate Covered(h: seq<Event>) {
    && (forall i :: 0 <= i < |h| ==> h[i].side in {Buy, Sell, PositionDebit})
    && (forall i :: 0 <= i <= |h| ==> Debited(h[..i]) <= Bought(h[..i]))
  }

  // ----- the queue

  /** The inner loop: `debit` leaves the queue from its head, None when the queue runs dry. */
  function Consume(queue: seq<Lot>, debit: int): Option<seq<Lot>> {
    if debit <= 0 then Some(queue)
    else if queue == [] then None
    else if queue[0].remaining <= debit then Consume(queue[1..], debit - queue[0].remaining)
    else Some([queue[0].(remaining := queue[0].remaining - debit)] + queue[1..])
  }

  /** The queue after a whole history, None when an event was unsupported or could not be covered. */
  function Queue(h: seq<Event>): Option<seq<Lot>> {
    if h == [] then Some([])
    else
      var before := Queue(h[..|h| - 1]);
      var e := h[|h| - 1];
      if before.None? then None
      else if e.side.Buy? then Some(before.value + [Lot(e, e.shares)])
      else if e.side.Sell? || e.side.PositionDebit? then Consume(before.value, e.shares)
      else None
  }

  function Live(queue: seq<Lot>): seq<Lot> {
    if queue == [] then []
    else
      var rest := Live(queue[..|queue| - 1]);
      if queue[|queue| - 1].remaining > 0 then rest + [queue[|queue| - 1]] else rest
  }

  function Total(lots: seq<Lot>): int {
    if lots == [] then 0 else Total(lots[..|lots| - 1]) + lots[|lots| - 1].remaining
  }

  function Newest(lots: seq<Lot>): int
    requires lots != []
  {
    var last := lots[|lots| - 1].event.matchTime;
    if |lots| == 1 then last else Max(Newest(lots[..|lots| - 1]), last)
  }

  /** What reconstruct_fifo returns, None when it raises. */
  function Rebuilt(h: seq<Event>, expected: int): Option<Reconstruction> {
    var queue := Queue(h);
    if queue.None? then None
    else
      var residual := Live(queue.value);
      if Total(residual) != expected || residual == [] then None
      else Some(Reconstruction(Newest(residual), expected, residual))
  }

  /** The inner loop of reconstruct_fifo: it ends although heads are popped, for any integer shares. */
  method TakeFromHead(lots: seq<Lot>, debit: int) returns (r: Option<seq<Lot>>)
    ensures r == Consume(lots, debit)
  {
    var queue, left := lots, debit;
    while left > 0
      invariant Consume(queue, left) == Consume(lots, debit)
      decreases |queue|, left
    {
      if queue == [] {
        return None;
      }
      var consumed := Min(queue[0].remaining, left);
      var head := queue[0].(remaining := queue[0].remaining - consumed);
      queue := [head] + queue[1..];
      left := left - consumed;
      if head.remaining == 0 {
        queue := queue[1..];
      }
    }
    return Some(queue);
  }

  /** The residual acquisitions and their total. */
  method Remaining(queue: seq<Lot>) returns (residual: seq<Lot>, total: int)
    ensures residual == Live(queue) && total == Total(residual)
  {
    residual, total := [], 0;
    for k := 0 to |queue|
      invariant residual == Live(queue[..k]) && total == Total(residual)
    {
      assert queue[..k + 1][..k] == queue[..k];
      if queue[k].remaining > 0 {
        residual := residual + [queue[k]];
        total := total + queue[k].remaining;
      }
    }
    assert queue[..|queue|] == queue;
  }

  /** reconstruct_fifo */
  method ReconstructFifo(history: seq<Event>, expected: int) returns (r: Option<Reconstruction>)
    ensures r == Rebuilt(history, expected)
  {
    var queue: seq<Lot> := [];
    for n := 0 to |history|
      invariant Queue(history[..n]) == Some(queue)
    {
      var e := history[n];
      QueueStep(history, n);
      if e.side.Buy? {
        queue := queue + [Lot(e, e.shares)];
        continue;
      }
      if !e.side.Sell? && !e.side.PositionDebit? {
        FailureIsFinal(history, n + 1);
        return None;
      }
      var left := TakeFromHead(queue, e.shares);
      if left.None? {
        FailureIsFinal(history, n + 1);
        return None;
      }
      queue := left.value;
    }
    assert history[..|history|] == history;
    var residual, total := Remaining(queue);
    if total != expected || residual == [] {
      return None;
    }
    return Some(Reconstruction(Newest(residual), total, residual));
  }

  lemma QueueStep(h: seq<Event>, n: nat)
    requires n < |h| && Queue(h[..n]).Some?
    ensures Queue(h[..n + 1])
            == if h[n].side.Buy? then Some(Queue(h[..n]).value + [Lot(h[n], h[n].shares)])
               else if h[n].side.Sell? || h[n].side.PositionDebit? then Consume(Queue(h[..n]).value, h[n].shares)
               else None
  {
    assert h[..n + 1][..n] == h[..n];
  }

  lemma {:induction false} FailureIsFinal(h: seq<Event>, n: nat)
    requires n <= |h| && Queue(h[..n]).None?
    ensures Queue(h).None?
    decreases |h| - n
  {
    if n == |h| {
      assert h[..n] == h;
    } else {
      assert h[..n + 1][..n] == h[..n];
      FailureIsFinal(h, n + 1);
    }
  }

  // ----- consuming from the head is taking the tail

  predicate NonNegativeLots(lots: seq<Lot>) {
    forall k :: 0 <= k < |lots| ==> lots[k].remaining >= 0
  }

  /** The closed form on a queue: what each lot keeps once d shares have left from the front. */
  function Settled(lots: seq<Lot>, d: int): seq<Lot> {
    if lots == [] then []
    else
      var last := lots[|lots| - 1];
      var kept := Max(0, Min(last.remaining, Total(lots) - d));
      var rest := Settled(lots[..|lots| - 1], d);
      if kept > 0 then rest + [last.(remaining := kept)] else rest
  }

  lemma {:induction false} TotalSplitsHead(lots: seq<Lot>)
    requires lots != []
    ensures Total(lots) == lots[0].remaining + Total(lots[1..])
  {
    if |lots| == 1 {
    } else {
      TotalSplitsHead(lots[..|lots| - 1]);
      assert lots[1..][..|lots| - 2] == lots[..|lots| - 1][1..];
    }
  }

  lemma {:induction false} TotalIsNonNegative(lots: seq<Lot>)
    requires NonNegativeLots(lots)
    ensures Total(lots) >= 0
  {
    if lots == [] {
    } else {
      TotalIsNonNegative(lots[..|lots| - 1]);
    }
  }

  /** A head that is used up can be dropped together with its shares. */
  lemma {:induction false} SettledDropsHead(lots: seq<Lot>, d: int)
    requires lots != [] && NonNegativeLots(lots) && lots[0].remaining <= d
    ensures Settled(lots, d) == Settled(lots[1..], d - lots[0].remaining)
  {
    if |lots| == 1 {
    } else {
      var front := lots[..|lots| - 1];
      SettledDropsHead(front, d);
      assert lots[1..][..|lots| - 2] == front[1..];
      TotalSplitsHead(lots);
    }
  }

  lemma LiveGrows(lots: seq<Lot>, last: Lot)
    ensures Live(lots + [last]) == if last.remaining > 0 then Live(lots) + [last] else Live(lots)
  {
    assert (lots + [last])[..|lots|] == lots;
  }

  /** A lot that everything before it covers keeps all it has. */
  lemma SettledKeepsLast(lots: seq<Lot>, last: Lot, d: int)
    requires Total(lots) >= d && last.remaining >= 0
    ensures Settled(lots + [last], d) == if last.remaining > 0 then Settled(lots, d) + [last] else Settled(lots, d)
  {
    assert (lots + [last])[..|lots|] == lots;
    assert last.(remaining := last.remaining) == last;
  }

  lemma {:induction false} HeadCovers(head: Lot, rest: seq<Lot>, d: int)
    requires NonNegativeLots(rest) && d <= head.remaining
    ensures Total([head] + rest) >= d
  {
    TotalSplitsHead([head] + rest);
    TotalIsNonNegative(rest);
    assert ([head] + rest)[1..] == rest;
  }

  lemma HeadAlone(head: Lot, d: int)
    requires 0 <= d < head.remaining
    ensures Settled([head], d) == [head.(remaining := head.remaining - d)]
  {
    assert [head][..0] == [];
    assert Total([head]) == head.remaining;
  }

  lemma {:induction false} KeepsOneMore(head: Lot, left: Lot, front: seq<Lot>, last: Lot, d: int)
    requires Settled([head] + front, d) == [left] + Live(front)
    requires Total([head] + front) >= d && last.remaining >= 0
    ensures Settled([head] + (front + [last]), d) == [left] + Live(front + [last])
  {
    assert [head] + (front + [last]) == ([head] + front) + [last];
    SettledKeepsLast([head] + front, last, d);
    LiveGrows(front, last);
    assert [left] + Live(front) + [last] == [left] + (Live(front) + [last]);
  }

  /** A head that outlasts the debit leaves everything behind it untouched. */
  lemma {:induction false} SettledKeepsTail(head: Lot, rest: seq<Lot>, d: int)
    requires NonNegativeLots(rest) && 0 <= d < head.remaining
    ensures Settled([head] + rest, d) == [head.(remaining := head.remaining - d)] + Live(rest)
  {
    var left := head.(remaining := head.remaining - d);
    if rest == [] {
      HeadAlone(head, d);
      assert [head] + rest == [head];
    } else {
      var front, last := rest[..|rest| - 1], rest[|rest| - 1];
      assert rest == front + [last];
      SettledKeepsTail(head, front, d);
      HeadCovers(head, front, d);
      KeepsOneMore(head, left, front, last, d);
    }
  }

  lemma {:induction false} NothingToSettle(lots: seq<Lot>)
    requires NonNegativeLots(lots)
    ensures Settled(lots, 0) == Live(lots)
  {
    if lots == [] {
    } else {
      NothingToSettle(lots[..|lots| - 1]);
      TotalIsNonNegative(lots[..|lots| - 1]);
    }
  }

  lemma {:induction false} LiveKeepsHead(head: Lot, rest: seq<Lot>)
    requires head.remaining > 0
    ensures Live([head] + rest) == [head] + Live(rest)
  {
    if rest == [] {
      assert [head] + rest == [head];
      assert Live([head][..0]) == [];
    } else {
      var all := [head] + rest;
      assert all[..|all| - 1] == [head] + rest[..|rest| - 1];
      LiveKeepsHead(head, rest[..|rest| - 1]);
    }
  }

  /** The inner loop succeeds exactly when the queue covers the debit, and leaves the closed form. */
  lemma {:induction false} ConsumeSettles(queue: seq<Lot>, d: int)
    requires NonNegativeLots(queue) && d >= 0
    ensures Consume(queue, d).Some? <==> d <= Total(queue)
    ensures Consume(queue, d).Some? ==>
              var left := Consume(queue, d).value;
              && NonNegativeLots(left) && Live(left) == Settled(queue, d) && Total(left) == Total(queue) - d
  {
    TotalIsNonNegative(queue);
    if d == 0 {
      NothingToSettle(queue);
    } else if queue != [] {
      TotalSplitsHead(queue);
      if queue[0].remaining <= d {
        ConsumeSettles(queue[1..], d - queue[0].remaining);
        SettledDropsHead(queue, d);
      } else {
        TotalIsNonNegative(queue[1..]);
        HeadSettles(queue, d);
      }
    }
  }

  /** A debit that the head outlasts is taken from the head alone. */
  lemma {:induction false} HeadSettles(queue: seq<Lot>, d: int)
    requires queue != [] && NonNegativeLots(queue) && 0 <= d < queue[0].remaining
    ensures var left := [queue[0].(remaining := queue[0].remaining - d)] + queue[1..];
            NonNegativeLots(left) && Live(left) == Settled(queue, d) && Total(left) == Total(queue) - d
  {
    var head := queue[0].(remaining := queue[0].remaining - d);
    var left := [head] + queue[1..];
    SettledKeepsTail(queue[0], queue[1..], d);
    assert queue == [queue[0]] + queue[1..];
    LiveKeepsHead(head, queue[1..]);
    TotalSplitsHead(queue);
    TotalSplitsHead(left);
    assert left[1..] == queue[1..];
  }

  lemma {:induction false} SettledIgnoresEmptyLots(queue: seq<Lot>, d: int)
    requires NonNegativeLots(queue)
    ensures Total(Live(queue)) == Total(queue)
    ensures Settled(Live(queue), d) == Settled(queue, d)
  {
    if queue == [] {
    } else {
      var front := queue[..|queue| - 1];
      SettledIgnoresEmptyLots(front, d);
      if queue[|queue| - 1].remaining > 0 {
        assert Live(queue)[..|Live(front)|] == Live(front);
      }
    }
  }

  // ----- the whole history

  /** Every fold over a history, one event further. */
  lemma Appends(h: seq<Event>, e: Event, debited: int)
    ensures (h + [e])[..|h|] == h
    ensures Bought(h + [e]) == Bought(h) + if e.side.Buy? then e.shares else 0
    ensures Debited(h + [e]) == Debited(h) + if e.side.Sell? || e.side.PositionDebit? then e.shares else 0
    ensures Residual(h + [e], debited) == WithBuy(Residual(h, debited), e, KeptOf(e.shares, Bought(h + [e]), debited))
  {
    assert (h + [e])[..|h|] == h;
  }

  lemma TotalWithBuy(rest: seq<Lot>, e: Event, kept: int)
    ensures Total(WithBuy(rest, e, kept)) == Total(rest) + if e.side.Buy? && kept > 0 then kept else 0
  {
    assert (rest + [Lot(e, kept)])[..|rest|] == rest;
  }

  lemma {:induction false} ResidualTotal(h: seq<Event>, debited: int)
    requires NonNegative(h) && debited >= 0
    ensures Total(Residual(h, debited)) == Max(0, Bought(h) - debited)
  {
    if h == [] {
    } else {
      var front, e := h[..|h| - 1], h[|h| - 1];
      ResidualTotal(front, debited);
      TotalWithBuy(Residual(front, debited), e, KeptOf(e.shares, Bought(h), debited));
      if e.side.Buy? {
        KeptAdds(e.shares, Bought(h), debited);
      }
    }
  }

  /** What a buy keeps is what it adds to the tail of the shares bought. */
  lemma KeptAdds(shares: int, bought: int, debited: int)
    requires shares >= 0
    ensures Max(0, bought - shares - debited) + KeptOf(shares, bought, debited) == Max(0, bought - debited)
  {
  }

  lemma SettledWithBuy(rest: seq<Lot>, e: Event, kept: int, d: int)
    requires kept > 0 && e.side.Buy?
    ensures Settled(WithBuy(rest, e, kept), d) == WithBuy(Settled(rest, d), e, KeptOf(kept, Total(rest) + kept, d))
  {
    assert (rest + [Lot(e, kept)])[..|rest|] == rest;
  }

  /** Two debits leave of a buy what their sum leaves. */
  lemma KeptTwice(shares: int, bought: int, debited: int, d: int)
    requires shares >= 0 && d >= 0 && KeptOf(shares, bought, debited) > 0
    ensures KeptOf(KeptOf(shares, bought, debited),
                   Max(0, bought - shares - debited) + KeptOf(shares, bought, debited), d)
            == KeptOf(shares, bought, debited + d)
  {
  }

  lemma {:induction false} BuySettles(rest: seq<Lot>, e: Event, bought: int, debited: int, d: int)
    requires e.shares >= 0 && d >= 0 && e.side.Buy?
    requires Total(rest) == Max(0, bought - e.shares - debited)
    ensures Settled(WithBuy(rest, e, KeptOf(e.shares, bought, debited)), d)
            == WithBuy(Settled(rest, d), e, KeptOf(e.shares, bought, debited + d))
  {
    var kept := KeptOf(e.shares, bought, debited);
    if kept > 0 {
      SettledWithBuy(rest, e, kept, d);
      KeptTwice(e.shares, bought, debited, d);
    }
  }

  /** Debits add up: settling the residual of one debit total is the residual of the larger total. */
  lemma {:induction false} ResidualSettles(h: seq<Event>, debited: int, d: int)
    requires NonNegative(h) && debited >= 0 && d >= 0
    ensures Settled(Residual(h, debited), d) == Residual(h, debited + d)
  {
    if h == [] {
    } else {
      var front, e := h[..|h| - 1], h[|h| - 1];
      ResidualSettles(front, debited, d);
      if e.side.Buy? {
        ResidualTotal(front, debited);
        BuySettles(Residual(front, debited), e, Bought(h), debited, d);
      }
    }
  }

  lemma {:induction false} CoveredPrefix(h: seq<Event>)
    requires h != []
    ensures Covered(h) <==>
              var front, e := h[..|h| - 1], h[|h| - 1];
              Covered(front) && e.side in {Buy, Sell, PositionDebit} && Debited(h) <= Bought(h)
  {
    var front := h[..|h| - 1];
    assert forall i :: 0 <= i <= |front| ==> front[..i] == h[..i];
    assert h[..|h|] == h;
    if Covered(h) {
      assert Debited(h[..|h|]) <= Bought(h[..|h|]);
      forall i | 0 <= i <= |front| ensures Debited(front[..i]) <= Bought(front[..i]) {
        assert front[..i] == h[..i];
      }
    }
    if Covered(front) && Debited(h) <= Bought(h) {
      forall i | 0 <= i <= |h| ensures Debited(h[..i]) <= Bought(h[..i]) {
        assert i <= |front| ==> front[..i] == h[..i];
      }
    }
  }

  /** The queue of a covered history: its live lots are the closed form, and nothing is lost. */
  ghost predicate Accounts(queue: seq<Lot>, h: seq<Event>) {
    && NonNegativeLots(queue) && Total(queue) == Bought(h) - Debited(h)
    && Live(queue) == Residual(h, Debited(h))
  }

  lemma {:induction false} BuyAccounts(queue: seq<Lot>, h: seq<Event>, e: Event)
    requires Accounts(queue, h) && e.side.Buy? && e.shares >= 0 && Debited(h) <= Bought(h)
    ensures Accounts(queue + [Lot(e, e.shares)], h + [e])
  {
    Appends(h, e, Debited(h));
    assert (queue + [Lot(e, e.shares)])[..|queue|] == queue;
  }

  lemma {:induction false} DebitAccounts(queue: seq<Lot>, h: seq<Event>, e: Event)
    requires Accounts(queue, h) && (e.side.Sell? || e.side.PositionDebit?)
    requires e.shares >= 0 && NonNegative(h) && Debited(h) >= 0
    ensures Consume(queue, e.shares).Some? <==> Debited(h + [e]) <= Bought(h + [e])
    ensures Consume(queue, e.shares).Some? ==> Accounts(Consume(queue, e.shares).value, h + [e])
  {
    ConsumeSettles(queue, e.shares);
    DebitSettles(queue, h, e);
    Appends(h, e, Debited(h) + e.shares);
  }

  lemma {:induction false} DebitSettles(queue: seq<Lot>, h: seq<Event>, e: Event)
    requires Accounts(queue, h) && e.shares >= 0 && NonNegative(h) && Debited(h) >= 0
    ensures Settled(queue, e.shares) == Residual(h, Debited(h) + e.shares)
  {
    SettledIgnoresEmptyLots(queue, e.shares);
    ResidualSettles(h, Debited(h), e.shares);
  }

  lemma {:induction false} DebitedIsNonNegative(h: seq<Event>)
    requires NonNegative(h)
    ensures Debited(h) >= 0
  {
    if h == [] {
    } else {
      DebitedIsNonNegative(h[..|h| - 1]);
    }
  }

  lemma CoveredIsEnough(h: seq<Event>)
    requires Covered(h)
    ensures Debited(h) <= Bought(h)
  {
    assert h[..|h|] == h;
  }

  /** The queue exists exactly for covered histories, and then accounts for them. */
  lemma {:induction false} QueueIsResidual(h: seq<Event>)
    requires NonNegative(h)
    ensures Queue(h).Some? <==> Covered(h)
    ensures Covered(h) ==> Accounts(Queue(h).value, h)
  {
    if h == [] {
    } else {
      var front, e := h[..|h| - 1], h[|h| - 1];
      assert h == front + [e];
      QueueIsResidual(front);
      CoveredPrefix(h);
      if Covered(front) {
        CoveredIsEnough(front);
        DebitedIsNonNegative(front);
        if e.side.Buy? {
          BuyAccounts(Queue(front).value, front, e);
        } else if e.side.Sell? || e.side.PositionDebit? {
          DebitAccounts(Queue(front).value, front, e);
        }
      }
    }
  }

  /**
   reconstruct_fifo accepts exactly when every event is supported, no prefix debits more than it
   bought, and buys minus debits is the expected positive amount. It then returns, in order, each
   buy that keeps something, with its part of the tail of the shares bought.
   */
  lemma {:induction false} FifoIsClosedForm(h: seq<Event>, expected: int)
    requires NonNegative(h)
    ensures Rebuilt(h, expected).Some?
            <==> && Covered(h) && expected > 0
                 && Shares(h, Buy) - (Shares(h, Sell) + Shares(h, PositionDebit)) == expected
    ensures Rebuilt(h, expected).Some? ==>
              var r := Rebuilt(h, expected).value;
              && r.shares == expected
              && r.residual == Residual(h, Debited(h)) && r.residual != []
              && Total(r.residual) == expected
              && IsNewest(r.residual, r.enteredAt)
  {
    QueueIsResidual(h);
    if Covered(h) {
      RebuiltFrom(Queue(h).value, h, expected);
    }
  }

  lemma {:induction false} RebuiltFrom(queue: seq<Lot>, h: seq<Event>, expected: int)
    requires Queue(h) == Some(queue) && NonNegativeLots(queue)
    ensures Rebuilt(h, expected).Some? <==> Total(queue) == expected && expected > 0
    ensures Rebuilt(h, expected).Some? ==>
              var r := Rebuilt(h, expected).value;
              && r.shares == expected && r.residual == Live(queue) && r.residual != []
              && Total(r.residual) == expected && IsNewest(r.residual, r.enteredAt)
  {
    var residual := Live(queue);
    SettledIgnoresEmptyLots(queue, 0);
    LiveIsPositive(queue);
    if residual != [] {
      NewestIsMaximal(residual);
    }
  }

  lemma {:induction false} LiveIsPositive(queue: seq<Lot>)
    ensures Live(queue) != [] ==> Total(Live(queue)) > 0
    ensures forall k :: 0 <= k < |Live(queue)| ==> Live(queue)[k].remaining > 0
  {
    if queue == [] {
    } else {
      LiveIsPositive(queue[..|queue| - 1]);
      var rest := Live(queue[..|queue| - 1]);
      assert (rest + [queue[|queue| - 1]])[..|rest|] == rest;
    }
  }

  /** The hold clock of an adopted lot: the match time of its newest residual acquisition. */
  predicate IsNewest(lots: seq<Lot>, time: int) {
    && (exists k :: 0 <= k < |lots| && lots[k].event.matchTime == time)
    && (forall k :: 0 <= k < |lots| ==> lots[k].event.matchTime <= time)
  }

  lemma {:induction false} NewestIsMaximal(lots: seq<Lot>)
    requires lots != []
    ensures IsNewest(lots, Newest(lots))
  {
    if |lots| == 1 {
    } else {
      var front := lots[..|lots| - 1];
      NewestIsMaximal(front);
      var k :| 0 <= k < |front| && front[k].event.matchTime == Newest(front);
      assert lots[k].event.matchTime == Newest(front);
      assert lots[|lots| - 1].event.matchTime <= Newest(lots);
      forall j | 0 <= j < |lots| ensures lots[j].event.matchTime <= Newest(lots) {
        assert j < |front| ==> lots[j] == front[j];
      }
    }
  }
}
