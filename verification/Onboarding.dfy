/**
 The wallet onboarding transaction: it books the finalized funding transfers of each account as an
 event chain, raises the account's cash to the proven total and seals the position baseline, in one
 transaction that accepts only untouched or completely onboarded accounts. Amounts are base units,
 identifiers and texts are numbers, a row set is a map by primary key or a set.
 */
module Onboarding {
  import opened Outcomes

  datatype Transfer = Transfer(eventId: nat, amount: int, blockTime: int)

  /** One account of the evidence. */
  datatype Target = Target(
    account: nat, wallet: nat, version: int, reconciledAt: Option<int>, balance: int, transfers: seq<Transfer>)

  datatype Account = Account(
    wallet: nat, pusd: bool, total: int, available: int, reserved: int, version: int, reconciledAt: Option<int>)

  /** An account event; funding says that it is an external deposit without order and fill. */
  datatype Entry = Entry(
    account: nat, funding: bool, totalDelta: int, availableDelta: int, reservedDelta: int,
    totalAfter: int, availableAfter: int, reservedAfter: int, occurredAt: int)

  datatype Row = Row(id: nat, entry: Entry)

  datatype Header = Header(baselineId: nat, account: nat, meta: nat)

  datatype Item = Item(baselineId: nat, account: nat, token: nat, detail: nat)

  /** The baseline of the evidence: one header and the items of its account. */
  datatype Baseline = Baseline(header: Header, items: set<Item>)

  datatype Evidence = Evidence(targets: seq<Target>, baseline: Baseline)

  /** The tables; paused, enabled and busy are what the guards find about an account. */
  datatype Tables = Tables(
    killSwitch: bool, paused: set<nat>, enabled: set<nat>, busy: set<nat>,
    accounts: map<nat, Account>, events: map<nat, Entry>, headers: set<Header>, items: set<Item>)

  // ----- the event chain

  function Funded(transfers: seq<Transfer>, n: nat): int
    requires n <= |transfers|
  {
    if n == 0 then 0 else Funded(transfers, n - 1) + transfers[n - 1].amount
  }

  /** What the evidence parser has established about an account. */
  predicate Parsed(t: Target) {
    t.transfers != [] && Funded(t.transfers, |t.transfers|) == t.balance
  }

  ghost predicate ParsedEvidence(e: Evidence) {
    && (forall t :: t in e.targets ==> Parsed(t))
    && (forall i :: i in e.baseline.items ==>
                      i.baselineId == e.baseline.header.baselineId && i.account == e.baseline.header.account)
  }

  function Deposit(t: Target, i: nat): Row
    requires i < |t.transfers|
  {
    var amount, after := t.transfers[i].amount, Funded(t.transfers, i + 1);
    Row(t.transfers[i].eventId, Entry(t.account, true, amount, amount, 0, after, after, 0, t.transfers[i].blockTime))
  }

  /** The cumulative loop of generate_sql. */
  method EventRows(t: Target) returns (rows: seq<Row>)
    ensures |rows| == |t.transfers| && forall i :: 0 <= i < |rows| ==> rows[i] == Deposit(t, i)
  {
    rows := [];
    var cumulative := 0;
    for n := 0 to |t.transfers|
      invariant cumulative == Funded(t.transfers, n)
      invariant |rows| == n && forall i :: 0 <= i < n ==> rows[i] == Deposit(t, i)
    {
      var transfer := t.transfers[n];
      cumulative := cumulative + transfer.amount;
      rows := rows + [Row(transfer.eventId,
                          Entry(t.account, true, transfer.amount, transfer.amount, 0, cumulative, cumulative, 0,
                                transfer.blockTime))];
    }
  }

  /**
   The deposits chain from zero, each by the amount of its transfer from the balance the previous one left,
   to the proven balance. The available balance follows the total one and nothing is reserved.
   */
  lemma {:induction false} DepositsChain(t: Target)
    requires Parsed(t)
    ensures forall i :: 0 <= i < |t.transfers| ==>
                          var e := Deposit(t, i).entry;
                          && e.account == t.account && e.funding && e.occurredAt == t.transfers[i].blockTime
                          && e.totalDelta == e.availableDelta == t.transfers[i].amount
                          && e.totalAfter == e.availableAfter && e.reservedDelta == e.reservedAfter == 0
    ensures Deposit(t, 0).entry.totalAfter == Deposit(t, 0).entry.totalDelta
    ensures forall i :: 0 < i < |t.transfers| ==>
                          Deposit(t, i).entry.totalAfter
                          == Deposit(t, i - 1).entry.totalAfter + Deposit(t, i).entry.totalDelta
    ensures Deposit(t, |t.transfers| - 1).entry.totalAfter == t.balance
  {
    assert Funded(t.transfers, 1) == Funded(t.transfers, 0) + t.transfers[0].amount;
  }

  predicate DistinctIds(t: Target) {
    forall i, j :: 0 <= i < j < |t.transfers| ==> t.transfers[i].eventId != t.transfers[j].eventId
  }

  function IdsOf(t: Target): set<nat> {
    set x | x in t.transfers :: x.eventId
  }

  /** The primary keys of the staging tables. */
  predicate Loads(ts: seq<Target>) {
    && (forall i :: 0 <= i < |ts| ==> DistinctIds(ts[i]))
    && (forall i, j :: 0 <= i < j < |ts| ==> ts[i].account != ts[j].account && IdsOf(ts[i]) !! IdsOf(ts[j]))
  }

  // ----- one account

  predicate Eligible(db: Tables, t: Target) {
    && t.account in db.accounts
    && db.accounts[t.account].wallet == t.wallet && db.accounts[t.account].pusd
    && db.accounts[t.account].reconciledAt == t.reconciledAt
    && t.account in db.paused && t.account !in db.enabled && t.account !in db.busy
  }

  function EventsFor(db: Tables, account: nat): set<nat> {
    set id | id in db.events && db.events[id].account == account
  }

  /** The zero bootstrap: no cash, the expected version and no event. */
  predicate Untouched(db: Tables, t: Target) {
    && Eligible(db, t)
    && db.accounts[t.account].total == 0 && db.accounts[t.account].available == 0
    && db.accounts[t.account].reserved == 0 && db.accounts[t.account].version == t.version
    && EventsFor(db, t.account) == {} && IdsOf(t) !! db.events.Keys
  }

  predicate Booked(db: Tables, t: Target) {
    forall i :: 0 <= i < |t.transfers| ==>
      Deposit(t, i).id in db.events && db.events[Deposit(t, i).id] == Deposit(t, i).entry
  }

  /** The completed onboarding: the proven cash, the next version and exactly the deposits as events. */
  predicate Onboarded(db: Tables, t: Target) {
    && Eligible(db, t)
    && db.accounts[t.account].total == t.balance && db.accounts[t.account].available == t.balance
    && db.accounts[t.account].reserved == 0 && db.accounts[t.account].version == t.version + 1
    && Booked(db, t) && EventsFor(db, t.account) == IdsOf(t)
  }

  predicate Accepts(db: Tables, t: Target) {
    Untouched(db, t) || Onboarded(db, t)
  }

  function Inserted(events: map<nat, Entry>, t: Target, n: nat): map<nat, Entry>
    requires n <= |t.transfers|
  {
    if n == 0 then events else Inserted(events, t, n - 1)[Deposit(t, n - 1).id := Deposit(t, n - 1).entry]
  }

  /** The tables with the account of t onboarded. */
  function Onboard(db: Tables, t: Target): Tables
    requires t.account in db.accounts
  {
    db.(accounts := db.accounts[t.account := db.accounts[t.account].(total := t.balance, available := t.balance,
                                                                     version := t.version + 1)],
        events := Inserted(db.events, t, |t.transfers|))
  }

  lemma {:induction false} InsertedRows(events: map<nat, Entry>, t: Target, n: nat)
    requires DistinctIds(t) && n <= |t.transfers|
    ensures forall i :: 0 <= i < n ==>
              && Deposit(t, i).id in Inserted(events, t, n)
              && Inserted(events, t, n)[Deposit(t, i).id] == Deposit(t, i).entry
    ensures forall id :: id in Inserted(events, t, n) && id !in IdsOf(t) ==>
                           id in events && Inserted(events, t, n)[id] == events[id]
    ensures forall id :: id in events ==> id in Inserted(events, t, n)
    ensures forall id :: id in Inserted(events, t, n) ==> id in events || id in IdsOf(t)
  {
    if n == 0 {
    } else {
      InsertedRows(events, t, n - 1);
      assert t.transfers[n - 1] in t.transfers;
    }
  }

  lemma IdIsDeposit(t: Target, id: nat) returns (i: nat)
    requires id in IdsOf(t)
    ensures i < |t.transfers| && Deposit(t, i).id == id
  {
    var x :| x in t.transfers && x.eventId == id;
    i :| 0 <= i < |t.transfers| && t.transfers[i] == x;
  }

  /** Onboarding an untouched account completes it. */
  lemma {:induction false} UntouchedBecomesOnboarded(db: Tables, t: Target)
    requires DistinctIds(t) && Untouched(db, t)
    ensures Onboarded(Onboard(db, t), t)
  {
    InsertedRows(db.events, t, |t.transfers|);
    var after := Onboard(db, t);
    forall id | id in EventsFor(after, t.account) ensures id in IdsOf(t) {
      assert id !in EventsFor(db, t.account);
    }
    forall id | id in IdsOf(t) ensures id in EventsFor(after, t.account) {
      var i := IdIsDeposit(t, id);
    }
  }

  /** Onboarding a completed account changes nothing. */
  lemma {:induction false} OnboardedStays(db: Tables, t: Target)
    requires DistinctIds(t) && Onboarded(db, t)
    ensures Onboard(db, t) == db
  {
    BookedStays(db, t, |t.transfers|);
    var a := db.accounts[t.account];
    assert a.(total := t.balance, available := t.balance, version := t.version + 1) == a;
    assert db.accounts[t.account := a] == db.accounts;
  }

  lemma {:induction false} BookedStays(db: Tables, t: Target, n: nat)
    requires Booked(db, t) && n <= |t.transfers|
    ensures Inserted(db.events, t, n) == db.events
  {
    if n == 0 {
    } else {
      BookedStays(db, t, n - 1);
      assert Deposit(t, n - 1).id in db.events;
    }
  }

  /** Onboarding one account leaves the state of every other account as it was. */
  lemma {:induction false} OthersKeepState(db: Tables, t: Target, u: Target)
    requires DistinctIds(t) && Accepts(db, t) && t.account != u.account && IdsOf(t) !! IdsOf(u)
    ensures Untouched(Onboard(db, t), u) <==> Untouched(db, u)
    ensures Onboarded(Onboard(db, t), u) <==> Onboarded(db, u)
  {
    if Onboarded(db, t) {
      OnboardedStays(db, t);
    } else {
      var after := Onboard(db, t);
      InsertedRows(db.events, t, |t.transfers|);
      OtherEvents(db, t, u.account);
      assert IdsOf(u) !! after.events.Keys <==> IdsOf(u) !! db.events.Keys by {
        forall id | id in IdsOf(u) ensures id in after.events <==> id in db.events {
        }
      }
      assert Booked(after, u) <==> Booked(db, u) by {
        forall i | 0 <= i < |u.transfers|
          ensures Deposit(u, i).id in after.events <==> Deposit(u, i).id in db.events
          ensures Deposit(u, i).id in db.events ==> after.events[Deposit(u, i).id] == db.events[Deposit(u, i).id]
        {
          assert u.transfers[i] in u.transfers;
          assert Deposit(u, i).id in IdsOf(u);
        }
      }
    }
  }

  lemma {:induction false} OtherEvents(db: Tables, t: Target, other: nat)
    requires DistinctIds(t) && Untouched(db, t) && t.account != other
    ensures EventsFor(Onboard(db, t), other) == EventsFor(db, other)
  {
    InsertedRows(db.events, t, |t.transfers|);
    var after := Onboard(db, t);
    forall id | id in EventsFor(after, other) ensures id in EventsFor(db, other) {
      if id in IdsOf(t) {
        var i := IdIsDeposit(t, id);
        assert false;
      }
    }
    forall id | id in EventsFor(db, other) ensures id in EventsFor(after, other) {
      assert id !in IdsOf(t);
    }
  }

  // ----- all accounts

  predicate Known(db: Tables, ts: seq<Target>, n: nat) {
    n <= |ts| && forall i :: 0 <= i < n ==> ts[i].account in db.accounts
  }

  function OnboardAll(db: Tables, ts: seq<Target>, n: nat): (after: Tables)
    requires Known(db, ts, n)
    ensures after.accounts.Keys == db.accounts.Keys
  {
    if n == 0 then db else Onboard(OnboardAll(db, ts, n - 1), ts[n - 1])
  }

  /** Working through the accounts decides each of them as the tables stood before the transaction. */
  lemma {:induction false} DecidedAsBefore(db: Tables, ts: seq<Target>, n: nat)
    requires Loads(ts) && Known(db, ts, n) && forall i :: 0 <= i < n ==> Accepts(db, ts[i])
    ensures forall i :: 0 <= i < n ==> Onboarded(OnboardAll(db, ts, n), ts[i])
    ensures forall i :: n <= i < |ts| ==>
              && (Untouched(OnboardAll(db, ts, n), ts[i]) <==> Untouched(db, ts[i]))
              && (Onboarded(OnboardAll(db, ts, n), ts[i]) <==> Onboarded(db, ts[i]))
  {
    if n == 0 {
    } else {
      DecidedAsBefore(db, ts, n - 1);
      var before, t := OnboardAll(db, ts, n - 1), ts[n - 1];
      assert Accepts(before, t);
      forall i | 0 <= i < |ts| && i != n - 1
        ensures Untouched(Onboard(before, t), ts[i]) <==> Untouched(before, ts[i])
        ensures Onboarded(Onboard(before, t), ts[i]) <==> Onboarded(before, ts[i])
      {
        OthersKeepState(before, t, ts[i]);
      }
      if Untouched(before, t) {
        UntouchedBecomesOnboarded(before, t);
      } else {
        OnboardedStays(before, t);
      }
    }
  }

  lemma {:induction false} AllOnboardedStay(db: Tables, ts: seq<Target>, n: nat)
    requires Loads(ts) && Known(db, ts, n) && forall i :: 0 <= i < |ts| ==> Onboarded(db, ts[i])
    ensures OnboardAll(db, ts, n) == db
  {
    if n == 0 {
    } else {
      AllOnboardedStay(db, ts, n - 1);
      OnboardedStays(db, ts[n - 1]);
    }
  }

  // ----- the baseline

  function HeadersFor(db: Tables, account: nat): set<Header> {
    set h | h in db.headers && h.account == account
  }

  function ItemsFor(db: Tables, account: nat): set<Item> {
    set i | i in db.items && i.account == account
  }

  /** No header and no item belongs to the account or has the identifier. */
  predicate Unsealed(db: Tables, b: Baseline) {
    && (forall h :: h in db.headers ==> h.baselineId != b.header.baselineId && h.account != b.header.account)
    && (forall i :: i in db.items ==> i.baselineId != b.header.baselineId && i.account != b.header.account)
  }

  /** The account has exactly this header and exactly these items. */
  ghost predicate Sealed(db: Tables, b: Baseline) {
    && b.header in db.headers && (forall h :: h in db.headers && h.account == b.header.account ==> h == b.header)
    && (forall i :: i in b.items <==> i in db.items && i.account == b.header.account)
  }

  function Seal(db: Tables, b: Baseline): Tables {
    db.(headers := db.headers + {b.header}, items := db.items + b.items)
  }

  lemma {:induction false} SealSeals(db: Tables, b: Baseline)
    requires forall i :: i in b.items ==> i.baselineId == b.header.baselineId && i.account == b.header.account
    requires Unsealed(db, b) || Sealed(db, b)
    ensures Sealed(Seal(db, b), b)
    ensures Sealed(db, b) ==> Seal(db, b) == db
  {
    if Sealed(db, b) {
      assert db.headers + {b.header} == db.headers && db.items + b.items == db.items;
    }
  }

  // ----- the transaction

  /** What a caller can check of the tables and the evidence before the transaction. */
  ghost predicate Ready(db: Tables, e: Evidence) {
    && Loads(e.targets) && db.killSwitch
    && (forall i :: 0 <= i < |e.targets| ==> Accepts(db, e.targets[i]))
    && (Unsealed(db, e.baseline) || Sealed(db, e.baseline))
  }

  ghost predicate Complete(db: Tables, e: Evidence) {
    (forall i :: 0 <= i < |e.targets| ==> Onboarded(db, e.targets[i])) && Sealed(db, e.baseline)
  }

  function Final(db: Tables, e: Evidence): Tables
    requires Known(db, e.targets, |e.targets|)
  {
    Seal(OnboardAll(db, e.targets, |e.targets|), e.baseline)
  }

  /** The loop over the accounts leaves every other table alone. */
  lemma {:induction false} OnboardAllFrame(db: Tables, ts: seq<Target>, n: nat)
    requires Known(db, ts, n)
    ensures OnboardAll(db, ts, n).(accounts := db.accounts, events := db.events) == db
  {
    if n == 0 {
    } else {
      OnboardAllFrame(db, ts, n - 1);
    }
  }

  /** It changes neither an account that is not named nor the reconciliation time of one that is. */
  lemma {:induction false} AccountsKept(db: Tables, ts: seq<Target>, n: nat, a: nat)
    requires Known(db, ts, n) && a in db.accounts
    ensures OnboardAll(db, ts, n).accounts[a].reconciledAt == db.accounts[a].reconciledAt
    ensures (forall i :: 0 <= i < n ==> ts[i].account != a) ==> OnboardAll(db, ts, n).accounts[a] == db.accounts[a]
  {
    if n == 0 {
    } else {
      AccountsKept(db, ts, n - 1, a);
    }
  }

  /** From a ready state, mixed or not, the transaction leaves the completed onboarding. */
  lemma {:induction false} ReadyCompletes(db: Tables, e: Evidence)
    requires ParsedEvidence(e) && Ready(db, e)
    ensures Complete(Final(db, e), e)
  {
    DecidedAsBefore(db, e.targets, |e.targets|);
    var booked := OnboardAll(db, e.targets, |e.targets|);
    OnboardAllFrame(db, e.targets, |e.targets|);
    BaselineAsBefore(db, booked, e.baseline);
    SealSeals(booked, e.baseline);
    forall i | 0 <= i < |e.targets| ensures Onboarded(Final(db, e), e.targets[i]) {
      SealKeepsAccounts(booked, e.baseline, e.targets[i]);
    }
  }

  /**
   What a completed onboarding is, in the tables themselves: every account was paused, disabled and idle and
   holds the sum of its transfers, its events are exactly its transfers, each with its amount and running sum,
   and the baseline account has exactly the header and the items of the evidence.
   */
  lemma {:induction false} CompletedIsExplained(db: Tables, e: Evidence, t: Target)
    requires ParsedEvidence(e) && Complete(db, e) && t in e.targets
    ensures t.account in db.paused && t.account !in db.enabled && t.account !in db.busy
    ensures t.account in db.accounts
            && var a, sum := db.accounts[t.account], Funded(t.transfers, |t.transfers|);
               a == Account(t.wallet, true, sum, sum, 0, t.version + 1, t.reconciledAt)
    ensures forall id :: id in db.events && db.events[id].account == t.account
                         <==> exists i :: 0 <= i < |t.transfers| && t.transfers[i].eventId == id
    ensures forall i :: 0 <= i < |t.transfers| ==>
                          var x, sum := t.transfers[i], Funded(t.transfers, i + 1);
                          && x.eventId in db.events
                          && db.events[x.eventId]
                             == Entry(t.account, true, x.amount, x.amount, 0, sum, sum, 0, x.blockTime)
    ensures forall h :: h in db.headers && h.account == e.baseline.header.account <==> h == e.baseline.header
    ensures forall i :: i in db.items && i.account == e.baseline.header.account <==> i in e.baseline.items
  {
    var k :| 0 <= k < |e.targets| && e.targets[k] == t;
    assert Onboarded(db, t) && Parsed(t);
    forall id ensures id in db.events && db.events[id].account == t.account
                      <==> exists i :: 0 <= i < |t.transfers| && t.transfers[i].eventId == id
    {
      assert id in EventsFor(db, t.account) <==> id in IdsOf(t);
      if id in IdsOf(t) {
        var i := IdIsDeposit(t, id);
      }
    }
    forall i | 0 <= i < |t.transfers|
      ensures var x, sum := t.transfers[i], Funded(t.transfers, i + 1);
              && x.eventId in db.events
              && db.events[x.eventId] == Entry(t.account, true, x.amount, x.amount, 0, sum, sum, 0, x.blockTime)
    {
      assert Deposit(t, i).id in db.events && db.events[Deposit(t, i).id] == Deposit(t, i).entry;
    }
  }

  lemma SealKeepsAccounts(db: Tables, b: Baseline, t: Target)
    ensures Onboarded(Seal(db, b), t) <==> Onboarded(db, t)
  {
    assert EventsFor(Seal(db, b), t.account) == EventsFor(db, t.account);
  }

  /** A completed onboarding is ready again, and running the transaction again changes nothing. */
  lemma {:induction false} RerunChangesNothing(db: Tables, e: Evidence)
    requires ParsedEvidence(e) && Loads(e.targets) && db.killSwitch && Complete(db, e)
    ensures Ready(db, e) && Final(db, e) == db
  {
    AllOnboardedStay(db, e.targets, |e.targets|);
    SealSeals(db, e.baseline);
  }

  /** Every later run of the transaction is accepted and leaves what the first one left. */
  lemma {:induction false} OnboardingIsIdempotent(db: Tables, e: Evidence)
    requires ParsedEvidence(e) && Ready(db, e)
    ensures Ready(Final(db, e), e) && Final(Final(db, e), e) == Final(db, e)
  {
    ReadyCompletes(db, e);
    OnboardAllFrame(db, e.targets, |e.targets|);
    RerunChangesNothing(Final(db, e), e);
  }

  // ----- counting

  function CountPresent(db: Tables, t: Target, n: nat): (c: nat)
    requires n <= |t.transfers|
    ensures c <= n
  {
    if n == 0 then 0
    else CountPresent(db, t, n - 1) + if Deposit(t, n - 1).id in db.events then 1 else 0
  }

  function CountExact(db: Tables, t: Target, n: nat): (c: nat)
    requires n <= |t.transfers|
    ensures c <= n
  {
    if n == 0 then 0
    else
      CountExact(db, t, n - 1)
      + if Deposit(t, n - 1).id in db.events && db.events[Deposit(t, n - 1).id] == Deposit(t, n - 1).entry
        then 1 else 0
  }

  lemma {:induction false} CountsDecide(db: Tables, t: Target, n: nat)
    requires n <= |t.transfers|
    ensures CountPresent(db, t, n) == n <==> forall i :: 0 <= i < n ==> Deposit(t, i).id in db.events
    ensures CountPresent(db, t, n) == 0 <==> forall i :: 0 <= i < n ==> Deposit(t, i).id !in db.events
    ensures CountExact(db, t, n) == n
            <==> forall i :: 0 <= i < n ==>
                   Deposit(t, i).id in db.events && db.events[Deposit(t, i).id] == Deposit(t, i).entry
  {
    if n == 0 {
    } else {
      CountsDecide(db, t, n - 1);
    }
  }

  function FirstIds(t: Target, n: nat): set<nat>
    requires n <= |t.transfers|
  {
    if n == 0 then {} else FirstIds(t, n - 1) + {t.transfers[n - 1].eventId}
  }

  lemma {:induction false} FirstIdsAreIds(t: Target, n: nat)
    requires n <= |t.transfers|
    ensures FirstIds(t, n) <= IdsOf(t)
    ensures forall i :: 0 <= i < n ==> t.transfers[i].eventId in FirstIds(t, n)
  {
    if n == 0 {
    } else {
      FirstIdsAreIds(t, n - 1);
      assert t.transfers[n - 1] in t.transfers;
    }
  }

  lemma {:induction false} LaterIdIsNew(t: Target, n: nat, m: nat)
    requires DistinctIds(t) && n <= m < |t.transfers|
    ensures t.transfers[m].eventId !in FirstIds(t, n)
  {
    if n == 0 {
    } else {
      LaterIdIsNew(t, n - 1, m);
      assert t.transfers[n - 1].eventId != t.transfers[m].eventId;
    }
  }

  lemma {:induction false} IdsAreDistinct(t: Target, n: nat)
    requires DistinctIds(t) && n <= |t.transfers|
    ensures |FirstIds(t, n)| == n
  {
    if n == 0 {
    } else {
      IdsAreDistinct(t, n - 1);
      LaterIdIsNew(t, n - 1, n - 1);
    }
  }

  lemma {:induction false} AllIdsAreFirst(t: Target)
    ensures FirstIds(t, |t.transfers|) == IdsOf(t)
  {
    FirstIdsAreIds(t, |t.transfers|);
    forall id | id in IdsOf(t) ensures id in FirstIds(t, |t.transfers|) {
      var i := IdIsDeposit(t, id);
    }
  }

  lemma {:induction false} IdsCount(t: Target)
    requires DistinctIds(t)
    ensures |IdsOf(t)| == |t.transfers|
  {
    AllIdsAreFirst(t);
    IdsAreDistinct(t, |t.transfers|);
  }

  /** Booked deposits are all the events of an account exactly when their numbers agree. */
  lemma {:induction false} CountIsWhole(db: Tables, t: Target)
    requires DistinctIds(t) && Booked(db, t)
    ensures |EventsFor(db, t.account)| == |t.transfers| <==> EventsFor(db, t.account) == IdsOf(t)
  {
    IdsCount(t);
    var found := EventsFor(db, t.account);
    forall id | id in IdsOf(t) ensures id in found {
      var i := IdIsDeposit(t, id);
    }
    assert found == (found - IdsOf(t)) + IdsOf(t);
    assert |found| == |found - IdsOf(t)| + |IdsOf(t)|;
  }

  /** No deposit of a non-empty list is present exactly when its identifiers are unused. */
  lemma {:induction false} NonePresent(db: Tables, t: Target)
    ensures CountPresent(db, t, |t.transfers|) == 0 <==> IdsOf(t) !! db.events.Keys
  {
    CountsDecide(db, t, |t.transfers|);
    if CountPresent(db, t, |t.transfers|) == 0 {
      forall id | id in IdsOf(t) ensures id !in db.events {
        var i := IdIsDeposit(t, id);
      }
    } else {
      var i :| 0 <= i < |t.transfers| && Deposit(t, i).id in db.events;
      assert t.transfers[i] in t.transfers;
      assert Deposit(t, i).id in IdsOf(t);
    }
  }

  /** The tables after the first n accounts of the loop. */
  ghost predicate BookedSoFar(db: Tables, ts: seq<Target>, n: nat, now: Tables) {
    && Known(db, ts, n) && (forall i :: 0 <= i < n ==> Accepts(db, ts[i]))
    && now == OnboardAll(db, ts, n)
  }

  lemma {:induction false} NextBooked(db: Tables, ts: seq<Target>, n: nat, now: Tables)
    requires Loads(ts) && n < |ts| && BookedSoFar(db, ts, n, now)
    ensures Accepts(now, ts[n]) <==> Accepts(db, ts[n])
    ensures Accepts(now, ts[n]) ==> BookedSoFar(db, ts, n + 1, Onboard(now, ts[n]))
  {
    DecidedAsBefore(db, ts, n);
  }

  lemma RepeatedId(t: Target, ids: set<nat>, n: nat)
    requires n < |t.transfers| && t.transfers[n].eventId in ids + FirstIds(t, n)
    ensures !(DistinctIds(t) && IdsOf(t) !! ids)
  {
    assert t.transfers[n] in t.transfers;
    assert t.transfers[n].eventId in IdsOf(t);
    if DistinctIds(t) {
      LaterIdIsNew(t, n, n);
    }
  }

  lemma NextId(t: Target, n: nat)
    requires n < |t.transfers| && t.transfers[n].eventId !in FirstIds(t, n)
    ensures forall i :: 0 <= i < n ==> t.transfers[i].eventId != t.transfers[n].eventId
  {
    FirstIdsAreIds(t, n);
  }

  class Ledger {
    var db: Tables

    /** The body of the loop over the accounts. */
    method Book(t: Target) returns (ok: bool)
      requires Parsed(t) && DistinctIds(t)
      modifies this
      ensures ok <==> Accepts(old(db), t)
      ensures ok ==> db == Onboard(old(db), t)
      ensures !ok ==> db == old(db)
    {
      if t.account !in db.accounts {
        return false;
      }
      var current := db.accounts[t.account];
      if current.wallet != t.wallet || !current.pusd || current.reconciledAt != t.reconciledAt {
        return false;
      }
      if t.account !in db.paused || t.account in db.enabled || t.account in db.busy {
        return false;
      }
      var expected := |t.transfers|;
      var present, exact := CountPresent(db, t, expected), CountExact(db, t, expected);
      var found := EventsFor(db, t.account);
      CountsDecide(db, t, expected);
      NonePresent(db, t);
      if present == expected {
        if exact == expected {
          CountIsWhole(db, t);
        }
        if || exact != expected || current.total != t.balance || current.available != t.balance
           || current.reserved != 0 || current.version != t.version + 1 || |found| != expected {
          return false;
        }
        OnboardedStays(db, t);
        return true;
      }
      if present != 0 {
        return false;
      }
      if || current.total != 0 || current.available != 0 || current.reserved != 0
         || current.version != t.version || found != {} {
        return false;
      }
      var accounts := db.accounts[t.account := current.(total := t.balance, available := t.balance,
                                                        version := current.version + 1)];
      var events := InsertDeposits(t);
      db := db.(accounts := accounts, events := events);
      return true;
    }

    /** INSERT of the staged events of one account. */
    method InsertDeposits(t: Target) returns (events: map<nat, Entry>)
      ensures events == Inserted(db.events, t, |t.transfers|)
    {
      var rows := EventRows(t);
      events := db.events;
      for n := 0 to |rows|
        invariant events == Inserted(db.events, t, n)
      {
        events := events[rows[n].id := rows[n].entry];
      }
    }

    /** The baseline part of the transaction. */
    method SealBaseline(b: Baseline) returns (ok: bool)
      modifies this
      ensures ok <==> Unsealed(old(db), b) || Sealed(old(db), b)
      ensures ok ==> db == Seal(old(db), b)
      ensures !ok ==> db == old(db)
    {
      var existing := HeadersFor(db, b.header.account);
      if |existing| == 1 {
        OneHeader(db, b);
        var items := ItemsFor(db, b.header.account);
        if b.header !in db.headers || items != b.items {
          return false;
        }
        assert Sealed(db, b);
        assert db.headers + {b.header} == db.headers && db.items + b.items == db.items;
        return true;
      }
      NotOneHeader(db, b);
      if |existing| != 0 {
        return false;
      }
      assert forall h :: h in db.headers ==> h.account != b.header.account by {
        assert forall h :: h in db.headers && h.account == b.header.account ==> h in existing;
      }
      if || (exists h :: h in db.headers && h.baselineId == b.header.baselineId)
         || (exists i :: i in db.items && (i.baselineId == b.header.baselineId || i.account == b.header.account)) {
        return false;
      }
      db := db.(items := db.items + b.items);
      db := db.(headers := db.headers + {b.header});
      return true;
    }

    /** The loop over the accounts; it stops at the first account it does not accept. */
    method BookAll(ts: seq<Target>) returns (ok: bool)
      requires Loads(ts) && forall t :: t in ts ==> Parsed(t)
      modifies this
      ensures ok <==> forall i :: 0 <= i < |ts| ==> Accepts(old(db), ts[i])
      ensures ok ==> Known(old(db), ts, |ts|) && db == OnboardAll(old(db), ts, |ts|)
    {
      for n := 0 to |ts|
        invariant BookedSoFar(old(db), ts, n, db)
      {
        NextBooked(old(db), ts, n, db);
        var booked := Book(ts[n]);
        if !booked {
          return false;
        }
      }
      return true;
    }

    /** The loop over the accounts that ends the transaction. */
    method CheckAccounts(ts: seq<Target>) returns (ok: bool)
      ensures ok <==> forall i :: 0 <= i < |ts| ==> PostconditionHolds(db, ts[i])
    {
      for n := 0 to |ts|
        invariant forall i :: 0 <= i < n ==> PostconditionHolds(db, ts[i])
      {
        var t := ts[n];
        if t.account !in db.accounts {
          return false;
        }
        var actual := db.accounts[t.account];
        if || actual.wallet != t.wallet || !actual.pusd || actual.total != t.balance || actual.available != t.balance
           || actual.reserved != 0 || actual.version != t.version + 1 || actual.reconciledAt != t.reconciledAt {
          return false;
        }
      }
      return true;
    }

    /** Loading the staging tables: accounts and event identifiers are primary keys there. */
    method Stage(ts: seq<Target>) returns (ok: bool)
      ensures ok <==> Loads(ts)
    {
      var accounts: set<nat>, ids: set<nat> := {}, {};
      for n := 0 to |ts|
        invariant Loads(ts[..n])
        invariant forall a :: a in accounts <==> exists i :: 0 <= i < n && ts[i].account == a
        invariant forall id :: id in ids <==> exists i :: 0 <= i < n && id in IdsOf(ts[i])
      {
        var t := ts[n];
        var own := StageEvents(t, ids);
        if t.account in accounts || own.None? {
          return false;
        }
        assert ts[..n + 1] == ts[..n] + [t];
        accounts, ids := accounts + {t.account}, own.value;
      }
      assert ts[..|ts|] == ts;
      return true;
    }

    method StageEvents(t: Target, ids: set<nat>) returns (r: Option<set<nat>>)
      ensures r == if DistinctIds(t) && IdsOf(t) !! ids then Some(ids + IdsOf(t)) else None
    {
      var seen := ids;
      for n := 0 to |t.transfers|
        invariant forall i, j :: 0 <= i < j < n ==> t.transfers[i].eventId != t.transfers[j].eventId
        invariant FirstIds(t, n) !! ids && seen == ids + FirstIds(t, n)
      {
        if t.transfers[n].eventId in seen {
          RepeatedId(t, ids, n);
          return None;
        }
        NextId(t, n);
        seen := seen + {t.transfers[n].eventId};
      }
      AllIdsAreFirst(t);
      return Some(seen);
    }

    /** The whole transaction; an abort restores the tables. */
    method Run(e: Evidence) returns (ok: bool)
      requires ParsedEvidence(e)
      modifies this
      ensures ok <==> Ready(old(db), e)
      ensures !ok ==> db == old(db)
      ensures ok ==> db == Final(old(db), e)
      ensures ok ==> Complete(db, e)
    {
      var saved := db;
      var staged := Stage(e.targets);
      if !staged || !db.killSwitch {
        return false;
      }
      ok := BookAll(e.targets);
      if !ok {
        db := saved;
        return;
      }
      OnboardAllFrame(saved, e.targets, |e.targets|);
      BaselineAsBefore(saved, db, e.baseline);
      ok := SealBaseline(e.baseline);
      if !ok {
        db := saved;
        return;
      }
      ReadyCompletes(saved, e);
      ok := CheckAccounts(e.targets);
    }
  }

  /** With one header of the account, the two comparisons decide whether the baseline is sealed. */
  lemma {:induction false} OneHeader(db: Tables, b: Baseline)
    requires |HeadersFor(db, b.header.account)| == 1
    ensures Sealed(db, b) <==> b.header in db.headers && ItemsFor(db, b.header.account) == b.items
    ensures !Unsealed(db, b)
  {
    var found := HeadersFor(db, b.header.account);
    var h :| h in found;
    assert |found - {h}| == 0;
    assert found == {h};
    if b.header in db.headers {
      assert b.header in found;
      forall g | g in db.headers && g.account == b.header.account ensures g == b.header {
        assert g in found;
      }
    }
    if ItemsFor(db, b.header.account) != b.items && Sealed(db, b) {
      assert forall i :: i in ItemsFor(db, b.header.account) <==> i in b.items;
    }
  }

  lemma SealedHasOneHeader(db: Tables, b: Baseline)
    requires Sealed(db, b)
    ensures |HeadersFor(db, b.header.account)| == 1
  {
    assert HeadersFor(db, b.header.account) == {b.header};
  }

  lemma {:induction false} NotOneHeader(db: Tables, b: Baseline)
    requires |HeadersFor(db, b.header.account)| != 1
    ensures !Sealed(db, b)
    ensures |HeadersFor(db, b.header.account)| != 0 ==> !Unsealed(db, b)
  {
    var found := HeadersFor(db, b.header.account);
    if Sealed(db, b) {
      SealedHasOneHeader(db, b);
    }
    if |found| != 0 {
      var h :| h in found;
    }
  }

  /** The last check of the transaction. */
  predicate PostconditionHolds(db: Tables, t: Target) {
    && t.account in db.accounts
    && db.accounts[t.account].wallet == t.wallet && db.accounts[t.account].pusd
    && db.accounts[t.account].total == t.balance && db.accounts[t.account].available == t.balance
    && db.accounts[t.account].reserved == 0 && db.accounts[t.account].version == t.version + 1
    && db.accounts[t.account].reconciledAt == t.reconciledAt
  }

  lemma BaselineAsBefore(db: Tables, after: Tables, b: Baseline)
    requires after.headers == db.headers && after.items == db.items
    ensures Unsealed(after, b) <==> Unsealed(db, b)
    ensures Sealed(after, b) <==> Sealed(db, b)
  {
  }
}
