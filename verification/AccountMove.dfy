/**
 The move of the strategy service's Kalshi records from one account to another: rows of the moved
 tables are renamed, rows of the append-only tables are copied, all in one transaction. A table is
 its row sequence; key stands for the primary key columns other than the account.
 */
module AccountMove {
  import opened Outcomes

  datatype Row = Row(account: nat, condition: Option<string>, key: nat, payload: nat)

  datatype Kind = Moved | Copied

  /** keyed: the primary key has columns besides the account; accountInKey: it has the account. */
  datatype Table = Table(kind: Kind, keyed: bool, accountInKey: bool, rows: seq<Row>)

  function Lower(c: char): char {
    if 'A' <= c <= 'Z' then c + ('a' - 'A') else c
  }

  /** condition_id LIKE 'kalshi:%', which ignores ASCII case and matches no NULL. */
  predicate IsKalshi(condition: Option<string>) {
    && condition.Some? && |condition.value| >= 7
    && forall i :: 0 <= i < 7 ==> Lower(condition.value[i]) == "kalshi:"[i]
  }

  /** The letters of ASCII are compared without their case. */
  predicate SameLetter(a: char, b: char) {
    || a == b
    || ('a' <= a <= 'z' && a as int == b as int + 32)
    || ('a' <= b <= 'z' && b as int == a as int + 32)
  }

  /** The LIKE of SQLite: % stands for any text, _ for any character. */
  predicate Like(pattern: string, text: string)
    decreases pattern
  {
    if pattern == "" then text == ""
    else if pattern[0] == '%' then exists k :: 0 <= k <= |text| && Like(pattern[1..], text[k..])
    else text != "" && (pattern[0] == '_' || SameLetter(pattern[0], text[0])) && Like(pattern[1..], text[1..])
  }

  lemma {:induction false} LikePrefix(prefix: string, text: string)
    requires forall i :: 0 <= i < |prefix| ==> prefix[i] != '%' && prefix[i] != '_'
    ensures Like(prefix + "%", text)
            <==> |prefix| <= |text| && forall i :: 0 <= i < |prefix| ==> SameLetter(prefix[i], text[i])
    decreases prefix
  {
    var pattern := prefix + "%";
    if prefix == "" {
      assert pattern[1..] == "" && text[|text|..] == "";
      assert Like(pattern[1..], text[|text|..]);
    } else {
      assert pattern[1..] == prefix[1..] + "%";
      if text != "" {
        LikePrefix(prefix[1..], text[1..]);
        assert forall i :: 0 < i < |prefix| ==> prefix[i] == prefix[1..][i - 1];
        assert forall i :: 0 < i < |text| ==> text[i] == text[1..][i - 1];
      }
    }
  }

  /** IsKalshi is what the pattern of the statements matches. */
  lemma {:induction false} KalshiIsLike(text: string)
    ensures IsKalshi(Some(text)) <==> Like("kalshi:%", text)
  {
    LikePrefix("kalshi:", text);
    assert "kalshi:" + "%" == "kalshi:%";
    forall i | 0 <= i < 7 && i < |text| ensures SameLetter("kalshi:"[i], text[i]) <==> Lower(text[i]) == "kalshi:"[i] {
    }
  }

  predicate Selected(r: Row, account: nat) {
    r.account == account && IsKalshi(r.condition)
  }

  predicate SameKey(t: Table, r: Row, q: Row) {
    !t.keyed || r.key == q.key
  }

  predicate SamePrimaryKey(t: Table, r: Row, q: Row) {
    (t.keyed || t.accountInKey) && (t.accountInKey ==> r.account == q.account) && SameKey(t, r, q)
  }

  /** The primary key constraint. */
  predicate Unique(t: Table) {
    forall i, j :: 0 <= i < j < |t.rows| ==> !SamePrimaryKey(t, t.rows[i], t.rows[j])
  }

  /** The negation of missing_on_target. */
  predicate OnAccount(t: Table, r: Row, account: nat) {
    exists q :: q in t.rows && q.account == account && SameKey(t, q, r)
  }

  predicate Misses(t: Table, r: Row, source: nat, target: nat) {
    Selected(r, source) && !OnAccount(t, r, target)
  }

  // ----- the two statements

  function Renamed(r: Row, source: nat, target: nat): Row {
    if Selected(r, source) then r.(account := target) else r
  }

  function MoveRows(t: Table, source: nat, target: nat): Table {
    t.(rows := seq(|t.rows|, i requires 0 <= i < |t.rows| => Renamed(t.rows[i], source, target)))
  }

  /** The copies that the INSERT adds for the first n rows. */
  function Copies(t: Table, source: nat, target: nat, n: nat): seq<Row>
    requires n <= |t.rows|
  {
    if n == 0 then []
    else
      Copies(t, source, target, n - 1)
      + if Misses(t, t.rows[n - 1], source, target) then [t.rows[n - 1].(account := target)] else []
  }

  function CopyRows(t: Table, source: nat, target: nat): Table {
    t.(rows := t.rows + Copies(t, source, target, |t.rows|))
  }

  function Migrated(t: Table, source: nat, target: nat): Table {
    if t.kind.Copied? then CopyRows(t, source, target) else MoveRows(t, source, target)
  }

  /** No Kalshi row of the account. */
  predicate Vacant(t: Table, account: nat) {
    forall r :: r in t.rows ==> !Selected(r, account)
  }

  /** What a caller can check of a table before the move. */
  predicate Migratable(t: Table, source: nat, target: nat) {
    match t.kind
    case Moved =>
      && Vacant(t, target)
      && (t.accountInKey ==> forall r, q :: r in t.rows && q in t.rows && Selected(r, source) && q.account == target ==>
                                              !SameKey(t, r, q))
    case Copied =>
      t.keyed && !t.accountInKey ==> forall r :: r in t.rows ==> !Misses(t, r, source, target)
  }

  // ----- what the statements do to the key

  lemma {:induction false} MoveClashes(t: Table, source: nat, target: nat, r: Row, q: Row)
    requires source != target && t.accountInKey && r in t.rows && q in t.rows
    requires Selected(r, source) && q.account == target && SameKey(t, r, q)
    ensures !Unique(MoveRows(t, source, target))
  {
    var after := MoveRows(t, source, target);
    var i :| 0 <= i < |t.rows| && t.rows[i] == r;
    var j :| 0 <= j < |t.rows| && t.rows[j] == q;
    assert SamePrimaryKey(after, after.rows[i], after.rows[j]) && SamePrimaryKey(after, after.rows[j], after.rows[i]);
    assert i < j || j < i;
  }

  lemma {:induction false} MoveKeepsKeys(t: Table, source: nat, target: nat)
    requires t.kind.Moved? && source != target && Unique(t) && Vacant(t, target)
    ensures Unique(MoveRows(t, source, target)) <==> Migratable(t, source, target)
  {
    if Migratable(t, source, target) {
      var after := MoveRows(t, source, target);
      forall i, j | 0 <= i < j < |after.rows| ensures !SamePrimaryKey(after, after.rows[i], after.rows[j]) {
        var r, q := t.rows[i], t.rows[j];
        assert r in t.rows && q in t.rows && !SamePrimaryKey(t, r, q);
        assert SameKey(t, r, q) <==> SameKey(t, q, r);
      }
    } else {
      var r, q :| r in t.rows && q in t.rows && Selected(r, source) && q.account == target && SameKey(t, r, q);
      MoveClashes(t, source, target, r, q);
    }
  }

  /** The indices of the first n rows that are copied. */
  function Origins(t: Table, source: nat, target: nat, n: nat): seq<nat>
    requires n <= |t.rows|
  {
    if n == 0 then []
    else Origins(t, source, target, n - 1) + if Misses(t, t.rows[n - 1], source, target) then [n - 1] else []
  }

  /** Every copy stands for a missing row of its own, in the order of the table. */
  lemma {:induction false} CopiesHaveOrigins(t: Table, source: nat, target: nat, n: nat)
    requires n <= |t.rows|
    ensures var from, c := Origins(t, source, target, n), Copies(t, source, target, n);
            && |from| == |c|
            && (forall k :: 0 <= k < |c| ==> && from[k] < n && Misses(t, t.rows[from[k]], source, target)
                                             && c[k] == t.rows[from[k]].(account := target))
            && (forall k, l :: 0 <= k < l < |c| ==> from[k] < from[l])
  {
    if n == 0 {
    } else {
      CopiesHaveOrigins(t, source, target, n - 1);
    }
  }

  /** Every missing row has a copy. */
  lemma {:induction false} MissingIsCopied(t: Table, source: nat, target: nat, n: nat, i: nat) returns (k: nat)
    requires i < n <= |t.rows| && Misses(t, t.rows[i], source, target)
    ensures k < |Copies(t, source, target, n)| && Copies(t, source, target, n)[k] == t.rows[i].(account := target)
  {
    if i == n - 1 {
      k := |Copies(t, source, target, n - 1)|;
    } else {
      k := MissingIsCopied(t, source, target, n - 1, i);
    }
  }

  /** A copy clashes with no row of the table. */
  lemma {:induction false} CopyIsNew(t: Table, source: nat, target: nat, i: nat, j: nat)
    requires t.keyed ==> t.accountInKey
    requires i < |t.rows| && j < |t.rows| && Misses(t, t.rows[j], source, target)
    ensures !SamePrimaryKey(t, t.rows[i], t.rows[j].(account := target))
  {
    assert t.rows[i] in t.rows;
    assert !OnAccount(t, t.rows[j], target);
  }

  /** Copies of two rows of the source clash no more than the rows do. */
  lemma CopiesDiffer(t: Table, source: nat, target: nat, r: Row, q: Row)
    requires t.keyed ==> t.accountInKey
    requires Selected(r, source) && Selected(q, source) && !SamePrimaryKey(t, r, q)
    ensures !SamePrimaryKey(t, r.(account := target), q.(account := target))
  {
  }

  lemma {:induction false} CopiesAreUnique(t: Table, source: nat, target: nat)
    requires (t.keyed ==> t.accountInKey) && Unique(t)
    ensures Unique(CopyRows(t, source, target))
  {
    var n := |t.rows|;
    var c := Copies(t, source, target, n);
    CopiesHaveOrigins(t, source, target, n);
    var from := Origins(t, source, target, n);
    var after := CopyRows(t, source, target);
    forall i, j | 0 <= i < j < |after.rows| ensures !SamePrimaryKey(t, after.rows[i], after.rows[j]) {
      if j >= n {
        var l := j - n;
        assert after.rows[j] == t.rows[from[l]].(account := target);
        if i < n {
          CopyIsNew(t, source, target, i, from[l]);
        } else {
          var k := i - n;
          assert after.rows[i] == t.rows[from[k]].(account := target);
          CopiesDiffer(t, source, target, t.rows[from[k]], t.rows[from[l]]);
        }
      }
    }
  }

  /** Without the account in the key a copy clashes with its own row. */
  lemma {:induction false} CopyClashes(t: Table, source: nat, target: nat, r: Row)
    requires t.keyed && !t.accountInKey && r in t.rows && Misses(t, r, source, target)
    ensures !Unique(CopyRows(t, source, target))
  {
    var n := |t.rows|;
    var c := Copies(t, source, target, n);
    var i :| 0 <= i < n && t.rows[i] == r;
    var k := MissingIsCopied(t, source, target, n, i);
    var after := CopyRows(t, source, target);
    assert after.rows[n + k] == c[k] && after.rows[i] == r;
    assert SamePrimaryKey(after, after.rows[i], after.rows[n + k]);
  }

  lemma {:induction false} CopyKeepsKeys(t: Table, source: nat, target: nat)
    requires t.kind.Copied? && Unique(t)
    ensures Unique(CopyRows(t, source, target)) <==> Migratable(t, source, target)
  {
    if t.keyed ==> t.accountInKey {
      CopiesAreUnique(t, source, target);
    } else if Migratable(t, source, target) {
      NothingMissing(t, source, target, |t.rows|);
      assert CopyRows(t, source, target).rows == t.rows;
    } else {
      var r :| r in t.rows && Misses(t, r, source, target);
      CopyClashes(t, source, target, r);
    }
  }

  // ----- what the statements do to the rows

  /** Moving back what was moved restores the table row for row. */
  lemma {:induction false} MoveRoundTrip(t: Table, source: nat, target: nat)
    requires t.kind.Moved? && source != target && Unique(t) && Migratable(t, source, target)
    ensures Migratable(MoveRows(t, source, target), target, source)
    ensures MoveRows(MoveRows(t, source, target), target, source) == t
    ensures forall i :: 0 <= i < |t.rows| ==>
                          (Selected(MoveRows(t, source, target).rows[i], target) <==> Selected(t.rows[i], source))
  {
    var there := MoveRows(t, source, target);
    forall i | 0 <= i < |t.rows| ensures Renamed(there.rows[i], target, source) == t.rows[i] {
      assert t.rows[i] in t.rows;
    }
    var back := MoveRows(there, target, source);
    assert back.rows == t.rows;
    forall i | 0 <= i < |t.rows| ensures !Selected(there.rows[i], source) {
    }
    assert Vacant(there, source);
    MoveKeepsKeys(there, target, source) by {
      MoveKeepsKeys(t, source, target);
    }
  }

  ghost predicate CopyOfMissing(t: Table, r: Row, source: nat, target: nat) {
    exists q :: q in t.rows && Misses(t, q, source, target) && r == q.(account := target)
  }

  /** After the copy every Kalshi key of the source is on the target, and no row was touched. */
  lemma {:induction false} CopyCompletes(t: Table, source: nat, target: nat)
    ensures t.rows <= CopyRows(t, source, target).rows
    ensures forall r :: r in t.rows && Selected(r, source) ==> OnAccount(CopyRows(t, source, target), r, target)
    ensures forall r :: r in CopyRows(t, source, target).rows && r !in t.rows ==>
                          Selected(r, target) && CopyOfMissing(t, r, source, target)
  {
    var c := Copies(t, source, target, |t.rows|);
    CopiesHaveOrigins(t, source, target, |t.rows|);
    var from := Origins(t, source, target, |t.rows|);
    var after := CopyRows(t, source, target);
    forall r | r in t.rows && Selected(r, source) ensures OnAccount(after, r, target) {
      if OnAccount(t, r, target) {
        var q :| q in t.rows && q.account == target && SameKey(t, q, r);
        assert q in after.rows;
      } else {
        var i :| 0 <= i < |t.rows| && t.rows[i] == r;
        var k := MissingIsCopied(t, source, target, |t.rows|, i);
        assert c[k] in after.rows && SameKey(after, c[k], r);
      }
    }
    forall r | r in after.rows && r !in t.rows
      ensures Selected(r, target) && CopyOfMissing(t, r, source, target)
    {
      assert r in c;
      var k :| 0 <= k < |c| && c[k] == r;
      assert t.rows[from[k]] in t.rows;
    }
  }

  lemma {:induction false} NothingMissing(t: Table, source: nat, target: nat, n: nat)
    requires n <= |t.rows| && forall r :: r in t.rows ==> !Misses(t, r, source, target)
    ensures Copies(t, source, target, n) == []
  {
    if n == 0 {
    } else {
      NothingMissing(t, source, target, n - 1);
      assert t.rows[n - 1] in t.rows;
    }
  }

  /** A second copy adds nothing. */
  lemma {:induction false} CopyIsIdempotent(t: Table, source: nat, target: nat)
    requires source != target
    ensures CopyRows(CopyRows(t, source, target), source, target) == CopyRows(t, source, target)
  {
    var after := CopyRows(t, source, target);
    CopyCompletes(t, source, target);
    forall r | r in after.rows ensures !Misses(after, r, source, target) {
      assert Selected(r, source) ==> r in t.rows;
    }
    NothingMissing(after, source, target, |after.rows|);
  }

  // ----- the transaction

  function CountSelected(t: Table, account: nat, n: nat): nat
    requires n <= |t.rows|
  {
    if n == 0 then 0
    else CountSelected(t, account, n - 1) + if Selected(t.rows[n - 1], account) then 1 else 0
  }

  function CountMissing(t: Table, source: nat, target: nat, n: nat): nat
    requires n <= |t.rows|
  {
    if n == 0 then 0
    else CountMissing(t, source, target, n - 1) + if Misses(t, t.rows[n - 1], source, target) then 1 else 0
  }

  /** The number of rows that the statement for a table adds or renames. */
  function Changes(t: Table, source: nat, target: nat): nat {
    if t.kind.Copied? then CountMissing(t, source, target, |t.rows|) else CountSelected(t, source, |t.rows|)
  }

  /** condition_id LIKE 'kalshi:%' on a row; NULL is not matched. */
  method Matches(condition: Option<string>) returns (r: bool)
    ensures r == IsKalshi(condition)
  {
    if condition.None? {
      return false;
    }
    KalshiIsLike(condition.value);
    return Like("kalshi:%", condition.value);
  }

  /** SELECT count(*) of the Kalshi rows of an account. */
  method CountKalshi(t: Table, account: nat) returns (count: nat)
    ensures count == CountSelected(t, account, |t.rows|)
    ensures count == 0 <==> Vacant(t, account)
  {
    count := 0;
    for n := 0 to |t.rows|
      invariant count == CountSelected(t, account, n)
    {
      var matched := Matches(t.rows[n].condition);
      if t.rows[n].account == account && matched {
        count := count + 1;
      }
    }
    VacantIsCounted(t, account, |t.rows|);
  }

  /** SELECT count(*) of those of the source that are missing on the target. */
  method CountAbsent(t: Table, source: nat, target: nat) returns (count: nat)
    ensures count == CountMissing(t, source, target, |t.rows|)
  {
    count := 0;
    for n := 0 to |t.rows|
      invariant count == CountMissing(t, source, target, n)
    {
      var r := t.rows[n];
      var matched := Matches(r.condition);
      var present := exists q :: q in t.rows && q.account == target && (t.keyed ==> q.key == r.key);
      if r.account == source && matched && !present {
        count := count + 1;
      }
    }
  }

  /** UPDATE: every Kalshi row of the source gets the target as its account, and no other row changes. */
  method UpdateRows(t: Table, source: nat, target: nat) returns (after: Table, changed: nat)
    ensures after == MoveRows(t, source, target) && changed == CountSelected(t, source, |t.rows|)
    ensures |after.rows| == |t.rows| && after == t.(rows := after.rows)
    ensures forall i :: 0 <= i < |t.rows| ==>
                          after.rows[i] == if t.rows[i].account == source && IsKalshi(t.rows[i].condition)
                                           then t.rows[i].(account := target) else t.rows[i]
  {
    var rows := [];
    changed := 0;
    for n := 0 to |t.rows|
      invariant |rows| == n && changed == CountSelected(t, source, n)
      invariant forall i :: 0 <= i < n ==> rows[i] == Renamed(t.rows[i], source, target)
    {
      var r := t.rows[n];
      var matched := Matches(r.condition);
      if r.account == source && matched {
        r := r.(account := target);
        changed := changed + 1;
      }
      rows := rows + [r];
    }
    after := t.(rows := rows);
    assert after.rows == MoveRows(t, source, target).rows;
  }

  /** INSERT ... SELECT: the rows it reads are those before the statement. */
  method InsertMissing(t: Table, source: nat, target: nat) returns (after: Table, changed: nat)
    ensures after == CopyRows(t, source, target) && changed == CountMissing(t, source, target, |t.rows|)
  {
    var added := [];
    changed := 0;
    for n := 0 to |t.rows|
      invariant added == Copies(t, source, target, n) && changed == CountMissing(t, source, target, n)
    {
      var r := t.rows[n];
      var matched := Matches(r.condition);
      var present := exists q :: q in t.rows && q.account == target && (t.keyed ==> q.key == r.key);
      if r.account == source && matched && !present {
        added := added + [r.(account := target)];
        changed := changed + 1;
      }
    }
    after := t.(rows := t.rows + added);
  }

  lemma {:induction false} VacantIsCounted(t: Table, account: nat, n: nat)
    requires n <= |t.rows|
    ensures CountSelected(t, account, n) == 0 <==> forall i :: 0 <= i < n ==> !Selected(t.rows[i], account)
  {
    if n == 0 {
    } else {
      VacantIsCounted(t, account, n - 1);
    }
  }

  class Database {
    var tables: seq<Table>

    /** plan: it refuses exactly when a moved table already has Kalshi rows of the target. */
    method Plan(source: nat, target: nat) returns (counts: Option<seq<nat>>)
      ensures counts.Some? <==> forall i :: 0 <= i < |tables| && tables[i].kind.Moved? ==> Vacant(tables[i], target)
      ensures counts.Some? ==> && |counts.value| == |tables|
                               && forall i :: 0 <= i < |tables| ==>
                                                counts.value[i] == Changes(tables[i], source, target)
    {
      var found: seq<nat> := [];
      for n := 0 to |tables|
        invariant |found| == n
        invariant forall i :: 0 <= i < n && tables[i].kind.Moved? ==> Vacant(tables[i], target)
        invariant forall i :: 0 <= i < n ==> found[i] == Changes(tables[i], source, target)
      {
        var t := tables[n];
        if t.kind.Copied? {
          var missing := CountAbsent(t, source, target);
          found := found + [missing];
          continue;
        }
        var existing := CountKalshi(t, target);
        if existing != 0 {
          return None;
        }
        var count := CountKalshi(t, source);
        found := found + [count];
      }
      return Some(found);
    }

    /** The statement for one table; None: the key constraint or the row count fails. */
    method MigrateTable(t: Table, source: nat, target: nat, expected: nat) returns (after: Option<Table>)
      requires source != target && Unique(t) && (t.kind.Moved? ==> Vacant(t, target))
      requires expected == Changes(t, source, target)
      ensures after == if Migratable(t, source, target) then Some(Migrated(t, source, target)) else None
    {
      var changed, result;
      if t.kind.Copied? {
        result, changed := InsertMissing(t, source, target);
        CopyKeepsKeys(t, source, target);
      } else {
        result, changed := UpdateRows(t, source, target);
        MoveKeepsKeys(t, source, target);
      }
      after := if Unique(result) && changed == expected then Some(result) else None;
    }

    /** migrate: it moves every table or leaves the database as it was. */
    method Migrate(source: nat, target: nat) returns (ok: bool)
      requires source != target && forall i :: 0 <= i < |tables| ==> Unique(tables[i])
      modifies this
      ensures ok <==> forall i :: 0 <= i < |old(tables)| ==> Migratable(old(tables[i]), source, target)
      ensures |tables| == |old(tables)|
      ensures forall i :: 0 <= i < |tables| ==>
                            tables[i] == if ok then Migrated(old(tables[i]), source, target) else old(tables[i])
      ensures forall i :: 0 <= i < |tables| ==> Unique(tables[i])
    {
      var saved := tables;
      var counts := Plan(source, target);
      if counts.None? {
        return false;
      }
      for n := 0 to |saved|
        invariant |tables| == |saved|
        invariant forall i :: 0 <= i < n ==> && Migratable(saved[i], source, target) && Unique(tables[i])
                                             && tables[i] == Migrated(saved[i], source, target)
        invariant forall i :: n <= i < |saved| ==> tables[i] == saved[i]
      {
        var after := MigrateTable(tables[n], source, target, counts.value[n]);
        if after.None? {
          tables := saved;
          return false;
        }
        MigratedIsUnique(saved[n], source, target);
        tables := tables[n := after.value];
      }
      return true;
    }
  }

  /** Two runs of migrate, the second with source and target exchanged. */
  method ThereAndBack(db: Database, source: nat, target: nat) returns (there: bool, back: bool)
    requires source != target && forall i :: 0 <= i < |db.tables| ==> Unique(db.tables[i])
    modifies db
    ensures there <==> forall i :: 0 <= i < |old(db.tables)| ==> Migratable(old(db.tables[i]), source, target)
    ensures there ==>
              (back <==> forall i :: 0 <= i < |old(db.tables)| ==> Reversible(old(db.tables[i]), source, target))
    ensures |db.tables| == |old(db.tables)|
    ensures there && back ==> forall i :: 0 <= i < |db.tables| ==> IsBack(old(db.tables[i]), db.tables[i])
    ensures there && !back ==> forall i :: 0 <= i < |db.tables| ==>
                                             db.tables[i] == Migrated(old(db.tables[i]), source, target)
    ensures !there ==> !back && db.tables == old(db.tables)
  {
    ghost var before := db.tables;
    back := false;
    there := db.Migrate(source, target);
    if !there {
      return;
    }
    ghost var moved := db.tables;
    forall i | 0 <= i < |before|
      ensures Migratable(moved[i], target, source) <==> Reversible(before[i], source, target)
    {
      BackIsReversible(before[i], source, target);
    }
    back := db.Migrate(target, source);
    if back {
      forall i | 0 <= i < |before| ensures IsBack(before[i], db.tables[i]) {
        MoveAndBack(before[i], source, target);
      }
    }
  }

  lemma MigratedIsUnique(t: Table, source: nat, target: nat)
    requires source != target && Unique(t) && Migratable(t, source, target)
    ensures Unique(Migrated(t, source, target))
  {
    if t.kind.Copied? {
      CopyKeepsKeys(t, source, target);
    } else {
      MoveKeepsKeys(t, source, target);
    }
  }

  /** r is a row of t up to its account. */
  ghost predicate StandsFor(t: Table, r: Row) {
    exists q :: q in t.rows && r == q.(account := r.account)
  }

  /** What decides the way back: no copied table lacks the account in its key and has a target row the source misses. */
  predicate Reversible(t: Table, source: nat, target: nat) {
    t.kind.Copied? && t.keyed && !t.accountInKey ==> forall r :: r in t.rows ==> !Misses(t, r, target, source)
  }

  /** A migrated table can be moved back exactly when it was reversible. */
  lemma {:induction false} BackIsReversible(t: Table, source: nat, target: nat)
    requires source != target && Unique(t) && Migratable(t, source, target)
    ensures Migratable(Migrated(t, source, target), target, source) <==> Reversible(t, source, target)
  {
    if t.kind.Moved? {
      MoveRoundTrip(t, source, target);
    } else if t.keyed && !t.accountInKey {
      NothingMissing(t, source, target, |t.rows|);
      assert Migrated(t, source, target).rows == t.rows;
    }
  }

  /**
   The move and the move back: a moved table is as it was; a copied table has kept every row, and
   what it has gained stands for a row that was already there.
   */
  ghost predicate IsBack(t: Table, after: Table) {
    && Unique(after)
    && (t.kind.Moved? ==> after == t)
    && t.rows <= after.rows
    && forall r :: r in after.rows ==> StandsFor(t, r)
  }

  lemma {:induction false} MoveAndBack(t: Table, source: nat, target: nat)
    requires source != target && Unique(t) && Migratable(t, source, target) && Reversible(t, source, target)
    ensures IsBack(t, Migrated(Migrated(t, source, target), target, source))
  {
    var there := Migrated(t, source, target);
    BackIsReversible(t, source, target);
    MigratedIsUnique(t, source, target);
    MigratedIsUnique(there, target, source);
    if t.kind.Moved? {
      MoveRoundTrip(t, source, target);
      forall r | r in t.rows ensures StandsFor(t, r) {
        assert r == r.(account := r.account);
      }
    } else {
      CopyCompletes(t, source, target);
      CopyCompletes(there, target, source);
      forall r | r in there.rows ensures StandsFor(t, r) {
        assert r in t.rows ==> r == r.(account := r.account);
      }
    }
  }
}
