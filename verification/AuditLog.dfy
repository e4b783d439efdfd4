/** The audit log: two retention classes in one table, pruned by a cached row count
    that must stay exact while the caller's transactions and savepoints roll back.

    The state holds the table, the tables saved by the open savepoints, and the
    writer's caches.  `Step` is one call; the lemmas speak of every run of calls. */
module AuditLog {

  import opened Wrappers

  datatype Retention = Activity | PreAuth

  datatype Row = Row(sequence: nat, id: string, retention: Retention)

  /** The rows in sequence order, and the last sequence handed out.  Both roll back. */
  datatype Table = Table(rows: seq<Row>, counter: nat)

  datatype State = State(
    table: Table,
    savepoints: seq<Table>,
    retained: map<Retention, nat>,
    last: map<Retention, (nat, string)>)

  // ---------------------------------------------------------------- tables

  ghost predicate ValidTable(t: Table) {
    && (forall j, k :: 0 <= j < k < |t.rows| ==> t.rows[j].sequence < t.rows[k].sequence)
    && (forall j, k :: 0 <= j < k < |t.rows| ==> t.rows[j].id != t.rows[k].id)
    && (forall k :: 0 <= k < |t.rows| ==> t.rows[k].sequence <= t.counter)
  }

  /** The rows of one class, oldest first. */
  function ClassRows(rows: seq<Row>, c: Retention): (r: seq<Row>)
    ensures |r| <= |rows|
  {
    if rows == [] then []
    else (if rows[0].retention == c then [rows[0]] else []) + ClassRows(rows[1..], c)
  }

  function Count(rows: seq<Row>, c: Retention): nat {
    |ClassRows(rows, c)|
  }

  function HasId(rows: seq<Row>, id: string): bool {
    exists k :: 0 <= k < |rows| && rows[k].id == id
  }

  /** The table without the oldest `n` rows of a class. */
  function DropOldest(rows: seq<Row>, c: Retention, n: nat): seq<Row> {
    if n == 0 || rows == [] then rows
    else if rows[0].retention == c then DropOldest(rows[1..], c, n - 1)
    else [rows[0]] + DropOldest(rows[1..], c, n)
  }

  function Newest(rows: seq<Row>, n: nat): seq<Row> {
    if |rows| <= n then rows else rows[|rows| - n..]
  }

  lemma {:induction false} ClassRowsAppend(rows: seq<Row>, row: Row, c: Retention)
    ensures ClassRows(rows + [row], c) == ClassRows(rows, c) + if row.retention == c then [row] else []
  {
    if rows == [] {
      assert rows + [row] == [row];
      assert [row][1..] == [];
    } else {
      var head := if rows[0].retention == c then [rows[0]] else [];
      var tail := if row.retention == c then [row] else [];
      assert (rows + [row])[0] == rows[0] && (rows + [row])[1..] == rows[1..] + [row];
      ClassRowsAppend(rows[1..], row, c);
      assert head + (ClassRows(rows[1..], c) + tail) == head + ClassRows(rows[1..], c) + tail;
    }
  }

  function Min(a: nat, b: nat): nat {
    if a < b then a else b
  }

  lemma ClassRowsCons(row: Row, rows: seq<Row>, c: Retention)
    ensures ClassRows([row] + rows, c) == (if row.retention == c then [row] else []) + ClassRows(rows, c)
  {
    assert ([row] + rows)[1..] == rows;
  }

  lemma DropOldestIs(row: Row, rows: seq<Row>, c: Retention, n: nat)
    requires n > 0
    ensures DropOldest([row] + rows, c, n) ==
            if row.retention == c then DropOldest(rows, c, n - 1) else [row] + DropOldest(rows, c, n)
  {
    assert ([row] + rows)[1..] == rows;
  }

  lemma SkipFirst(row: Row, rows: seq<Row>, m: nat)
    requires m <= |rows|
    ensures ([row] + rows)[m + 1..] == rows[m..]
  {
  }

  /** Pruning takes the oldest rows of its class. */
  lemma {:induction false} DropOldestOwn(rows: seq<Row>, c: Retention, n: nat)
    ensures ClassRows(DropOldest(rows, c, n), c) == ClassRows(rows, c)[Min(n, Count(rows, c))..]
  {
    if n > 0 && rows != [] {
      hide ClassRows, DropOldest;
      var row, rest := rows[0], rows[1..];
      assert rows == [row] + rest;
      var own := ClassRows(rest, c);
      ClassRowsCons(row, rest, c);
      DropOldestIs(row, rest, c, n);
      if row.retention == c {
        DropOldestOwn(rest, c, n - 1);
        SkipFirst(row, own, Min(n - 1, |own|));
      } else {
        DropOldestOwn(rest, c, n);
        ClassRowsCons(row, DropOldest(rest, c, n), c);
        assert [] + own == own && [] + ClassRows(DropOldest(rest, c, n), c) == ClassRows(DropOldest(rest, c, n), c);
      }
    }
  }

  lemma {:induction false} DropOldestLength(rows: seq<Row>, c: Retention, n: nat)
    ensures |DropOldest(rows, c, n)| == |rows| - Min(n, Count(rows, c))
  {
    if n > 0 && rows != [] {
      DropOldestLength(rows[1..], c, if rows[0].retention == c then n - 1 else n);
    }
  }

  /** Pruning leaves the other class alone. */
  lemma {:induction false} DropOldestOther(rows: seq<Row>, c: Retention, n: nat, d: Retention)
    requires d != c
    ensures ClassRows(DropOldest(rows, c, n), d) == ClassRows(rows, d)
  {
    if n > 0 && rows != [] {
      if rows[0].retention == c {
        DropOldestOther(rows[1..], c, n - 1, d);
      } else {
        DropOldestOther(rows[1..], c, n, d);
        var kept := DropOldest(rows[1..], c, n);
        assert DropOldest(rows, c, n) == [rows[0]] + kept && ([rows[0]] + kept)[1..] == kept;
      }
    }
  }

  lemma {:induction false} DropOldestMembers(rows: seq<Row>, c: Retention, n: nat, row: Row)
    ensures row in DropOldest(rows, c, n) ==> row in rows
    ensures row in rows && row.retention != c ==> row in DropOldest(rows, c, n)
  {
    if n > 0 && rows != [] {
      assert rows == [rows[0]] + rows[1..];
      DropOldestMembers(rows[1..], c, if rows[0].retention == c then n - 1 else n, row);
    }
  }

  lemma {:induction false} DropOldestValid(rows: seq<Row>, c: Retention, n: nat, counter: nat)
    requires ValidTable(Table(rows, counter))
    ensures ValidTable(Table(DropOldest(rows, c, n), counter))
  {
    if n > 0 && rows != [] {
      var m := if rows[0].retention == c then n - 1 else n;
      var rest := rows[1..];
      ValidRest(rows, counter);
      DropOldestValid(rest, c, m, counter);
      var kept := DropOldest(rest, c, m);
      forall row | row in kept ensures row in rest { DropOldestMembers(rest, c, m, row); }
      assert DropOldest(rows, c, n) == if rows[0].retention == c then kept else [rows[0]] + kept;
      hide DropOldest;
      ValidCons(rows, kept, counter);
    }
  }

  lemma ValidRest(rows: seq<Row>, counter: nat)
    requires ValidTable(Table(rows, counter)) && rows != []
    ensures ValidTable(Table(rows[1..], counter))
  {
  }

  /** The first row before some of the later ones. */
  lemma ValidCons(rows: seq<Row>, kept: seq<Row>, counter: nat)
    requires ValidTable(Table(rows, counter)) && rows != [] && ValidTable(Table(kept, counter))
    requires forall row :: row in kept ==> row in rows[1..]
    ensures ValidTable(Table([rows[0]] + kept, counter))
  {
    forall k | 0 <= k < |kept| ensures rows[0].sequence < kept[k].sequence && rows[0].id != kept[k].id {
      assert kept[k] in rows[1..];
      var j :| 0 <= j < |rows[1..]| && rows[1..][j] == kept[k];
      assert rows[j + 1] == kept[k];
    }
  }

  lemma {:induction false} ClassRowsMember(rows: seq<Row>, c: Retention, row: Row)
    ensures row in ClassRows(rows, c) <==> row in rows && row.retention == c
  {
    if rows != [] {
      assert rows == [rows[0]] + rows[1..];
      ClassRowsMember(rows[1..], c, row);
    }
  }

  // ---------------------------------------------------------------- calls

  datatype Op =
    | Append(retention: Retention, id: string, fails: bool)
    | Savepoint
    | Release
    | RollbackTo
    | Rollback
    | Reopen

  /** Whether the last row this writer appended to the class is still there. */
  predicate LastPresent(rows: seq<Row>, last: map<Retention, (nat, string)>, c: Retention) {
    c in last && Row(last[c].0, last[c].1, c) in rows
  }

  /** The count an append prunes by: the cached one while it can be trusted. */
  function CountUsed(s: State, c: Retention): nat {
    if c in s.retained && (c in s.last ==> LastPresent(s.table.rows, s.last, c)) then s.retained[c]
    else Count(s.table.rows, c)
  }

  function Excess(used: nat, maximum: nat): nat {
    if used + 1 > maximum then used + 1 - maximum else 0
  }

  /** An append inside its own savepoint: insert, prune, release.  A failure of any
      of them, or an id already there, leaves the table as it was. */
  function AppendStep(maximum: Retention -> nat, s: State, c: Retention, id: string, fails: bool): State {
    var used := CountUsed(s, c);
    var s1 := s.(retained := s.retained[c := used]);
    if fails || HasId(s.table.rows, id) then s1
    else
      var sequence := s.table.counter + 1;
      var inserted := s.table.rows + [Row(sequence, id, c)];
      var rows := DropOldest(inserted, c, Excess(used, maximum(c)));
      var pruned := |inserted| - |rows|;
      s1.(table := Table(rows, sequence),
          retained := s.retained[c := if pruned <= used + 1 then used + 1 - pruned else 0],
          last := s.last[c := (sequence, id)])
  }

  function Step(maximum: Retention -> nat, s: State, op: Op): State {
    match op
    case Append(c, id, fails) => AppendStep(maximum, s, c, id, fails)
    case Savepoint => s.(savepoints := s.savepoints + [s.table])
    case Release => if s.savepoints == [] then s else s.(savepoints := s.savepoints[..|s.savepoints| - 1])
    case RollbackTo => if s.savepoints == [] then s else s.(table := s.savepoints[|s.savepoints| - 1])
    case Rollback => if s.savepoints == [] then s else s.(table := s.savepoints[0], savepoints := [])
    // A crash ends an open transaction; the next process starts with empty caches.
    case Reopen => State(if s.savepoints == [] then s.table else s.savepoints[0], [], map[], map[])
  }

  // ---------------------------------------------------------------- the invariant

  /** The tables that can still be current: those saved, then the present one. */
  function Tables(s: State): seq<Table> {
    s.savepoints + [s.table]
  }

  /** What one class's cache says of every table that can become current. */
  ghost predicate CacheExact(s: State, c: Retention) {
    var tables := Tables(s);
    if c in s.last then
      && c in s.retained
      && (forall i :: 0 <= i < |tables| && LastPresent(tables[i].rows, s.last, c) ==>
           Count(tables[i].rows, c) == s.retained[c])
      && (forall i, j :: 0 <= i < j < |tables| && LastPresent(tables[i].rows, s.last, c) ==>
           LastPresent(tables[j].rows, s.last, c))
    else
      && (forall i :: 0 <= i < |tables| ==> Count(tables[i].rows, c) == Count(s.table.rows, c))
      && (c in s.retained ==> s.retained[c] == Count(s.table.rows, c))
  }

  ghost predicate Inv(s: State) {
    && (forall i :: 0 <= i < |Tables(s)| ==> ValidTable(Tables(s)[i]))
    && (forall i, j :: 0 <= i < j < |Tables(s)| ==> Tables(s)[i].counter <= Tables(s)[j].counter)
    && (forall c :: CacheExact(s, c))
  }

  /** The count an append prunes by is the number of rows of its class. */
  lemma CountIsExact(s: State, c: Retention)
    requires Inv(s)
    ensures CountUsed(s, c) == Count(s.table.rows, c)
  {
    assert CacheExact(s, c);
    assert Tables(s)[|s.savepoints|] == s.table;
  }

  // ---------------------------------------------------------------- one append

  /** Inserting a row and pruning by the exact count leaves the newest rows. */
  lemma PruneInserted(rows: seq<Row>, row: Row, c: Retention, maximum: nat)
    requires row.retention == c && maximum >= 1
    ensures var pruned := DropOldest(rows + [row], c, Excess(Count(rows, c), maximum));
            && ClassRows(pruned, c) == Newest(ClassRows(rows, c) + [row], maximum)
            && row in pruned
            && |rows| + 1 - |pruned| == Excess(Count(rows, c), maximum)
            && Count(pruned, c) == Count(rows, c) + 1 - Excess(Count(rows, c), maximum)
  {
    hide ClassRows, DropOldest;
    var inserted := rows + [row];
    var excess := Excess(Count(rows, c), maximum);
    ClassRowsAppend(rows, row, c);
    DropOldestOwn(inserted, c, excess);
    DropOldestLength(inserted, c, excess);
    var own := ClassRows(inserted, c);
    assert own[excess..] == Newest(own, maximum);
    assert own[excess..][|own| - excess - 1] == row;
    ClassRowsMember(DropOldest(inserted, c, excess), c, row);
  }

  lemma PruneOther(rows: seq<Row>, row: Row, c: Retention, n: nat, d: Retention)
    requires row.retention == c && d != c
    ensures ClassRows(DropOldest(rows + [row], c, n), d) == ClassRows(rows, d)
  {
    hide ClassRows, DropOldest;
    ClassRowsAppend(rows, row, d);
    DropOldestOther(rows + [row], c, n, d);
  }

  /** An append that succeeds leaves exactly the newest rows of its class, up to the
      maximum, and every row of the other class. */
  lemma AppendKeepsNewest(maximum: Retention -> nat, s: State, c: Retention, id: string)
    requires Inv(s) && maximum(c) >= 1 && !HasId(s.table.rows, id)
    ensures var s' := AppendStep(maximum, s, c, id, false);
            var row := Row(s.table.counter + 1, id, c);
            && ClassRows(s'.table.rows, c) == Newest(ClassRows(s.table.rows, c) + [row], maximum(c))
            && (forall d :: d != c ==> ClassRows(s'.table.rows, d) == ClassRows(s.table.rows, d))
            && row in s'.table.rows
            && s'.retained[c] == Count(s'.table.rows, c)
            && s'.last[c] == (row.sequence, id)
  {
    hide ClassRows, DropOldest, Inv, HasId, CountUsed, Newest;
    CountIsExact(s, c);
    var row := Row(s.table.counter + 1, id, c);
    PruneInserted(s.table.rows, row, c, maximum(c));
    forall d | d != c
      ensures ClassRows(AppendStep(maximum, s, c, id, false).table.rows, d) == ClassRows(s.table.rows, d)
    {
      PruneOther(s.table.rows, row, c, Excess(CountUsed(s, c), maximum(c)), d);
    }
  }

  /** The new row is in no saved table: none has handed out its sequence yet. */
  lemma NewRowIsNew(s: State, i: nat, row: Row)
    requires Inv(s) && i < |Tables(s)| && row.sequence == s.table.counter + 1
    ensures row !in Tables(s)[i].rows
  {
    assert Tables(s)[|s.savepoints|] == s.table;
    var t := Tables(s)[i];
    assert ValidTable(t) && t.counter <= s.table.counter;
  }

  lemma AppendValid(maximum: Retention -> nat, s: State, c: Retention, id: string)
    requires Inv(s) && !HasId(s.table.rows, id)
    ensures ValidTable(AppendStep(maximum, s, c, id, false).table)
  {
    hide DropOldest, CacheExact, CountUsed;
    assert Tables(s)[|s.savepoints|] == s.table;
    var row := Row(s.table.counter + 1, id, c);
    var inserted := s.table.rows + [row];
    assert ValidTable(Table(inserted, row.sequence));
    var used := CountUsed(s, c);
    DropOldestValid(inserted, c, Excess(used, maximum(c)), row.sequence);
  }

  /** Which rows of the other class an append leaves: all of them. */
  lemma AppendOtherPresent(maximum: Retention -> nat, s: State, c: Retention, id: string, d: Retention)
    requires d != c && !HasId(s.table.rows, id)
    ensures var s' := AppendStep(maximum, s, c, id, false);
            forall row: Row :: row.retention == d ==> (row in s'.table.rows <==> row in s.table.rows)
  {
    var row := Row(s.table.counter + 1, id, c);
    var inserted := s.table.rows + [row];
    var used := CountUsed(s, c);
    forall r: Row | r.retention == d
      ensures r in AppendStep(maximum, s, c, id, false).table.rows <==> r in s.table.rows
    {
      DropOldestMembers(inserted, c, Excess(used, maximum(c)), r);
    }
  }

  // ---------------------------------------------------------------- every call keeps the count exact

  lemma AppendFailKeepsInv(maximum: Retention -> nat, s: State, c: Retention, id: string, fails: bool)
    requires Inv(s) && (fails || HasId(s.table.rows, id))
    ensures Inv(AppendStep(maximum, s, c, id, fails))
  {
    hide ClassRows, HasId;
    CountIsExact(s, c);
    var s' := AppendStep(maximum, s, c, id, fails);
    var tables := Tables(s);
    assert Tables(s') == tables && tables[|s.savepoints|] == s.table;
    forall d ensures CacheExact(s', d) {
      assert CacheExact(s, d);
    }
  }

  lemma AppendKeepsInv(maximum: Retention -> nat, s: State, c: Retention, id: string)
    requires Inv(s) && maximum(c) >= 1 && !HasId(s.table.rows, id)
    ensures Inv(AppendStep(maximum, s, c, id, false))
  {
    hide ClassRows, HasId, DropOldest;
    var s' := AppendStep(maximum, s, c, id, false);
    var n := |s.savepoints|;
    AppendValid(maximum, s, c, id);
    AppendKeepsNewest(maximum, s, c, id);
    assert forall i :: 0 <= i < n ==> Tables(s')[i] == Tables(s)[i];
    assert Tables(s)[n] == s.table && Tables(s')[n] == s'.table;
    forall d ensures CacheExact(s', d) {
      assert CacheExact(s, d);
      if d == c {
        forall i | 0 <= i < n ensures !LastPresent(Tables(s')[i].rows, s'.last, c) {
          NewRowIsNew(s, i, Row(s.table.counter + 1, id, c));
        }
      } else {
        AppendOtherPresent(maximum, s, c, id, d);
        assert LastPresent(s'.table.rows, s'.last, d) <==> LastPresent(s.table.rows, s.last, d);
      }
    }
  }

  /** A move to other tables that could become current, in the same order. */
  lemma MoveKeepsInv(s: State, s': State, from: seq<nat>)
    requires Inv(s) && s'.retained == s.retained && s'.last == s.last
    requires |from| == |Tables(s')|
    requires forall i :: 0 <= i < |from| ==> from[i] < |Tables(s)| && Tables(s')[i] == Tables(s)[from[i]]
    requires forall i, j :: 0 <= i < j < |from| ==> from[i] <= from[j]
    ensures Inv(s')
  {
    hide ClassRows, ValidTable, LastPresent;
    var tables, tables' := Tables(s), Tables(s');
    assert tables'[|s'.savepoints|] == s'.table;
    forall c ensures CacheExact(s', c) {
      assert CacheExact(s, c);
      assert c !in s.last ==> Count(s'.table.rows, c) == Count(s.table.rows, c);
    }
  }

  lemma StepKeepsInv(maximum: Retention -> nat, s: State, op: Op)
    requires Inv(s) && forall c :: maximum(c) >= 1
    ensures Inv(Step(maximum, s, op))
  {
    hide Inv;
    var s' := Step(maximum, s, op);
    var n := |s.savepoints|;
    match op
    case Append(c, id, fails) =>
      if fails || HasId(s.table.rows, id) {
        AppendFailKeepsInv(maximum, s, c, id, fails);
      } else {
        AppendKeepsInv(maximum, s, c, id);
      }
    case Savepoint => MoveKeepsInv(s, s', seq(n + 2, i => if i < n then i else n));
    case Release => if n > 0 { MoveKeepsInv(s, s', seq(n, i => if i < n - 1 then i else n)); }
    case RollbackTo => if n > 0 { MoveKeepsInv(s, s', seq(n + 1, i => if i < n then i else n - 1)); }
    case Rollback => if n > 0 { MoveKeepsInv(s, s', [0]); }
    case Reopen => OpenedInv(s, s'.table);
  }

  lemma OpenedInv(s: State, table: Table)
    requires Inv(s) && table == Tables(s)[0]
    ensures Inv(Opened(table))
  {
    assert Tables(Opened(table)) == [table];
  }

  function Run(maximum: Retention -> nat, s: State, ops: seq<Op>): State {
    if ops == [] then s else Step(maximum, Run(maximum, s, ops[..|ops| - 1]), ops[|ops| - 1])
  }

  function Opened(table: Table): State {
    State(table, [], map[], map[])
  }

  lemma {:induction false} RunKeepsInv(maximum: Retention -> nat, table: Table, ops: seq<Op>)
    requires ValidTable(table) && forall c :: maximum(c) >= 1
    ensures Inv(Run(maximum, Opened(table), ops))
  {
    if ops == [] {
      assert Tables(Opened(table)) == [table];
    } else {
      RunKeepsInv(maximum, table, ops[..|ops| - 1]);
      StepKeepsInv(maximum, Run(maximum, Opened(table), ops[..|ops| - 1]), ops[|ops| - 1]);
    }
  }

  /** After any run of appends in both classes, failed ones included, with savepoints,
      releases, rollbacks and restarts: the count an append prunes by is exact, so it
      leaves exactly the newest rows of its class and the whole other class. */
  lemma EveryRunPrunesExactly(maximum: Retention -> nat, table: Table, ops: seq<Op>, c: Retention, id: string)
    requires ValidTable(table) && forall d :: maximum(d) >= 1
    ensures var s := Run(maximum, Opened(table), ops);
            && CountUsed(s, c) == Count(s.table.rows, c)
            && (!HasId(s.table.rows, id) ==>
                  var s' := Step(maximum, s, Append(c, id, false));
                  && ClassRows(s'.table.rows, c) ==
                      Newest(ClassRows(s.table.rows, c) + [Row(s.table.counter + 1, id, c)], maximum(c))
                  && forall d :: d != c ==> ClassRows(s'.table.rows, d) == ClassRows(s.table.rows, d))
  {
    hide Run, ClassRows, AppendStep, CountUsed, Inv, Newest, HasId;
    RunKeepsInv(maximum, table, ops);
    var s := Run(maximum, Opened(table), ops);
    CountIsExact(s, c);
    if !HasId(s.table.rows, id) { AppendKeepsNewest(maximum, s, c, id); }
  }

  // ---------------------------------------------------------------- an append, row by row

  /** The rows of a class that came after a sequence. */
  function After(rows: seq<Row>, c: Retention, sequence: nat): set<Row> {
    set row | row in rows && row.retention == c && row.sequence > sequence
  }

  lemma {:induction false} ClassRowsSorted(rows: seq<Row>, c: Retention)
    requires forall j, k :: 0 <= j < k < |rows| ==> rows[j].sequence < rows[k].sequence
    ensures forall j, k :: 0 <= j < k < |ClassRows(rows, c)| ==>
              ClassRows(rows, c)[j].sequence < ClassRows(rows, c)[k].sequence
  {
    if rows != [] {
      ClassRowsSorted(rows[1..], c);
      var own := ClassRows(rows[1..], c);
      forall k | 0 <= k < |own| ensures rows[0].sequence < own[k].sequence {
        ClassRowsMember(rows[1..], c, own[k]);
        assert own[k] in rows[1..];
        var i :| 0 <= i < |rows[1..]| && rows[1..][i] == own[k];
        assert rows[i + 1] == own[k];
      }
      hide ClassRows;
      ClassRowsCons(rows[0], rows[1..], c);
      assert rows == [rows[0]] + rows[1..];
    }
  }

  lemma {:induction false} SortedSize(rows: seq<Row>)
    requires forall j, k :: 0 <= j < k < |rows| ==> rows[j].sequence < rows[k].sequence
    ensures |set row | row in rows| == |rows|
  {
    if rows != [] {
      var front, last := rows[..|rows| - 1], rows[|rows| - 1];
      SortedSize(front);
      LastIsNew(rows);
      assert rows == front + [last];
      MembersOf(rows, front, last);
      var rest := set row | row in front;
      assert last !in rest;
    }
  }

  lemma MembersOf(rows: seq<Row>, front: seq<Row>, last: Row)
    requires rows == front + [last]
    ensures (set row | row in rows) == (set row | row in front) + {last}
  {
  }

  lemma LastIsNew(rows: seq<Row>)
    requires rows != [] && forall j, k :: 0 <= j < k < |rows| ==> rows[j].sequence < rows[k].sequence
    ensures rows[|rows| - 1] !in rows[..|rows| - 1]
  {
  }

  /** The rows after the one at `k` of its class are those behind it. */
  lemma AfterSize(rows: seq<Row>, c: Retention, k: nat)
    requires forall i, j :: 0 <= i < j < |rows| ==> rows[i].sequence < rows[j].sequence
    requires k < Count(rows, c)
    ensures |After(rows, c, ClassRows(rows, c)[k].sequence)| == Count(rows, c) - k - 1
  {
    ClassRowsSorted(rows, c);
    forall row ensures row in ClassRows(rows, c) <==> row in rows && row.retention == c {
      ClassRowsMember(rows, c, row);
    }
    hide ClassRows;
    var own := ClassRows(rows, c);
    var behind := own[k + 1..];
    assert own == own[..k + 1] + behind;
    SortedSize(behind);
    assert After(rows, c, own[k].sequence) == set row | row in behind;
  }

  /** An append that succeeds adds its row and keeps every row but those of its class that
      have a full class of newer ones; nothing else, whatever the other class holds. */
  lemma AppendExactly(maximum: Retention -> nat, s: State, c: Retention, id: string, row: Row)
    requires Inv(s) && maximum(c) >= 1 && !HasId(s.table.rows, id)
    ensures var s' := AppendStep(maximum, s, c, id, false);
            var all := s.table.rows + [Row(s.table.counter + 1, id, c)];
            && (row in s'.table.rows <==>
                  row in all && (row.retention == c ==> |After(all, c, row.sequence)| < maximum(c)))
            && s'.table.counter == s.table.counter + 1 && s'.savepoints == s.savepoints
            && ValidTable(s'.table)
  {
    hide DropOldest, ClassRows, CountUsed, HasId, Inv, After, Newest, AppendStep, ValidTable;
    var s' := AppendStep(maximum, s, c, id, false);
    var added := Row(s.table.counter + 1, id, c);
    var all := s.table.rows + [added];
    AppendValid(maximum, s, c, id);
    AppendKeepsNewest(maximum, s, c, id);
    AppendMoves(maximum, s, c, id);
    ClassRowsAppend(s.table.rows, added, c);
    ClassRowsMember(s'.table.rows, row.retention, row);
    ClassRowsMember(s.table.rows, row.retention, row);
    ClassRowsMember(all, c, row);
    assert row in all <==> row in s.table.rows || row == added;
    if row.retention == c { KeptExactly(maximum, s, c, all, row); }
  }

  lemma AppendMoves(maximum: Retention -> nat, s: State, c: Retention, id: string)
    requires !HasId(s.table.rows, id)
    ensures var s' := AppendStep(maximum, s, c, id, false);
            s'.table.counter == s.table.counter + 1 && s'.savepoints == s.savepoints
  {
    hide DropOldest, CountUsed, HasId;
  }

  lemma KeptExactly(maximum: Retention -> nat, s: State, c: Retention, all: seq<Row>, row: Row)
    requires Inv(s) && row.retention == c
    requires |all| > 0 && all[..|all| - 1] == s.table.rows && all[|all| - 1].sequence == s.table.counter + 1
    ensures row in Newest(ClassRows(all, c), maximum(c)) <==>
            row in all && |After(all, c, row.sequence)| < maximum(c)
  {
    hide ClassRows, After, Newest, CacheExact, DropOldest;
    assert ValidTable(s.table) by { assert Tables(s)[|s.savepoints|] == s.table; }
    hide Inv;
    assert all == s.table.rows + [all[|all| - 1]];
    ClassRowsSorted(all, c);
    ClassRowsMember(all, c, row);
    var own := ClassRows(all, c);
    if row in own {
      var k :| 0 <= k < |own| && own[k] == row;
      AfterSize(all, c, k);
      NewestMember(own, maximum(c), k);
    } else if own != [] {
      NewestMember(own, maximum(c), 0);
    } else {
      NewestNone(maximum(c));
    }
  }

  lemma NewestNone(n: nat)
    ensures Newest([], n) == []
  {
  }

  lemma NewestMember(own: seq<Row>, n: nat, k: nat)
    requires k < |own| && forall i, j :: 0 <= i < j < |own| ==> own[i].sequence < own[j].sequence
    ensures own[k] in Newest(own, n) <==> |own| - k - 1 < n
    ensures forall row :: row in Newest(own, n) ==> row in own
  {
    if |own| > n {
      var last := own[|own| - n..];
      if k >= |own| - n { assert last[k - (|own| - n)] == own[k]; }
      if own[k] in last {
        var i :| 0 <= i < |last| && last[i] == own[k];
        assert own[|own| - n + i] == own[k];
      }
    }
  }

  /** An append that fails, or finds its id there, changes no table. */
  lemma AppendFails(maximum: Retention -> nat, s: State, c: Retention, id: string, fails: bool)
    requires fails || exists k :: 0 <= k < |s.table.rows| && s.table.rows[k].id == id
    ensures var s' := AppendStep(maximum, s, c, id, fails);
            s'.table == s.table && s'.savepoints == s.savepoints && s'.last == s.last
  {
    hide CountUsed;
  }

  // ---------------------------------------------------------------- the writer

  lemma DropNone(rows: seq<Row>, c: Retention)
    ensures DropOldest(rows, c, 0) == rows
  {
  }

  /** The writer under one connection's transactions. */
  class SqliteAuditLog {
    const maximum: Retention -> nat
    var table: Table
    var savepoints: seq<Table>
    var retained: map<Retention, nat>
    var last: map<Retention, (nat, string)>

    constructor (maximum: Retention -> nat, table: Table)
      ensures this.maximum == maximum && Current() == Opened(table)
    {
      this.maximum, this.table := maximum, table;
      savepoints, retained, last := [], map[], map[];
    }

    function Current(): State
      reads this
    {
      State(table, savepoints, retained, last)
    }

    /** The cached count, or a fresh one. */
    method RetainedCount(c: Retention) returns (count: nat)
      modifies this`retained
      ensures retained == old(retained)[c := count]
      ensures count == if c in old(retained) then old(retained)[c] else Count(table.rows, c)
    {
      if c in retained { return retained[c]; }
      count := Count(table.rows, c);
      retained := retained[c := count];
    }

    /** The count this append prunes by: recounted when the last row is gone. */
    method TrustedCount(c: Retention) returns (count: nat)
      modifies this`retained
      ensures count == CountUsed(old(Current()), c)
      ensures retained == old(retained)[c := count]
    {
      hide ClassRows, LastPresent;
      if c in last && !LastPresent(table.rows, last, c) { retained := retained - {c}; }
      count := RetainedCount(c);
      assert retained == old(retained)[c := count];
    }

    /** Appends an entry and prunes its class; `fails` is a failure of the insert, the
        prune or the release. */
    method Append(c: Retention, id: string, fails: bool) returns (done: bool)
      modifies this
      ensures Current() == Step(maximum, old(Current()), Op.Append(c, id, fails))
      ensures done <==> !fails && !HasId(old(table).rows, id)
    {
      hide CountUsed, HasId, DropOldest;
      DropNone(table.rows + [Row(table.counter + 1, id, c)], c);
      var count := TrustedCount(c);
      if fails || HasId(table.rows, id) { return false; }
      var sequence := table.counter + 1;
      var rows := table.rows + [Row(sequence, id, c)];
      var pruned := 0;
      if count + 1 > maximum(c) {
        var left := DropOldest(rows, c, count + 1 - maximum(c));
        pruned := |rows| - |left|;
        rows := left;
      }
      table := Table(rows, sequence);
      var kept := if pruned <= count + 1 then count + 1 - pruned else 0;
      assert retained[c := kept] == old(retained)[c := kept];
      retained := retained[c := kept];
      last := last[c := (sequence, id)];
      return true;
    }
  }

  // ---------------------------------------------------------------- paging

  /** The rows a query matches below a cursor's sequence, newest first. */
  function Below(rows: seq<Row>, matches: Row -> bool, before: Option<nat>): (r: seq<Row>)
    ensures |r| <= |rows|
  {
    if rows == [] then []
    else Below(rows[1..], matches, before)
         + if matches(rows[0]) && (before.Some? ==> rows[0].sequence < before.value) then [rows[0]] else []
  }

  datatype Page = Page(rows: seq<Row>, hasMore: bool)

  /** At most `limit` rows are shown; one more is read to see whether any is left. */
  function Query(rows: seq<Row>, matches: Row -> bool, before: Option<nat>, limit: nat): Page {
    var all := Below(rows, matches, before);
    var read := if |all| <= limit + 1 then all else all[..limit + 1];
    Page(if |read| <= limit then read else read[..limit], |read| > limit)
  }

  /** Following the cursor of each page to the end. */
  function AllPages(rows: seq<Row>, matches: Row -> bool, before: Option<nat>, limit: nat, fuel: nat): seq<Row>
    requires limit > 0
    decreases fuel
  {
    var page := Query(rows, matches, before, limit);
    if !page.hasMore || fuel == 0 then page.rows
    else page.rows + AllPages(rows, matches, Some(page.rows[|page.rows| - 1].sequence), limit, fuel - 1)
  }

  /** The rows below a cursor taken from the list itself are the rest of the list. */
  lemma {:induction false} BelowCursor(rows: seq<Row>, matches: Row -> bool, before: Option<nat>, k: nat)
    requires forall i, j :: 0 <= i < j < |rows| ==> rows[i].sequence < rows[j].sequence
    requires k < |Below(rows, matches, before)|
    ensures Below(rows, matches, Some(Below(rows, matches, before)[k].sequence)) ==
        Below(rows, matches, before)[k + 1..]
    decreases |rows|
  {
    var rest := Below(rows[1..], matches, before);
    if k < |rest| {
      BelowMember(rows[1..], matches, before, k);
      var i :| 0 <= i < |rows[1..]| && rows[1..][i] == rest[k];
      assert rows[0].sequence < rows[i + 1].sequence;
      BelowCursor(rows[1..], matches, before, k);
      var head := if matches(rows[0]) && (before.Some? ==> rows[0].sequence < before.value) then [rows[0]] else [];
      BelowMemberBefore(rows[1..], matches, before, k);
      assert (rest + head)[k + 1..] == rest[k + 1..] + head;
    } else {
      var s := rows[0].sequence;
      NothingBelow(rows, matches, s);
      assert Below(rows, matches, before)[k + 1..] == [];
    }
  }

  lemma {:induction false} BelowMember(rows: seq<Row>, matches: Row -> bool, before: Option<nat>, k: nat)
    requires k < |Below(rows, matches, before)|
    ensures Below(rows, matches, before)[k] in rows
  {
    assert rows == [rows[0]] + rows[1..];
    if k < |Below(rows[1..], matches, before)| { BelowMember(rows[1..], matches, before, k); }
  }

  lemma {:induction false} BelowMemberBefore(rows: seq<Row>, matches: Row -> bool, before: Option<nat>, k: nat)
    requires k < |Below(rows, matches, before)|
    ensures before.Some? ==> Below(rows, matches, before)[k].sequence < before.value
  {
    if k < |Below(rows[1..], matches, before)| { BelowMemberBefore(rows[1..], matches, before, k); }
  }

  lemma {:induction false} NothingBelow(rows: seq<Row>, matches: Row -> bool, s: nat)
    requires forall i :: 0 <= i < |rows| ==> rows[i].sequence >= s
    ensures Below(rows, matches, Some(s)) == []
  {
    if rows != [] { NothingBelow(rows[1..], matches, s); }
  }

  lemma PageIs(rows: seq<Row>, matches: Row -> bool, before: Option<nat>, limit: nat)
    ensures var all := Below(rows, matches, before);
            Query(rows, matches, before, limit) == if |all| <= limit then Page(all, false) else Page(all[..limit], true)
  {
    hide Below;
    var all := Below(rows, matches, before);
    assert |all| > limit + 1 ==> all[..limit + 1][..limit] == all[..limit];
  }

  /** The list shown is the matching rows below the cursor, newest first. */
  lemma {:induction false} BelowExactly(rows: seq<Row>, matches: Row -> bool, before: Option<nat>, row: Row)
    requires forall i, j :: 0 <= i < j < |rows| ==> rows[i].sequence < rows[j].sequence
    ensures row in Below(rows, matches, before) <==>
            row in rows && matches(row) && (before.Some? ==> row.sequence < before.value)
    ensures var all := Below(rows, matches, before);
            forall i, j :: 0 <= i < j < |all| ==> all[i].sequence > all[j].sequence
    decreases |rows|
  {
    if rows != [] {
      BelowExactly(rows[1..], matches, before, row);
      var rest := Below(rows[1..], matches, before);
      assert rows == [rows[0]] + rows[1..];
      forall k | 0 <= k < |rest| ensures rest[k].sequence > rows[0].sequence {
        BelowMember(rows[1..], matches, before, k);
        var i :| 0 <= i < |rows[1..]| && rows[1..][i] == rest[k];
        assert rows[i + 1] == rest[k];
      }
    }
  }

  /** Paging shows every matching row once, newest first, and then stops. */
  lemma {:induction false} PagesShowAll(rows: seq<Row>, matches: Row -> bool, before: Option<nat>, limit: nat,
                                        fuel: nat)
    requires limit > 0 && |Below(rows, matches, before)| <= fuel
    requires forall i, j :: 0 <= i < j < |rows| ==> rows[i].sequence < rows[j].sequence
    ensures AllPages(rows, matches, before, limit, fuel) == Below(rows, matches, before)
    decreases fuel
  {
    hide Below;
    var all := Below(rows, matches, before);
    PageIs(rows, matches, before, limit);
    hide Query;
    if |all| > limit {
      var page := Query(rows, matches, before, limit);
      assert page.rows[limit - 1] == all[limit - 1];
      var cursor := Some(all[limit - 1].sequence);
      BelowCursor(rows, matches, before, limit - 1);
      PagesShowAll(rows, matches, cursor, limit, fuel - 1);
      assert all[..limit] + all[limit..] == all;
    }
  }
}
