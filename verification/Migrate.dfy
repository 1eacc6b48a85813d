/** The migration runner: one transaction per file, recorded under a primary key. */
module Migrate {
  import opened Events
  import opened Ordering

  datatype Script = Script(name: string, sql: string)

  /** How one transaction goes: the SQL fails, or it reaches the commit. */
  datatype TxFate = SqlFails | Commit(fate: CallFate)

  /** How reading schema_migrations goes: it cannot be created or queried, or a row does not scan, either
      of which ends the run; or the cursor stops after so many rows, for whatever reason. */
  datatype Load = NotOpened | ScanFails(at: nat) | Delivered(rows: nat)

  // ---- File names in order ----

  /** Go's string order. */
  predicate Less(a: string, b: string) {
    b != "" && (a == "" || a[0] < b[0] || (a[0] == b[0] && Less(a[1..], b[1..])))
  }

  lemma {:induction false} LessIsStrict(a: string, b: string, c: string)
    ensures !Less(a, a)
    ensures a != b ==> Less(a, b) || Less(b, a)
    ensures Less(a, b) && Less(b, c) ==> Less(a, c)
    decreases |a| + |b| + |c|
  {
    if a != "" && b != "" {
      LessIsStrict(a[1..], b[1..], if c == "" then "" else c[1..]);
      assert a == [a[0]] + a[1..] && b == [b[0]] + b[1..];
    } else if a != "" {
      LessIsStrict(a[1..], "", "");
    }
  }

  lemma DifferShift(a: string, b: string, i: int)
    requires a != "" && b != "" && a[0] == b[0]
    ensures Differ(a, b, i + 1) <==> Differ(a[1..], b[1..], i)
    ensures !Differ(a, b, 0)
  {
    if 0 <= i < |a| - 1 && i < |b| - 1 {
      assert a[..i + 1] == [a[0]] + a[1..][..i] && b[..i + 1] == [b[0]] + b[1..][..i];
      assert a[..i + 1][1..] == a[1..][..i] && b[..i + 1][1..] == b[1..][..i];
    }
  }

  ghost predicate SmallerAt(a: string, b: string, i: int) {
    Differ(a, b, i) && a[i] < b[i]
  }

  lemma PrefixShift(a: string, b: string)
    requires a != "" && b != "" && a[0] == b[0]
    ensures a < b <==> a[1..] < b[1..]
  {
    assert a == [a[0]] + a[1..] && b == [b[0]] + b[1..];
    if a[1..] < b[1..] {
      assert b[..|a|] == [b[0]] + b[1..][..|a| - 1];
    }
    if a < b {
      assert b[1..][..|a| - 1] == b[..|a|][1..];
    }
  }

  lemma SmallerShift(a: string, b: string)
    requires a != "" && b != "" && a[0] == b[0]
    ensures (exists i :: SmallerAt(a, b, i)) <==> exists i :: SmallerAt(a[1..], b[1..], i)
  {
    if i :| SmallerAt(a, b, i) {
      DifferShift(a, b, i - 1);
      assert SmallerAt(a[1..], b[1..], i - 1);
    }
    if i :| SmallerAt(a[1..], b[1..], i) {
      DifferShift(a, b, i);
      assert SmallerAt(a, b, i + 1);
    }
  }

  /** Said without recursion: `a` is a beginning of `b`, or has the smaller character where they first differ. */
  lemma {:induction false} LessMeans(a: string, b: string)
    ensures Less(a, b) <==> a < b || exists i :: SmallerAt(a, b, i)
    decreases |a|
  {
    if a != "" && b != "" {
      if a[0] == b[0] {
        LessMeans(a[1..], b[1..]);
        PrefixShift(a, b);
        SmallerShift(a, b);
      } else {
        HeadsDiffer(a, b);
      }
    }
  }

  lemma HeadsDiffer(a: string, b: string)
    requires a != "" && b != "" && a[0] != b[0]
    ensures forall i :: Differ(a, b, i) <==> i == 0
    ensures (exists i :: SmallerAt(a, b, i)) <==> a[0] < b[0]
  {
    forall i | 0 < i < |a| && i < |b| ensures a[..i] != b[..i] {
      assert a[..i][0] == a[0] && b[..i][0] == b[0];
    }
    assert Differ(a, b, 0);
    if a[0] < b[0] { assert SmallerAt(a, b, 0); }
  }

  ghost predicate Differ(a: string, b: string, i: int) {
    0 <= i < |a| && i < |b| && a[..i] == b[..i] && a[i] != b[i]
  }

  predicate ByName(a: Script, b: Script) { Less(a.name, b.name) }

  ghost predicate DistinctNames(files: set<Script>) {
    forall a, b | a in files && b in files && a.name == b.name :: a == b
  }

  lemma FilesOrdered(files: set<Script>)
    requires DistinctNames(files)
    ensures Orders(ByName, files)
  {
    forall x, y, z | x in files && y in files && z in files
      ensures !ByName(x, x)
      ensures x != y ==> ByName(x, y) || ByName(y, x)
      ensures ByName(x, y) && ByName(y, z) ==> ByName(x, z)
    {
      LessIsStrict(x.name, y.name, z.name);
    }
  }

  predicate IsSql(name: string) {
    |name| >= 4 && name[|name| - 4..] == ".sql"
  }

  function SqlFiles(entries: set<Script>): set<Script> {
    set s | s in entries && IsSql(s.name)
  }

  /** The embedded migrations in the order they run. */
  function InOrder(files: set<Script>): (r: seq<Script>)
    requires DistinctNames(files)
    ensures Lists(r, files) && Sorted(ByName, r)
  {
    FilesOrdered(files);
    Arrange(ByName, files)
  }

  // ---- The database ----

  /** What is committed: the rows of schema_migrations and, behind each, the script that ran. */
  datatype Db = Db(table: seq<string>, history: seq<Script>)

  ghost predicate Consistent(db: Db) {
    && |db.table| == |db.history|
    && (forall i | 0 <= i < |db.table| :: db.table[i] == db.history[i].name)
    && (forall i, j | 0 <= i < j < |db.table| :: db.table[i] != db.table[j])
  }

  /** The SQL and the row commit together, or neither does. */
  function Recorded(db: Db, s: Script): Db {
    Db(db.table + [s.name], db.history + [s])
  }

  function ApplyOne(db: Db, s: Script, fate: TxFate): (r: (Db, bool))
    ensures Consistent(db) ==> Consistent(r.0)
    ensures r.1 ==> s in r.0.history
  {
    if fate.SqlFails? || s.name in db.table || fate.fate.NotApplied? then (db, false)
    else (Recorded(db, s), fate.fate.Answered?)
  }

  /** The files a database still lacks, in order. */
  function Pending(files: seq<Script>, table: seq<string>): (r: seq<Script>) {
    if files == [] then []
    else Pending(files[..|files| - 1], table)
         + if files[|files| - 1].name in table then [] else [files[|files| - 1]]
  }

  lemma {:induction false} PendingGrows(files: seq<Script>, n: nat, table: seq<string>)
    requires n <= |files|
    ensures Pending(files[..n], table) <= Pending(files, table)
    decreases |files|
  {
    if n < |files| {
      assert files[..|files| - 1][..n] == files[..n];
      PendingGrows(files[..|files| - 1], n, table);
    } else {
      assert files[..n] == files;
    }
  }

  lemma {:induction false} PendingMeans(files: seq<Script>, table: seq<string>)
    ensures forall s :: s in Pending(files, table) <==> s in files && s.name !in table
    decreases |files|
  {
    if files != [] {
      PendingMeans(files[..|files| - 1], table);
      assert files == files[..|files| - 1] + [files[|files| - 1]];
    }
  }

  /** A run that began on `db0` has dealt with the first `i` files. */
  ghost predicate Ran(db0: Db, db: Db, files: seq<Script>, i: nat)
    requires i <= |files|
  {
    && Consistent(db0) && Consistent(db)
    && db.history == db0.history + Pending(files[..i], db0.table)
  }

  lemma TableSoFar(db0: Db, db: Db, files: seq<Script>, i: nat)
    requires i < |files| && Sorted(ByName, files) && Ran(db0, db, files, i)
    ensures files[i].name in db.table <==> files[i].name in db0.table
  {
    var name, done := files[i].name, Pending(files[..i], db0.table);
    PendingMeans(files[..i], db0.table);
    NotYet(files, i);
    forall k | 0 <= k < |db0.table| ensures db.table[k] == db0.table[k] {
      assert db.history[k] == db0.history[k];
    }
    forall k | |db0.table| <= k < |db.table| ensures db.table[k] != name {
      assert db.history[k] == done[k - |db0.table|];
      assert done[k - |db0.table|] in done;
    }
  }

  lemma RanStep(db0: Db, db: Db, files: seq<Script>, i: nat)
    requires i < |files| && Sorted(ByName, files) && Ran(db0, db, files, i)
    ensures files[i].name in db.table <==> files[i].name in db0.table
    ensures files[i].name in db0.table ==> Ran(db0, db, files, i + 1)
    ensures files[i].name !in db0.table ==> Ran(db0, Recorded(db, files[i]), files, i + 1)
  {
    assert files[..i + 1][..i] == files[..i];
    assert files[..i + 1][i] == files[i];
    TableSoFar(db0, db, files, i);
  }

  function Names(rows: seq<string>): set<string> {
    set n | n in rows
  }

  /** A run gets past a file that it believes to be applied, and otherwise past one that is in fact not
      applied and whose transaction is answered. A file that it wrongly takes to be missing stops it. */
  predicate Passes(s: Script, applied: set<string>, table: seq<string>, fate: TxFate) {
    s.name in applied || (s.name !in table && fate == Commit(Answered))
  }

  /** How far a run gets: to the first file it does not get past. */
  function Reached(files: seq<Script>, applied: set<string>, table: seq<string>, fates: seq<TxFate>, i: nat): (k: nat)
    requires i <= |files| <= |fates|
    ensures i <= k <= |files|
    ensures forall j | i <= j < k :: Passes(files[j], applied, table, fates[j])
    ensures k < |files| ==> !Passes(files[k], applied, table, fates[k])
    decreases |files| - i
  {
    if i == |files| || !Passes(files[i], applied, table, fates[i]) then i
    else Reached(files, applied, table, fates, i + 1)
  }

  /** The file that stops a run has been committed all the same when only the reply was lost. */
  function Stopping(files: seq<Script>, k: nat, table: seq<string>, fates: seq<TxFate>): seq<Script>
    requires k <= |files| <= |fates|
  {
    if k < |files| && files[k].name !in table && fates[k] == Commit(ReplyLost) then [files[k]] else []
  }

  /** What a run takes to be applied, from the rows of the query, when it gets that far. */
  method ReadApplied(rows: seq<string>, load: Load) returns (applied: Option<set<string>>)
    requires load.ScanFails? ==> load.at < |rows|
    requires load.Delivered? ==> load.rows <= |rows|
    ensures applied == if load.Delivered? then Some(Names(rows[..load.rows])) else None
    ensures applied.Some? ==> applied.value <= Names(rows)
  {
    if load.NotOpened? {
      return None;
    }
    var seen: set<string> := {};
    for i := 0 to if load.ScanFails? then load.at else load.rows
      invariant seen == Names(rows[..i])
    {
      seen := seen + {rows[i]};
      assert rows[..i + 1] == rows[..i] + [rows[i]];
    }
    applied := if load.ScanFails? then None else Some(seen);
  }

  class Migrator {
    var table: seq<string>
    var history: seq<Script>

    constructor ()
      ensures table == [] && history == []
    {
      table, history := [], [];
    }

    ghost function Committed(): Db
      reads this
    {
      Db(table, history)
    }

    method ApplyInTransaction(s: Script, fate: TxFate) returns (ok: bool)
      modifies this
      ensures (Committed(), ok) == ApplyOne(old(Committed()), s, fate)
      ensures fate.SqlFails? || s.name in old(table) || fate.fate.NotApplied? ==> Committed() == old(Committed()) && !ok
      ensures !fate.SqlFails? && s.name !in old(table) && !fate.fate.NotApplied? ==>
        history == old(history) + [s] && table == old(table) + [s.name] && (ok <==> fate.fate.Answered?)
    {
      // Both writes go to the transaction's own copy; only the commit publishes them.
      var txHistory, txTable := history, table;
      if fate.SqlFails? {
        return false;
      }
      txHistory := txHistory + [s];
      if s.name in txTable {
        return false;
      }
      txTable := txTable + [s.name];
      if fate.fate.NotApplied? {
        return false;
      }
      history, table := txHistory, txTable;
      ok := fate.fate.Answered?;
    }

    /** The loop over the sorted files; `fates[i]` is what becomes of the transaction for the i-th. */
    method ApplyPending(files: seq<Script>, applied: set<string>, fates: seq<TxFate>) returns (ok: bool)
      requires Consistent(Committed()) && Sorted(ByName, files) && |fates| >= |files|
      requires applied <= Names(table)
      modifies this
      ensures Consistent(Committed())
      ensures var k := Reached(files, applied, old(table), fates, 0);
              && (ok <==> k == |files|)
              && history == old(history) + Pending(files[..k], old(table)) + Stopping(files, k, old(table), fates)
    {
      ghost var db := Committed();
      assert files[..0] == [];
      for i := 0 to |files|
        invariant Ran(db, Committed(), files, i)
        invariant Reached(files, applied, db.table, fates, 0) == Reached(files, applied, db.table, fates, i)
      {
        RanStep(db, Committed(), files, i);
        if files[i].name in applied {
          continue;
        }
        var done := ApplyInTransaction(files[i], fates[i]);
        if !done {
          return false;
        }
      }
      ok := true;
    }

    /** One run. The query gives `rows`, the names of the table in the order of the database's collation; what
        `load` leaves unread of them goes unnoticed. The run gets to the first file that stops it. */
    method Run(entries: set<Script>, rows: seq<string>, load: Load, fates: seq<TxFate>) returns (ok: bool)
      requires Consistent(Committed())
      requires DistinctNames(entries)
      requires |rows| == |table| && Names(rows) == Names(table)
      requires load.ScanFails? ==> load.at < |rows|
      requires load.Delivered? ==> load.rows <= |rows|
      requires |fates| >= |entries|
      modifies this
      ensures Consistent(Committed())
      ensures |InOrder(SqlFiles(entries))| <= |fates|
      ensures RunMeans(InOrder(SqlFiles(entries)), rows, load, fates, old(Committed()), Committed(), ok)
      // Which files those are, and what success means for them.
      ensures forall i | |old(history)| <= i < |history| ::
        history[i] in entries && HasEnding(history[i].name, ".sql")
      ensures ok ==> forall s | s in entries && HasEnding(s.name, ".sql") :: s.name in table
    {
      FilesFit(entries);
      var applied := ReadApplied(rows, load);
      if applied.None? {
        return false;
      }
      var files := InOrder(SqlFiles(entries));
      ok := ApplyPending(files, applied.value, fates);
      RanAsMeant(files, rows, load, fates, old(Committed()), Committed(), ok);
      OnlySql(entries, old(Committed()), Committed(), files);
      if ok {
        AllSql(entries, old(Committed()), Committed(), files);
      }
    }
  }

  /** What a run over the sorted `files` does to the database. */
  ghost predicate RunMeans(files: seq<Script>, rows: seq<string>, load: Load, fates: seq<TxFate>,
                           before: Db, after: Db, ok: bool)
    requires |files| <= |fates| && (load.Delivered? ==> load.rows <= |rows|)
  {
    if !load.Delivered? then !ok && after == before
    else
      var k := Reached(files, Names(rows[..load.rows]), before.table, fates, 0);
      var todo := Pending(files, before.table);
      && (ok <==> k == |files|)
      && after.history == before.history + Pending(files[..k], before.table) + Stopping(files, k, before.table, fates)
      && before.history <= after.history <= before.history + todo
      && (ok ==> after.history == before.history + todo)
  }

  /** strings.HasSuffix, said by what comes before. */
  ghost predicate HasEnding(name: string, ending: string) {
    exists stem: string :: name == stem + ending
  }

  lemma SqlMeans(name: string)
    ensures IsSql(name) <==> HasEnding(name, ".sql")
  {
    if IsSql(name) {
      assert name == name[..|name| - 4] + ".sql";
    }
    if stem: string :| name == stem + ".sql" {
      assert name[|stem|..] == ".sql";
    }
  }

  /** What a run has added are entries with the ending. */
  lemma OnlySql(entries: set<Script>, before: Db, after: Db, files: seq<Script>)
    requires Lists(files, SqlFiles(entries))
    requires before.history <= after.history <= before.history + Pending(files, before.table)
    ensures forall i | |before.history| <= i < |after.history| ::
      after.history[i] in entries && HasEnding(after.history[i].name, ".sql")
  {
    var todo := Pending(files, before.table);
    PendingMeans(files, before.table);
    forall i | |before.history| <= i < |after.history|
      ensures after.history[i] in entries && HasEnding(after.history[i].name, ".sql")
    {
      var s := todo[i - |before.history|];
      assert after.history[i] == (before.history + todo)[i] == s;
      assert s in todo && s in SqlFiles(entries);
      SqlMeans(s.name);
    }
  }

  /** After all that was missing has been added, every entry with the ending is in the table. */
  lemma AllSql(entries: set<Script>, before: Db, after: Db, files: seq<Script>)
    requires Lists(files, SqlFiles(entries)) && Consistent(before) && Consistent(after)
    requires after.history == before.history + Pending(files, before.table)
    ensures forall s | s in entries && HasEnding(s.name, ".sql") :: s.name in after.table
  {
    var todo := Pending(files, before.table);
    PendingMeans(files, before.table);
    forall s | s in entries && HasEnding(s.name, ".sql") ensures s.name in after.table {
      SqlMeans(s.name);
      assert s in files;
      if s.name in before.table {
        var i :| 0 <= i < |before.table| && before.table[i] == s.name;
        assert after.history[i] == before.history[i];
        assert after.table[i] == s.name;
      } else {
        var i :| 0 <= i < |todo| && todo[i] == s;
        assert after.history[|before.history| + i] == s;
        assert after.table[|before.history| + i] == s.name;
      }
    }
  }

  lemma RanAsMeant(files: seq<Script>, rows: seq<string>, load: Load, fates: seq<TxFate>,
                   before: Db, after: Db, ok: bool)
    requires |files| <= |fates| && load.Delivered? && load.rows <= |rows|
    requires var k := Reached(files, Names(rows[..load.rows]), before.table, fates, 0);
      && (ok <==> k == |files|)
      && after.history == before.history + Pending(files[..k], before.table) + Stopping(files, k, before.table, fates)
    ensures RunMeans(files, rows, load, fates, before, after, ok)
  {
    var k := Reached(files, Names(rows[..load.rows]), before.table, fates, 0);
    var done := Pending(files[..k], before.table) + Stopping(files, k, before.table, fates);
    StopsOnTheWay(files, k, before.table, fates);
    assert after.history == before.history + done;
  }

  lemma {:induction false} PendingSnoc(files: seq<Script>, k: nat, table: seq<string>)
    requires k < |files|
    ensures Pending(files[..k + 1], table) ==
      Pending(files[..k], table) + if files[k].name in table then [] else [files[k]]
  {
    assert files[..k + 1][..k] == files[..k];
  }

  /** A run has done an initial part of what was missing. */
  lemma StopsOnTheWay(files: seq<Script>, k: nat, table: seq<string>, fates: seq<TxFate>)
    requires k <= |files| <= |fates|
    ensures Pending(files[..k], table) + Stopping(files, k, table, fates) <= Pending(files, table)
    ensures k == |files| ==> Pending(files[..k], table) + Stopping(files, k, table, fates) == Pending(files, table)
  {
    PendingGrows(files, k, table);
    if k < |files| {
      PendingSnoc(files, k, table);
      PendingGrows(files, k + 1, table);
    } else {
      assert files[..k] == files;
    }
  }

  lemma NotYet(files: seq<Script>, i: nat)
    requires i < |files| && Sorted(ByName, files)
    ensures forall k | 0 <= k < i :: files[k].name != files[i].name
  {
    forall k | 0 <= k < i ensures files[k].name != files[i].name {
      assert ByName(files[k], files[i]);
      LessIsStrict(files[i].name, "", "");
    }
  }

  lemma FilesFit(entries: set<Script>)
    requires DistinctNames(entries)
    ensures |InOrder(SqlFiles(entries))| <= |entries|
  {
    var files := SqlFiles(entries);
    FilesOrdered(files);
    assert entries == files + (entries - files);
  }

  /** The same said of the loop alone: where the run has stopped, what it has left, and why. */
  lemma RunTells(files: seq<Script>, rows: seq<string>, fates: seq<TxFate>, n: nat, before: Db, after: Db, ok: bool)
    requires |files| <= |fates| && n <= |rows|
    requires RunMeans(files, rows, Delivered(n), fates, before, after, ok)
    ensures ok <==> forall i | 0 <= i < |files| ::
              files[i].name in rows[..n] || (files[i].name !in before.table && fates[i] == Commit(Answered))
    ensures !ok ==>
      exists k | 0 <= k < |files| ::
        && files[k].name !in rows[..n]
        && (files[k].name in before.table || fates[k] != Commit(Answered))
        && after.history == before.history + Pending(files[..k], before.table)
             + (if files[k].name !in before.table && fates[k] == Commit(ReplyLost) then [files[k]] else [])
  {
    var k := Reached(files, Names(rows[..n]), before.table, fates, 0);
    assert forall i | 0 <= i < |files| ::
      Passes(files[i], Names(rows[..n]), before.table, fates[i]) <==>
        files[i].name in rows[..n] || (files[i].name !in before.table && fates[i] == Commit(Answered));
    if !ok {
      assert files[k].name !in Names(rows[..n]);
    }
  }

  // ---- Resuming after new files were added ----

  lemma {:induction false} PendingSorted(files: seq<Script>, table: seq<string>)
    requires Sorted(ByName, files)
    ensures Sorted(ByName, Pending(files, table))
    decreases |files|
  {
    if files != [] {
      var n := |files| - 1;
      PendingSorted(files[..n], table);
      PendingMeans(files[..n], table);
      var front := Pending(files[..n], table);
      forall i | 0 <= i < |front| ensures ByName(front[i], files[n]) {
        assert front[i] in front;
      }
    }
  }

  lemma SortedConcat(a: seq<Script>, b: seq<Script>)
    ensures Sorted(ByName, a + b) <==>
      Sorted(ByName, a) && Sorted(ByName, b) && forall x, y | x in a && y in b :: ByName(x, y)
  {
    var q := a + b;
    assert forall i | 0 <= i < |a| :: q[i] == a[i];
    assert forall i | 0 <= i < |b| :: q[|a| + i] == b[i];
    if Sorted(ByName, q) {
      forall x, y | x in a && y in b ensures ByName(x, y) {
        var i :| 0 <= i < |a| && a[i] == x;
        var j :| 0 <= j < |b| && b[j] == y;
        assert ByName(q[i], q[|a| + j]);
      }
    } else if Sorted(ByName, a) && Sorted(ByName, b) {
      var i, j :| 0 <= i < j < |q| && !ByName(q[i], q[j]);
      assert i < |a| <= j;
      assert a[i] in a && b[j - |a|] in b;
    }
  }

  /** What a successful run leaves is the uninterrupted order exactly when what had been applied was
      in order and every file still missing sorts after all of it. Otherwise each file has still run,
      once, but not in the order a fresh database would run them. */
  lemma ResumeIff(files: set<Script>, db: Db)
    requires DistinctNames(files) && Consistent(db) && forall s | s in db.history :: s in files
    ensures db.history + Pending(InOrder(files), db.table) == InOrder(files)
       <==> && Sorted(ByName, db.history)
            && forall h, f | h in db.history && f in files && f.name !in db.table :: ByName(h, f)
  {
    var order := InOrder(files);
    var todo := Pending(order, db.table);
    PendingMeans(order, db.table);
    PendingSorted(order, db.table);
    FilesOrdered(files);
    SortedConcat(db.history, todo);
    ListsAll(files, db, order);
    assert forall f :: f in todo <==> f in files && f.name !in db.table;
    if Sorted(ByName, db.history + todo) {
      SortedUnique(ByName, files, db.history + todo, order);
    }
  }

  lemma ListsAll(files: set<Script>, db: Db, order: seq<Script>)
    requires DistinctNames(files) && Consistent(db) && Lists(order, files) && forall s | s in db.history :: s in files
    ensures Lists(db.history + Pending(order, db.table), files)
  {
    PendingMeans(order, db.table);
    forall s | s in files && s.name in db.table ensures s in db.history {
      var i :| 0 <= i < |db.table| && db.table[i] == s.name;
      assert db.history[i] in db.history && db.history[i].name == s.name;
    }
  }

  // ---- Several runners at once ----

  /** A runner between two files: `applied` is what it read at the start. */
  datatype Runner = Runner(files: seq<Script>, applied: set<string>, next: nat)
  datatype World = World(db: Db, runners: map<nat, Runner>)
  datatype Move = Start(id: nat, files: seq<Script>, seen: set<string>) | Advance(id: nat, fate: TxFate) | Kill(id: nat)

  const EMPTY_WORLD := World(Db([], []), map[])

  /** One move; a move that is not possible changes nothing. A runner that fails is gone. */
  function Play(w: World, m: Move): World {
    match m
    case Start(id, files, seen) =>
      if id !in w.runners && (forall n | n in seen :: n in w.db.table)
      then w.(runners := w.runners[id := Runner(files, seen, 0)]) else w
    case Kill(id) => w.(runners := w.runners - {id})
    case Advance(id, fate) =>
      if id !in w.runners || w.runners[id].next >= |w.runners[id].files| then w
      else
        var r := w.runners[id];
        var s := r.files[r.next];
        if s.name in r.applied then w.(runners := w.runners[id := r.(next := r.next + 1)])
        else
          var (db, ok) := ApplyOne(w.db, s, fate);
          World(db, if ok then w.runners[id := r.(next := r.next + 1)] else w.runners - {id})
  }

  function PlayAll(w: World, moves: seq<Move>): World {
    if moves == [] then w else Play(PlayAll(w, moves[..|moves| - 1]), moves[|moves| - 1])
  }

  /** What a runner has passed is in the table, and so is all it believed to be there. */
  ghost predicate Honest(db: Db, r: Runner) {
    && (forall n | n in r.applied :: n in db.table)
    && r.next <= |r.files|
    && forall k | 0 <= k < r.next :: r.files[k].name in db.table
  }

  /** The world between two moves. */
  ghost predicate Sound(w: World) {
    Consistent(w.db) && forall id | id in w.runners :: Honest(w.db, w.runners[id])
  }

  lemma HonestLater(db: Db, later: Db, r: Runner)
    requires Honest(db, r) && db.table <= later.table
    ensures Honest(later, r)
  {
  }

  lemma HonestAdvance(db: Db, r: Runner, fate: TxFate)
    requires Honest(db, r) && r.next < |r.files|
    ensures r.files[r.next].name in r.applied ==> Honest(db, r.(next := r.next + 1))
    ensures var (later, ok) := ApplyOne(db, r.files[r.next], fate);
            db.table <= later.table && (ok ==> Honest(later, r.(next := r.next + 1)))
  {
  }

  lemma SoundStep(w: World, m: Move)
    requires Sound(w)
    ensures Sound(Play(w, m))
  {
    var after := Play(w, m);
    if m.Advance? && m.id in w.runners && w.runners[m.id].next < |w.runners[m.id].files| {
      HonestAdvance(w.db, w.runners[m.id], m.fate);
    }
    forall id | id in after.runners ensures Honest(after.db, after.runners[id]) {
      if id in w.runners { HonestLater(w.db, after.db, w.runners[id]); }
    }
  }

  /** Over any interleaving of any number of runs that fail anywhere, no file's SQL is committed twice,
      each commit has its row, and a runner that has come to its end leaves every one of its files applied. */
  lemma {:induction false} ExactlyOnce(moves: seq<Move>)
    ensures var w := PlayAll(EMPTY_WORLD, moves);
      && Consistent(w.db)
      && (forall id | id in w.runners :: Honest(w.db, w.runners[id]))
    decreases |moves|
  {
    if moves != [] {
      ExactlyOnce(moves[..|moves| - 1]);
      SoundStep(PlayAll(EMPTY_WORLD, moves[..|moves| - 1]), moves[|moves| - 1]);
    }
  }

  /** Every run belongs to a release, and each release only adds files at the end of the list `all`. */
  ghost predicate Releases(moves: seq<Move>, all: seq<Script>) {
    forall m | m in moves && m.Start? :: m.files <= all
  }

  /** Then the committed schema is always that of a prefix of the list, whatever failed and whoever ran
      at the same time; and once a runner has finished the whole list, it is that of the list. */
  lemma {:induction false} AlwaysPrefix(moves: seq<Move>, all: seq<Script>)
    requires Sorted(ByName, all) && Releases(moves, all)
    ensures var w := PlayAll(EMPTY_WORLD, moves);
      && w.db.history <= all
      && (forall id | id in w.runners :: w.runners[id].files <= all)
      && (forall id | id in w.runners && w.runners[id].files == all && w.runners[id].next == |all| ::
            w.db.history == all)
    decreases |moves|
  {
    if moves != [] {
      var n := |moves| - 1;
      AlwaysPrefix(moves[..n], all);
      ExactlyOnce(moves[..n]);
      ExactlyOnce(moves);
      var w := PlayAll(EMPTY_WORLD, moves[..n]);
      var m := moves[n];
      assert m in moves;
      if m.Advance? && m.id in w.runners && w.runners[m.id].next < |w.runners[m.id].files| {
        var r := w.runners[m.id];
        if r.files[r.next].name !in w.db.table {
          NextIsNext(w.db, r, all);
        }
      }
      var after := Play(w, m);
      forall id | id in after.runners && after.runners[id].files == all && after.runners[id].next == |all|
        ensures after.db.history == all
      {
        AllThere(after.db, after.runners[id], all);
      }
    }
  }

  lemma NextIsNext(db: Db, r: Runner, all: seq<Script>)
    requires Sorted(ByName, all) && Consistent(db) && db.history <= all && r.files <= all
    requires Honest(db, r) && r.next < |r.files| && r.files[r.next].name !in db.table
    ensures db.history + [r.files[r.next]] <= all
  {
    assert r.files[r.next] == all[r.next];
    assert forall k | 0 <= k < |db.table| :: db.table[k] == all[k].name;
    forall k | 0 <= k < |db.table| ensures db.table[k] != r.files[r.next].name {
      assert db.table[k] in db.table;
    }
    if |db.table| < r.next {
      NamePlace(db, r.files[|db.table|], all, |db.table|);
    }
  }

  /** A name of the list that is in the table stands, in the table, where it stands in the list. */
  lemma NamePlace(db: Db, s: Script, all: seq<Script>, k: nat)
    requires Sorted(ByName, all) && Consistent(db) && db.history <= all
    requires k < |all| && all[k] == s && s.name in db.table
    ensures k < |db.table|
  {
    var j :| 0 <= j < |db.table| && db.table[j] == s.name;
    assert all[j].name == s.name;
    NamesDiffer(all);
    assert j == k;
  }

  lemma NamesDiffer(files: seq<Script>)
    requires Sorted(ByName, files)
    ensures forall i, j | 0 <= i < j < |files| :: files[i].name != files[j].name
  {
    forall i, j | 0 <= i < j < |files| ensures files[i].name != files[j].name {
      NotYet(files, j);
    }
  }

  lemma AllThere(db: Db, r: Runner, all: seq<Script>)
    requires Sorted(ByName, all) && Consistent(db) && db.history <= all
    requires Honest(db, r) && r.files == all && r.next == |all|
    ensures db.history == all
  {
    if |all| > 0 {
      var k := |all| - 1;
      assert all[k].name in db.table;
      NamePlace(db, all[k], all, k);
    }
  }

  // ---- What can go wrong ----

  lemma PlayTwo(front: seq<Move>, m: Move, n: Move)
    ensures PlayAll(EMPTY_WORLD, front + [m, n]) == Play(Play(PlayAll(EMPTY_WORLD, front), m), n)
  {
    var all := front + [m, n];
    assert all[..|all| - 1] == front + [m];
    assert (front + [m])[..|front|] == front;
  }

  /** The first release, of one file, goes through. */
  function FirstRelease(s: Script): seq<Move> {
    [Start(0, [s], {}), Advance(0, Commit(Answered))]
  }

  lemma FirstReleaseDone(s: Script)
    ensures PlayAll(EMPTY_WORLD, FirstRelease(s)) == World(Db([s.name], [s]), map[0 := Runner([s], {}, 1)])
  {
    PlayTwo([], Start(0, [s], {}), Advance(0, Commit(Answered)));
    assert [] + FirstRelease(s) == FirstRelease(s);
    assert Play(EMPTY_WORLD, Start(0, [s], {})) == World(Db([], []), map[0 := Runner([s], {}, 0)]);
    assert Recorded(Db([], []), s) == Db([s.name], [s]);
  }

  lemma SecondRelease(w: World, files: seq<Script>, seen: set<string>)
    requires 1 !in w.runners && (forall n | n in seen :: n in w.db.table)
    requires files != [] && files[0].name !in seen
    ensures var after := Play(Play(w, Start(1, files, seen)), Advance(1, Commit(Answered)));
      if files[0].name in w.db.table then after.db == w.db && 1 !in after.runners
      else && after.db == Recorded(w.db, files[0])
           && 1 in after.runners && after.runners[1] == Runner(files, seen, 1)
  {
  }

  /** A file that is added before one already applied runs after it, in a second release whose run sees the
      whole table: the history is not that of a fresh database. */
  lemma LateFileRunsOutOfOrder(a: Script, b: Script)
    requires ByName(a, b)
    ensures var w := PlayAll(EMPTY_WORLD,
                             FirstRelease(b) + [Start(1, [a, b], {b.name}), Advance(1, Commit(Answered))]);
      && w.db.history == [b, a]
      && 1 in w.runners
      && Play(w, Advance(1, Commit(Answered))) == w.(runners := w.runners[1 := Runner([a, b], {b.name}, 2)])
    ensures !Sorted(ByName, [b, a])
  {
    LessIsStrict(a.name, b.name, a.name);
    FirstReleaseDone(b);
    PlayTwo(FirstRelease(b), Start(1, [a, b], {b.name}), Advance(1, Commit(Answered)));
    SecondRelease(PlayAll(EMPTY_WORLD, FirstRelease(b)), [a, b], {b.name});
    assert [b] + [a] == [b, a];
    assert [b, a][0] == b && [b, a][1] == a && !ByName(b, a);
  }

  /** A run whose cursor stopped before the row of an applied file is stopped by that file, although every
      transaction it starts is answered. */
  lemma ShortCursorFails(a: Script)
    ensures var w := PlayAll(EMPTY_WORLD, FirstRelease(a) + [Start(1, [a], {}), Advance(1, Commit(Answered))]);
      w.db.history == [a] && 1 !in w.runners
    ensures Reached([a], Names([a.name][..0]), [a.name], [Commit(Answered)], 0) == 0
  {
    FirstReleaseDone(a);
    PlayTwo(FirstRelease(a), Start(1, [a], {}), Advance(1, Commit(Answered)));
    SecondRelease(PlayAll(EMPTY_WORLD, FirstRelease(a)), [a], {});
  }
}
