/** migrations/migrations.go: the runner that applies and reverts migration files, each in
    a transaction of its own, on a connection that may break at any call. A transaction is
    one atomic step: committed, or without effect. */
module Migrations {
  import opened Prelude
  import opened Ddl
  import opened FileOrder

  datatype File = File(version: string, body: seq<Statement>)

  /** The connection answers `calls` server calls and breaks on the next; with `late` that
      call still took effect and only its answer is lost. */
  datatype Line = Line(calls: nat, late: bool)

  function After(line: Line, calls: nat): Line
    requires calls <= line.calls
  {
    Line(line.calls - calls, line.late)
  }

  const BOOK := SchemaMigrations

  function BookColumns(): map<Field, Column>
  {
    map[Version := Column(Text, true), AppliedAt := Column(Timestamptz, true)]
  }

  function CreateBook(ifNotExists: bool): Statement
  {
    CreateTable(BOOK, ifNotExists, BookColumns(), [Version])
  }

  // ------------------------------------------------------------------ the server calls

  function EnsureBook(db: Db): Db
  {
    Exec(db, CreateBook(true)).value
  }

  predicate HasBook(db: Db)
  {
    BOOK in db.tables && db.tables[BOOK].columns == BookColumns() && db.tables[BOOK].key == [Version]
  }

  function Applied(db: Db): Option<set<string>>
  {
    if HasBook(db) then Some(db.tables[BOOK].rows) else None
  }

  /** INSERT INTO schema_migrations: a version recorded already violates the primary key. */
  function Record(db: Db, version: string): Option<Db>
  {
    if HasBook(db) && version !in db.tables[BOOK].rows
    then Some(SetRows(db, BOOK, db.tables[BOOK].rows + {version})) else None
  }

  function Unrecord(db: Db, version: string): Option<Db>
  {
    if HasBook(db) then Some(SetRows(db, BOOK, db.tables[BOOK].rows - {version})) else None
  }

  /** What the transaction of `applyFile` leads to when no call fails. */
  function Applying(db: Db, f: File): Option<Db>
  {
    match Script(db, f.body) case None => None case Some(mid) => Record(mid, f.version)
  }

  /** What the transaction of `revertFile` leads to when no call fails. */
  function Reverting(db: Db, f: File): Option<Db>
  {
    match Unrecord(db, f.version) case None => None case Some(mid) => Script(mid, f.body)
  }

  /** Begin, two statements, commit: four calls. A late break counts on the commit alone. */
  function Transact(db: Db, next: Option<Db>, line: Line): (Db, bool)
  {
    if next.None? then (db, false)
    else if line.calls >= 4 then (next.value, true)
    else (if line.calls == 3 && line.late then next.value else db, false)
  }

  function UpFiles(db: Db, files: seq<File>, applied: set<string>, line: Line): (Db, bool)
    decreases |files|
  {
    if files == [] then (db, true)
    else if files[0].version in applied then UpFiles(db, files[1..], applied, line)
    else
      var (next, ok) := Transact(db, Applying(db, files[0]), line);
      if ok then UpFiles(next, files[1..], applied, After(line, 4)) else (next, false)
  }

  function DownFiles(db: Db, files: seq<File>, applied: set<string>, line: Line): (Db, bool)
    decreases |files|
  {
    if files == [] then (db, true)
    else
      var (f, rest) := (files[|files| - 1], files[..|files| - 1]);
      if f.version !in applied then DownFiles(db, rest, applied, line)
      else
        var (next, ok) := Transact(db, Reverting(db, f), line);
        if ok then DownFiles(next, rest, applied, After(line, 4)) else (next, false)
  }

  function UpAll(db: Db, files: seq<File>, line: Line): (Db, bool)
  {
    if line.calls == 0 then (if line.late then EnsureBook(db) else db, false)
    else if line.calls == 1 || Applied(EnsureBook(db)).None? then (EnsureBook(db), false)
    else UpFiles(EnsureBook(db), files, Applied(EnsureBook(db)).value, After(line, 2))
  }

  function DownAll(db: Db, files: seq<File>, line: Line): (Db, bool)
  {
    if line.calls == 0 then (db, false)
    else if !Taken(db, BOOK) then (db, true)
    else if line.calls == 1 || Applied(db).None? then (db, false)
    else DownFiles(db, files, Applied(db).value, After(line, 2))
  }

  // ------------------------------------------------------------------ a migration plan

  function Names(files: seq<File>): set<string>
  {
    set f | f in files :: f.version
  }

  function Bodies(files: seq<File>): seq<Statement>
  {
    if files == [] then [] else files[0].body + Bodies(files[1..])
  }

  predicate DistinctVersions(files: seq<File>)
  {
    forall i, j :: 0 <= i < j < |files| ==> files[i].version != files[j].version
  }

  predicate SparesBook(files: seq<File>)
  {
    forall f :: f in files ==> Spares(f.body, BOOK)
  }

  /** On a database with the bookkeeping table, `down` takes back what `up` did. */
  ghost predicate Undoes(down: seq<Statement>, up: seq<Statement>)
  {
    forall db: Db {:trigger Script(db, up)} ::
      Wf(db) && BOOK in db.tables && Script(db, up).Some? ==> Script(Script(db, up).value, down) == Some(db)
  }

  /** The first down file ends by dropping the bookkeeping table; this is the rest of it. */
  function Core(downs: seq<File>, i: nat): seq<Statement>
    requires i < |downs|
  {
    if i == 0 && downs[0].body != [] then downs[0].body[..|downs[0].body| - 1] else downs[i].body
  }

  /** Every down file takes back its up file, and no file but the first down file touches
      the bookkeeping table. */
  ghost predicate Paired(ups: seq<File>, downs: seq<File>)
  {
    && |ups| == |downs| > 0
    && DistinctVersions(ups) && SparesBook(ups)
    && downs[0].body == Core(downs, 0) + [DropTable(BOOK)]
    && forall i: nat :: i < |ups| ==> PairedAt(ups, downs, i)
  }

  ghost predicate PairedAt(ups: seq<File>, downs: seq<File>, i: nat)
    requires i < |ups| == |downs|
  {
    && downs[i].version == ups[i].version
    && Spares(Core(downs, i), BOOK)
    && (forall d :: d in Core(downs, i) ==> Drops(d))
    && Undoes(Core(downs, i), ups[i].body)
  }

  // ------------------------------------------------------------------ states of a run

  /** A database that was never migrated. */
  ghost predicate Unmigrated(db: Db)
  {
    Wf(db) && !Taken(db, BOOK)
  }

  /** The first `n` versions are recorded. */
  ghost predicate Recorded(ups: seq<File>, n: nat, db: Db)
    requires n <= |ups|
  {
    HasBook(db) && db.tables[BOOK].rows == Names(ups[..n])
  }

  /** The first `n` versions are recorded, and the schema is the fold of their up files. */
  ghost predicate At(base: Db, ups: seq<File>, n: nat, db: Db)
  {
    && n <= |ups| && Wf(db) && Recorded(ups, n, db)
    && Script(Shape(EnsureBook(base)), Bodies(ups[..n])) == Some(Shape(db))
  }

  /** Nothing of the migrations is left: no bookkeeping table, the schema of `base`. */
  ghost predicate Outside(base: Db, db: Db)
  {
    Unmigrated(db) && Shape(db) == Shape(base)
  }

  /** Where reverting down to `n` versions leads. */
  ghost predicate BackAt(base: Db, ups: seq<File>, n: nat, db: Db)
  {
    if n == 0 then Outside(base, db) else At(base, ups, n, db)
  }

  ghost predicate Sound(base: Db, ups: seq<File>, db: Db)
  {
    Outside(base, db) || exists n: nat :: At(base, ups, n, db)
  }

  // ------------------------------------------------------------------ small facts

  lemma {:induction false} BodiesConcat(a: seq<File>, b: seq<File>)
    ensures Bodies(a + b) == Bodies(a) + Bodies(b)
    decreases |a|
  {
    if a == [] {
      assert a + b == b;
    } else {
      assert (a + b)[0] == a[0] && (a + b)[1..] == a[1..] + b;
      BodiesConcat(a[1..], b);
    }
  }

  lemma {:induction false} BodiesSpare(files: seq<File>)
    requires SparesBook(files)
    ensures Spares(Bodies(files), BOOK)
    decreases |files|
  {
    if files != [] {
      BodiesSpare(files[1..]);
    }
  }

  /** One more file: its version is new, and its body comes last. */
  lemma OneMoreFile(files: seq<File>, n: nat)
    requires n < |files| && DistinctVersions(files)
    ensures Names(files[..n + 1]) == Names(files[..n]) + {files[n].version}
    ensures files[n].version !in Names(files[..n])
    ensures Names(files[..n]) == Names(files[..n + 1]) - {files[n].version}
    ensures Bodies(files[..n + 1]) == Bodies(files[..n]) + files[n].body
  {
    assert files[..n + 1] == files[..n] + [files[n]];
    BodiesConcat(files[..n], [files[n]]);
    assert Bodies([files[n]]) == files[n].body + Bodies([]);
  }

  lemma Later(files: seq<File>, n: nat, j: nat)
    requires n <= j < |files| && DistinctVersions(files)
    ensures files[j].version !in Names(files[..n])
  {
  }

  lemma EnsureBookKeepsWf(db: Db)
    requires Wf(db)
    ensures Wf(EnsureBook(db))
    ensures Taken(db, BOOK) ==> EnsureBook(db) == db
    ensures !Taken(db, BOOK) ==> HasBook(EnsureBook(db)) && EnsureBook(db).tables[BOOK].rows == {}
    ensures !Taken(db, BOOK) ==> Shape(EnsureBook(db)) == EnsureBook(Shape(db))
  {
    ExecKeepsWf(db, CreateBook(true));
    if !Taken(db, BOOK) {
      assert Shape(EnsureBook(db)).tables == EnsureBook(Shape(db)).tables;
    }
  }

  /** From an unmigrated database the bookkeeping table alone leads to the empty prefix. */
  lemma FirstContact(base: Db, ups: seq<File>, db: Db)
    requires Unmigrated(base) && Outside(base, db)
    ensures At(base, ups, 0, EnsureBook(db))
  {
    EnsureBookKeepsWf(db);
    EnsureBookKeepsWf(base);
    assert ups[..0] == [];
  }

  // ------------------------------------------------------------------ Up

  lemma {:induction false} UpSkips(db: Db, ups: seq<File>, n: nat, j: nat, line: Line)
    requires j <= n <= |ups|
    ensures UpFiles(db, ups[j..], Names(ups[..n]), line) == UpFiles(db, ups[n..], Names(ups[..n]), line)
    decreases n - j
  {
    if j < n {
      assert ups[j] in ups[..n];
      assert ups[j..][0] == ups[j] && ups[j..][1..] == ups[j + 1..];
      UpSkips(db, ups, n, j + 1, line);
    }
  }

  /** What committing the files from `j` to `m` makes of the database. */
  function Advanced(db: Db, ups: seq<File>, j: nat, m: nat): Option<Db>
    requires j <= m <= |ups|
  {
    match Script(db, Bodies(ups[j..m]))
    case Some(end) => if BOOK in end.tables then Some(SetRows(end, BOOK, Names(ups[..m]))) else None
    case None => None
  }

  lemma AdvanceNone(db: Db, ups: seq<File>, j: nat)
    requires j <= |ups| && Recorded(ups, j, db)
    ensures Advanced(db, ups, j, j) == Some(db)
  {
    assert ups[j..j] == [];
    SetRowsOnlyRows(db, BOOK, {}, {});
  }

  lemma AdvanceOne(db: Db, ups: seq<File>, j: nat)
    requires j < |ups| && DistinctVersions(ups) && SparesBook(ups) && Recorded(ups, j, db)
    ensures Applying(db, ups[j]) == Advanced(db, ups, j, j + 1)
    ensures Applying(db, ups[j]).Some? == Script(db, ups[j].body).Some?
    ensures Applying(db, ups[j]).Some? ==> Recorded(ups, j + 1, Applying(db, ups[j]).value)
  {
    OneMoreFile(ups, j);
    assert ups[j..j + 1] == [ups[j]] && Bodies([ups[j]]) == ups[j].body + Bodies([]) == ups[j].body;
    SparedRows(db, ups[j].body, BOOK, {});
  }

  /** One committed file, then the files after it. */
  lemma AdvanceStep(db: Db, ups: seq<File>, j: nat, m: nat)
    requires j < m <= |ups| && DistinctVersions(ups) && SparesBook(ups) && Recorded(ups, j, db)
    ensures Advanced(db, ups, j, m)
         == (match Applying(db, ups[j]) case None => None case Some(next) => Advanced(next, ups, j + 1, m))
  {
    var rest := Bodies(ups[j + 1..m]);
    assert ups[j..m][0] == ups[j] && ups[j..m][1..] == ups[j + 1..m];
    ScriptConcat(db, ups[j].body, rest);
    AdvanceOne(db, ups, j);
    if Script(db, ups[j].body).Some? {
      SparedRows(db, ups[j].body, BOOK, {});
      var mid := Script(db, ups[j].body).value;
      var rows := db.tables[BOOK].rows + {ups[j].version};
      assert Applying(db, ups[j]) == Some(SetRows(mid, BOOK, rows));
      BodiesSpare(ups[j + 1..m]);
      SparedRows(mid, rest, BOOK, rows);
      if Script(mid, rest).Some? {
        SetRowsOnlyRows(Script(mid, rest).value, BOOK, Names(ups[..m]), rows);
      }
    }
  }

  /** A run over the missing files commits some of them, in order, and reports success only
      after the last. With enough calls it succeeds exactly when the remaining scripts do. */
  lemma {:induction false} UpSuffix(ups: seq<File>, n: nat, j: nat, db: Db, line: Line) returns (m: nat)
    requires DistinctVersions(ups) && SparesBook(ups) && n <= j <= |ups|
    requires Recorded(ups, j, db)
    ensures j <= m <= |ups|
    ensures var (end, ok) := UpFiles(db, ups[j..], Names(ups[..n]), line);
            && Advanced(db, ups, j, m) == Some(end)
            && (ok ==> m == |ups|)
            && (line.calls >= 4 * (|ups| - j) ==> ok == Advanced(db, ups, j, |ups|).Some?)
    decreases |ups| - j
  {
    m := j;
    AdvanceNone(db, ups, j);
    if j < |ups| {
      Later(ups, n, j);
      assert ups[j..][0] == ups[j] && ups[j..][1..] == ups[j + 1..];
      var (next, ok) := Transact(db, Applying(db, ups[j]), line);
      AdvanceStep(db, ups, j, |ups|);
      AdvanceOne(db, ups, j);
      if ok {
        m := UpSuffix(ups, n, j + 1, next, After(line, 4));
        AdvanceStep(db, ups, j, m);
      } else if Applying(db, ups[j]).Some? && line.calls == 3 && line.late {
        m := j + 1;
      }
    }
  }

  /** Advancing along the plan advances the prefix. */
  lemma AdvancedAt(base: Db, ups: seq<File>, n: nat, m: nat, db: Db)
    requires At(base, ups, n, db) && SparesBook(ups) && n <= m <= |ups| && Advanced(db, ups, n, m).Some?
    ensures At(base, ups, m, Advanced(db, ups, n, m).value)
  {
    var s := Bodies(ups[n..m]);
    var mid := Script(db, s).value;
    assert ups[..m] == ups[..n] + ups[n..m];
    BodiesConcat(ups[..n], ups[n..m]);
    ScriptConcat(Shape(EnsureBook(base)), Bodies(ups[..n]), s);
    ShapeScript(db, s);
    ScriptKeepsWf(db, s);
    BodiesSpare(ups[n..m]);
    SparedRows(db, s, BOOK, {});
    SetRowsOnlyRows(mid, BOOK, Names(ups[..m]), {});
  }

  /** `Up` on the first `n` versions, however the connection fails: it ends on a longer
      prefix, having run exactly the scripts in between; it succeeds only on the full list,
      and with a working connection exactly when every remaining script does. */
  lemma UpConverges(base: Db, ups: seq<File>, n: nat, db: Db, line: Line) returns (m: nat)
    requires DistinctVersions(ups) && SparesBook(ups) && At(base, ups, n, db)
    ensures n <= m <= |ups|
    ensures var (end, ok) := UpAll(db, ups, line);
            && Advanced(db, ups, n, m) == Some(end) && At(base, ups, m, end)
            && (ok ==> m == |ups|)
            && (line.calls >= 2 + 4 * (|ups| - n) ==> ok == Script(db, Bodies(ups[n..])).Some?)
  {
    m := n;
    EnsureBookKeepsWf(db);
    AdvanceNone(db, ups, n);
    assert ups[0..] == ups;
    if line.calls >= 2 {
      UpSkips(db, ups, n, 0, After(line, 2));
      m := UpSuffix(ups, n, n, db, After(line, 2));
    }
    AdvancedAt(base, ups, n, m, db);
    AdvancedExists(db, ups, n);
  }

  lemma AdvancedExists(db: Db, ups: seq<File>, n: nat)
    requires n <= |ups| && SparesBook(ups) && HasBook(db)
    ensures Advanced(db, ups, n, |ups|).Some? == Script(db, Bodies(ups[n..])).Some?
  {
    assert ups[n..|ups|] == ups[n..];
    BodiesSpare(ups[n..]);
    SparedRows(db, Bodies(ups[n..]), BOOK, {});
  }

  // ------------------------------------------------------------------ Down

  /** Reverting the last recorded version succeeds and gives back the schema before it;
      after the first version the bookkeeping table is gone too. */
  lemma RevertOne(base: Db, ups: seq<File>, downs: seq<File>, n: nat, db: Db)
    requires Unmigrated(base) && Paired(ups, downs) && n < |ups| && At(base, ups, n + 1, db)
    ensures Reverting(db, downs[n]).Some?
    ensures var next := Reverting(db, downs[n]).value;
            BackAt(base, ups, n, next)
  {
    var start, core := Shape(EnsureBook(base)), Core(downs, n);
    var before := Script(start, Bodies(ups[..n]));
    assert PairedAt(ups, downs, n);
    OneMoreFile(ups, n);
    ScriptConcat(start, Bodies(ups[..n]), ups[n].body);
    assert before.Some? && Script(before.value, ups[n].body) == Some(Shape(db));
    FoldSound(base, ups, n);
    assert Script(Shape(db), core) == before;
    var rows := Names(ups[..n]);
    var mid := SetRows(db, BOOK, rows);
    SetRowsOnlyRows(db, BOOK, rows, {});
    assert Unrecord(db, downs[n].version) == Some(mid);
    ShapeScript(mid, core);
    ScriptKeepsWf(mid, core);
    SparedRows(mid, core, BOOK, {});
    var end := Script(mid, core).value;
    assert Shape(end) == before.value && Recorded(ups, n, end);
    if n == 0 {
      LastDrop(base, end);
      ScriptConcat(mid, core, [DropTable(BOOK)]);
      assert ups[..0] == [] && Script(end, [DropTable(BOOK)]) == Exec(end, DropTable(BOOK));
    }
  }

  lemma FoldSound(base: Db, ups: seq<File>, n: nat)
    requires Unmigrated(base) && SparesBook(ups) && n <= |ups|
    requires Script(Shape(EnsureBook(base)), Bodies(ups[..n])).Some?
    ensures var mid := Script(Shape(EnsureBook(base)), Bodies(ups[..n])).value;
            Wf(mid) && BOOK in mid.tables
  {
    var start := Shape(EnsureBook(base));
    EnsureBookKeepsWf(base);
    EnsureBookKeepsWf(Shape(base));
    BodiesSpare(ups[..n]);
    ScriptKeepsWf(start, Bodies(ups[..n]));
    SparedRows(start, Bodies(ups[..n]), BOOK, {});
  }

  lemma LastDrop(base: Db, end: Db)
    requires Unmigrated(base) && Wf(end) && Shape(end) == Shape(EnsureBook(base))
    ensures Exec(end, DropTable(BOOK)).Some? && Outside(base, Exec(end, DropTable(BOOK)).value)
  {
    EnsureBookKeepsWf(base);
    UndoOne(Shape(base), CreateBook(false));
    ShapeOne(end, DropTable(BOOK));
    ExecKeepsWf(end, DropTable(BOOK));
  }

  lemma {:induction false} DownSkips(db: Db, ups: seq<File>, downs: seq<File>, n: nat, j: nat, line: Line)
    requires Paired(ups, downs) && n <= j <= |ups|
    ensures DownFiles(db, downs[..j], Names(ups[..n]), line) == DownFiles(db, downs[..n], Names(ups[..n]), line)
    decreases j
  {
    if n < j {
      assert PairedAt(ups, downs, j - 1);
      Later(ups, n, j - 1);
      assert downs[..j][j - 1] == downs[j - 1] && downs[..j][..j - 1] == downs[..j - 1];
      DownSkips(db, ups, downs, n, j - 1, line);
    }
  }

  /** The walk back, for any family of states that each file takes one step down. */
  lemma {:induction false} DownWalk(at: (nat, Db) -> bool, downs: seq<File>, applied: set<string>, k: nat, db: Db,
                                   line: Line) returns (m: nat)
    requires k <= |downs| && at(k, db) && forall i :: 0 <= i < k ==> downs[i].version in applied
    requires forall i: nat, d {:trigger Reverting(d, downs[i])} :: i < k && at(i + 1, d) ==>
               Reverting(d, downs[i]).Some? && at(i, Reverting(d, downs[i]).value)
    ensures m <= k
    ensures var (end, ok) := DownFiles(db, downs[..k], applied, line);
            at(m, end) && (ok ==> m == 0) && (line.calls >= 4 * k ==> ok)
    decreases k
  {
    m := k;
    if k > 0 {
      assert downs[..k][k - 1] == downs[k - 1] && downs[..k][..k - 1] == downs[..k - 1];
      var (next, ok) := Transact(db, Reverting(db, downs[k - 1]), line);
      if ok {
        m := DownWalk(at, downs, applied, k - 1, next, After(line, 4));
      } else if line.calls == 3 && line.late {
        m := k - 1;
      }
    }
  }

  /** A run back from the first `n` versions stops on a shorter prefix, or outside. */
  lemma DownPrefix(base: Db, ups: seq<File>, downs: seq<File>, n: nat, db: Db, line: Line) returns (m: nat)
    requires Unmigrated(base) && Paired(ups, downs) && n <= |ups| && BackAt(base, ups, n, db)
    ensures m <= n
    ensures var (end, ok) := DownFiles(db, downs[..n], Names(ups[..n]), line);
            BackAt(base, ups, m, end) && (ok ==> m == 0) && (line.calls >= 4 * n ==> ok)
  {
    forall i | 0 <= i < n
      ensures downs[i].version in Names(ups[..n])
    {
      assert PairedAt(ups, downs, i);
      assert ups[i] in ups[..n];
    }
    forall i: nat, d | i < n && BackAt(base, ups, i + 1, d)
      ensures Reverting(d, downs[i]).Some? && BackAt(base, ups, i, Reverting(d, downs[i]).value)
    {
      RevertOne(base, ups, downs, i, d);
    }
    m := DownWalk((i: nat, d) => BackAt(base, ups, i, d), downs, Names(ups[..n]), n, db, line);
  }

  /** `Down` on the first `n` versions, however the connection fails: a shorter prefix, or
      the database without bookkeeping table and without any object of the scripts; and
      that exactly when the connection holds. With nothing recorded, though, the
      bookkeeping table stays. */
  lemma DownRestores(base: Db, ups: seq<File>, downs: seq<File>, n: nat, db: Db, line: Line) returns (m: nat)
    requires Unmigrated(base) && Paired(ups, downs) && At(base, ups, n, db)
    ensures m <= n
    ensures var (end, ok) := DownAll(db, downs, line);
            && (if n > 0 then BackAt(base, ups, m, end) else At(base, ups, 0, end))
            && (ok ==> m == 0)
            && (line.calls >= 2 + 4 * n ==> ok)
  {
    m := n;
    if line.calls >= 2 {
      DownSkips(db, ups, downs, n, |ups|, After(line, 2));
      assert downs[..|ups|] == downs;
      if n > 0 {
        m := DownPrefix(base, ups, downs, n, db, After(line, 2));
      } else {
        assert downs[..0] == [];
      }
    }
  }

  // ------------------------------------------------------------------ whole runs

  datatype Event =
    | RunUp(line: Line)
    | RunDown(line: Line)
    | Write(table: Relation, rows: set<string>) // the stores at work

  function Step(db: Db, ups: seq<File>, downs: seq<File>, e: Event): Db
  {
    match e
    case RunUp(line) => UpAll(db, ups, line).0
    case RunDown(line) => DownAll(db, downs, line).0
    case Write(t, rows) => if t in db.tables && t != BOOK then SetRows(db, t, rows) else db
  }

  function Play(db: Db, ups: seq<File>, downs: seq<File>, es: seq<Event>): Db
    decreases |es|
  {
    if es == [] then db else Play(Step(db, ups, downs, es[0]), ups, downs, es[1..])
  }

  lemma UpFromOutside(base: Db, ups: seq<File>, db: Db, line: Line)
    requires Unmigrated(base) && Outside(base, db) && DistinctVersions(ups) && SparesBook(ups)
    ensures line.calls > 0 ==> UpAll(db, ups, line) == UpAll(EnsureBook(db), ups, line)
    ensures Sound(base, ups, UpAll(db, ups, line).0)
    ensures UpAll(db, ups, line).1 ==> At(base, ups, |ups|, UpAll(db, ups, line).0)
  {
    FirstContact(base, ups, db);
    EnsureBookKeepsWf(EnsureBook(db));
    var m := UpConverges(base, ups, 0, EnsureBook(db), line);
  }

  lemma WriteKeepsPlace(base: Db, ups: seq<File>, n: nat, db: Db, t: Relation, rows: set<string>)
    requires t in db.tables && t != BOOK
    ensures At(base, ups, n, db) ==> At(base, ups, n, SetRows(db, t, rows))
    ensures Outside(base, db) ==> Outside(base, SetRows(db, t, rows))
  {
    SetRowsOnlyRows(db, t, rows, {});
  }

  lemma WriteKeepsSound(base: Db, ups: seq<File>, db: Db, t: Relation, rows: set<string>)
    requires Sound(base, ups, db) && t in db.tables && t != BOOK
    ensures Sound(base, ups, SetRows(db, t, rows))
  {
    if Outside(base, db) {
      WriteKeepsPlace(base, ups, 0, db, t, rows);
    } else {
      var n: nat :| At(base, ups, n, db);
      WriteKeepsPlace(base, ups, n, db, t, rows);
    }
  }

  lemma StepKeepsSound(base: Db, ups: seq<File>, downs: seq<File>, db: Db, e: Event)
    requires Unmigrated(base) && Paired(ups, downs) && Sound(base, ups, db)
    ensures Sound(base, ups, Step(db, ups, downs, e))
    ensures e.RunUp? && UpAll(db, ups, e.line).1 ==> At(base, ups, |ups|, Step(db, ups, downs, e))
    ensures e.RunDown? && DownAll(db, downs, e.line).1 ==>
              Outside(base, Step(db, ups, downs, e)) || At(base, ups, 0, Step(db, ups, downs, e))
  {
    match e
    case Write(t, rows) =>
      if t in db.tables && t != BOOK {
        WriteKeepsSound(base, ups, db, t, rows);
      }
    case RunUp(line) =>
      if Outside(base, db) {
        UpFromOutside(base, ups, db, line);
      } else {
        var n: nat :| At(base, ups, n, db);
        var m := UpConverges(base, ups, n, db, line);
      }
    case RunDown(line) =>
      if !Outside(base, db) {
        var n: nat :| At(base, ups, n, db);
        var m := DownRestores(base, ups, downs, n, db, line);
      }
  }

  /** A second `Up` changes nothing. */
  lemma UpTwice(base: Db, ups: seq<File>, downs: seq<File>, db: Db, line: Line, again: Line)
    requires Unmigrated(base) && Paired(ups, downs) && Sound(base, ups, db)
    requires UpAll(db, ups, line).1 && again.calls >= 2
    ensures UpAll(UpAll(db, ups, line).0, ups, again) == UpAll(db, ups, line)
  {
    var end := UpAll(db, ups, line).0;
    StepKeepsSound(base, ups, downs, db, RunUp(line));
    EnsureBookKeepsWf(end);
    UpSkips(end, ups, |ups|, 0, After(again, 2));
    assert ups[0..] == ups && ups[..|ups|] == ups && ups[|ups|..] == [];
  }

  /** `Up`, then any store writes, then `Down`: nothing of the migrations is left. */
  lemma DownAfterUp(base: Db, ups: seq<File>, downs: seq<File>, db: Db, line: Line, es: seq<Event>, back: Line)
    requires Unmigrated(base) && Paired(ups, downs) && Sound(base, ups, db)
    requires UpAll(db, ups, line).1 && (forall e :: e in es ==> e.Write?)
    ensures var end := DownAll(Play(UpAll(db, ups, line).0, ups, downs, es), downs, back);
            && (back.calls >= 2 + 4 * |ups| ==> end.1)
            && (end.1 ==> Outside(base, end.0))
  {
    var up := UpAll(db, ups, line).0;
    StepKeepsSound(base, ups, downs, db, RunUp(line));
    WritesKeepPlace(base, ups, downs, |ups|, up, es);
    var m := DownRestores(base, ups, downs, |ups|, Play(up, ups, downs, es), back);
  }

  lemma {:induction false} WritesKeepPlace(base: Db, ups: seq<File>, downs: seq<File>, n: nat, db: Db, es: seq<Event>)
    requires At(base, ups, n, db) && forall e :: e in es ==> e.Write?
    ensures At(base, ups, n, Play(db, ups, downs, es))
    decreases |es|
  {
    if es != [] {
      var e := es[0];
      if e.table in db.tables && e.table != BOOK {
        WriteKeepsPlace(base, ups, n, db, e.table, e.rows);
      }
      WritesKeepPlace(base, ups, downs, n, Step(db, ups, downs, e), es[1..]);
    }
  }

  /** Success of `Down` leaves nothing behind exactly when something was recorded. */
  lemma DownLeavesNothingExactlyWhen(base: Db, ups: seq<File>, downs: seq<File>, n: nat, db: Db, line: Line)
    requires Unmigrated(base) && Paired(ups, downs) && At(base, ups, n, db) && DownAll(db, downs, line).1
    ensures Outside(base, DownAll(db, downs, line).0) <==> n > 0
  {
    var m := DownRestores(base, ups, downs, n, db, line);
  }

  /** It happens: an `Up` whose connection breaks after its first call, then `Down`. */
  lemma BookStaysBehind(base: Db, ups: seq<File>, downs: seq<File>, back: Line)
    requires Unmigrated(base) && Paired(ups, downs) && back.calls >= 2
    ensures var (end, ok) := DownAll(UpAll(base, ups, Line(1, false)).0, downs, back); ok && Taken(end, BOOK)
  {
    FirstContact(base, ups, base);
    var m := DownRestores(base, ups, downs, 0, EnsureBook(base), back);
  }

  /** After any history of runs, each interrupted anywhere, and of store writes in
      between, the recorded versions are a prefix and the schema is its fold. */
  lemma {:induction false} HistoryStaysSound(base: Db, ups: seq<File>, downs: seq<File>, db: Db, es: seq<Event>)
    requires Unmigrated(base) && Paired(ups, downs) && Sound(base, ups, db)
    ensures Sound(base, ups, Play(db, ups, downs, es))
    decreases |es|
  {
    if es != [] {
      StepKeepsSound(base, ups, downs, db, es[0]);
      HistoryStaysSound(base, ups, downs, Step(db, ups, downs, es[0]), es[1..]);
    }
  }

  // ------------------------------------------------------------------ the host's tables

  predicate SparesTable(files: seq<File>, t: Relation)
  {
    forall f :: f in files ==> Spares(f.body, t)
  }

  lemma TransactSpares(db: Db, f: File, t: Relation)
    requires t in db.tables && t != BOOK && Spares(f.body, t)
    ensures Applying(db, f).Some? ==>
            t in Applying(db, f).value.tables && Applying(db, f).value.tables[t] == db.tables[t]
    ensures Reverting(db, f).Some? ==>
            t in Reverting(db, f).value.tables && Reverting(db, f).value.tables[t] == db.tables[t]
  {
    SparedRows(db, f.body, t, {});
    if HasBook(db) {
      SparedRows(Unrecord(db, f.version).value, f.body, t, {});
    }
  }

  lemma {:induction false} UpSparesTable(db: Db, files: seq<File>, applied: set<string>, line: Line, t: Relation)
    requires t in db.tables && t != BOOK && SparesTable(files, t)
    ensures var end := UpFiles(db, files, applied, line).0; t in end.tables && end.tables[t] == db.tables[t]
    decreases |files|
  {
    if files != [] {
      TransactSpares(db, files[0], t);
      if files[0].version in applied {
        UpSparesTable(db, files[1..], applied, line, t);
      } else {
        var (next, ok) := Transact(db, Applying(db, files[0]), line);
        if ok {
          UpSparesTable(next, files[1..], applied, After(line, 4), t);
        }
      }
    }
  }

  lemma {:induction false} DownSparesTable(db: Db, files: seq<File>, applied: set<string>, line: Line, t: Relation)
    requires t in db.tables && t != BOOK && SparesTable(files, t)
    ensures var end := DownFiles(db, files, applied, line).0; t in end.tables && end.tables[t] == db.tables[t]
    decreases |files|
  {
    if files != [] {
      var (f, rest) := (files[|files| - 1], files[..|files| - 1]);
      TransactSpares(db, f, t);
      if f.version !in applied {
        DownSparesTable(db, rest, applied, line, t);
      } else {
        var (next, ok) := Transact(db, Reverting(db, f), line);
        if ok {
          DownSparesTable(next, rest, applied, After(line, 4), t);
        }
      }
    }
  }

  /** A table no script names keeps its columns and its rows through every history. */
  lemma {:induction false} HostTablesUntouched(ups: seq<File>, downs: seq<File>, db: Db, es: seq<Event>, t: Relation)
    requires t in db.tables && t != BOOK && SparesTable(ups, t) && SparesTable(downs, t)
    requires forall e :: e in es && e.Write? ==> e.table != t
    ensures var end := Play(db, ups, downs, es); t in end.tables && end.tables[t] == db.tables[t]
    decreases |es|
  {
    if es != [] {
      var next := Step(db, ups, downs, es[0]);
      assert t in next.tables && next.tables[t] == db.tables[t] by {
        match es[0]
        case Write(_, _) =>
        case RunUp(line) =>
          if line.calls >= 2 && HasBook(EnsureBook(db)) {
            UpSparesTable(EnsureBook(db), ups, Applied(EnsureBook(db)).value, After(line, 2), t);
          }
        case RunDown(line) =>
          if line.calls >= 2 && HasBook(db) {
            DownSparesTable(db, downs, Applied(db).value, After(line, 2), t);
          }
      }
      HostTablesUntouched(ups, downs, next, es[1..], t);
    }
  }

  // ------------------------------------------------------------------ the runner

  function Files(names: seq<string>, bodies: map<string, seq<Statement>>): (files: seq<File>)
    requires forall x :: x in names ==> x in bodies
    ensures |files| == |names|
    ensures forall i :: 0 <= i < |files| ==> files[i] == File(VersionOf(names[i]), bodies[names[i]])
  {
    seq(|names|, i requires 0 <= i < |names| => File(VersionOf(names[i]), bodies[names[i]]))
  }

  /** The server runs a body statement by statement and stops at the first error. */
  method RunBody(db: Db, body: seq<Statement>) returns (end: Option<Db>)
    ensures end == Script(db, body)
  {
    var at := db;
    for i := 0 to |body|
      invariant Script(db, body) == Script(at, body[i..])
    {
      assert body[i..][0] == body[i] && body[i..][1..] == body[i + 1..];
      var next := Exec(at, body[i]);
      if next.None? {
        return None;
      }
      at := next.value;
    }
    return Some(at);
  }

  class Migrator {
    const entries: seq<string>
    const bodies: map<string, seq<Statement>>
    var db: Db

    /** The embedded files, each name once. */
    predicate Embedded()
    {
      && (forall i, j :: 0 <= i < j < |entries| ==> entries[i] != entries[j])
      && forall x :: x in entries ==> x in bodies
    }

    constructor (entries: seq<string>, bodies: map<string, seq<Statement>>, db: Db)
      ensures this.entries == entries && this.bodies == bodies && this.db == db
    {
      this.entries := entries;
      this.bodies := bodies;
      this.db := db;
    }

    method ApplyFile(f: File, line: Line) returns (ok: bool)
      modifies this`db
      ensures (db, ok) == Transact(old(db), Applying(old(db), f), line)
    {
      if line.calls < 2 {
        return false;
      }
      var tx := RunBody(db, f.body);
      if tx.None? || line.calls == 2 {
        return false;
      }
      tx := Record(tx.value, f.version);
      if tx.None? {
        return false;
      }
      if line.calls > 3 || line.late {
        db := tx.value;
      }
      return line.calls > 3;
    }

    method RevertFile(f: File, line: Line) returns (ok: bool)
      modifies this`db
      ensures (db, ok) == Transact(old(db), Reverting(old(db), f), line)
    {
      if line.calls < 2 {
        return false;
      }
      var tx := Unrecord(db, f.version);
      if tx.None? || line.calls == 2 {
        return false;
      }
      tx := RunBody(tx.value, f.body);
      if tx.None? {
        return false;
      }
      if line.calls > 3 || line.late {
        db := tx.value;
      }
      return line.calls > 3;
    }

    method Up(line: Line) returns (ok: bool)
      requires Embedded()
      modifies this`db
      ensures forall names :: Listing(names, entries, ".up.sql") ==>
                (db, ok) == UpAll(old(db), Files(names, bodies), line)
    {
      if line.calls > 0 || line.late {
        db := EnsureBook(db);
      }
      var applied := Applied(db);
      if line.calls < 2 || applied.None? {
        return false;
      }
      var names := MigrationFiles(entries, ".up.sql");
      var files, left := Files(names, bodies), After(line, 2);
      forall other | Listing(other, entries, ".up.sql")
        ensures other == names
      {
        ListingUnique(other, names, entries, ".up.sql");
      }
      assert files[0..] == files;
      for i := 0 to |files|
        invariant UpFiles(EnsureBook(old(db)), files, applied.value, After(line, 2)) ==
                  UpFiles(db, files[i..], applied.value, left)
      {
        assert files[i..][0] == files[i] && files[i..][1..] == files[i + 1..];
        if files[i].version !in applied.value {
          ok := ApplyFile(files[i], left);
          if !ok {
            return;
          }
          left := After(left, 4);
        }
      }
      return true;
    }

    method Down(line: Line) returns (ok: bool)
      requires Embedded()
      modifies this`db
      ensures forall names :: Listing(names, entries, ".down.sql") ==>
                (db, ok) == DownAll(old(db), Files(names, bodies), line)
    {
      if line.calls == 0 {
        return false;
      }
      if !Taken(db, BOOK) {
        return true;
      }
      var applied := Applied(db);
      if line.calls == 1 || applied.None? {
        return false;
      }
      var names := MigrationFiles(entries, ".down.sql");
      var files, left := Files(names, bodies), After(line, 2);
      forall other | Listing(other, entries, ".down.sql")
        ensures other == names
      {
        ListingUnique(other, names, entries, ".down.sql");
      }
      assert files[..|files|] == files;
      for i := |files| downto 0
        invariant DownFiles(old(db), files, applied.value, After(line, 2)) ==
                  DownFiles(db, files[..i], applied.value, left)
      {
        assert files[..i + 1][i] == files[i] && files[..i + 1][..i] == files[..i];
        if files[i].version in applied.value {
          ok := RevertFile(files[i], left);
          if !ok {
            return;
          }
          left := After(left, 4);
        }
      }
      return true;
    }
  }
}
