/** Any number of `Up` calls at once on one database, each call of each of them free to
    fail, with the stores at work in between and no `Down`. A migration transaction takes
    effect at its commit, in one step. */
module ConcurrentUp {
  import opened Prelude
  import opened Ddl
  import opened Migrations

  datatype Run =
    | Starting
    | Created // the bookkeeping table exists
    | Running(applied: set<string>, next: nat) // the versions it read, and its place in the list
    | Finished
    | Aborted

  datatype World = World(db: Db, runs: map<nat, Run>)

  datatype Event = Call(id: nat, fate: Fate) | Write(table: Relation, rows: set<string>)

  function RunOf(w: World, id: nat): Run
  {
    if id in w.runs then w.runs[id] else Starting
  }

  function Turn(w: World, id: nat, db: Db, run: Run): World
  {
    World(db, w.runs[id := run])
  }

  /** One run's next call: the world after it, and the version it commits, if any. */
  function Next(w: World, ups: seq<File>, id: nat, fate: Fate): (World, seq<string>)
  {
    match RunOf(w, id)
    case Starting =>
      if fate == Refused then (Turn(w, id, w.db, Aborted), [])
      else (Turn(w, id, EnsureBook(w.db), if fate == Answered then Created else Aborted), [])
    case Created =>
      if fate == Answered && Applied(w.db).Some? then (Turn(w, id, w.db, Running(Applied(w.db).value, 0)), [])
      else (Turn(w, id, w.db, Aborted), [])
    case Running(applied, next) =>
      if next >= |ups| then (Turn(w, id, w.db, Finished), [])
      else if ups[next].version in applied then (Turn(w, id, w.db, Running(applied, next + 1)), [])
      else Attempt(w, id, fate, Applying(w.db, ups[next]), [ups[next].version])
    case Finished => (w, [])
    case Aborted => (w, [])
  }

  /** The transaction that leads to `after`, and commits `version`. */
  function Attempt(w: World, id: nat, fate: Fate, after: Option<Db>, version: seq<string>): (World, seq<string>)
    requires RunOf(w, id).Running?
  {
    if fate == Refused || after.None? then (Turn(w, id, w.db, Aborted), [])
    else
      var run := RunOf(w, id);
      (Turn(w, id, after.value, if fate == Answered then run.(next := run.next + 1) else Aborted), version)
  }

  function Step(w: World, ups: seq<File>, e: Event): World
  {
    match e
    case Write(t, rows) => if t in w.db.tables && t != BOOK then World(SetRows(w.db, t, rows), w.runs) else w
    case Call(id, fate) => Next(w, ups, id, fate).0
  }

  function Commits(w: World, ups: seq<File>, e: Event): seq<string>
  {
    if e.Call? then Next(w, ups, e.id, e.fate).1 else []
  }

  function Play(w: World, ups: seq<File>, es: seq<Event>): World
    decreases |es|
  {
    if es == [] then w else Play(Step(w, ups, es[0]), ups, es[1..])
  }

  /** The versions committed along a history, in order. */
  function Log(w: World, ups: seq<File>, es: seq<Event>): seq<string>
    decreases |es|
  {
    if es == [] then [] else Commits(w, ups, es[0]) + Log(Step(w, ups, es[0]), ups, es[1..])
  }

  function VersionList(files: seq<File>): (vs: seq<string>)
    ensures |vs| == |files| && forall i :: 0 <= i < |vs| ==> vs[i] == files[i].version
  {
    seq(|files|, i requires 0 <= i < |files| => files[i].version)
  }

  // ------------------------------------------------------------------ the invariant

  /** A run has read only what is recorded, has not passed the recorded prefix, and has
      finished only when everything is recorded. */
  ghost predicate Fits(ups: seq<File>, n: nat, run: Run)
    requires n <= |ups|
  {
    match run
    case Running(applied, next) => next <= n && applied <= Names(ups[..n])
    case Finished => n == |ups|
    case _ => true
  }

  ghost predicate Good(base: Db, ups: seq<File>, w: World, n: nat)
    requires n <= |ups|
  {
    && (forall id: nat :: Fits(ups, n, RunOf(w, id)))
    && (At(base, ups, n, w.db)
        || (n == 0 && Outside(base, w.db)
            && forall id: nat :: RunOf(w, id).Starting? || RunOf(w, id).Aborted?))
  }

  lemma FitsLater(ups: seq<File>, n: nat, run: Run)
    requires n < |ups| && DistinctVersions(ups) && Fits(ups, n, run)
    ensures Fits(ups, n + 1, run)
  {
    OneMoreFile(ups, n);
  }

  /** A transaction on a version not read as applied: at the end of the recorded prefix it
      extends the prefix by one, anywhere before it fails on the bookkeeping row. */
  lemma TransactionAt(base: Db, ups: seq<File>, db: Db, n: nat, next: nat)
    requires DistinctVersions(ups) && SparesBook(ups) && At(base, ups, n, db) && next <= n && next < |ups|
    ensures next < n ==> Applying(db, ups[next]).None?
    ensures next == n && Applying(db, ups[n]).Some? ==> At(base, ups, n + 1, Applying(db, ups[n]).value)
  {
    if next < n {
      assert ups[next] in ups[..n];
      SparedRows(db, ups[next].body, BOOK, {});
      RecordedTwice(db, ups[next]);
    } else {
      AdvanceOne(db, ups, n);
      if Applying(db, ups[n]).Some? {
        AdvancedAt(base, ups, n, n + 1, db);
      }
    }
  }

  lemma RecordedTwice(db: Db, f: File)
    requires HasBook(db) && f.version in db.tables[BOOK].rows && Spares(f.body, BOOK)
    ensures Applying(db, f).None?
  {
    SparedRows(db, f.body, BOOK, {});
  }

  /** Of two runs that want the same version, the one that comes second aborts, its
      transaction undone. */
  lemma LoserAborts(base: Db, ups: seq<File>, w: World, n: nat, id: nat, fate: Fate)
    requires DistinctVersions(ups) && SparesBook(ups) && n <= |ups| && Good(base, ups, w, n)
    requires RunOf(w, id).Running? && RunOf(w, id).next < n && ups[RunOf(w, id).next].version !in RunOf(w, id).applied
    ensures Step(w, ups, Call(id, fate)) == Turn(w, id, w.db, Aborted)
  {
    TransactionAt(base, ups, w.db, n, RunOf(w, id).next);
  }

  // ------------------------------------------------------------------ every step, every history

  /** The invariant after one run's turn: the others still fit. */
  lemma TurnKeepsGood(base: Db, ups: seq<File>, w: World, n: nat, id: nat, db: Db, run: Run, m: nat)
    requires DistinctVersions(ups) && n <= m <= n + 1 && m <= |ups|
    requires Good(base, ups, w, n) && At(base, ups, m, db) && Fits(ups, m, run)
    ensures Good(base, ups, Turn(w, id, db, run), m)
  {
    var next := Turn(w, id, db, run);
    forall other: nat
      ensures Fits(ups, m, RunOf(next, other))
    {
      if other != id {
        assert RunOf(next, other) == RunOf(w, other);
        assert Fits(ups, n, RunOf(w, other));
        if n < m {
          FitsLater(ups, n, RunOf(w, other));
        }
      }
    }
  }

  lemma StartStep(base: Db, ups: seq<File>, w: World, n: nat, id: nat, fate: Fate)
    requires Unmigrated(base) && DistinctVersions(ups) && n <= |ups| && Good(base, ups, w, n) && RunOf(w, id).Starting?
    ensures Good(base, ups, Next(w, ups, id, fate).0, n)
  {
    var after := Next(w, ups, id, fate).0;
    EnsureBookKeepsWf(w.db);
    if At(base, ups, n, w.db) {
      TurnKeepsGood(base, ups, w, n, id, w.db, RunOf(after, id), n);
    } else if fate != Refused {
      FirstContact(base, ups, w.db);
      TurnKeepsGood(base, ups, w, n, id, EnsureBook(w.db), RunOf(after, id), n);
    } else {
      assert forall other: nat :: other != id ==> RunOf(after, other) == RunOf(w, other);
    }
  }

  /** A run passes over a version it read as applied, and that version is recorded. */
  lemma SkipFits(ups: seq<File>, n: nat, applied: set<string>, next: nat)
    requires DistinctVersions(ups) && n <= |ups| && next < |ups|
    requires Fits(ups, n, Running(applied, next)) && ups[next].version in applied
    ensures Fits(ups, n, Running(applied, next + 1))
  {
    if n <= next {
      Later(ups, n, next);
    }
  }

  lemma AttemptStep(base: Db, ups: seq<File>, w: World, n: nat, id: nat, fate: Fate, after: Option<Db>) returns (m: nat)
    requires DistinctVersions(ups) && n <= |ups| && Good(base, ups, w, n) && At(base, ups, n, w.db)
    requires RunOf(w, id).Running? && RunOf(w, id).next < |ups|
    requires after.Some? ==> RunOf(w, id).next == n && At(base, ups, n + 1, after.value)
    ensures var (end, commits) := Attempt(w, id, fate, after, [ups[RunOf(w, id).next].version]);
            n <= m <= |ups| && Good(base, ups, end, m) && commits == VersionList(ups[n..m])
  {
    m := n;
    var run := RunOf(w, id);
    assert Fits(ups, n, run);
    if fate == Refused || after.None? {
      TurnKeepsGood(base, ups, w, n, id, w.db, Aborted, n);
    } else {
      m := n + 1;
      FitsLater(ups, n, run);
      TurnKeepsGood(base, ups, w, n, id, after.value, if fate == Answered then run.(next := n + 1) else Aborted, m);
    }
  }

  lemma PassStep(base: Db, ups: seq<File>, w: World, n: nat, id: nat, fate: Fate)
    requires DistinctVersions(ups) && n <= |ups| && Good(base, ups, w, n) && At(base, ups, n, w.db)
    requires RunOf(w, id).Running?
    requires RunOf(w, id).next >= |ups| || ups[RunOf(w, id).next].version in RunOf(w, id).applied
    ensures Good(base, ups, Next(w, ups, id, fate).0, n)
  {
    var run := RunOf(w, id);
    assert Fits(ups, n, run);
    var turned := if run.next < |ups| then Running(run.applied, run.next + 1) else Finished;
    assert Fits(ups, n, turned) by {
      if run.next < |ups| {
        SkipFits(ups, n, run.applied, run.next);
      }
    }
    TurnKeepsGood(base, ups, w, n, id, w.db, turned, n);
  }

  lemma RunningStep(base: Db, ups: seq<File>, w: World, n: nat, id: nat, fate: Fate) returns (m: nat)
    requires DistinctVersions(ups) && SparesBook(ups) && n <= |ups| && Good(base, ups, w, n) && At(base, ups, n, w.db)
    requires RunOf(w, id).Running?
    ensures n <= m <= |ups| && Good(base, ups, Next(w, ups, id, fate).0, m)
    ensures Next(w, ups, id, fate).1 == VersionList(ups[n..m])
  {
    m := n;
    var run := RunOf(w, id);
    if run.next < |ups| && ups[run.next].version !in run.applied {
      assert Fits(ups, n, run);
      TransactionAt(base, ups, w.db, n, run.next);
      m := AttemptStep(base, ups, w, n, id, fate, Applying(w.db, ups[run.next]));
    } else {
      PassStep(base, ups, w, n, id, fate);
    }
  }

  lemma CreatedStep(base: Db, ups: seq<File>, w: World, n: nat, id: nat, fate: Fate)
    requires DistinctVersions(ups) && n <= |ups| && Good(base, ups, w, n) && RunOf(w, id).Created?
    ensures At(base, ups, n, w.db) && Good(base, ups, Next(w, ups, id, fate).0, n)
  {
    var run := RunOf(Next(w, ups, id, fate).0, id);
    assert run.Running? ==> run.applied == Names(ups[..n]);
    TurnKeepsGood(base, ups, w, n, id, w.db, run, n);
  }

  lemma WriteStep(base: Db, ups: seq<File>, w: World, n: nat, t: Relation, rows: set<string>)
    requires n <= |ups| && Good(base, ups, w, n)
    ensures Good(base, ups, Step(w, ups, Event.Write(t, rows)), n)
  {
    if t in w.db.tables && t != BOOK {
      WriteKeepsPlace(base, ups, n, w.db, t, rows);
      assert forall id: nat :: RunOf(Step(w, ups, Event.Write(t, rows)), id) == RunOf(w, id);
    }
  }

  lemma StepKeepsGood(base: Db, ups: seq<File>, w: World, n: nat, e: Event) returns (m: nat)
    requires Unmigrated(base) && DistinctVersions(ups) && SparesBook(ups) && n <= |ups| && Good(base, ups, w, n)
    ensures n <= m <= |ups| && Good(base, ups, Step(w, ups, e), m)
    ensures Commits(w, ups, e) == VersionList(ups[n..m])
  {
    m := n;
    match e
    case Write(t, rows) => WriteStep(base, ups, w, n, t, rows);
    case Call(id, fate) =>
      match RunOf(w, id)
      case Starting => StartStep(base, ups, w, n, id, fate);
      case Created => CreatedStep(base, ups, w, n, id, fate);
      case Running(_, _) => m := RunningStep(base, ups, w, n, id, fate);
      case Finished =>
      case Aborted =>
  }

  lemma VersionListSplits(ups: seq<File>, n: nat, k: nat, m: nat)
    requires n <= k <= m <= |ups|
    ensures VersionList(ups[n..m]) == VersionList(ups[n..k]) + VersionList(ups[k..m])
  {
  }

  /** The main result: over every history the recorded versions stay a prefix and the
      schema stays its fold, and the history commits exactly the versions in between, in
      order. */
  lemma {:induction false} ConcurrentRuns(base: Db, ups: seq<File>, w: World, n: nat, es: seq<Event>) returns (m: nat)
    requires Unmigrated(base) && DistinctVersions(ups) && SparesBook(ups) && n <= |ups| && Good(base, ups, w, n)
    ensures n <= m <= |ups| && Good(base, ups, Play(w, ups, es), m)
    ensures Log(w, ups, es) == VersionList(ups[n..m])
    decreases |es|
  {
    m := n;
    if es != [] {
      var k := StepKeepsGood(base, ups, w, n, es[0]);
      m := ConcurrentRuns(base, ups, Step(w, ups, es[0]), k, es[1..]);
      VersionListSplits(ups, n, k, m);
    }
  }

  lemma NobodyStarted(base: Db, ups: seq<File>, db: Db) returns (n: nat)
    requires Sound(base, ups, db)
    ensures n <= |ups| && Good(base, ups, World(db, map[]), n)
    ensures At(base, ups, n, db) || (n == 0 && Outside(base, db))
  {
    n := 0;
    if !Outside(base, db) {
      n :| At(base, ups, n, db);
    }
  }

  /** From any sound database: any number of runs commit each missing version at most
      once, and together an initial part of the missing suffix. */
  lemma ConcurrentUps(base: Db, ups: seq<File>, db: Db, es: seq<Event>) returns (n: nat, m: nat)
    requires Unmigrated(base) && DistinctVersions(ups) && SparesBook(ups) && Sound(base, ups, db)
    ensures n <= m <= |ups| && (At(base, ups, n, db) || (n == 0 && Outside(base, db)))
    ensures Good(base, ups, Play(World(db, map[]), ups, es), m)
    ensures Log(World(db, map[]), ups, es) == VersionList(ups[n..m])
    ensures forall i, j :: 0 <= i < j < m - n ==> VersionList(ups[n..m])[i] != VersionList(ups[n..m])[j]
  {
    n := NobodyStarted(base, ups, db);
    m := ConcurrentRuns(base, ups, World(db, map[]), n, es);
    assert forall i :: 0 <= i < m - n ==> VersionList(ups[n..m])[i] == ups[n + i].version;
  }

  // ------------------------------------------------------------------ one run alone

  /** The fate of a transaction on a connection that answers `line.calls` more calls. */
  function TransactionFate(line: Line): Fate
  {
    if line.calls >= 4 then Answered else if line.calls == 3 && line.late then Lost else Refused
  }

  lemma PlayFirst(w: World, ups: seq<File>, e: Event, rest: seq<Event>)
    ensures Play(w, ups, [e] + rest) == Play(Step(w, ups, e), ups, rest)
  {
    assert ([e] + rest)[1..] == rest;
  }

  /** The loop over the files, call by call. */
  lemma FilesAlone(w: World, ups: seq<File>, id: nat, applied: set<string>, next: nat, line: Line)
    returns (es: seq<Event>)
    requires next <= |ups| && RunOf(w, id) == Running(applied, next)
    ensures forall e :: e in es ==> e.Call? && e.id == id
    ensures var (db, ok) := UpFiles(w.db, ups[next..], applied, line);
            var end := Play(w, ups, es);
            end.db == db && RunOf(end, id) == if ok then Finished else Aborted
    decreases |ups| - next
  {
    var e := Call(id, TransactionFate(line));
    var w' := Step(w, ups, e);
    PlayFirst(w, ups, e, []);
    es := [e];
    assert es == [e] + [];
    if next < |ups| {
      assert ups[next..][0] == ups[next] && ups[next..][1..] == ups[next + 1..];
      var rest: seq<Event> := [];
      if ups[next].version in applied {
        rest := FilesAlone(w', ups, id, applied, next + 1, line);
      } else if Transact(w.db, Applying(w.db, ups[next]), line).1 {
        rest := FilesAlone(w', ups, id, applied, next + 1, After(line, 4));
      }
      PlayFirst(w, ups, e, rest);
      es := [e] + rest;
    }
  }

  /** What `UpAll` computes, one run's calls played alone do, to the database and to the
      outcome: the theorems about histories are about what `Migrator.Up` does. */
  lemma UpAllIsOneRunAlone(db: Db, ups: seq<File>, id: nat, line: Line) returns (es: seq<Event>)
    ensures forall e :: e in es ==> e.Call? && e.id == id
    ensures var (after, ok) := UpAll(db, ups, line);
            var end := Play(World(db, map[]), ups, es);
            end.db == after && RunOf(end, id) == if ok then Finished else Aborted
  {
    var w := World(db, map[]);
    var first := Call(id, if line.calls > 0 then Answered else if line.late then Lost else Refused);
    var second := Call(id, if line.calls > 1 then Answered else Refused);
    var w1 := Step(w, ups, first);
    var w2 := Step(w1, ups, second);
    var rest: seq<Event> := [];
    if line.calls >= 2 && Applied(w1.db).Some? {
      rest := FilesAlone(w2, ups, id, Applied(w1.db).value, 0, After(line, 2));
      assert ups[0..] == ups;
    }
    PlayFirst(w, ups, first, [second] + rest);
    PlayFirst(w1, ups, second, rest);
    es := [first] + ([second] + rest);
  }
}
