/** The DDL statements of the migration scripts, executed on an explicit schema. A table's
    rows are known by their primary key; a script is run statement by statement and fails
    as a whole when one statement does. */
module Ddl {
  import opened Prelude

  // ------------------------------------------------------------------ the schema

  /** Tables and indexes share one namespace. `Foreign` are the host's own relations. */
  datatype Relation =
    | SchemaMigrations
    | AuthorizationCodes | RefreshTokens | ReferenceTokens | UserConsents | PersistedGrants
    | DeviceCodes | BackchannelAuthRequests | Sessions | KeyRecords
    | IdxAuthorizationCodesExpiresAt | IdxRefreshTokensExpiresAt | IdxReferenceTokensExpiresAt
    | IdxUserConsentsExpiresAt | IdxPersistedGrantsExpiresAt | IdxDeviceCodesExpiresAt
    | IdxBackchannelAuthRequestsExpiresAt | IdxSessionsExpires
    | IdxPersistedGrantsSubjectId | IdxPersistedGrantsSessionId | IdxPersistedGrantsClientId
    | IdxPersistedGrantsType | IdxKeyRecordsPublicIdUnique
    | IdxDeviceCodesUserCode | IdxSessionsSubjectId
    | Foreign(name: string)

  datatype Field =
    | Version | AppliedAt | Handle | ExpiresAt | Expires | Payload | SubjectId | ClientId | SessionId
    | Key | Type | ClientIds | PublicId | Phase | UserCode
    | ForeignField(name: string)

  datatype SqlType = Text | TextArray | Bigint | Timestamptz | Jsonb | ForeignType(name: string)

  datatype Column = Column(sqlType: SqlType, notNull: bool)

  datatype Table = Table(columns: map<Field, Column>, key: seq<Field>, rows: set<string>)

  /** `NotRetired` is the condition phase <> 'retired' of a partial index. */
  datatype Where = Everywhere | NotRetired

  datatype Index = Index(table: Relation, fields: seq<Field>, unique: bool, condition: Where)

  datatype Db = Db(tables: map<Relation, Table>, indexes: map<Relation, Index>)

  datatype Statement =
    | CreateTable(name: Relation, ifNotExists: bool, columns: map<Field, Column>, key: seq<Field>)
    | CreateIndex(name: Relation, index: Index)
    | AddColumn(table: Relation, field: Field, column: Column)
    | DropIndex(name: Relation) // IF EXISTS
    | DropTable(name: Relation) // IF EXISTS
    | DropColumn(table: Relation, field: Field) // IF EXISTS, of the column

  predicate Taken(db: Db, name: Relation)
  {
    name in db.tables || name in db.indexes
  }

  predicate Mentions(x: Index, f: Field)
  {
    f in x.fields || (x.condition.NotRetired? && f == Phase)
  }

  predicate Covers(columns: map<Field, Column>, x: Index)
  {
    && (forall f :: f in x.fields ==> f in columns)
    && (x.condition.NotRetired? ==> Phase in columns)
  }

  predicate HasKey(columns: map<Field, Column>, key: seq<Field>)
  {
    forall f :: f in key ==> f in columns
  }

  /** What the server keeps true of every schema. */
  ghost predicate Wf(db: Db)
  {
    && db.tables.Keys !! db.indexes.Keys
    && (forall t :: t in db.tables ==> HasKey(db.tables[t].columns, db.tables[t].key))
    && (forall i :: i in db.indexes ==>
          db.indexes[i].table in db.tables && Covers(db.tables[db.indexes[i].table].columns, db.indexes[i]))
  }

  // ------------------------------------------------------------------ execution

  /** A NOT NULL column without default cannot be added to a table with rows, and a unique
      index is refused where two rows could collide. */
  function Exec(db: Db, d: Statement): Option<Db>
  {
    match d
    case CreateTable(name, ifNotExists, columns, key) =>
      if Taken(db, name) then (if ifNotExists then Some(db) else None)
      else if !HasKey(columns, key) then None
      else Some(db.(tables := db.tables[name := Table(columns, key, {})]))
    case CreateIndex(name, x) =>
      if Taken(db, name) || x.table !in db.tables || !Covers(db.tables[x.table].columns, x) then None
      else if x.unique && |db.tables[x.table].rows| > 1 then None
      else Some(db.(indexes := db.indexes[name := x]))
    case AddColumn(t, f, c) =>
      if t !in db.tables || f in db.tables[t].columns then None
      else if c.notNull && db.tables[t].rows != {} then None
      else Some(db.(tables := db.tables[t := db.tables[t].(columns := db.tables[t].columns[f := c])]))
    case DropIndex(name) =>
      if name in db.tables then None else Some(db.(indexes := db.indexes - {name}))
    case DropTable(name) =>
      if name in db.indexes then None
      else Some(Db(db.tables - {name}, map i | i in db.indexes && db.indexes[i].table != name :: db.indexes[i]))
    case DropColumn(t, f) =>
      if t !in db.tables then None
      else Some(Db(db.tables[t := WithoutColumn(db.tables[t], f)],
                   map i | i in db.indexes && !(db.indexes[i].table == t && Mentions(db.indexes[i], f)) ::
                     db.indexes[i]))
  }

  function WithoutColumn(t: Table, f: Field): Table
  {
    Table(t.columns - {f}, if f in t.key then [] else t.key, t.rows)
  }

  function Script(db: Db, ds: seq<Statement>): Option<Db>
    decreases |ds|
  {
    if ds == [] then Some(db)
    else match Exec(db, ds[0]) case None => None case Some(next) => Script(next, ds[1..])
  }

  lemma {:induction false} ScriptConcat(db: Db, a: seq<Statement>, b: seq<Statement>)
    ensures Script(db, a + b) == (match Script(db, a) case None => None case Some(mid) => Script(mid, b))
    decreases |a|
  {
    if a == [] {
      assert a + b == b;
    } else {
      assert (a + b)[0] == a[0] && (a + b)[1..] == a[1..] + b;
      if Exec(db, a[0]).Some? {
        ScriptConcat(Exec(db, a[0]).value, a[1..], b);
      }
    }
  }

  lemma ExecKeepsWf(db: Db, d: Statement)
    requires Wf(db) && Exec(db, d).Some?
    ensures Wf(Exec(db, d).value)
  {
  }

  lemma {:induction false} ScriptKeepsWf(db: Db, ds: seq<Statement>)
    requires Wf(db) && Script(db, ds).Some?
    ensures Wf(Script(db, ds).value)
    decreases |ds|
  {
    if ds != [] {
      ExecKeepsWf(db, ds[0]);
      ScriptKeepsWf(Exec(db, ds[0]).value, ds[1..]);
    }
  }

  // ------------------------------------------------------------------ inverse scripts

  predicate Builds(d: Statement)
  {
    (d.CreateTable? && !d.ifNotExists) || d.CreateIndex? || d.AddColumn?
  }

  predicate Drops(d: Statement)
  {
    d.DropIndex? || d.DropTable? || d.DropColumn?
  }

  function Undo(d: Statement): Statement
    requires Builds(d)
  {
    match d
    case CreateTable(name, _, _, _) => DropTable(name)
    case CreateIndex(name, _) => DropIndex(name)
    case AddColumn(t, f, _) => DropColumn(t, f)
  }

  /** The drops that undo a building script, last statement first. */
  function Mirror(ds: seq<Statement>): (r: seq<Statement>)
    requires forall d :: d in ds ==> Builds(d)
    ensures |r| == |ds|
  {
    if ds == [] then [] else Mirror(ds[1..]) + [Undo(ds[0])]
  }

  lemma {:induction false} MirrorAt(ds: seq<Statement>, k: nat)
    requires (forall d :: d in ds ==> Builds(d)) && k < |ds|
    ensures Mirror(ds)[k] == Undo(ds[|ds| - 1 - k])
    decreases |ds|
  {
    if |ds| > 1 {
      MirrorAt(ds[1..], if k < |ds| - 1 then k else 0);
    }
  }

  lemma {:induction false} MirrorConcat(a: seq<Statement>, b: seq<Statement>)
    requires forall d :: d in a + b ==> Builds(d)
    ensures (forall d :: d in a ==> Builds(d)) && (forall d :: d in b ==> Builds(d))
    ensures Mirror(a + b) == Mirror(b) + Mirror(a)
    decreases |a|
  {
    assert forall d :: d in a || d in b ==> d in a + b;
    if a == [] {
      assert a + b == b;
    } else {
      assert (a + b)[0] == a[0] && (a + b)[1..] == a[1..] + b;
      MirrorConcat(a[1..], b);
    }
  }

  lemma UndoOne(db: Db, d: Statement)
    requires Wf(db) && Builds(d) && Exec(db, d).Some?
    ensures Exec(Exec(db, d).value, Undo(d)) == Some(db)
  {
    var next := Exec(db, d).value;
    match d
    case CreateTable(name, _, _, _) =>
      assert next.tables - {name} == db.tables;
      assert (map i | i in next.indexes && next.indexes[i].table != name :: next.indexes[i]) == db.indexes;
    case CreateIndex(name, _) =>
      assert next.indexes - {name} == db.indexes;
    case AddColumn(t, f, _) =>
      assert next.tables[t].columns - {f} == db.tables[t].columns;
      assert next.tables[t := WithoutColumn(next.tables[t], f)] == db.tables;
      assert (map i | i in next.indexes && !(next.indexes[i].table == t && Mentions(next.indexes[i], f)) ::
              next.indexes[i]) == db.indexes;
  }

  /** Mirror order restores the database, rows included. */
  lemma {:induction false} MirrorRestores(db: Db, ups: seq<Statement>)
    requires Wf(db) && Script(db, ups).Some?
    requires forall d :: d in ups ==> Builds(d)
    ensures Script(Script(db, ups).value, Mirror(ups)) == Some(db)
    decreases |ups|
  {
    if ups != [] {
      var d, next, last := ups[0], Exec(db, ups[0]).value, Script(db, ups).value;
      ExecKeepsWf(db, d);
      MirrorRestores(next, ups[1..]);
      ScriptConcat(last, Mirror(ups[1..]), [Undo(d)]);
      UndoOne(db, d);
      assert Script(next, [Undo(d)]) == Some(db);
    }
  }

  // ------------------------------------------------------------------ index drops commute

  function DropIndexes(names: seq<Relation>): (ds: seq<Statement>)
    ensures |ds| == |names| && forall i :: 0 <= i < |ds| ==> ds[i] == DropIndex(names[i])
  {
    seq(|names|, i requires 0 <= i < |names| => DropIndex(names[i]))
  }

  /** A group of index drops fails on a table's name and else has one effect. */
  lemma {:induction false} DropIndexesEffect(db: Db, names: seq<Relation>)
    ensures Script(db, DropIndexes(names))
         == if exists n :: n in names && n in db.tables then None
            else Some(db.(indexes := db.indexes - (set n | n in names)))
    decreases |names|
  {
    if names == [] {
      assert db.indexes - (set n | n in names) == db.indexes;
    } else {
      assert DropIndexes(names)[0] == DropIndex(names[0]);
      assert DropIndexes(names)[1..] == DropIndexes(names[1..]);
      assert forall n :: n in names <==> n == names[0] || n in names[1..];
      if names[0] !in db.tables {
        var next := db.(indexes := db.indexes - {names[0]});
        DropIndexesEffect(next, names[1..]);
        assert next.indexes - (set n | n in names[1..]) == db.indexes - (set n | n in names);
      }
    }
  }

  /** The order of index drops does not matter. */
  lemma DropOrderIrrelevant(db: Db, a: seq<Relation>, b: seq<Relation>)
    requires forall n :: n in a <==> n in b
    ensures Script(db, DropIndexes(a)) == Script(db, DropIndexes(b))
  {
    DropIndexesEffect(db, a);
    DropIndexesEffect(db, b);
    assert (set n | n in a) == (set n | n in b);
  }

  // ------------------------------------------------------------------ rows and shape

  function SetRows(db: Db, t: Relation, rows: set<string>): Db
    requires t in db.tables
  {
    db.(tables := db.tables[t := db.tables[t].(rows := rows)])
  }

  /** No statement alters, drops or indexes table `t`. */
  predicate Spares(ds: seq<Statement>, t: Relation)
  {
    forall d :: d in ds ==> SparesOne(d, t)
  }

  predicate SparesOne(d: Statement, t: Relation)
  {
    match d
    case CreateTable(_, _, _, _) => true
    case CreateIndex(_, x) => x.table != t
    case AddColumn(table, _, _) => table != t
    case DropIndex(_) => true
    case DropTable(name) => name != t
    case DropColumn(table, _) => table != t
  }

  /** A script that spares a table neither reads nor writes its rows. */
  lemma {:induction false} SparedRows(db: Db, ds: seq<Statement>, t: Relation, rows: set<string>)
    requires t in db.tables && Spares(ds, t)
    ensures Script(SetRows(db, t, rows), ds).Some? == Script(db, ds).Some?
    ensures Script(db, ds).Some? ==>
              var end := Script(db, ds).value;
              t in end.tables && end.tables[t] == db.tables[t]
                && Script(SetRows(db, t, rows), ds) == Some(SetRows(end, t, rows))
    decreases |ds|
  {
    if ds != [] {
      SparedRowsOne(db, ds[0], t, rows);
      if Exec(db, ds[0]).Some? {
        SparedRows(Exec(db, ds[0]).value, ds[1..], t, rows);
      }
    }
  }

  lemma SparedRowsOne(db: Db, d: Statement, t: Relation, rows: set<string>)
    requires t in db.tables && SparesOne(d, t)
    ensures Exec(SetRows(db, t, rows), d).Some? == Exec(db, d).Some?
    ensures Exec(db, d).Some? ==>
              var end := Exec(db, d).value;
              t in end.tables && end.tables[t] == db.tables[t]
                && Exec(SetRows(db, t, rows), d) == Some(SetRows(end, t, rows))
  {
    if Exec(db, d).Some? {
      SparedTable(db, d, t);
      SparedTables(db, d, t, rows);
      SparedIndexes(db, d, t, rows);
    }
  }

  lemma SparedTable(db: Db, d: Statement, t: Relation)
    requires t in db.tables && SparesOne(d, t) && Exec(db, d).Some?
    ensures t in Exec(db, d).value.tables && Exec(db, d).value.tables[t] == db.tables[t]
  {
  }

  lemma SparedTables(db: Db, d: Statement, t: Relation, rows: set<string>)
    requires t in db.tables && SparesOne(d, t) && Exec(db, d).Some? && t in Exec(db, d).value.tables
    ensures Exec(SetRows(db, t, rows), d).Some?
    ensures Exec(SetRows(db, t, rows), d).value.tables == SetRows(Exec(db, d).value, t, rows).tables
  {
    if Drops(d) {
      SparedByDrop(db, d, t, rows);
    }
  }

  lemma SparedByDrop(db: Db, d: Statement, t: Relation, rows: set<string>)
    requires Drops(d) && t in db.tables && SparesOne(d, t) && Exec(db, d).Some? && t in Exec(db, d).value.tables
    ensures Exec(SetRows(db, t, rows), d).Some?
    ensures Exec(SetRows(db, t, rows), d).value.tables == SetRows(Exec(db, d).value, t, rows).tables
  {
  }

  lemma SparedIndexes(db: Db, d: Statement, t: Relation, rows: set<string>)
    requires t in db.tables && Exec(db, d).Some? && Exec(SetRows(db, t, rows), d).Some?
    ensures Exec(SetRows(db, t, rows), d).value.indexes == Exec(db, d).value.indexes
  {
  }

  /** The schema without its rows. */
  function Shape(db: Db): Db
  {
    Db(map t | t in db.tables :: db.tables[t].(rows := {}), db.indexes)
  }

  lemma SetRowsOnlyRows(db: Db, t: Relation, rows: set<string>, others: set<string>)
    requires t in db.tables
    ensures Shape(SetRows(db, t, rows)) == Shape(db)
    ensures Wf(db) ==> Wf(SetRows(db, t, rows))
    ensures SetRows(SetRows(db, t, others), t, rows) == SetRows(db, t, rows)
    ensures SetRows(db, t, db.tables[t].rows) == db
  {
    assert Shape(SetRows(db, t, rows)).tables == Shape(db).tables;
    assert SetRows(SetRows(db, t, others), t, rows).tables == SetRows(db, t, rows).tables;
    assert SetRows(db, t, db.tables[t].rows).tables == db.tables;
  }

  lemma ShapeOne(db: Db, d: Statement)
    ensures Exec(db, d).Some? ==> Exec(Shape(db), d) == Some(Shape(Exec(db, d).value))
    ensures Drops(d) ==> Exec(db, d).Some? == Exec(Shape(db), d).Some?
  {
    if Exec(db, d).Some? {
      if Drops(d) {
        ShapeDrop(db, d);
      } else {
        assert Exec(Shape(db), d).value.tables == Shape(Exec(db, d).value).tables;
      }
    }
  }

  lemma ShapeDrop(db: Db, d: Statement)
    requires Drops(d) && Exec(db, d).Some?
    ensures Exec(Shape(db), d) == Some(Shape(Exec(db, d).value))
  {
    var bare := Exec(Shape(db), d).value;
    assert bare.tables == Shape(Exec(db, d).value).tables;
    assert bare.indexes == Exec(db, d).value.indexes;
  }

  /** The resulting schema depends on the schema alone, and what drops can do does too. */
  lemma {:induction false} ShapeScript(db: Db, ds: seq<Statement>)
    ensures Script(db, ds).Some? ==> Script(Shape(db), ds) == Some(Shape(Script(db, ds).value))
    ensures (forall d :: d in ds ==> Drops(d)) ==> Script(db, ds).Some? == Script(Shape(db), ds).Some?
    decreases |ds|
  {
    if ds != [] {
      ShapeOne(db, ds[0]);
      if Exec(db, ds[0]).Some? {
        ShapeScript(Exec(db, ds[0]).value, ds[1..]);
      }
    }
  }

  // ------------------------------------------------------------------ creating scripts

  predicate Creates(d: Statement)
  {
    (d.CreateTable? && !d.ifNotExists) || d.CreateIndex?
  }

  function NameOf(d: Statement): Relation
    requires Creates(d)
  {
    match d case CreateTable(name, _, _, _) => name case CreateIndex(name, _) => name
  }

  /** A building script needs every name it creates to be free beforehand. */
  lemma {:induction false} CreatedNamesWereFree(db: Db, ds: seq<Statement>, d: Statement)
    requires (forall e :: e in ds ==> Builds(e)) && Script(db, ds).Some? && d in ds && Creates(d)
    ensures !Taken(db, NameOf(d))
    decreases |ds|
  {
    if d != ds[0] {
      var next := Exec(db, ds[0]).value;
      CreatedNamesWereFree(next, ds[1..], d);
      BuildingKeepsNames(db, ds[0], NameOf(d));
    }
  }

  lemma BuildingKeepsNames(db: Db, d: Statement, name: Relation)
    requires Builds(d) && Exec(db, d).Some?
    ensures Taken(db, name) ==> Taken(Exec(db, d).value, name)
  {
  }

  /** The statements create relations under names that are free and pairwise different. */
  predicate FreshNames(db: Db, ds: seq<Statement>)
  {
    && (forall d :: d in ds ==> Creates(d) && !Taken(db, NameOf(d)))
    && forall i, j :: 0 <= i < j < |ds| ==> NameOf(ds[i]) != NameOf(ds[j])
  }

  lemma FreshNamesAfterOne(db: Db, ds: seq<Statement>)
    requires ds != [] && FreshNames(db, ds) && Exec(db, ds[0]).Some?
    ensures FreshNames(Exec(db, ds[0]).value, ds[1..])
  {
    var next := Exec(db, ds[0]).value;
    forall d | d in ds[1..]
      ensures Creates(d) && !Taken(next, NameOf(d))
    {
      var i :| 0 <= i < |ds| - 1 && ds[1..][i] == d;
      assert ds[i + 1] == d && NameOf(ds[0]) != NameOf(ds[i + 1]);
    }
    assert forall i :: 0 <= i < |ds| - 1 ==> ds[1..][i] == ds[i + 1];
  }

  predicate NewTable(d: Statement)
  {
    d.CreateTable? && !d.ifNotExists && HasKey(d.columns, d.key)
  }

  predicate HasTable(db: Db, d: Statement)
  {
    d.CreateTable? && d.name in db.tables && db.tables[d.name] == Table(d.columns, d.key, {})
  }

  /** Tables under fresh names: all are created, and no other name is taken. */
  lemma {:induction false} TablesSucceed(db: Db, ds: seq<Statement>)
    requires FreshNames(db, ds) && forall d :: d in ds ==> NewTable(d)
    ensures Script(db, ds).Some?
    ensures forall t :: t in db.tables ==>
            t in Script(db, ds).value.tables && Script(db, ds).value.tables[t] == db.tables[t]
    ensures forall d :: d in ds ==> HasTable(Script(db, ds).value, d)
    ensures forall t :: Taken(Script(db, ds).value, t) ==>
            Taken(db, t) || exists d :: d in ds && d.CreateTable? && d.name == t
    decreases |ds|
  {
    if ds != [] {
      assert NewTable(ds[0]) && !Taken(db, NameOf(ds[0]));
      FreshNamesAfterOne(db, ds);
      TablesSucceed(Exec(db, ds[0]).value, ds[1..]);
      assert forall d :: d in ds <==> d == ds[0] || d in ds[1..];
    }
  }

  /** An index that fits its table, which is empty. */
  predicate NewIndex(db: Db, d: Statement)
  {
    && d.CreateIndex? && d.index.table in db.tables
    && Covers(db.tables[d.index.table].columns, d.index) && db.tables[d.index.table].rows == {}
  }

  predicate HasIndex(db: Db, d: Statement)
  {
    d.CreateIndex? && d.name in db.indexes && db.indexes[d.name] == d.index
  }

  /** Indexes under fresh names on empty tables: all are created, and no other name is
      taken. */
  lemma {:induction false} IndexesSucceed(db: Db, ds: seq<Statement>)
    requires FreshNames(db, ds) && forall d :: d in ds ==> NewIndex(db, d)
    ensures Script(db, ds).Some? && Script(db, ds).value.tables == db.tables
    ensures forall i :: i in db.indexes ==>
              i in Script(db, ds).value.indexes && Script(db, ds).value.indexes[i] == db.indexes[i]
    ensures forall d :: d in ds ==> HasIndex(Script(db, ds).value, d)
    ensures forall t :: Taken(Script(db, ds).value, t) ==>
            Taken(db, t) || exists d :: d in ds && d.CreateIndex? && d.name == t
    decreases |ds|
  {
    if ds != [] {
      assert NewIndex(db, ds[0]) && !Taken(db, NameOf(ds[0]));
      FreshNamesAfterOne(db, ds);
      var next := Exec(db, ds[0]).value;
      assert forall d :: d in ds[1..] ==> d in ds;
      IndexesSucceed(next, ds[1..]);
      assert forall d :: d in ds <==> d == ds[0] || d in ds[1..];
    }
  }
}
