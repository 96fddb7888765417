/** The six scripts under migrations/, and what the runner does with them. */
module Schema {
  import opened Prelude
  import opened Ddl
  import opened Migrations

  // ------------------------------------------------------------------ the objects

  /** Columns of a primary key are NOT NULL. */
  function Required(t: SqlType): Column
  {
    Column(t, true)
  }

  function Optional(t: SqlType): Column
  {
    Column(t, false)
  }

  /** The columns of a business table in the first script. */
  function ColumnsOf(table: Relation): map<Field, Column>
  {
    match table
    case RefreshTokens =>
      map[Handle := Required(Text), ExpiresAt := Optional(Timestamptz), Version := Required(Bigint),
          Payload := Required(Jsonb)]
    case UserConsents =>
      map[SubjectId := Required(Text), ClientId := Required(Text), ExpiresAt := Optional(Timestamptz),
          Payload := Required(Jsonb)]
    case PersistedGrants =>
      map[Key := Required(Text), SubjectId := Required(Text), SessionId := Required(Text), ClientId := Required(Text),
          Type := Required(Text), ExpiresAt := Optional(Timestamptz), Payload := Required(Jsonb)]
    case Sessions =>
      map[SessionId := Required(Text), ClientIds := Required(TextArray), Expires := Optional(Timestamptz),
          Payload := Required(Jsonb)]
    case KeyRecords =>
      map[Handle := Required(Text), PublicId := Required(Text), Phase := Required(Text), Version := Required(Bigint),
          Payload := Required(Jsonb)]
    case _ => // authorization_codes, reference_tokens, device_codes, backchannel_auth_requests
      map[Handle := Required(Text), ExpiresAt := Optional(Timestamptz), Payload := Required(Jsonb)]
  }

  function KeyOf(table: Relation): seq<Field>
  {
    match table
    case UserConsents => [SubjectId, ClientId]
    case PersistedGrants => [Key]
    case Sessions => [SessionId]
    case _ => [Handle]
  }

  function On(table: Relation, fields: seq<Field>): Index
  {
    Index(table, fields, false, Everywhere)
  }

  function IndexOf(name: Relation): Index
  {
    match name
    case IdxAuthorizationCodesExpiresAt => On(AuthorizationCodes, [ExpiresAt])
    case IdxRefreshTokensExpiresAt => On(RefreshTokens, [ExpiresAt])
    case IdxReferenceTokensExpiresAt => On(ReferenceTokens, [ExpiresAt])
    case IdxUserConsentsExpiresAt => On(UserConsents, [ExpiresAt])
    case IdxPersistedGrantsExpiresAt => On(PersistedGrants, [ExpiresAt])
    case IdxDeviceCodesExpiresAt => On(DeviceCodes, [ExpiresAt])
    case IdxBackchannelAuthRequestsExpiresAt => On(BackchannelAuthRequests, [ExpiresAt])
    case IdxSessionsExpires => On(Sessions, [Expires])
    case IdxPersistedGrantsSubjectId => On(PersistedGrants, [SubjectId, ClientId, Type])
    case IdxPersistedGrantsSessionId => On(PersistedGrants, [SessionId])
    case IdxPersistedGrantsClientId => On(PersistedGrants, [ClientId, Type])
    case IdxPersistedGrantsType => On(PersistedGrants, [Type])
    case IdxDeviceCodesUserCode => Index(DeviceCodes, [UserCode], true, Everywhere)
    case IdxSessionsSubjectId => On(Sessions, [SubjectId])
    case _ => Index(KeyRecords, [PublicId], true, NotRetired) // idx_key_records_public_id_unique
  }

  function Create(table: Relation): Statement
  {
    CreateTable(table, false, ColumnsOf(table), KeyOf(table))
  }

  function CreateTables(names: seq<Relation>): (ds: seq<Statement>)
    ensures |ds| == |names| && forall i :: 0 <= i < |ds| ==> ds[i] == Create(names[i])
  {
    seq(|names|, i requires 0 <= i < |names| => Create(names[i]))
  }

  function CreateIndexes(names: seq<Relation>): (ds: seq<Statement>)
    ensures |ds| == |names| && forall i :: 0 <= i < |ds| ==> ds[i] == CreateIndex(names[i], IndexOf(names[i]))
  {
    seq(|names|, i requires 0 <= i < |names| => CreateIndex(names[i], IndexOf(names[i])))
  }

  function DropTables(names: seq<Relation>): (ds: seq<Statement>)
    ensures |ds| == |names| && forall i :: 0 <= i < |ds| ==> ds[i] == DropTable(names[i])
  {
    seq(|names|, i requires 0 <= i < |names| => DropTable(names[i]))
  }

  // ------------------------------------------------------------------ the scripts

  /** The tables of the first script, in order of creation. */
  function InitTables(): seq<Relation>
  {
    [ AuthorizationCodes, RefreshTokens, ReferenceTokens, UserConsents, PersistedGrants, DeviceCodes,
      BackchannelAuthRequests, Sessions, KeyRecords ]
  }

  /** The indexes of the first script, in order of creation. */
  function InitIndexes(): seq<Relation>
  {
    [ IdxAuthorizationCodesExpiresAt, IdxRefreshTokensExpiresAt, IdxReferenceTokensExpiresAt, IdxUserConsentsExpiresAt,
      IdxPersistedGrantsExpiresAt, IdxDeviceCodesExpiresAt, IdxBackchannelAuthRequestsExpiresAt, IdxSessionsExpires,
      IdxPersistedGrantsSubjectId, IdxPersistedGrantsSessionId, IdxPersistedGrantsClientId, IdxPersistedGrantsType,
      IdxKeyRecordsPublicIdUnique ]
  }

  function InitUp(): seq<Statement>
  {
    [CreateBook(true)] + (CreateTables(InitTables()) + CreateIndexes(InitIndexes()))
  }

  function InitIndexDrops(): seq<Relation>
  {
    [ IdxKeyRecordsPublicIdUnique, IdxSessionsExpires, IdxBackchannelAuthRequestsExpiresAt, IdxDeviceCodesExpiresAt,
      IdxPersistedGrantsExpiresAt, IdxUserConsentsExpiresAt, IdxReferenceTokensExpiresAt, IdxRefreshTokensExpiresAt,
      IdxAuthorizationCodesExpiresAt, IdxPersistedGrantsType, IdxPersistedGrantsClientId, IdxPersistedGrantsSessionId,
      IdxPersistedGrantsSubjectId ]
  }

  function InitTableDrops(): seq<Relation>
  {
    [ KeyRecords, Sessions, BackchannelAuthRequests, DeviceCodes, PersistedGrants, UserConsents, ReferenceTokens,
      RefreshTokens, AuthorizationCodes ]
  }

  /** The first down file without its last statement. */
  function InitCore(): seq<Statement>
  {
    DropIndexes(InitIndexDrops()) + DropTables(InitTableDrops())
  }

  function InitDown(): seq<Statement>
  {
    InitCore() + [DropTable(SchemaMigrations)]
  }

  function UserCodeUp(): seq<Statement>
  {
    [AddColumn(DeviceCodes, UserCode, Required(Text)),
     CreateIndex(IdxDeviceCodesUserCode, IndexOf(IdxDeviceCodesUserCode))]
  }

  function UserCodeDown(): seq<Statement>
  {
    [DropIndex(IdxDeviceCodesUserCode), DropColumn(DeviceCodes, UserCode)]
  }

  function SubjectUp(): seq<Statement>
  {
    [AddColumn(Sessions, SubjectId, Optional(Text)), CreateIndex(IdxSessionsSubjectId, IndexOf(IdxSessionsSubjectId))]
  }

  function SubjectDown(): seq<Statement>
  {
    [DropIndex(IdxSessionsSubjectId), DropColumn(Sessions, SubjectId)]
  }

  function Ups(): seq<File>
  {
    [File("000001", InitUp()), File("000002", UserCodeUp()), File("000003", SubjectUp())]
  }

  function Downs(): seq<File>
  {
    [File("000001", InitDown()), File("000002", UserCodeDown()), File("000003", SubjectDown())]
  }

  // ------------------------------------------------------------------ names

  /** The position of a relation's CREATE statement among those of all scripts. */
  function Place(r: Relation): nat
  {
    match r
    case AuthorizationCodes => 0
    case RefreshTokens => 1
    case ReferenceTokens => 2
    case UserConsents => 3
    case PersistedGrants => 4
    case DeviceCodes => 5
    case BackchannelAuthRequests => 6
    case Sessions => 7
    case KeyRecords => 8
    case IdxAuthorizationCodesExpiresAt => 9
    case IdxRefreshTokensExpiresAt => 10
    case IdxReferenceTokensExpiresAt => 11
    case IdxUserConsentsExpiresAt => 12
    case IdxPersistedGrantsExpiresAt => 13
    case IdxDeviceCodesExpiresAt => 14
    case IdxBackchannelAuthRequestsExpiresAt => 15
    case IdxSessionsExpires => 16
    case IdxPersistedGrantsSubjectId => 17
    case IdxPersistedGrantsSessionId => 18
    case IdxPersistedGrantsClientId => 19
    case IdxPersistedGrantsType => 20
    case IdxKeyRecordsPublicIdUnique => 21
    case IdxDeviceCodesUserCode => 22
    case IdxSessionsSubjectId => 23
    case SchemaMigrations => 24
    case Foreign(_) => 25
  }

  lemma PlaceIsItsOwn(a: Relation, b: Relation)
    requires Place(a) == Place(b) < 24
    ensures a == b
  {
  }

  predicate Placed(names: seq<Relation>, first: nat)
  {
    forall k :: 0 <= k < |names| ==> Place(names[k]) == first + k
  }

  lemma TablesPlaced()
    ensures |InitTables()| == 9 && Placed(InitTables(), 0)
  {
  }

  lemma IndexesPlaced()
    ensures |InitIndexes()| == 13 && Placed(InitIndexes(), 9)
  {
  }

  /** A list that fills a range of places holds exactly the relations there. */
  lemma PlacedHas(names: seq<Relation>, first: nat, r: Relation)
    requires Placed(names, first) && first + |names| <= 24
    ensures r in names <==> first <= Place(r) < first + |names|
  {
    if first <= Place(r) < first + |names| {
      PlaceIsItsOwn(names[Place(r) - first], r);
    }
  }

  /** Every index of the scripts is on columns its table has. */
  lemma IndexFits(name: Relation)
    requires 9 <= Place(name) < 22
    ensures Place(IndexOf(name).table) < 9 && Covers(ColumnsOf(IndexOf(name).table), IndexOf(name))
  {
  }

  lemma KeyFits(table: Relation)
    requires Place(table) < 9
    ensures NewTable(Create(table))
  {
  }

  // ------------------------------------------------------------------ every down file takes back its up file

  lemma CreationBuilds(ts: seq<Relation>, xs: seq<Relation>)
    ensures forall d :: d in CreateTables(ts) + CreateIndexes(xs) ==> Builds(d)
    ensures (forall d :: d in CreateTables(ts) ==> Builds(d)) && (forall d :: d in CreateIndexes(xs) ==> Builds(d))
  {
  }

  lemma MirrorOfTables(names: seq<Relation>)
    ensures (forall d :: d in CreateTables(names) ==> Builds(d))
            && Mirror(CreateTables(names)) == DropTables(Backwards(names))
  {
    var ds := CreateTables(names);
    forall k: nat | k < |names|
      ensures Mirror(ds)[k] == DropTables(Backwards(names))[k]
    {
      MirrorAt(ds, k);
    }
  }

  lemma MirrorOfIndexes(names: seq<Relation>)
    ensures (forall d :: d in CreateIndexes(names) ==> Builds(d))
            && Mirror(CreateIndexes(names)) == DropIndexes(Backwards(names))
  {
    var ds := CreateIndexes(names);
    forall k: nat | k < |names|
      ensures Mirror(ds)[k] == DropIndexes(Backwards(names))[k]
    {
      MirrorAt(ds, k);
    }
  }

  lemma TableDropsInMirrorOrder()
    ensures InitTableDrops() == Backwards(InitTables())
  {
  }

  lemma IndexDropsComplete()
    ensures forall n :: n in InitIndexDrops() <==> 9 <= Place(n) < 22
  {
  }

  lemma IndexDropsSameNames()
    ensures forall n :: n in InitIndexDrops() <==> n in Backwards(InitIndexes())
  {
    var xs := InitIndexes();
    IndexDropsComplete();
    IndexesPlaced();
    forall n
      ensures n in InitIndexDrops() <==> n in Backwards(xs)
    {
      PlacedHas(xs, 9, n);
      if n in xs {
        var k :| 0 <= k < 13 && xs[k] == n;
        assert Backwards(xs)[12 - k] == n;
      }
    }
  }

  /** The first down file does not drop the indexes in mirror order; on every database it
      does what mirror order would do. */
  lemma InitDownIsNoStrictMirror(db: Db)
    ensures (forall d :: d in CreateIndexes(InitIndexes()) ==> Builds(d))
    ensures DropIndexes(InitIndexDrops()) != Mirror(CreateIndexes(InitIndexes()))
    ensures Script(db, DropIndexes(InitIndexDrops())) == Script(db, Mirror(CreateIndexes(InitIndexes())))
  {
    var xs, drops := InitIndexes(), InitIndexDrops();
    MirrorOfIndexes(xs);
    assert |drops| == 13 && drops[12] == IdxPersistedGrantsSubjectId;
    assert |xs| == 13 && xs[0] == IdxAuthorizationCodesExpiresAt;
    assert DropIndexes(drops)[12] != DropIndexes(Backwards(xs))[12];
    IndexDropsSameNames();
    DropOrderIrrelevant(db, drops, Backwards(xs));
  }

  /** The tables and indexes of the first script, created and dropped again. */
  lemma InitUndone(db: Db)
    requires Wf(db) && SchemaMigrations in db.tables && Script(db, InitUp()).Some?
    ensures Script(Script(db, InitUp()).value, InitCore()) == Some(db)
  {
    var ts, xs := CreateTables(InitTables()), CreateIndexes(InitIndexes());
    BookIsThere(db, ts + xs);
    var end := Script(db, ts + xs).value;
    CreationBuilds(InitTables(), InitIndexes());
    MirrorRestores(db, ts + xs);
    MirrorConcat(ts, xs);
    MirrorOfTables(InitTables());
    TableDropsInMirrorOrder();
    InitDownIsNoStrictMirror(end);
    ScriptConcat(end, DropIndexes(InitIndexDrops()), DropTables(InitTableDrops()));
    ScriptConcat(end, Mirror(xs), DropTables(InitTableDrops()));
  }

  lemma BookIsThere(db: Db, rest: seq<Statement>)
    requires Taken(db, BOOK)
    ensures Script(db, [CreateBook(true)] + rest) == Script(db, rest)
  {
    assert ([CreateBook(true)] + rest)[0] == CreateBook(true) && ([CreateBook(true)] + rest)[1..] == rest;
  }

  /** A script of two building statements, and its mirror. */
  lemma PairUndone(db: Db, a: Statement, b: Statement)
    requires Wf(db) && Builds(a) && Builds(b) && Script(db, [a, b]).Some?
    ensures Script(Script(db, [a, b]).value, [Undo(b), Undo(a)]) == Some(db)
  {
    MirrorRestores(db, [a, b]);
    MirrorAt([a, b], 0);
    MirrorAt([a, b], 1);
    assert Mirror([a, b]) == [Undo(b), Undo(a)];
  }

  lemma VersionsDistinct()
    ensures DistinctVersions(Ups())
  {
    assert "000001"[5] != "000002"[5] && "000002"[5] != "000003"[5] && "000001"[5] != "000003"[5];
  }

  lemma InitSparesBook()
    ensures Spares(InitUp(), SchemaMigrations) && Spares(InitCore(), SchemaMigrations)
    ensures forall d :: d in InitCore() ==> Drops(d)
  {
    TablesPlaced();
    IndexesPlaced();
    TableDropsInMirrorOrder();
    forall k | 0 <= k < 13
      ensures SparesOne(CreateIndexes(InitIndexes())[k], SchemaMigrations)
    {
      IndexFits(InitIndexes()[k]);
    }
    forall k | 0 <= k < 9
      ensures SparesOne(DropTables(InitTableDrops())[k], SchemaMigrations)
    {
      assert Place(InitTables()[8 - k]) == 8 - k;
    }
  }

  lemma InitPaired()
    ensures PairedAt(Ups(), Downs(), 0)
  {
    assert Core(Downs(), 0) == InitCore();
    InitSparesBook();
    forall db: Db | Wf(db) && SchemaMigrations in db.tables && Script(db, InitUp()).Some?
      ensures Script(Script(db, InitUp()).value, InitCore()) == Some(db)
    {
      InitUndone(db);
    }
  }

  lemma LaterPaired()
    ensures PairedAt(Ups(), Downs(), 1) && PairedAt(Ups(), Downs(), 2)
  {
    forall db: Db | Wf(db) && Script(db, UserCodeUp()).Some?
      ensures Script(Script(db, UserCodeUp()).value, UserCodeDown()) == Some(db)
    {
      PairUndone(db, UserCodeUp()[0], UserCodeUp()[1]);
    }
    forall db: Db | Wf(db) && Script(db, SubjectUp()).Some?
      ensures Script(Script(db, SubjectUp()).value, SubjectDown()) == Some(db)
    {
      PairUndone(db, SubjectUp()[0], SubjectUp()[1]);
    }
  }

  lemma UpsSpareBook()
    ensures SparesBook(Ups())
  {
    InitSparesBook();
    assert Spares(UserCodeUp(), SchemaMigrations) && Spares(SubjectUp(), SchemaMigrations);
  }

  /** The scripts form a plan the runner's theorems apply to. */
  lemma RealPlan()
    ensures Paired(Ups(), Downs())
  {
    var ups, downs := Ups(), Downs();
    VersionsDistinct();
    UpsSpareBook();
    InitPaired();
    LaterPaired();
    assert Core(downs, 0) == InitCore();
    assert downs[0].body == Core(downs, 0) + [DropTable(BOOK)];
    forall i: nat | i < |ups|
      ensures PairedAt(ups, downs, i)
    {
      assert i == 0 || i == 1 || i == 2;
    }
  }

  // ------------------------------------------------------------------ when `Up` succeeds

  /** Nobody but the runner has taken a name of the schema. */
  ghost predicate Clean(db: Db)
  {
    forall r :: Taken(db, r) ==> Place(r) >= 24
  }

  /** What the second script finds. */
  predicate AfterInit(db: Db)
  {
    && DeviceCodes in db.tables && db.tables[DeviceCodes].columns == ColumnsOf(DeviceCodes)
    && !Taken(db, IdxDeviceCodesUserCode) && BeforeSubject(db)
  }

  /** What the third script finds. */
  predicate BeforeSubject(db: Db)
  {
    && Sessions in db.tables && db.tables[Sessions].columns == ColumnsOf(Sessions)
    && !Taken(db, IdxSessionsSubjectId)
  }

  lemma TablesFresh(db: Db, names: seq<Relation>)
    requires Clean(db) && Placed(names, 0) && |names| == 9
    ensures FreshNames(db, CreateTables(names))
    ensures forall d :: d in CreateTables(names) ==> NewTable(d) && Place(d.name) < 9
  {
    forall d | d in CreateTables(names)
      ensures NewTable(d) && Place(d.name) < 9
    {
      var k :| 0 <= k < 9 && CreateTables(names)[k] == d;
      KeyFits(names[k]);
    }
  }

  lemma IndexesFresh(mid: Db, tables: seq<Relation>, names: seq<Relation>)
    requires Placed(tables, 0) && |tables| == 9 && Placed(names, 9) && |names| == 13
    requires forall k :: 0 <= k < 9 ==> HasTable(mid, Create(tables[k]))
    requires forall r :: Taken(mid, r) ==> Place(r) < 9 || Place(r) >= 24
    ensures FreshNames(mid, CreateIndexes(names))
    ensures forall d :: d in CreateIndexes(names) ==> NewIndex(mid, d) && 9 <= Place(d.name) < 22
  {
    forall d | d in CreateIndexes(names)
      ensures NewIndex(mid, d) && 9 <= Place(d.name) < 22
    {
      var k :| 0 <= k < 13 && CreateIndexes(names)[k] == d;
      IndexFits(names[k]);
      var t := IndexOf(names[k]).table;
      PlaceIsItsOwn(tables[Place(t)], t);
    }
  }

  /** Nine tables and thirteen indexes under free names: a script of them succeeds, and
      takes no further name. */
  lemma CreationSucceeds(db: Db, tables: seq<Relation>, names: seq<Relation>)
    requires Clean(db) && Placed(tables, 0) && |tables| == 9 && Placed(names, 9) && |names| == 13
    ensures Script(db, CreateTables(tables) + CreateIndexes(names)).Some?
    ensures var end := Script(db, CreateTables(tables) + CreateIndexes(names)).value;
            && (forall k :: 0 <= k < 9 ==> HasTable(end, Create(tables[k])))
            && (forall k :: 0 <= k < 13 ==> HasIndex(end, CreateIndex(names[k], IndexOf(names[k]))))
            && (forall r :: Taken(end, r) ==> Place(r) < 22 || Place(r) >= 24)
  {
    var ts, xs := CreateTables(tables), CreateIndexes(names);
    TablesFresh(db, tables);
    TablesSucceed(db, ts);
    var mid := Script(db, ts).value;
    assert forall k :: 0 <= k < 9 ==> ts[k] in ts;
    IndexesFresh(mid, tables, names);
    IndexesSucceed(mid, xs);
    assert forall k :: 0 <= k < 13 ==> xs[k] in xs;
    ScriptConcat(db, ts, xs);
  }

  lemma CreatedIsAfterInit(end: Db, tables: seq<Relation>)
    requires Placed(tables, 0) && |tables| == 9
    requires forall k :: 0 <= k < 9 ==> HasTable(end, Create(tables[k]))
    requires forall r :: Taken(end, r) ==> Place(r) < 22 || Place(r) >= 24
    ensures AfterInit(end) && end.tables[DeviceCodes].rows == {}
  {
    PlaceIsItsOwn(tables[5], DeviceCodes);
    PlaceIsItsOwn(tables[7], Sessions);
    assert HasTable(end, Create(tables[5])) && HasTable(end, Create(tables[7]));
  }

  /** The first script succeeds wherever the names are free. */
  lemma InitSucceeds(db: Db)
    requires Taken(db, BOOK) && Clean(db)
    ensures Script(db, InitUp()).Some?
    ensures AfterInit(Script(db, InitUp()).value) && Script(db, InitUp()).value.tables[DeviceCodes].rows == {}
  {
    TablesPlaced();
    IndexesPlaced();
    CreationSucceeds(db, InitTables(), InitIndexes());
    BookIsThere(db, CreateTables(InitTables()) + CreateIndexes(InitIndexes()));
    CreatedIsAfterInit(Script(db, InitUp()).value, InitTables());
  }

  /** The second script succeeds exactly on an empty device_codes table. */
  lemma UserCodeExact(db: Db)
    requires AfterInit(db)
    ensures Script(db, UserCodeUp()).Some? <==> db.tables[DeviceCodes].rows == {}
    ensures Script(db, UserCodeUp()).Some? ==> BeforeSubject(Script(db, UserCodeUp()).value)
  {
    if db.tables[DeviceCodes].rows == {} {
      var add, index := UserCodeUp()[0], UserCodeUp()[1];
      var mid := Exec(db, add).value;
      assert UserCodeUp()[1..] == [index] && [index][1..] == [];
      assert Script(mid, [index]) == Exec(mid, index);
    }
  }

  lemma SubjectSucceeds(db: Db)
    requires BeforeSubject(db)
    ensures Script(db, SubjectUp()).Some?
  {
    var add, index := SubjectUp()[0], SubjectUp()[1];
    var mid := Exec(db, add).value;
    assert SubjectUp()[1..] == [index] && [index][1..] == [];
    assert Script(mid, [index]) == Exec(mid, index);
  }

  /** A successful first script had every name of its own free. */
  lemma InitNeedsFreeNames(db: Db, r: Relation)
    requires Taken(db, BOOK) && Script(db, InitUp()).Some? && Place(r) < 22
    ensures !Taken(db, r)
  {
    var tables, names := InitTables(), InitIndexes();
    var ts, xs := CreateTables(tables), CreateIndexes(names);
    TablesPlaced();
    IndexesPlaced();
    BookIsThere(db, ts + xs);
    CreationBuilds(tables, names);
    if Place(r) < 9 {
      PlaceIsItsOwn(tables[Place(r)], r);
      assert Create(r) == ts[Place(r)] && ts[Place(r)] in ts + xs;
      CreatedNamesWereFree(db, ts + xs, Create(r));
    } else {
      PlaceIsItsOwn(names[Place(r) - 9], r);
      assert CreateIndex(r, IndexOf(r)) == xs[Place(r) - 9] && xs[Place(r) - 9] in ts + xs;
      CreatedNamesWereFree(db, ts + xs, CreateIndex(r, IndexOf(r)));
    }
  }

  /** A name that is taken stays taken under an up script, so a later CREATE fails. */
  lemma {:induction false} UpsKeepNames(db: Db, ds: seq<Statement>, r: Relation)
    requires Script(db, ds).Some? && Taken(db, r)
    requires forall d :: d in ds ==> Builds(d) || (d.CreateTable? && d.ifNotExists)
    ensures Taken(Script(db, ds).value, r)
    decreases |ds|
  {
    if ds != [] {
      UpsKeepNames(Exec(db, ds[0]).value, ds[1..], r);
    }
  }

  lemma PairNeedsFreeName(db: Db, a: Statement, x: Relation, index: Index)
    requires a.AddColumn? && Script(db, [a, CreateIndex(x, index)]).Some?
    ensures !Taken(db, x)
  {
    var mid := Exec(db, a).value;
    assert [a, CreateIndex(x, index)][1..] == [CreateIndex(x, index)];
    assert Exec(mid, CreateIndex(x, index)).Some?;
  }

  function All(): seq<Statement>
  {
    InitUp() + (UserCodeUp() + SubjectUp())
  }

  lemma UserCodeNeedsFreeName(one: Db)
    requires Script(one, UserCodeUp()).Some?
    ensures !Taken(one, IdxDeviceCodesUserCode)
  {
    PairNeedsFreeName(one, UserCodeUp()[0], IdxDeviceCodesUserCode, IndexOf(IdxDeviceCodesUserCode));
  }

  lemma SubjectNeedsFreeName(one: Db)
    requires Script(one, UserCodeUp()).Some? && Script(Script(one, UserCodeUp()).value, SubjectUp()).Some?
    ensures !Taken(one, IdxSessionsSubjectId)
  {
    PairNeedsFreeName(Script(one, UserCodeUp()).value, SubjectUp()[0], IdxSessionsSubjectId,
                      IndexOf(IdxSessionsSubjectId));
    if Taken(one, IdxSessionsSubjectId) {
      UpsKeepNames(one, UserCodeUp(), IdxSessionsSubjectId);
    }
  }

  lemma AllNeedFreeNames(db: Db, r: Relation)
    requires Taken(db, BOOK) && Script(db, All()).Some? && Place(r) < 24
    ensures !Taken(db, r)
  {
    ScriptConcat(db, InitUp(), UserCodeUp() + SubjectUp());
    var one := Script(db, InitUp()).value;
    if Place(r) < 22 {
      InitNeedsFreeNames(db, r);
    } else {
      ScriptConcat(one, UserCodeUp(), SubjectUp());
      UserCodeNeedsFreeName(one);
      SubjectNeedsFreeName(one);
      PlaceIsItsOwn(r, if Place(r) == 22 then IdxDeviceCodesUserCode else IdxSessionsSubjectId);
      if Taken(db, r) {
        InitKeepsName(db, r);
      }
    }
  }

  /** On a database with the bookkeeping table, all scripts together succeed exactly when
      no other name of the schema is taken. */
  lemma AllSucceedExactly(db: Db)
    requires Taken(db, BOOK)
    ensures Script(db, All()).Some? <==> Clean(db)
  {
    if Clean(db) {
      ScriptConcat(db, InitUp(), UserCodeUp() + SubjectUp());
      InitSucceeds(db);
      RestFromInit(Script(db, InitUp()).value);
    }
    if Script(db, All()).Some? {
      forall r | Taken(db, r)
        ensures Place(r) >= 24
      {
        if Place(r) < 24 {
          AllNeedFreeNames(db, r);
        }
      }
    }
  }

  lemma InitKeepsName(db: Db, r: Relation)
    requires Script(db, InitUp()).Some? && Taken(db, r)
    ensures Taken(Script(db, InitUp()).value, r)
  {
    CreationBuilds(InitTables(), InitIndexes());
    UpsKeepNames(db, InitUp(), r);
  }

  /** After the first script the others succeed exactly on an empty device_codes table. */
  lemma RestFromInit(db: Db)
    requires AfterInit(db)
    ensures Script(db, UserCodeUp() + SubjectUp()).Some? <==> db.tables[DeviceCodes].rows == {}
  {
    UserCodeExact(db);
    ScriptConcat(db, UserCodeUp(), SubjectUp());
    if Script(db, UserCodeUp()).Some? {
      SubjectSucceeds(Script(db, UserCodeUp()).value);
    }
  }

  lemma BodiesOfUps()
    ensures Bodies(Ups()[0..]) == All() && Bodies(Ups()[1..]) == UserCodeUp() + SubjectUp()
    ensures Bodies(Ups()[2..]) == SubjectUp() && Bodies(Ups()[3..]) == []
    ensures Bodies(Ups()[..1]) == InitUp() && Bodies(Ups()[..2]) == InitUp() + UserCodeUp()
  {
    var ups := Ups();
    assert ups[2..][1..] == ups[3..] == [] && ups[1..][1..] == ups[2..] && ups[0..][1..] == ups[1..];
    assert Bodies(ups[3..]) == [];
    assert Bodies(ups[2..]) == SubjectUp() + Bodies(ups[3..]) == SubjectUp();
    assert Bodies(ups[1..]) == UserCodeUp() + Bodies(ups[2..]);
    assert Bodies(ups[0..]) == InitUp() + Bodies(ups[1..]);
    assert ups[..1] == [ups[0]] && ups[..2] == [ups[0]] + [ups[1]];
    assert Bodies([ups[0]]) == ups[0].body + Bodies([]) && Bodies([ups[1]]) == ups[1].body + Bodies([]);
    BodiesConcat([ups[0]], [ups[1]]);
  }

  /** Where a sound database stands after the first or the first two scripts. */
  lemma StandsAt(base: Db, n: nat, db: Db)
    requires Unmigrated(base) && Clean(base) && At(base, Ups(), n, db)
    ensures n == 0 ==> Clean(db)
    ensures n == 1 ==> AfterInit(db)
    ensures n == 2 ==> BeforeSubject(db)
  {
    var start := Shape(EnsureBook(base));
    EnsureBookKeepsWf(base);
    BodiesOfUps();
    assert Ups()[..0] == [];
    InitSucceeds(start);
    var one := Script(start, InitUp()).value;
    UserCodeExact(one);
    ScriptConcat(start, InitUp(), UserCodeUp());
    assert forall r :: Taken(Shape(db), r) <==> Taken(db, r);
  }

  /** What is left to run after the first `n` scripts succeeds, unless the second one meets
      a row in device_codes. */
  lemma RestSucceedsExactly(base: Db, n: nat, db: Db)
    requires Unmigrated(base) && Clean(base) && At(base, Ups(), n, db)
    ensures Script(db, Bodies(Ups()[n..])).Some? <==>
            (n == 1 ==> DeviceCodes in db.tables && db.tables[DeviceCodes].rows == {})
  {
    BodiesOfUps();
    StandsAt(base, n, db);
    if n == 0 {
      AllSucceedExactly(db);
    } else if n == 1 {
      RestFromInit(db);
    } else if n == 2 {
      SubjectSucceeds(db);
    }
  }

  /** The exact condition of `Up`, on a working connection and a clean base: after version
      000001 alone the device_codes table has to be empty. */
  lemma UpSucceedsExactly(base: Db, n: nat, db: Db, line: Line)
    requires Unmigrated(base) && Clean(base) && At(base, Ups(), n, db) && line.calls >= 2 + 4 * (3 - n)
    ensures UpAll(db, Ups(), line).1 <==> (n == 1 ==> DeviceCodes in db.tables && db.tables[DeviceCodes].rows == {})
  {
    VersionsDistinct();
    UpsSpareBook();
    RestSucceedsExactly(base, n, db);
    var m := UpConverges(base, Ups(), n, db, line);
  }

  /** A first `Up` succeeds exactly when no name of the schema is taken; a `Down` after it
      leaves nothing behind. */
  lemma FirstUpSucceedsExactly(db: Db, line: Line, back: Line)
    requires Unmigrated(db) && line.calls >= 14 && back.calls >= 14
    ensures UpAll(db, Ups(), line).1 <==> Clean(db)
    ensures UpAll(db, Ups(), line).1 ==>
              DownAll(UpAll(db, Ups(), line).0, Downs(), back).1
                && Outside(db, DownAll(UpAll(db, Ups(), line).0, Downs(), back).0)
  {
    RealPlan();
    var book := EnsureBook(db);
    FirstContact(db, Ups(), db);
    UpFromOutside(db, Ups(), db, line);
    var m := UpConverges(db, Ups(), 0, book, line);
    BodiesOfUps();
    AllSucceedExactly(book);
    assert Clean(book) <==> Clean(db);
    if UpAll(db, Ups(), line).1 {
      DownAfterUp(db, Ups(), Downs(), db, line, [], back);
    }
  }

  // ------------------------------------------------------------------ the schema after `Up`

  /** The tables and indexes of the first script, as functions of their names. */
  predicate HasInit(db: Db)
  {
    && (forall k :: 0 <= k < 9 ==> HasTable(db, Create(InitTables()[k])))
    && (forall k :: 0 <= k < 13 ==> HasIndex(db, CreateIndex(InitIndexes()[k], IndexOf(InitIndexes()[k]))))
  }

  lemma InitLeads(db: Db)
    requires Taken(db, BOOK) && Clean(db)
    ensures Script(db, InitUp()).Some? && HasInit(Script(db, InitUp()).value)
  {
    TablesPlaced();
    IndexesPlaced();
    CreationSucceeds(db, InitTables(), InitIndexes());
    BookIsThere(db, CreateTables(InitTables()) + CreateIndexes(InitIndexes()));
  }

  lemma InitObjects(db: Db, r: Relation)
    requires HasInit(db)
    ensures Place(r) < 9 ==> r in db.tables && db.tables[r] == Table(ColumnsOf(r), KeyOf(r), {})
    ensures 9 <= Place(r) < 22 ==> r in db.indexes && db.indexes[r] == IndexOf(r)
  {
    TablesPlaced();
    IndexesPlaced();
    if Place(r) < 9 {
      PlaceIsItsOwn(InitTables()[Place(r)], r);
      assert HasTable(db, Create(InitTables()[Place(r)]));
    } else if Place(r) < 22 {
      PlaceIsItsOwn(InitIndexes()[Place(r) - 9], r);
      assert HasIndex(db, CreateIndex(InitIndexes()[Place(r) - 9], IndexOf(InitIndexes()[Place(r) - 9])));
    }
  }

  /** A column and an index added: everything else is as before. */
  lemma PairLeads(db: Db, t: Relation, f: Field, c: Column, x: Relation, index: Index)
    requires Script(db, [AddColumn(t, f, c), CreateIndex(x, index)]).Some?
    ensures t in db.tables
    ensures Script(db, [AddColumn(t, f, c), CreateIndex(x, index)]).value
         == Db(db.tables[t := db.tables[t].(columns := db.tables[t].columns[f := c])], db.indexes[x := index])
  {
    var ds := [AddColumn(t, f, c), CreateIndex(x, index)];
    var mid := Exec(db, ds[0]).value;
    assert ds[1..] == [CreateIndex(x, index)] && ds[1..][1..] == [];
    assert Script(mid, ds[1..]) == Exec(mid, ds[1]);
  }

  predicate Follows(init: Db, end: Db)
    requires DeviceCodes in init.tables && Sessions in init.tables
  {
    var codes, sessions := init.tables[DeviceCodes], init.tables[Sessions];
    && end.tables == init.tables[DeviceCodes := codes.(columns := codes.columns[UserCode := Required(Text)])]
                                [Sessions := sessions.(columns := sessions.columns[SubjectId := Optional(Text)])]
    && end.indexes == init.indexes[IdxDeviceCodesUserCode := IndexOf(IdxDeviceCodesUserCode)]
                                  [IdxSessionsSubjectId := IndexOf(IdxSessionsSubjectId)]
  }

  /** What all scripts together make of a database with the bookkeeping table. */
  lemma AllLead(db: Db) returns (init: Db)
    requires Taken(db, BOOK) && Script(db, All()).Some?
    ensures HasInit(init) && DeviceCodes in init.tables && Sessions in init.tables
    ensures Follows(init, Script(db, All()).value)
  {
    AllSucceedExactly(db);
    InitLeads(db);
    ScriptConcat(db, InitUp(), UserCodeUp() + SubjectUp());
    init := Script(db, InitUp()).value;
    ScriptConcat(init, UserCodeUp(), SubjectUp());
    var two := Script(init, UserCodeUp()).value;
    InitObjects(init, DeviceCodes);
    InitObjects(init, Sessions);
    PairLeads(init, DeviceCodes, UserCode, Required(Text), IdxDeviceCodesUserCode, IndexOf(IdxDeviceCodesUserCode));
    PairLeads(two, Sessions, SubjectId, Optional(Text), IdxSessionsSubjectId, IndexOf(IdxSessionsSubjectId));
  }

  predicate Stands(db: Db, r: Relation, columns: map<Field, Column>, key: seq<Field>)
  {
    r in db.tables && db.tables[r].columns == columns && db.tables[r].key == key
  }

  predicate Indexed(db: Db, r: Relation, index: Index)
  {
    r in db.indexes && db.indexes[r] == index
  }

  /** The business tables, written out. */
  predicate FinalTables(db: Db)
  {
    && Stands(db, AuthorizationCodes,
              map[Handle := Column(Text, true), ExpiresAt := Column(Timestamptz, false),
                  Payload := Column(Jsonb, true)],
              [Handle])
    && Stands(db, RefreshTokens,
              map[Handle := Column(Text, true), ExpiresAt := Column(Timestamptz, false),
                  Version := Column(Bigint, true), Payload := Column(Jsonb, true)],
              [Handle])
    && Stands(db, ReferenceTokens,
              map[Handle := Column(Text, true), ExpiresAt := Column(Timestamptz, false),
                  Payload := Column(Jsonb, true)],
              [Handle])
    && Stands(db, UserConsents,
              map[SubjectId := Column(Text, true), ClientId := Column(Text, true),
                  ExpiresAt := Column(Timestamptz, false), Payload := Column(Jsonb, true)],
              [SubjectId, ClientId])
    && Stands(db, PersistedGrants,
              map[Key := Column(Text, true), SubjectId := Column(Text, true), SessionId := Column(Text, true),
                  ClientId := Column(Text, true), Type := Column(Text, true),
                  ExpiresAt := Column(Timestamptz, false), Payload := Column(Jsonb, true)],
              [Key])
    && Stands(db, DeviceCodes,
              map[Handle := Column(Text, true), ExpiresAt := Column(Timestamptz, false),
                  Payload := Column(Jsonb, true), UserCode := Column(Text, true)],
              [Handle])
    && Stands(db, BackchannelAuthRequests,
              map[Handle := Column(Text, true), ExpiresAt := Column(Timestamptz, false),
                  Payload := Column(Jsonb, true)],
              [Handle])
    && Stands(db, Sessions,
              map[SessionId := Column(Text, true), ClientIds := Column(TextArray, true),
                  Expires := Column(Timestamptz, false), Payload := Column(Jsonb, true),
                  SubjectId := Column(Text, false)],
              [SessionId])
    && Stands(db, KeyRecords,
              map[Handle := Column(Text, true), PublicId := Column(Text, true), Phase := Column(Text, true),
                  Version := Column(Bigint, true), Payload := Column(Jsonb, true)],
              [Handle])
  }

  /** The indexes of the cleanup paths, written out. */
  predicate ExpiryIndexes(db: Db)
  {
    && Indexed(db, IdxAuthorizationCodesExpiresAt, Index(AuthorizationCodes, [ExpiresAt], false, Everywhere))
    && Indexed(db, IdxRefreshTokensExpiresAt, Index(RefreshTokens, [ExpiresAt], false, Everywhere))
    && Indexed(db, IdxReferenceTokensExpiresAt, Index(ReferenceTokens, [ExpiresAt], false, Everywhere))
    && Indexed(db, IdxUserConsentsExpiresAt, Index(UserConsents, [ExpiresAt], false, Everywhere))
    && Indexed(db, IdxPersistedGrantsExpiresAt, Index(PersistedGrants, [ExpiresAt], false, Everywhere))
    && Indexed(db, IdxDeviceCodesExpiresAt, Index(DeviceCodes, [ExpiresAt], false, Everywhere))
    && Indexed(db, IdxBackchannelAuthRequestsExpiresAt,
               Index(BackchannelAuthRequests, [ExpiresAt], false, Everywhere))
    && Indexed(db, IdxSessionsExpires, Index(Sessions, [Expires], false, Everywhere))
  }

  /** The other indexes. Two are unique, and one of them covers live rows only. */
  predicate OtherIndexes(db: Db)
  {
    && Indexed(db, IdxPersistedGrantsSubjectId,
               Index(PersistedGrants, [SubjectId, ClientId, Type], false, Everywhere))
    && Indexed(db, IdxPersistedGrantsSessionId, Index(PersistedGrants, [SessionId], false, Everywhere))
    && Indexed(db, IdxPersistedGrantsClientId, Index(PersistedGrants, [ClientId, Type], false, Everywhere))
    && Indexed(db, IdxPersistedGrantsType, Index(PersistedGrants, [Type], false, Everywhere))
    && Indexed(db, IdxKeyRecordsPublicIdUnique, Index(KeyRecords, [PublicId], true, NotRetired))
    && Indexed(db, IdxDeviceCodesUserCode, Index(DeviceCodes, [UserCode], true, Everywhere))
    && Indexed(db, IdxSessionsSubjectId, Index(Sessions, [SubjectId], false, Everywhere))
  }

  lemma TableFollows(init: Db, end: Db, r: Relation)
    requires HasInit(init) && DeviceCodes in init.tables && Sessions in init.tables && Follows(init, end)
    requires Place(r) < 9
    ensures Stands(end, r, FinalColumns(r), KeyOf(r))
  {
    InitObjects(init, r);
  }

  lemma IndexFollows(init: Db, end: Db, r: Relation)
    requires HasInit(init) && DeviceCodes in init.tables && Sessions in init.tables && Follows(init, end)
    requires 9 <= Place(r) < 24
    ensures Indexed(end, r, IndexOf(r))
  {
    InitObjects(init, r);
    if Place(r) >= 22 {
      PlaceIsItsOwn(r, if Place(r) == 22 then IdxDeviceCodesUserCode else IdxSessionsSubjectId);
    }
  }

  function FinalColumns(r: Relation): map<Field, Column>
  {
    if r == DeviceCodes then ColumnsOf(r)[UserCode := Required(Text)]
    else if r == Sessions then ColumnsOf(r)[SubjectId := Optional(Text)]
    else ColumnsOf(r)
  }

  ghost predicate AllStand(db: Db)
  {
    forall r :: Place(r) < 9 ==> Stands(db, r, FinalColumns(r), KeyOf(r))
  }

  ghost predicate AllIndexed(db: Db)
  {
    forall r :: 9 <= Place(r) < 24 ==> Indexed(db, r, IndexOf(r))
  }

  lemma ObjectsFollow(init: Db, end: Db)
    requires HasInit(init) && DeviceCodes in init.tables && Sessions in init.tables && Follows(init, end)
    ensures AllStand(end) && AllIndexed(end)
  {
    forall r | Place(r) < 9
      ensures Stands(end, r, FinalColumns(r), KeyOf(r))
    {
      TableFollows(init, end, r);
    }
    forall r | 9 <= Place(r) < 24
      ensures Indexed(end, r, IndexOf(r))
    {
      IndexFollows(init, end, r);
    }
  }

  lemma OneStands(db: Db, r: Relation)
    requires AllStand(db) && Place(r) < 9
    ensures Stands(db, r, FinalColumns(r), KeyOf(r))
  {
  }

  lemma OneIndexed(db: Db, r: Relation)
    requires AllIndexed(db) && 9 <= Place(r) < 24
    ensures Indexed(db, r, IndexOf(r))
  {
  }

  lemma TablesWrittenOut(db: Db)
    requires AllStand(db)
    ensures FinalTables(db)
  {
    OneStands(db, AuthorizationCodes);
    OneStands(db, RefreshTokens);
    OneStands(db, ReferenceTokens);
    OneStands(db, UserConsents);
    OneStands(db, PersistedGrants);
    OneStands(db, DeviceCodes);
    OneStands(db, BackchannelAuthRequests);
    OneStands(db, Sessions);
    OneStands(db, KeyRecords);
  }

  lemma ExpiryIndexesWrittenOut(db: Db)
    requires AllIndexed(db)
    ensures ExpiryIndexes(db)
  {
    OneIndexed(db, IdxAuthorizationCodesExpiresAt);
    OneIndexed(db, IdxRefreshTokensExpiresAt);
    OneIndexed(db, IdxReferenceTokensExpiresAt);
    OneIndexed(db, IdxUserConsentsExpiresAt);
    OneIndexed(db, IdxPersistedGrantsExpiresAt);
    OneIndexed(db, IdxDeviceCodesExpiresAt);
    OneIndexed(db, IdxBackchannelAuthRequestsExpiresAt);
    OneIndexed(db, IdxSessionsExpires);
  }

  lemma OtherIndexesWrittenOut(db: Db)
    requires AllIndexed(db)
    ensures OtherIndexes(db)
  {
    OneIndexed(db, IdxPersistedGrantsSubjectId);
    OneIndexed(db, IdxPersistedGrantsSessionId);
    OneIndexed(db, IdxPersistedGrantsClientId);
    OneIndexed(db, IdxPersistedGrantsType);
    OneIndexed(db, IdxKeyRecordsPublicIdUnique);
    OneIndexed(db, IdxDeviceCodesUserCode);
    OneIndexed(db, IdxSessionsSubjectId);
  }

  lemma AllInOne(ups: seq<File>)
    ensures ups[0..] == ups && ups[0..|ups|] == ups && ups[..|ups|] == ups
  {
  }

  /** A first successful `Up` has run all scripts and recorded all versions. */
  lemma FirstUpAdvances(db: Db, line: Line)
    requires Unmigrated(db) && UpAll(db, Ups(), line).1
    ensures Advanced(EnsureBook(db), Ups(), 0, |Ups()|) == Some(UpAll(db, Ups(), line).0)
  {
    VersionsDistinct();
    UpsSpareBook();
    FirstContact(db, Ups(), db);
    UpFromOutside(db, Ups(), db, line);
    var m := UpConverges(db, Ups(), 0, EnsureBook(db), line);
  }

  lemma FirstUpRunsAll(db: Db, line: Line) returns (scripted: Db)
    requires Unmigrated(db) && UpAll(db, Ups(), line).1
    ensures Script(EnsureBook(db), All()) == Some(scripted) && BOOK in scripted.tables
    ensures UpAll(db, Ups(), line).0 == SetRows(scripted, BOOK, Names(Ups()))
  {
    FirstUpAdvances(db, line);
    BodiesOfUps();
    AllInOne(Ups());
    scripted := Script(EnsureBook(db), All()).value;
  }

  lemma AllSpareBook()
    ensures Spares(All(), BOOK)
  {
    UpsSpareBook();
    BodiesSpare(Ups());
    BodiesOfUps();
    AllInOne(Ups());
  }

  /** What a first successful `Up` leaves: the tables and indexes the stores rest on, and
      the bookkeeping table with the three versions. */
  lemma FirstUpLeaves(db: Db, line: Line)
    requires Unmigrated(db) && UpAll(db, Ups(), line).1
    ensures var end := UpAll(db, Ups(), line).0;
            && FinalTables(end) && ExpiryIndexes(end) && OtherIndexes(end)
            && Stands(end, SchemaMigrations,
                      map[Version := Column(Text, true), AppliedAt := Column(Timestamptz, true)], [Version])
            && end.tables[SchemaMigrations].rows == {"000001", "000002", "000003"}
  {
    var scripted := FirstUpRunsAll(db, line);
    EnsureBookKeepsWf(db);
    var init := AllLead(EnsureBook(db));
    ObjectsFollow(init, scripted);
    TablesWrittenOut(scripted);
    ExpiryIndexesWrittenOut(scripted);
    OtherIndexesWrittenOut(scripted);
    AllSpareBook();
    SparedRows(EnsureBook(db), All(), BOOK, {});
    BookOnly(scripted, UpAll(db, Ups(), line).0, Names(Ups()));
    NamesOfUps();
  }

  lemma NamesOfUps()
    ensures Names(Ups()) == {"000001", "000002", "000003"}
  {
  }

  lemma BookOnly(scripted: Db, end: Db, versions: set<string>)
    requires FinalTables(scripted) && ExpiryIndexes(scripted) && OtherIndexes(scripted) && BOOK in scripted.tables
    requires end == SetRows(scripted, BOOK, versions)
    ensures FinalTables(end) && ExpiryIndexes(end) && OtherIndexes(end)
    ensures Stands(end, BOOK, scripted.tables[BOOK].columns, scripted.tables[BOOK].key)
    ensures end.tables[BOOK].rows == versions
  {
  }
}
