/** store/persisted_grant.go: the grants table against a plain map from key to grant.
    Queries read the filter columns; callers see the decoded payload. */
module PersistedGrants {
  import opened Prelude
  import opened Time
  import opened GrantFilter
  import Reclaim

  /** The model value. `kind` is the field `Type`; a nil `Expiration` is `None`; `body`
      stands for the fields the adapter never looks at. */
  datatype Grant = Grant(key: string, subjectId: string, sessionId: string, clientId: string, kind: string,
                         expiration: Option<Instant>, body: string)

  datatype Row = Row(dims: Dimensions, expiresAt: Option<int>, payload: string)

  type Table = map<string, Row>

  datatype Statement =
    | Upsert(grant: Grant)
    | Delete(key: string)
    | DeleteWhere(filter: Option<Filter>)
    | DeleteExpired(cutoff: Instant)
    | Select

  const SELECT: string := "SELECT payload FROM persisted_grants"
  const DELETE: string := "DELETE FROM persisted_grants"

  function DimensionsOf(g: Grant): Dimensions
  {
    Dimensions(g.subjectId, g.sessionId, g.clientId, g.kind)
  }

  function KeyOf(g: Grant): string
  {
    g.key
  }

  function ExpiryColumn(r: Row): Option<int>
  {
    r.expiresAt
  }

  /** The keys a statement text selects with its arguments. */
  function Selected(t: Table, base: string, query: string, args: seq<Arg>): set<string>
  {
    set k | k in t && Selects(base, query, args, t[k].dims) == Some(true)
  }

  function WhereText(filter: Option<Filter>): string
  {
    Join(Texts(ConditionsOf(filter), 1))
  }

  /** INSERT ... ON CONFLICT (key) DO UPDATE: every column is replaced. */
  function Exec(p: Payloads<Grant>, t: Table, s: Statement): Table
  {
    match s
    case Upsert(g) =>
      if p.encode(g).Some?
      then t[g.key := Row(DimensionsOf(g), MicrosOf(g.expiration), p.encode(g).value)]
      else t
    case Delete(key) => t - {key}
    case DeleteWhere(filter) =>
      t - Selected(t, "DELETE FROM persisted_grants", QueryText(DELETE, WhereText(filter)), Args(ConditionsOf(filter)))
    case DeleteExpired(cutoff) => Reclaim.Reclaimed(t, ExpiryColumn, Micros(cutoff))
    case Select => t
  }

  function Executor(p: Payloads<Grant>): (Table, Statement) -> Table
  {
    (t, s) => Exec(p, t, s)
  }

  function Run(p: Payloads<Grant>, t: Table, ss: seq<Statement>): Table
  {
    RunAll(Executor(p), t, ss)
  }

  // --------------------------------------------------------------- refinement

  type Model = map<string, Grant>

  /** The stored grants whose own fields satisfy the filter. */
  function Matching(m: Model, filter: Option<Filter>): set<string>
  {
    set k | k in m && Matches(filter, DimensionsOf(m[k]))
  }

  /** Written out on the grants' own fields. */
  lemma MatchingExactly(m: Model, f: Filter, k: string)
    ensures k in Matching(m, None) <==> k in m
    ensures k in Matching(m, Some(f)) <==>
              && k in m
              && (f.subjectId != "" ==> m[k].subjectId == f.subjectId)
              && (f.sessionId != "" ==> m[k].sessionId == f.sessionId)
              && (f.clientId != "" ==> m[k].clientId == f.clientId)
              && (f.clientIds != [] ==> m[k].clientId in f.clientIds)
              && (f.kind != "" ==> m[k].kind == f.kind)
              && (f.kinds != [] ==> m[k].kind in f.kinds)
  {
  }

  function ExpiredIn(m: Model, cutoff: Instant): set<string>
  {
    set k | k in m && m[k].expiration.Some? && Micros(m[k].expiration.value) < Micros(cutoff)
  }

  /** What the port promises of a map from key to grant. */
  function Promise(m: Model, s: Statement, encodable: Grant -> bool): Model
  {
    match s
    case Upsert(g) => if encodable(g) then m[g.key := g] else m
    case Delete(key) => m - {key}
    case DeleteWhere(filter) => m - Matching(m, filter)
    case DeleteExpired(cutoff) => m - ExpiredIn(m, cutoff)
    case Select => m
  }

  function Encodable(p: Payloads<Grant>): Grant -> bool
  {
    g => p.encode(g).Some?
  }

  function Promiser(p: Payloads<Grant>): (Model, Statement) -> Model
  {
    (m, s) => Promise(m, s, Encodable(p))
  }

  function Kept(p: Payloads<Grant>, m: Model, ss: seq<Statement>): Model
  {
    RunAll(Promiser(p), m, ss)
  }

  function Abs(p: Payloads<Grant>, t: Table): Model
  {
    map k | k in t && p.decode(t[k].payload).Some? :: p.decode(t[k].payload).value
  }

  ghost predicate Agrees(p: Payloads<Grant>, k: string, r: Row)
  {
    match p.decode(r.payload)
    case None => false
    case Some(g) => g.key == k && r.dims == DimensionsOf(g) && r.expiresAt == MicrosOf(g.expiration)
  }

  /** No column is stale: each equals the field of the decoded grant. */
  ghost predicate Consistent(p: Payloads<Grant>, t: Table)
  {
    forall k :: k in t ==> Agrees(p, k, t[k])
  }

  lemma ReadsAs(p: Payloads<Grant>, t: Table, m: Model)
    requires Consistent(p, t)
    ensures Abs(p, t) == m <==> m.Keys == t.Keys && forall k :: k in t ==> p.decode(t[k].payload) == Some(m[k])
  {
    forall k | k in t
      ensures p.decode(t[k].payload).Some?
    {
      assert Agrees(p, k, t[k]);
    }
    assert Abs(p, t).Keys == t.Keys;
  }

  lemma DeleteRefines(p: Payloads<Grant>, t: Table, gone: set<string>)
    requires Consistent(p, t)
    ensures Consistent(p, t - gone)
    ensures Abs(p, t - gone) == Abs(p, t) - gone
  {
    ReadsAs(p, t, Abs(p, t));
    ReadsAs(p, t - gone, Abs(p, t) - gone);
  }

  lemma UpsertRefines(p: Payloads<Grant>, t: Table, g: Grant)
    requires Faithful(p) && Consistent(p, t) && p.encode(g).Some?
    ensures Consistent(p, Exec(p, t, Upsert(g)))
    ensures Abs(p, Exec(p, t, Upsert(g))) == Abs(p, t)[g.key := g]
  {
    assert p.decode(p.encode(g).value) == Some(g);
    var t' := Exec(p, t, Upsert(g));
    assert Agrees(p, g.key, t'[g.key]);
    ReadsAs(p, t, Abs(p, t));
    ReadsAs(p, t', Abs(p, t)[g.key := g]);
  }

  /** The compiled query selects, by columns, exactly the grants whose decoded fields
      match. It does so for the listing and for the deletion. */
  lemma QueryExact(p: Payloads<Grant>, t: Table, base: string, filter: Option<Filter>)
    requires Consistent(p, t)
    ensures Selected(t, base, QueryText(base, WhereText(filter)), Args(ConditionsOf(filter)))
            == Matching(Abs(p, t), filter)
  {
    ReadsAs(p, t, Abs(p, t));
    forall k | k in t
      ensures Selects(base, QueryText(base, WhereText(filter)), Args(ConditionsOf(filter)), t[k].dims)
              == Some(Matches(filter, DimensionsOf(Abs(p, t)[k])))
    {
      assert Agrees(p, k, t[k]);
      CompilationPreservesMeaning(base, filter, t[k].dims);
    }
  }

  lemma ExpiryQueryExact(p: Payloads<Grant>, t: Table, cutoff: Instant)
    requires Consistent(p, t)
    ensures Reclaim.Doomed(t, ExpiryColumn, Micros(cutoff)) == ExpiredIn(Abs(p, t), cutoff)
  {
    ReadsAs(p, t, Abs(p, t));
    forall k | k in t
      ensures Agrees(p, k, t[k])
    {
    }
  }

  lemma StepRefines(p: Payloads<Grant>, t: Table, s: Statement)
    requires Faithful(p) && Consistent(p, t)
    ensures Consistent(p, Exec(p, t, s))
    ensures Abs(p, Exec(p, t, s)) == Promise(Abs(p, t), s, Encodable(p))
  {
    match s
    case Upsert(g) =>
      if p.encode(g).Some? {
        UpsertRefines(p, t, g);
      }
    case Delete(key) => DeleteRefines(p, t, {key});
    case DeleteWhere(filter) =>
      QueryExact(p, t, DELETE, filter);
      DeleteRefines(p, t, Matching(Abs(p, t), filter));
    case DeleteExpired(cutoff) =>
      ExpiryQueryExact(p, t, cutoff);
      DeleteRefines(p, t, ExpiredIn(Abs(p, t), cutoff));
    case Select =>
  }

  /** Over every run the columns stay true to the payload and the table reads as the
      plain map would. */
  lemma RunRefines(p: Payloads<Grant>, t: Table, ss: seq<Statement>)
    requires Faithful(p) && Consistent(p, t)
    ensures Consistent(p, Run(p, t, ss))
    ensures Abs(p, Run(p, t, ss)) == Kept(p, Abs(p, t), ss)
  {
    forall t, s | Consistent(p, t)
      ensures Consistent(p, Exec(p, t, s)) && Abs(p, Exec(p, t, s)) == Promise(Abs(p, t), s, Encodable(p))
    {
      StepRefines(p, t, s);
    }
    RunSimulates(Executor(p), Promiser(p), (t, m) => Consistent(p, t) && Abs(p, t) == m, t, Abs(p, t), ss);
  }

  /** `after` is `m` without what `filter` lists: the listing is then empty, everything
      outside it is as before, and any other listing lacks only what was removed. */
  ghost predicate SplitBy(m: Model, after: Model, filter: Option<Filter>)
  {
    && Matching(after, filter) == {}
    && after.Keys == m.Keys - Matching(m, filter)
    && (forall k :: k in after ==> after[k] == m[k])
    && |m| == |after| + |Matching(m, filter)|
    && forall other :: Matching(after, other) == Matching(m, other) - Matching(m, filter)
  }

  lemma RemovalSplits(m: Model, filter: Option<Filter>)
    ensures SplitBy(m, m - Matching(m, filter), filter)
  {
    var after := m - Matching(m, filter);
    Reclaim.Conservation(m, Matching(m, filter));
    forall other
      ensures Matching(after, other) == Matching(m, other) - Matching(m, filter)
    {
    }
  }

  /** Revocation removes exactly what the listing shows. */
  lemma RevocationMatchesListing(p: Payloads<Grant>, t: Table, filter: Option<Filter>)
    requires Faithful(p) && Consistent(p, t)
    ensures SplitBy(Abs(p, t), Abs(p, Exec(p, t, DeleteWhere(filter))), filter)
  {
    StepRefines(p, t, DeleteWhere(filter));
    RemovalSplits(Abs(p, t), filter);
  }

  /** A reclaim never takes a grant that does not expire before the cutoff. */
  lemma ReclaimNeverEarly(p: Payloads<Grant>, t: Table, cutoff: Instant, k: string)
    requires Consistent(p, t) && k in t && k !in Exec(p, t, DeleteExpired(cutoff))
    ensures var g := p.decode(t[k].payload).value; g.expiration.Some? && g.expiration.value < cutoff
  {
    var exact := (r: Row) =>
      match p.decode(r.payload)
      case None => None
      case Some(g) => g.expiration;
    assert Agrees(p, k, t[k]);
    MicrosIsMonotone();
    Reclaim.NeverEarly(t, exact, ExpiryColumn, Micros, cutoff, k);
  }

  // ------------------------------------------------------------------ methods

  function Reader(p: Payloads<Grant>, t: Table): string -> Option<Grant>
  {
    k => if k in t then p.decode(t[k].payload) else None
  }

  lemma ScanIsListing(p: Payloads<Grant>, t: Table, order: seq<string>, keys: set<string>,
                      r: Result<seq<Grant>, Outcome>)
    requires Consistent(p, t) && Enumerates(order, keys) && keys <= t.Keys
    ensures |order| == |keys| && forall k :: k in order ==> Reader(p, t)(k).Some?
    ensures r.Ok? && |r.value| == |order|
            && (forall i :: 0 <= i < |order| ==> Reader(p, t)(order[i]) == Some(r.value[i]))
            ==> Lists(r.value, KeyOf, Abs(p, t), keys)
  {
    EnumeratesEach(order, keys);
    forall k | k in order
      ensures k in Abs(p, t) && Reader(p, t)(k) == Some(Abs(p, t)[k]) && KeyOf(Abs(p, t)[k]) == k
    {
      assert Agrees(p, k, t[k]);
    }
    if r.Ok? && |r.value| == |order| && forall i :: 0 <= i < |order| ==> Reader(p, t)(order[i]) == Some(r.value[i]) {
      ScanLists(r.value, order, KeyOf, Abs(p, t), keys);
    }
  }

  /** A reclaim by exact times: a grant that expired a microsecond or more before the
      cutoff goes, one that expires at or after it, or never, stays as it is. */
  lemma ReclaimExact(p: Payloads<Grant>, t: Table, cutoff: Instant, k: string)
    requires Consistent(p, t) && k in t
    ensures p.decode(t[k].payload).Some?
    ensures var expiry, after := p.decode(t[k].payload).value.expiration, Exec(p, t, DeleteExpired(cutoff));
            && (expiry.Some? && expiry.value + 1000 <= cutoff ==> k !in after)
            && (expiry.None? || cutoff <= expiry.value ==> k in after && after[k] == t[k])
  {
    assert Agrees(p, k, t[k]);
    var expiry := p.decode(t[k].payload).value.expiration;
    if expiry.Some? {
      MicrosResolution(expiry.value, cutoff);
      MicrosResolution(cutoff, expiry.value);
    }
  }

  class PersistedGrantStore {
    const payloads: Payloads<Grant>
    var rows: Table

    ghost predicate Valid()
      reads this
    {
      Faithful(payloads) && Consistent(payloads, rows)
    }

    ghost function Contents(): Model
      reads this
    {
      Abs(payloads, rows)
    }

    constructor (payloads: Payloads<Grant>)
      requires Faithful(payloads)
      ensures Valid() && Contents() == map[] && this.payloads == payloads
    {
      this.payloads := payloads;
      rows := map[];
    }

    method Store(grant: Grant) returns (r: Outcome)
      requires Valid()
      modifies this`rows
      ensures Valid() && Contents() == Promise(old(Contents()), Upsert(grant), Encodable(payloads))
      ensures r == if payloads.encode(grant).Some? then Done else Failed
      ensures Contents() == if r == Done then old(Contents())[grant.key := grant] else old(Contents())
    {
      StepRefines(payloads, rows, Upsert(grant));
      var payload := payloads.encode(grant);
      if payload.None? {
        return Failed;
      }
      var dims := Dimensions(grant.subjectId, grant.sessionId, grant.clientId, grant.kind);
      rows := rows[grant.key := Row(dims, MicrosOf(grant.expiration), payload.value)];
      return Done;
    }

    method Get(key: string) returns (r: Result<Grant, Outcome>)
      requires Valid()
      ensures r == if key in Contents() then Ok(Contents()[key]) else Err(NotFound)
    {
      if key !in rows {
        return Err(NotFound);
      }
      assert Agrees(payloads, key, rows[key]);
      var grant := payloads.decode(rows[key].payload);
      if grant.None? {
        return Err(Failed);
      }
      return Ok(grant.value);
    }

    /** Exactly the grants whose own fields match, each once, unless the scan breaks off,
        after `broken` rows. */
    method GetAll(filter: Option<Filter>, broken: Option<nat>) returns (r: Result<seq<Grant>, Outcome>)
      requires Valid()
      ensures var found := Matching(Contents(), filter);
              if broken.Some? && broken.value <= |found| then r == Err(Failed)
              else r.Ok? && Lists(r.value, KeyOf, Contents(), found)
    {
      var where, args := BuildFilter(filter);
      var query := SELECT;
      if where != "" {
        query := query + " WHERE " + where;
      }
      var order := ScanOrder(Selected(rows, "SELECT payload FROM persisted_grants", query, args));
      r := FetchAll(order, Reader(payloads, rows), broken);
      QueryExact(payloads, rows, SELECT, filter);
      ScanIsListing(payloads, rows, order, Matching(Contents(), filter), r);
    }

    method Remove(key: string) returns (r: Outcome)
      requires Valid()
      modifies this`rows
      ensures Valid() && Contents() == Promise(old(Contents()), Delete(key), Encodable(payloads))
      ensures Contents() == old(Contents()) - {key}
      ensures r == Done
    {
      StepRefines(payloads, rows, Delete(key));
      rows := rows - {key};
      return Done;
    }

    method RemoveAll(filter: Option<Filter>) returns (r: Outcome)
      requires Valid()
      modifies this`rows
      ensures Valid() && Contents() == Promise(old(Contents()), DeleteWhere(filter), Encodable(payloads))
      ensures Contents() == old(Contents()) - Matching(old(Contents()), filter)
      ensures r == Done
    {
      StepRefines(payloads, rows, DeleteWhere(filter));
      var where, args := BuildFilter(filter);
      var query := DELETE;
      if where != "" {
        query := query + " WHERE " + where;
      }
      rows := rows - Selected(rows, "DELETE FROM persisted_grants", query, args);
      return Done;
    }

    method RemoveExpired(cutoff: Instant) returns (count: nat)
      requires Valid()
      modifies this`rows
      ensures Valid() && Contents() == Promise(old(Contents()), DeleteExpired(cutoff), Encodable(payloads))
      ensures count == |old(rows)| - |rows|
    {
      var gone := Reclaim.Doomed(rows, ExpiryColumn, Micros(cutoff));
      assert |rows - gone| == |rows| - |gone| by {
        Reclaim.Conservation(rows, gone);
      }
      StepRefines(payloads, rows, DeleteExpired(cutoff));
      rows := rows - gone;
      return |gone|;
    }
  }
}
