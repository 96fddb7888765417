/** store/device_flow.go: one row under two unique keys, against a pair of maps. */
module DeviceFlow {
  import opened Prelude
  import opened Time
  import Reclaim

  /** The model value; `body` stands for the fields the adapter never looks at. */
  datatype DeviceCode = DeviceCode(creationTime: Instant, lifetime: Int64, body: string)

  datatype Row = Row(userCode: string, expiresAt: Option<int>, payload: string)

  /** Rows by device code, the primary key. */
  type Table = map<string, Row>

  datatype Statement =
    | Insert(deviceCode: string, userCode: string, data: DeviceCode)
    | UpdateUser(userCode: string, data: DeviceCode)
    | Delete(deviceCode: string)
    | DeleteExpired(cutoff: Instant)
    | Select

  function Expiry(data: DeviceCode): Option<int>
  {
    Some(Micros(LifetimeExpiry(data.creationTime, data.lifetime)))
  }

  function ExpiryColumn(r: Row): Option<int>
  {
    r.expiresAt
  }

  /** `WHERE user_code = $1` */
  function WithUser(t: Table, userCode: string): set<string>
  {
    set d | d in t && t[d].userCode == userCode
  }

  /** The entries of the unique index on `user_code`. */
  function UserCodes(t: Table): set<string>
  {
    set d | d in t :: t[d].userCode
  }

  function RowFor(p: Payloads<DeviceCode>, userCode: string, data: DeviceCode): Row
    requires p.encode(data).Some?
  {
    Row(userCode, Expiry(data), p.encode(data).value)
  }

  /** The rows under a user code with payload and expiry replaced. */
  function Rewritten(p: Payloads<DeviceCode>, t: Table, userCode: string, data: DeviceCode): (t': Table)
    requires p.encode(data).Some?
    ensures t'.Keys == t.Keys
    ensures forall d :: d in t ==> t'[d] == if t[d].userCode == userCode then RowFor(p, userCode, data) else t[d]
  {
    map d | d in t :: if t[d].userCode == userCode then RowFor(p, userCode, data) else t[d]
  }

  function Exec(p: Payloads<DeviceCode>, t: Table, s: Statement): Table
  {
    match s
    case Insert(d, u, data) =>
      if p.encode(data).Some? && d !in t && u !in UserCodes(t) then t[d := RowFor(p, u, data)] else t
    case UpdateUser(u, data) =>
      if p.encode(data).Some? then Rewritten(p, t, u, data) else t
    case Delete(d) => t - {d}
    case DeleteExpired(cutoff) => Reclaim.Reclaimed(t, ExpiryColumn, Micros(cutoff))
    case Select => t
  }

  function Executor(p: Payloads<DeviceCode>): (Table, Statement) -> Table
  {
    (t, s) => Exec(p, t, s)
  }

  function Run(p: Payloads<DeviceCode>, t: Table, ss: seq<Statement>): Table
  {
    RunAll(Executor(p), t, ss)
  }

  // --------------------------------------------------------------- refinement

  /** What the port promises: two indexes over the same records, and which device code
      goes with which user code. */
  datatype Model = Model(byDevice: map<string, DeviceCode>, byUser: map<string, DeviceCode>,
                         deviceOf: map<string, string>)

  const EMPTY: Model := Model(map[], map[], map[])

  function ExpiredIn(m: Model, cutoff: Instant): set<string>
  {
    set d | d in m.byDevice
            && Micros(LifetimeExpiry(m.byDevice[d].creationTime, m.byDevice[d].lifetime)) < Micros(cutoff)
  }

  function UsersOf(m: Model, devices: set<string>): set<string>
  {
    set u | u in m.deviceOf && m.deviceOf[u] in devices
  }

  function Without(m: Model, devices: set<string>): Model
  {
    var users := UsersOf(m, devices);
    Model(m.byDevice - devices, m.byUser - users, m.deviceOf - users)
  }

  function With(m: Model, d: string, u: string, data: DeviceCode): Model
  {
    Model(m.byDevice[d := data], m.byUser[u := data], m.deviceOf[u := d])
  }

  function Promise(m: Model, s: Statement, encodable: DeviceCode -> bool): Model
  {
    match s
    case Insert(d, u, data) =>
      if encodable(data) && d !in m.byDevice && u !in m.byUser then With(m, d, u, data) else m
    case UpdateUser(u, data) =>
      if encodable(data) && u in m.byUser && u in m.deviceOf then With(m, m.deviceOf[u], u, data) else m
    case Delete(d) => Without(m, {d})
    case DeleteExpired(cutoff) => Without(m, ExpiredIn(m, cutoff))
    case Select => m
  }

  function Encodable(p: Payloads<DeviceCode>): DeviceCode -> bool
  {
    data => p.encode(data).Some?
  }

  function Promiser(p: Payloads<DeviceCode>): (Model, Statement) -> Model
  {
    (m, s) => Promise(m, s, Encodable(p))
  }

  function Kept(p: Payloads<DeviceCode>, m: Model, ss: seq<Statement>): Model
  {
    RunAll(Promiser(p), m, ss)
  }

  /** Every payload reads back, and the expiry column is the one derived from it. */
  ghost predicate Fresh(p: Payloads<DeviceCode>, t: Table)
  {
    forall d :: d in t ==>
      p.decode(t[d].payload).Some? && t[d].expiresAt == Expiry(p.decode(t[d].payload).value)
  }

  ghost predicate UserCodesUnique(t: Table)
  {
    forall d, e :: d in t && e in t && t[d].userCode == t[e].userCode ==> d == e
  }

  /** The row of a device code is what its map holds, and its user code leads back. */
  ghost predicate DeviceReads(p: Payloads<DeviceCode>, t: Table, m: Model, d: string)
  {
    && d in t && d in m.byDevice && p.decode(t[d].payload) == Some(m.byDevice[d])
    && t[d].userCode in m.deviceOf && m.deviceOf[t[d].userCode] == d
  }

  ghost predicate UserReads(t: Table, m: Model, u: string)
  {
    && u in m.deviceOf && u in m.byUser
    && var d := m.deviceOf[u]; d in t && t[d].userCode == u && d in m.byDevice && m.byUser[u] == m.byDevice[d]
  }

  /** The table reads as the two maps: each lookup finds what its map holds, and a row
      is found under both of its codes. */
  ghost predicate Reads(p: Payloads<DeviceCode>, t: Table, m: Model)
  {
    && m.byDevice.Keys == t.Keys && m.byUser.Keys == m.deviceOf.Keys
    && (forall d {:trigger DeviceReads(p, t, m, d)} :: d in t ==> DeviceReads(p, t, m, d))
    && (forall u {:trigger UserReads(t, m, u)} :: u in m.byUser ==> UserReads(t, m, u))
  }

  lemma UserIndex(p: Payloads<DeviceCode>, t: Table, m: Model)
    requires Reads(p, t, m)
    ensures UserCodes(t) == m.byUser.Keys
    ensures forall u :: u in m.byUser ==> WithUser(t, u) == {m.deviceOf[u]}
    ensures forall u :: u !in m.byUser ==> WithUser(t, u) == {}
  {
    forall u | u in m.byUser
      ensures u in UserCodes(t)
    {
      assert UserReads(t, m, u);
    }
    forall d | d in t
      ensures t[d].userCode in m.byUser && m.deviceOf[t[d].userCode] == d
    {
      assert DeviceReads(p, t, m, d);
    }
  }

  lemma ReadsUnique(p: Payloads<DeviceCode>, t: Table, m: Model)
    requires Reads(p, t, m)
    ensures UserCodesUnique(t)
  {
    forall d, e | d in t && e in t && t[d].userCode == t[e].userCode
      ensures d == e
    {
      assert DeviceReads(p, t, m, d) && DeviceReads(p, t, m, e);
    }
  }

  lemma WriteFresh(p: Payloads<DeviceCode>, t: Table, d: string, u: string, data: DeviceCode)
    requires Faithful(p) && Fresh(p, t) && p.encode(data).Some?
    ensures Fresh(p, t[d := RowFor(p, u, data)])
  {
    assert p.decode(p.encode(data).value) == Some(data);
  }

  /** A row written under a free pair, or over the pair's own row. */
  lemma WriteRefines(p: Payloads<DeviceCode>, t: Table, m: Model, d: string, u: string, data: DeviceCode)
    requires Faithful(p) && Reads(p, t, m) && p.encode(data).Some?
    requires (d !in t && u !in m.byUser) || (u in m.byUser && m.deviceOf[u] == d)
    ensures Reads(p, t[d := RowFor(p, u, data)], With(m, d, u, data))
  {
    assert p.decode(p.encode(data).value) == Some(data);
    var t', m' := t[d := RowFor(p, u, data)], With(m, d, u, data);
    assert u in m.byUser ==> UserReads(t, m, u);
    forall e | e in t'
      ensures DeviceReads(p, t', m', e)
    {
      if e != d {
        assert DeviceReads(p, t, m, e);
      }
    }
    forall v | v in m'.byUser
      ensures UserReads(t', m', v)
    {
      if v != u {
        assert UserReads(t, m, v);
      }
    }
  }

  lemma UpdateWrites(p: Payloads<DeviceCode>, t: Table, m: Model, u: string, data: DeviceCode)
    requires Reads(p, t, m) && p.encode(data).Some?
    ensures Rewritten(p, t, u, data) == if u in m.byUser then t[m.deviceOf[u] := RowFor(p, u, data)] else t
  {
    assert u in m.byUser ==> UserReads(t, m, u);
    forall d | d in t
      ensures t[d].userCode == u ==> u in m.byUser && m.deviceOf[u] == d
    {
      assert DeviceReads(p, t, m, d);
    }
  }

  lemma DeleteRefines(p: Payloads<DeviceCode>, t: Table, m: Model, gone: set<string>)
    requires Fresh(p, t) && Reads(p, t, m)
    ensures Fresh(p, t - gone)
    ensures Reads(p, t - gone, Without(m, gone))
  {
    var t', m' := t - gone, Without(m, gone);
    forall d | d in t'
      ensures DeviceReads(p, t', m', d)
    {
      assert DeviceReads(p, t, m, d);
    }
    forall u | u in m'.byUser
      ensures UserReads(t', m', u)
    {
      assert UserReads(t, m, u);
    }
  }

  lemma ExpiryQueryExact(p: Payloads<DeviceCode>, t: Table, m: Model, cutoff: Instant)
    requires Fresh(p, t) && Reads(p, t, m)
    ensures Reclaim.Doomed(t, ExpiryColumn, Micros(cutoff)) == ExpiredIn(m, cutoff)
  {
    forall d | d in t
      ensures DeviceReads(p, t, m, d)
    {
    }
  }

  lemma InsertRefines(p: Payloads<DeviceCode>, t: Table, m: Model, d: string, u: string, data: DeviceCode)
    requires Faithful(p) && Fresh(p, t) && Reads(p, t, m)
    ensures Fresh(p, Exec(p, t, Insert(d, u, data)))
    ensures Reads(p, Exec(p, t, Insert(d, u, data)), Promise(m, Insert(d, u, data), Encodable(p)))
  {
    assert UserCodes(t) == m.byUser.Keys by {
      UserIndex(p, t, m);
    }
    if p.encode(data).Some? && d !in t && u !in m.byUser {
      WriteFresh(p, t, d, u, data);
      WriteRefines(p, t, m, d, u, data);
    }
  }

  lemma UpdateRefines(p: Payloads<DeviceCode>, t: Table, m: Model, u: string, data: DeviceCode)
    requires Faithful(p) && Fresh(p, t) && Reads(p, t, m)
    ensures Fresh(p, Exec(p, t, UpdateUser(u, data)))
    ensures Reads(p, Exec(p, t, UpdateUser(u, data)), Promise(m, UpdateUser(u, data), Encodable(p)))
  {
    if p.encode(data).Some? {
      UpdateWrites(p, t, m, u, data);
      if u in m.byUser {
        WriteFresh(p, t, m.deviceOf[u], u, data);
        WriteRefines(p, t, m, m.deviceOf[u], u, data);
      }
    }
  }

  lemma StepRefines(p: Payloads<DeviceCode>, t: Table, m: Model, s: Statement)
    requires Faithful(p) && Fresh(p, t) && Reads(p, t, m)
    ensures Fresh(p, Exec(p, t, s))
    ensures Reads(p, Exec(p, t, s), Promise(m, s, Encodable(p)))
  {
    match s
    case Insert(d, u, data) => InsertRefines(p, t, m, d, u, data);
    case UpdateUser(u, data) => UpdateRefines(p, t, m, u, data);
    case Delete(d) => DeleteRefines(p, t, m, {d});
    case DeleteExpired(cutoff) =>
      ExpiryQueryExact(p, t, m, cutoff);
      DeleteRefines(p, t, m, ExpiredIn(m, cutoff));
    case Select =>
  }

  /** In every reachable state user codes are unique, expiry columns are fresh, and the
      table reads as the two maps. */
  lemma RunRefines(p: Payloads<DeviceCode>, t: Table, m: Model, ss: seq<Statement>)
    requires Faithful(p) && Fresh(p, t) && Reads(p, t, m)
    ensures Fresh(p, Run(p, t, ss))
    ensures Reads(p, Run(p, t, ss), Kept(p, m, ss))
    ensures UserCodesUnique(Run(p, t, ss))
  {
    forall t, m, s | Fresh(p, t) && Reads(p, t, m)
      ensures Fresh(p, Exec(p, t, s)) && Reads(p, Exec(p, t, s), Promise(m, s, Encodable(p)))
    {
      StepRefines(p, t, m, s);
    }
    RunSimulates(Executor(p), Promiser(p), (t, m) => Fresh(p, t) && Reads(p, t, m), t, m, ss);
    ReadsUnique(p, Run(p, t, ss), Kept(p, m, ss));
  }

  /** The two lookups of a pair find the same record, and removal by device code takes
      both away. */
  lemma BothCodesTogether(p: Payloads<DeviceCode>, t: Table, m: Model, d: string)
    requires Reads(p, t, m) && d in t
    ensures var u := t[d].userCode;
            && u in m.byUser && m.byUser[u] == m.byDevice[d]
            && WithUser(t, u) == {d}
            && d !in Without(m, {d}).byDevice && u !in Without(m, {d}).byUser
            && WithUser(t - {d}, u) == {}
  {
    UserIndex(p, t, m);
    assert DeviceReads(p, t, m, d) && UserReads(t, m, t[d].userCode);
  }

  // ------------------------------------------------------------------ methods

  /** A reclaim by exact times: a pair that expired a microsecond or more before the cutoff
      goes, one that expires at or after it stays as it is. */
  lemma ReclaimExact(p: Payloads<DeviceCode>, t: Table, cutoff: Instant, d: string)
    requires Fresh(p, t) && d in t
    ensures p.decode(t[d].payload).Some?
    ensures var data, after := p.decode(t[d].payload).value, Exec(p, t, DeleteExpired(cutoff));
            var expiry := LifetimeExpiry(data.creationTime, data.lifetime);
            && (expiry + 1000 <= cutoff ==> d !in after)
            && (cutoff <= expiry ==> d in after && after[d] == t[d])
  {
    var data := p.decode(t[d].payload).value;
    var expiry := LifetimeExpiry(data.creationTime, data.lifetime);
    assert t[d].expiresAt == Some(Micros(expiry));
    MicrosResolution(expiry, cutoff);
    MicrosResolution(cutoff, expiry);
  }

  class DeviceFlowStore {
    const payloads: Payloads<DeviceCode>
    var rows: Table
    ghost var model: Model

    ghost predicate Valid()
      reads this
    {
      Faithful(payloads) && Fresh(payloads, rows) && Reads(payloads, rows, model)
    }

    constructor (payloads: Payloads<DeviceCode>)
      requires Faithful(payloads)
      ensures Valid() && model == EMPTY && this.payloads == payloads
    {
      this.payloads := payloads;
      rows := map[];
      model := EMPTY;
    }

    /** Fails exactly when either code is present. */
    method StoreDeviceAuthorization(deviceCode: string, userCode: string, data: DeviceCode) returns (r: Outcome)
      requires Valid()
      modifies this`rows, this`model
      ensures Valid() && model == Promise(old(model), Insert(deviceCode, userCode, data), Encodable(payloads))
      ensures rows == Exec(payloads, old(rows), Insert(deviceCode, userCode, data))
      ensures r == Duplicate <==> payloads.encode(data).Some?
                                  && (deviceCode in old(model).byDevice || userCode in old(model).byUser)
      ensures r == Failed <==> payloads.encode(data).None?
      ensures r in {Done, Duplicate, Failed}
      ensures r != Done ==> model == old(model)
      ensures r == Done ==> && model.byDevice == old(model).byDevice[deviceCode := data]
                            && model.byUser == old(model).byUser[userCode := data]
                            && model.deviceOf == old(model).deviceOf[userCode := deviceCode]
    {
      StepRefines(payloads, rows, model, Insert(deviceCode, userCode, data));
      UserIndex(payloads, rows, model);
      model := Promise(model, Insert(deviceCode, userCode, data), Encodable(payloads));
      var payload := payloads.encode(data);
      if payload.None? {
        return Failed;
      }
      var expiresAt := LifetimeExpiry(data.creationTime, data.lifetime);
      if deviceCode in rows || userCode in UserCodes(rows) {
        return Duplicate;
      }
      rows := rows[deviceCode := Row(userCode, Some(Micros(expiresAt)), payload.value)];
      return Done;
    }

    method FindByDeviceCode(deviceCode: string) returns (r: Result<DeviceCode, Outcome>)
      requires Valid()
      ensures r == if deviceCode in model.byDevice then Ok(model.byDevice[deviceCode]) else Err(NotFound)
    {
      if deviceCode !in rows {
        return Err(NotFound);
      }
      assert DeviceReads(payloads, rows, model, deviceCode);
      var data := payloads.decode(rows[deviceCode].payload);
      if data.None? {
        return Err(Failed);
      }
      return Ok(data.value);
    }

    method FindByUserCode(userCode: string) returns (r: Result<DeviceCode, Outcome>)
      requires Valid()
      ensures r == if userCode in model.byUser then Ok(model.byUser[userCode]) else Err(NotFound)
    {
      var found := WithUser(rows, userCode);
      UserIndex(payloads, rows, model);
      if found == {} {
        return Err(NotFound);
      }
      var d :| d in found;
      assert DeviceReads(payloads, rows, model, d) && UserReads(rows, model, userCode);
      var data := payloads.decode(rows[d].payload);
      if data.None? {
        return Err(Failed);
      }
      return Ok(data.value);
    }

    /** Both codes stay; a user code that is not present is a no-op. */
    method UpdateByUserCode(userCode: string, data: DeviceCode) returns (r: Outcome)
      requires Valid()
      modifies this`rows, this`model
      ensures Valid() && model == Promise(old(model), UpdateUser(userCode, data), Encodable(payloads))
      ensures rows == Exec(payloads, old(rows), UpdateUser(userCode, data))
      ensures r == if payloads.encode(data).Some? then Done else Failed
      ensures r != Done || userCode !in old(model).byUser ==> model == old(model)
      ensures r == Done && userCode in old(model).byUser ==>
                && userCode in old(model).deviceOf && model.deviceOf == old(model).deviceOf
                && model.byDevice == old(model).byDevice[old(model).deviceOf[userCode] := data]
                && model.byUser == old(model).byUser[userCode := data]
    {
      StepRefines(payloads, rows, model, UpdateUser(userCode, data));
      model := Promise(model, UpdateUser(userCode, data), Encodable(payloads));
      var payload := payloads.encode(data);
      if payload.None? {
        return Failed;
      }
      rows := Rewritten(payloads, rows, userCode, data);
      return Done;
    }

    method RemoveByDeviceCode(deviceCode: string) returns (r: Outcome)
      requires Valid()
      modifies this`rows, this`model
      ensures Valid() && model == Promise(old(model), Delete(deviceCode), Encodable(payloads))
      ensures model.byDevice == old(model).byDevice - {deviceCode}
      ensures forall u :: u in model.byUser <==>
                u in old(model).byUser && !(u in old(model).deviceOf && old(model).deviceOf[u] == deviceCode)
      ensures forall u :: u in model.byUser ==> model.byUser[u] == old(model).byUser[u]
      ensures r == Done
    {
      StepRefines(payloads, rows, model, Delete(deviceCode));
      model := Promise(model, Delete(deviceCode), Encodable(payloads));
      rows := rows - {deviceCode};
      return Done;
    }

    method RemoveExpired(cutoff: Instant) returns (count: nat)
      requires Valid()
      modifies this`rows, this`model
      ensures Valid() && model == Promise(old(model), DeleteExpired(cutoff), Encodable(payloads))
      ensures count == |old(rows)| - |rows|
    {
      var gone := Reclaim.Doomed(rows, ExpiryColumn, Micros(cutoff));
      assert |rows - gone| == |rows| - |gone| by {
        Reclaim.Conservation(rows, gone);
      }
      StepRefines(payloads, rows, model, DeleteExpired(cutoff));
      model := Promise(model, DeleteExpired(cutoff), Encodable(payloads));
      rows := rows - gone;
      return |gone|;
    }
  }
}
