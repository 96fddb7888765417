/** store/backchannel_authentication_request.go: insert-only creation, an update that
    refreshes the derived expiry column, and NULL for "never expires". */
module Backchannel {
  import opened Prelude
  import opened Time
  import Reclaim

  /** The model value; a zero expiration time is 0. */
  datatype Request = Request(expirationTime: Instant, body: string)

  datatype Row = Row(expiresAt: Option<int>, payload: string)

  type Table = map<string, Row>

  datatype Statement =
    | Insert(id: string, data: Request)
    | Update(id: string, data: Request)
    | Delete(id: string)
    | DeleteExpired(cutoff: Instant)
    | Select

  function ExpiryColumn(r: Row): Option<int>
  {
    r.expiresAt
  }

  function RowFor(p: Payloads<Request>, data: Request): Row
    requires p.encode(data).Some?
  {
    Row(MicrosOf(ExpiresAtPtr(data.expirationTime)), p.encode(data).value)
  }

  function Exec(p: Payloads<Request>, t: Table, s: Statement): Table
  {
    match s
    case Insert(id, data) => if p.encode(data).Some? && id !in t then t[id := RowFor(p, data)] else t
    case Update(id, data) => if p.encode(data).Some? && id in t then t[id := RowFor(p, data)] else t
    case Delete(id) => t - {id}
    case DeleteExpired(cutoff) => Reclaim.Reclaimed(t, ExpiryColumn, Micros(cutoff))
    case Select => t
  }

  function Executor(p: Payloads<Request>): (Table, Statement) -> Table
  {
    (t, s) => Exec(p, t, s)
  }

  function Run(p: Payloads<Request>, t: Table, ss: seq<Statement>): Table
  {
    RunAll(Executor(p), t, ss)
  }

  /** The expiry column equals the value derived from the payload, NULL when zero. */
  ghost predicate Consistent(p: Payloads<Request>, t: Table)
  {
    forall id :: id in t ==>
      && p.decode(t[id].payload).Some?
      && t[id].expiresAt == MicrosOf(ExpiresAtPtr(p.decode(t[id].payload).value.expirationTime))
  }

  lemma StepKeepsConsistent(p: Payloads<Request>, t: Table, s: Statement)
    requires Faithful(p) && Consistent(p, t)
    ensures Consistent(p, Exec(p, t, s))
  {
    if (s.Insert? || s.Update?) && p.encode(s.data).Some? {
      assert p.decode(p.encode(s.data).value) == Some(s.data);
    }
  }

  /** After every run the expiry column is the one derived from the current payload. */
  lemma RunKeepsConsistent(p: Payloads<Request>, t: Table, ss: seq<Statement>)
    requires Faithful(p) && Consistent(p, t)
    ensures Consistent(p, Run(p, t, ss))
  {
    forall t, s | Consistent(p, t)
      ensures Consistent(p, Exec(p, t, s))
    {
      StepKeepsConsistent(p, t, s);
    }
    RunKeeps(Executor(p), t => Consistent(p, t), t, ss);
  }

  /** So a reclaim, judged by what a reader would see, takes a request only if it has an
      expiration time and that lies before the cutoff; one without is never taken. */
  lemma ReclaimNeverEarly(p: Payloads<Request>, t: Table, cutoff: Instant, id: string)
    requires Consistent(p, t) && id in t && id !in Exec(p, t, DeleteExpired(cutoff))
    ensures var data := p.decode(t[id].payload).value;
            data.expirationTime != 0 && data.expirationTime < cutoff
  {
    var exact := (r: Row) =>
      match p.decode(r.payload)
      case None => None
      case Some(data) => ExpiresAtPtr(data.expirationTime);
    MicrosIsMonotone();
    Reclaim.NeverEarly(t, exact, ExpiryColumn, Micros, cutoff, id);
  }

  /** A reclaim by exact times: a request that expired a microsecond or more before the
      cutoff goes, one that expires at or after it, or never, stays as it is. */
  lemma ReclaimExact(p: Payloads<Request>, t: Table, cutoff: Instant, id: string)
    requires Consistent(p, t) && id in t
    ensures var expiry, after := p.decode(t[id].payload).value.expirationTime, Exec(p, t, DeleteExpired(cutoff));
            && (expiry != 0 && expiry + 1000 <= cutoff ==> id !in after)
            && (expiry == 0 || cutoff <= expiry ==> id in after && after[id] == t[id])
  {
    MicrosResolution(p.decode(t[id].payload).value.expirationTime, cutoff);
    MicrosResolution(cutoff, p.decode(t[id].payload).value.expirationTime);
  }

  /** An update that moves the expiration time moves what a later reclaim does: the
      request is kept or taken by its new time, never by the old one. */
  lemma UpdateMovesExpiry(p: Payloads<Request>, t: Table, id: string, data: Request, cutoff: Instant)
    requires id in t && p.encode(data).Some?
    ensures id in Run(p, t, [Update(id, data), DeleteExpired(cutoff)])
            <==> data.expirationTime == 0 || Micros(cutoff) <= Micros(data.expirationTime)
    ensures data.expirationTime != 0 && data.expirationTime + 1000 <= cutoff ==>
              id !in Run(p, t, [Update(id, data), DeleteExpired(cutoff)])
    ensures data.expirationTime == 0 || cutoff <= data.expirationTime ==>
              id in Run(p, t, [Update(id, data), DeleteExpired(cutoff)])
  {
    MicrosResolution(data.expirationTime, cutoff);
    MicrosResolution(cutoff, data.expirationTime);
    RunTwo(Executor(p), t, Update(id, data), DeleteExpired(cutoff));
  }

  // ------------------------------------------------------------------ methods

  class BackchannelAuthenticationRequestStore {
    const payloads: Payloads<Request>
    var rows: Table

    constructor (payloads: Payloads<Request>)
      ensures this.payloads == payloads && rows == map[]
    {
      this.payloads := payloads;
      rows := map[];
    }

    method Store(requestId: string, data: Request) returns (r: Outcome)
      modifies this`rows
      ensures rows == Exec(payloads, old(rows), Insert(requestId, data))
      ensures r == if payloads.encode(data).None? then Failed else if requestId in old(rows) then Duplicate else Done
      ensures r != Done ==> rows == old(rows)
      ensures Faithful(payloads) && r == Done ==>
                && requestId in rows && payloads.decode(rows[requestId].payload) == Some(data)
                && rows - {requestId} == old(rows)
    {
      var payload := payloads.encode(data);
      if payload.None? {
        return Failed;
      }
      if requestId in rows {
        return Duplicate;
      }
      rows := rows[requestId := Row(MicrosOf(ExpiresAtPtr(data.expirationTime)), payload.value)];
      return Done;
    }

    method Find(requestId: string) returns (r: Result<Request, Outcome>)
      ensures r == if requestId in rows then Decoded(payloads.decode(rows[requestId].payload)) else Err(NotFound)
      ensures Consistent(payloads, rows) && requestId in rows ==> r.Ok?
    {
      if requestId !in rows {
        return Err(NotFound);
      }
      var data := payloads.decode(rows[requestId].payload);
      if data.None? {
        return Err(Failed);
      }
      return Ok(data.value);
    }

    /** A request id that is not present is a no-op. */
    method UpdateRequest(requestId: string, data: Request) returns (r: Outcome)
      modifies this`rows
      ensures rows == Exec(payloads, old(rows), Update(requestId, data))
      ensures r == if payloads.encode(data).Some? then Done else Failed
      ensures r != Done || requestId !in old(rows) ==> rows == old(rows)
      ensures Faithful(payloads) && r == Done && requestId in old(rows) ==>
                && requestId in rows && payloads.decode(rows[requestId].payload) == Some(data)
                && rows - {requestId} == old(rows) - {requestId}
    {
      var payload := payloads.encode(data);
      if payload.None? {
        return Failed;
      }
      if requestId in rows {
        rows := rows[requestId := Row(MicrosOf(ExpiresAtPtr(data.expirationTime)), payload.value)];
      }
      return Done;
    }

    method Remove(requestId: string) returns (r: Outcome)
      modifies this`rows
      ensures r == Done && rows == Exec(payloads, old(rows), Delete(requestId)) == old(rows) - {requestId}
    {
      rows := rows - {requestId};
      return Done;
    }

    method RemoveExpired(cutoff: Instant) returns (count: nat)
      modifies this`rows
      ensures rows == Exec(payloads, old(rows), DeleteExpired(cutoff))
      ensures count == |old(rows)| - |rows|
    {
      var gone := Reclaim.Doomed(rows, ExpiryColumn, Micros(cutoff));
      Reclaim.Conservation(rows, gone);
      rows := rows - gone;
      return |gone|;
    }
  }
}
