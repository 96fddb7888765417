/** store/session.go: the sessions table against a plain map from id to record. The
    `client_ids` column runs ahead of the copy inside the payload. */
module Sessions {
  import opened Prelude
  import opened Time
  import Reclaim

  /** The model value. A Go nil slice is `None`; a zero `Expires` is 0; `body` stands
      for the fields the adapter never looks at. */
  datatype Session = Session(sessionId: string, subjectId: string, clientIds: Option<seq<string>>,
                             expires: Instant, body: string)

  datatype Row = Row(subjectId: Option<string>, clientIds: seq<string>, expires: Option<int>, payload: string)

  type Table = map<string, Row>

  datatype Statement =
    | Create(session: Session)
    | Update(session: Session)
    | Delete(id: string)
    | AddClient(id: string, clientId: string)
    | DeleteBySubject(subjectId: string)
    | DeleteExpired(cutoff: Instant)
    | Select

  /** A nil list is written as the empty array. */
  function Ids(clientIds: Option<seq<string>>): seq<string>
  {
    match clientIds
    case None => []
    case Some(ids) => ids
  }

  /** An empty subject is written as NULL. */
  function SubjectColumn(subjectId: string): Option<string>
  {
    if subjectId == "" then None else Some(subjectId)
  }

  function RowFor(p: Payloads<Session>, s: Session): Row
    requires p.encode(s).Some?
  {
    Row(SubjectColumn(s.subjectId), Ids(s.clientIds), MicrosOf(ExpiresAtPtr(s.expires)), p.encode(s).value)
  }

  /** `array_append` guarded by `NOT ($2 = ANY(client_ids))`. */
  function Appended(ids: seq<string>, id: string): seq<string>
  {
    if id in ids then ids else ids + [id]
  }

  /** `WHERE subject_id = $1`: NULL equals nothing. */
  function OfSubject(t: Table, subjectId: string): set<string>
  {
    set id | id in t && t[id].subjectId == Some(subjectId)
  }

  function IdOf(s: Session): string
  {
    s.sessionId
  }

  function ExpiryColumn(r: Row): Option<int>
  {
    r.expires
  }

  function Exec(p: Payloads<Session>, t: Table, s: Statement): Table
  {
    match s
    case Create(rec) =>
      if p.encode(rec).Some? && rec.sessionId !in t then t[rec.sessionId := RowFor(p, rec)] else t
    case Update(rec) =>
      if p.encode(rec).Some? && rec.sessionId in t then t[rec.sessionId := RowFor(p, rec)] else t
    case Delete(id) => t - {id}
    case AddClient(id, clientId) =>
      if id in t then t[id := t[id].(clientIds := Appended(t[id].clientIds, clientId))] else t
    case DeleteBySubject(subjectId) => t - OfSubject(t, subjectId)
    case DeleteExpired(cutoff) => Reclaim.Reclaimed(t, ExpiryColumn, Micros(cutoff))
    case Select => t
  }

  function Executor(p: Payloads<Session>): (Table, Statement) -> Table
  {
    (t, s) => Exec(p, t, s)
  }

  function Run(p: Payloads<Session>, t: Table, ss: seq<Statement>): Table
  {
    RunAll(Executor(p), t, ss)
  }

  // --------------------------------------------------------------- refinement

  /** What the port promises: a map from id to record, each record with its list of
      client ids. `encodable` tells which records can be marshalled at all. */
  type Model = map<string, Session>

  function Normal(s: Session): Session
  {
    s.(clientIds := Some(Ids(s.clientIds)))
  }

  /** The records of a subject; nobody is found under the empty subject. */
  function SubjectIn(m: Model, subjectId: string): set<string>
  {
    set id | id in m && m[id].subjectId == subjectId && subjectId != ""
  }

  function ExpiredIn(m: Model, cutoff: Instant): set<string>
  {
    set id | id in m && m[id].expires != 0 && Micros(m[id].expires) < Micros(cutoff)
  }

  function Promise(m: Model, s: Statement, encodable: Session -> bool): Model
  {
    match s
    case Create(rec) => if encodable(rec) && rec.sessionId !in m then m[rec.sessionId := Normal(rec)] else m
    case Update(rec) => if encodable(rec) && rec.sessionId in m then m[rec.sessionId := Normal(rec)] else m
    case Delete(id) => m - {id}
    case AddClient(id, clientId) =>
      if id in m then m[id := m[id].(clientIds := Some(Appended(Ids(m[id].clientIds), clientId)))] else m
    case DeleteBySubject(subjectId) => m - SubjectIn(m, subjectId)
    case DeleteExpired(cutoff) => m - ExpiredIn(m, cutoff)
    case Select => m
  }

  function Encodable(p: Payloads<Session>): Session -> bool
  {
    s => p.encode(s).Some?
  }

  function Promiser(p: Payloads<Session>): (Model, Statement) -> Model
  {
    (m, s) => Promise(m, s, Encodable(p))
  }

  function Kept(p: Payloads<Session>, m: Model, ss: seq<Statement>): Model
  {
    RunAll(Promiser(p), m, ss)
  }

  /** What a read makes of a row: the payload with the column's client ids. */
  function View(p: Payloads<Session>, r: Row): Option<Session>
  {
    match p.decode(r.payload)
    case None => None
    case Some(s) => Some(s.(clientIds := Some(r.clientIds)))
  }

  function Abs(p: Payloads<Session>, t: Table): Model
  {
    map id | id in t && View(p, t[id]).Some? :: View(p, t[id]).value
  }

  ghost predicate Agrees(p: Payloads<Session>, id: string, r: Row)
  {
    match p.decode(r.payload)
    case None => false
    case Some(s) =>
      && s.sessionId == id
      && r.subjectId == SubjectColumn(s.subjectId)
      && r.expires == MicrosOf(ExpiresAtPtr(s.expires))
      && Ids(s.clientIds) <= r.clientIds
  }

  /** Every payload reads back; subject and expiry are NULL exactly when empty and
      zero; the payload's client ids are a prefix of the column. */
  ghost predicate Consistent(p: Payloads<Session>, t: Table)
  {
    forall id :: id in t ==> Agrees(p, id, t[id])
  }

  lemma RowAgrees(p: Payloads<Session>, s: Session)
    requires Faithful(p) && p.encode(s).Some?
    ensures Agrees(p, s.sessionId, RowFor(p, s))
    ensures View(p, RowFor(p, s)) == Some(Normal(s))
  {
    assert p.decode(p.encode(s).value) == Some(s);
  }

  /** A consistent table reads as the map `m` when it does so row by row. */
  lemma ReadsAs(p: Payloads<Session>, t: Table, m: Model)
    requires Consistent(p, t)
    ensures Abs(p, t) == m <==> m.Keys == t.Keys && forall id :: id in t ==> View(p, t[id]) == Some(m[id])
  {
    forall id | id in t
      ensures View(p, t[id]).Some?
    {
      assert Agrees(p, id, t[id]);
    }
    assert Abs(p, t).Keys == t.Keys;
  }

  lemma WriteRefines(p: Payloads<Session>, t: Table, s: Session)
    requires Faithful(p) && Consistent(p, t) && p.encode(s).Some?
    ensures Consistent(p, t[s.sessionId := RowFor(p, s)])
    ensures Abs(p, t[s.sessionId := RowFor(p, s)]) == Abs(p, t)[s.sessionId := Normal(s)]
  {
    RowAgrees(p, s);
    ReadsAs(p, t, Abs(p, t));
    ReadsAs(p, t[s.sessionId := RowFor(p, s)], Abs(p, t)[s.sessionId := Normal(s)]);
  }

  lemma DeleteRefines(p: Payloads<Session>, t: Table, gone: set<string>)
    requires Consistent(p, t)
    ensures Consistent(p, t - gone)
    ensures Abs(p, t - gone) == Abs(p, t) - gone
  {
    ReadsAs(p, t, Abs(p, t));
    ReadsAs(p, t - gone, Abs(p, t) - gone);
  }

  lemma AppendRefines(p: Payloads<Session>, t: Table, id: string, clientId: string)
    requires Consistent(p, t) && id in t
    ensures var s := AddClient(id, clientId);
            Consistent(p, Exec(p, t, s)) && Abs(p, Exec(p, t, s)) == Promise(Abs(p, t), s, Encodable(p))
  {
    var s := AddClient(id, clientId);
    assert Agrees(p, id, t[id]);
    ReadsAs(p, t, Abs(p, t));
    assert Ids(p.decode(t[id].payload).value.clientIds) <= Appended(t[id].clientIds, clientId);
    ReadsAs(p, Exec(p, t, s), Promise(Abs(p, t), s, Encodable(p)));
  }

  /** A query by subject hits exactly that subject's records, and "" hits none. */
  lemma SubjectQueryExact(p: Payloads<Session>, t: Table, subjectId: string)
    requires Consistent(p, t)
    ensures OfSubject(t, subjectId) == SubjectIn(Abs(p, t), subjectId)
    ensures OfSubject(t, "") == {}
  {
    ReadsAs(p, t, Abs(p, t));
    forall id | id in t
      ensures Agrees(p, id, t[id]) && Some(Abs(p, t)[id]) == View(p, t[id])
    {
    }
  }

  lemma ExpiryQueryExact(p: Payloads<Session>, t: Table, cutoff: Instant)
    requires Consistent(p, t)
    ensures Reclaim.Doomed(t, ExpiryColumn, Micros(cutoff)) == ExpiredIn(Abs(p, t), cutoff)
  {
    ReadsAs(p, t, Abs(p, t));
    forall id | id in t
      ensures Agrees(p, id, t[id]) && Some(Abs(p, t)[id]) == View(p, t[id])
    {
    }
  }

  /** One statement does to the table what the port promises for the map. */
  lemma StepRefines(p: Payloads<Session>, t: Table, s: Statement)
    requires Faithful(p) && Consistent(p, t)
    ensures Consistent(p, Exec(p, t, s))
    ensures Abs(p, Exec(p, t, s)) == Promise(Abs(p, t), s, Encodable(p))
  {
    ReadsAs(p, t, Abs(p, t));
    match s
    case Create(rec) =>
      if p.encode(rec).Some? {
        WriteRefines(p, t, rec);
      }
    case Update(rec) =>
      if p.encode(rec).Some? {
        WriteRefines(p, t, rec);
      }
    case Delete(id) => DeleteRefines(p, t, {id});
    case AddClient(id, clientId) =>
      if id in t {
        AppendRefines(p, t, id, clientId);
      }
    case DeleteBySubject(subjectId) =>
      SubjectQueryExact(p, t, subjectId);
      DeleteRefines(p, t, OfSubject(t, subjectId));
    case DeleteExpired(cutoff) =>
      ExpiryQueryExact(p, t, cutoff);
      DeleteRefines(p, t, ExpiredIn(Abs(p, t), cutoff));
    case Select =>
  }

  /** Whatever statements run, in whatever interleaving, the table stays consistent
      and reads as the plain map would. */
  lemma RunRefines(p: Payloads<Session>, t: Table, ss: seq<Statement>)
    requires Faithful(p) && Consistent(p, t)
    ensures Consistent(p, Run(p, t, ss))
    ensures Abs(p, Run(p, t, ss)) == Kept(p, Abs(p, t), ss)
  {
    forall t, s | Consistent(p, t)
      ensures Consistent(p, Exec(p, t, s)) && Abs(p, Exec(p, t, s)) == Promise(Abs(p, t), s, Encodable(p))
    {
      StepRefines(p, t, s);
    }
    RunSimulates(Executor(p), Promiser(p), (t, m) => Consistent(p, t) && Abs(p, t) == m, t, Abs(p, t), ss);
  }

  /** A reclaim never takes a session whose exact expiry is at or after the cutoff, or
      that has none. */
  lemma ReclaimNeverEarly(p: Payloads<Session>, t: Table, cutoff: Instant, id: string)
    requires Consistent(p, t) && id in t && id !in Exec(p, t, DeleteExpired(cutoff))
    ensures var s := p.decode(t[id].payload).value; s.expires != 0 && s.expires < cutoff
  {
    var exact := (r: Row) =>
      match p.decode(r.payload)
      case None => None
      case Some(s) => ExpiresAtPtr(s.expires);
    assert Agrees(p, id, t[id]);
    MicrosIsMonotone();
    Reclaim.NeverEarly(t, exact, ExpiryColumn, Micros, cutoff, id);
  }

  /** A reclaim by exact times: a session that expired a microsecond or more before the
      cutoff goes, one that expires at or after it, or never, stays as it is. */
  lemma ReclaimExact(p: Payloads<Session>, t: Table, cutoff: Instant, id: string)
    requires Consistent(p, t) && id in t
    ensures p.decode(t[id].payload).Some?
    ensures var expiry, after := p.decode(t[id].payload).value.expires, Exec(p, t, DeleteExpired(cutoff));
            && (expiry != 0 && expiry + 1000 <= cutoff ==> id !in after)
            && (expiry == 0 || cutoff <= expiry ==> id in after && after[id] == t[id])
  {
    assert Agrees(p, id, t[id]);
    MicrosResolution(p.decode(t[id].payload).value.expires, cutoff);
    MicrosResolution(cutoff, p.decode(t[id].payload).value.expires);
  }

  // ------------------------------------------------------- appends and replacements

  /** A create or update that takes effect on `id` and so writes the whole row. */
  predicate Replaces(p: Payloads<Session>, t: Table, s: Statement, id: string)
  {
    match s
    case Create(rec) => rec.sessionId == id && id !in t && p.encode(rec).Some?
    case Update(rec) => rec.sessionId == id && id in t && p.encode(rec).Some?
    case _ => false
  }

  predicate ReplacesAt(p: Payloads<Session>, t: Table, ss: seq<Statement>, i: nat, id: string)
  {
    i < |ss| && Replaces(p, Run(p, t, ss[..i]), ss[i], id)
  }

  /** How many of the statements came after the last replacement of `id`. */
  function Since(p: Payloads<Session>, t: Table, ss: seq<Statement>, id: string): (n: nat)
    ensures n <= |ss|
  {
    if ss == [] || ReplacesAt(p, t, ss, |ss| - 1, id) then 0 else 1 + Since(p, t, ss[..|ss| - 1], id)
  }

  /** The statements after the last replacement. */
  function Later(p: Payloads<Session>, t: Table, ss: seq<Statement>, id: string): seq<Statement>
  {
    ss[|ss| - Since(p, t, ss, id)..]
  }

  /** The client ids the last replacement wrote, or those at the start if there was none. */
  function Written(p: Payloads<Session>, t: Table, ss: seq<Statement>, id: string): seq<string>
  {
    var n := |ss| - Since(p, t, ss, id);
    if n > 0 && (ss[n - 1].Create? || ss[n - 1].Update?) then Ids(ss[n - 1].session.clientIds)
    else if id in t then t[id].clientIds else []
  }

  /** The client ids appended to `id` by anyone. */
  function AddedTo(ss: seq<Statement>, id: string): set<string>
  {
    set s | s in ss && s.AddClient? && s.id == id :: s.clientId
  }

  function Elements(ids: seq<string>): set<string>
  {
    set x | x in ids
  }

  function AddedBy(s: Statement, id: string): set<string>
  {
    if s.AddClient? && s.id == id then {s.clientId} else {}
  }

  lemma AddedToOneMore(ss: seq<Statement>, s: Statement, id: string)
    ensures AddedTo(ss + [s], id) == AddedTo(ss, id) + AddedBy(s, id)
  {
  }

  /** `end` is `ids` followed by each element of `news` exactly once. */
  ghost predicate Extends(ids: seq<string>, end: seq<string>, news: set<string>)
  {
    ids <= end && multiset(end) == multiset(ids) + multiset(news)
  }

  lemma AppendExtends(ids: seq<string>, mid: seq<string>, added: set<string>, c: string)
    requires Extends(ids, mid, added - Elements(ids))
    ensures Extends(ids, Appended(mid, c), added + {c} - Elements(ids))
  {
    var news := added - Elements(ids);
    ElementsOf(ids, mid, news);
    if c in mid {
      assert added + {c} - Elements(ids) == news;
    } else {
      assert added + {c} - Elements(ids) == news + {c};
      assert multiset(news + {c}) == multiset(news) + multiset{c};
      assert multiset(mid + [c]) == multiset(mid) + multiset{c};
    }
  }

  lemma ElementsOf(ids: seq<string>, end: seq<string>, news: set<string>)
    requires Extends(ids, end, news)
    ensures forall x :: x in end <==> x in ids || x in news
  {
    forall x
      ensures x in end <==> x in ids || x in news
    {
      assert x in end <==> x in multiset(end);
      assert x in ids <==> x in multiset(ids);
    }
  }

  lemma AppendStep(p: Payloads<Session>, t: Table, s: Statement, id: string, ids: seq<string>, added: set<string>)
    requires id in t && Extends(ids, t[id].clientIds, added - Elements(ids))
    requires !Replaces(p, t, s, id)
    requires id in Exec(p, t, s)
    ensures Extends(ids, Exec(p, t, s)[id].clientIds, added + AddedBy(s, id) - Elements(ids))
  {
    if s.AddClient? && s.id == id {
      AppendExtends(ids, t[id].clientIds, added, s.clientId);
    } else {
      assert added + {} == added;
    }
  }

  /** One statement at the end of a run: it starts a new list or goes with the later ones. */
  lemma LaterStep(p: Payloads<Session>, t: Table, ss: seq<Statement>, id: string)
    requires ss != []
    ensures var before, n := ss[..|ss| - 1], |ss| - 1;
            && (ReplacesAt(p, t, ss, n, id) ==>
                  Later(p, t, ss, id) == [] && Written(p, t, ss, id) == Ids(ss[n].session.clientIds))
            && (!ReplacesAt(p, t, ss, n, id) ==>
                  && Later(p, t, ss, id) == Later(p, t, before, id) + [ss[n]]
                  && Written(p, t, ss, id) == Written(p, t, before, id))
  {
  }

  /** Over every run, with any appends, updates, deletions and creations: the column is
      the list last written, followed by each id appended since and not in it, exactly
      once. */
  lemma {:induction false} ColumnExactly(p: Payloads<Session>, t: Table, ss: seq<Statement>, id: string)
    requires id in Run(p, t, ss)
    ensures var ids := Written(p, t, ss, id);
            Extends(ids, Run(p, t, ss)[id].clientIds, AddedTo(Later(p, t, ss, id), id) - Elements(ids))
  {
    if ss == [] {
      assert AddedTo([], id) == {};
    } else {
      var before, last := ss[..|ss| - 1], ss[|ss| - 1];
      LaterStep(p, t, ss, id);
      if Replaces(p, Run(p, t, before), last, id) {
        assert AddedTo([], id) == {};
      } else {
        var mid, ids, later := Run(p, t, before), Written(p, t, before, id), Later(p, t, before, id);
        ColumnExactly(p, t, before, id);
        AddedToOneMore(later, last, id);
        AppendStep(p, mid, last, id, ids, AddedTo(later, id));
      }
    }
  }

  /** `Later` begins right after the last replacement. */
  lemma {:induction false} LaterHoldsNoReplacement(p: Payloads<Session>, t: Table, ss: seq<Statement>, id: string,
                                                   i: nat)
    requires |ss| - Since(p, t, ss, id) <= i < |ss|
    ensures !ReplacesAt(p, t, ss, i, id)
  {
    var before := ss[..|ss| - 1];
    if i < |ss| - 1 {
      assert before[..i] == ss[..i];
      LaterHoldsNoReplacement(p, t, before, id, i);
    }
  }

  lemma {:induction false} LaterStartsAtAReplacement(p: Payloads<Session>, t: Table, ss: seq<Statement>, id: string)
    ensures var n := |ss| - Since(p, t, ss, id); n > 0 ==> ReplacesAt(p, t, ss, n - 1, id)
  {
    if ss != [] && !ReplacesAt(p, t, ss, |ss| - 1, id) {
      var before := ss[..|ss| - 1];
      var n := |ss| - Since(p, t, ss, id);
      LaterStartsAtAReplacement(p, t, before, id);
      assert n > 0 ==> before[..n - 1] == ss[..n - 1];
    }
  }

  predicate ReplacedAfter(p: Payloads<Session>, t: Table, ss: seq<Statement>, k: nat, id: string)
  {
    exists i :: k < i < |ss| && ReplacesAt(p, t, ss, i, id)
  }

  /** What the column holds: what was last written, and what was appended since. */
  lemma ColumnHolds(p: Payloads<Session>, t: Table, ss: seq<Statement>, id: string, c: string)
    requires id in Run(p, t, ss)
    ensures c in Run(p, t, ss)[id].clientIds <==> c in Written(p, t, ss, id) || AddClient(id, c) in Later(p, t, ss, id)
  {
    var ids, later := Written(p, t, ss, id), Later(p, t, ss, id);
    ColumnExactly(p, t, ss, id);
    ElementsOf(ids, Run(p, t, ss)[id].clientIds, AddedTo(later, id) - Elements(ids));
    assert c in AddedTo(later, id) <==> AddClient(id, c) in later;
  }

  /** An append either comes after the last replacement or is followed by one. */
  lemma LaterOrReplaced(p: Payloads<Session>, t: Table, ss: seq<Statement>, k: nat, id: string, c: string)
    requires k < |ss| && ss[k] == AddClient(id, c)
    ensures AddClient(id, c) in Later(p, t, ss, id) || ReplacedAfter(p, t, ss, k, id)
  {
    var n := |ss| - Since(p, t, ss, id);
    if k < n {
      LaterStartsAtAReplacement(p, t, ss, id);
      assert k != n - 1;
    } else {
      assert Later(p, t, ss, id)[k - n] == ss[k];
    }
  }

  /** An id appended by the `k`-th statement is there at the end exactly when nobody
      replaced the record after it, or the last who did wrote the id, or somebody
      appended it again after that. */
  lemma AppendSurvivesExactlyWhen(p: Payloads<Session>, t: Table, ss: seq<Statement>, k: nat, id: string, c: string)
    requires k < |ss| && ss[k] == AddClient(id, c) && id in Run(p, t, ss)
    ensures c in Run(p, t, ss)[id].clientIds
            <==> || !ReplacedAfter(p, t, ss, k, id)
                 || c in Written(p, t, ss, id) || AddClient(id, c) in Later(p, t, ss, id)
  {
    ColumnHolds(p, t, ss, id, c);
    LaterOrReplaced(p, t, ss, k, id, c);
  }

  /** `UpdateSession` right after an append: the id survives only in the writer's list. */
  lemma UpdateReplacesAppends(p: Payloads<Session>, t: Table, s: Session, clientId: string)
    requires s.sessionId in t && p.encode(s).Some?
    ensures var end := Run(p, t, [AddClient(s.sessionId, clientId), Update(s)]);
            s.sessionId in end && (clientId in end[s.sessionId].clientIds <==> clientId in Ids(s.clientIds))
  {
    var ss, id := [AddClient(s.sessionId, clientId), Update(s)], s.sessionId;
    RunTwo(Executor(p), t, ss[0], ss[1]);
    RunOne(Executor(p), t, ss[0]);
    assert ss[..1] == [ss[0]] && ReplacesAt(p, t, ss, 1, id);
    assert Later(p, t, ss, id) == [];
    AppendSurvivesExactlyWhen(p, t, ss, 0, id, clientId);
  }

  // ------------------------------------------------------- concurrent appends

  /** The session stays, and nobody replaces it. */
  predicate Undisturbed(p: Payloads<Session>, t: Table, ss: seq<Statement>, id: string)
  {
    id in t &&
    (ss != [] ==>
       && Undisturbed(p, t, ss[..|ss| - 1], id)
       && id in Run(p, t, ss)
       && !(ss[|ss| - 1].Update? && ss[|ss| - 1].session.sessionId == id))
  }

  lemma {:induction false} UndisturbedIsAllLater(p: Payloads<Session>, t: Table, ss: seq<Statement>, id: string)
    requires Undisturbed(p, t, ss, id)
    ensures id in Run(p, t, ss) && Since(p, t, ss, id) == |ss|
  {
    if ss != [] {
      UndisturbedIsAllLater(p, t, ss[..|ss| - 1], id);
    }
  }

  /** Appends are confluent: in every interleaving the column ends as the original
      list followed by each new id exactly once. */
  lemma AppendsConfluent(p: Payloads<Session>, t: Table, ss: seq<Statement>, id: string)
    requires Undisturbed(p, t, ss, id)
    ensures id in Run(p, t, ss)
    ensures var ids, end := t[id].clientIds, Run(p, t, ss)[id].clientIds;
            Extends(ids, end, AddedTo(ss, id) - Elements(ids))
  {
    UndisturbedIsAllLater(p, t, ss, id);
    assert Later(p, t, ss, id) == ss;
    ColumnExactly(p, t, ss, id);
  }

  predicate NoDuplicates(ids: seq<string>)
  {
    forall i, j :: 0 <= i < j < |ids| ==> ids[i] != ids[j]
  }

  predicate WritesNoDuplicates(s: Statement)
  {
    s.Create? || s.Update? ==> NoDuplicates(Ids(s.session.clientIds))
  }

  ghost predicate AllWithoutDuplicates(t: Table)
  {
    forall id :: id in t ==> NoDuplicates(t[id].clientIds)
  }

  /** If the records handed to create and update hold no client id twice, no column ever
      does. */
  lemma {:induction false} NoDuplicatesEver(p: Payloads<Session>, t: Table, ss: seq<Statement>)
    requires AllWithoutDuplicates(t) && forall s :: s in ss ==> WritesNoDuplicates(s)
    ensures AllWithoutDuplicates(Run(p, t, ss))
  {
    if ss != [] {
      NoDuplicatesEver(p, t, ss[..|ss| - 1]);
      var last := ss[|ss| - 1];
      assert WritesNoDuplicates(last);
    }
  }

  /** The final set is the original one plus what was added. */
  lemma AppendsCollectEverything(p: Payloads<Session>, t: Table, ss: seq<Statement>, id: string)
    requires Undisturbed(p, t, ss, id)
    ensures id in Run(p, t, ss)
    ensures var ids, end := t[id].clientIds, Run(p, t, ss)[id].clientIds;
            && Elements(end) == Elements(ids) + AddedTo(ss, id)
            && (NoDuplicates(ids) ==> NoDuplicates(end))
  {
    AppendsConfluent(p, t, ss, id);
    var ids, end := t[id].clientIds, Run(p, t, ss)[id].clientIds;
    ElementsOf(ids, end, AddedTo(ss, id) - Elements(ids));
    if NoDuplicates(ids) {
      AppendsKeepDistinct(p, t, ss, id);
    }
  }

  lemma {:induction false} AppendsKeepDistinct(p: Payloads<Session>, t: Table, ss: seq<Statement>, id: string)
    requires Undisturbed(p, t, ss, id) && NoDuplicates(t[id].clientIds)
    ensures id in Run(p, t, ss) && NoDuplicates(Run(p, t, ss)[id].clientIds)
  {
    if ss != [] {
      AppendsKeepDistinct(p, t, ss[..|ss| - 1], id);
    }
  }

  /** Order is all that two interleavings can differ in. */
  lemma InterleavingsAgree(p: Payloads<Session>, t: Table, ss: seq<Statement>, ss': seq<Statement>, id: string)
    requires Undisturbed(p, t, ss, id) && Undisturbed(p, t, ss', id)
    requires AddedTo(ss, id) == AddedTo(ss', id)
    ensures id in Run(p, t, ss) && id in Run(p, t, ss')
    ensures multiset(Run(p, t, ss)[id].clientIds) == multiset(Run(p, t, ss')[id].clientIds)
  {
    AppendsConfluent(p, t, ss, id);
    AppendsConfluent(p, t, ss', id);
  }

  // ------------------------------------------------------------------ methods

  function Reader(p: Payloads<Session>, t: Table): string -> Option<Session>
  {
    id => if id in t then View(p, t[id]) else None
  }

  lemma ScanIsListing(p: Payloads<Session>, t: Table, order: seq<string>, keys: set<string>,
                      r: Result<seq<Session>, Outcome>)
    requires Consistent(p, t) && Enumerates(order, keys) && keys <= t.Keys
    ensures |order| == |keys| && forall id :: id in order ==> Reader(p, t)(id).Some?
    ensures r.Ok? && |r.value| == |order|
            && (forall i :: 0 <= i < |order| ==> Reader(p, t)(order[i]) == Some(r.value[i]))
            ==> Lists(r.value, IdOf, Abs(p, t), keys)
  {
    EnumeratesEach(order, keys);
    forall id | id in order
      ensures id in Abs(p, t) && Reader(p, t)(id) == Some(Abs(p, t)[id]) && IdOf(Abs(p, t)[id]) == id
    {
      assert Agrees(p, id, t[id]);
    }
    if r.Ok? && |r.value| == |order| && forall i :: 0 <= i < |order| ==> Reader(p, t)(order[i]) == Some(r.value[i]) {
      ScanLists(r.value, order, IdOf, Abs(p, t), keys);
    }
  }

  lemma WithoutSubject(m: Model, subjectId: string)
    ensures var rest := m - SubjectIn(m, subjectId);
            && (forall id :: id in rest <==> id in m && (subjectId == "" || m[id].subjectId != subjectId))
            && (forall id :: id in rest ==> rest[id] == m[id])
  {
  }

  class SessionStore {
    const payloads: Payloads<Session>
    var rows: Table

    ghost predicate Valid()
      reads this
    {
      Faithful(payloads) && Consistent(payloads, rows)
    }

    ghost function Contents(): Model
      reads this
    {
      Abs(payloads, rows)
    }

    constructor (payloads: Payloads<Session>)
      requires Faithful(payloads)
      ensures Valid() && Contents() == map[] && this.payloads == payloads
    {
      this.payloads := payloads;
      rows := map[];
    }

    /** A canceled read reports the missing sentinel. */
    method GetSession(sessionId: string, canceled: bool) returns (r: Result<Session, Outcome>)
      requires Valid()
      ensures r == if !canceled && sessionId in Contents() then Ok(Contents()[sessionId]) else Err(NotFound)
    {
      if canceled || sessionId !in rows {
        return Err(NotFound);
      }
      assert Agrees(payloads, sessionId, rows[sessionId]);
      var rec := payloads.decode(rows[sessionId].payload);
      if rec.None? {
        return Err(Failed);
      }
      return Ok(rec.value.(clientIds := Some(rows[sessionId].clientIds)));
    }

    /** An id that exists makes the insert fail; this port has no duplicate sentinel. */
    method CreateSession(rec: Session) returns (r: Outcome)
      requires Valid()
      modifies this`rows
      ensures Valid() && Contents() == Promise(old(Contents()), Create(rec), Encodable(payloads))
      ensures r == if payloads.encode(rec).Some? && rec.sessionId !in old(Contents()) then Done else Failed
      ensures var ids := if rec.clientIds.None? then [] else rec.clientIds.value;
              Contents() == if r == Done then old(Contents())[rec.sessionId := rec.(clientIds := Some(ids))]
                            else old(Contents())
    {
      StepRefines(payloads, rows, Create(rec));
      assert rec.sessionId in rows ==> Agrees(payloads, rec.sessionId, rows[rec.sessionId]);
      var payload := payloads.encode(rec);
      if payload.None? {
        return Failed;
      }
      var subjectId := if rec.subjectId != "" then Some(rec.subjectId) else None;
      var clientIds := if rec.clientIds.None? then [] else rec.clientIds.value;
      if rec.sessionId in rows {
        return Failed;
      }
      rows := rows[rec.sessionId := Row(subjectId, clientIds, MicrosOf(ExpiresAtPtr(rec.expires)), payload.value)];
      return Done;
    }

    method UpdateSession(rec: Session) returns (r: Outcome)
      requires Valid()
      modifies this`rows
      ensures Valid() && Contents() == Promise(old(Contents()), Update(rec), Encodable(payloads))
      ensures r == if payloads.encode(rec).Some? then Done else Failed
      ensures var ids := if rec.clientIds.None? then [] else rec.clientIds.value;
              Contents() == if r == Done && rec.sessionId in old(Contents())
                            then old(Contents())[rec.sessionId := rec.(clientIds := Some(ids))]
                            else old(Contents())
    {
      StepRefines(payloads, rows, Update(rec));
      var payload := payloads.encode(rec);
      if payload.None? {
        return Failed;
      }
      var subjectId := if rec.subjectId != "" then Some(rec.subjectId) else None;
      var clientIds := if rec.clientIds.None? then [] else rec.clientIds.value;
      if rec.sessionId in rows {
        rows := rows[rec.sessionId := Row(subjectId, clientIds, MicrosOf(ExpiresAtPtr(rec.expires)), payload.value)];
      }
      return Done;
    }

    method DeleteSession(sessionId: string) returns (r: Outcome)
      requires Valid()
      modifies this`rows
      ensures Valid() && Contents() == Promise(old(Contents()), Delete(sessionId), Encodable(payloads))
      ensures Contents() == old(Contents()) - {sessionId}
      ensures r == Done
    {
      StepRefines(payloads, rows, Delete(sessionId));
      rows := rows - {sessionId};
      return Done;
    }

    /** Every session of the subject once, in some order, unless the scan breaks off,
        after `broken` rows. */
    method GetSessionsBySubjectId(subjectId: string, broken: Option<nat>) returns (r: Result<seq<Session>, Outcome>)
      requires Valid()
      ensures var found := SubjectIn(Contents(), subjectId);
              if broken.Some? && broken.value <= |found| then r == Err(Failed)
              else r.Ok? && Lists(r.value, IdOf, Contents(), found)
    {
      var order := ScanOrder(OfSubject(rows, subjectId));
      r := FetchAll(order, Reader(payloads, rows), broken);
      SubjectQueryExact(payloads, rows, subjectId);
      ScanIsListing(payloads, rows, order, SubjectIn(Contents(), subjectId), r);
    }

    method DeleteSessionsBySubjectId(subjectId: string) returns (count: nat)
      requires Valid()
      modifies this`rows
      ensures Valid() && Contents() == Promise(old(Contents()), DeleteBySubject(subjectId), Encodable(payloads))
      ensures count == |old(rows)| - |rows| == |SubjectIn(old(Contents()), subjectId)|
      ensures forall id :: id in Contents() <==>
                id in old(Contents()) && (subjectId == "" || old(Contents())[id].subjectId != subjectId)
      ensures forall id :: id in Contents() ==> Contents()[id] == old(Contents())[id]
    {
      var gone := OfSubject(rows, subjectId);
      assert gone == SubjectIn(Contents(), subjectId) by {
        SubjectQueryExact(payloads, rows, subjectId);
      }
      assert |rows - gone| == |rows| - |gone| by {
        Reclaim.Conservation(rows, gone);
      }
      DeleteRefines(payloads, rows, gone);
      WithoutSubject(Contents(), subjectId);
      rows := rows - gone;
      return |gone|;
    }

    method AddClientId(sessionId: string, clientId: string) returns (r: Outcome)
      requires Valid()
      modifies this`rows
      ensures Valid() && Contents() == Promise(old(Contents()), AddClient(sessionId, clientId), Encodable(payloads))
      ensures r == Done
      ensures sessionId !in old(Contents()) ==> Contents() == old(Contents())
      ensures sessionId in old(Contents()) && old(Contents())[sessionId].clientIds.Some? ==>
                var ids := old(Contents())[sessionId].clientIds.value;
                Contents() == old(Contents())[sessionId := old(Contents())[sessionId].(
                  clientIds := Some(if clientId in ids then ids else ids + [clientId]))]
    {
      StepRefines(payloads, rows, AddClient(sessionId, clientId));
      if sessionId in rows && clientId !in rows[sessionId].clientIds {
        rows := rows[sessionId := rows[sessionId].(clientIds := rows[sessionId].clientIds + [clientId])];
      }
      assert rows == Exec(payloads, old(rows), AddClient(sessionId, clientId));
      return Done;
    }

    method DeleteExpiredSessions(cutoff: Instant) returns (count: nat)
      requires Valid()
      modifies this`rows
      ensures Valid() && Contents() == Promise(old(Contents()), DeleteExpired(cutoff), Encodable(payloads))
      ensures count == |old(rows)| - |rows|
    {
      var gone := Reclaim.Doomed(rows, ExpiryColumn, Micros(cutoff));
      assert |rows - gone| == |rows| - |gone| by {
        Reclaim.Conservation(rows, gone);
      }
      StepRefines(payloads, rows, DeleteExpired(cutoff));
      rows := rows - gone;
      return |gone|;
    }
  }
}
