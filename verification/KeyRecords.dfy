/** store/key_records.go: creation, version-guarded updates and deletion against the
    partial unique index on `public_id` (migrations/000001_init.up.sql). Statements
    are atomic; an interleaving of callers is a sequence of statements. */
module KeyRecords {
  import opened Prelude
  import opened Time
  import VersionHistory
  import GuardedUpdates

  const RETIRED: string := "retired"

  type Uint64 = x: int | 0 <= x < 0x1_0000_0000_0000_0000

  /** The model value. `body` stands for the fields the adapter never looks at. */
  datatype KeyRecord = KeyRecord(handle: string, publicId: string, phase: string, version: Uint64, body: string)

  datatype Row = Row(publicId: string, phase: string, version: int, payload: string)

  type Table = map<string, Row>

  datatype Statement =
    | Insert(record: KeyRecord)
    | Update(record: KeyRecord, expected: Uint64)
    | Delete(handle: string)
    | Select

  /** Another live row holds the public id: the partial unique index objects. */
  predicate Clashes(t: Table, handle: string, publicId: string, phase: string)
  {
    phase != RETIRED &&
    exists h :: h in t && h != handle && t[h].phase != RETIRED && t[h].publicId == publicId
  }

  function Created(r: KeyRecord): KeyRecord
  {
    r.(version := 1)
  }

  function Stamped(r: KeyRecord, expected: Uint64): KeyRecord
    requires expected < MAX_INT64
  {
    r.(version := expected + 1)
  }

  predicate Inserts(p: Payloads<KeyRecord>, t: Table, s: Statement)
  {
    && s.Insert? && p.encode(Created(s.record)).Some?
    && s.record.handle !in t && !Clashes(t, s.record.handle, s.record.publicId, s.record.phase)
  }

  /** The UPDATE is sent at all: the int64 guard and the encoding let it pass. */
  predicate Sent(p: Payloads<KeyRecord>, s: Statement)
  {
    s.Update? && s.expected < MAX_INT64 && p.encode(Stamped(s.record, s.expected)).Some?
  }

  predicate Matches(t: Table, s: Statement)
  {
    s.Update? && s.record.handle in t && t[s.record.handle].version == s.expected
  }

  predicate Updates(p: Payloads<KeyRecord>, t: Table, s: Statement)
  {
    Sent(p, s) && Matches(t, s) && !Clashes(t, s.record.handle, s.record.publicId, s.record.phase)
  }

  function Exec(p: Payloads<KeyRecord>, t: Table, s: Statement): Table
  {
    match s
    case Insert(r) =>
      if Inserts(p, t, s) then t[r.handle := Row(r.publicId, r.phase, 1, p.encode(Created(r)).value)] else t
    case Update(r, expected) =>
      if Updates(p, t, s)
      then t[r.handle := Row(r.publicId, r.phase, t[r.handle].version + 1, p.encode(Stamped(r, expected)).value)]
      else t
    case Delete(h) => t - {h}
    case Select => t
  }

  function ChangeOf(p: Payloads<KeyRecord>, t: Table, s: Statement): VersionHistory.Change
  {
    if Inserts(p, t, s) then VersionHistory.Inserted(s.record.handle)
    else if Updates(p, t, s) then VersionHistory.Bumped(s.record.handle, s.expected)
    else if s.Delete? then VersionHistory.Removed({s.handle})
    else VersionHistory.Unchanged
  }

  function VersionOf(t: Table, h: string): Option<int>
  {
    if h in t then Some(t[h].version) else None
  }

  function Machine(p: Payloads<KeyRecord>): VersionHistory.Machine<Table, Statement>
  {
    VersionHistory.Machine((t, s) => Exec(p, t, s), (t, s) => ChangeOf(p, t, s), (t, h) => VersionOf(t, h))
  }

  function Run(p: Payloads<KeyRecord>, t: Table, ss: seq<Statement>): Table
  {
    VersionHistory.Run(Machine(p), t, ss)
  }

  // ---------------------------------------------------------------- invariant

  /** The columns say what the payload says, and versions fit a bigint. */
  ghost predicate Mirrored(p: Payloads<KeyRecord>, t: Table)
  {
    forall h :: h in t ==>
      && 1 <= t[h].version <= MAX_INT64
      && p.decode(t[h].payload) == Some(KeyRecord(h, t[h].publicId, t[h].phase, t[h].version,
                                                  Body(p, t[h].payload)))
  }

  function Body(p: Payloads<KeyRecord>, payload: string): string
  {
    match p.decode(payload)
    case None => ""
    case Some(r) => r.body
  }

  function HandleOf(r: KeyRecord): string
  {
    r.handle
  }

  /** The stored records as callers see them. */
  function Records(p: Payloads<KeyRecord>, t: Table): map<string, KeyRecord>
  {
    map h | h in t && p.decode(t[h].payload).Some? :: p.decode(t[h].payload).value
  }

  /** At most one row that is not retired holds a public id. */
  ghost predicate OneLivePerPublicId(t: Table)
  {
    forall g, h :: g in t && h in t && t[g].phase != RETIRED && t[h].phase != RETIRED && g != h ==>
      t[g].publicId != t[h].publicId
  }

  /** What `Faithful` says of one record. */
  predicate StoresAsWritten(p: Payloads<KeyRecord>, r: KeyRecord)
  {
    p.encode(r).Some? ==> p.decode(p.encode(r).value) == Some(r)
  }

  lemma StepKeepsInvariant(p: Payloads<KeyRecord>, t: Table, s: Statement)
    requires Faithful(p) && Mirrored(p, t) && OneLivePerPublicId(t)
    ensures Mirrored(p, Exec(p, t, s)) && OneLivePerPublicId(Exec(p, t, s))
  {
    if Inserts(p, t, s) {
      assert p.decode(p.encode(Created(s.record)).value) == Some(Created(s.record));
    } else if Updates(p, t, s) {
      var stored := Stamped(s.record, s.expected);
      assert p.decode(p.encode(stored).value) == Some(stored);
    }
  }

  /** Over every run, from the empty table on: the columns mirror the payload, live
      public ids are unique, and the version stays within 1..2^63-1. */
  lemma RunKeepsInvariant(p: Payloads<KeyRecord>, t: Table, ss: seq<Statement>)
    requires Faithful(p) && Mirrored(p, t) && OneLivePerPublicId(t)
    ensures Mirrored(p, Run(p, t, ss)) && OneLivePerPublicId(Run(p, t, ss))
  {
    forall t, s | Mirrored(p, t) && OneLivePerPublicId(t)
      ensures Mirrored(p, Exec(p, t, s)) && OneLivePerPublicId(Exec(p, t, s))
    {
      StepKeepsInvariant(p, t, s);
    }
    RunKeeps(Machine(p).exec, t => Mirrored(p, t) && OneLivePerPublicId(t), t, ss);
  }

  /** `ChangeOf` tells what `Exec` does to the versions, and obeys key and guard. */
  lemma ChangeIsEffect(p: Payloads<KeyRecord>, t: Table, s: Statement, h: string)
    ensures VersionOf(Exec(p, t, s), h) == VersionHistory.Effect(ChangeOf(p, t, s), VersionOf(t, h), h)
    ensures VersionHistory.Allowed(ChangeOf(p, t, s), x => VersionOf(t, x))
  {
  }

  /** A bump stays below the end of the bigint range. */
  lemma MachineIsHonest(p: Payloads<KeyRecord>)
    ensures VersionHistory.Honest(Machine(p))
    ensures forall t, s :: ChangeOf(p, t, s).Bumped? ==> ChangeOf(p, t, s).expected < MAX_INT64
  {
    var m := Machine(p);
    forall t, s, h
      ensures m.version(m.exec(t, s), h) == VersionHistory.Effect(m.change(t, s), m.version(t, h), h)
    {
      ChangeIsEffect(p, t, s, h);
    }
    forall t, s
      ensures VersionHistory.Allowed(m.change(t, s), h => m.version(t, h))
    {
      ChangeIsEffect(p, t, s, "");
    }
  }

  lemma VersionAccounting(p: Payloads<KeyRecord>, ss: seq<Statement>, h: string)
    requires h in Run(p, map[], ss)
    ensures Run(p, map[], ss)[h].version == 1 + VersionHistory.UpdatesSinceInsert(Machine(p), map[], ss, |ss|, h)
  {
    MachineIsHonest(p);
    VersionHistory.VersionCountsUpdates(Machine(p), map[], ss, |ss|, h);
    assert ss[..|ss|] == ss;
  }

  predicate WinsAt(p: Payloads<KeyRecord>, t: Table, ss: seq<Statement>, i: nat, h: string)
  {
    i < |ss| && ss[i].Update? && ss[i].record.handle == h && Updates(p, Run(p, t, ss[..i]), ss[i])
  }

  predicate InsertsAt(p: Payloads<KeyRecord>, t: Table, ss: seq<Statement>, i: nat, h: string)
  {
    i < |ss| && ss[i].Insert? && ss[i].record.handle == h && Inserts(p, Run(p, t, ss[..i]), ss[i])
  }

  lemma SingleWinner(p: Payloads<KeyRecord>, ss: seq<Statement>, i: nat, j: nat, h: string)
    requires i < j && WinsAt(p, map[], ss, i, h) && WinsAt(p, map[], ss, j, h) && ss[i].expected == ss[j].expected
    ensures exists k :: i < k < j && InsertsAt(p, map[], ss, k, h)
  {
    var m := Machine(p);
    var bumped := VersionHistory.Bumped(h, ss[i].expected);
    assert VersionHistory.ChangeAt(m, map[], ss, i) == bumped == VersionHistory.ChangeAt(m, map[], ss, j);
    assert VersionHistory.InsertedBetween(m, map[], ss, h, i + 1, j) by {
      MachineIsHonest(p);
      VersionHistory.SingleWinner(m, map[], ss, h, ss[i].expected, i, j);
    }
    var k :| i + 1 <= k < j && VersionHistory.ChangeAt(m, map[], ss, k) == VersionHistory.Inserted(h);
    assert InsertsAt(p, map[], ss, k, h);
  }

  // -------------------------------------------- what a failed update tells you

  /** What `Update` answers after its UPDATE matched nothing. */
  function Recheck(p: Payloads<KeyRecord>, t: Table, h: string, others: seq<Statement>): Outcome
  {
    VersionHistory.Recheck(Machine(p), t, others, h)
  }

  lemma PresentMeansInserted(p: Payloads<KeyRecord>, t: Table, others: seq<Statement>, h: string)
    requires h !in t && h in Run(p, t, others)
    ensures exists k: nat :: InsertsAt(p, t, others, k, h)
  {
    var m := Machine(p);
    assert VersionHistory.InsertedBetween(m, t, others, h, 0, |others|) by {
      MachineIsHonest(p);
      VersionHistory.PresentMeansInserted(m, t, others, h);
    }
    var k :| 0 <= k < |others| && VersionHistory.ChangeAt(m, t, others, k) == VersionHistory.Inserted(h);
    assert InsertsAt(p, t, others, k, h);
  }

  /** If nobody inserts the handle between the two statements, a conflict means the
      row was there at the UPDATE with another version. */
  lemma ConflictMeansOtherVersion(p: Payloads<KeyRecord>, t: Table, s: Statement, others: seq<Statement>)
    requires Sent(p, s) && !Matches(t, s)
    requires Recheck(p, t, s.record.handle, others) == Conflict
    requires forall k: nat :: !InsertsAt(p, t, others, k, s.record.handle)
    ensures s.record.handle in t && t[s.record.handle].version != s.expected
  {
    var m, h := Machine(p), s.record.handle;
    if VersionHistory.InsertedBetween(m, t, others, h, 0, |others|) {
      var k :| 0 <= k < |others| && VersionHistory.ChangeAt(m, t, others, k) == VersionHistory.Inserted(h);
      assert InsertsAt(p, t, others, k, h);
    }
    MachineIsHonest(p);
    VersionHistory.ConflictMeansOtherVersion(m, t, others, h, s.expected);
  }

  /** When the answer of a failed update was the right one at some moment. */
  lemma FailedUpdateLinearizes(p: Payloads<KeyRecord>, t: Table, s: Statement, others: seq<Statement>)
    requires Sent(p, s) && !Matches(t, s)
    ensures var h := s.record.handle;
            VersionHistory.AnswerHeldAtSomeMoment(Machine(p), t, others, h, s.expected)
            <==> (|| s.expected != 1 || h in t || h !in Run(p, t, others)
                  || exists k: nat :: WinsAt(p, t, others, k, h))
  {
    var m, h := Machine(p), s.record.handle;
    assert VersionHistory.BumpedBetween(m, t, others, h, 0, |others|) <==>
           exists k: nat :: WinsAt(p, t, others, k, h) by {
      if VersionHistory.BumpedBetween(m, t, others, h, 0, |others|) {
        var k :| 0 <= k < |others| && VersionHistory.ChangeAt(m, t, others, k).Bumped?
                 && VersionHistory.ChangeAt(m, t, others, k).handle == h;
        assert WinsAt(p, t, others, k, h);
      }
      if k: nat :| WinsAt(p, t, others, k, h) {
        assert VersionHistory.ChangeAt(m, t, others, k) == VersionHistory.Bumped(h, others[k].expected);
      }
    }
    MachineIsHonest(p);
    VersionHistory.FailedUpdateLinearizes(m, t, others, h, s.expected);
  }

  /** The exception does occur: the row is created between the two statements with
      the very version the caller expected. */
  lemma ConflictOnTheExpectedVersion(p: Payloads<KeyRecord>, r: KeyRecord)
    requires p.encode(Created(r)).Some? && p.encode(Stamped(r, 1)).Some?
    ensures var others := [Insert(r)];
            && !Matches(map[], Update(r, 1))
            && Recheck(p, map[], r.handle, others) == Conflict
            && VersionHistory.Verdict(VersionOf(Run(p, map[], others), r.handle), 1) == Done
            && !VersionHistory.AnswerHeldAtSomeMoment(Machine(p), map[], others, r.handle, 1)
  {
    var others := [Insert(r)];
    RunOne(Machine(p).exec, map[], Insert(r));
    forall k: nat
      ensures !WinsAt(p, map[], others, k, r.handle)
    {
    }
    FailedUpdateLinearizes(p, map[], Update(r, 1), others);
  }

  // ---------------------------------------------------------- no lost updates

  function ReadOf(p: Payloads<KeyRecord>, t: Table, h: string): Option<KeyRecord>
  {
    if h in t then p.decode(t[h].payload) else None
  }

  /** A client writes a modified copy back under the handle it read it from. */
  function PutOf(h: string, record: KeyRecord, expected: int): Statement
  {
    if 0 <= expected < MAX_INT64 then Update(record.(handle := h), expected) else Select
  }

  function StoredAs(h: string, record: KeyRecord, expected: int): KeyRecord
  {
    if 0 <= expected < MAX_INT64 then Stamped(record.(handle := h), expected) else record
  }

  function VersionIn(record: KeyRecord): int
  {
    record.version
  }

  function Guard(p: Payloads<KeyRecord>): GuardedUpdates.Guard<Table, Statement, KeyRecord>
  {
    GuardedUpdates.Guard(Machine(p), (t, h) => ReadOf(p, t, h), PutOf, StoredAs, VersionIn)
  }

  lemma GuardIsSound(p: Payloads<KeyRecord>)
    requires Faithful(p)
    ensures GuardedUpdates.Sound(Guard(p))
  {
    var g := Guard(p);
    MachineIsHonest(p);
    forall t, s, h | !VersionHistory.Touches(ChangeOf(p, t, s), h)
      ensures ReadOf(p, Exec(p, t, s), h) == ReadOf(p, t, h)
    {
    }
    forall t, h, record, e
      ensures GuardedUpdates.PutIsGuarded(g, t, h, record, e)
    {
      var stored := StoredAs(h, record, e);
      assert p.encode(stored).Some? ==> p.decode(p.encode(stored).value) == Some(stored);
    }
  }

  /** Each modification applied to what its predecessor left, under the handle it was read
      from; the adapter changes the version. */
  function Composed(h: string, first: KeyRecord, mods: seq<KeyRecord -> KeyRecord>): KeyRecord
  {
    if mods == [] then first
    else
      var left := Composed(h, first, mods[..|mods| - 1]);
      var more := mods[|mods| - 1](left);
      if left.version < MAX_INT64 then more.(handle := h, version := left.version + 1) else more
  }

  lemma {:induction false} ReplayIsComposition(p: Payloads<KeyRecord>, h: string, first: KeyRecord,
                                              mods: seq<KeyRecord -> KeyRecord>)
    ensures GuardedUpdates.Replay(Guard(p), h, first, mods) == Composed(h, first, mods)
  {
    if mods != [] {
      ReplayIsComposition(p, h, first, mods[..|mods| - 1]);
    }
  }

  /** No update is lost: see `GuardedUpdates.NoLostUpdates`. */
  lemma NoLostUpdates(p: Payloads<KeyRecord>, w: GuardedUpdates.World<Table, KeyRecord>,
                      run: seq<GuardedUpdates.Event<Statement, KeyRecord>>, h: string, first: KeyRecord)
    requires Faithful(p) && Mirrored(p, w.db)
    requires h in w.db && p.decode(w.db[h].payload) == Some(first)
    requires forall c: nat :: (c, h) in w.seen ==> w.seen[(c, h)] == first
    requires GuardedUpdates.Undisturbed(Guard(p), w, run, h)
    ensures var end := GuardedUpdates.Play(Guard(p), w, run).db;
            var winners := GuardedUpdates.Winners(Guard(p), w, run, h);
            && h in end
            && p.decode(end[h].payload) == Some(Composed(h, first, winners))
            && end[h].version == first.version + |winners|
  {
    GuardIsSound(p);
    GuardedUpdates.NoLostUpdates(Guard(p), w, run, h, first);
    var end, winners := GuardedUpdates.Play(Guard(p), w, run), GuardedUpdates.Winners(Guard(p), w, run, h);
    GuardedUpdates.ReplayedSays(Guard(p), end, h, first, winners);
    ReplayIsComposition(p, h, first, winners);
  }

  predicate CreatedBetween(p: Payloads<KeyRecord>, ss: seq<Statement>, h: string, i: nat, j: nat)
  {
    exists k :: i <= k < j && InsertsAt(p, map[], ss, k, h)
  }

  /** A copy read at `i`, written back at `j`: the guard matches exactly when the
      incarnation then stored has had as many updates as the one that was read, and an
      update that goes through replaces what was read unless the handle was created in
      between. */
  lemma StaleCopyWinsExactlyWhen(p: Payloads<KeyRecord>, ss: seq<Statement>, i: nat, j: nat, h: string, read: KeyRecord,
                                 record: KeyRecord)
    requires Faithful(p) && i <= j <= |ss| && ReadOf(p, Run(p, map[], ss[..i]), h) == Some(read)
    requires record.handle == h
    ensures var now, s := Run(p, map[], ss[..j]), Update(record, read.version);
            && (Updates(p, now, s)
                <==> Sent(p, s) && h in now && !Clashes(now, h, record.publicId, record.phase)
                     && VersionHistory.UpdatesSinceInsert(Machine(p), map[], ss, j, h) == read.version - 1)
            && (Updates(p, now, s) && ReadOf(p, now, h) != Some(read) ==> CreatedBetween(p, ss, h, i, j))
  {
    var m := Machine(p);
    assert Mirrored(p, Run(p, map[], ss[..i])) by {
      RunKeepsInvariant(p, map[], ss[..i]);
    }
    if VersionHistory.InsertedBetween(m, map[], ss, h, i, j) {
      var k :| i <= k < j && k < |ss| && VersionHistory.ChangeAt(m, map[], ss, k) == VersionHistory.Inserted(h);
      assert InsertsAt(p, map[], ss, k, h);
    }
    GuardIsSound(p);
    GuardedUpdates.StaleCopy(Guard(p), map[], ss, i, j, h);
  }

  // ------------------------------------------------------------------ methods

  function Reader(p: Payloads<KeyRecord>, t: Table): string -> Option<KeyRecord>
  {
    h => if h in t then p.decode(t[h].payload) else None
  }

  lemma ScanIsListing(p: Payloads<KeyRecord>, t: Table, order: seq<string>, out: seq<KeyRecord>)
    requires Mirrored(p, t) && Enumerates(order, t.Keys) && |out| == |order|
    requires forall i :: 0 <= i < |out| ==> order[i] in t && p.decode(t[order[i]].payload) == Some(out[i])
    ensures Lists(out, HandleOf, Records(p, t), t.Keys)
  {
    ScanLists(out, order, HandleOf, Records(p, t), t.Keys);
  }

  /** The caller's `*keymgmt.Record`. */
  class RecordRef {
    var value: KeyRecord

    constructor (value: KeyRecord)
      ensures this.value == value
    {
      this.value := value;
    }
  }

  class KeyRecordStore {
    const payloads: Payloads<KeyRecord>
    var rows: Table

    constructor (payloads: Payloads<KeyRecord>)
      ensures this.payloads == payloads && rows == map[]
    {
      this.payloads := payloads;
      rows := map[];
    }

    /** A canceled read reports the missing sentinel. */
    method Get(handle: string, canceled: bool) returns (r: Result<KeyRecord, Outcome>)
      ensures r == if !canceled && handle in rows then Decoded(payloads.decode(rows[handle].payload)) else Err(NotFound)
      ensures Mirrored(payloads, rows) && !canceled && handle in rows ==> r.Ok? && r.value.handle == handle
    {
      if canceled || handle !in rows {
        return Err(NotFound);
      }
      var record := payloads.decode(rows[handle].payload);
      if record.None? {
        return Err(Failed);
      }
      return Ok(record.value);
    }

    /** A duplicate is reported exactly when the handle exists or a live record claims
        a public id that another live row holds. */
    method Create(record: RecordRef) returns (r: Outcome)
      modifies this`rows, record
      ensures rows == Exec(payloads, old(rows), Insert(old(record.value)))
      ensures var rec := old(record.value);
              && (r == Done <==> Inserts(payloads, old(rows), Insert(rec)))
              && (r == Duplicate <==>
                    && payloads.encode(Created(rec)).Some?
                    && (rec.handle in old(rows) || Clashes(old(rows), rec.handle, rec.publicId, rec.phase)))
              && record.value == if r == Done then Created(rec) else rec
      ensures r in {Done, Duplicate, Failed}
      ensures r != Done ==> rows == old(rows)
      ensures var rec, t := old(record.value), old(rows);
              && (payloads.encode(rec.(version := 1)).Some? ==>
                    (r == Duplicate <==>
                       || rec.handle in t
                       || (rec.phase != "retired" && exists h :: h in t && h != rec.handle
                                                          && t[h].phase != "retired" && t[h].publicId == rec.publicId)))
              && (payloads.encode(rec.(version := 1)).None? ==> r == Failed)
              && (Faithful(payloads) && r == Done ==>
                    && rec.handle in rows && rows[rec.handle].version == 1
                    && rows[rec.handle].publicId == rec.publicId && rows[rec.handle].phase == rec.phase
                    && payloads.decode(rows[rec.handle].payload) == Some(rec.(version := 1))
                    && rows - {rec.handle} == old(rows))
    {
      var rec := record.value;
      assert Faithful(payloads) ==> StoresAsWritten(payloads, rec.(version := 1));
      var payload := payloads.encode(rec.(version := 1));
      if payload.None? {
        return Failed;
      }
      if rec.handle in rows || Clashes(rows, rec.handle, rec.publicId, rec.phase) {
        return Duplicate;
      }
      rows := rows[rec.handle := Row(rec.publicId, rec.phase, 1, payload.value)];
      record.value := rec.(version := 1);
      return Done;
    }

    /** The int64 guard, the guarded UPDATE and, when it matched nothing, a re-check.
        `fate` is that of the UPDATE; `others` are the statements of other callers that
        take effect between the two; `lost` says that the re-check itself fails. */
    method Update(record: RecordRef, expectedVersion: Uint64, fate: Fate, others: seq<Statement>, lost: bool)
      returns (r: Outcome)
      modifies this`rows, record
      ensures var rec := old(record.value);
              var s := Statement.Update(rec, expectedVersion);
              var missed := fate == Answered && Sent(payloads, s) && !Matches(old(rows), s);
              && (r == Done <==> fate == Answered && Updates(payloads, old(rows), s))
              && (r == Duplicate <==> fate == Answered && Sent(payloads, s) && Matches(old(rows), s)
                                      && Clashes(old(rows), rec.handle, rec.publicId, rec.phase))
              && (r in {NotFound, Conflict} <==> missed && !lost)
              && (r in {NotFound, Conflict} ==> r == Recheck(payloads, old(rows), rec.handle, others))
              && rows == (if missed then Run(payloads, old(rows), others)
                          else if fate == Refused then old(rows) else Exec(payloads, old(rows), s))
              && record.value == if r == Done then rec.(version := expectedVersion + 1) else rec
      ensures var rec, t := old(record.value), old(rows);
              && (fate == Answered && expectedVersion < MAX_INT64
                  && rec.handle in t && t[rec.handle].version == expectedVersion
                  && payloads.encode(rec.(version := expectedVersion + 1)).Some? ==>
                    r == if rec.phase != "retired" && exists h :: h in t && h != rec.handle
                                                          && t[h].phase != "retired" && t[h].publicId == rec.publicId
                         then Duplicate else Done)
              && (Faithful(payloads) && r == Done ==>
                    && rec.handle in rows && rows[rec.handle].version == expectedVersion + 1
                    && rows[rec.handle].publicId == rec.publicId && rows[rec.handle].phase == rec.phase
                    && payloads.decode(rows[rec.handle].payload) == Some(rec.(version := expectedVersion + 1))
                    && rows - {rec.handle} == old(rows) - {rec.handle})
    {
      if expectedVersion >= MAX_INT64 {
        return Failed;
      }
      assert Faithful(payloads) ==> StoresAsWritten(payloads, record.value.(version := expectedVersion + 1));
      var rec := record.value;
      var payload := payloads.encode(rec.(version := expectedVersion + 1));
      if payload.None? {
        return Failed;
      }
      if fate == Refused {
        return Failed;
      }
      var h := rec.handle;
      var matched := h in rows && rows[h].version == expectedVersion;
      if matched {
        if Clashes(rows, h, rec.publicId, rec.phase) {
          return if fate == Lost then Failed else Duplicate;
        }
        rows := rows[h := Row(rec.publicId, rec.phase, rows[h].version + 1, payload.value)];
      }
      if fate == Lost {
        return Failed;
      }
      if matched {
        record.value := rec.(version := expectedVersion + 1);
        return Done;
      }
      rows := Run(payloads, rows, others);
      if lost {
        return Failed;
      }
      if h !in rows {
        return NotFound;
      }
      return Conflict;
    }

    /** A missing handle is an error here, unlike in every other store. */
    method Delete(handle: string) returns (r: Outcome)
      modifies this`rows
      ensures rows == Exec(payloads, old(rows), Statement.Delete(handle)) == old(rows) - {handle}
      ensures r == if handle in old(rows) then Done else NotFound
    {
      if handle !in rows {
        return NotFound;
      }
      rows := rows - {handle};
      return Done;
    }

    /** Every stored record once, in some order; one payload that does not decode fails
        the whole call, and so does a scan that breaks off, after `broken` rows. */
    method List(broken: Option<nat>) returns (r: Result<seq<KeyRecord>, Outcome>)
      ensures r == Err(Failed) <==>
                (exists h :: h in rows && payloads.decode(rows[h].payload).None?)
                || (broken.Some? && broken.value <= |rows|)
      ensures r != Err(Failed) ==> r.Ok?
      ensures Mirrored(payloads, rows) && r.Ok? ==> Lists(r.value, HandleOf, Records(payloads, rows), rows.Keys)
    {
      var order := ScanOrder(rows.Keys);
      r := FetchAll(order, Reader(payloads, rows), broken);
      EnumeratesEach(order, rows.Keys);
      if r.Ok? && Mirrored(payloads, rows) {
        ScanIsListing(payloads, rows, order, r.value);
      }
    }
  }
}
