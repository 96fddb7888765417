/** store/refresh_token.go: insert-only creation and version-guarded updates.

    A `Statement` is one SQL statement as the Go methods issue it. Statements are
    atomic; every interleaving of any number of callers is a sequence of statements. */
module RefreshTokens {
  import opened Prelude
  import opened Time
  import Reclaim
  import VersionHistory
  import GuardedUpdates

  /** The model value. `body` stands for the fields the adapter never looks at. */
  datatype Token = Token(creationTime: Instant, lifetime: Int64, version: Int64, body: string)

  datatype Row = Row(expiresAt: Option<int>, version: int, payload: string)

  type Table = map<string, Row>

  datatype Statement =
    | Insert(handle: string, token: Token)
    | Update(handle: string, token: Token, expected: Int64)
    | Delete(handle: string)
    | DeleteExpired(cutoff: Instant)
    | Select

  function Expiry(token: Token): Option<int>
  {
    Some(Micros(LifetimeExpiry(token.creationTime, token.lifetime)))
  }

  /** The copy that is encoded: Go's `int` addition wraps. */
  function Stamped(token: Token, expected: int): Token
  {
    token.(version := Wrap(expected + 1))
  }

  predicate Inserts(p: Payloads<Token>, t: Table, s: Statement)
  {
    s.Insert? && p.encode(s.token.(version := 1)).Some? && s.handle !in t
  }

  /** The guard matches a row. */
  predicate Matches(p: Payloads<Token>, t: Table, s: Statement)
  {
    && s.Update? && p.encode(Stamped(s.token, s.expected)).Some?
    && s.handle in t && t[s.handle].version == s.expected
  }

  /** The update goes through: `version + 1` must also fit the bigint column. */
  predicate Updates(p: Payloads<Token>, t: Table, s: Statement)
  {
    Matches(p, t, s) && s.expected < MAX_INT64
  }

  function ExpiryColumn(r: Row): Option<int>
  {
    r.expiresAt
  }

  function Exec(p: Payloads<Token>, t: Table, s: Statement): Table
  {
    match s
    case Insert(h, token) =>
      if Inserts(p, t, s) then t[h := Row(Expiry(token), 1, p.encode(token.(version := 1)).value)] else t
    case Update(h, token, expected) =>
      if Updates(p, t, s)
      then t[h := Row(Expiry(token), t[h].version + 1, p.encode(Stamped(token, expected)).value)]
      else t
    case Delete(h) => t - {h}
    case DeleteExpired(cutoff) => Reclaim.Reclaimed(t, ExpiryColumn, Micros(cutoff))
    case Select => t
  }

  function ChangeOf(p: Payloads<Token>, t: Table, s: Statement): VersionHistory.Change
  {
    if Inserts(p, t, s) then VersionHistory.Inserted(s.handle)
    else if Updates(p, t, s) then VersionHistory.Bumped(s.handle, s.expected)
    else if s.Delete? then VersionHistory.Removed({s.handle})
    else if s.DeleteExpired? then
      VersionHistory.Removed(Reclaim.Doomed(t, ExpiryColumn, Micros(s.cutoff)))
    else VersionHistory.Unchanged
  }

  function VersionOf(t: Table, h: string): Option<int>
  {
    if h in t then Some(t[h].version) else None
  }

  function Machine(p: Payloads<Token>): VersionHistory.Machine<Table, Statement>
  {
    VersionHistory.Machine((t, s) => Exec(p, t, s), (t, s) => ChangeOf(p, t, s), (t, h) => VersionOf(t, h))
  }

  function Run(p: Payloads<Token>, t: Table, ss: seq<Statement>): Table
  {
    VersionHistory.Run(Machine(p), t, ss)
  }

  /** Both version copies agree and the derived expiry column is never stale. */
  ghost predicate Consistent(p: Payloads<Token>, t: Table)
  {
    forall h :: h in t ==>
      && 1 <= t[h].version <= MAX_INT64
      && p.decode(t[h].payload).Some?
      && p.decode(t[h].payload).value.version == t[h].version
      && t[h].expiresAt == Expiry(p.decode(t[h].payload).value)
  }

  /** What `Faithful` says of one token. */
  predicate StoresAsWritten(p: Payloads<Token>, token: Token)
  {
    p.encode(token).Some? ==> p.decode(p.encode(token).value) == Some(token)
  }

  lemma StepKeepsConsistent(p: Payloads<Token>, t: Table, s: Statement)
    requires Faithful(p) && Consistent(p, t)
    ensures Consistent(p, Exec(p, t, s))
  {
    if s.Insert? {
      var stored := s.token.(version := 1);
      assert p.encode(stored).Some? ==> p.decode(p.encode(stored).value) == Some(stored);
    } else if s.Update? {
      var stored := Stamped(s.token, s.expected);
      assert p.encode(stored).Some? ==> p.decode(p.encode(stored).value) == Some(stored);
    }
  }

  /** In every reachable state the version column equals the payload's version and
      the expiry column is the one derived from the payload. */
  lemma RunKeepsConsistent(p: Payloads<Token>, t: Table, ss: seq<Statement>)
    requires Faithful(p) && Consistent(p, t)
    ensures Consistent(p, Run(p, t, ss))
  {
    forall t, s | Consistent(p, t)
      ensures Consistent(p, Exec(p, t, s))
    {
      StepKeepsConsistent(p, t, s);
    }
    RunKeeps(Machine(p).exec, t => Consistent(p, t), t, ss);
  }

  // ---------------------------------------------------------------- versions

  /** `ChangeOf` tells what `Exec` does to the versions, and obeys key and guard. */
  lemma ChangeIsEffect(p: Payloads<Token>, t: Table, s: Statement, h: string)
    ensures VersionOf(Exec(p, t, s), h) == VersionHistory.Effect(ChangeOf(p, t, s), VersionOf(t, h), h)
    ensures VersionHistory.Allowed(ChangeOf(p, t, s), x => VersionOf(t, x))
  {
  }

  lemma MachineIsHonest(p: Payloads<Token>)
    ensures VersionHistory.Honest(Machine(p))
  {
    var m := Machine(p);
    forall t, s, h
      ensures m.version(m.exec(t, s), h) == VersionHistory.Effect(m.change(t, s), m.version(t, h), h)
    {
      ChangeIsEffect(p, t, s, h);
    }
    forall t, s
      ensures VersionHistory.Allowed(m.change(t, s), h => m.version(t, h))
    {
      ChangeIsEffect(p, t, s, "");
    }
  }

  /** In every reachable state the version is one more than the number of updates
      that succeeded since the handle was inserted. */
  lemma VersionAccounting(p: Payloads<Token>, ss: seq<Statement>, h: string)
    requires h in Run(p, map[], ss)
    ensures Run(p, map[], ss)[h].version == 1 + VersionHistory.UpdatesSinceInsert(Machine(p), map[], ss, |ss|, h)
  {
    MachineIsHonest(p);
    VersionHistory.VersionCountsUpdates(Machine(p), map[], ss, |ss|, h);
    assert ss[..|ss|] == ss;
  }

  /** The `i`-th statement of a run from `t` is a winning update of `h`. */
  predicate WinsAt(p: Payloads<Token>, t: Table, ss: seq<Statement>, i: nat, h: string)
  {
    i < |ss| && ss[i].Update? && ss[i].handle == h && Updates(p, Run(p, t, ss[..i]), ss[i])
  }

  predicate InsertsAt(p: Payloads<Token>, t: Table, ss: seq<Statement>, i: nat, h: string)
  {
    i < |ss| && ss[i].Insert? && ss[i].handle == h && Inserts(p, Run(p, t, ss[..i]), ss[i])
  }

  /** Of all the updates that expect one version of one handle, at most one wins,
      unless the handle was created anew between two winners. */
  lemma SingleWinner(p: Payloads<Token>, ss: seq<Statement>, i: nat, j: nat, h: string)
    requires i < j && WinsAt(p, map[], ss, i, h) && WinsAt(p, map[], ss, j, h) && ss[i].expected == ss[j].expected
    ensures exists k :: i < k < j && InsertsAt(p, map[], ss, k, h)
  {
    var m := Machine(p);
    var bumped := VersionHistory.Bumped(h, ss[i].expected);
    assert VersionHistory.ChangeAt(m, map[], ss, i) == bumped == VersionHistory.ChangeAt(m, map[], ss, j);
    assert VersionHistory.InsertedBetween(m, map[], ss, h, i + 1, j) by {
      MachineIsHonest(p);
      VersionHistory.SingleWinner(m, map[], ss, h, ss[i].expected, i, j);
    }
    var k :| i + 1 <= k < j && VersionHistory.ChangeAt(m, map[], ss, k) == VersionHistory.Inserted(h);
    assert InsertsAt(p, map[], ss, k, h);
  }

  // -------------------------------------------- what a failed update tells you

  lemma PresentMeansInserted(p: Payloads<Token>, t: Table, others: seq<Statement>, h: string)
    requires h !in t && h in Run(p, t, others)
    ensures exists k: nat :: InsertsAt(p, t, others, k, h)
  {
    var m := Machine(p);
    assert VersionHistory.InsertedBetween(m, t, others, h, 0, |others|) by {
      MachineIsHonest(p);
      VersionHistory.PresentMeansInserted(m, t, others, h);
    }
    var k :| 0 <= k < |others| && VersionHistory.ChangeAt(m, t, others, k) == VersionHistory.Inserted(h);
    assert InsertsAt(p, t, others, k, h);
  }

  /** If nobody inserts the handle between the two statements, a conflict means the
      row was there at the UPDATE with another version. */
  lemma ConflictMeansOtherVersion(p: Payloads<Token>, t: Table, s: Statement, others: seq<Statement>)
    requires s.Update? && p.encode(Stamped(s.token, s.expected)).Some? && !Matches(p, t, s)
    requires VersionHistory.Recheck(Machine(p), t, others, s.handle) == Conflict
    requires forall k: nat :: !InsertsAt(p, t, others, k, s.handle)
    ensures s.handle in t && t[s.handle].version != s.expected
  {
    var m := Machine(p);
    if VersionHistory.InsertedBetween(m, t, others, s.handle, 0, |others|) {
      var k :| 0 <= k < |others| && VersionHistory.ChangeAt(m, t, others, k) == VersionHistory.Inserted(s.handle);
      assert InsertsAt(p, t, others, k, s.handle);
    }
    MachineIsHonest(p);
    VersionHistory.ConflictMeansOtherVersion(m, t, others, s.handle, s.expected);
  }

  /** When the answer of a failed update was the right one at some moment. */
  lemma FailedUpdateLinearizes(p: Payloads<Token>, t: Table, s: Statement, others: seq<Statement>)
    requires s.Update? && p.encode(Stamped(s.token, s.expected)).Some? && !Matches(p, t, s)
    ensures VersionHistory.AnswerHeldAtSomeMoment(Machine(p), t, others, s.handle, s.expected)
            <==> || s.expected != 1 || s.handle in t || s.handle !in Run(p, t, others)
                 || exists k: nat :: WinsAt(p, t, others, k, s.handle)
  {
    var m, h := Machine(p), s.handle;
    assert VersionHistory.BumpedBetween(m, t, others, h, 0, |others|) <==>
           exists k: nat :: WinsAt(p, t, others, k, h) by {
      if VersionHistory.BumpedBetween(m, t, others, h, 0, |others|) {
        var k :| 0 <= k < |others| && VersionHistory.ChangeAt(m, t, others, k).Bumped?
                 && VersionHistory.ChangeAt(m, t, others, k).handle == h;
        assert WinsAt(p, t, others, k, h);
      }
      if k: nat :| WinsAt(p, t, others, k, h) {
        assert VersionHistory.ChangeAt(m, t, others, k) == VersionHistory.Bumped(h, others[k].expected);
      }
    }
    MachineIsHonest(p);
    VersionHistory.FailedUpdateLinearizes(m, t, others, h, s.expected);
  }

  // ---------------------------------------------------------- no lost updates

  /** What a get returns, if it returns a token. */
  function ReadOf(p: Payloads<Token>, t: Table, h: string): Option<Token>
  {
    if h in t then p.decode(t[h].payload) else None
  }

  function PutOf(h: string, token: Token, expected: int): Statement
  {
    if MIN_INT64 <= expected <= MAX_INT64 then Update(h, token, expected) else Select
  }

  function VersionIn(token: Token): int
  {
    token.version
  }

  function Guard(p: Payloads<Token>): GuardedUpdates.Guard<Table, Statement, Token>
  {
    GuardedUpdates.Guard(Machine(p), (t, h) => ReadOf(p, t, h), (h, token, e) => PutOf(h, token, e),
                         (h, token, e) => Stamped(token, e), VersionIn)
  }

  lemma GuardIsSound(p: Payloads<Token>)
    requires Faithful(p)
    ensures GuardedUpdates.Sound(Guard(p))
  {
    var g := Guard(p);
    MachineIsHonest(p);
    forall t, s, h | !VersionHistory.Touches(ChangeOf(p, t, s), h)
      ensures ReadOf(p, Exec(p, t, s), h) == ReadOf(p, t, h)
    {
    }
    forall t, h, token, e
      ensures GuardedUpdates.PutIsGuarded(g, t, h, token, e)
    {
      var stored := Stamped(token, e);
      assert p.encode(stored).Some? ==> p.decode(p.encode(stored).value) == Some(stored);
    }
  }

  /** Each modification applied to what its predecessor left; it changes what it likes, the
      adapter changes the version. */
  function Composed(first: Token, mods: seq<Token -> Token>): Token
  {
    if mods == [] then first
    else
      var left := Composed(first, mods[..|mods| - 1]);
      mods[|mods| - 1](left).(version := Wrap(left.version + 1))
  }

  lemma {:induction false} ReplayIsComposition(p: Payloads<Token>, h: string, first: Token, mods: seq<Token -> Token>)
    ensures GuardedUpdates.Replay(Guard(p), h, first, mods) == Composed(first, mods)
  {
    if mods != [] {
      ReplayIsComposition(p, h, first, mods[..|mods| - 1]);
    }
  }

  /** No update is lost: see `GuardedUpdates.NoLostUpdates`. */
  lemma NoLostUpdates(p: Payloads<Token>, w: GuardedUpdates.World<Table, Token>,
                      run: seq<GuardedUpdates.Event<Statement, Token>>, h: string, first: Token)
    requires Faithful(p) && Consistent(p, w.db)
    requires h in w.db && p.decode(w.db[h].payload) == Some(first)
    requires forall c: nat :: (c, h) in w.seen ==> w.seen[(c, h)] == first
    requires GuardedUpdates.Undisturbed(Guard(p), w, run, h)
    ensures var end := GuardedUpdates.Play(Guard(p), w, run).db;
            var winners := GuardedUpdates.Winners(Guard(p), w, run, h);
            && h in end
            && p.decode(end[h].payload) == Some(Composed(first, winners))
            && end[h].version == first.version + |winners|
  {
    GuardIsSound(p);
    GuardedUpdates.NoLostUpdates(Guard(p), w, run, h, first);
    var end, winners := GuardedUpdates.Play(Guard(p), w, run), GuardedUpdates.Winners(Guard(p), w, run, h);
    GuardedUpdates.ReplayedSays(Guard(p), end, h, first, winners);
    ReplayIsComposition(p, h, first, winners);
  }

  // ---------------------------------------------------------- removed and created anew

  predicate CreatedBetween(p: Payloads<Token>, ss: seq<Statement>, h: string, i: nat, j: nat)
  {
    exists k :: i <= k < j && InsertsAt(p, map[], ss, k, h)
  }

  function UpdatesSinceCreation(p: Payloads<Token>, ss: seq<Statement>, j: nat, h: string): nat
    requires j <= |ss|
  {
    VersionHistory.UpdatesSinceInsert(Machine(p), map[], ss, j, h)
  }

  /** What a winning update overwrites carries the version it expects. */
  lemma WinOverwrites(p: Payloads<Token>, t: Table, h: string, token: Token, version: Int64)
    requires Faithful(p) && Consistent(p, t) && Updates(p, t, Update(h, token, version))
    ensures ReadOf(p, t, h).Some? && ReadOf(p, t, h).value.version == version
    ensures ReadOf(p, Exec(p, t, Update(h, token, version)), h) == Some(Stamped(token, version))
  {
    assert p.decode(p.encode(Stamped(token, version)).value) == Some(Stamped(token, version));
  }

  lemma StaleCopyCounts(p: Payloads<Token>, ss: seq<Statement>, i: nat, j: nat, h: string, read: Token, token: Token)
    requires Faithful(p) && i <= j <= |ss| && ReadOf(p, Run(p, map[], ss[..i]), h) == Some(read)
    ensures var now, s := Run(p, map[], ss[..j]), Update(h, token, read.version);
            var possible := p.encode(Stamped(token, read.version)).Some? && read.version < MAX_INT64 && h in now;
            && (Updates(p, now, s) <==> possible && UpdatesSinceCreation(p, ss, j, h) == read.version - 1)
            && (Updates(p, now, s) && ReadOf(p, now, h) != Some(read) ==> CreatedBetween(p, ss, h, i, j))
  {
    var m := Machine(p);
    RunKeepsConsistent(p, map[], ss[..i]);
    if VersionHistory.InsertedBetween(m, map[], ss, h, i, j) {
      var k :| i <= k < j && k < |ss| && VersionHistory.ChangeAt(m, map[], ss, k) == VersionHistory.Inserted(h);
      assert InsertsAt(p, map[], ss, k, h);
    }
    GuardIsSound(p);
    GuardedUpdates.StaleCopy(Guard(p), map[], ss, i, j, h);
  }

  /** A copy read at `i`, written back at `j`. The update goes through exactly when the
      incarnation then stored has had as many updates as the one that was read. Without a
      creation in between it replaces exactly the token that was read; what it overwrites
      carries the version that was read in any case, so nobody notices. */
  lemma StaleCopyWinsExactlyWhen(p: Payloads<Token>, ss: seq<Statement>, i: nat, j: nat, h: string, read: Token,
                                 token: Token)
    requires Faithful(p) && i <= j <= |ss| && ReadOf(p, Run(p, map[], ss[..i]), h) == Some(read)
    ensures var now, s := Run(p, map[], ss[..j]), Update(h, token, read.version);
            var possible := p.encode(Stamped(token, read.version)).Some? && read.version < MAX_INT64 && h in now;
            && (Updates(p, now, s) <==> possible && UpdatesSinceCreation(p, ss, j, h) == read.version - 1)
            && (Updates(p, now, s) && ReadOf(p, now, h) != Some(read) ==> CreatedBetween(p, ss, h, i, j))
            && (Updates(p, now, s) ==> && ReadOf(p, now, h).Some? && ReadOf(p, now, h).value.version == read.version
                                       && ReadOf(p, Exec(p, now, s), h) == Some(Stamped(token, read.version)))
  {
    StaleCopyCounts(p, ss, i, j, h, read, token);
    var now := Run(p, map[], ss[..j]);
    if Updates(p, now, Update(h, token, read.version)) {
      RunKeepsConsistent(p, map[], ss[..j]);
      WinOverwrites(p, now, h, token, read.version);
    }
  }

  /** So the guard does not see a removal followed by a creation: versions start at 1
      again, and a client still holding the removed token overwrites the new one. */
  lemma RecreationDefeatsTheGuard(p: Payloads<Token>, h: string, removed: Token, recreated: Token, token: Token)
    requires Faithful(p) && p.encode(removed.(version := 1)).Some? && p.encode(recreated.(version := 1)).Some?
    requires p.encode(Stamped(token, 1)).Some?
    ensures var ss := [Insert(h, removed), Delete(h), Insert(h, recreated)];
            var now := Run(p, map[], ss);
            && ReadOf(p, Run(p, map[], ss[..1]), h) == Some(removed.(version := 1))
            && CreatedBetween(p, ss, h, 1, 3) && Updates(p, now, Update(h, token, 1))
            && ReadOf(p, now, h) == Some(recreated.(version := 1))
            && ReadOf(p, Exec(p, now, Update(h, token, 1)), h) == Some(Stamped(token, 1))
  {
    var ss := [Insert(h, removed), Delete(h), Insert(h, recreated)];
    assert ss[..3] == ss && ss[..3][..2] == ss[..2] && ss[..2][..1] == ss[..1] && ss[..1][..0] == [];
    assert ss[..1] == [ss[0]];
    RunOne(Machine(p).exec, map[], ss[0]);
    assert Run(p, map[], ss[..2]) == Exec(p, Run(p, map[], ss[..1]), ss[1]);
    assert InsertsAt(p, map[], ss, 2, h);
    assert VersionHistory.ChangeAt(Machine(p), map[], ss, 2) == VersionHistory.Inserted(h);
    assert UpdatesSinceCreation(p, ss, 3, h) == 0;
    StaleCopyWinsExactlyWhen(p, ss, 1, 3, h, removed.(version := 1), token);
  }

  // ------------------------------------------------------------------ methods

  /** The caller's `*models.RefreshToken`. */
  class TokenRef {
    var value: Token

    constructor (value: Token)
      ensures this.value == value
    {
      this.value := value;
    }
  }

  class RefreshTokenStore {
    const payloads: Payloads<Token>
    var rows: Table

    constructor (payloads: Payloads<Token>)
      ensures this.payloads == payloads && rows == map[]
    {
      this.payloads := payloads;
      rows := map[];
    }

    method StoreRefreshToken(handle: string, token: TokenRef) returns (r: Outcome)
      modifies this`rows, token
      ensures rows == Exec(payloads, old(rows), Insert(handle, old(token.value)))
      ensures r == Done <==> Inserts(payloads, old(rows), Insert(handle, old(token.value)))
      ensures r == Duplicate <==> handle in old(rows) && payloads.encode(old(token.value).(version := 1)).Some?
      ensures r in {Done, Duplicate, Failed}
      ensures token.value == if r == Done then old(token.value).(version := 1) else old(token.value)
      ensures Faithful(payloads) && r == Done ==>
                && handle in rows && rows[handle].version == 1 && rows - {handle} == old(rows) && handle !in old(rows)
                && payloads.decode(rows[handle].payload) == Some(old(token.value).(version := 1))
    {
      assert Faithful(payloads) ==> StoresAsWritten(payloads, token.value.(version := 1));
      var enc := token.value.(version := 1);
      var payload := payloads.encode(enc);
      if payload.None? {
        return Failed;
      }
      var expiresAt := LifetimeExpiry(token.value.creationTime, token.value.lifetime);
      if handle in rows {
        return Duplicate;
      }
      rows := rows[handle := Row(Some(Micros(expiresAt)), 1, payload.value)];
      token.value := token.value.(version := 1);
      return Done;
    }

    /** Never "no error and no record". */
    method GetRefreshToken(handle: string) returns (r: Result<Token, Outcome>)
      ensures r == if handle in rows then Decoded(payloads.decode(rows[handle].payload)) else Err(NotFound)
      ensures Consistent(payloads, rows) && handle in rows ==> r.Ok?
    {
      if handle !in rows {
        return Err(NotFound);
      }
      var token := payloads.decode(rows[handle].payload);
      if token.None? {
        return Err(Failed);
      }
      return Ok(token.value);
    }

    /** Two statements: the guarded UPDATE and, when it matched nothing, a re-check.
        `fate` is that of the UPDATE; `others` are the statements of other callers that
        take effect between the two; `lost` says that the re-check itself fails. */
    method UpdateRefreshToken(handle: string, token: TokenRef, expectedVersion: Int64,
                              fate: Fate, others: seq<Statement>, lost: bool) returns (r: Outcome)
      modifies this`rows, token
      ensures var s := Update(handle, old(token.value), expectedVersion);
              var issued := payloads.encode(Stamped(s.token, expectedVersion)).Some?;
              var missed := fate == Answered && issued && !Matches(payloads, old(rows), s);
              && (r == Done <==> fate == Answered && Updates(payloads, old(rows), s))
              && (r == NotFound <==> missed && !lost && handle !in rows)
              && (r == Conflict <==> missed && !lost && handle in rows)
              && rows == (if missed then Run(payloads, old(rows), others)
                          else if fate == Refused then old(rows) else Exec(payloads, old(rows), s))
      ensures r in {Done, NotFound, Conflict, Failed}
      ensures Faithful(payloads) && r == Done ==>
                && handle in rows && rows[handle].version == expectedVersion + 1
                && payloads.decode(rows[handle].payload) == Some(old(token.value).(version := expectedVersion + 1))
                && handle in old(rows) && old(rows)[handle].version == expectedVersion
                && rows - {handle} == old(rows) - {handle}
      ensures token.value == if r == Done then old(token.value).(version := expectedVersion + 1) else old(token.value)
    {
      var enc := token.value.(version := Wrap(expectedVersion + 1));
      assert Faithful(payloads) ==> StoresAsWritten(payloads, enc);
      var payload := payloads.encode(enc);
      if payload.None? {
        return Failed;
      }
      var expiresAt := LifetimeExpiry(token.value.creationTime, token.value.lifetime);
      if fate == Refused {
        return Failed;
      }
      var matched := handle in rows && rows[handle].version == expectedVersion;
      if matched {
        if rows[handle].version == MAX_INT64 {
          return Failed;  // bigint out of range: the statement fails as a whole
        }
        rows := rows[handle := Row(Some(Micros(expiresAt)), rows[handle].version + 1, payload.value)];
      }
      if fate == Lost {
        return Failed;
      }
      if matched {
        token.value := token.value.(version := expectedVersion + 1);
        return Done;
      }
      rows := Run(payloads, rows, others);
      if lost {
        return Failed;
      }
      if handle !in rows {
        return NotFound;
      }
      return Conflict;
    }

    method RemoveRefreshToken(handle: string) returns (r: Outcome)
      modifies this`rows
      ensures r == Done && rows == Exec(payloads, old(rows), Delete(handle)) == old(rows) - {handle}
    {
      rows := rows - {handle};
      return Done;
    }

    /** Exactly the tokens whose column lies strictly before the cutoff go, and the
        count is the number of rows lost. */
    method RemoveExpired(cutoff: Instant) returns (count: nat)
      modifies this`rows
      ensures rows == Exec(payloads, old(rows), DeleteExpired(cutoff))
      ensures count == |old(rows)| - |rows|
    {
      var gone := Reclaim.Doomed(rows, ExpiryColumn, Micros(cutoff));
      Reclaim.Conservation(rows, gone);
      rows := rows - gone;
      return |gone|;
    }
  }

  /** A reclaim by exact times: a token that expired a microsecond or more before the
      cutoff goes, one that expires at or after it stays as it is. */
  lemma ReclaimExact(p: Payloads<Token>, t: Table, cutoff: Instant, h: string)
    requires Consistent(p, t) && h in t
    ensures var token, after := p.decode(t[h].payload).value, Exec(p, t, DeleteExpired(cutoff));
            var expiry := LifetimeExpiry(token.creationTime, token.lifetime);
            && (expiry + 1000 <= cutoff ==> h !in after)
            && (cutoff <= expiry ==> h in after && after[h] == t[h])
  {
    var token := p.decode(t[h].payload).value;
    MicrosResolution(LifetimeExpiry(token.creationTime, token.lifetime), cutoff);
    MicrosResolution(cutoff, LifetimeExpiry(token.creationTime, token.lifetime));
  }

  /** Read through the payloads: a reclaim at `cutoff` keeps every token whose exact
      expiry is at or after it. */
  lemma ReclaimNeverEarly(p: Payloads<Token>, t: Table, cutoff: Instant, h: string)
    requires Consistent(p, t) && h in t && h !in Exec(p, t, DeleteExpired(cutoff))
    ensures var token := p.decode(t[h].payload).value;
            && LifetimeExpiry(token.creationTime, token.lifetime) < cutoff
            && (-MAX_EXACT_LIFETIME <= token.lifetime <= MAX_EXACT_LIFETIME ==>
                  token.creationTime + token.lifetime * SECOND < cutoff)
  {
    var exact := (r: Row) =>
      match p.decode(r.payload)
      case None => None
      case Some(token) => Some(LifetimeExpiry(token.creationTime, token.lifetime));
    MicrosIsMonotone();
    Reclaim.NeverEarly(t, exact, ExpiryColumn, Micros, cutoff, h);
    var token := p.decode(t[h].payload).value;
    LifetimeExpiryExact(token.creationTime, token.lifetime);
  }
}
