/** store/reference_token.go: an insert-only table and the two-statement revocation,
    which scans payloads and then deletes by handle. */
module ReferenceTokens {
  import opened Prelude
  import opened Time
  import Reclaim

  /** The model value: `subjectId` is what `SubjectId()` derives, `body` stands for the
      fields the adapter never looks at. */
  datatype Token = Token(subjectId: string, clientId: string, creationTime: Instant, lifetime: Int64, body: string)

  datatype Row = Row(expiresAt: Option<int>, payload: string)

  type Table = map<string, Row>

  datatype Statement =
    | Insert(handle: string, token: Token)
    | Delete(handle: string)
    | DeleteAny(handles: set<string>)
    | DeleteExpired(cutoff: Instant)
    | Select

  function Expiry(token: Token): Option<int>
  {
    Some(Micros(LifetimeExpiry(token.creationTime, token.lifetime)))
  }

  function ExpiryColumn(r: Row): Option<int>
  {
    r.expiresAt
  }

  predicate Inserts(p: Payloads<Token>, t: Table, s: Statement)
  {
    s.Insert? && p.encode(s.token).Some? && s.handle !in t
  }

  function Exec(p: Payloads<Token>, t: Table, s: Statement): Table
  {
    match s
    case Insert(h, token) =>
      if Inserts(p, t, s) then t[h := Row(Expiry(token), p.encode(token).value)] else t
    case Delete(h) => t - {h}
    case DeleteAny(hs) => t - hs
    case DeleteExpired(cutoff) => Reclaim.Reclaimed(t, ExpiryColumn, Micros(cutoff))
    case Select => t
  }

  function Executor(p: Payloads<Token>): (Table, Statement) -> Table
  {
    (t, s) => Exec(p, t, s)
  }

  function Run(p: Payloads<Token>, t: Table, ss: seq<Statement>): Table
  {
    RunAll(Executor(p), t, ss)
  }

  /** Every payload reads back, and the expiry column is the one derived from it. */
  ghost predicate Consistent(p: Payloads<Token>, t: Table)
  {
    forall h :: h in t ==>
      p.decode(t[h].payload).Some? && t[h].expiresAt == Expiry(p.decode(t[h].payload).value)
  }

  lemma StepKeepsConsistent(p: Payloads<Token>, t: Table, s: Statement)
    requires Faithful(p) && Consistent(p, t)
    ensures Consistent(p, Exec(p, t, s))
  {
    if Inserts(p, t, s) {
      assert p.decode(p.encode(s.token).value) == Some(s.token);
    }
  }

  lemma RunKeepsConsistent(p: Payloads<Token>, t: Table, ss: seq<Statement>)
    requires Faithful(p) && Consistent(p, t)
    ensures Consistent(p, Run(p, t, ss))
  {
    forall t, s | Consistent(p, t)
      ensures Consistent(p, Exec(p, t, s))
    {
      StepKeepsConsistent(p, t, s);
    }
    RunKeeps(Executor(p), t => Consistent(p, t), t, ss);
  }

  /** A reclaim by exact times: a token that expired a microsecond or more before the
      cutoff goes, one that expires at or after it stays as it is. */
  lemma ReclaimExact(p: Payloads<Token>, t: Table, cutoff: Instant, h: string)
    requires Consistent(p, t) && h in t
    ensures var token, after := p.decode(t[h].payload).value, Exec(p, t, DeleteExpired(cutoff));
            var expiry := LifetimeExpiry(token.creationTime, token.lifetime);
            && (expiry + 1000 <= cutoff ==> h !in after)
            && (cutoff <= expiry ==> h in after && after[h] == t[h])
  {
    var token := p.decode(t[h].payload).value;
    MicrosResolution(LifetimeExpiry(token.creationTime, token.lifetime), cutoff);
    MicrosResolution(cutoff, LifetimeExpiry(token.creationTime, token.lifetime));
  }

  // --------------------------------------------------------------- revocation

  /** The decoded token belongs to the pair. */
  predicate Belongs(p: Payloads<Token>, r: Row, subjectId: string, clientId: string)
  {
    match p.decode(r.payload)
    case None => false
    case Some(token) => token.subjectId == subjectId && token.clientId == clientId
  }

  function Owned(p: Payloads<Token>, t: Table, subjectId: string, clientId: string): set<string>
  {
    set h | h in t && Belongs(p, t[h], subjectId, clientId)
  }

  /** The table right after the delete step, when `others` ran since the scan of `t`. */
  function Revoked(p: Payloads<Token>, t: Table, subjectId: string, clientId: string, others: seq<Statement>): Table
  {
    Run(p, t, others) - Owned(p, t, subjectId, clientId)
  }

  predicate InsertsAt(p: Payloads<Token>, t: Table, ss: seq<Statement>, i: nat, h: string)
  {
    i < |ss| && ss[i].Insert? && ss[i].handle == h && Inserts(p, Run(p, t, ss[..i]), ss[i])
  }

  predicate StoredMeanwhile(p: Payloads<Token>, t: Table, ss: seq<Statement>, h: string)
  {
    exists i: nat :: i < |ss| && InsertsAt(p, t, ss, i, h)
  }

  /** Tokens are never rewritten: what is there and was not stored meanwhile was there
      all along. */
  lemma {:induction false} InsertOnly(p: Payloads<Token>, t: Table, ss: seq<Statement>, h: string)
    requires h in Run(p, t, ss) && !StoredMeanwhile(p, t, ss, h)
    ensures h in t && t[h] == Run(p, t, ss)[h]
  {
    if ss != [] {
      var n := |ss| - 1;
      var before := ss[..n];
      assert !InsertsAt(p, t, ss, n, h);
      assert h in Run(p, t, before) && Run(p, t, before)[h] == Run(p, t, ss)[h];
      if StoredMeanwhile(p, t, before, h) {
        var i: nat :| i < |before| && InsertsAt(p, t, before, i, h);
        assert before[..i] == ss[..i];
        assert InsertsAt(p, t, ss, i, h);
      }
      InsertOnly(p, t, before, h);
    }
  }

  /** Whatever runs in between: every token that matched at the scan is gone, a token
      of the pair that is left was stored after the scan, and a token of somebody else
      that the delete took had its handle re-used after the scan. */
  lemma RevocationInterleaved(p: Payloads<Token>, t: Table, subjectId: string, clientId: string, others: seq<Statement>)
    ensures var hit, mid := Owned(p, t, subjectId, clientId), Run(p, t, others);
            var end := Revoked(p, t, subjectId, clientId, others);
            && (forall h :: h in hit ==> h !in end)
            && (forall h :: h in Owned(p, end, subjectId, clientId) ==> StoredMeanwhile(p, t, others, h))
            && (forall h :: h in mid && h !in end && h !in Owned(p, mid, subjectId, clientId) ==>
                  h in hit && StoredMeanwhile(p, t, others, h))
            && (forall h :: h in mid && h !in hit ==> h in end && end[h] == mid[h])
  {
    var hit, mid := Owned(p, t, subjectId, clientId), Run(p, t, others);
    forall h | h in mid && !StoredMeanwhile(p, t, others, h)
      ensures h in hit <==> h in Owned(p, mid, subjectId, clientId)
    {
      InsertOnly(p, t, others, h);
    }
  }

  // ------------------------------------------------------ what other callers stored

  predicate IsOf(token: Token, subjectId: string, clientId: string)
  {
    token.subjectId == subjectId && token.clientId == clientId
  }

  function RowFor(p: Payloads<Token>, token: Token): Row
    requires p.encode(token).Some?
  {
    Row(Expiry(token), p.encode(token).value)
  }

  /** The `k`-th statement stores a token that nothing removes any more. */
  ghost predicate StoredForGood(p: Payloads<Token>, t: Table, ss: seq<Statement>, k: nat, h: string)
  {
    InsertsAt(p, t, ss, k, h) && forall j :: k < j <= |ss| ==> h in Run(p, t, ss[..j])
  }

  lemma ForGoodBefore(p: Payloads<Token>, t: Table, ss: seq<Statement>, k: nat, h: string)
    requires StoredForGood(p, t, ss, k, h) && k < |ss| - 1
    ensures StoredForGood(p, t, ss[..|ss| - 1], k, h) && h in Run(p, t, ss)
  {
    var before := ss[..|ss| - 1];
    assert before[..k] == ss[..k] && ss[..|ss|] == ss;
    forall j | k < j <= |before|
      ensures h in Run(p, t, before[..j])
    {
      assert before[..j] == ss[..j];
    }
  }

  /** A row that is there before and after a statement is not changed by it. */
  lemma KeptAsItIs(p: Payloads<Token>, t: Table, s: Statement, h: string)
    requires h in t && h in Exec(p, t, s)
    ensures Exec(p, t, s)[h] == t[h]
  {
  }

  /** What is stored for good is what is there at the end. */
  lemma {:induction false} StoredForGoodStays(p: Payloads<Token>, t: Table, ss: seq<Statement>, k: nat, h: string)
    requires StoredForGood(p, t, ss, k, h)
    ensures h in Run(p, t, ss) && Run(p, t, ss)[h] == RowFor(p, ss[k].token)
    decreases |ss|
  {
    var before := ss[..|ss| - 1];
    if k < |ss| - 1 {
      ForGoodBefore(p, t, ss, k, h);
      StoredForGoodStays(p, t, before, k, h);
      KeptAsItIs(p, Run(p, t, before), ss[|ss| - 1], h);
    }
  }

  /** What is there at the end was stored for good or was there all along. */
  lemma {:induction false} StoredOrThereBefore(p: Payloads<Token>, t: Table, ss: seq<Statement>, h: string)
    requires h in Run(p, t, ss)
    ensures (h in t && t[h] == Run(p, t, ss)[h]) || exists k: nat :: StoredForGood(p, t, ss, k, h)
    decreases |ss|
  {
    if ss != [] {
      var n := |ss| - 1;
      var before := ss[..n];
      assert ss[..|ss|] == ss;
      if InsertsAt(p, t, ss, n, h) {
        assert StoredForGood(p, t, ss, n, h);
      } else {
        StoredOrThereBefore(p, t, before, h);
        if k: nat :| StoredForGood(p, t, before, k, h) {
          assert before[..k] == ss[..k];
          forall j | k < j <= |ss|
            ensures h in Run(p, t, ss[..j])
          {
            assert j <= n ==> before[..j] == ss[..j];
          }
          assert StoredForGood(p, t, ss, k, h);
        }
      }
    }
  }

  lemma StoredBelongs(p: Payloads<Token>, token: Token, subjectId: string, clientId: string)
    requires Faithful(p) && p.encode(token).Some?
    ensures Belongs(p, RowFor(p, token), subjectId, clientId) <==> IsOf(token, subjectId, clientId)
  {
  }

  /** Scan and delete are like one indivisible delete of the pair's tokens at the moment
      of the delete step exactly when the others, among what they stored for good in
      between, stored tokens of the pair under scanned handles and under no others. */
  lemma RevocationAtomicExactlyWhen(p: Payloads<Token>, t: Table, subjectId: string, clientId: string,
                                    others: seq<Statement>)
    requires Faithful(p)
    ensures var hit, mid := Owned(p, t, subjectId, clientId), Run(p, t, others);
            Revoked(p, t, subjectId, clientId, others) == mid - Owned(p, mid, subjectId, clientId)
            <==> forall k: nat, h :: StoredForGood(p, t, others, k, h) ==>
                   (h in hit <==> IsOf(others[k].token, subjectId, clientId))
  {
    var hit, mid := Owned(p, t, subjectId, clientId), Run(p, t, others);
    var now, end := Owned(p, mid, subjectId, clientId), Revoked(p, t, subjectId, clientId, others);
    if end == mid - now {
      forall k: nat, h | StoredForGood(p, t, others, k, h)
        ensures h in hit <==> IsOf(others[k].token, subjectId, clientId)
      {
        StoredForGoodStays(p, t, others, k, h);
        StoredBelongs(p, others[k].token, subjectId, clientId);
        assert h in end <==> h !in hit;
        assert h in mid - now <==> h !in now;
      }
    }
    if forall k: nat, h :: StoredForGood(p, t, others, k, h) ==>
         (h in hit <==> IsOf(others[k].token, subjectId, clientId)) {
      forall h | h in mid
        ensures h in hit <==> h in now
      {
        StoredOrThereBefore(p, t, others, h);
        if k: nat :| StoredForGood(p, t, others, k, h) {
          StoredForGoodStays(p, t, others, k, h);
          StoredBelongs(p, others[k].token, subjectId, clientId);
        }
      }
      assert end == mid - now;
    }
  }

  // ------------------------------------------------------ one step at another moment

  /** The same table would result if the pair's tokens were deleted in one step after the
      first `i` statements of the others. */
  predicate OneStepAt(p: Payloads<Token>, t: Table, subjectId: string, clientId: string, others: seq<Statement>, i: nat)
  {
    i <= |others| &&
    var at := Run(p, t, others[..i]);
    Run(p, at - Owned(p, at, subjectId, clientId), others[i..]) == Revoked(p, t, subjectId, clientId, others)
  }

  predicate SameAt(a: Table, b: Table, h: string)
  {
    (h in a <==> h in b) && (h in a ==> a[h] == b[h])
  }

  /** What becomes of a handle depends on nothing but its own row. */
  lemma {:induction false} HandlesAreIndependent(p: Payloads<Token>, a: Table, b: Table, ss: seq<Statement>, h: string)
    requires SameAt(a, b, h)
    ensures SameAt(Run(p, a, ss), Run(p, b, ss), h)
  {
    if ss != [] {
      HandlesAreIndependent(p, a, b, ss[..|ss| - 1], h);
    }
  }

  /** It is one step at the scan exactly when, with the scanned tokens gone, the others
      would have stored nothing for good under a scanned handle. */
  lemma OneStepAtTheScanExactlyWhen(p: Payloads<Token>, t: Table, subjectId: string, clientId: string,
                                    others: seq<Statement>)
    ensures var hit := Owned(p, t, subjectId, clientId);
            OneStepAt(p, t, subjectId, clientId, others, 0)
            <==> forall k: nat, h :: StoredForGood(p, t - hit, others, k, h) ==> h !in hit
  {
    var hit := Owned(p, t, subjectId, clientId);
    var once, end := Run(p, t - hit, others), Revoked(p, t, subjectId, clientId, others);
    assert others[..0] == [] && others[0..] == others;
    assert OneStepAt(p, t, subjectId, clientId, others, 0) <==> once == end;
    forall h | h !in hit
      ensures SameAt(once, end, h)
    {
      HandlesAreIndependent(p, t - hit, t, others, h);
    }
    if forall k: nat, h :: StoredForGood(p, t - hit, others, k, h) ==> h !in hit {
      forall h | h in hit
        ensures h !in once
      {
        if h in once {
          StoredOrThereBefore(p, t - hit, others, h);
        }
      }
      assert once == end;
    }
    if once == end {
      forall k: nat, h | StoredForGood(p, t - hit, others, k, h)
        ensures h !in hit
      {
        StoredForGoodStays(p, t - hit, others, k, h);
      }
    }
  }

  /** In particular when nobody re-uses a scanned handle. */
  lemma OneStepAtTheScanWithoutReuse(p: Payloads<Token>, t: Table, subjectId: string, clientId: string,
                                     others: seq<Statement>)
    requires forall s :: s in others && s.Insert? ==> s.handle !in Owned(p, t, subjectId, clientId)
    ensures OneStepAt(p, t, subjectId, clientId, others, 0)
  {
    var hit := Owned(p, t, subjectId, clientId);
    forall k: nat, h | StoredForGood(p, t - hit, others, k, h)
      ensures h !in hit
    {
      assert others[k] in others;
    }
    OneStepAtTheScanExactlyWhen(p, t, subjectId, clientId, others);
  }

  /** Handles that nobody stores under can as well be removed first. */
  lemma {:induction false} RemovedStayRemoved(p: Payloads<Token>, t: Table, ss: seq<Statement>, gone: set<string>)
    requires forall s :: s in ss && s.Insert? ==> s.handle !in gone
    ensures Run(p, t - gone, ss) == Run(p, t, ss) - gone
  {
    if ss != [] {
      var before, last := ss[..|ss| - 1], ss[|ss| - 1];
      RemovedStayRemoved(p, t, before, gone);
      var mid := Run(p, t, before);
      assert last in ss;
      assert Exec(p, mid - gone, last) == Exec(p, mid, last) - gone;
    }
  }

  /** And it is one step after the first `i` statements when it would have been one step
      had the delete come then, and nobody re-uses a scanned handle any more. */
  lemma OneStepInBetween(p: Payloads<Token>, t: Table, subjectId: string, clientId: string, others: seq<Statement>,
                         i: nat)
    requires Faithful(p) && i <= |others|
    requires forall k: nat, h :: StoredForGood(p, t, others[..i], k, h) ==>
               (h in Owned(p, t, subjectId, clientId) <==> IsOf(others[k].token, subjectId, clientId))
    requires forall s :: s in others[i..] && s.Insert? ==> s.handle !in Owned(p, t, subjectId, clientId)
    ensures OneStepAt(p, t, subjectId, clientId, others, i)
  {
    var hit, at := Owned(p, t, subjectId, clientId), Run(p, t, others[..i]);
    assert at - hit == at - Owned(p, at, subjectId, clientId) by {
      RevocationAtomicExactlyWhen(p, t, subjectId, clientId, others[..i]);
    }
    RunSplits(Executor(p), t, others, i);
    RemovedStayRemoved(p, at, others[i..], hit);
  }

  /** Run alone, it deletes exactly the tokens of the pair. */
  lemma RevocationAlone(p: Payloads<Token>, t: Table, subjectId: string, clientId: string)
    ensures Revoked(p, t, subjectId, clientId, []) == t - Owned(p, t, subjectId, clientId)
    ensures Owned(p, Revoked(p, t, subjectId, clientId, []), subjectId, clientId) == {}
  {
    assert Run(p, t, []) == t;
  }

  /** A handle that is freed and stored anew between scan and delete is lost although
      its new token belongs to somebody else: no single step at any moment does that. */
  lemma ReusedHandleIsLost(p: Payloads<Token>, h: string, token: Token, stranger: Token)
    requires Faithful(p) && p.encode(token).Some? && p.encode(stranger).Some?
    requires stranger.subjectId != token.subjectId
    ensures var t := map[h := RowFor(p, token)];
            var others := [Delete(h), Insert(h, stranger)];
            var mid, end := Run(p, t, others), Revoked(p, t, token.subjectId, token.clientId, others);
            && h in mid && !Belongs(p, mid[h], token.subjectId, token.clientId) && h !in end
            && end != mid - Owned(p, mid, token.subjectId, token.clientId)
            && forall i :: 0 <= i <= 2 ==> !OneStepAt(p, t, token.subjectId, token.clientId, others, i)
  {
    var t, others := map[h := RowFor(p, token)], [Delete(h), Insert(h, stranger)];
    var s, c := token.subjectId, token.clientId;
    StoredBelongs(p, token, s, c);
    StoredBelongs(p, stranger, s, c);
    assert h in Owned(p, t, s, c);
    RunOne(Executor(p), t, Delete(h));
    RunTwo(Executor(p), t, Delete(h), Insert(h, stranger));
    assert others[..1] == [Delete(h)] && others[..2] == others;
    assert StoredForGood(p, t, others, 1, h);
    RevocationAtomicExactlyWhen(p, t, s, c, others);
    forall i | 0 <= i <= 2
      ensures !OneStepAt(p, t, s, c, others, i)
    {
      StrangerSurvivesOneStep(p, t, h, token, stranger, i);
    }
  }

  lemma StrangerSurvivesOneStep(p: Payloads<Token>, t: Table, h: string, token: Token, stranger: Token, i: nat)
    requires Faithful(p) && p.encode(token).Some? && p.encode(stranger).Some?
    requires stranger.subjectId != token.subjectId && t == map[h := RowFor(p, token)] && i <= 2
    ensures var others := [Delete(h), Insert(h, stranger)];
            var at := Run(p, t, others[..i]);
            h in Run(p, at - Owned(p, at, token.subjectId, token.clientId), others[i..])
  {
    var a, b := Delete(h), Insert(h, stranger);
    var at := Run(p, t, [a, b][..i]);
    var start := at - Owned(p, at, token.subjectId, token.clientId);
    StoredBelongs(p, stranger, token.subjectId, token.clientId);
    if i == 0 {
      assert [a, b][0..] == [a, b];
      RunTwo(Executor(p), start, a, b);
    } else if i == 1 {
      assert [a, b][..1] == [a] && [a, b][1..] == [b];
      RunOne(Executor(p), t, a);
      RunOne(Executor(p), start, b);
    } else {
      assert [a, b][..2] == [a, b] && [a, b][2..] == [];
      RunTwo(Executor(p), t, a, b);
    }
  }

  // ------------------------------------------------------------------ methods

  class ReferenceTokenStore {
    const payloads: Payloads<Token>
    var rows: Table

    constructor (payloads: Payloads<Token>)
      ensures this.payloads == payloads && rows == map[]
    {
      this.payloads := payloads;
      rows := map[];
    }

    method StoreReferenceToken(handle: string, token: Token) returns (r: Outcome)
      modifies this`rows
      ensures rows == Exec(payloads, old(rows), Insert(handle, token))
      ensures r == if payloads.encode(token).None? then Failed else if handle in old(rows) then Duplicate else Done
      ensures r != Done ==> rows == old(rows)
      ensures Faithful(payloads) && r == Done ==>
                && handle in rows && payloads.decode(rows[handle].payload) == Some(token)
                && rows - {handle} == old(rows)
    {
      var payload := payloads.encode(token);
      if payload.None? {
        return Failed;
      }
      var expiresAt := LifetimeExpiry(token.creationTime, token.lifetime);
      if handle in rows {
        return Duplicate;
      }
      rows := rows[handle := Row(Some(Micros(expiresAt)), payload.value)];
      return Done;
    }

    method GetReferenceToken(handle: string) returns (r: Result<Token, Outcome>)
      ensures r == if handle in rows then Decoded(payloads.decode(rows[handle].payload)) else Err(NotFound)
      ensures Consistent(payloads, rows) && handle in rows ==> r.Ok?
    {
      if handle !in rows {
        return Err(NotFound);
      }
      var token := payloads.decode(rows[handle].payload);
      if token.None? {
        return Err(Failed);
      }
      return Ok(token.value);
    }

    method RemoveReferenceToken(handle: string) returns (r: Outcome)
      modifies this`rows
      ensures r == Done && rows == Exec(payloads, old(rows), Delete(handle)) == old(rows) - {handle}
    {
      rows := rows - {handle};
      return Done;
    }

    /** The scan collects the handles of the pair's tokens; one DELETE then removes
        them. `broken` says after how many rows the scan breaks off, if it does;
        `others` take effect between the two statements; `fate` is that of the DELETE. */
    method RemoveReferenceTokens(subjectId: string, clientId: string, broken: Option<nat>,
                                 others: seq<Statement>, fate: Fate) returns (r: Outcome)
      modifies this`rows
      ensures var hit := Owned(payloads, old(rows), subjectId, clientId);
              var unread := || (exists h :: h in old(rows) && payloads.decode(old(rows)[h].payload).None?)
                            || (broken.Some? && broken.value <= |old(rows)|);
              && r == (if !unread && (hit == {} || fate == Answered) then Done else Failed)
              && rows == if unread || hit == {} then old(rows)
                         else if fate == Refused then Run(payloads, old(rows), others)
                         else Revoked(payloads, old(rows), subjectId, clientId, others)
    {
      var handles := ScanHandles(subjectId, clientId, broken);
      if handles.None? {
        return Failed;
      }
      if |handles.value| == 0 {
        assert Owned(payloads, rows, subjectId, clientId) == {};
        return Done;
      }
      var any := set h | h in handles.value;
      assert any == Owned(payloads, rows, subjectId, clientId) && handles.value[0] in any;
      rows := Run(payloads, rows, others);
      if fate == Refused {
        return Failed;
      }
      rows := rows - any;
      return if fate == Lost then Failed else Done;
    }

    /** The scan loop: every row is decoded, and the first failure ends the call. */
    method ScanHandles(subjectId: string, clientId: string, broken: Option<nat>) returns (handles: Option<seq<string>>)
      ensures handles.None? <==>
                (exists h :: h in rows && payloads.decode(rows[h].payload).None?)
                || (broken.Some? && broken.value <= |rows|)
      ensures handles.Some? ==> forall h :: h in handles.value <==> h in Owned(payloads, rows, subjectId, clientId)
    {
      var found: seq<string> := [];
      var pending := rows.Keys;
      var scanned := 0;
      while pending != {}
        invariant pending <= rows.Keys
        invariant scanned + |pending| == |rows.Keys|
        invariant broken.Some? ==> scanned <= broken.value
        invariant forall h :: h in found <==> h in Owned(payloads, rows, subjectId, clientId) && h !in pending
        invariant forall h :: h in rows && h !in pending ==> payloads.decode(rows[h].payload).Some?
        decreases pending
      {
        if broken == Some(scanned) {
          return None;
        }
        var handle :| handle in pending;
        var token := payloads.decode(rows[handle].payload);
        if token.None? {
          return None;
        }
        if token.value.subjectId == subjectId && token.value.clientId == clientId {
          found := found + [handle];
        }
        pending := pending - {handle};
        scanned := scanned + 1;
      }
      return if broken == Some(scanned) then None else Some(found);
    }

    method RemoveExpired(cutoff: Instant) returns (count: nat)
      modifies this`rows
      ensures rows == Exec(payloads, old(rows), DeleteExpired(cutoff))
      ensures count == |old(rows)| - |rows|
    {
      var gone := Reclaim.Doomed(rows, ExpiryColumn, Micros(cutoff));
      Reclaim.Conservation(rows, gone);
      rows := rows - gone;
      return |gone|;
    }
  }
}
