/** Version accounting, shared by the two stores that guard updates by a version
    column (refresh tokens and key records).

    A `Machine` is a table under one statement after another. Statements are atomic;
    a run is the sequence of statements of any number of interleaved callers. */
module VersionHistory {
  import opened Prelude

  /** What one statement does to the versions of a table. */
  datatype Change =
    | Inserted(handle: string)
    | Bumped(handle: string, expected: int)
    | Removed(handles: set<string>)
    | Unchanged

  datatype Machine<!T, !S> = Machine(exec: (T, S) -> T, change: (T, S) -> Change, version: (T, string) -> Option<int>)

  function Effect(c: Change, before: Option<int>, handle: string): Option<int>
  {
    match c
    case Inserted(x) => if x == handle then Some(1) else before
    case Bumped(x, expected) => if x == handle then Some(expected + 1) else before
    case Removed(xs) => if handle in xs then None else before
    case Unchanged => before
  }

  /** What the primary key and the guard `WHERE handle = $1 AND version = $n` allow. */
  predicate Allowed(c: Change, before: string -> Option<int>)
  {
    match c
    case Inserted(x) => before(x).None?
    case Bumped(x, expected) => before(x) == Some(expected)
    case _ => true
  }

  predicate Touches(c: Change, handle: string)
  {
    match c
    case Inserted(x) => x == handle
    case Bumped(x, _) => x == handle
    case Removed(xs) => handle in xs
    case Unchanged => false
  }

  /** The declared changes are the changes. */
  ghost predicate Honest<T(!new), S(!new)>(m: Machine<T, S>)
  {
    && (forall t, s, h :: m.version(m.exec(t, s), h) == Effect(m.change(t, s), m.version(t, h), h))
    && (forall t, s :: Allowed(m.change(t, s), h => m.version(t, h)))
  }

  function Run<T, S>(m: Machine<T, S>, t: T, ss: seq<S>): T
  {
    RunAll(m.exec, t, ss)
  }

  /** The table after the first `n` statements of a run from `t`. */
  function StateAt<T, S>(m: Machine<T, S>, t: T, ss: seq<S>, n: nat): T
    requires n <= |ss|
  {
    Run(m, t, ss[..n])
  }

  /** What the `i`-th statement of a run from `t` did. */
  function ChangeAt<T, S>(m: Machine<T, S>, t: T, ss: seq<S>, i: nat): Change
    requires i < |ss|
  {
    m.change(StateAt(m, t, ss, i), ss[i])
  }

  function VersionIn<T, S>(m: Machine<T, S>, t: T, ss: seq<S>, n: nat, handle: string): Option<int>
    requires n <= |ss|
  {
    m.version(StateAt(m, t, ss, n), handle)
  }

  lemma OneStep<T(!new), S(!new)>(m: Machine<T, S>, t: T, ss: seq<S>, i: nat, handle: string)
    requires Honest(m) && i < |ss|
    ensures StateAt(m, t, ss, i + 1) == m.exec(StateAt(m, t, ss, i), ss[i])
    ensures VersionIn(m, t, ss, i + 1, handle) == Effect(ChangeAt(m, t, ss, i), VersionIn(m, t, ss, i, handle), handle)
    ensures ChangeAt(m, t, ss, i) == Inserted(handle) ==> VersionIn(m, t, ss, i, handle).None?
    ensures forall e :: ChangeAt(m, t, ss, i) == Bumped(handle, e) ==> VersionIn(m, t, ss, i, handle) == Some(e)
  {
    assert ss[..i + 1][..i] == ss[..i];
    var before := StateAt(m, t, ss, i);
    assert Allowed(m.change(before, ss[i]), h => m.version(before, h));
  }

  /** How many updates of `handle` succeeded since it was last inserted. */
  function UpdatesSinceInsert<T, S>(m: Machine<T, S>, t: T, ss: seq<S>, n: nat, handle: string): nat
    requires n <= |ss|
  {
    if n == 0 then 0
    else
      var before := UpdatesSinceInsert(m, t, ss, n - 1, handle);
      match ChangeAt(m, t, ss, n - 1)
      case Inserted(x) => if x == handle then 0 else before
      case Bumped(x, _) => if x == handle then before + 1 else before
      case _ => before
  }

  /** The version is one more than the number of updates since insertion. */
  lemma {:induction false} VersionCountsUpdates<T(!new), S(!new)>(
    m: Machine<T, S>, t: T, ss: seq<S>, n: nat, handle: string)
    requires Honest(m) && n <= |ss| && m.version(t, handle).None?
    ensures VersionIn(m, t, ss, n, handle).Some? ==>
              VersionIn(m, t, ss, n, handle).value == 1 + UpdatesSinceInsert(m, t, ss, n, handle)
  {
    if n > 0 {
      VersionCountsUpdates(m, t, ss, n - 1, handle);
      OneStep(m, t, ss, n - 1, handle);
    }
  }

  predicate InsertedBetween<T, S>(m: Machine<T, S>, t: T, ss: seq<S>, handle: string, lo: nat, hi: nat)
  {
    exists k :: lo <= k < hi && k < |ss| && ChangeAt(m, t, ss, k) == Inserted(handle)
  }

  /** Without an insertion in between, a version that is present later was present
      before and has not gone down. */
  lemma {:induction false} VersionNeverFalls<T(!new), S(!new)>(m: Machine<T, S>, t: T, ss: seq<S>, handle: string,
                                                              lo: nat, hi: nat)
    requires Honest(m) && lo <= hi <= |ss|
    requires !InsertedBetween(m, t, ss, handle, lo, hi)
    requires VersionIn(m, t, ss, hi, handle).Some?
    ensures VersionIn(m, t, ss, lo, handle).Some?
    ensures VersionIn(m, t, ss, lo, handle).value <= VersionIn(m, t, ss, hi, handle).value
    decreases hi
  {
    if lo < hi {
      assert ChangeAt(m, t, ss, hi - 1) != Inserted(handle);
      OneStep(m, t, ss, hi - 1, handle);
      VersionNeverFalls(m, t, ss, handle, lo, hi - 1);
    }
  }

  /** Two updates that won with the same expected version belong to two incarnations
      of the handle: it was inserted anew in between. */
  lemma SingleWinner<T(!new), S(!new)>(
    m: Machine<T, S>, t: T, ss: seq<S>, handle: string, expected: int, i: nat, j: nat)
    requires Honest(m) && i < j < |ss|
    requires ChangeAt(m, t, ss, i) == ChangeAt(m, t, ss, j) == Bumped(handle, expected)
    ensures InsertedBetween(m, t, ss, handle, i + 1, j)
  {
    OneStep(m, t, ss, i, handle);
    OneStep(m, t, ss, j, handle);
    if !InsertedBetween(m, t, ss, handle, i + 1, j) {
      VersionNeverFalls(m, t, ss, handle, i + 1, j);
      assert false;
    }
  }

  /** Without an insertion in between, an unchanged version means that no statement
      touched the handle at all. */
  lemma {:induction false} SameVersionMeansUntouched<T(!new), S(!new)>(
    m: Machine<T, S>, t: T, ss: seq<S>, handle: string, lo: nat, hi: nat)
    requires Honest(m) && lo <= hi <= |ss|
    requires !InsertedBetween(m, t, ss, handle, lo, hi)
    requires VersionIn(m, t, ss, lo, handle) == VersionIn(m, t, ss, hi, handle) && VersionIn(m, t, ss, hi, handle).Some?
    ensures forall k :: lo <= k < hi ==> !Touches(ChangeAt(m, t, ss, k), handle)
    decreases hi
  {
    if lo < hi {
      assert ChangeAt(m, t, ss, hi - 1) != Inserted(handle);
      OneStep(m, t, ss, hi - 1, handle);
      assert VersionIn(m, t, ss, hi - 1, handle).Some?;
      VersionNeverFalls(m, t, ss, handle, lo, hi - 1);
      SameVersionMeansUntouched(m, t, ss, handle, lo, hi - 1);
    }
  }

  // -------------------------------------------- what a failed update tells you

  /** The guard as one indivisible check. */
  function Verdict(version: Option<int>, expected: int): Outcome
  {
    match version case None => NotFound case Some(v) => if v != expected then Conflict else Done
  }

  /** What an update answers after its UPDATE on `t` matched nothing: only presence at
      the re-check counts. `others` ran in between. */
  function Recheck<T, S>(m: Machine<T, S>, t: T, others: seq<S>, handle: string): Outcome
  {
    if m.version(Run(m, t, others), handle).Some? then Conflict else NotFound
  }

  /** Rows do not appear by themselves. */
  lemma PresentMeansInserted<T(!new), S(!new)>(m: Machine<T, S>, t: T, others: seq<S>, handle: string)
    requires Honest(m) && m.version(t, handle).None? && m.version(Run(m, t, others), handle).Some?
    ensures InsertedBetween(m, t, others, handle, 0, |others|)
  {
    assert others[..|others|] == others && others[..0] == [];
    if !InsertedBetween(m, t, others, handle, 0, |others|) {
      VersionNeverFalls(m, t, others, handle, 0, |others|);
      assert false;
    }
  }

  /** If nobody inserts the handle between the two statements, a conflict means the
      row was there at the UPDATE with another version. */
  lemma ConflictMeansOtherVersion<T(!new), S(!new)>(
    m: Machine<T, S>, t: T, others: seq<S>, handle: string, expected: int)
    requires Honest(m) && m.version(t, handle) != Some(expected)
    requires Recheck(m, t, others, handle) == Conflict && !InsertedBetween(m, t, others, handle, 0, |others|)
    ensures Verdict(m.version(t, handle), expected) == Conflict
  {
    if m.version(t, handle).None? {
      PresentMeansInserted(m, t, others, handle);
    }
  }

  predicate BumpedBetween<T, S>(m: Machine<T, S>, t: T, ss: seq<S>, handle: string, lo: nat, hi: nat)
  {
    exists k :: lo <= k < hi && k < |ss| && ChangeAt(m, t, ss, k).Bumped? && ChangeAt(m, t, ss, k).handle == handle
  }

  lemma {:induction false} VersionsArePositive<T(!new), S(!new)>(
    m: Machine<T, S>, t: T, ss: seq<S>, n: nat, handle: string)
    requires Honest(m) && n <= |ss| && m.version(t, handle).None?
    ensures VersionIn(m, t, ss, n, handle).Some? ==> VersionIn(m, t, ss, n, handle).value >= 1
    ensures VersionIn(m, t, ss, n, handle).Some? && !BumpedBetween(m, t, ss, handle, 0, n) ==>
              VersionIn(m, t, ss, n, handle).value == 1
  {
    if n > 0 {
      VersionsArePositive(m, t, ss, n - 1, handle);
      OneStep(m, t, ss, n - 1, handle);
    }
  }

  /** At some moment between the two statements one indivisible check would have given
      the answer of the re-check. */
  ghost predicate AnswerHeldAtSomeMoment<T, S>(m: Machine<T, S>, t: T, others: seq<S>, handle: string, expected: int)
  {
    exists i :: 0 <= i <= |others|
      && Verdict(VersionIn(m, t, others, i, handle), expected) == Recheck(m, t, others, handle)
  }

  /** A failed update answers as one indivisible check at some moment between its two
      statements would have, unless the caller expected version 1, the row was absent
      at the UPDATE, it was created in between and nobody updated it: then the answer
      is a conflict although no moment had one. */
  lemma FailedUpdateLinearizes<T(!new), S(!new)>(m: Machine<T, S>, t: T, others: seq<S>, handle: string, expected: int)
    requires Honest(m) && m.version(t, handle) != Some(expected)
    ensures AnswerHeldAtSomeMoment(m, t, others, handle, expected)
            <==> || expected != 1 || m.version(t, handle).Some? || m.version(Run(m, t, others), handle).None?
                 || BumpedBetween(m, t, others, handle, 0, |others|)
  {
    var answer := Recheck(m, t, others, handle);
    var n := |others|;
    assert others[..n] == others && others[..0] == [];
    if answer == NotFound {
      assert Verdict(VersionIn(m, t, others, n, handle), expected) == answer;
    } else if m.version(t, handle).Some? {
      assert Verdict(VersionIn(m, t, others, 0, handle), expected) == answer;
    } else if expected != 1 {
      PresentMeansInserted(m, t, others, handle);
      var k :| 0 <= k < n && ChangeAt(m, t, others, k) == Inserted(handle);
      OneStep(m, t, others, k, handle);
      assert Verdict(VersionIn(m, t, others, k + 1, handle), expected) == answer;
    } else if BumpedBetween(m, t, others, handle, 0, n) {
      var k :| 0 <= k < n && ChangeAt(m, t, others, k).Bumped? && ChangeAt(m, t, others, k).handle == handle;
      OneStep(m, t, others, k, handle);
      VersionsArePositive(m, t, others, k, handle);
      assert Verdict(VersionIn(m, t, others, k + 1, handle), expected) == answer;
    } else {
      forall i | 0 <= i <= n
        ensures Verdict(VersionIn(m, t, others, i, handle), expected) != answer
      {
        VersionsArePositive(m, t, others, i, handle);
      }
    }
  }
}
