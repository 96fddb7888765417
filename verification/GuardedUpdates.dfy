/** Clients that read a record, modify their copy and write it back under the version
    they read, on any table whose versions `VersionHistory` describes. Refresh tokens
    and key records are the two instances. */
module GuardedUpdates {
  import opened Prelude
  import opened VersionHistory

  /** `read` is what a reader sees under a handle, `put` the guarded UPDATE with its
      expected version, `stamped` the record that UPDATE stores. */
  datatype Guard<!T, !S, !V> = Guard(machine: Machine<T, S>, read: (T, string) -> Option<V>, put: (string, V, int) -> S,
                                     stamped: (string, V, int) -> V, versionOf: V -> int)

  /** An UPDATE changes nothing or bumps the version it expects and stores its record. */
  predicate PutIsGuarded<T, S, V(==)>(g: Guard<T, S, V>, t: T, h: string, v: V, expected: int)
  {
    var s := g.put(h, v, expected);
    match g.machine.change(t, s)
    case Unchanged => true
    case Bumped(x, e) =>
      && x == h && e == expected
      && g.read(g.machine.exec(t, s), h) == Some(g.stamped(h, v, expected))
      && g.versionOf(g.stamped(h, v, expected)) == expected + 1
    case _ => false
  }

  /** Statements that do not touch a handle leave what is read there alone. */
  ghost predicate Sound<T(!new), S(!new), V(!new)>(g: Guard<T, S, V>)
  {
    && Honest(g.machine)
    && (forall t, s, h :: !Touches(g.machine.change(t, s), h) ==> g.read(g.machine.exec(t, s), h) == g.read(t, h))
    && (forall t, h, v, e :: PutIsGuarded(g, t, h, v, e))
  }

  // ---------------------------------------------------------- no lost updates

  /** `Other` is any statement of any caller. A `Put` that is not answered may have
      taken effect; its client then still holds the copy it had. */
  datatype Event<!S, !V> =
    | Get(client: nat, handle: string)
    | Put(client: nat, handle: string, change: V -> V, answered: bool)
    | Other(statement: S)

  /** The table, and the copy each client holds of each handle it has read. */
  datatype World<T, V> = World(db: T, seen: map<(nat, string), V>)

  function PutStatement<T, S, V>(g: Guard<T, S, V>, w: World<T, V>, e: Event<S, V>): S
    requires e.Put? && (e.client, e.handle) in w.seen
  {
    var read := w.seen[(e.client, e.handle)];
    g.put(e.handle, e.change(read), g.versionOf(read))
  }

  predicate PutWins<T, S, V>(g: Guard<T, S, V>, w: World<T, V>, e: Event<S, V>)
  {
    e.Put? && (e.client, e.handle) in w.seen && g.machine.change(w.db, PutStatement(g, w, e)).Bumped?
  }

  /** What the winning update stores. */
  function Stored<T, S, V>(g: Guard<T, S, V>, w: World<T, V>, e: Event<S, V>): V
    requires e.Put? && (e.client, e.handle) in w.seen
  {
    var read := w.seen[(e.client, e.handle)];
    g.stamped(e.handle, e.change(read), g.versionOf(read))
  }

  function Step<T, S, V>(g: Guard<T, S, V>, w: World<T, V>, e: Event<S, V>): World<T, V>
  {
    match e
    case Get(c, h) =>
      (match g.read(w.db, h)
       case Some(v) => w.(seen := w.seen[(c, h) := v])
       case None => w.(seen := w.seen - {(c, h)}))
    case Put(c, h, _, answered) =>
      if PutWins(g, w, e) then
        World(g.machine.exec(w.db, PutStatement(g, w, e)),
              if answered then w.seen[(c, h) := Stored(g, w, e)] else w.seen)
      else w
    case Other(s) => w.(db := g.machine.exec(w.db, s))
  }

  function Play<T, S, V>(g: Guard<T, S, V>, w: World<T, V>, run: seq<Event<S, V>>): World<T, V>
  {
    if run == [] then w else Step(g, Play(g, w, run[..|run| - 1]), run[|run| - 1])
  }

  /** What one event appends to the winners. */
  function Won<T, S, V>(g: Guard<T, S, V>, w: World<T, V>, e: Event<S, V>, h: string): seq<V -> V>
  {
    if PutWins(g, w, e) && e.handle == h then [e.change] else []
  }

  /** The modifications of `h` that won, in the order in which they won. */
  function Winners<T, S, V>(g: Guard<T, S, V>, w: World<T, V>, run: seq<Event<S, V>>, h: string): seq<V -> V>
  {
    if run == [] then []
    else
      var before := run[..|run| - 1];
      Winners(g, w, before, h) + Won(g, Play(g, w, before), run[|run| - 1], h)
  }

  /** Sequential composition: each modification applied to what its predecessor left. */
  function Replay<T, S, V>(g: Guard<T, S, V>, h: string, first: V, mods: seq<V -> V>): V
  {
    if mods == [] then first
    else
      var left := Replay(g, h, first, mods[..|mods| - 1]);
      g.stamped(h, mods[|mods| - 1](left), g.versionOf(left))
  }

  predicate Present<T, S, V>(g: Guard<T, S, V>, t: T, h: string)
  {
    g.machine.version(t, h).Some?
  }

  /** `h` is never removed during the run, and only clients that read it update it. */
  predicate Undisturbed<T, S, V>(g: Guard<T, S, V>, w: World<T, V>, run: seq<Event<S, V>>, h: string)
  {
    Present(g, w.db, h) &&
    (run != [] ==>
       var before, e := run[..|run| - 1], run[|run| - 1];
       && Undisturbed(g, w, before, h)
       && Present(g, Play(g, w, run).db, h)
       && (e.Other? ==> var c := g.machine.change(Play(g, w, before).db, e.statement); !(c.Bumped? && c.handle == h)))
  }

  /** A copy is the replay of some of the winners, with as many versions. */
  predicate IsReplay<T, S, V(==)>(g: Guard<T, S, V>, h: string, first: V, mods: seq<V -> V>, v: V, i: nat)
  {
    i <= |mods| && v == Replay(g, h, first, mods[..i]) && g.versionOf(v) == g.versionOf(first) + i
  }

  /** The stored record is the replay of the winners, and so is every copy a client
      holds, up to some earlier winner. */
  ghost predicate Replayed<T, S, V>(g: Guard<T, S, V>, w: World<T, V>, h: string, first: V, mods: seq<V -> V>)
  {
    && g.read(w.db, h).Some?
    && IsReplay(g, h, first, mods, g.read(w.db, h).value, |mods|)
    && g.machine.version(w.db, h) == Some(g.versionOf(first) + |mods|)
    && forall c: nat :: (c, h) in w.seen ==> exists i: nat :: IsReplay(g, h, first, mods, w.seen[(c, h)], i)
  }

  lemma LongerReplay<T, S, V>(g: Guard<T, S, V>, h: string, first: V, mods: seq<V -> V>, f: V -> V, v: V, i: nat)
    requires IsReplay(g, h, first, mods, v, i)
    ensures IsReplay(g, h, first, mods + [f], v, i)
  {
    assert (mods + [f])[..i] == mods[..i];
  }

  /** A winning update extends the replay by its own modification. */
  lemma PutReplays<T(!new), S(!new), V(!new)>(
    g: Guard<T, S, V>, w: World<T, V>, e: Event<S, V>, first: V, mods: seq<V -> V>)
    requires Sound(g) && PutWins(g, w, e) && Replayed(g, w, e.handle, first, mods)
    ensures Replayed(g, Step(g, w, e), e.handle, first, mods + [e.change])
  {
    var h, more := e.handle, mods + [e.change];
    var read := w.seen[(e.client, h)];
    var i: nat :| IsReplay(g, h, first, mods, read, i);
    assert PutIsGuarded(g, w.db, h, e.change(read), g.versionOf(read));
    var s := PutStatement(g, w, e);
    assert Allowed(g.machine.change(w.db, s), x => g.machine.version(w.db, x));
    assert i == |mods| && mods[..i] == mods && more[..|more| - 1] == mods && more[..|more|] == more;
    assert IsReplay(g, h, first, more, Stored(g, w, e), |more|);
    var w' := Step(g, w, e);
    forall d: nat | (d, h) in w'.seen
      ensures exists j: nat :: IsReplay(g, h, first, more, w'.seen[(d, h)], j)
    {
      if w'.seen[(d, h)] != Stored(g, w, e) {
        var j: nat :| IsReplay(g, h, first, mods, w.seen[(d, h)], j);
        LongerReplay(g, h, first, mods, e.change, w.seen[(d, h)], j);
      }
    }
  }

  lemma OtherEventsReplay<T(!new), S(!new), V(!new)>(
    g: Guard<T, S, V>, w: World<T, V>, e: Event<S, V>, h: string, first: V, mods: seq<V -> V>)
    requires Sound(g) && Replayed(g, w, h, first, mods)
    requires !(PutWins(g, w, e) && e.handle == h)
    requires e.Other? ==> var c := g.machine.change(w.db, e.statement); !(c.Bumped? && c.handle == h)
    requires Present(g, Step(g, w, e).db, h)
    ensures Replayed(g, Step(g, w, e), h, first, mods)
  {
    var w' := Step(g, w, e);
    assert g.read(w'.db, h) == g.read(w.db, h) && g.machine.version(w'.db, h) == g.machine.version(w.db, h) by {
      if e.Other? {
        var c := g.machine.change(w.db, e.statement);
        assert Allowed(c, x => g.machine.version(w.db, x));
        assert g.machine.version(w'.db, h) == Effect(c, g.machine.version(w.db, h), h);
        assert !Touches(c, h);
      } else if PutWins(g, w, e) {
        var read := w.seen[(e.client, e.handle)];
        assert PutIsGuarded(g, w.db, e.handle, e.change(read), g.versionOf(read));
        assert !Touches(g.machine.change(w.db, PutStatement(g, w, e)), h);
      }
    }
    forall c: nat | (c, h) in w'.seen
      ensures exists i: nat :: IsReplay(g, h, first, mods, w'.seen[(c, h)], i)
    {
      if e == Get(c, h) {
        assert IsReplay(g, h, first, mods, w'.seen[(c, h)], |mods|);
      } else {
        assert (c, h) in w.seen && w'.seen[(c, h)] == w.seen[(c, h)];
      }
    }
  }

  lemma {:induction false} PlayReplays<T(!new), S(!new), V(!new)>(
    g: Guard<T, S, V>, w: World<T, V>, run: seq<Event<S, V>>, h: string, first: V)
    requires Sound(g) && Replayed(g, w, h, first, []) && Undisturbed(g, w, run, h)
    ensures Replayed(g, Play(g, w, run), h, first, Winners(g, w, run, h))
  {
    if run != [] {
      var before, e := run[..|run| - 1], run[|run| - 1];
      var mid, mods := Play(g, w, before), Winners(g, w, before, h);
      PlayReplays(g, w, before, h, first);
      if PutWins(g, mid, e) && e.handle == h {
        PutReplays(g, mid, e, first, mods);
      } else {
        OtherEventsReplay(g, mid, e, h, first, mods);
        assert mods + [] == mods;
      }
    }
  }

  /** No update is lost: whatever the interleaving, and whichever answers are lost, as
      long as the handle stays, the stored record is the sequential composition of
      exactly the winning modifications, each applied to the value its predecessor
      stored; `Replayed` adds that its version has risen by their number, and that every
      copy a client holds is the composition of the first few of them. */
  lemma NoLostUpdates<T(!new), S(!new), V(!new)>(
    g: Guard<T, S, V>, w: World<T, V>, run: seq<Event<S, V>>, h: string, first: V)
    requires Sound(g) && Undisturbed(g, w, run, h)
    requires g.read(w.db, h) == Some(first) && g.machine.version(w.db, h) == Some(g.versionOf(first))
    requires forall c: nat :: (c, h) in w.seen ==> w.seen[(c, h)] == first
    ensures var end, mods := Play(g, w, run), Winners(g, w, run, h);
            && g.read(end.db, h) == Some(Replay(g, h, first, mods))
            && Replayed(g, end, h, first, mods)
  {
    var end, mods := Play(g, w, run), Winners(g, w, run, h);
    assert Replayed(g, end, h, first, mods) by {
      NothingReplayed(g, w, h, first);
      PlayReplays(g, w, run, h, first);
    }
    ReplayedSays(g, end, h, first, mods);
  }

  lemma ReplayedSays<T, S, V>(g: Guard<T, S, V>, w: World<T, V>, h: string, first: V, mods: seq<V -> V>)
    requires Replayed(g, w, h, first, mods)
    ensures g.read(w.db, h) == Some(Replay(g, h, first, mods))
    ensures g.machine.version(w.db, h) == Some(g.versionOf(first) + |mods|)
  {
    assert mods[..|mods|] == mods;
  }

  lemma NothingReplayed<T, S, V>(g: Guard<T, S, V>, w: World<T, V>, h: string, first: V)
    requires g.read(w.db, h) == Some(first) && g.machine.version(w.db, h) == Some(g.versionOf(first))
    requires forall c: nat :: (c, h) in w.seen ==> w.seen[(c, h)] == first
    ensures Replayed(g, w, h, first, [])
  {
    assert IsReplay(g, h, first, [], first, 0);
  }

  // ---------------------------------------------------------- copies of removed records

  /** What was read at `i` under version `v`, used at `j`: the guard on `v` matches
      exactly when the incarnation then stored has had `v - 1` updates; and if it does
      and the handle was not inserted in between, what it replaces is what was read. */
  lemma StaleCopy<T(!new), S(!new), V(!new)>(g: Guard<T, S, V>, t: T, ss: seq<S>, i: nat, j: nat, h: string)
    requires Sound(g) && i <= j <= |ss| && g.machine.version(t, h).None?
    requires VersionIn(g.machine, t, ss, i, h).Some?
    ensures var m := g.machine;
            var v, now := VersionIn(m, t, ss, i, h), VersionIn(m, t, ss, j, h);
            && (now == v <==> now.Some? && UpdatesSinceInsert(m, t, ss, j, h) == v.value - 1)
            && (now == v && !InsertedBetween(m, t, ss, h, i, j) ==>
                  g.read(StateAt(m, t, ss, j), h) == g.read(StateAt(m, t, ss, i), h))
  {
    var m := g.machine;
    VersionCountsUpdates(m, t, ss, j, h);
    if VersionIn(m, t, ss, j, h) == VersionIn(m, t, ss, i, h) && !InsertedBetween(m, t, ss, h, i, j) {
      SameVersionMeansUntouched(m, t, ss, h, i, j);
      UntouchedReadsSame(g, t, ss, h, i, j);
    }
  }

  lemma {:induction false} UntouchedReadsSame<T(!new), S(!new), V(!new)>(g: Guard<T, S, V>, t: T, ss: seq<S>, h: string,
                                                                        lo: nat, hi: nat)
    requires Sound(g) && lo <= hi <= |ss|
    requires forall k :: lo <= k < hi ==> !Touches(ChangeAt(g.machine, t, ss, k), h)
    ensures g.read(StateAt(g.machine, t, ss, hi), h) == g.read(StateAt(g.machine, t, ss, lo), h)
    decreases hi
  {
    if lo < hi {
      OneStep(g.machine, t, ss, hi - 1, h);
      assert !Touches(ChangeAt(g.machine, t, ss, hi - 1), h);
      UntouchedReadsSame(g, t, ss, h, lo, hi - 1);
    }
  }
}
