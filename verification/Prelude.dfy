/** Types shared by every store: optional values, what a store method reports,
    and the payload column as the stores see it. */
module Prelude {
  datatype Option<+T> = None | Some(value: T)

  datatype Result<+T, +E> = Ok(value: T) | Err(error: E)

  /** What a store method returns. `Failed` stands for every error that is not one
      of the port's sentinels: an encoding error, a value out of range, a lost
      connection. */
  datatype Outcome = Done | Duplicate | NotFound | Conflict | Failed

  /** What becomes of a server call: answered, refused without effect, or carried out
      while its answer is lost. */
  datatype Fate = Answered | Refused | Lost

  /** The payload column of a table whose model type is `V`. `encode` gives the text
      the column holds after a write (`None` when the model cannot be marshalled);
      `decode` is what a read makes of that text. */
  datatype Payloads<!V> = Payloads(encode: V -> Option<string>, decode: string -> Option<V>)

  /** A written value reads back unchanged. Module `Codec` builds such a `Payloads`
      out of base64 and the JSON envelope. */
  ghost predicate Faithful<V(!new)>(p: Payloads<V>)
  {
    forall v: V :: p.encode(v).Some? ==> p.decode(p.encode(v).value) == Some(v)
  }

  /** What a read method returns for a payload: one that does not decode is an error, never
      an empty record. */
  function Decoded<V>(v: Option<V>): Result<V, Outcome>
  {
    match v case Some(record) => Ok(record) case None => Err(Failed)
  }

  /** A run: one atomic statement after another. Statements of any number of callers
      interleave freely, so a run stands for any interleaving. */
  function RunAll<T, S>(exec: (T, S) -> T, start: T, ss: seq<S>): T
  {
    if ss == [] then start else exec(RunAll(exec, start, ss[..|ss| - 1]), ss[|ss| - 1])
  }

  /** What every step keeps, every run keeps. */
  lemma {:induction false} RunKeeps<T(!new), S(!new)>(exec: (T, S) -> T, inv: T -> bool, start: T, ss: seq<S>)
    requires inv(start) && forall t, s :: inv(t) ==> inv(exec(t, s))
    ensures inv(RunAll(exec, start, ss))
  {
    if ss != [] {
      RunKeeps(exec, inv, start, ss[..|ss| - 1]);
    }
  }

  /** What every step does as promised, every run does as promised. */
  lemma {:induction false} RunSimulates<T(!new), M(!new), S(!new)>(exec: (T, S) -> T, promise: (M, S) -> M,
                                                                  rel: (T, M) -> bool, t: T, m: M, ss: seq<S>)
    requires rel(t, m) && forall t', m', s :: rel(t', m') ==> rel(exec(t', s), promise(m', s))
    ensures rel(RunAll(exec, t, ss), RunAll(promise, m, ss))
  {
    if ss != [] {
      RunSimulates(exec, promise, rel, t, m, ss[..|ss| - 1]);
    }
  }

  /** A run is its first part, then the rest. */
  lemma {:induction false} RunSplits<T, S>(exec: (T, S) -> T, start: T, ss: seq<S>, i: nat)
    requires i <= |ss|
    ensures RunAll(exec, start, ss) == RunAll(exec, RunAll(exec, start, ss[..i]), ss[i..])
    decreases |ss|
  {
    if i == |ss| {
      assert ss[..i] == ss && ss[i..] == [];
    } else {
      var before := ss[..|ss| - 1];
      assert before[..i] == ss[..i] && before[i..] == ss[i..][..|ss| - i - 1];
      RunSplits(exec, start, before, i);
    }
  }

  lemma RunOne<T, S>(exec: (T, S) -> T, start: T, a: S)
    ensures RunAll(exec, start, [a]) == exec(start, a)
  {
    assert [a][..0] == [];
  }

  lemma RunTwo<T, S>(exec: (T, S) -> T, start: T, a: S, b: S)
    ensures RunAll(exec, start, [a, b]) == exec(exec(start, a), b)
  {
    assert [a, b][..1] == [a];
    RunOne(exec, start, a);
  }

  /** `out` holds, in some order, exactly the records of `m` under `keys`, each once. */
  predicate Lists<V(==)>(out: seq<V>, key: V -> string, m: map<string, V>, keys: set<string>)
  {
    if out == [] then keys == {}
    else
      var last := out[|out| - 1];
      && key(last) in keys && key(last) in m && m[key(last)] == last
      && Lists(out[..|out| - 1], key, m, keys - {key(last)})
  }

  /** `order` names each of `keys` once. */
  predicate Enumerates(order: seq<string>, keys: set<string>)
  {
    if order == [] then keys == {}
    else
      var last := order[|order| - 1];
      last in keys && Enumerates(order[..|order| - 1], keys - {last})
  }

  /** Some order in which a scan delivers the rows under `keys`. */
  method ScanOrder(keys: set<string>) returns (order: seq<string>)
    ensures Enumerates(order, keys)
  {
    order := [];
    var pending := keys;
    ghost var done: set<string> := {};
    while pending != {}
      invariant done !! pending && done + pending == keys && Enumerates(order, done)
      decreases pending
    {
      var k :| k in pending;
      assert (order + [k])[..|order|] == order && done + {k} - {k} == done;
      order := order + [k];
      pending := pending - {k};
      done := done + {k};
    }
  }

  lemma {:induction false} EnumeratesEach(order: seq<string>, keys: set<string>)
    requires Enumerates(order, keys)
    ensures |order| == |keys| && forall k :: k in order <==> k in keys
  {
    if order != [] {
      var last := order[|order| - 1];
      EnumeratesEach(order[..|order| - 1], keys - {last});
      assert order == order[..|order| - 1] + [last];
    }
  }

  /** The loop over the rows of a query: each row is read, and the first that cannot be
      read ends the call, as does a scan that breaks off, after `broken` rows. */
  method FetchAll<V>(order: seq<string>, read: string -> Option<V>, broken: Option<nat>)
    returns (r: Result<seq<V>, Outcome>)
    ensures r == Err(Failed) <==> (exists k :: k in order && read(k).None?) || (broken.Some? && broken.value <= |order|)
    ensures r == Err(Failed) || r.Ok?
    ensures r.Ok? ==> |r.value| == |order| && forall i :: 0 <= i < |order| ==> read(order[i]) == Some(r.value[i])
  {
    var out: seq<V> := [];
    for n := 0 to |order|
      invariant |out| == n && forall i :: 0 <= i < n ==> read(order[i]) == Some(out[i])
      invariant broken.Some? ==> n <= broken.value
    {
      if broken == Some(n) {
        return Err(Failed);
      }
      var record := read(order[n]);
      if record.None? {
        return Err(Failed);
      }
      out := out + [record.value];
    }
    return if broken == Some(|order|) then Err(Failed) else Ok(out);
  }

  /** A scan that fetched the record of every key lists them. */
  lemma {:induction false} ScanLists<V>(out: seq<V>, order: seq<string>, key: V -> string, m: map<string, V>,
                                        keys: set<string>)
    requires Enumerates(order, keys) && |out| == |order|
    requires forall i :: 0 <= i < |out| ==> order[i] in m && out[i] == m[order[i]] && key(out[i]) == order[i]
    ensures Lists(out, key, m, keys)
  {
    if order != [] {
      var n := |order| - 1;
      ScanLists(out[..n], order[..n], key, m, keys - {order[n]});
    }
  }

  lemma {:induction false} ListsEach<V>(out: seq<V>, key: V -> string, m: map<string, V>, keys: set<string>)
    requires Lists(out, key, m, keys)
    ensures |out| == |keys|
    ensures forall k :: k in keys ==> k in m && m[k] in out
    ensures forall v :: v in out ==> key(v) in keys
  {
    if out != [] {
      var last := out[|out| - 1];
      ListsEach(out[..|out| - 1], key, m, keys - {key(last)});
    }
  }

  function Backwards<T>(s: seq<T>): (r: seq<T>)
    ensures |r| == |s| && forall i :: 0 <= i < |r| ==> r[i] == s[|s| - 1 - i]
  {
    seq(|s|, i requires 0 <= i < |s| => s[|s| - 1 - i])
  }
}
