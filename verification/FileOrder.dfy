/** migrations/migrations.go, `migrationFiles` and `versionOf`: whole file names are
    sorted, versions are their prefixes. */
module FileOrder {
  import opened Prelude

  /** Go's `<` on strings. */
  predicate Less(a: string, b: string)
  {
    b != "" && (a == "" || a[0] < b[0] || (a[0] == b[0] && Less(a[1..], b[1..])))
  }

  /** strings.IndexByte(name, '_'), or the length when there is none. */
  function Underscore(name: string): (i: nat)
    ensures i <= |name| && '_' !in name[..i] && (i < |name| ==> name[i] == '_')
  {
    if name == "" || name[0] == '_' then 0
    else
      var i := 1 + Underscore(name[1..]);
      assert name[..i] == [name[0]] + name[1..][..i - 1];
      i
  }

  function VersionOf(name: string): string
  {
    name[..Underscore(name)]
  }

  predicate Ascending(names: seq<string>)
  {
    forall i, j :: 0 <= i < j < |names| ==> Less(names[i], names[j])
  }

  // ------------------------------------------------------- the order on strings

  lemma {:induction false} LessTotal(a: string, b: string)
    ensures a != b ==> Less(a, b) != Less(b, a)
    ensures !Less(a, a)
  {
    if a != "" {
      LessTotal(a[1..], a[1..]);
    }
    if a != "" && b != "" && a[0] == b[0] {
      LessTotal(a[1..], b[1..]);
      assert a == [a[0]] + a[1..] && b == [b[0]] + b[1..];
    }
  }

  lemma {:induction false} LessTransitive(a: string, b: string, c: string)
    requires Less(a, b) && Less(b, c)
    ensures Less(a, c)
  {
    if a != "" && a[0] == b[0] == c[0] {
      LessTransitive(a[1..], b[1..], c[1..]);
    }
  }

  /** Two ascending lists of the same names are one list. */
  lemma {:induction false} AscendingUnique(a: seq<string>, b: seq<string>)
    requires Ascending(a) && Ascending(b)
    requires forall x :: x in a <==> x in b
    ensures a == b
  {
    if b != [] {
      assert b[0] in a;
    }
    if a != [] {
      assert a[0] in b;
      HeadFirst(a, b[0]);
      HeadFirst(b, a[0]);
      LessTotal(a[0], b[0]);
      forall x
        ensures x in a[1..] <==> x in b[1..]
      {
        TailIsRest(a, x);
        TailIsRest(b, x);
      }
      AscendingUnique(a[1..], b[1..]);
      assert a == [a[0]] + a[1..] && b == [b[0]] + b[1..];
    }
  }

  lemma HeadFirst(a: seq<string>, x: string)
    requires Ascending(a) && x in a
    ensures x == a[0] || Less(a[0], x)
  {
  }

  lemma TailIsRest(a: seq<string>, x: string)
    requires Ascending(a) && a != []
    ensures x in a[1..] <==> x in a && x != a[0]
  {
    LessTotal(a[0], a[0]);
    if x in a && x != a[0] {
      var i :| 0 <= i < |a| && a[i] == x;
      assert a[1..][i - 1] == x;
    }
  }

  // ------------------------------------------------------- name order, version order

  /** `u` is a version that `v` continues with a character below the underscore, and
      `a`, the name of `u`, goes on with an underscore: then `b` sorts before `a`
      although `u` is the smaller version. */
  predicate Misleads(a: string, b: string)
  {
    var u, v := VersionOf(a), VersionOf(b);
    u < v && u != a && v[|u|] < '_'
  }

  /** Sorting whole names sorts the versions exactly when neither name misleads. */
  lemma {:induction false} NameOrderIsVersionOrderExactly(a: string, b: string)
    requires VersionOf(a) != VersionOf(b)
    ensures (Less(a, b) <==> Less(VersionOf(a), VersionOf(b))) <==> !Misleads(a, b) && !Misleads(b, a)
  {
    var u, v := VersionOf(a), VersionOf(b);
    if u == "" {
      assert v[0] == b[0] && v[0] != '_';
    } else if v == "" {
      assert u[0] == a[0] && u[0] != '_';
    } else {
      assert u[0] == a[0] && v[0] == b[0];
      assert u[1..] == VersionOf(a[1..]) && v[1..] == VersionOf(b[1..]);
      assert u == [u[0]] + u[1..] && v == [v[0]] + v[1..];
      if a[0] == b[0] {
        NameOrderIsVersionOrderExactly(a[1..], b[1..]);
        assert a == [a[0]] + a[1..] && b == [b[0]] + b[1..];
        MisleadsTail(a, b);
        MisleadsTail(b, a);
      }
    }
  }

  lemma MisleadsTail(a: string, b: string)
    requires VersionOf(a) != "" && VersionOf(b) != "" && a[0] == b[0]
    ensures Misleads(a, b) <==> Misleads(a[1..], b[1..])
  {
    var u, v := VersionOf(a), VersionOf(b);
    assert u[1..] == VersionOf(a[1..]) && v[1..] == VersionOf(b[1..]);
    assert u == [a[0]] + u[1..] && v == [b[0]] + v[1..];
    assert a == [a[0]] + a[1..] && b == [b[0]] + b[1..];
    assert u < v <==> u[1..] < v[1..];
  }

  /** Versions of one length never mislead. */
  lemma SameLengthSorts(a: string, b: string)
    requires |VersionOf(a)| == |VersionOf(b)| && VersionOf(a) != VersionOf(b)
    ensures Less(a, b) <==> Less(VersionOf(a), VersionOf(b))
  {
    NameOrderIsVersionOrderExactly(a, b);
  }

  /** Without one length the two orders part: version 1 comes before 10, yet `10_b`
      sorts before `1_a`. */
  lemma UnequalLengthsMislead()
    ensures VersionOf("1_a") == "1" && VersionOf("10_b") == "10"
    ensures Less("10_b", "1_a") && Less("1", "10")
  {
    var a, b := "1_a", "10_b";
    assert Underscore(a[1..]) == 0 && Underscore(b[1..][1..]) == 0 && Underscore(b[1..]) == 1;
    assert a[..1] == "1" && b[..2] == "10";
    assert b[1..][0] < a[1..][0];
    assert "1"[1..] == "" && "10"[1..] == "0";
  }

  function Versions(names: seq<string>): (vs: seq<string>)
    ensures |vs| == |names| && forall i :: 0 <= i < |vs| ==> vs[i] == VersionOf(names[i])
  {
    seq(|names|, i requires 0 <= i < |names| => VersionOf(names[i]))
  }

  predicate OneLengthDistinct(names: seq<string>)
  {
    forall i, j :: 0 <= i < j < |names| ==>
      |VersionOf(names[i])| == |VersionOf(names[j])| && VersionOf(names[i]) != VersionOf(names[j])
  }

  lemma SortedNamesSortVersions(names: seq<string>)
    requires Ascending(names) && OneLengthDistinct(names)
    ensures Ascending(Versions(names))
  {
    forall i, j | 0 <= i < j < |names|
      ensures Less(Versions(names)[i], Versions(names)[j])
    {
      SameLengthSorts(names[i], names[j]);
    }
  }

  /** Up and down files with the same prefixes give the same version sequence, so `Down`,
      which walks its list backwards, visits the versions in exactly the reverse order. */
  lemma UpAndDownAgree(ups: seq<string>, downs: seq<string>)
    requires Ascending(ups) && Ascending(downs) && OneLengthDistinct(ups) && OneLengthDistinct(downs)
    requires forall v :: v in Versions(ups) <==> v in Versions(downs)
    ensures |ups| == |downs|
    ensures Versions(ups) == Versions(downs)
    ensures Versions(Backwards(downs)) == Backwards(Versions(ups))
  {
    SortedNamesSortVersions(ups);
    SortedNamesSortVersions(downs);
    AscendingUnique(Versions(ups), Versions(downs));
  }

  // ------------------------------------------------------------------- listing

  predicate HasSuffix(name: string, suffix: string)
  {
    |suffix| <= |name| && name[|name| - |suffix|..] == suffix
  }

  lemma InsertKeepsAscending(names: seq<string>, i: nat, x: string)
    requires Ascending(names) && i <= |names|
    requires forall k :: 0 <= k < i ==> Less(names[k], x)
    requires forall k :: i <= k < |names| ==> Less(x, names[k])
    ensures Ascending(names[..i] + [x] + names[i..])
  {
  }

  /** `names` are the entries with the suffix, sorted. */
  ghost predicate Listing(names: seq<string>, entries: seq<string>, suffix: string)
  {
    Ascending(names) && forall x :: x in names <==> x in entries && HasSuffix(x, suffix)
  }

  lemma ListingUnique(a: seq<string>, b: seq<string>, entries: seq<string>, suffix: string)
    requires Listing(a, entries, suffix) && Listing(b, entries, suffix)
    ensures a == b
  {
    AscendingUnique(a, b);
  }

  /** A directory lists no name twice. */
  method MigrationFiles(entries: seq<string>, suffix: string) returns (names: seq<string>)
    requires forall i, j :: 0 <= i < j < |entries| ==> entries[i] != entries[j]
    ensures Listing(names, entries, suffix)
  {
    names := [];
    for n := 0 to |entries|
      invariant Ascending(names)
      invariant forall x :: x in names <==> x in entries[..n] && HasSuffix(x, suffix)
    {
      var x := entries[n];
      assert entries[..n + 1] == entries[..n] + [x];
      if HasSuffix(x, suffix) {
        var i := 0;
        while i < |names| && Less(names[i], x)
          invariant 0 <= i <= |names|
          invariant forall k :: 0 <= k < i ==> Less(names[k], x)
        {
          i := i + 1;
        }
        forall k | i <= k < |names|
          ensures Less(x, names[k])
        {
          assert names[i] in names && names[i] != x;
          LessTotal(names[i], x);
          if i < k {
            LessTransitive(x, names[i], names[k]);
          }
        }
        InsertKeepsAscending(names, i, x);
        assert forall y :: y in names <==> y in names[..i] || y in names[i..];
        names := names[..i] + [x] + names[i..];
      }
    }
    assert entries[..|entries|] == entries;
  }
}
