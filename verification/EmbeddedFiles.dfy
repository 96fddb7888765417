/** The embedded migration files under their real names: listed, sorted and cut to their
    versions, they are the plan the theorems speak of. */
module EmbeddedFiles {
  import opened Ddl
  import opened FileOrder
  import opened Migrations
  import opened Schema

  const UP_SQL := ".up.sql"
  const DOWN_SQL := ".down.sql"

  // ------------------------------------------------------------------ a directory of migrations

  function Name(version: string, title: string, suffix: string): string
  {
    version + ("_" + (title + suffix))
  }

  function NamesWith(vs: seq<string>, titles: seq<string>, suffix: string): (names: seq<string>)
    requires |vs| == |titles|
    ensures |names| == |vs| && forall k :: 0 <= k < |names| ==> names[k] == Name(vs[k], titles[k], suffix)
  {
    seq(|vs|, k requires 0 <= k < |vs| => Name(vs[k], titles[k], suffix))
  }

  function Entries(vs: seq<string>, titles: seq<string>): seq<string>
    requires |vs| == |titles|
  {
    NamesWith(vs, titles, UP_SQL) + NamesWith(vs, titles, DOWN_SQL)
  }

  /** The body of the file with that version. */
  function Body(files: seq<File>, version: string): seq<Statement>
  {
    if files == [] then [] else if files[0].version == version then files[0].body else Body(files[1..], version)
  }

  function AllBodies(entries: seq<string>, ups: seq<File>, downs: seq<File>): map<string, seq<Statement>>
  {
    map x | x in entries :: Body(if HasSuffix(x, UP_SQL) then ups else downs, VersionOf(x))
  }

  /** Versions of one length, without underscore, in order. */
  predicate Tidy(vs: seq<string>)
  {
    && (forall k :: 0 <= k < |vs| ==> '_' !in vs[k])
    && (forall i, j :: 0 <= i < j < |vs| ==> |vs[i]| == |vs[j]|)
    && Ascending(vs)
  }

  predicate HasVersions(files: seq<File>, vs: seq<string>)
  {
    |files| == |vs| && forall k :: 0 <= k < |vs| ==> files[k].version == vs[k]
  }

  lemma {:induction false} VersionBeforeUnderscore(v: string, rest: string)
    requires '_' !in v
    ensures Underscore(v + ("_" + rest)) == |v| && VersionOf(v + ("_" + rest)) == v
  {
    if v != "" {
      assert (v + ("_" + rest))[1..] == v[1..] + ("_" + rest);
      VersionBeforeUnderscore(v[1..], rest);
    }
  }

  lemma FifthLast(name: string, suffix: string)
    requires |suffix| >= 5 && HasSuffix(name, suffix)
    ensures name[|name| - 5] == suffix[|suffix| - 5]
  {
    assert name[|name| - |suffix|..][|suffix| - 5] == name[|name| - 5];
  }

  /** The two suffixes exclude each other. */
  lemma OneSuffix(x: string)
    ensures HasSuffix(x + UP_SQL, UP_SQL) && !HasSuffix(x + UP_SQL, DOWN_SQL)
    ensures HasSuffix(x + DOWN_SQL, DOWN_SQL) && !HasSuffix(x + DOWN_SQL, UP_SQL)
  {
    var up, down := x + UP_SQL, x + DOWN_SQL;
    assert up[|up| - 5] == 'p' && down[|down| - 5] == 'n';
    if HasSuffix(up, DOWN_SQL) {
      FifthLast(up, DOWN_SQL);
    }
    if HasSuffix(down, UP_SQL) {
      FifthLast(down, UP_SQL);
    }
  }

  lemma NameParts(v: string, title: string)
    requires '_' !in v
    ensures VersionOf(Name(v, title, UP_SQL)) == v && VersionOf(Name(v, title, DOWN_SQL)) == v
    ensures HasSuffix(Name(v, title, UP_SQL), UP_SQL) && !HasSuffix(Name(v, title, UP_SQL), DOWN_SQL)
    ensures HasSuffix(Name(v, title, DOWN_SQL), DOWN_SQL) && !HasSuffix(Name(v, title, DOWN_SQL), UP_SQL)
  {
    VersionBeforeUnderscore(v, title + UP_SQL);
    VersionBeforeUnderscore(v, title + DOWN_SQL);
    var stem := v + ("_" + title);
    assert Name(v, title, UP_SQL) == stem + UP_SQL && Name(v, title, DOWN_SQL) == stem + DOWN_SQL;
    OneSuffix(stem);
  }

  lemma NamesAscend(vs: seq<string>, titles: seq<string>, suffix: string)
    requires |vs| == |titles| && Tidy(vs)
    ensures Ascending(NamesWith(vs, titles, suffix))
  {
    var names := NamesWith(vs, titles, suffix);
    forall i, j | 0 <= i < j < |vs|
      ensures Less(names[i], names[j])
    {
      VersionBeforeUnderscore(vs[i], titles[i] + suffix);
      VersionBeforeUnderscore(vs[j], titles[j] + suffix);
      LessTotal(vs[i], vs[i]);
      SameLengthSorts(names[i], names[j]);
    }
  }

  lemma AllParts(vs: seq<string>, titles: seq<string>)
    requires |vs| == |titles| && Tidy(vs)
    ensures forall x :: x in NamesWith(vs, titles, UP_SQL) ==> HasSuffix(x, UP_SQL) && !HasSuffix(x, DOWN_SQL)
    ensures forall x :: x in NamesWith(vs, titles, DOWN_SQL) ==> HasSuffix(x, DOWN_SQL) && !HasSuffix(x, UP_SQL)
    ensures forall k :: 0 <= k < |vs| ==> VersionOf(NamesWith(vs, titles, UP_SQL)[k]) == vs[k]
    ensures forall k :: 0 <= k < |vs| ==> VersionOf(NamesWith(vs, titles, DOWN_SQL)[k]) == vs[k]
  {
    forall k | 0 <= k < |vs|
      ensures var up, down := NamesWith(vs, titles, UP_SQL)[k], NamesWith(vs, titles, DOWN_SQL)[k];
              && HasSuffix(up, UP_SQL) && !HasSuffix(up, DOWN_SQL) && HasSuffix(down, DOWN_SQL)
              && !HasSuffix(down, UP_SQL)
              && VersionOf(up) == vs[k] && VersionOf(down) == vs[k]
    {
      NameParts(vs[k], titles[k]);
    }
  }

  lemma AscendingDiffer(names: seq<string>, i: nat, j: nat)
    requires Ascending(names) && i < j < |names|
    ensures names[i] != names[j]
  {
    LessTotal(names[i], names[i]);
  }

  /** Of two disjoint ascending lists, the suffix picks the first. */
  lemma ListedApart(names: seq<string>, others: seq<string>, suffix: string)
    requires Ascending(names) && forall x :: x in names ==> HasSuffix(x, suffix)
    requires forall x :: x in others ==> !HasSuffix(x, suffix)
    ensures Listing(names, names + others, suffix) && Listing(names, others + names, suffix)
    ensures Ascending(others) ==> forall i, j :: 0 <= i < j < |names + others| ==>
            (names + others)[i] != (names + others)[j]
  {
    var entries := names + others;
    if Ascending(others) {
      forall i, j | 0 <= i < j < |entries|
        ensures entries[i] != entries[j]
      {
        if j < |names| {
          AscendingDiffer(names, i, j);
        } else if i >= |names| {
          AscendingDiffer(others, i - |names|, j - |names|);
        } else {
          assert entries[i] in names && entries[j] in others;
        }
      }
    }
  }

  lemma Listed(vs: seq<string>, titles: seq<string>)
    requires |vs| == |titles| && Tidy(vs)
    ensures Listing(NamesWith(vs, titles, UP_SQL), Entries(vs, titles), UP_SQL)
    ensures Listing(NamesWith(vs, titles, DOWN_SQL), Entries(vs, titles), DOWN_SQL)
    ensures forall i, j :: 0 <= i < j < |Entries(vs, titles)| ==> Entries(vs, titles)[i] != Entries(vs, titles)[j]
  {
    NamesAscend(vs, titles, UP_SQL);
    NamesAscend(vs, titles, DOWN_SQL);
    AllParts(vs, titles);
    ListedApart(NamesWith(vs, titles, UP_SQL), NamesWith(vs, titles, DOWN_SQL), UP_SQL);
    ListedApart(NamesWith(vs, titles, DOWN_SQL), NamesWith(vs, titles, UP_SQL), DOWN_SQL);
  }

  lemma {:induction false} BodyFound(files: seq<File>, vs: seq<string>, k: nat)
    requires HasVersions(files, vs) && Ascending(vs) && k < |vs|
    ensures Body(files, vs[k]) == files[k].body
    decreases k
  {
    if k > 0 {
      AscendingDiffer(vs, 0, k);
      BodyFound(files[1..], vs[1..], k - 1);
    }
  }

  /** Names, versions and bodies put together: the listings are the plan. */
  lemma FilesAreThePlan(vs: seq<string>, titles: seq<string>, ups: seq<File>, downs: seq<File>)
    requires |vs| == |titles| && Tidy(vs) && HasVersions(ups, vs) && HasVersions(downs, vs)
    ensures var bodies := AllBodies(Entries(vs, titles), ups, downs);
            && (forall x :: x in NamesWith(vs, titles, UP_SQL) + NamesWith(vs, titles, DOWN_SQL) ==> x in bodies)
            && Files(NamesWith(vs, titles, UP_SQL), bodies) == ups
            && Files(NamesWith(vs, titles, DOWN_SQL), bodies) == downs
  {
    var up, down := NamesWith(vs, titles, UP_SQL), NamesWith(vs, titles, DOWN_SQL);
    var bodies := AllBodies(Entries(vs, titles), ups, downs);
    AllParts(vs, titles);
    forall k | 0 <= k < |vs|
      ensures bodies[up[k]] == ups[k].body && bodies[down[k]] == downs[k].body
    {
      assert up[k] in up && down[k] in down;
      BodyFound(ups, vs, k);
      BodyFound(downs, vs, k);
    }
  }

  // ------------------------------------------------------------------ the real directory

  function RealVersions(): seq<string>
  {
    ["000001", "000002", "000003"]
  }

  function RealTitles(): seq<string>
  {
    ["init", "device_flow_user_code", "session_subject_id"]
  }

  lemma {:induction false} SharedPrefix(p: string, a: string, b: string)
    requires Less(a, b)
    ensures Less(p + a, p + b)
  {
    if p == "" {
      assert p + a == a && p + b == b;
    } else {
      assert (p + a)[1..] == p[1..] + a && (p + b)[1..] == p[1..] + b;
      SharedPrefix(p[1..], a, b);
    }
  }

  lemma RealVersionsAreTidy()
    ensures Tidy(RealVersions())
  {
    SharedPrefix("00000", "1", "2");
    SharedPrefix("00000", "2", "3");
    SharedPrefix("00000", "1", "3");
    assert "000001" == "00000" + "1" && "000002" == "00000" + "2" && "000003" == "00000" + "3";
  }

  /** Whatever sorted listing `Migrator.Up` and `Migrator.Down` find in the embedded
      directory, it is the plan of `Schema`. */
  lemma EmbeddedPlan(names: seq<string>)
    ensures var entries := Entries(RealVersions(), RealTitles());
            var bodies := AllBodies(entries, Ups(), Downs());
            && (forall i, j :: 0 <= i < j < |entries| ==> entries[i] != entries[j])
            && (forall x :: x in entries ==> x in bodies)
            && (Listing(names, entries, UP_SQL) ==> Files(names, bodies) == Ups())
            && (Listing(names, entries, DOWN_SQL) ==> Files(names, bodies) == Downs())
  {
    var vs, titles := RealVersions(), RealTitles();
    RealVersionsAreTidy();
    Listed(vs, titles);
    FilesAreThePlan(vs, titles, Ups(), Downs());
    if Listing(names, Entries(vs, titles), UP_SQL) {
      ListingUnique(names, NamesWith(vs, titles, UP_SQL), Entries(vs, titles), UP_SQL);
    }
    if Listing(names, Entries(vs, titles), DOWN_SQL) {
      ListingUnique(names, NamesWith(vs, titles, DOWN_SQL), Entries(vs, titles), DOWN_SQL);
    }
  }
}
