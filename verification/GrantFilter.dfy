/** store/persisted_grant.go, `buildFilter`: a filter compiled to WHERE text with
    numbered placeholders, and what that text means to the database. */
module GrantFilter {
  import opened Prelude
  import opened Digits

  /** storage.PersistedGrantFilter: an empty value or list does not filter. */
  datatype Filter = Filter(subjectId: string, sessionId: string, clientId: string, clientIds: seq<string>,
                           kind: string, kinds: seq<string>)

  /** The filter columns of a row. All four are NOT NULL. */
  datatype Dimensions = Dimensions(subjectId: string, sessionId: string, clientId: string, kind: string)

  datatype Arg = Text(value: string) | TextArray(values: seq<string>)

  /** The direct meaning: every field that is set must hold; no filter matches all. */
  predicate Matches(filter: Option<Filter>, d: Dimensions)
  {
    match filter
    case None => true
    case Some(f) =>
      && (f.subjectId != "" ==> d.subjectId == f.subjectId)
      && (f.sessionId != "" ==> d.sessionId == f.sessionId)
      && (f.clientId != "" ==> d.clientId == f.clientId)
      && (f.clientIds != [] ==> d.clientId in f.clientIds)
      && (f.kind != "" ==> d.kind == f.kind)
      && (f.kinds != [] ==> d.kind in f.kinds)
  }

  // ----------------------------------------------- the database side: parse, run

  datatype Column = SubjectId | SessionId | ClientId | Kind

  function Field(d: Dimensions, c: Column): string
  {
    match c
    case SubjectId => d.subjectId
    case SessionId => d.sessionId
    case ClientId => d.clientId
    case Kind => d.kind
  }

  /** `column = $placeholder` or `column = ANY($placeholder)`. */
  datatype Predicate = Predicate(column: Column, any: bool, placeholder: nat)

  function Strip(prefix: string, s: string): (r: Option<string>)
    ensures r.Some? ==> s == prefix + r.value
  {
    if prefix <= s then Some(s[|prefix|..]) else None
  }

  function ReadColumn(s: string): (r: Option<(Column, string)>)
    ensures r.Some? ==> |r.value.1| < |s|
  {
    if "subject_id" <= s then Some((SubjectId, s[10..]))
    else if "session_id" <= s then Some((SessionId, s[10..]))
    else if "client_id" <= s then Some((ClientId, s[9..]))
    else if "type" <= s then Some((Kind, s[4..]))
    else None
  }

  /** What follows a column name. */
  function ReadComparison(c: Column, s: string): (r: Option<(Predicate, string)>)
    ensures r.Some? ==> |r.value.1| < |s|
  {
    match Strip(" = ANY($", s)
    case Some(number) =>
      (match ReadNat(number)
       case None => None
       case Some((n, afterNumber)) =>
         match Strip(")", afterNumber)
         case None => None
         case Some(rest) => Some((Predicate(c, true, n), rest)))
    case None =>
      match Strip(" = $", s)
      case None => None
      case Some(number) =>
        match ReadNat(number)
        case None => None
        case Some((n, rest)) => Some((Predicate(c, false, n), rest))
  }

  function ReadPredicate(s: string): (r: Option<(Predicate, string)>)
    ensures r.Some? ==> |r.value.1| < |s|
  {
    match ReadColumn(s)
    case None => None
    case Some((c, comparison)) => ReadComparison(c, comparison)
  }

  function ReadWhere(s: string): Option<seq<Predicate>>
    decreases |s|
  {
    match ReadPredicate(s)
    case None => None
    case Some((p, rest)) =>
      if rest == "" then Some([p])
      else
        match Strip(" AND ", rest)
        case None => None
        case Some(more) =>
          match ReadWhere(more)
          case None => None
          case Some(ps) => Some([p] + ps)
  }

  /** One predicate on a row; `None` when the placeholder is unbound or ill-typed. */
  function Test(p: Predicate, args: seq<Arg>, d: Dimensions): Option<bool>
  {
    if !(1 <= p.placeholder <= |args|) then None
    else
      match args[p.placeholder - 1]
      case Text(v) => if p.any then None else Some(Field(d, p.column) == v)
      case TextArray(vs) => if p.any then Some(Field(d, p.column) in vs) else None
  }

  function TestAll(ps: seq<Predicate>, args: seq<Arg>, d: Dimensions): Option<bool>
  {
    if ps == [] then Some(true)
    else
      match (Test(ps[0], args, d), TestAll(ps[1..], args, d))
      case (Some(a), Some(b)) => Some(a && b)
      case _ => None
  }

  /** The whole statement: `base`, with or without a WHERE clause. */
  function Selects(base: string, query: string, args: seq<Arg>, d: Dimensions): Option<bool>
  {
    if query == base then Some(true)
    else
      match Strip(base + " WHERE ", query)
      case None => None
      case Some(where) =>
        match ReadWhere(where)
        case None => None
        case Some(ps) => TestAll(ps, args, d)
  }

  // ---------------------------------------------------- the adapter side: render

  function Name(c: Column): string
  {
    match c
    case SubjectId => "subject_id"
    case SessionId => "session_id"
    case ClientId => "client_id"
    case Kind => "type"
  }

  const EQUALS_ANY: string := " = ANY($"
  const EQUALS: string := " = $"
  const AND: string := " AND "

  /** One rendered condition with the argument it binds. */
  datatype Condition = Condition(column: Column, arg: Arg)

  /** The fields in the order in which they are rendered, each with whether it is set. */
  function Fields(f: Filter): seq<(bool, Condition)>
  {
    [ (f.subjectId != "", Condition(SubjectId, Text(f.subjectId))),
      (f.sessionId != "", Condition(SessionId, Text(f.sessionId))),
      (f.clientId != "", Condition(ClientId, Text(f.clientId))),
      (|f.clientIds| > 0, Condition(ClientId, TextArray(f.clientIds))),
      (f.kind != "", Condition(Kind, Text(f.kind))),
      (|f.kinds| > 0, Condition(Kind, TextArray(f.kinds))) ]
  }

  function Put(cs: seq<Condition>, isSet: bool, c: Condition): seq<Condition>
  {
    if isSet then cs + [c] else cs
  }

  /** The conditions of the fields that are set. */
  function Chosen(fields: seq<(bool, Condition)>): seq<Condition>
  {
    if fields == [] then []
    else
      var last := fields[|fields| - 1];
      Put(Chosen(fields[..|fields| - 1]), last.0, last.1)
  }

  function ConditionsOf(filter: Option<Filter>): seq<Condition>
  {
    match filter
    case None => []
    case Some(f) => Chosen(Fields(f))
  }

  function ConditionText(c: Condition, n: nat): string
  {
    match c.arg
    case Text(_) => Name(c.column) + EQUALS + Decimal(n)
    case TextArray(_) => Name(c.column) + EQUALS_ANY + Decimal(n) + ")"
  }

  /** The texts of `cs`, numbered from `n` on. */
  function Texts(cs: seq<Condition>, n: nat): (r: seq<string>)
    ensures |r| == |cs|
  {
    if cs == [] then [] else [ConditionText(cs[0], n)] + Texts(cs[1..], n + 1)
  }

  function Args(cs: seq<Condition>): (r: seq<Arg>)
    ensures |r| == |cs| && forall i :: 0 <= i < |cs| ==> r[i] == cs[i].arg
  {
    if cs == [] then [] else [cs[0].arg] + Args(cs[1..])
  }

  function PredicateOf(c: Condition, n: nat): Predicate
  {
    Predicate(c.column, c.arg.TextArray?, n)
  }

  function Predicates(cs: seq<Condition>, n: nat): (r: seq<Predicate>)
    ensures |r| == |cs| && forall i :: 0 <= i < |cs| ==> r[i] == PredicateOf(cs[i], n + i)
  {
    if cs == [] then [] else [PredicateOf(cs[0], n)] + Predicates(cs[1..], n + 1)
  }

  /** strings.Join(parts, " AND ") */
  function Join(parts: seq<string>): string
  {
    if parts == [] then ""
    else if |parts| == 1 then parts[0]
    else parts[0] + AND + Join(parts[1..])
  }

  lemma TextsAppend(cs: seq<Condition>, c: Condition, n: nat)
    ensures Texts(cs + [c], n) == Texts(cs, n) + [ConditionText(c, n + |cs|)]
    ensures Args(cs + [c]) == Args(cs) + [c.arg]
  {
    if cs == [] {
      assert cs + [c] == [c];
    } else {
      assert (cs + [c])[1..] == cs[1..] + [c];
      TextsAppend(cs[1..], c, n + 1);
    }
  }

  ghost predicate Rendered(conditions: seq<string>, args: seq<Arg>, cs: seq<Condition>)
  {
    conditions == Texts(cs, 1) && args == Args(cs)
  }

  /** The closure `add`: an equality on a column. */
  method Add(conditions: seq<string>, args: seq<Arg>, column: Column, value: string, ghost cs: seq<Condition>)
    returns (conditions': seq<string>, args': seq<Arg>)
    requires Rendered(conditions, args, cs)
    ensures Rendered(conditions', args', cs + [Condition(column, Text(value))])
  {
    TextsAppend(cs, Condition(column, Text(value)), 1);
    conditions' := conditions + [Name(column) + " = $" + Decimal(|args| + 1)];
    args' := args + [Text(value)];
  }

  /** The same for a list of values. */
  method AddAny(conditions: seq<string>, args: seq<Arg>, column: Column, values: seq<string>, ghost cs: seq<Condition>)
    returns (conditions': seq<string>, args': seq<Arg>)
    requires Rendered(conditions, args, cs)
    ensures Rendered(conditions', args', cs + [Condition(column, TextArray(values))])
  {
    TextsAppend(cs, Condition(column, TextArray(values)), 1);
    conditions' := conditions + [Name(column) + " = ANY($" + Decimal(|args| + 1) + ")"];
    args' := args + [TextArray(values)];
  }

  lemma ChosenSnoc(fields: seq<(bool, Condition)>, last: (bool, Condition))
    ensures Chosen(fields + [last]) == Put(Chosen(fields), last.0, last.1)
  {
    assert (fields + [last])[..|fields|] == fields;
  }

  lemma ChosenThree(fields: seq<(bool, Condition)>, a: (bool, Condition), b: (bool, Condition), c: (bool, Condition))
    ensures Chosen(fields + [a, b, c]) == Put(Put(Put(Chosen(fields), a.0, a.1), b.0, b.1), c.0, c.1)
  {
    ChosenSnoc(fields, a);
    ChosenSnoc(fields + [a], b);
    ChosenSnoc(fields + [a] + [b], c);
    assert fields + [a, b, c] == fields + [a] + [b] + [c];
  }

  /** The six fields written out. */
  lemma ConditionsAre(f: Filter)
    ensures var c1 := Put([], f.subjectId != "", Condition(SubjectId, Text(f.subjectId)));
            var c2 := Put(c1, f.sessionId != "", Condition(SessionId, Text(f.sessionId)));
            var c3 := Put(c2, f.clientId != "", Condition(ClientId, Text(f.clientId)));
            var c4 := Put(c3, |f.clientIds| > 0, Condition(ClientId, TextArray(f.clientIds)));
            var c5 := Put(c4, f.kind != "", Condition(Kind, Text(f.kind)));
            ConditionsOf(Some(f)) == Put(c5, |f.kinds| > 0, Condition(Kind, TextArray(f.kinds)))
  {
    var fs := Fields(f);
    var front := [fs[0], fs[1], fs[2]];
    assert fs == front + [fs[3], fs[4], fs[5]] && front == [] + front;
    ChosenThree([], fs[0], fs[1], fs[2]);
    ChosenThree(front, fs[3], fs[4], fs[5]);
  }

  /** The clause and its arguments, grown condition by condition. */
  method BuildFilter(filter: Option<Filter>) returns (where: string, args: seq<Arg>)
    ensures where == Join(Texts(ConditionsOf(filter), 1))
    ensures args == Args(ConditionsOf(filter))
  {
    if filter.None? {
      return "", [];
    }
    var f := filter.value;
    var conditions: seq<string> := [];
    args := [];
    ghost var cs: seq<Condition> := [];
    if f.subjectId != "" {
      conditions, args := Add(conditions, args, SubjectId, f.subjectId, cs);
    }
    cs := Put(cs, f.subjectId != "", Condition(SubjectId, Text(f.subjectId)));
    if f.sessionId != "" {
      conditions, args := Add(conditions, args, SessionId, f.sessionId, cs);
    }
    cs := Put(cs, f.sessionId != "", Condition(SessionId, Text(f.sessionId)));
    if f.clientId != "" {
      conditions, args := Add(conditions, args, ClientId, f.clientId, cs);
    }
    cs := Put(cs, f.clientId != "", Condition(ClientId, Text(f.clientId)));
    if |f.clientIds| > 0 {
      conditions, args := AddAny(conditions, args, ClientId, f.clientIds, cs);
    }
    cs := Put(cs, |f.clientIds| > 0, Condition(ClientId, TextArray(f.clientIds)));
    if f.kind != "" {
      conditions, args := Add(conditions, args, Kind, f.kind, cs);
    }
    cs := Put(cs, f.kind != "", Condition(Kind, Text(f.kind)));
    if |f.kinds| > 0 {
      conditions, args := AddAny(conditions, args, Kind, f.kinds, cs);
    }
    cs := Put(cs, |f.kinds| > 0, Condition(Kind, TextArray(f.kinds)));
    ConditionsAre(f);
    where := Join(conditions);
  }

  // ------------------------------------------------------- meaning is preserved

  lemma ReadsColumn(c: Column, rest: string)
    ensures ReadColumn(Name(c) + rest) == Some((c, rest))
  {
    var s := Name(c) + rest;
    assert s[|Name(c)|..] == rest;
    assert s[0] == Name(c)[0] && s[1] == Name(c)[1];
  }

  lemma ReadsEquals(c: Column, n: nat, rest: string)
    requires rest == "" || !IsDigit(rest[0])
    ensures ReadComparison(c, EQUALS + (Decimal(n) + rest)) == Some((Predicate(c, false, n), rest))
  {
    var s := EQUALS + (Decimal(n) + rest);
    assert s[3] == EQUALS[3] && EQUALS[3] != EQUALS_ANY[3];
    assert s[|EQUALS|..] == Decimal(n) + rest;
    ReadDecimal(n, rest);
  }

  lemma ReadsAny(c: Column, n: nat, rest: string)
    ensures ReadComparison(c, EQUALS_ANY + (Decimal(n) + (")" + rest))) == Some((Predicate(c, true, n), rest))
  {
    var s := EQUALS_ANY + (Decimal(n) + (")" + rest));
    assert s[|EQUALS_ANY|..] == Decimal(n) + (")" + rest);
    ReadDecimal(n, ")" + rest);
    assert (")" + rest)[1..] == rest;
  }

  lemma ReadsPredicate(c: Condition, n: nat, rest: string)
    requires rest == "" || !IsDigit(rest[0])
    ensures ReadPredicate(ConditionText(c, n) + rest) == Some((PredicateOf(c, n), rest))
  {
    match c.arg
    case Text(_) =>
      var comparison := EQUALS + (Decimal(n) + rest);
      assert ConditionText(c, n) + rest == Name(c.column) + comparison;
      ReadsColumn(c.column, comparison);
      ReadsEquals(c.column, n, rest);
    case TextArray(_) =>
      var comparison := EQUALS_ANY + (Decimal(n) + (")" + rest));
      assert ConditionText(c, n) + rest == Name(c.column) + comparison;
      ReadsColumn(c.column, comparison);
      ReadsAny(c.column, n, rest);
  }

  /** Reading the rendered clause gives the conditions back, with the placeholders
      `$n`, `$n+1`, ... in order. */
  lemma {:induction false} ReadsBack(cs: seq<Condition>, n: nat)
    requires cs != []
    ensures ReadWhere(Join(Texts(cs, n))) == Some(Predicates(cs, n))
  {
    var head := ConditionText(cs[0], n);
    if |cs| == 1 {
      assert Texts(cs, n) == [head];
      assert head + "" == head;
      ReadsPredicate(cs[0], n, "");
      assert Predicates(cs, n) == [PredicateOf(cs[0], n)];
    } else {
      var tail := Join(Texts(cs[1..], n + 1));
      assert Texts(cs, n)[1..] == Texts(cs[1..], n + 1);
      assert Join(Texts(cs, n)) == head + (AND + tail);
      ReadsPredicate(cs[0], n, AND + tail);
      assert (AND + tail)[|AND|..] == tail;
      ReadsBack(cs[1..], n + 1);
    }
  }

  function Holds(c: Condition, d: Dimensions): bool
  {
    match c.arg
    case Text(v) => Field(d, c.column) == v
    case TextArray(vs) => Field(d, c.column) in vs
  }

  predicate AllHold(cs: seq<Condition>, d: Dimensions)
  {
    forall c :: c in cs ==> Holds(c, d)
  }

  lemma {:induction false} TestsAll(cs: seq<Condition>, ps: seq<Predicate>, args: seq<Arg>, n: nat, d: Dimensions)
    requires n >= 1 && n - 1 + |cs| <= |args| && |ps| == |cs|
    requires forall i :: 0 <= i < |cs| ==> ps[i] == PredicateOf(cs[i], n + i) && args[n - 1 + i] == cs[i].arg
    ensures TestAll(ps, args, d) == Some(AllHold(cs, d))
  {
    if cs != [] {
      TestsAll(cs[1..], ps[1..], args, n + 1, d);
      assert Test(ps[0], args, d) == Some(Holds(cs[0], d));
      assert cs == [cs[0]] + cs[1..];
    }
  }

  lemma {:induction false} ChosenMean(fields: seq<(bool, Condition)>, d: Dimensions)
    ensures AllHold(Chosen(fields), d) <==> forall i :: 0 <= i < |fields| && fields[i].0 ==> Holds(fields[i].1, d)
  {
    if fields != [] {
      var before, last := fields[..|fields| - 1], fields[|fields| - 1];
      ChosenMean(before, d);
      assert last.0 ==> last.1 in Chosen(fields);
      assert forall c :: c in Chosen(before) ==> c in Chosen(fields);
    }
  }

  lemma ConditionsMean(filter: Option<Filter>, d: Dimensions)
    ensures AllHold(ConditionsOf(filter), d) <==> Matches(filter, d)
  {
    if filter.Some? {
      var fields := Fields(filter.value);
      ChosenMean(fields, d);
      assert fields[0].0 ==> (Holds(fields[0].1, d) <==> d.subjectId == filter.value.subjectId);
      assert fields[1].0 ==> (Holds(fields[1].1, d) <==> d.sessionId == filter.value.sessionId);
      assert fields[2].0 ==> (Holds(fields[2].1, d) <==> d.clientId == filter.value.clientId);
      assert fields[3].0 ==> (Holds(fields[3].1, d) <==> d.clientId in filter.value.clientIds);
      assert fields[4].0 ==> (Holds(fields[4].1, d) <==> d.kind == filter.value.kind);
      assert fields[5].0 ==> (Holds(fields[5].1, d) <==> d.kind in filter.value.kinds);
    }
  }

  function QueryText(base: string, where: string): string
  {
    if where != "" then base + " WHERE " + where else base
  }

  lemma TestsConditions(cs: seq<Condition>, d: Dimensions)
    ensures TestAll(Predicates(cs, 1), Args(cs), d) == Some(AllHold(cs, d))
  {
    TestsAll(cs, Predicates(cs, 1), Args(cs), 1, d);
  }

  lemma FindsWhere(base: string, where: string)
    requires where != ""
    ensures QueryText(base, where) != base
    ensures Strip(base + " WHERE ", QueryText(base, where)) == Some(where)
  {
    var query := base + " WHERE " + where;
    assert |query| > |base|;
    assert query[|base + " WHERE "|..] == where;
  }

  /** For every filter and row: parsing the rendered statement and evaluating it with
      the arguments gives the direct meaning of the filter. */
  lemma CompilationPreservesMeaning(base: string, filter: Option<Filter>, d: Dimensions)
    ensures var cs := ConditionsOf(filter);
            Selects(base, QueryText(base, Join(Texts(cs, 1))), Args(cs), d) == Some(Matches(filter, d))
  {
    var cs := ConditionsOf(filter);
    ConditionsMean(filter, d);
    if cs != [] {
      ReadsBack(cs, 1);
      TestsConditions(cs, d);
      FindsWhere(base, Join(Texts(cs, 1)));
    }
  }

  /** The placeholders are `$1`..`$k` in order, one for each argument. */
  lemma PlaceholdersInOrder(filter: Option<Filter>)
    requires ConditionsOf(filter) != []
    ensures var cs := ConditionsOf(filter);
            var ps := ReadWhere(Join(Texts(cs, 1)));
            && ps.Some? && |ps.value| == |Args(cs)|
            && forall i :: 0 <= i < |ps.value| ==> ps.value[i].placeholder == i + 1
  {
    var cs := ConditionsOf(filter);
    assert cs != [];
    ReadsBack(cs, 1);
  }

  predicate SameFieldsSet(f: Filter, g: Filter)
  {
    && (f.subjectId == "" <==> g.subjectId == "") && (f.sessionId == "" <==> g.sessionId == "")
    && (f.clientId == "" <==> g.clientId == "") && (f.clientIds == [] <==> g.clientIds == [])
    && (f.kind == "" <==> g.kind == "") && (f.kinds == [] <==> g.kinds == [])
  }

  predicate SameShape(cs: seq<Condition>, ds: seq<Condition>)
  {
    && |cs| == |ds|
    && forall i :: 0 <= i < |cs| ==> cs[i].column == ds[i].column && (cs[i].arg.Text? <==> ds[i].arg.Text?)
  }

  lemma {:induction false} TextsIgnoreValues(cs: seq<Condition>, ds: seq<Condition>, n: nat)
    requires SameShape(cs, ds)
    ensures Texts(cs, n) == Texts(ds, n)
  {
    if cs != [] {
      TextsIgnoreValues(cs[1..], ds[1..], n + 1);
    }
  }

  lemma {:induction false} ChosenShape(fs: seq<(bool, Condition)>, gs: seq<(bool, Condition)>)
    requires |fs| == |gs|
    requires forall i :: 0 <= i < |fs| ==>
               && fs[i].0 == gs[i].0 && fs[i].1.column == gs[i].1.column
               && (fs[i].1.arg.Text? <==> gs[i].1.arg.Text?)
    ensures SameShape(Chosen(fs), Chosen(gs))
  {
    if fs != [] {
      ChosenShape(fs[..|fs| - 1], gs[..|gs| - 1]);
    }
  }

  /** Values travel only as arguments: the text depends on which fields are set, never
      on what they hold. */
  lemma TextDependsOnShapeOnly(f: Filter, g: Filter)
    requires SameFieldsSet(f, g)
    ensures Join(Texts(ConditionsOf(Some(f)), 1)) == Join(Texts(ConditionsOf(Some(g)), 1))
  {
    ChosenShape(Fields(f), Fields(g));
    TextsIgnoreValues(ConditionsOf(Some(f)), ConditionsOf(Some(g)), 1);
  }
}
