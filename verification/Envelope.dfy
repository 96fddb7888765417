/** The JSON envelope around a payload (sections 2, 4 and 7 of RFC 8259): tokens,
    objects with scalar members, and the three fields the adapter writes. */
module Envelope {
  import opened Prelude
  import opened Digits
  import Time

  datatype Token =
    | LBrace | RBrace | Colon | Comma
    | Str(text: string) | Num(n: nat) | True | False | Null

  // ------------------------------------------------------------------ strings

  function Hex(n: nat): (c: char)
    requires n < 16
    ensures HexValue(c) == Some(n)
  {
    if n < 10 then ('0' as int + n) as char else ('a' as int + n - 10) as char
  }

  function HexValue(c: char): (n: Option<nat>)
    ensures n.Some? ==> n.value < 16
  {
    if '0' <= c <= '9' then Some(c as int - '0' as int)
    else if 'a' <= c <= 'f' then Some(c as int - 'a' as int + 10)
    else if 'A' <= c <= 'F' then Some(c as int - 'A' as int + 10)
    else None
  }

  /** What json.Marshal writes as a \u escape: controls without a short form, the
      HTML-sensitive characters and the two line separators. */
  predicate IsSpelledOut(c: char)
  {
    var n := c as int;
    (n < 0x20 && n !in {8, 9, 10, 12, 13}) || c in {'<', '>', '&'} || n == 0x2028 || n == 0x2029
  }

  function Escape(c: char): (s: string)
    ensures s != ""
  {
    var n := c as int;
    if c == '"' then "\\\""
    else if c == '\\' then "\\\\"
    else if n == 8 then "\\b"
    else if n == 9 then "\\t"
    else if n == 10 then "\\n"
    else if n == 12 then "\\f"
    else if n == 13 then "\\r"
    else if IsSpelledOut(c) then
      ['\\', 'u', Hex(n / 4096), Hex(n / 256 % 16), Hex(n / 16 % 16), Hex(n % 16)]
    else [c]
  }

  function Escaped(text: string): string
  {
    if text == "" then "" else Escape(text[0]) + Escaped(text[1..])
  }

  /** A lone surrogate is read as U+FFFD. */
  function CharOf(code: nat): char
    requires code < 0x10000
  {
    if 0xD800 <= code < 0xE000 then 0xFFFD as char else code as char
  }

  /** After a backslash. */
  function ReadEscape(s: string): (r: Option<(char, string)>)
    ensures r.Some? ==> |r.value.1| < |s|
  {
    if s == "" then None
    else
      var c, rest := s[0], s[1..];
      if c == '"' || c == '\\' || c == '/' then Some((c, rest))
      else if c == 'b' then Some((8 as char, rest))
      else if c == 't' then Some((9 as char, rest))
      else if c == 'n' then Some((10 as char, rest))
      else if c == 'f' then Some((12 as char, rest))
      else if c == 'r' then Some((13 as char, rest))
      else if c != 'u' || |rest| < 4 then None
      else
        match (HexValue(rest[0]), HexValue(rest[1]), HexValue(rest[2]), HexValue(rest[3]))
        case (Some(a), Some(b), Some(d), Some(e)) => Some((CharOf(a * 4096 + b * 256 + d * 16 + e), rest[4..]))
        case _ => None
  }

  /** After the opening quote: the text and what follows the closing quote. */
  function ReadString(s: string): (r: Option<(string, string)>)
    ensures r.Some? ==> |r.value.1| < |s|
    decreases |s|
  {
    if s == "" then None
    else if s[0] == '"' then Some(("", s[1..]))
    else if s[0] as int < 0x20 then None
    else
      var one := if s[0] == '\\' then ReadEscape(s[1..]) else Some((s[0], s[1..]));
      match one
      case None => None
      case Some((c, rest)) =>
        match ReadString(rest)
        case None => None
        case Some((text, after)) => Some(([c] + text, after))
  }

  lemma ReadsHex(c: char, rest: string)
    requires IsSpelledOut(c)
    ensures var n := c as int;
            ReadEscape(['u', Hex(n / 4096), Hex(n / 256 % 16), Hex(n / 16 % 16), Hex(n % 16)] + rest) == Some((c, rest))
  {
    var n := c as int;
    var hex := [Hex(n / 4096), Hex(n / 256 % 16), Hex(n / 16 % 16), Hex(n % 16)];
    var s := ['u'] + hex + rest;
    assert s == ['u', hex[0], hex[1], hex[2], hex[3]] + rest;
    assert s[1..] == hex + rest && (hex + rest)[4..] == rest;
    assert n / 4096 * 4096 + n / 256 % 16 * 256 + n / 16 % 16 * 16 + n % 16 == n;
  }

  lemma ReadsEscape(c: char, rest: string)
    ensures var s := Escape(c) + rest;
            && s[0] != '"' && s[0] as int >= 0x20
            && (if s[0] == '\\' then ReadEscape(s[1..]) else Some((s[0], s[1..]))) == Some((c, rest))
  {
    var s := Escape(c) + rest;
    if |Escape(c)| == 1 {
      assert s[1..] == rest;
    } else if |Escape(c)| == 2 {
      assert s[1] == Escape(c)[1] && s[1..][1..] == rest;
    } else {
      var n := c as int;
      assert s[1..] == ['u', Hex(n / 4096), Hex(n / 256 % 16), Hex(n / 16 % 16), Hex(n % 16)] + rest;
      ReadsHex(c, rest);
    }
  }

  /** Every text survives quoting. */
  lemma {:induction false} ReadsString(text: string, rest: string)
    ensures ReadString(Escaped(text) + "\"" + rest) == Some((text, rest))
  {
    if text == "" {
      assert Escaped(text) + "\"" + rest == "\"" + rest;
      assert ("\"" + rest)[1..] == rest;
    } else {
      var tail := Escaped(text[1..]) + "\"" + rest;
      assert Escaped(text) + "\"" + rest == Escape(text[0]) + tail;
      ReadsEscape(text[0], tail);
      ReadsString(text[1..], rest);
      assert text == [text[0]] + text[1..];
    }
  }

  // ------------------------------------------------------------------- tokens

  predicate IsSpace(c: char)
  {
    c == ' ' || c == '\t' || c == '\n' || c == '\r'
  }

  predicate AllSpace(s: string)
  {
    forall i :: 0 <= i < |s| ==> IsSpace(s[i])
  }

  function Print(t: Token): (s: string)
    ensures s != ""
  {
    match t
    case LBrace => "{"
    case RBrace => "}"
    case Colon => ":"
    case Comma => ","
    case Str(text) => "\"" + Escaped(text) + "\""
    case Num(n) => Decimal(n)
    case True => "true"
    case False => "false"
    case Null => "null"
  }

  /** One token off the front of a text that does not begin with white space. */
  function ReadToken(s: string): (r: Option<(Token, string)>)
    ensures r.Some? ==> |r.value.1| < |s|
  {
    if s == "" then None
    else if s[0] == '{' then Some((LBrace, s[1..]))
    else if s[0] == '}' then Some((RBrace, s[1..]))
    else if s[0] == ':' then Some((Colon, s[1..]))
    else if s[0] == ',' then Some((Comma, s[1..]))
    else if s[0] == '"' then
      match ReadString(s[1..])
      case None => None
      case Some((text, rest)) => Some((Str(text), rest))
    else if IsDigit(s[0]) then
      match ReadNat(s)
      case None => None
      case Some((n, rest)) => Some((Num(n), rest))
    else if "true" <= s then Some((True, s[4..]))
    else if "false" <= s then Some((False, s[5..]))
    else if "null" <= s then Some((Null, s[4..]))
    else None
  }

  function Lex(s: string): Option<seq<Token>>
    decreases |s|
  {
    if s == "" then Some([])
    else if IsSpace(s[0]) then Lex(s[1..])
    else
      match ReadToken(s)
      case None => None
      case Some((t, rest)) =>
        match Lex(rest)
        case None => None
        case Some(ts) => Some([t] + ts)
  }

  /** The tokens with a gap before each and one at the end. */
  function Weave(ts: seq<Token>, gaps: seq<string>): string
    requires |gaps| == |ts| + 1
  {
    if ts == [] then gaps[0] else gaps[0] + (Print(ts[0]) + Weave(ts[1..], gaps[1..]))
  }

  /** Two numbers in a row would run together. */
  predicate Separable(ts: seq<Token>)
  {
    forall i :: 0 <= i < |ts| - 1 ==> !(ts[i].Num? && ts[i + 1].Num?)
  }

  lemma {:induction false} SkipsSpace(gap: string, s: string)
    requires AllSpace(gap)
    ensures Lex(gap + s) == Lex(s)
  {
    if gap == "" {
      assert gap + s == s;
    } else {
      assert (gap + s)[1..] == gap[1..] + s;
      SkipsSpace(gap[1..], s);
    }
  }

  lemma ReadsText(text: string, rest: string)
    ensures ReadToken(Print(Str(text)) + rest) == Some((Str(text), rest))
  {
    var s := Print(Str(text)) + rest;
    assert s[0] == '"' && s[1..] == Escaped(text) + "\"" + rest;
    ReadsString(text, rest);
  }

  lemma ReadsNumber(n: nat, rest: string)
    requires rest == "" || !IsDigit(rest[0])
    ensures ReadToken(Print(Num(n)) + rest) == Some((Num(n), rest))
  {
    assert IsDigit((Decimal(n) + rest)[0]);
    ReadDecimal(n, rest);
  }

  lemma ReadsToken(t: Token, rest: string)
    requires t.Num? ==> rest == "" || !IsDigit(rest[0])
    ensures ReadToken(Print(t) + rest) == Some((t, rest))
    ensures !IsSpace((Print(t) + rest)[0])
  {
    var s := Print(t) + rest;
    assert s[0] == Print(t)[0];
    match t
    case Str(text) => ReadsText(text, rest);
    case Num(n) => ReadsNumber(n, rest);
    case _ => assert s[|Print(t)|..] == rest;
  }

  lemma WeaveStart(ts: seq<Token>, gaps: seq<string>)
    requires |gaps| == |ts| + 1 && forall i :: 0 <= i < |gaps| ==> AllSpace(gaps[i])
    requires ts == [] || !ts[0].Num?
    ensures Weave(ts, gaps) == "" || !IsDigit(Weave(ts, gaps)[0])
  {
    var s := Weave(ts, gaps);
    if gaps[0] != "" {
      assert IsSpace(gaps[0][0]) && s[0] == gaps[0][0];
    } else if ts != [] {
      assert s[0] == Print(ts[0])[0];
    }
  }

  /** White space between the tokens changes nothing. */
  lemma {:induction false} LexWeave(ts: seq<Token>, gaps: seq<string>)
    requires |gaps| == |ts| + 1 && forall i :: 0 <= i < |gaps| ==> AllSpace(gaps[i])
    requires Separable(ts)
    ensures Lex(Weave(ts, gaps)) == Some(ts)
  {
    if ts == [] {
      SkipsSpace(gaps[0], "");
      assert gaps[0] + "" == gaps[0];
    } else {
      var rest := Weave(ts[1..], gaps[1..]);
      SkipsSpace(gaps[0], Print(ts[0]) + rest);
      if ts[0].Num? {
        assert |ts| > 1 ==> !ts[1].Num?;
        WeaveStart(ts[1..], gaps[1..]);
      }
      ReadsToken(ts[0], rest);
      assert Separable(ts[1..]) by {
        forall i | 0 <= i < |ts[1..]| - 1
          ensures !(ts[1..][i].Num? && ts[1..][i + 1].Num?)
        {
          assert ts[1..][i] == ts[i + 1] && ts[1..][i + 1] == ts[i + 2];
        }
      }
      LexWeave(ts[1..], gaps[1..]);
      assert ts == [ts[0]] + ts[1..];
    }
  }

  // ------------------------------------------------------------------ objects

  type Member = (string, Token)

  predicate IsValue(t: Token)
  {
    t.Str? || t.Num? || t.True? || t.False? || t.Null?
  }

  /** Members up to and including the closing brace, which must end the text. */
  function ReadMembers(ts: seq<Token>): Option<seq<Member>>
  {
    if |ts| < 4 || !ts[0].Str? || !ts[1].Colon? || !IsValue(ts[2]) then None
    else
      var m := (ts[0].text, ts[2]);
      if ts[3].RBrace? then
        if |ts| == 4 then Some([m]) else None
      else if ts[3].Comma? then
        match ReadMembers(ts[4..])
        case None => None
        case Some(ms) => Some([m] + ms)
      else None
  }

  function ReadObject(ts: seq<Token>): Option<seq<Member>>
  {
    if |ts| == 0 || !ts[0].LBrace? then None
    else if ts[1..] == [RBrace] then Some([])
    else ReadMembers(ts[1..])
  }

  function MemberTokens(ms: seq<Member>): seq<Token>
    requires ms != []
  {
    var m := [Str(ms[0].0), Colon, ms[0].1];
    if |ms| == 1 then m + [RBrace] else m + [Comma] + MemberTokens(ms[1..])
  }

  lemma {:induction false} ReadsMembers(ms: seq<Member>)
    requires ms != [] && forall i :: 0 <= i < |ms| ==> IsValue(ms[i].1)
    ensures ReadMembers(MemberTokens(ms)) == Some(ms)
    ensures Separable(MemberTokens(ms)) && !MemberTokens(ms)[0].Num?
  {
    var ts := MemberTokens(ms);
    if |ms| == 1 {
      assert ms == [ms[0]];
    } else {
      ReadsMembers(ms[1..]);
      assert ts[4..] == MemberTokens(ms[1..]);
      assert ms == [ms[0]] + ms[1..];
      forall i | 0 <= i < |ts| - 1
        ensures !(ts[i].Num? && ts[i + 1].Num?)
      {
        if i >= 4 {
          assert ts[i] == ts[4..][i - 4] && ts[i + 1] == ts[4..][i - 3];
        }
      }
    }
  }

  // ----------------------------------------------------------------- envelope

  datatype Container = Container(version: nat, dataProtected: bool, payload: string)

  /** Unmarshalling one member into the Go struct: unknown keys are skipped, null
      leaves the field alone, a later duplicate wins, a wrong type is an error. */
  function Assign(e: Container, m: Member): Option<Container>
  {
    var (key, value) := m;
    if value.Null? then Some(e)
    else if key == "version" then
      if value.Num? && value.n <= Time.MAX_INT64 then Some(e.(version := value.n)) else None
    else if key == "dataProtected" then
      if value.True? || value.False? then Some(e.(dataProtected := value.True?)) else None
    else if key == "payload" then
      if value.Str? then Some(e.(payload := value.text)) else None
    else Some(e)
  }

  function AssignAll(e: Container, ms: seq<Member>): Option<Container>
    decreases ms
  {
    if ms == [] then Some(e)
    else
      match Assign(e, ms[0])
      case None => None
      case Some(e') => AssignAll(e', ms[1..])
  }

  function Parse(text: string): Option<Container>
  {
    match Lex(text)
    case None => None
    case Some(ts) =>
      match ReadObject(ts)
      case None => None
      case Some(ms) => AssignAll(Container(0, false, ""), ms)
  }

  /** The members in the order of the struct's fields. */
  function Members(e: Container): (ms: seq<Member>)
    ensures |ms| == 3
  {
    [ ("version", Num(e.version)),
      ("dataProtected", if e.dataProtected then True else False),
      ("payload", Str(e.payload)) ]
  }

  /** How a database may print the object: some order of the keys, some white space. */
  datatype Layout = Layout(order: (nat, nat, nat), gaps: seq<string>)

  predicate ValidLayout(l: Layout)
  {
    && l.order.0 < 3 && l.order.1 < 3 && l.order.2 < 3
    && l.order.0 != l.order.1 && l.order.0 != l.order.2 && l.order.1 != l.order.2
    && |l.gaps| == 14 && forall i :: 0 <= i < |l.gaps| ==> AllSpace(l.gaps[i])
  }

  function Ordered(l: Layout, e: Container): seq<Member>
    requires ValidLayout(l)
  {
    var ms := Members(e);
    [ms[l.order.0], ms[l.order.1], ms[l.order.2]]
  }

  function ObjectTokens(ms: seq<Member>): seq<Token>
    requires ms != []
  {
    [LBrace] + MemberTokens(ms)
  }

  lemma ThreeMembers(ms: seq<Member>)
    requires |ms| == 3
    ensures |ObjectTokens(ms)| == 13
  {
    assert |MemberTokens(ms[1..][1..])| == 4;
    assert |MemberTokens(ms[1..])| == 8;
  }

  function Render(l: Layout, e: Container): string
    requires ValidLayout(l)
  {
    ThreeMembers(Ordered(l, e));
    Weave(ObjectTokens(Ordered(l, e)), l.gaps)
  }

  lemma AssignsInAnyOrder(l: Layout, e: Container)
    requires ValidLayout(l) && e.version <= Time.MAX_INT64
    ensures AssignAll(Container(0, false, ""), Ordered(l, e)) == Some(e)
  {
    var ms := Ordered(l, e);
    var e0 := Container(0, false, "");
    assert "version"[0] != "dataProtected"[0] && "version"[0] != "payload"[0] && "dataProtected"[0] != "payload"[0];
    var e1 := Assign(e0, ms[0]).value;
    var e2 := Assign(e1, ms[1]).value;
    assert Assign(e2, ms[2]) == Some(e);
    assert ms[1..] == [ms[1], ms[2]] && ms[1..][1..] == [ms[2]] && ms[1..][1..][1..] == [];
    assert AssignAll(e2, [ms[2]]) == Some(e);
    assert AssignAll(e1, [ms[1], ms[2]]) == Some(e);
  }

  lemma ReadsObject(ms: seq<Member>)
    requires |ms| == 3 && forall i :: 0 <= i < |ms| ==> IsValue(ms[i].1)
    ensures ReadObject(ObjectTokens(ms)) == Some(ms)
    ensures Separable(ObjectTokens(ms))
  {
    var ts := ObjectTokens(ms);
    ThreeMembers(ms);
    ReadsMembers(ms);
    assert ts[1..] == MemberTokens(ms);
    assert |[RBrace]| == 1;
    forall i | 0 <= i < |ts| - 1
      ensures !(ts[i].Num? && ts[i + 1].Num?)
    {
      if i >= 1 {
        assert ts[i] == ts[1..][i - 1] && ts[i + 1] == ts[1..][i];
      }
    }
  }

  /** Whatever order and white space the object is printed with, the same envelope is
      read. */
  lemma ParsesEveryLayout(l: Layout, e: Container)
    requires ValidLayout(l) && e.version <= Time.MAX_INT64
    ensures Parse(Render(l, e)) == Some(e)
  {
    var ms := Ordered(l, e);
    var ts := ObjectTokens(ms);
    ThreeMembers(ms);
    ReadsObject(ms);
    LexWeave(ts, l.gaps);
    AssignsInAnyOrder(l, e);
    var text := Render(l, e);
    assert Lex(text) == Some(ts);
    assert ReadObject(ts) == Some(ms);
  }
}
