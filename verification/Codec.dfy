/** store/codec.go: model JSON, base64, JSON envelope - and the jsonb column, which
    keeps the value of the envelope but prints it in its own way. */
module Codec {
  import opened Prelude
  import opened Envelope
  import Base64
  import Digits
  import Time

  const PAYLOAD_VERSION: nat := 1

  /** json.Marshal and json.Unmarshal on the model type, and how the database prints
      a jsonb value. */
  datatype Codec<!V> = Codec(marshal: V -> Option<seq<Base64.byte>>, unmarshal: seq<Base64.byte> -> Option<V>,
                             layout: Layout)

  ghost predicate Sound<V(!new)>(c: Codec<V>)
  {
    && ValidLayout(c.layout)
    && forall v: V :: c.marshal(v).Some? ==> c.unmarshal(c.marshal(v).value) == Some(v)
  }

  /** json.Marshal prints a struct in field order without white space. */
  const COMPACT: Layout := Layout((0, 1, 2), ["", "", "", "", "", "", "", "", "", "", "", "", "", ""])

  function Marshalled(e: Container): string
  {
    Render(COMPACT, e)
  }

  function Encode<V>(c: Codec<V>, v: V): Option<string>
  {
    match c.marshal(v)
    case None => None
    case Some(model) =>
      Some(Marshalled(Container(PAYLOAD_VERSION, false, Base64.Encode(model))))
  }

  /** Neither the version nor the protection flag is looked at. */
  function Decode<V>(c: Codec<V>, data: string): Option<V>
  {
    match Parse(data)
    case None => None
    case Some(container) =>
      match Base64.Decode(container.payload)
      case None => None
      case Some(model) => c.unmarshal(model)
  }

  /** What a jsonb column returns for a text it was given. */
  function Jsonb(l: Layout, text: string): string
    requires ValidLayout(l)
  {
    match Parse(text)
    case None => text
    case Some(e) => Render(l, e)
  }

  lemma MarshalledParses(e: Container)
    requires e.version <= Time.MAX_INT64
    ensures Parse(Marshalled(e)) == Some(e)
  {
    assert ValidLayout(COMPACT);
    ParsesEveryLayout(COMPACT, e);
  }

  lemma JsonbParses(l: Layout, text: string, e: Container)
    requires ValidLayout(l) && Parse(text) == Some(e) && e.version <= Time.MAX_INT64
    ensures Parse(Jsonb(l, text)) == Some(e)
  {
    ParsesEveryLayout(l, e);
  }

  /** The payload round trip: what is read from the column is what was written. */
  lemma DecodeEncode<V(!new)>(c: Codec<V>, v: V)
    requires Sound(c) && Encode(c, v).Some?
    ensures Decode(c, Encode(c, v).value) == Some(v)
    ensures Decode(c, Jsonb(c.layout, Encode(c, v).value)) == Some(v)
  {
    var model := c.marshal(v).value;
    var e := Container(PAYLOAD_VERSION, false, Base64.Encode(model));
    MarshalledParses(e);
    JsonbParses(c.layout, Marshalled(e), e);
    Base64.RoundTrip(model);
  }

  /** And so under every order of the keys and every white space, not only the one the
      column happens to use. */
  lemma DecodesEveryLayout<V(!new)>(c: Codec<V>, v: V, l: Layout)
    requires Sound(c) && Encode(c, v).Some? && ValidLayout(l)
    ensures Decode(c, Jsonb(l, Encode(c, v).value)) == Some(v)
  {
    DecodeEncode(c.(layout := l), v);
  }

  /** The payload column as the stores use it. */
  function Column<V>(c: Codec<V>): Payloads<V>
    requires ValidLayout(c.layout)
  {
    Payloads(
      v => match Encode(c, v) case None => None case Some(text) => Some(Jsonb(c.layout, text)),
      text => Decode(c, text))
  }

  /** What the stores assume of their payload column holds of this one. */
  lemma ColumnIsFaithful<V(!new)>(c: Codec<V>)
    requires Sound(c)
    ensures Faithful(Column(c))
  {
    forall v: V | Column(c).encode(v).Some?
      ensures Column(c).decode(Column(c).encode(v).value) == Some(v)
    {
      DecodeEncode(c, v);
    }
  }

  // -------------------------------------------------------------- wire format

  function PrintAll(ts: seq<Token>): string
  {
    if ts == [] then "" else Print(ts[0]) + PrintAll(ts[1..])
  }

  lemma {:induction false} PrintAllConcat(a: seq<Token>, b: seq<Token>)
    ensures PrintAll(a + b) == PrintAll(a) + PrintAll(b)
  {
    if a == [] {
      assert a + b == b;
    } else {
      assert (a + b)[1..] == a[1..] + b;
      PrintAllConcat(a[1..], b);
    }
  }

  lemma {:induction false} WeaveWithoutGaps(ts: seq<Token>, gaps: seq<string>)
    requires |gaps| == |ts| + 1 && forall i :: 0 <= i < |gaps| ==> gaps[i] == ""
    ensures Weave(ts, gaps) == PrintAll(ts)
  {
    if ts != [] {
      WeaveWithoutGaps(ts[1..], gaps[1..]);
    }
  }

  predicate NeedsNoEscape(text: string)
  {
    forall i :: 0 <= i < |text| ==> Escape(text[i]) == [text[i]]
  }

  lemma {:induction false} EscapedIsPlain(text: string)
    requires NeedsNoEscape(text)
    ensures Escaped(text) == text
  {
    if text != "" {
      EscapedIsPlain(text[1..]);
    }
  }

  /** No character of the base64 alphabet needs escaping in a JSON string. */
  lemma Base64NeedsNoEscape(b: seq<Base64.byte>)
    ensures Escaped(Base64.Encode(b)) == Base64.Encode(b)
  {
    Base64.EncodeIsPlain(b);
    EscapedIsPlain(Base64.Encode(b));
  }

  /** The tokens in front of the payload's text. */
  function HeadTokens(): seq<Token>
  {
    [ LBrace, Str("version"), Colon, Num(PAYLOAD_VERSION), Comma, Str("dataProtected"), Colon, False, Comma,
      Str("payload"), Colon ]
  }

  lemma PrintTail(text: string)
    requires Escaped(text) == text
    ensures PrintAll([Str(text), RBrace]) == "\"" + text + "\"}"
  {
    assert [Str(text), RBrace][1..] == [RBrace];
    assert PrintAll([RBrace]) == Print(RBrace) + PrintAll([]);
    assert "\"" + text + "\"" + ("}" + "") == "\"" + text + "\"}";
  }

  lemma ThreeMemberTokens(a: Member, b: Member, c: Member)
    ensures ObjectTokens([a, b, c])
            == [LBrace, Str(a.0), Colon, a.1, Comma, Str(b.0), Colon, b.1, Comma, Str(c.0), Colon, c.1, RBrace]
  {
    assert [a, b, c][1..] == [b, c] && [b, c][1..] == [c];
    assert MemberTokens([c]) == [Str(c.0), Colon, c.1, RBrace];
    assert MemberTokens([b, c]) == [Str(b.0), Colon, b.1, Comma] + MemberTokens([c]);
    assert MemberTokens([a, b, c]) == [Str(a.0), Colon, a.1, Comma] + MemberTokens([b, c]);
  }

  lemma EnvelopeTokens(text: string)
    ensures ObjectTokens(Ordered(COMPACT, Container(PAYLOAD_VERSION, false, text)))
            == HeadTokens() + [Str(text), RBrace]
  {
    var ms := Ordered(COMPACT, Container(PAYLOAD_VERSION, false, text));
    assert ms == [ms[0], ms[1], ms[2]];
    ThreeMemberTokens(ms[0], ms[1], ms[2]);
  }

  lemma PrintSingle(t: Token)
    ensures PrintAll([t]) == Print(t)
  {
    assert PrintAll([t]) == Print(t) + PrintAll([]);
  }

  lemma PrintMember(name: string, value: Token)
    requires NeedsNoEscape(name)
    ensures PrintAll([Str(name), Colon, value]) == "\"" + name + "\"" + ":" + Print(value)
  {
    EscapedIsPlain(name);
    assert [Str(name), Colon, value] == [Str(name)] + [Colon] + [value];
    PrintAllConcat([Str(name)] + [Colon], [value]);
    PrintAllConcat([Str(name)], [Colon]);
    PrintSingle(Str(name));
    PrintSingle(Colon);
    PrintSingle(value);
  }

  predicate Letters(text: string)
  {
    forall i :: 0 <= i < |text| ==> 'a' <= text[i] <= 'z' || 'A' <= text[i] <= 'Z'
  }

  lemma LettersNeedNoEscape(text: string)
    requires Letters(text)
    ensures NeedsNoEscape(text)
  {
  }

  lemma NamesNeedNoEscape()
    ensures NeedsNoEscape("version") && NeedsNoEscape("dataProtected") && NeedsNoEscape("payload")
  {
    LettersNeedNoEscape("version");
    LettersNeedNoEscape("dataProtected");
    LettersNeedNoEscape("payload");
  }

  lemma PayloadText()
    requires NeedsNoEscape("payload")
    ensures PrintAll([Str("payload"), Colon]) == "\"" + "payload" + "\"" + ":"
  {
    EscapedIsPlain("payload");
    assert [Str("payload"), Colon] == [Str("payload")] + [Colon];
    PrintAllConcat([Str("payload")], [Colon]);
    PrintSingle(Str("payload"));
    PrintSingle(Colon);
  }

  lemma PrintSix(a: seq<Token>, b: seq<Token>, c: seq<Token>)
    ensures PrintAll([LBrace] + (a + ([Comma] + (b + ([Comma] + c)))))
            == "{" + (PrintAll(a) + ("," + (PrintAll(b) + ("," + PrintAll(c)))))
  {
    PrintAllConcat([LBrace], a + ([Comma] + (b + ([Comma] + c))));
    PrintAllConcat(a, [Comma] + (b + ([Comma] + c)));
    PrintAllConcat([Comma], b + ([Comma] + c));
    PrintAllConcat(b, [Comma] + c);
    PrintAllConcat([Comma], c);
    PrintSingle(LBrace);
    PrintSingle(Comma);
  }

  lemma HeadSplits()
    ensures HeadTokens() == [LBrace] + ([Str("version"), Colon, Num(PAYLOAD_VERSION)] + ([Comma]
                            + ([Str("dataProtected"), Colon, False] + ([Comma] + [Str("payload"), Colon]))))
  {
  }

  /** The envelope's text is the same for every value but for the base64 text in it,
      which appears verbatim between quotes. */
  lemma WireFormat<V>(c: Codec<V>, v: V)
    requires c.marshal(v).Some?
    ensures Encode(c, v) == Some(PrintAll(HeadTokens()) + ("\"" + Base64.Encode(c.marshal(v).value) + "\"}"))
  {
    var text := Base64.Encode(c.marshal(v).value);
    var ts := ObjectTokens(Ordered(COMPACT, Container(PAYLOAD_VERSION, false, text)));
    EnvelopeTokens(text);
    ThreeMembers(Ordered(COMPACT, Container(PAYLOAD_VERSION, false, text)));
    WeaveWithoutGaps(ts, COMPACT.gaps);
    PrintAllConcat(HeadTokens(), [Str(text), RBrace]);
    Base64NeedsNoEscape(c.marshal(v).value);
    PrintTail(text);
  }

  /** The whole text, written out. */
  lemma WireText<V>(c: Codec<V>, v: V)
    requires c.marshal(v).Some?
    ensures Encode(c, v) == Some(
              "{" + ("\"" + "version" + "\"" + ":" + "1" + (","
              + ("\"" + "dataProtected" + "\"" + ":" + "false" + (","
              + ("\"" + "payload" + "\"" + ":")))))
              + ("\"" + Base64.Encode(c.marshal(v).value) + "\"}"))
  {
    WireFormat(c, v);
    HeadText();
  }

  lemma HeadText()
    ensures PrintAll(HeadTokens())
            == "{" + ("\"" + "version" + "\"" + ":" + "1" + (","
               + ("\"" + "dataProtected" + "\"" + ":" + "false" + (","
               + ("\"" + "payload" + "\"" + ":")))))
  {
    HeadSplits();
    PrintSix([Str("version"), Colon, Num(PAYLOAD_VERSION)], [Str("dataProtected"), Colon, False],
             [Str("payload"), Colon]);
    NamesNeedNoEscape();
    PrintMember("version", Num(PAYLOAD_VERSION));
    PrintMember("dataProtected", False);
    PayloadText();
  }
}
