/** Standard base64 with padding, as section 4 of RFC 4648 defines it and Go's
    `base64.StdEncoding` reads it. */
module Base64 {
  import opened Prelude

  type byte = b: int | 0 <= b < 256

  predicate IsSymbol(c: char)
  {
    'A' <= c <= 'Z' || 'a' <= c <= 'z' || '0' <= c <= '9' || c == '+' || c == '/'
  }

  /** The character of a 6-bit value. */
  function Symbol(n: nat): (c: char)
    requires n < 64
    ensures IsSymbol(c) && Sextet(c) == n
  {
    if n < 26 then ('A' as int + n) as char
    else if n < 52 then ('a' as int + n - 26) as char
    else if n < 62 then ('0' as int + n - 52) as char
    else if n == 62 then '+'
    else '/'
  }

  function Sextet(c: char): (n: nat)
    requires IsSymbol(c)
    ensures n < 64
  {
    if 'A' <= c <= 'Z' then c as int - 'A' as int
    else if 'a' <= c <= 'z' then c as int - 'a' as int + 26
    else if '0' <= c <= '9' then c as int - '0' as int + 52
    else if c == '+' then 62
    else 63
  }

  /** The alphabet of the standard: A-Z, a-z, 0-9, + and /, each range in order. */
  lemma Alphabet()
    ensures Symbol(0) == 'A' && Symbol(25) == 'Z' && Symbol(26) == 'a' && Symbol(51) == 'z'
    ensures Symbol(52) == '0' && Symbol(61) == '9' && Symbol(62) == '+' && Symbol(63) == '/'
    ensures forall n: nat :: n < 62 && n != 25 && n != 51 && n != 61 ==> Symbol(n + 1) as int == Symbol(n) as int + 1
  {
  }

  /** Examples of section 10 of the standard, one for each kind of padding. */
  lemma Examples()
    ensures Encode(['f' as int]) == "Zg==" && Encode(['f' as int, 'o' as int]) == "Zm8="
    ensures Encode(['f' as int, 'o' as int, 'o' as int]) == "Zm9v"
  {
    var foo: seq<byte> := ['f' as int, 'o' as int, 'o' as int];
    assert foo[3..] == [];
    assert Encode(foo) == Quad(foo[0], foo[1], foo[2]) + Encode(foo[3..]);
  }

  function Quad(a: byte, b: byte, c: byte): (s: string)
    ensures |s| == 4
  {
    [Symbol(a / 4), Symbol(a % 4 * 16 + b / 16), Symbol(b % 16 * 4 + c / 64), Symbol(c % 64)]
  }

  function Encode(b: seq<byte>): string
  {
    if |b| == 0 then ""
    else if |b| == 1 then
      [Symbol(b[0] / 4), Symbol(b[0] % 4 * 16), '=', '=']
    else if |b| == 2 then
      [Symbol(b[0] / 4), Symbol(b[0] % 4 * 16 + b[1] / 16), Symbol(b[1] % 16 * 4), '=']
    else
      Quad(b[0], b[1], b[2]) + Encode(b[3..])
  }

  /** Line breaks are skipped. */
  function WithoutBreaks(s: string): string
  {
    if s == "" then ""
    else if s[0] == '\r' || s[0] == '\n' then WithoutBreaks(s[1..])
    else [s[0]] + WithoutBreaks(s[1..])
  }

  /** Groups of four; padding only in the last. */
  function Groups(s: string): Option<seq<byte>>
  {
    if s == "" then Some([])
    else if |s| < 4 || !IsSymbol(s[0]) || !IsSymbol(s[1]) then None
    else
      var first: byte := Sextet(s[0]) * 4 + Sextet(s[1]) / 16;
      if s[2] == '=' then
        if |s| == 4 && s[3] == '=' then Some([first]) else None
      else if !IsSymbol(s[2]) then None
      else
        var second: byte := Sextet(s[1]) % 16 * 16 + Sextet(s[2]) / 4;
        if s[3] == '=' then
          if |s| == 4 then Some([first, second]) else None
        else if !IsSymbol(s[3]) then None
        else
          var third: byte := Sextet(s[2]) % 4 * 64 + Sextet(s[3]);
          match Groups(s[4..])
          case None => None
          case Some(rest) => Some([first, second, third] + rest)
  }

  function Decode(s: string): Option<seq<byte>>
  {
    Groups(WithoutBreaks(s))
  }

  lemma OneByte(a: byte)
    ensures Groups(Encode([a])) == Some([a])
  {
    assert a / 4 * 4 + a % 4 * 16 / 16 == a;
  }

  lemma TwoBytes(a: byte, b: byte)
    ensures Groups(Encode([a, b])) == Some([a, b])
  {
    var x, y, z := a / 4, a % 4 * 16 + b / 16, b % 16 * 4;
    assert x * 4 + y / 16 == a && y % 16 * 16 + z / 4 == b;
  }

  lemma ThreeBytes(a: byte, b: byte, c: byte, rest: string)
    requires Groups(rest).Some?
    ensures Groups(Quad(a, b, c) + rest) == Some([a, b, c] + Groups(rest).value)
  {
    var x, y, z, w := a / 4, a % 4 * 16 + b / 16, b % 16 * 4 + c / 64, c % 64;
    var s := Quad(a, b, c) + rest;
    assert s[4..] == rest;
    assert x * 4 + y / 16 == a && y % 16 * 16 + z / 4 == b && z % 4 * 64 + w == c;
  }

  lemma {:induction false} GroupsEncode(b: seq<byte>)
    ensures Groups(Encode(b)) == Some(b)
  {
    if |b| == 1 {
      assert b == [b[0]];
      OneByte(b[0]);
    } else if |b| == 2 {
      assert b == [b[0], b[1]];
      TwoBytes(b[0], b[1]);
    } else if |b| >= 3 {
      GroupsEncode(b[3..]);
      assert b == [b[0], b[1], b[2]] + b[3..];
      ThreeBytes(b[0], b[1], b[2], Encode(b[3..]));
      assert Encode(b) == Quad(b[0], b[1], b[2]) + Encode(b[3..]);
    }
  }

  predicate Plain(s: string)
  {
    forall i :: 0 <= i < |s| ==> IsSymbol(s[i]) || s[i] == '='
  }

  lemma {:induction false} EncodeIsPlain(b: seq<byte>)
    ensures Plain(Encode(b))
  {
    if |b| >= 3 {
      EncodeIsPlain(b[3..]);
    }
  }

  lemma {:induction false} PlainHasNoBreaks(s: string)
    requires Plain(s)
    ensures WithoutBreaks(s) == s
  {
    if s != "" {
      PlainHasNoBreaks(s[1..]);
    }
  }

  /** Decoding gives back every byte sequence, whatever its length modulo 3. */
  lemma RoundTrip(b: seq<byte>)
    ensures Decode(Encode(b)) == Some(b)
  {
    EncodeIsPlain(b);
    PlainHasNoBreaks(Encode(b));
    GroupsEncode(b);
  }

  /** Four characters for every three bytes begun. */
  lemma {:induction false} EncodeLength(b: seq<byte>)
    ensures |Encode(b)| == (|b| + 2) / 3 * 4
  {
    if |b| >= 3 {
      EncodeLength(b[3..]);
      assert (|b| + 2) / 3 == (|b[3..]| + 2) / 3 + 1;
    }
  }
}
