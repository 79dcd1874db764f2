/** `decodeURIComponent`, which the url-encoded body parser applies to every
    key and value, and `encodeURIComponent`, its inverse, used here only to
    state what decoding undoes. Strings are sequences of Unicode scalar
    values; escapes are decoded as UTF-8. */
module Uri {
  import opened Wrappers

  predicate IsHexDigit(c: char) {
    '0' <= c <= '9' || 'a' <= c <= 'f' || 'A' <= c <= 'F'
  }

  function HexValue(c: char): (v: nat)
    requires IsHexDigit(c)
    ensures v < 16
  {
    if '0' <= c <= '9' then c as int - '0' as int
    else if 'a' <= c <= 'f' then c as int - 'a' as int + 10
    else c as int - 'A' as int + 10
  }

  /** The upper-case hexadecimal digit that `encodeURIComponent` writes for `v`. */
  function HexDigit(v: nat): (c: char)
    requires v < 16
    ensures IsHexDigit(c) && HexValue(c) == v
  {
    if v < 10 then ('0' as int + v) as char else ('A' as int + v - 10) as char
  }

  /** The byte written as `%XY` at the start of `s`, if `s` starts with such an escape. */
  function EscapedByte(s: string): (b: Option<nat>)
    ensures b.Some? ==> |s| >= 3 && s[0] == '%' && b.value < 256
  {
    if |s| >= 3 && s[0] == '%' && IsHexDigit(s[1]) && IsHexDigit(s[2])
    then Some(HexValue(s[1]) * 16 + HexValue(s[2]))
    else None
  }

  /** The length of the UTF-8 sequence that a byte of at least 0x80 starts:
      the number of its leading one bits, or 0 when that number is 1 or more than 4. */
  function SequenceLength(b: nat): (n: nat)
    ensures n == 0 || 2 <= n <= 4
  {
    if 0xC0 <= b < 0xE0 then 2 else if 0xE0 <= b < 0xF0 then 3 else if 0xF0 <= b < 0xF8 then 4 else 0
  }

  /** The value of the marker bits of a leading byte of an `n`-byte sequence. */
  function LeadBase(n: nat): nat
    requires 2 <= n <= 4
  {
    if n == 2 then 0xC0 else if n == 3 then 0xE0 else 0xF0
  }

  /** The smallest code point an `n`-byte sequence may encode (shorter forms are overlong). */
  function MinScalar(n: nat): nat
    requires 2 <= n <= 4
  {
    if n == 2 then 0x80 else if n == 3 then 0x800 else 0x10000
  }

  predicate IsScalar(cp: int) {
    0 <= cp < 0xD800 || 0xE000 <= cp < 0x11_0000
  }

  /** Reads `count` escaped continuation bytes (`10xxxxxx`) from the start of
      `s`, appending the six payload bits of each to `acc`. */
  function Continuation(s: string, count: nat, acc: nat): (r: Option<nat>)
    ensures r.Some? ==> |s| >= 3 * count
    decreases count
  {
    if count == 0 then Some(acc)
    else match EscapedByte(s)
      case None => None
      case Some(b) =>
        if 0x80 <= b < 0xC0 then Continuation(s[3..], count - 1, acc * 64 + (b - 0x80)) else None
  }

  function Prepend(c: char, rest: Option<string>): Option<string> {
    if rest.Some? then Some([c] + rest.value) else None
  }

  /** The character that the escape sequence at the start of `s` stands
      for, with the number of characters the sequence takes; `None` where
      JavaScript throws a URIError: a `%` not followed by two hexadecimal
      digits, a byte that cannot start a UTF-8 sequence, a missing or
      malformed continuation byte, an overlong form, a surrogate or a code
      point beyond U+10FFFF. */
  function DecodeEscape(s: string): (r: Option<(char, nat)>)
    ensures r.Some? ==> 3 <= r.value.1 <= |s|
  {
    match EscapedByte(s)
    case None => None
    case Some(b) =>
      if b < 0x80 then Some((b as char, 3))
      else
        var n := SequenceLength(b);
        if n == 0 then None
        else match Continuation(s[3..], n - 1, b - LeadBase(n))
          case None => None
          case Some(cp) => if MinScalar(n) <= cp && IsScalar(cp) then Some((cp as char, 3 * n)) else None
  }

  /** `decodeURIComponent(s)`; `None` where JavaScript throws a URIError. */
  function Decode(s: string): (r: Option<string>)
    decreases |s|
  {
    if s == [] then Some([])
    else if s[0] != '%' then Prepend(s[0], Decode(s[1..]))
    else match DecodeEscape(s)
      case None => None
      case Some((c, len)) => Prepend(c, Decode(s[len..]))
  }

  /** Text without `%` decodes to itself. */
  lemma {:induction false} DecodePlain(s: string)
    requires '%' !in s
    ensures Decode(s) == Some(s)
  {
    if s != [] {
      assert s[0] in s;
      assert forall c | c in s[1..] :: c in s;
      DecodePlain(s[1..]);
      assert [s[0]] + s[1..] == s;
    }
  }

  /** The characters `encodeURIComponent` leaves as they are. */
  predicate Unreserved(c: char) {
    'A' <= c <= 'Z' || 'a' <= c <= 'z' || '0' <= c <= '9' || c in "-_.!~*'()"
  }

  /** The UTF-8 encoding of a scalar value. */
  function Utf8(c: char): (bytes: seq<nat>)
    ensures forall i | 0 <= i < |bytes| :: bytes[i] < 256
  {
    var cp := c as int;
    if cp < 0x80 then [cp]
    else if cp < 0x800 then [0xC0 + cp / 64, 0x80 + cp % 64]
    else if cp < 0x1_0000 then [0xE0 + cp / 4096, 0x80 + (cp / 64) % 64, 0x80 + cp % 64]
    else [0xF0 + cp / 262144, 0x80 + (cp / 4096) % 64, 0x80 + (cp / 64) % 64, 0x80 + cp % 64]
  }

  function EscapeByte(b: nat): (e: string)
    requires b < 256
    ensures |e| == 3 && EscapedByte(e) == Some(b)
  {
    ['%', HexDigit(b / 16), HexDigit(b % 16)]
  }

  function Escape(bytes: seq<nat>): string
    requires forall i | 0 <= i < |bytes| :: bytes[i] < 256
  {
    if bytes == [] then [] else EscapeByte(bytes[0]) + Escape(bytes[1..])
  }

  function EncodeChar(c: char): string {
    if Unreserved(c) then [c] else Escape(Utf8(c))
  }

  /** `encodeURIComponent(s)`. */
  function Encode(s: string): string {
    if s == [] then [] else EncodeChar(s[0]) + Encode(s[1..])
  }

  /** The characters that can occur in an encoded string. */
  predicate EncodedChar(c: char) {
    c == '%' || IsHexDigit(c) || Unreserved(c)
  }

  lemma {:induction false} EscapeChars(bytes: seq<nat>)
    requires forall i | 0 <= i < |bytes| :: bytes[i] < 256
    ensures forall c | c in Escape(bytes) :: EncodedChar(c)
  {
    if bytes != [] {
      EscapeChars(bytes[1..]);
    }
  }

  lemma EncodeCharChars(c: char)
    ensures forall d | d in EncodeChar(c) :: EncodedChar(d)
  {
    if !Unreserved(c) {
      EscapeChars(Utf8(c));
    }
  }

  /** An encoded string holds only `%`, hexadecimal digits and unreserved
      characters; in particular no `&` and no `=`. */
  lemma {:induction false} EncodeChars(s: string)
    ensures forall c | c in Encode(s) :: EncodedChar(c)
    ensures '&' !in Encode(s) && '=' !in Encode(s)
  {
    if s != [] {
      EncodeChars(s[1..]);
      EncodeCharChars(s[0]);
      assert Encode(s) == EncodeChar(s[0]) + Encode(s[1..]);
    }
  }

  lemma ContinuationStep(b: nat, t: string, count: nat, acc: nat)
    requires 0x80 <= b < 0xC0 && count > 0
    ensures Continuation(EscapeByte(b) + t, count, acc) == Continuation(t, count - 1, acc * 64 + (b - 0x80))
  {
    assert (EscapeByte(b) + t)[3..] == t;
  }

  lemma EscapedPrefix(e: string, t: string, b: nat)
    requires |e| == 3 && EscapedByte(e) == Some(b)
    ensures EscapedByte(e + t) == Some(b)
    ensures (e + t)[3..] == t
  {
  }

  /** The bytes of a two-byte sequence and the code point they carry. */
  lemma Utf8Two(c: char) returns (b0: nat, b1: nat)
    requires 0x80 <= c as int < 0x800
    ensures Utf8(c) == [b0, b1] && b0 < 256 && b1 < 256
    ensures SequenceLength(b0) == 2 && 0x80 <= b1 < 0xC0
    ensures c as int == (b0 - 0xC0) * 64 + (b1 - 0x80)
  {
    var cp := c as int;
    b0, b1 := 0xC0 + cp / 64, 0x80 + cp % 64;
  }

  /** Dividing by 4096 is dividing by 64 twice. */
  lemma DivTwice(n: nat)
    ensures n / 4096 == (n / 64) / 64
  {
  }

  /** Dividing by 262144 is dividing by 4096 and then by 64. */
  lemma DivThrice(n: nat)
    ensures n / 262144 == (n / 4096) / 64
  {
  }

  lemma Utf8Three(c: char) returns (b0: nat, b1: nat, b2: nat)
    requires 0x800 <= c as int < 0x1_0000
    ensures Utf8(c) == [b0, b1, b2] && b0 < 256 && b1 < 256 && b2 < 256
    ensures SequenceLength(b0) == 3 && 0x80 <= b1 < 0xC0 && 0x80 <= b2 < 0xC0
    ensures c as int == ((b0 - 0xE0) * 64 + (b1 - 0x80)) * 64 + (b2 - 0x80)
  {
    var cp := c as int;
    var q1, q2 := cp / 64, cp / 4096;
    DivTwice(cp);
    assert cp == q1 * 64 + cp % 64;
    assert q1 == q2 * 64 + q1 % 64;
    b0, b1, b2 := 0xE0 + q2, 0x80 + q1 % 64, 0x80 + cp % 64;
  }

  lemma Utf8Four(c: char) returns (b0: nat, b1: nat, b2: nat, b3: nat)
    requires 0x1_0000 <= c as int
    ensures Utf8(c) == [b0, b1, b2, b3] && b0 < 256 && b1 < 256 && b2 < 256 && b3 < 256
    ensures SequenceLength(b0) == 4 && 0x80 <= b1 < 0xC0 && 0x80 <= b2 < 0xC0 && 0x80 <= b3 < 0xC0
    ensures c as int == (((b0 - 0xF0) * 64 + (b1 - 0x80)) * 64 + (b2 - 0x80)) * 64 + (b3 - 0x80)
  {
    var cp := c as int;
    var q1, q2, q3 := cp / 64, cp / 4096, cp / 262144;
    DivTwice(cp);
    DivThrice(cp);
    assert cp == q1 * 64 + cp % 64;
    assert q1 == q2 * 64 + q1 % 64;
    assert q2 == q3 * 64 + q2 % 64;
    b0, b1, b2, b3 := 0xF0 + q3, 0x80 + q2 % 64, 0x80 + q1 % 64, 0x80 + cp % 64;
  }

  lemma DecodeOneByte(c: char, rest: string)
    requires !Unreserved(c) && c as int < 0x80
    ensures Decode(EncodeChar(c) + rest) == Prepend(c, Decode(rest))
  {
    var cp := c as int;
    assert Escape(Utf8(c)) == EscapeByte(cp) + [];
    EscapedPrefix(EscapeByte(cp), rest, cp);
  }

  /** One step of `Decode` over an escape sequence. */
  lemma DecodeStep(s: string, c: char, len: nat)
    requires DecodeEscape(s) == Some((c, len))
    ensures Decode(s) == Prepend(c, Decode(s[len..]))
  {
  }

  /** A multi-byte escape sequence stands for the code point its bytes encode. */
  lemma EscapeMultibyte(s: string, b0: nat, n: nat, cp: nat)
    requires EscapedByte(s) == Some(b0) && b0 >= 0x80 && SequenceLength(b0) == n && n >= 2
    requires Continuation(s[3..], n - 1, b0 - LeadBase(n)) == Some(cp)
    requires MinScalar(n) <= cp && IsScalar(cp)
    ensures DecodeEscape(s) == Some((cp as char, 3 * n))
  {
  }

  lemma EscapeTwo(b0: nat, b1: nat)
    requires b0 < 256 && b1 < 256
    ensures Escape([b0, b1]) == EscapeByte(b0) + EscapeByte(b1)
  {
    assert [b0, b1][1..] == [b1];
    assert Escape([b1]) == EscapeByte(b1) + [];
  }

  lemma EscapeThree(b0: nat, b1: nat, b2: nat)
    requires b0 < 256 && b1 < 256 && b2 < 256
    ensures Escape([b0, b1, b2]) == EscapeByte(b0) + (EscapeByte(b1) + EscapeByte(b2))
  {
    assert [b0, b1, b2][1..] == [b1, b2];
    EscapeTwo(b1, b2);
  }

  lemma EscapeFour(b0: nat, b1: nat, b2: nat, b3: nat)
    requires b0 < 256 && b1 < 256 && b2 < 256 && b3 < 256
    ensures Escape([b0, b1, b2, b3]) == EscapeByte(b0) + (EscapeByte(b1) + (EscapeByte(b2) + EscapeByte(b3)))
  {
    assert [b0, b1, b2, b3][1..] == [b1, b2, b3];
    EscapeThree(b1, b2, b3);
  }

  /** Decoding two escaped bytes that form a valid sequence. */
  lemma DecodeTwoEscapes(b0: nat, b1: nat, cp: nat, rest: string)
    requires SequenceLength(b0) == 2 && 0x80 <= b1 < 0xC0
    requires cp == (b0 - 0xC0) * 64 + (b1 - 0x80) && 0x80 <= cp && IsScalar(cp)
    ensures Decode(EscapeByte(b0) + (EscapeByte(b1) + rest)) == Prepend(cp as char, Decode(rest))
  {
    var s := EscapeByte(b0) + (EscapeByte(b1) + rest);
    EscapedPrefix(EscapeByte(b0), EscapeByte(b1) + rest, b0);
    ContinuationStep(b1, rest, 1, b0 - 0xC0);
    EscapeMultibyte(s, b0, 2, cp);
    DecodeStep(s, cp as char, 6);
    assert s[6..] == rest;
  }

  lemma DecodeThreeEscapes(b0: nat, b1: nat, b2: nat, cp: nat, rest: string)
    requires SequenceLength(b0) == 3 && 0x80 <= b1 < 0xC0 && 0x80 <= b2 < 0xC0
    requires cp == ((b0 - 0xE0) * 64 + (b1 - 0x80)) * 64 + (b2 - 0x80) && 0x800 <= cp && IsScalar(cp)
    ensures Decode(EscapeByte(b0) + (EscapeByte(b1) + (EscapeByte(b2) + rest))) == Prepend(cp as char, Decode(rest))
  {
    var t := EscapeByte(b2) + rest;
    var s := EscapeByte(b0) + (EscapeByte(b1) + t);
    EscapedPrefix(EscapeByte(b0), EscapeByte(b1) + t, b0);
    ContinuationStep(b1, t, 2, b0 - 0xE0);
    ContinuationStep(b2, rest, 1, (b0 - 0xE0) * 64 + (b1 - 0x80));
    EscapeMultibyte(s, b0, 3, cp);
    DecodeStep(s, cp as char, 9);
    assert s[9..] == rest;
  }

  lemma DecodeFourEscapes(b0: nat, b1: nat, b2: nat, b3: nat, cp: nat, rest: string)
    requires SequenceLength(b0) == 4 && 0x80 <= b1 < 0xC0 && 0x80 <= b2 < 0xC0 && 0x80 <= b3 < 0xC0
    requires cp == (((b0 - 0xF0) * 64 + (b1 - 0x80)) * 64 + (b2 - 0x80)) * 64 + (b3 - 0x80)
    requires 0x1_0000 <= cp && IsScalar(cp)
    ensures Decode(EscapeByte(b0) + (EscapeByte(b1) + (EscapeByte(b2) + (EscapeByte(b3) + rest))))
         == Prepend(cp as char, Decode(rest))
  {
    var u := EscapeByte(b3) + rest;
    var t := EscapeByte(b2) + u;
    var s := EscapeByte(b0) + (EscapeByte(b1) + t);
    EscapedPrefix(EscapeByte(b0), EscapeByte(b1) + t, b0);
    ContinuationStep(b1, t, 3, b0 - 0xF0);
    ContinuationStep(b2, u, 2, (b0 - 0xF0) * 64 + (b1 - 0x80));
    ContinuationStep(b3, rest, 1, ((b0 - 0xF0) * 64 + (b1 - 0x80)) * 64 + (b2 - 0x80));
    EscapeMultibyte(s, b0, 4, cp);
    DecodeStep(s, cp as char, 12);
    assert s[12..] == rest;
  }

  lemma EncodeTwo(c: char, rest: string) returns (b0: nat, b1: nat)
    requires 0x80 <= c as int < 0x800
    ensures SequenceLength(b0) == 2 && 0x80 <= b1 < 0xC0
    ensures EncodeChar(c) + rest == EscapeByte(b0) + (EscapeByte(b1) + rest)
    ensures c as int == (b0 - 0xC0) * 64 + (b1 - 0x80)
  {
    b0, b1 := Utf8Two(c);
    EscapeTwo(b0, b1);
  }

  lemma EncodeThree(c: char, rest: string) returns (b0: nat, b1: nat, b2: nat)
    requires 0x800 <= c as int < 0x1_0000
    ensures SequenceLength(b0) == 3 && 0x80 <= b1 < 0xC0 && 0x80 <= b2 < 0xC0
    ensures EncodeChar(c) + rest == EscapeByte(b0) + (EscapeByte(b1) + (EscapeByte(b2) + rest))
    ensures c as int == ((b0 - 0xE0) * 64 + (b1 - 0x80)) * 64 + (b2 - 0x80)
  {
    b0, b1, b2 := Utf8Three(c);
    EscapeThree(b0, b1, b2);
  }

  lemma EncodeFour(c: char, rest: string) returns (b0: nat, b1: nat, b2: nat, b3: nat)
    requires 0x1_0000 <= c as int
    ensures SequenceLength(b0) == 4 && 0x80 <= b1 < 0xC0 && 0x80 <= b2 < 0xC0 && 0x80 <= b3 < 0xC0
    ensures EncodeChar(c) + rest == EscapeByte(b0) + (EscapeByte(b1) + (EscapeByte(b2) + (EscapeByte(b3) + rest)))
    ensures c as int == (((b0 - 0xF0) * 64 + (b1 - 0x80)) * 64 + (b2 - 0x80)) * 64 + (b3 - 0x80)
  {
    b0, b1, b2, b3 := Utf8Four(c);
    EscapeFour(b0, b1, b2, b3);
  }

  /** Decoding an encoded character gives that character back, whatever follows. */
  lemma DecodeEncodeChar(c: char, rest: string)
    ensures Decode(EncodeChar(c) + rest) == Prepend(c, Decode(rest))
  {
    if Unreserved(c) {
      assert ([c] + rest)[1..] == rest;
    } else if c as int < 0x80 {
      DecodeOneByte(c, rest);
    } else if c as int < 0x800 {
      var b0, b1 := EncodeTwo(c, rest);
      DecodeTwoEscapes(b0, b1, c as int, rest);
    } else if c as int < 0x1_0000 {
      var b0, b1, b2 := EncodeThree(c, rest);
      DecodeThreeEscapes(b0, b1, b2, c as int, rest);
    } else {
      var b0, b1, b2, b3 := EncodeFour(c, rest);
      DecodeFourEscapes(b0, b1, b2, b3, c as int, rest);
    }
  }

  /** `decodeURIComponent(encodeURIComponent(s)) == s`. */
  lemma {:induction false} DecodeEncode(s: string)
    ensures Decode(Encode(s)) == Some(s)
  {
    if s != [] {
      DecodeEncode(s[1..]);
      DecodeEncodeChar(s[0], Encode(s[1..]));
      assert [s[0]] + s[1..] == s;
    }
  }
}
