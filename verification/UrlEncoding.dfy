/** The query-string encoder of the remote client, with the decoder that
    inverts it. `char` is a Unicode scalar value. */
module UrlEncoding {
  import opened Wrappers

  type Byte = b: int | 0 <= b < 256

  // ---- UTF-8, section 3 of RFC 3629 ----

  function Utf8Char(c: char): (bs: seq<Byte>)
    ensures 1 <= |bs| <= 4
    ensures if (c as int) < 0x80 then bs == [c as int] else forall b | b in bs :: b >= 0x80
  {
    var n := c as int;
    if n < 0x80 then [n]
    else if n < 0x800 then [0xC0 + n / 0x40, 0x80 + n % 0x40]
    else if n < 0x10000 then [0xE0 + n / 0x1000, 0x80 + n / 0x40 % 0x40, 0x80 + n % 0x40]
    else [0xF0 + n / 0x40000, 0x80 + n / 0x1000 % 0x40, 0x80 + n / 0x40 % 0x40, 0x80 + n % 0x40]
  }

  function Utf8(s: string): seq<Byte> {
    if s == [] then [] else Utf8Char(s[0]) + Utf8(s[1..])
  }

  /** How many bytes a leading byte announces; 0 for a byte that cannot lead. */
  function Announced(b: Byte): (k: nat)
    ensures k <= 4
  {
    if b < 0x80 then 1
    else if 0xC0 <= b < 0xE0 then 2
    else if 0xE0 <= b < 0xF0 then 3
    else if 0xF0 <= b < 0xF8 then 4
    else 0
  }

  predicate Continues(b: Byte) {
    0x80 <= b < 0xC0
  }

  predicate AllContinue(bs: seq<Byte>) {
    forall b | b in bs :: Continues(b)
  }

  function Payload(b: Byte): int {
    (b as int) - 0x80
  }

  function CodePoint(bs: seq<Byte>): int
    requires 1 <= |bs| <= 4
  {
    var lead: int := bs[0];
    if |bs| == 1 then lead
    else if |bs| == 2 then (lead - 0xC0) * 0x40 + Payload(bs[1])
    else if |bs| == 3 then (lead - 0xE0) * 0x1000 + Payload(bs[1]) * 0x40 + Payload(bs[2])
    else (lead - 0xF0) * 0x40000 + Payload(bs[1]) * 0x1000 + Payload(bs[2]) * 0x40 + Payload(bs[3])
  }

  function LeastOfLength(k: nat): int {
    if k == 1 then 0 else if k == 2 then 0x80 else if k == 3 then 0x800 else 0x10000
  }

  /** One strictly decoded character: no overlong form, no surrogate. */
  function Utf8DecodeChar(bs: seq<Byte>): Option<char>
    requires 1 <= |bs| <= 4 && Announced(bs[0]) == |bs|
  {
    if !AllContinue(bs[1..]) then None
    else
      var n := CodePoint(bs);
      if n < LeastOfLength(|bs|) || 0xD800 <= n < 0xE000 || 0x110000 <= n then None
      else Some(n as char)
  }

  function Utf8Decode(bs: seq<Byte>): Option<string> {
    if bs == [] then Some("")
    else
      var k := Announced(bs[0]);
      if k == 0 || |bs| < k then None
      else match (Utf8DecodeChar(bs[..k]), Utf8Decode(bs[k..]))
        case (Some(c), Some(rest)) => Some([c] + rest)
        case _ => None
  }

  /** Regrouping six-bit digits: the digits of `n` in base 64. */
  lemma SixBitDigits(n: nat)
    ensures n == n / 0x40 * 0x40 + n % 0x40
    ensures n == n / 0x1000 * 0x1000 + n / 0x40 % 0x40 * 0x40 + n % 0x40
    ensures n == n / 0x40000 * 0x40000 + n / 0x1000 % 0x40 * 0x1000 + n / 0x40 % 0x40 * 0x40 + n % 0x40
  {
    var q := n / 0x40;
    var p := q / 0x40;
    assert p == n / 0x1000 && p / 0x40 == n / 0x40000;
    assert n == q * 0x40 + n % 0x40 && q == p * 0x40 + q % 0x40 && p == p / 0x40 * 0x40 + p % 0x40;
  }

  lemma FromSixBitDigits(a: nat, x: nat, y: nat, z: nat)
    requires x < 0x40 && y < 0x40 && z < 0x40
    ensures var n := a * 0x40000 + x * 0x1000 + y * 0x40 + z;
      n / 0x40000 == a && n / 0x1000 == a * 0x40 + x && n / 0x1000 % 0x40 == x && n / 0x40 % 0x40 == y && n % 0x40 == z
  {
  }

  lemma Utf8CharRoundTrip(c: char)
    ensures var bs := Utf8Char(c);
      Announced(bs[0]) == |bs| && Utf8DecodeChar(bs) == Some(c)
  {
    var bs := Utf8Char(c);
    SixBitDigits(c as int);
    assert CodePoint(bs) == c as int;
    assert AllContinue(bs[1..]);
  }

  /** A strictly decoded character of each length has those very bytes. */
  lemma TwoBytesUnique(bs: seq<Byte>, c: char)
    requires |bs| == 2 && Announced(bs[0]) == 2 && Utf8DecodeChar(bs) == Some(c)
    ensures Utf8Char(c) == bs
  {
    assert bs[1] in bs[1..];
    FromSixBitDigits(0, 0, bs[0] - 0xC0, Payload(bs[1]));
  }

  lemma ThreeBytesUnique(bs: seq<Byte>, c: char)
    requires |bs| == 3 && Announced(bs[0]) == 3 && Utf8DecodeChar(bs) == Some(c)
    ensures Utf8Char(c) == bs
  {
    assert bs[1] in bs[1..] && bs[2] in bs[1..];
    FromSixBitDigits(0, bs[0] - 0xE0, Payload(bs[1]), Payload(bs[2]));
  }

  lemma FourBytesUnique(bs: seq<Byte>, c: char)
    requires |bs| == 4 && Announced(bs[0]) == 4 && Utf8DecodeChar(bs) == Some(c)
    ensures Utf8Char(c) == bs
  {
    assert bs[1] in bs[1..] && bs[2] in bs[1..] && bs[3] in bs[1..];
    FromSixBitDigits(bs[0] - 0xF0, Payload(bs[1]), Payload(bs[2]), Payload(bs[3]));
  }

  lemma Utf8CharUnique(bs: seq<Byte>, c: char)
    requires 1 <= |bs| <= 4 && Announced(bs[0]) == |bs| && Utf8DecodeChar(bs) == Some(c)
    ensures Utf8Char(c) == bs
  {
    match |bs|
    case 1 =>
    case 2 => TwoBytesUnique(bs, c);
    case 3 => ThreeBytesUnique(bs, c);
    case _ => FourBytesUnique(bs, c);
  }

  /** Reading the UTF-8 bytes of a text gives the text back. */
  lemma {:induction false} Utf8RoundTrip(s: string)
    ensures Utf8Decode(Utf8(s)) == Some(s)
  {
    if s != [] {
      Utf8CharRoundTrip(s[0]);
      Utf8RoundTrip(s[1..]);
      var head := Utf8Char(s[0]);
      assert Utf8(s)[..|head|] == head && Utf8(s)[|head|..] == Utf8(s[1..]);
      assert Utf8(s)[0] == head[0] && s == [s[0]] + s[1..];
    }
  }

  lemma Utf8DecodeStep(bs: seq<Byte>, s: string)
    requires bs != [] && Utf8Decode(bs) == Some(s)
    ensures s != "" && var k := |Utf8Char(s[0])|;
      k <= |bs| && Utf8Char(s[0]) == bs[..k] && Utf8Decode(bs[k..]) == Some(s[1..])
  {
    var k := Announced(bs[0]);
    Utf8CharUnique(bs[..k], s[0]);
  }

  /** Bytes that read as a text are exactly that text's UTF-8 form. */
  lemma {:induction false} Utf8DecodeUnique(bs: seq<Byte>, s: string)
    requires Utf8Decode(bs) == Some(s)
    ensures Utf8(s) == bs
    decreases |bs|
  {
    if bs != [] {
      Utf8DecodeStep(bs, s);
      var k := |Utf8Char(s[0])|;
      Utf8DecodeUnique(bs[k..], s[1..]);
      assert bs == bs[..k] + bs[k..];
    }
  }

  // ---- Percent-encoding, sections 2.1 and 2.3 of RFC 3986 ----

  predicate Unreserved(c: char) {
    'A' <= c <= 'Z' || 'a' <= c <= 'z' || '0' <= c <= '9' || c == '-' || c == '_' || c == '.' || c == '~'
  }

  function HexDigit(d: int): (c: char)
    requires 0 <= d < 16
    ensures Unreserved(c)
  {
    if d < 10 then ('0' as int + d) as char else ('A' as int + d - 10) as char
  }

  /** `%{b:02X}` */
  function Triplet(b: Byte): (t: string)
    ensures |t| == 3
  {
    ['%', HexDigit(b / 16), HexDigit(b % 16)]
  }

  function Triplets(bs: seq<Byte>): string {
    if bs == [] then "" else Triplet(bs[0]) + Triplets(bs[1..])
  }

  function EncodeChar(c: char): string {
    if Unreserved(c) then [c] else Triplets(Utf8Char(c))
  }

  function Encode(s: string): string {
    if s == [] then "" else EncodeChar(s[0]) + Encode(s[1..])
  }

  lemma {:induction false} TripletsSnoc(bs: seq<Byte>, b: Byte)
    ensures Triplets(bs + [b]) == Triplets(bs) + Triplet(b)
  {
    if bs == [] {
      assert [b][1..] == [];
    } else {
      assert (bs + [b])[1..] == bs[1..] + [b];
      TripletsSnoc(bs[1..], b);
    }
  }

  lemma {:induction false} EncodeSnoc(s: string, c: char)
    ensures Encode(s + [c]) == Encode(s) + EncodeChar(c)
  {
    if s == [] {
      assert [c][1..] == "";
    } else {
      assert (s + [c])[1..] == s[1..] + [c];
      EncodeSnoc(s[1..], c);
    }
  }

  /** The inner loop: one triplet a byte, appended to the buffer. */
  method PushTriplets(before: string, buf: seq<Byte>) returns (out: string)
    ensures out == before + Triplets(buf)
  {
    out := before;
    for j := 0 to |buf|
      invariant out == before + Triplets(buf[..j])
    {
      assert buf[..j + 1] == buf[..j] + [buf[j]];
      TripletsSnoc(buf[..j], buf[j]);
      out := out + Triplet(buf[j]);
    }
    assert buf[..|buf|] == buf;
  }

  method UrlEncode(s: string) returns (out: string)
    ensures out == Encode(s)
  {
    out := "";
    for i := 0 to |s|
      invariant out == Encode(s[..i])
    {
      var ch := s[i];
      assert s[..i + 1] == s[..i] + [ch];
      EncodeSnoc(s[..i], ch);
      if Unreserved(ch) {
        out := out + [ch];
      } else {
        out := PushTriplets(out, Utf8Char(ch));
      }
    }
    assert s[..|s|] == s;
  }

  function HexValue(c: char): Option<int> {
    if '0' <= c <= '9' then Some(c as int - '0' as int)
    else if 'A' <= c <= 'F' then Some(c as int - 'A' as int + 10)
    else if 'a' <= c <= 'f' then Some(c as int - 'a' as int + 10)
    else None
  }

  /** A percent-decoder as section 2.1 describes it: hexadecimal digits of
      either case, and any other ASCII character standing for itself. */
  function PercentDecode(t: string): Option<seq<Byte>> {
    if t == "" then Some([])
    else if t[0] == '%' then
      if |t| < 3 then None
      else match (HexValue(t[1]), HexValue(t[2]), PercentDecode(t[3..]))
        case (Some(hi), Some(lo), Some(rest)) => Some([hi * 16 + lo] + rest)
        case _ => None
    else if t[0] as int >= 0x80 then None
    else match PercentDecode(t[1..])
      case Some(rest) => Some([t[0] as int] + rest)
      case None => None
  }

  function Decode(t: string): Option<string> {
    match PercentDecode(t)
    case Some(bs) => Utf8Decode(bs)
    case None => None
  }

  predicate CapitalHex(c: char) {
    '0' <= c <= '9' || 'A' <= c <= 'F'
  }

  /** Unreserved characters and triplets only; a triplet has capital digits and
      never hides an unreserved character. */
  predicate Canonical(t: string) {
    if t == "" then true
    else if t[0] == '%' then
      && |t| >= 3 && CapitalHex(t[1]) && CapitalHex(t[2])
      && (exists b: Byte :: t[..3] == Triplet(b) && (b >= 0x80 || !Unreserved(b as char)))
      && Canonical(t[3..])
    else Unreserved(t[0]) && Canonical(t[1..])
  }

  function EscapeByte(b: Byte): string {
    if b < 0x80 && Unreserved(b as char) then [b as char] else Triplet(b)
  }

  function Escape(bs: seq<Byte>): string {
    if bs == [] then "" else EscapeByte(bs[0]) + Escape(bs[1..])
  }

  lemma {:induction false} EscapeConcat(a: seq<Byte>, b: seq<Byte>)
    ensures Escape(a + b) == Escape(a) + Escape(b)
  {
    if a == [] {
      assert a + b == b;
    } else {
      assert (a + b)[1..] == a[1..] + b;
      EscapeConcat(a[1..], b);
    }
  }

  lemma {:induction false} EscapeIsTriplets(bs: seq<Byte>)
    requires forall b | b in bs :: b >= 0x80 || !Unreserved(b as char)
    ensures Escape(bs) == Triplets(bs)
  {
    if bs != [] {
      assert bs[0] in bs;
      assert forall b | b in bs[1..] :: b in bs;
      EscapeIsTriplets(bs[1..]);
    }
  }

  /** Encoding character by character is escaping the UTF-8 bytes one by one. */
  lemma {:induction false} EncodeIsEscapedUtf8(s: string)
    ensures Encode(s) == Escape(Utf8(s))
  {
    if s != [] {
      var head := Utf8Char(s[0]);
      EncodeIsEscapedUtf8(s[1..]);
      EscapeConcat(head, Utf8(s[1..]));
      if Unreserved(s[0]) {
        assert Escape(head) == EscapeByte(head[0]) + Escape(head[1..]);
      } else {
        EscapeIsTriplets(head);
      }
    }
  }

  lemma HexRoundTrip(b: Byte)
    ensures var t := Triplet(b);
      t[0] == '%' && HexValue(t[1]) == Some(b / 16) && HexValue(t[2]) == Some(b % 16) && b / 16 * 16 + b % 16 == b
  {
  }

  /** A triplet decodes to its byte and leaves the rest. */
  lemma TripletDecodes(b: Byte, rest: string)
    ensures PercentDecode(Triplet(b) + rest) ==
      match PercentDecode(rest) case Some(bs) => Some([b] + bs) case None => None
  {
    HexRoundTrip(b);
    var t := Triplet(b) + rest;
    assert t[3..] == rest && t[1] == Triplet(b)[1] && t[2] == Triplet(b)[2];
  }

  lemma {:induction false} EscapeDecodes(bs: seq<Byte>)
    ensures PercentDecode(Escape(bs)) == Some(bs) && Canonical(Escape(bs))
  {
    if bs != [] {
      EscapeDecodes(bs[1..]);
      var b, t := bs[0], Escape(bs);
      assert bs == [b] + bs[1..];
      if b < 0x80 && Unreserved(b as char) {
        assert t[1..] == Escape(bs[1..]);
      } else {
        TripletDecodes(b, Escape(bs[1..]));
        assert t[..3] == Triplet(b) && t[3..] == Escape(bs[1..]);
      }
    }
  }

  lemma {:induction false} CanonicalIsEscape(t: string, bs: seq<Byte>)
    requires Canonical(t) && PercentDecode(t) == Some(bs)
    ensures Escape(bs) == t
  {
    if t == "" {
    } else if t[0] == '%' {
      var b: Byte :| t[..3] == Triplet(b) && (b >= 0x80 || !Unreserved(b as char));
      assert t == Triplet(b) + t[3..];
      TripletDecodes(b, t[3..]);
      assert bs[0] == b;
      CanonicalIsEscape(t[3..], bs[1..]);
    } else {
      CanonicalIsEscape(t[1..], bs[1..]);
      assert t == [t[0]] + t[1..];
    }
  }

  /** Decoding what was encoded gives the text back, and the encoded form holds
      nothing but unreserved characters and capital triplets. */
  lemma EncodeRoundTrip(s: string)
    ensures Decode(Encode(s)) == Some(s)
    ensures Canonical(Encode(s))
  {
    EncodeIsEscapedUtf8(s);
    EscapeDecodes(Utf8(s));
    Utf8RoundTrip(s);
  }

  lemma EncodeInjective(a: string, b: string)
    requires Encode(a) == Encode(b)
    ensures a == b
  {
    EncodeRoundTrip(a);
    EncodeRoundTrip(b);
  }

  /** The encoder's range, exactly: canonical texts whose bytes are valid UTF-8;
      on each of them encoding undoes decoding. */
  lemma EncodeRange(t: string)
    ensures (exists s :: Encode(s) == t) <==> Canonical(t) && Decode(t).Some?
    ensures Canonical(t) && Decode(t).Some? ==> Encode(Decode(t).value) == t
  {
    if Canonical(t) && Decode(t).Some? {
      var bs, s := PercentDecode(t).value, Decode(t).value;
      CanonicalIsEscape(t, bs);
      Utf8DecodeUnique(bs, s);
      EncodeIsEscapedUtf8(s);
      assert Encode(s) == t;
    }
    if s :| Encode(s) == t {
      EncodeRoundTrip(s);
    }
  }

  // ---- What the output looks like ----

  /** The characters that need no escape, by section 2.3 of RFC 3986: ALPHA, DIGIT and
      four marks. */
  predicate AlphaDigitOrMark(c: char) {
    var n := c as int;
    0x41 <= n <= 0x5A || 0x61 <= n <= 0x7A || 0x30 <= n <= 0x39 || c in "-._~"
  }

  lemma UnreservedAre(c: char)
    ensures Unreserved(c) <==> AlphaDigitOrMark(c)
  {
  }

  lemma {:induction false} TripletsText(bs: seq<Byte>)
    ensures |Triplets(bs)| == 3 * |bs|
    ensures forall c | c in Triplets(bs) :: c == '%' || AlphaDigitOrMark(c)
  {
    if bs != [] {
      TripletsText(bs[1..]);
      UnreservedAre(HexDigit(bs[0] / 16));
      UnreservedAre(HexDigit(bs[0] % 16));
    }
  }

  /** The output holds nothing but percent signs and unreserved characters; a text comes
      out unchanged exactly when it has no other character in it. */
  lemma {:induction false} EncodeText(s: string)
    ensures forall c | c in Encode(s) :: c == '%' || AlphaDigitOrMark(c)
    ensures |Encode(s)| >= |s|
    ensures Encode(s) == s <==> forall c | c in s :: AlphaDigitOrMark(c)
  {
    if s != [] {
      UnreservedAre(s[0]);
      EncodeText(s[1..]);
      TripletsText(Utf8Char(s[0]));
      assert s == [s[0]] + s[1..];
      if Unreserved(s[0]) {
        assert Encode(s)[1..] == Encode(s[1..]);
      } else {
        assert s[0] in s && |Encode(s)| > |s|;
      }
    }
  }
}
