/** `encodeURIComponent` and `decodeURIComponent` as ECMAScript defines them:
    characters outside the unreserved set are written as the `%XY` escapes of
    their UTF-8 bytes, and decoding reads such escapes back, failing (the
    `URIError` the engine throws) on a malformed escape or an invalid UTF-8
    sequence. Characters are Unicode scalar values, so the lone surrogates on
    which `encodeURIComponent` throws do not arise. */
module UriCodec {
  import opened Wrappers

  /** The characters `encodeURIComponent` leaves alone. */
  predicate IsUnreserved(c: char) {
    ('A' <= c <= 'Z') || ('a' <= c <= 'z') || ('0' <= c <= '9')
    || c == '-' || c == '_' || c == '.' || c == '!' || c == '~' || c == '*'
    || c == '\'' || c == '(' || c == ')'
  }

  predicate IsByte(b: int) {
    0 <= b < 256
  }

  predicate IsScalar(v: int) {
    (0 <= v < 0xD800) || (0xE000 <= v < 0x110000)
  }

  /** The UTF-8 encoding of one character. */
  function Utf8(c: char): (bs: seq<int>)
    ensures 1 <= |bs| <= 4 && forall i :: 0 <= i < |bs| ==> IsByte(bs[i])
    ensures (|bs| == 1) == (c as int < 0x80)
  {
    var v := c as int;
    if v < 0x80 then [v]
    else if v < 0x800 then [0xC0 + v / 64, 0x80 + v % 64]
    else if v < 0x10000 then [0xE0 + v / 4096, 0x80 + (v / 64) % 64, 0x80 + v % 64]
    else [0xF0 + v / 262144, 0x80 + (v / 4096) % 64, 0x80 + (v / 64) % 64, 0x80 + v % 64]
  }

  function HexDigit(d: nat): (c: char)
    requires d < 16
    ensures IsHex(c) && HexValue(c) == d
  {
    "0123456789ABCDEF"[d]
  }

  predicate IsHex(c: char) {
    ('0' <= c <= '9') || ('A' <= c <= 'F') || ('a' <= c <= 'f')
  }

  function HexValue(c: char): (d: nat)
    requires IsHex(c)
    ensures d < 16
  {
    if '0' <= c <= '9' then c as int - '0' as int
    else if 'A' <= c <= 'F' then c as int - 'A' as int + 10
    else c as int - 'a' as int + 10
  }

  /** `%XY` with upper-case hexadecimal digits, as `encodeURIComponent` writes. */
  function Escape(b: int): (r: string)
    requires IsByte(b)
    ensures |r| == 3 && r[0] == '%' && IsHex(r[1]) && IsHex(r[2])
    ensures 16 * HexValue(r[1]) + HexValue(r[2]) == b
  {
    ['%', HexDigit(b / 16), HexDigit(b % 16)]
  }

  function Escapes(bs: seq<int>): (r: string)
    requires forall i :: 0 <= i < |bs| ==> IsByte(bs[i])
    ensures |r| == 3 * |bs|
  {
    if bs == [] then [] else Escape(bs[0]) + Escapes(bs[1..])
  }

  function EncodeChar(c: char): string {
    if IsUnreserved(c) then [c] else Escapes(Utf8(c))
  }

  /** `encodeURIComponent(s)` */
  function Encode(s: string): (r: string)
    ensures |r| >= |s|
    ensures (forall i :: 0 <= i < |s| ==> IsUnreserved(s[i])) ==> r == s
  {
    if s == [] then [] else EncodeChar(s[0]) + Encode(s[1..])
  }

  /** The byte written by the escape at the start of `s`, if there is a well-formed one. */
  function EscapedByte(s: string): (r: Option<int>)
    ensures r.Some? ==> IsByte(r.value) && |s| >= 3
  {
    if 3 <= |s| && s[0] == '%' && IsHex(s[1]) && IsHex(s[2])
    then Some(16 * HexValue(s[1]) + HexValue(s[2]))
    else None
  }

  /** The bytes of `count` consecutive escapes at the start of `s`. */
  function EscapedBytes(s: string, count: nat): (r: Option<seq<int>>)
    ensures r.Some? ==> |r.value| == count && forall j :: 0 <= j < count ==> IsByte(r.value[j])
    decreases count
  {
    if count == 0 then Some([])
    else match EscapedByte(s)
      case None => None
      case Some(b) =>
        match EscapedBytes(s[3..], count - 1)
        case None => None
        case Some(rest) => Some([b] + rest)
  }

  /** The number of leading one bits of a byte, capped at 5. */
  function LeadingOnes(b: int): nat
    requires IsByte(b)
  {
    if b < 0x80 then 0 else if b < 0xC0 then 1 else if b < 0xE0 then 2
    else if b < 0xF0 then 3 else if b < 0xF8 then 4 else 5
  }

  predicate IsContinuation(b: int) {
    0x80 <= b < 0xC0
  }

  /** The code point a multi-byte UTF-8 sequence encodes, if it is a valid
      encoding (no overlong form, no surrogate, nothing past U+10FFFF). */
  function Utf8Value(bs: seq<int>): (r: Option<int>)
    requires 2 <= |bs| <= 4 && IsByte(bs[0]) && LeadingOnes(bs[0]) == |bs|
    ensures r.Some? ==> IsScalar(r.value) && r.value >= 0x80
  {
    if exists j :: 1 <= j < |bs| && !IsContinuation(bs[j]) then None
    else if |bs| == 2 then
      var v := (bs[0] - 0xC0) * 64 + (bs[1] - 0x80);
      if v < 0x80 then None else Some(v)
    else if |bs| == 3 then
      var v := (bs[0] - 0xE0) * 4096 + (bs[1] - 0x80) * 64 + (bs[2] - 0x80);
      if v < 0x800 || (0xD800 <= v < 0xE000) then None else Some(v)
    else
      var v := (bs[0] - 0xF0) * 262144 + (bs[1] - 0x80) * 4096 + (bs[2] - 0x80) * 64 + (bs[3] - 0x80);
      if v < 0x10000 || v >= 0x110000 then None else Some(v)
  }

  function Cons(c: char, rest: Option<string>): Option<string> {
    match rest
    case None => None
    case Some(t) => Some([c] + t)
  }

  /** `decodeURIComponent(s)`, with `None` for the `URIError` thrown on a
      truncated or non-hexadecimal escape or on invalid UTF-8. */
  function Decode(s: string): (r: Option<string>)
    ensures r.Some? ==> |r.value| <= |s|
    decreases |s|
  {
    if s == [] then Some([])
    else if s[0] != '%' then Cons(s[0], Decode(s[1..]))
    else match EscapedByte(s)
      case None => None
      case Some(b0) =>
        var n := LeadingOnes(b0);
        if n == 0 then Cons(b0 as char, Decode(s[3..]))
        else if n == 1 || n > 4 || |s| < 3 * n then None
        else match EscapedBytes(s[3..], n - 1)
          case None => None
          case Some(more) =>
            match Utf8Value([b0] + more)
            case None => None
            case Some(v) => Cons(v as char, Decode(s[3 * n..]))
  }

  /** `/%[0-9A-Fa-f]{2}/.test(s)` */
  predicate HasEscape(s: string) {
    exists i :: 0 <= i < |s| - 2 && s[i] == '%' && IsHex(s[i + 1]) && IsHex(s[i + 2])
  }

  // ---------------------------------------------------------------------------
  // Decoding undoes encoding.

  lemma Utf8Lead(c: char)
    ensures var bs := Utf8(c);
      LeadingOnes(bs[0]) == (if |bs| == 1 then 0 else |bs|)
      && (|bs| == 1 ==> bs[0] == c as int)
  {
  }

  lemma Utf8RoundTrip(c: char)
    requires |Utf8(c)| >= 2
    ensures LeadingOnes(Utf8(c)[0]) == |Utf8(c)|
    ensures Utf8Value(Utf8(c)) == Some(c as int)
  {
    var v := c as int;
    var bs := Utf8(c);
    assert forall j :: 1 <= j < |bs| ==> IsContinuation(bs[j]);
    if v < 0x800 {
      assert v == (v / 64) * 64 + v % 64;
    } else if v < 0x10000 {
      var q := v / 64;
      assert v == q * 64 + v % 64;
      assert q == (q / 64) * 64 + q % 64;
      assert q / 64 == v / 4096;
    } else {
      var q := v / 64;
      var q2 := q / 64;
      assert v == q * 64 + v % 64;
      assert q == q2 * 64 + q % 64;
      assert q2 == (q2 / 64) * 64 + q2 % 64;
      assert q2 == v / 4096;
      assert q2 / 64 == v / 262144;
    }
  }

  lemma EscapedByteOf(b: int, rest: string)
    requires IsByte(b)
    ensures EscapedByte(Escape(b) + rest) == Some(b)
    ensures (Escape(b) + rest)[3..] == rest
  {
    var s := Escape(b) + rest;
    assert s[0] == '%' && s[1] == Escape(b)[1] && s[2] == Escape(b)[2];
  }

  /** One well-formed escape followed by `n` more is `n + 1` escaped bytes. */
  lemma EscapedBytesCons(s: string, n: nat)
    requires EscapedByte(s).Some? && EscapedBytes(s[3..], n).Some?
    ensures EscapedBytes(s, n + 1) == Some([EscapedByte(s).value] + EscapedBytes(s[3..], n).value)
  {
  }

  lemma {:induction false} EscapedBytesOf(bs: seq<int>, rest: string)
    requires forall i :: 0 <= i < |bs| ==> IsByte(bs[i])
    ensures EscapedBytes(Escapes(bs) + rest, |bs|) == Some(bs)
  {
    if bs != [] {
      var e := Escape(bs[0]);
      var t := Escapes(bs[1..]) + rest;
      assert Escapes(bs) == e + Escapes(bs[1..]);
      assert Escapes(bs) + rest == e + t;
      EscapedByteOf(bs[0], t);
      EscapedBytesOf(bs[1..], rest);
      EscapedBytesCons(e + t, |bs| - 1);
      assert [bs[0]] + bs[1..] == bs;
    }
  }

  /** An escaped ASCII character decodes in one step. */
  lemma DecodeEscapedAscii(c: char, rest: string)
    requires |Utf8(c)| == 1
    ensures Decode(Escapes(Utf8(c)) + rest) == Cons(c, Decode(rest))
  {
    var bs := Utf8(c);
    Utf8Lead(c);
    assert Escapes(bs) == Escape(bs[0]);
    var s := Escape(bs[0]) + rest;
    EscapedByteOf(bs[0], rest);
    assert s[0] == '%' && LeadingOnes(bs[0]) == 0;
  }

  /** The escapes of a multi-byte character decode in one step. */
  lemma DecodeEscapedMulti(c: char, rest: string)
    requires |Utf8(c)| >= 2
    ensures Decode(Escapes(Utf8(c)) + rest) == Cons(c, Decode(rest))
  {
    var bs := Utf8(c);
    var n := |bs|;
    var tail := Escapes(bs[1..]) + rest;
    var s := Escape(bs[0]) + tail;
    assert Escapes(bs) + rest == s;
    EscapedByteOf(bs[0], tail);
    Utf8RoundTrip(c);
    EscapedBytesOf(bs[1..], rest);
    assert s[3..] == tail;
    assert [bs[0]] + bs[1..] == bs;
    assert s[3 * n..] == rest;
    assert s[0] == '%' && EscapedByte(s) == Some(bs[0]) && LeadingOnes(bs[0]) == n;
    assert EscapedBytes(s[3..], n - 1) == Some(bs[1..]);
  }

  lemma DecodeEncodeChar(c: char, rest: string)
    ensures Decode(EncodeChar(c) + rest) == Cons(c, Decode(rest))
  {
    if IsUnreserved(c) {
      var s := [c] + rest;
      assert s[0] == c && s[1..] == rest;
    } else if |Utf8(c)| == 1 {
      DecodeEscapedAscii(c, rest);
    } else {
      DecodeEscapedMulti(c, rest);
    }
  }

  /** `decodeURIComponent(encodeURIComponent(s)) === s` */
  lemma {:induction false} DecodeEncode(s: string)
    ensures Decode(Encode(s)) == Some(s)
  {
    if s != [] {
      DecodeEncode(s[1..]);
      DecodeEncodeChar(s[0], Encode(s[1..]));
      assert [s[0]] + s[1..] == s;
    }
  }

  /** A string without `%` decodes to itself. */
  lemma {:induction false} DecodePlain(s: string)
    requires forall i :: 0 <= i < |s| ==> s[i] != '%'
    ensures Decode(s) == Some(s)
  {
    if s != [] {
      DecodePlain(s[1..]);
      assert [s[0]] + s[1..] == s;
    }
  }

  /** The output of `encodeURIComponent` holds only unreserved characters, `%`
      and hexadecimal digits; in particular it holds no `/`. */
  lemma {:induction false} EncodeIsEscaped(s: string)
    ensures forall i :: 0 <= i < |Encode(s)| ==> IsUnreserved(Encode(s)[i]) || Encode(s)[i] == '%' || IsHex(Encode(s)[i])
  {
    if s != [] {
      EncodeIsEscaped(s[1..]);
      EscapesAlphabet(Utf8(s[0]));
      var e := Encode(s);
      assert e == EncodeChar(s[0]) + Encode(s[1..]);
    }
  }
  /** An encoded string can stand as one path segment: it holds no `/`. */
  lemma EncodeHasNoSlash(s: string)
    ensures forall i :: 0 <= i < |Encode(s)| ==> Encode(s)[i] != '/'
  {
    EncodeIsEscaped(s);
  }

  lemma {:induction false} EscapesAlphabet(bs: seq<int>)
    requires forall i :: 0 <= i < |bs| ==> IsByte(bs[i])
    ensures forall i :: 0 <= i < |Escapes(bs)| ==> Escapes(bs)[i] == '%' || IsHex(Escapes(bs)[i])
  {
    if bs != [] {
      EscapesAlphabet(bs[1..]);
    }
  }
}
