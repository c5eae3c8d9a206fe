/** The JavaScript string operations the block scripts lean on: `trim`,
    `startsWith`, `indexOf`, number-to-string conversion and `parseInt(s, 10)`.
    Strings are sequences of Unicode scalar values. */
module JsText {
  import opened Wrappers

  /** The characters ECMAScript's `trim` and `\s` treat as white space:
      WhiteSpace and LineTerminator code points. */
  predicate IsWhite(c: char) {
    var n := c as int;
    (9 <= n <= 13) || n == 0x20 || n == 0xA0 || n == 0x1680 || (0x2000 <= n <= 0x200A)
    || n == 0x2028 || n == 0x2029 || n == 0x202F || n == 0x205F || n == 0x3000 || n == 0xFEFF
  }

  /** `String.prototype.trimStart` */
  function TrimStart(s: string): (r: string)
    ensures |r| <= |s| && r == s[|s| - |r|..]
    ensures r == [] || !IsWhite(r[0])
    ensures forall i :: 0 <= i < |s| - |r| ==> IsWhite(s[i])
  {
    if s != [] && IsWhite(s[0]) then TrimStart(s[1..]) else s
  }

  /** `String.prototype.trimEnd` */
  function TrimEnd(s: string): (r: string)
    ensures |r| <= |s| && r == s[..|r|]
    ensures r == [] || !IsWhite(r[|r| - 1])
    ensures forall i :: |r| <= i < |s| ==> IsWhite(s[i])
  {
    if s != [] && IsWhite(s[|s| - 1]) then TrimEnd(s[..|s| - 1]) else s
  }

  /** Number of white-space characters at the start of `s`. */
  function LeadingWhite(s: string): (k: nat)
    ensures k <= |s| && (forall i :: 0 <= i < k ==> IsWhite(s[i]))
    ensures k == |s| || !IsWhite(s[k])
  {
    if s != [] && IsWhite(s[0]) then 1 + LeadingWhite(s[1..]) else 0
  }

  /** `String.prototype.trim`: the result is the stretch of `s` after its leading
      white space that neither starts nor ends with white space, and only white
      space follows it. */
  function Trim(s: string): (r: string)
    ensures r == [] || (!IsWhite(r[0]) && !IsWhite(r[|r| - 1]))
    ensures LeadingWhite(s) + |r| <= |s|
    ensures r == s[LeadingWhite(s)..LeadingWhite(s) + |r|]
    ensures forall i :: LeadingWhite(s) + |r| <= i < |s| ==> IsWhite(s[i])
  {
    var k := LeadingWhite(s);
    TrimEnd(s[k..])
  }

  /** `String.prototype.startsWith` */
  predicate StartsWith(s: string, prefix: string) {
    |prefix| <= |s| && s[..|prefix|] == prefix
  }

  /** `pat` occurs in `s` at position `i`. */
  predicate OccursAt(s: string, pat: string, i: int) {
    0 <= i && i + |pat| <= |s| && s[i..i + |pat|] == pat
  }

  predicate Contains(s: string, pat: string) {
    exists i :: 0 <= i <= |s| - |pat| && OccursAt(s, pat, i)
  }

  /** `s.indexOf(pat, from)`: the first occurrence at or after `from`. */
  function IndexFrom(s: string, pat: string, from: nat): (r: Option<nat>)
    requires from <= |s|
    ensures r.Some? ==> from <= r.value && OccursAt(s, pat, r.value)
    ensures r.Some? ==> forall j :: from <= j < r.value ==> !OccursAt(s, pat, j)
    ensures r.None? ==> forall j :: from <= j <= |s| - |pat| ==> !OccursAt(s, pat, j)
    decreases |s| - from
  {
    if from + |pat| > |s| then None
    else if s[from..from + |pat|] == pat then Some(from)
    else IndexFrom(s, pat, from + 1)
  }

  /** `s.indexOf(pat)`, with `None` for -1. */
  function IndexOf(s: string, pat: string): (r: Option<nat>)
    ensures r.Some? <==> Contains(s, pat)
    ensures r.Some? ==> OccursAt(s, pat, r.value)
    ensures r.Some? ==> forall j :: 0 <= j < r.value ==> !OccursAt(s, pat, j)
  {
    IndexFrom(s, pat, 0)
  }

  /** A string that starts with `pat` has its first occurrence at 0. */
  lemma IndexOfPrefix(s: string, pat: string)
    requires StartsWith(s, pat)
    ensures IndexOf(s, pat) == Some(0)
  {
    assert OccursAt(s, pat, 0);
  }

  predicate IsDigit(c: char) {
    '0' <= c <= '9'
  }

  function DigitChar(d: nat): (c: char)
    requires d < 10
    ensures IsDigit(c) && c as int - '0' as int == d
  {
    ('0' as int + d) as char
  }

  /** The decimal digits of a natural number, as `String(n)` writes them. */
  function NatDecimal(n: nat): (r: string)
    ensures |r| >= 1 && forall i :: 0 <= i < |r| ==> IsDigit(r[i])
    ensures (|r| == 1) == (n < 10)
  {
    if n < 10 then [DigitChar(n)] else NatDecimal(n / 10) + [DigitChar(n % 10)]
  }

  /** `String(n)` for an integer that JavaScript prints without an exponent. */
  function Decimal(n: int): (r: string)
    ensures r != [] && (IsDigit(r[0]) || r[0] == '-')
  {
    if n < 0 then "-" + NatDecimal(-n) else NatDecimal(n)
  }

  /** `String(n).padStart(2, '0')`. */
  function Pad2(n: int): (r: string)
    ensures |r| >= 2
    ensures 0 <= n < 10 ==> r == ['0', DigitChar(n)]
    ensures n >= 10 ==> r == NatDecimal(n)
  {
    var d := Decimal(n);
    if |d| < 2 then "0" + d else d
  }

  /** Length of the longest prefix of `s` made of decimal digits. */
  function DigitRun(s: string): (k: nat)
    ensures k <= |s|
    ensures forall i :: 0 <= i < k ==> IsDigit(s[i])
    ensures k == |s| || !IsDigit(s[k])
  {
    if s != [] && IsDigit(s[0]) then 1 + DigitRun(s[1..]) else 0
  }

  /** The value of a string of decimal digits. */
  function DigitsValue(ds: string): nat
    requires forall i :: 0 <= i < |ds| ==> IsDigit(ds[i])
  {
    if ds == [] then 0
    else DigitsValue(ds[..|ds| - 1]) * 10 + DigitValue(ds[|ds| - 1])
  }

  function DigitValue(c: char): nat
    requires IsDigit(c)
  {
    c as int - '0' as int
  }

  /** What `parseInt` reads digits from: `t` without its sign, if it has one. */
  function Unsigned(t: string): string {
    if t != [] && (t[0] == '+' || t[0] == '-') then t[1..] else t
  }

  /** What `parseInt` reads once the leading white space is gone: an optional
      sign, then the longest run of digits. */
  function ParseSigned(t: string): (r: Option<int>)
    ensures r.None? <==> (var u := Unsigned(t); u == [] || !IsDigit(u[0]))
    ensures r.Some? ==> t != [] && (r.value < 0 ==> t[0] == '-')
    ensures r.Some? && t[0] != '-' ==> r.value >= 0
  {
    var u := Unsigned(t);
    var k := DigitRun(u);
    if k == 0 then None
    else if t[0] == '-' then Some(0 - DigitsValue(u[..k]) as int)
    else Some(DigitsValue(u[..k]))
  }

  /** `parseInt(s, 10)`: leading white space, an optional sign, then the longest
      run of digits; `None` stands for `NaN` (no digit after the sign). */
  function ParseInt(s: string): (r: Option<int>)
    ensures r.None? <==> (var u := Unsigned(TrimStart(s)); u == [] || !IsDigit(u[0]))
    ensures r.Some? ==> TrimStart(s) != [] && (r.value < 0 ==> TrimStart(s)[0] == '-')
    ensures r.Some? && TrimStart(s)[0] != '-' ==> r.value >= 0
  {
    ParseSigned(TrimStart(s))
  }

  lemma {:induction false} NatDecimalValue(n: nat)
    ensures DigitsValue(NatDecimal(n)) == n
  {
    if n >= 10 {
      NatDecimalValue(n / 10);
      var r := NatDecimal(n);
      assert r[..|r| - 1] == NatDecimal(n / 10);
    }
  }

  /** `parseInt` reads back what `String` writes: the two are inverse on integers. */
  lemma ParseIntDecimal(n: int)
    ensures ParseInt(Decimal(n)) == Some(n)
  {
    var m: nat := if n < 0 then -n else n;
    var u := NatDecimal(m);
    var d := Decimal(n);
    assert !IsWhite(d[0]);
    assert TrimStart(d) == d;
    if n < 0 {
      assert d == "-" + u;
      assert d[1..] == u;
    } else {
      assert d == u && d[0] != '-' && d[0] != '+';
    }
    assert Unsigned(d) == u;
    DigitRunAll(u);
    assert u[..|u|] == u;
    NatDecimalValue(m);
  }

  lemma DigitRunAll(s: string)
    requires forall i :: 0 <= i < |s| ==> IsDigit(s[i])
    ensures DigitRun(s) == |s|
  {
  }

  lemma {:induction false} DigitRunStops(u: string, t: string)
    requires forall i :: 0 <= i < |u| ==> IsDigit(u[i])
    requires t == [] || !IsDigit(t[0])
    ensures DigitRun(u + t) == |u|
  {
    if u == [] {
      assert u + t == t;
    } else {
      assert (u + t)[0] == u[0];
      assert (u + t)[1..] == u[1..] + t;
      DigitRunStops(u[1..], t);
    }
  }

  lemma {:induction false} TrimStartSkips(w: string, s: string)
    requires forall i :: 0 <= i < |w| ==> IsWhite(w[i])
    ensures TrimStart(w + s) == TrimStart(s)
  {
    if w == [] {
      assert w + s == s;
    } else {
      assert (w + s)[0] == w[0];
      assert (w + s)[1..] == w[1..] + s;
      TrimStartSkips(w[1..], s);
    }
  }

  /** `parseInt` skips leading white space. */
  lemma ParseIntSkipsWhite(w: string, s: string)
    requires forall i :: 0 <= i < |w| ==> IsWhite(w[i])
    ensures ParseInt(w + s) == ParseInt(s)
  {
    TrimStartSkips(w, s);
  }

  /** The signless reading of a digit run followed by a non-digit. */
  lemma ParseDigitsThen(u: string, t: string)
    requires u != [] && forall i :: 0 <= i < |u| ==> IsDigit(u[i])
    requires t == [] || !IsDigit(t[0])
    ensures ParseSigned(u + t) == Some(DigitsValue(u))
  {
    var v := u + t;
    DigitRunStops(u, t);
    assert v[..|u|] == u;
    assert v[0] == u[0];
    assert Unsigned(v) == v;
  }

  /** A `-` before a digit negates what follows. */
  lemma ParseMinus(v: string)
    requires v != [] && IsDigit(v[0])
    ensures ParseSigned(v).Some? && ParseSigned(['-'] + v) == Some(0 - ParseSigned(v).value)
  {
    var m := ['-'] + v;
    assert m[1..] == v;
    assert Unsigned(m) == v;
    assert Unsigned(v) == v;
  }

  lemma ParseIntUnpadded(d: string)
    requires d != [] && !IsWhite(d[0])
    ensures ParseInt(d) == ParseSigned(d)
  {
    assert TrimStart(d) == d;
  }

  /** `parseInt` stops at the first character that is not a digit: a run of
      digits followed by anything else, such as `"12px"`, reads as the run's
      value. */
  lemma ParseIntStopsAtNonDigit(u: string, t: string)
    requires u != [] && forall i :: 0 <= i < |u| ==> IsDigit(u[i])
    requires t == [] || !IsDigit(t[0])
    ensures ParseInt(u + t) == Some(DigitsValue(u))
  {
    ParseDigitsThen(u, t);
    assert (u + t)[0] == u[0];
    ParseIntUnpadded(u + t);
  }

  /** A `-` in front of a digit negates what `parseInt` reads. */
  lemma ParseIntMinus(v: string)
    requires v != [] && IsDigit(v[0])
    ensures ParseSigned(v).Some? && ParseInt(['-'] + v) == Some(0 - ParseSigned(v).value)
  {
    ParseMinus(v);
    ParseIntUnpadded(['-'] + v);
  }
}
