/**
 * The JavaScript string and array built-ins the tracker relies on, stated over
 * `string` (a sequence of Unicode scalar values): `String.prototype.trim`,
 * `toLowerCase`, `split`, `Array.prototype.indexOf`, the global `parseInt`
 * (called without a radix) and the decimal rendering of an integer in a
 * template literal.
 */
module JsText {
  import opened Common

  // ---------------------------------------------------------------- whitespace

  /** The WhiteSpace and LineTerminator code points of ECMAScript, which `trim` strips and `parseInt` skips. */
  predicate IsSpace(c: char) {
    || c == '\t' || c == '\n' || c == '\U{000B}' || c == '\U{000C}' || c == '\r'
    || c == ' ' || c == '\U{00A0}' || c == '\U{1680}'
    || ('\U{2000}' <= c <= '\U{200A}')
    || c == '\U{2028}' || c == '\U{2029}' || c == '\U{202F}' || c == '\U{205F}'
    || c == '\U{3000}' || c == '\U{FEFF}'
  }

  /** Drops leading whitespace: the result is the longest suffix of `s` that does not start with whitespace. */
  function TrimStart(s: string): (r: string)
    ensures |r| <= |s| && r == s[|s| - |r|..]
    ensures forall i :: 0 <= i < |s| - |r| ==> IsSpace(s[i])
    ensures r == [] || !IsSpace(r[0])
  {
    if s != [] && IsSpace(s[0]) then TrimStart(s[1..]) else s
  }

  /** Drops trailing whitespace: the result is the longest prefix of `s` that does not end with whitespace. */
  function TrimEnd(s: string): (r: string)
    ensures |r| <= |s| && r == s[..|r|]
    ensures forall i :: |r| <= i < |s| ==> IsSpace(s[i])
    ensures r == [] || !IsSpace(r[|r| - 1])
  {
    if s != [] && IsSpace(s[|s| - 1]) then TrimEnd(s[..|s| - 1]) else s
  }

  /** `String.prototype.trim`. */
  function Trim(s: string): string {
    TrimEnd(TrimStart(s))
  }

  /** Trimming ignores whitespace added on either side. */
  lemma {:induction false} TrimPadded(pre: string, s: string, post: string)
    requires forall i :: 0 <= i < |pre| ==> IsSpace(pre[i])
    requires forall i :: 0 <= i < |post| ==> IsSpace(post[i])
    ensures Trim(pre + s + post) == Trim(s)
  {
    TrimStartPadded(pre, s + post);
    assert pre + s + post == pre + (s + post);
    if TrimStart(s) == [] {
      TrimStartPadded(s, post);
      TrimStartPadded(post, []);
      assert post + [] == post;
    } else {
      TrimStartAppend(s, post);
      TrimEndPadded(TrimStart(s), post);
    }
  }

  lemma {:induction false} TrimStartPadded(pre: string, s: string)
    requires forall i :: 0 <= i < |pre| ==> IsSpace(pre[i])
    ensures TrimStart(pre + s) == TrimStart(s)
  {
    if pre != [] {
      assert (pre + s)[0] == pre[0];
      assert (pre + s)[1..] == pre[1..] + s;
      TrimStartPadded(pre[1..], s);
    } else {
      assert pre + s == s;
    }
  }

  /** Leading whitespace is dropped the same way whatever follows, unless `s` is all whitespace. */
  lemma {:induction false} TrimStartAppend(s: string, post: string)
    requires TrimStart(s) != []
    ensures TrimStart(s + post) == TrimStart(s) + post
  {
    assert (s + post)[0] == s[0];
    if IsSpace(s[0]) {
      assert (s + post)[1..] == s[1..] + post;
      TrimStartAppend(s[1..], post);
    }
  }

  lemma {:induction false} TrimEndPadded(s: string, post: string)
    requires forall i :: 0 <= i < |post| ==> IsSpace(post[i])
    ensures TrimEnd(s + post) == TrimEnd(s)
  {
    if post != [] {
      var p := post[..|post| - 1];
      assert (s + post)[..|s + post| - 1] == s + p;
      TrimEndPadded(s, p);
    } else {
      assert s + post == s;
    }
  }

  // ---------------------------------------------------------------- case

  /**
   * `toLowerCase` on A-Z and on U+00C0 to U+00DE except U+00D7, the
   * multiplication sign. Every other code point is kept, U+0178, U+212A and
   * U+212B included, although their lower case is a Latin-1 letter.
   */
  function LowerChar(c: char): (r: char)
    ensures 'A' <= c <= 'Z' ==> r as int == c as int + 32
    ensures !('A' <= c <= 'Z') && !('\U{00C0}' <= c <= '\U{00DE}') ==> r == c
    ensures !('A' <= r <= 'Z')
  {
    if 'A' <= c <= 'Z' || ('\U{00C0}' <= c <= '\U{00DE}' && c != '\U{00D7}') then
      (c as int + 32) as char
    else
      c
  }

  function ToLower(s: string): (r: string)
    ensures |r| == |s|
  {
    if s == [] then [] else [LowerChar(s[0])] + ToLower(s[1..])
  }

  /** Lower-casing works character by character. */
  lemma {:induction false} LowerAt(s: string)
    ensures forall i :: 0 <= i < |s| ==> ToLower(s)[i] == LowerChar(s[i])
  {
    if s != [] {
      LowerAt(s[1..]);
    }
  }

  lemma {:induction false} ToLowerIdempotent(s: string)
    ensures ToLower(ToLower(s)) == ToLower(s)
  {
    var l := ToLower(s);
    LowerAt(s);
    LowerAt(l);
    forall i | 0 <= i < |s|
      ensures ToLower(l)[i] == l[i]
    {
      var c := s[i];
      assert l[i] == LowerChar(c);
    }
  }

  // ---------------------------------------------------------------- indexOf

  /** `Array.prototype.indexOf`: the first position of `x` in `s`, or -1. */
  function IndexOf<T(==)>(s: seq<T>, x: T): (r: int)
    ensures -1 <= r < |s|
    ensures r == -1 <==> x !in s
    ensures 0 <= r ==> s[r] == x && x !in s[..r]
  {
    if s == [] then -1
    else if s[0] == x then 0
    else
      var k := IndexOf(s[1..], x);
      assert s[1..] == s[1..][..|s| - 1];
      if k == -1 then -1
      else
        assert s[..k + 1] == [s[0]] + s[1..][..k];
        k + 1
  }

  // ---------------------------------------------------------------- split

  /** `String.prototype.split` with a one-character separator: always at least one field. */
  function Split(s: string, sep: char): (r: seq<string>)
    ensures |r| >= 1
    ensures forall i :: 0 <= i < |r| ==> sep !in r[i]
    ensures Join(r, sep) == s
  {
    if s == [] then [[]]
    else
      var rest := Split(s[1..], sep);
      if s[0] == sep then [[]] + rest
      else [[s[0]] + rest[0]] + rest[1..]
  }

  /** The inverse of `Split`: the fields with `sep` between consecutive ones. */
  function Join(fields: seq<string>, sep: char): string
    requires |fields| >= 1
  {
    if |fields| == 1 then fields[0] else fields[0] + [sep] + Join(fields[1..], sep)
  }

  /** Splitting `a + sep + b` where `a` has no separator yields `a` and then the fields of `b`. */
  lemma {:induction false} SplitAfterField(a: string, b: string, sep: char)
    requires sep !in a
    ensures Split(a + [sep] + b, sep) == [a] + Split(b, sep)
  {
    if a == [] {
      assert (a + [sep] + b)[1..] == b;
    } else {
      assert (a + [sep] + b)[1..] == a[1..] + [sep] + b;
      SplitAfterField(a[1..], b, sep);
      assert [a[0]] + a[1..] == a;
    }
  }

  /** A string without the separator is a single field. */
  lemma {:induction false} SplitNoSeparator(s: string, sep: char)
    requires sep !in s
    ensures Split(s, sep) == [s]
  {
    if s != [] {
      SplitNoSeparator(s[1..], sep);
      assert [s[0]] + s[1..] == s;
    }
  }

  // ---------------------------------------------------------------- digits

  predicate IsDigit(c: char) {
    '0' <= c <= '9'
  }

  function DigitValue(c: char): (d: nat)
    requires IsDigit(c)
    ensures d < 10
  {
    c as int - '0' as int
  }

  function DigitChar(d: nat): (c: char)
    requires d < 10
    ensures IsDigit(c) && DigitValue(c) == d
  {
    ('0' as int + d) as char
  }

  predicate IsHexDigit(c: char) {
    IsDigit(c) || 'a' <= c <= 'f' || 'A' <= c <= 'F'
  }

  function HexDigitValue(c: char): (d: nat)
    requires IsHexDigit(c)
    ensures d < 16
  {
    if IsDigit(c) then DigitValue(c)
    else if 'a' <= c <= 'f' then c as int - 'a' as int + 10
    else c as int - 'A' as int + 10
  }

  /** The number of leading characters of `s` that satisfy the digit class (hexadecimal when `hex`). */
  function LeadingDigits(s: string, hex: bool): (n: nat)
    ensures n <= |s|
    ensures forall i :: 0 <= i < n ==> if hex then IsHexDigit(s[i]) else IsDigit(s[i])
    ensures n < |s| ==> !(if hex then IsHexDigit(s[n]) else IsDigit(s[n]))
  {
    if s != [] && (if hex then IsHexDigit(s[0]) else IsDigit(s[0])) then 1 + LeadingDigits(s[1..], hex)
    else 0
  }

  /** The value of a digit string, most significant digit first, in base 16 when `hex`, else base 10. */
  function DigitsValue(ds: string, hex: bool): (v: nat)
    requires forall i :: 0 <= i < |ds| ==> if hex then IsHexDigit(ds[i]) else IsDigit(ds[i])
  {
    if ds == [] then 0
    else
      var last := ds[|ds| - 1];
      DigitsValue(ds[..|ds| - 1], hex) * (if hex then 16 else 10)
        + (if hex then HexDigitValue(last) else DigitValue(last))
  }

  // ---------------------------------------------------------------- parseInt

  /**
   * The global `parseInt(s)` with no radix, with NaN as `None`: leading
   * whitespace is skipped, one optional sign is read, a `0x`/`0X` prefix
   * selects base 16, and the longest run of digits that follows is the value;
   * no digit at all is NaN.
   */
  function ParseInt(s: string): Option<int> {
    ParseSigned(TrimStart(s))
  }

  /** After the whitespace: one optional sign, then the digits. */
  function ParseSigned(t: string): Option<int> {
    var negative := t != [] && t[0] == '-';
    var unsigned := if t != [] && (t[0] == '-' || t[0] == '+') then t[1..] else t;
    var r := ParseUnsigned(unsigned);
    if r.None? then None else Some(if negative then -r.value else r.value)
  }

  /** The digits after the sign: a `0x`/`0X` prefix selects base 16; no digit at all is NaN. */
  function ParseUnsigned(unsigned: string): Option<int> {
    var hex := |unsigned| >= 2 && unsigned[0] == '0' && (unsigned[1] == 'x' || unsigned[1] == 'X');
    var body := if hex then unsigned[2..] else unsigned;
    var n := LeadingDigits(body, hex);
    if n == 0 then None else Some(DigitsValue(body[..n], hex) as int)
  }

  /** `parseInt(value) || 0`: NaN (and zero) become 0, any other value is kept. */
  function ParseIntOrZero(s: string): (n: int)
    ensures ParseInt(s).None? ==> n == 0
    ensures ParseInt(s).Some? ==> n == ParseInt(s).value
  {
    match ParseInt(s)
    case None => 0
    case Some(v) => v
  }

  /** Text whose first character is neither whitespace, a sign nor a digit is NaN. */
  lemma NoDigitIsNaN(s: string)
    requires s != [] && !IsSpace(s[0]) && !IsDigit(s[0]) && s[0] != '-' && s[0] != '+'
    ensures ParseInt(s).None?
  {
    assert TrimStart(s) == s;
    assert LeadingDigits(s, false) == 0;
  }

  /** The empty string is NaN. */
  lemma EmptyIsNaN()
    ensures ParseInt("").None?
  {
    assert TrimStart("") == "";
  }

  /** Text holding no decimal digit at all reads as 0, whatever whitespace, sign or letters it has. */
  lemma NonNumericIsZero(s: string)
    requires forall i :: 0 <= i < |s| ==> !IsDigit(s[i])
    ensures ParseIntOrZero(s) == 0
  {
    var t := TrimStart(s);
    forall i | 0 <= i < |t|
      ensures !IsDigit(t[i])
    {
      assert t[i] == s[|s| - |t| + i];
    }
    var unsigned := if t != [] && (t[0] == '-' || t[0] == '+') then t[1..] else t;
    assert unsigned == [] || !IsDigit(unsigned[0]);
    assert LeadingDigits(unsigned, false) == 0;
  }

  /** A run of decimal digits ended by a non-digit (or the end) is read whole. */
  lemma {:induction false} LeadingDigitsOf(ds: string, rest: string)
    requires forall i :: 0 <= i < |ds| ==> IsDigit(ds[i])
    requires rest == [] || !IsDigit(rest[0])
    ensures LeadingDigits(ds + rest, false) == |ds|
    decreases |ds|
  {
    if ds == [] {
      assert ds + rest == rest;
    } else {
      assert (ds + rest)[1..] == ds[1..] + rest;
      LeadingDigitsOf(ds[1..], rest);
    }
  }

  /**
   * Decimal digits, leading zeros allowed, then any text that does not start
   * with a digit: `parseInt` gives the digits' value and ignores the rest.
   * Only a lone `0` followed by `x` or `X` is excluded, since that opens a
   * hexadecimal literal.
   */
  lemma ParseIntDecimal(ds: string, rest: string)
    requires |ds| >= 1 && !(ds == "0" && rest != [] && (rest[0] == 'x' || rest[0] == 'X'))
    requires forall i :: 0 <= i < |ds| ==> IsDigit(ds[i])
    requires rest == [] || !IsDigit(rest[0])
    ensures ParseInt(ds + rest).Some?
    ensures ParseInt(ds + rest).value == DigitsValue(ds, false)
  {
    var u := ds + rest;
    assert u[0] == ds[0];
    DigitIsNotSpace(ds[0]);
    AlreadyTrimmed(u);
    UnsignedDecimal(ds, rest);
    SignedPlain(u);
  }

  /** The same after a minus sign: the value is negated. */
  lemma ParseIntNegativeDecimal(ds: string, rest: string)
    requires |ds| >= 1 && !(ds == "0" && rest != [] && (rest[0] == 'x' || rest[0] == 'X'))
    requires forall i :: 0 <= i < |ds| ==> IsDigit(ds[i])
    requires rest == [] || !IsDigit(rest[0])
    ensures ParseInt("-" + (ds + rest)).Some?
    ensures ParseInt("-" + (ds + rest)).value == -(DigitsValue(ds, false) as int)
  {
    var u := ds + rest;
    AlreadyTrimmed("-" + u);
    UnsignedDecimal(ds, rest);
    SignedMinus(u);
  }

  lemma AlreadyTrimmed(s: string)
    requires s != [] && !IsSpace(s[0])
    ensures TrimStart(s) == s
  {
  }

  lemma SignedPlain(u: string)
    requires u != [] && u[0] != '-' && u[0] != '+'
    ensures ParseSigned(u) == ParseUnsigned(u)
  {
  }

  lemma SignedMinus(u: string)
    requires ParseUnsigned(u).Some?
    ensures ParseSigned("-" + u).Some? && ParseSigned("-" + u).value == -ParseUnsigned(u).value
  {
    assert ("-" + u)[1..] == u;
  }

  lemma DigitIsNotSpace(c: char)
    requires IsDigit(c)
    ensures !IsSpace(c) && c != '-' && c != '+'
  {
  }

  lemma UnsignedDecimal(ds: string, rest: string)
    requires |ds| >= 1 && !(ds == "0" && rest != [] && (rest[0] == 'x' || rest[0] == 'X'))
    requires forall i :: 0 <= i < |ds| ==> IsDigit(ds[i])
    requires rest == [] || !IsDigit(rest[0])
    ensures ParseUnsigned(ds + rest).Some?
    ensures ParseUnsigned(ds + rest).value == DigitsValue(ds, false)
  {
    var u := ds + rest;
    assert u[0] == ds[0];
    if |ds| >= 2 {
      assert u[1] == ds[1];
    } else if rest != [] {
      assert u[1] == rest[0];
    }
    LeadingDigitsOf(ds, rest);
    assert u[..|ds|] == ds;
  }

  /** Digits followed by other text read as the digits: `"12"` followed by anything but a digit is 12. */
  lemma TrailingTextIgnored(rest: string)
    requires rest == [] || !IsDigit(rest[0])
    ensures ParseIntOrZero("12" + rest) == 12
  {
    ParseIntDecimal("12", rest);
    DigitsTwelve();
  }

  lemma DigitsTwelve()
    ensures DigitsValue("12", false) == 12
  {
    assert "12"[..1] == "1" && "1"[..0] == "";
  }

  /** A minus sign is kept: the input is not clamped to zero. */
  lemma NegativeKept()
    ensures ParseIntOrZero("-3") == -3
  {
    ParseIntNegativeDecimal("3", "");
    assert "-" + ("3" + "") == "-3";
    assert "3"[..0] == "";
    assert DigitsValue("3", false) == 3;
  }

  // ---------------------------------------------------------------- rendering

  /** Decimal digits of `n` without leading zeros, as `String(n)` renders a non-negative integer. */
  function NatToString(n: nat): (r: string)
    ensures |r| >= 1
    ensures forall i :: 0 <= i < |r| ==> IsDigit(r[i])
    ensures r[0] == '0' ==> n == 0
    ensures DigitsValue(r, false) == n
  {
    if n < 10 then [DigitChar(n)]
    else
      var r := NatToString(n / 10) + [DigitChar(n % 10)];
      assert r[..|r| - 1] == NatToString(n / 10);
      r
  }

  /** `String(n)` for an integer: a minus sign before the digits of `|n|` when `n` is negative. */
  function IntToString(n: int): (r: string)
    ensures n >= 0 ==> r == NatToString(n)
    ensures n < 0 ==> r == "-" + NatToString(-n)
  {
    if n < 0 then "-" + NatToString(-n) else NatToString(n)
  }

  /** Typing the decimal text of any integer, negative ones included, stores that integer. */
  lemma ParseIntOrZeroOfIntToString(n: int)
    ensures ParseIntOrZero(IntToString(n)) == n
  {
    ParseIntOfIntToString(n);
  }

  /** `parseInt(String(n)) === n`: rendering an integer and reading it back is the identity. */
  lemma {:induction false} ParseIntOfIntToString(n: int)
    ensures ParseInt(IntToString(n)) == Some(n)
  {
    var s := IntToString(n);
    var d := NatToString(if n < 0 then -n else n);
    assert !IsSpace(s[0]);
    assert TrimStart(s) == s;
    var unsigned := if n < 0 then s[1..] else s;
    assert unsigned == d;
    assert |d| >= 2 ==> d[0] != '0';
    AllDigitsLeading(d);
    assert d[..|d|] == d;
  }

  lemma {:induction false} AllDigitsLeading(d: string)
    requires forall i :: 0 <= i < |d| ==> IsDigit(d[i])
    ensures LeadingDigits(d, false) == |d|
  {
    if d != [] {
      AllDigitsLeading(d[1..]);
    }
  }
}
