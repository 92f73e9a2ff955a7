/** The pieces of JavaScript's string handling the application relies on:
    `String.prototype.trim`, `Number.prototype.toString` on integers and the
    global `parseInt` without a radix. */
module Text {
  import opened Wrappers

  /** ECMAScript's WhiteSpace and LineTerminator characters, the set `trim`
      removes and `parseInt` skips. */
  predicate IsSpace(c: char) {
    || c == '\t' || c == '\n' || c == '\U{000B}' || c == '\U{000C}' || c == '\r'
    || c == ' ' || c == '\U{00A0}' || c == '\U{1680}'
    || ('\U{2000}' <= c <= '\U{200A}')
    || c == '\U{2028}' || c == '\U{2029}' || c == '\U{202F}' || c == '\U{205F}'
    || c == '\U{3000}' || c == '\U{FEFF}'
  }

  /** Every character of `s` is white space (vacuously true of ""). */
  predicate IsBlank(s: string) {
    forall i | 0 <= i < |s| :: IsSpace(s[i])
  }

  /** `s.trimStart()`: the suffix of `s` left after dropping leading white space. */
  function TrimStart(s: string): (r: string)
    ensures |r| <= |s| && r == s[|s| - |r|..]
    ensures forall i | 0 <= i < |s| - |r| :: IsSpace(s[i])
    ensures r == [] || !IsSpace(r[0])
  {
    if |s| > 0 && IsSpace(s[0]) then
      var r := TrimStart(s[1..]);
      assert s[1..][|s| - 1 - |r|..] == s[|s| - |r|..];
      r
    else s
  }

  /** `s.trimEnd()`: the prefix of `s` left after dropping trailing white space. */
  function TrimEnd(s: string): (r: string)
    ensures |r| <= |s| && r == s[..|r|]
    ensures forall i | |r| <= i < |s| :: IsSpace(s[i])
    ensures r == [] || !IsSpace(r[|r| - 1])
  {
    if |s| > 0 && IsSpace(s[|s| - 1]) then
      var r := TrimEnd(s[..|s| - 1]);
      assert s[..|s| - 1][..|r|] == s[..|r|];
      r
    else s
  }

  /** `s.trim()`: the text without its leading and trailing white space, so
      that it neither starts nor ends with white space. */
  function Trim(s: string): (r: string)
    ensures |r| <= |s|
    ensures r == [] || (!IsSpace(r[0]) && !IsSpace(r[|r| - 1]))
  {
    TrimEnd(TrimStart(s))
  }

  /** What `trim()` keeps is a contiguous piece of the text with only white
      space around it. */
  lemma TrimIsInnerSlice(s: string) returns (i: nat)
    ensures i + |Trim(s)| <= |s| && s[i..i + |Trim(s)|] == Trim(s)
    ensures IsBlank(s[..i]) && IsBlank(s[i + |Trim(s)|..])
  {
    i := |s| - |TrimStart(s)|;
    TrimKeepsSlice(s, i);
    TrimDropsLeading(s, i);
    TrimDropsTrailing(s, i);
  }

  lemma TrimKeepsSlice(s: string, i: nat)
    requires i == |s| - |TrimStart(s)|
    ensures i + |Trim(s)| <= |s| && s[i..i + |Trim(s)|] == Trim(s)
  {
    var t := TrimStart(s);
    assert s[i..i + |Trim(s)|] == t[..|Trim(s)|];
  }

  lemma TrimDropsLeading(s: string, i: nat)
    requires i == |s| - |TrimStart(s)|
    ensures IsBlank(s[..i])
  {
  }

  lemma TrimDropsTrailing(s: string, i: nat)
    requires i == |s| - |TrimStart(s)|
    ensures i + |Trim(s)| <= |s| && IsBlank(s[i + |Trim(s)|..])
  {
    var t := TrimStart(s);
    var n := |TrimEnd(t)|;
    DropTwice(s, i, n);
    TrimEndTail(t);
  }

  lemma DropTwice(s: string, i: nat, n: nat)
    requires i + n <= |s|
    ensures s[i..][n..] == s[i + n..]
  {
  }

  lemma TrimEndTail(t: string)
    ensures IsBlank(t[|TrimEnd(t)|..])
  {
    var n := |TrimEnd(t)|;
    forall j | 0 <= j < |t| - n ensures IsSpace(t[n..][j]) {
      assert t[n..][j] == t[n + j];
    }
  }

  /** A string trims to "" exactly when it consists of white space only. */
  lemma TrimEmptyIffBlank(s: string)
    ensures Trim(s) == [] <==> IsBlank(s)
  {
  }

  predicate IsDigit(c: char) {
    '0' <= c <= '9'
  }

  /** The decimal digit for `d`. */
  function DigitChar(d: int): (c: char)
    requires 0 <= d < 10
    ensures IsDigit(c) && (c as int) - ('0' as int) == d
  {
    (('0' as int) + d) as char
  }

  /** Decimal notation of a natural number, no leading zeros. */
  function NatToString(n: nat): (s: string)
    ensures |s| >= 1
    ensures forall i | 0 <= i < |s| :: IsDigit(s[i])
    ensures s[0] == '0' ==> n == 0 && |s| == 1
  {
    if n < 10 then [DigitChar(n)] else NatToString(n / 10) + [DigitChar(n % 10)]
  }

  /** `n.toString()` for an integer-valued number: an optional '-' then decimal digits. */
  function IntToString(n: int): (s: string)
    ensures '_' !in s
  {
    if n < 0 then "-" + NatToString(-n) else NatToString(n)
  }

  /** The value of `c` as a digit in `radix` (10 or 16), if it is one. */
  function DigitValue(c: char, radix: int): (v: Option<int>)
    ensures v.Some? ==> 0 <= v.value < radix
    ensures radix == 10 ==> (v.Some? <==> IsDigit(c))
  {
    if IsDigit(c) && (c as int) - ('0' as int) < radix then Some((c as int) - ('0' as int))
    else if radix == 16 && 'a' <= c <= 'f' then Some((c as int) - ('a' as int) + 10)
    else if radix == 16 && 'A' <= c <= 'F' then Some((c as int) - ('A' as int) + 10)
    else None
  }

  /** The longest prefix of `s` made of `radix` digits. */
  function DigitPrefix(s: string, radix: int): (p: string)
    ensures |p| <= |s| && p == s[..|p|]
    ensures forall i | 0 <= i < |p| :: DigitValue(p[i], radix).Some?
    ensures |p| < |s| ==> DigitValue(s[|p|], radix).None?
  {
    if s != [] && DigitValue(s[0], radix).Some? then [s[0]] + DigitPrefix(s[1..], radix) else []
  }

  /** The number a string of `radix` digits denotes, most significant first. */
  function DigitsValue(ds: string, radix: int): nat
    requires radix == 10 || radix == 16
    requires forall i | 0 <= i < |ds| :: DigitValue(ds[i], radix).Some?
  {
    if ds == [] then 0
    else DigitsValue(ds[..|ds| - 1], radix) * radix + DigitValue(ds[|ds| - 1], radix).value
  }

  /** The mathematical value read by `parseInt` after its sign: a "0x"/"0X" prefix
      switches to hexadecimal, otherwise decimal; no digits at all is NaN (`None`). */
  function ParseMagnitude(u: string): Option<int> {
    if |u| >= 2 && u[0] == '0' && (u[1] == 'x' || u[1] == 'X') then
      var ds := DigitPrefix(u[2..], 16);
      if ds == [] then None else Some(DigitsValue(ds, 16))
    else
      var ds := DigitPrefix(u, 10);
      if ds == [] then None else Some(DigitsValue(ds, 10))
  }

  /** `parseInt(s)`: skip leading white space, read an optional sign, then the
      digits as above; trailing junk is ignored. `None` stands for NaN. */
  function ParseInt(s: string): (r: Option<int>)
    ensures IsBlank(s) ==> r.None?
    ensures r.Some? && r.value < 0 ==> TrimStart(s)[0] == '-'
  {
    var t := TrimStart(s);
    if |t| > 0 && t[0] == '-' then
      match ParseMagnitude(t[1..])
      case Some(m) => Some(-m)
      case None => None
    else
      var u := if |t| > 0 && t[0] == '+' then t[1..] else t;
      match ParseMagnitude(u)
      case Some(m) => Some(m)
      case None => None
  }

  /** A string made only of digits is its own longest digit prefix. */
  lemma DigitPrefixOfDigits(s: string, radix: int)
    requires forall i | 0 <= i < |s| :: DigitValue(s[i], radix).Some?
    ensures DigitPrefix(s, radix) == s
  {
  }

  /** The decimal digits of `n` read back as `n`. */
  lemma {:induction false} DecimalValue(n: nat)
    ensures DigitsValue(NatToString(n), 10) == n
  {
    if n >= 10 {
      DecimalValue(n / 10);
      assert NatToString(n)[..|NatToString(n)| - 1] == NatToString(n / 10);
    }
  }

  /** The digits of a natural number, read without sign, give the number back. */
  lemma MagnitudeOfDigits(n: nat)
    ensures ParseMagnitude(NatToString(n)) == Some(n)
  {
    var s := NatToString(n);
    DigitPrefixOfDigits(s, 10);
    DecimalValue(n);
    assert |s| >= 2 ==> s[0] != '0';
  }

  /** A string that does not start with white space is not changed by `trimStart`. */
  lemma TrimStartNoop(s: string)
    requires s != [] && !IsSpace(s[0])
    ensures TrimStart(s) == s
  {
  }

  /** `parseInt` of a '-' followed by a magnitude. */
  lemma ParseNegative(d: string, m: int)
    requires ParseMagnitude(d) == Some(m)
    ensures ParseInt("-" + d) == Some(-m)
  {
    TrimStartNoop("-" + d);
    assert ("-" + d)[1..] == d;
  }

  /** `parseInt` of a magnitude that starts with a digit. */
  lemma ParseUnsigned(d: string, m: int)
    requires d != [] && IsDigit(d[0])
    requires ParseMagnitude(d) == Some(m)
    ensures ParseInt(d) == Some(m)
  {
    TrimStartNoop(d);
  }

  /** `parseInt` inverts `toString` on every integer. */
  lemma ParseIntToString(n: int)
    ensures ParseInt(IntToString(n)) == Some(n)
  {
    if n < 0 {
      MagnitudeOfDigits(-n);
      ParseNegative(NatToString(-n), -n);
    } else {
      MagnitudeOfDigits(n);
      ParseUnsigned(NatToString(n), n);
    }
  }

  /** Distinct integers print differently. */
  lemma IntToStringInjective(a: int, b: int)
    requires IntToString(a) == IntToString(b)
    ensures a == b
  {
    ParseIntToString(a);
    ParseIntToString(b);
  }
}
