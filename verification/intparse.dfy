/**
 * Python's `int(text)` on a string, as the short classifier uses it for media
 * durations: surrounding whitespace is ignored, an optional sign may come
 * first, and the digits may be grouped by single underscores. Anything else
 * raises `ValueError`, which is `None` here.
 */
module IntParse {
  import opened Wrappers

  predicate IsDigit(c: char) {
    '0' <= c <= '9'
  }

  function DigitValue(c: char): nat
    requires IsDigit(c)
  {
    c as int - '0' as int
  }

  /** The ASCII whitespace `int()` skips around its argument. */
  predicate IsSpace(c: char) {
    c == ' ' || c == '\t' || c == '\n' || c == '\r' || c == '\U{B}' || c == '\U{C}'
  }

  predicate AllDigits(ds: string) {
    forall i :: 0 <= i < |ds| ==> IsDigit(ds[i])
  }

  /** The value of a string of decimal digits, most significant first. */
  function DecimalValue(ds: string): nat
    requires AllDigits(ds)
  {
    if ds == [] then 0 else DecimalValue(ds[..|ds| - 1]) * 10 + DigitValue(ds[|ds| - 1])
  }

  /** A digit body `int()` accepts: digits, with single underscores only between two digits. */
  predicate IsDigitBody(b: string) {
    && |b| > 0
    && IsDigit(b[0])
    && IsDigit(b[|b| - 1])
    && (forall i :: 0 <= i < |b| ==> IsDigit(b[i]) || b[i] == '_')
    && (forall i :: 0 <= i < |b| - 1 ==> DigitAfterUnderscore(b, i))
  }

  /** An underscore at `i` is followed by a digit. */
  predicate DigitAfterUnderscore(b: string, i: int)
    requires 0 <= i < |b| - 1
  {
    b[i] == '_' ==> IsDigit(b[i + 1])
  }

  /** The characters of `b` other than underscores, in order. */
  function DropUnderscores(b: string): (ds: string)
    ensures |ds| <= |b|
    ensures (forall i :: 0 <= i < |b| ==> IsDigit(b[i]) || b[i] == '_') ==> AllDigits(ds)
    ensures forall i :: 0 <= i < |ds| ==> ds[i] != '_'
  {
    if b == [] then [] else (if b[0] == '_' then [] else [b[0]]) + DropUnderscores(b[1..])
  }

  /** `s` without its leading whitespace. */
  function TrimStart(s: string): (r: string)
    ensures |r| <= |s| && r == s[|s| - |r|..]
    ensures forall i :: 0 <= i < |s| - |r| ==> IsSpace(s[i])
    ensures r == [] || !IsSpace(r[0])
  {
    if s != [] && IsSpace(s[0]) then TrimStart(s[1..]) else s
  }

  /** `s` without its trailing whitespace. */
  function TrimEnd(s: string): (r: string)
    ensures |r| <= |s| && r == s[..|r|]
    ensures forall i :: |r| <= i < |s| ==> IsSpace(s[i])
    ensures r == [] || !IsSpace(r[|r| - 1])
  {
    if s != [] && IsSpace(s[|s| - 1]) then TrimEnd(s[..|s| - 1]) else s
  }

  function Trim(s: string): string {
    TrimEnd(TrimStart(s))
  }

  /** The integer `int(s)` returns, or `None` where it raises `ValueError`. */
  function ParseInt(s: string): Option<int> {
    ParseTrimmed(Trim(s))
  }

  /** Text that begins with a digit or a sign and ends with a digit. */
  predicate Accepted(t: string) {
    && t != []
    && (IsDigit(t[0]) || t[0] == '-' || t[0] == '+')
    && IsDigit(t[|t| - 1])
  }

  /** Whatever `int()` accepts begins with a digit or a sign and ends in a digit. */
  lemma ParsedEndsInDigit(t: string)
    ensures ParseTrimmed(t).Some? ==> Accepted(t)
  {
    if ParseTrimmed(t).Some? && t != [] && (t[0] == '-' || t[0] == '+') {
      assert t[1..][|t[1..]| - 1] == t[|t| - 1];
    }
  }

  /** `int()` on text with no surrounding whitespace: an optional sign, then a digit body. */
  function ParseTrimmed(t: string): (r: Option<int>)
  {
    if t != [] && t[0] == '-' then
      match ParseUnsigned(t[1..])
      case Some(m) => Some(-(m as int))
      case None => None
    else if t != [] && t[0] == '+' then
      match ParseUnsigned(t[1..])
      case Some(m) => Some(m as int)
      case None => None
    else
      match ParseUnsigned(t)
      case Some(m) => Some(m as int)
      case None => None
  }

  /** The value of a digit body, if `b` is one. */
  function ParseUnsigned(b: string): (r: Option<nat>)
  {
    if IsDigitBody(b) then Some(DecimalValue(DropUnderscores(b))) else None
  }

  function DigitChar(d: nat): (c: char)
    requires d < 10
    ensures IsDigit(c) && DigitValue(c) == d
  {
    ('0' as int + d) as char
  }

  /** The decimal numeral of `n`, as Python's `str(n)` writes it. */
  function NatToDecimal(n: nat): (ds: string)
    ensures |ds| > 0 && AllDigits(ds)
  {
    if n < 10 then [DigitChar(n)] else NatToDecimal(n / 10) + [DigitChar(n % 10)]
  }

  /** Python's `str(n)` for an integer. */
  function FormatInt(n: int): string {
    if n < 0 then "-" + NatToDecimal(-n) else NatToDecimal(n)
  }
}

/** What the integer parser promises: it reads back formatted numerals, padded or not, and refuses non-numerals. */
module IntParseFacts {
  import opened Wrappers
  import opened IntParse

  /** Reading back the numeral of `n` gives `n`. */
  lemma {:induction false} DecimalValueOfNumeral(n: nat)
    ensures DecimalValue(NatToDecimal(n)) == n
  {
    if n >= 10 {
      var ds := NatToDecimal(n);
      assert ds[..|ds| - 1] == NatToDecimal(n / 10);
      DecimalValueOfNumeral(n / 10);
    }
  }

  lemma {:induction false} DropUnderscoresOfDigits(ds: string)
    requires AllDigits(ds)
    ensures DropUnderscores(ds) == ds
  {
    if ds != [] {
      DropUnderscoresOfDigits(ds[1..]);
    }
  }

  lemma {:induction false} TrimStartOfSpaces(pre: string, x: string)
    requires forall i :: 0 <= i < |pre| ==> IsSpace(pre[i])
    requires x == [] || !IsSpace(x[0])
    ensures TrimStart(pre + x) == x
  {
    if pre != [] {
      assert (pre + x)[1..] == pre[1..] + x;
      TrimStartOfSpaces(pre[1..], x);
    }
  }

  lemma {:induction false} TrimEndOfSpaces(x: string, post: string)
    requires forall i :: 0 <= i < |post| ==> IsSpace(post[i])
    requires x == [] || !IsSpace(x[|x| - 1])
    ensures TrimEnd(x + post) == x
  {
    if post != [] {
      assert (x + post)[..|x + post| - 1] == x + post[..|post| - 1];
      TrimEndOfSpaces(x, post[..|post| - 1]);
    }
  }

  /** The numeral of `n` neither begins nor ends with whitespace. */
  lemma NumeralEdges(n: int)
    ensures |FormatInt(n)| > 0
    ensures !IsSpace(FormatInt(n)[0]) && !IsSpace(FormatInt(n)[|FormatInt(n)| - 1])
  {
    var ds := NatToDecimal(if n < 0 then -n else n);
    assert IsDigit(ds[|ds| - 1]);
  }

  lemma TrimPadded(pre: string, x: string, post: string)
    requires forall i :: 0 <= i < |pre| ==> IsSpace(pre[i])
    requires forall i :: 0 <= i < |post| ==> IsSpace(post[i])
    requires |x| > 0 && !IsSpace(x[0]) && !IsSpace(x[|x| - 1])
    ensures Trim(pre + x + post) == x
  {
    assert pre + x + post == pre + (x + post);
    TrimStartOfSpaces(pre, x + post);
    TrimEndOfSpaces(x, post);
  }

  /** A plain digit string is a digit body worth its decimal value. */
  lemma UnsignedDigits(ds: string)
    requires |ds| > 0 && AllDigits(ds)
    ensures ParseUnsigned(ds) == Some(DecimalValue(ds))
  {
    DropUnderscoresOfDigits(ds);
  }

  /** A digit string parses to its value, with or without a minus sign in front. */
  lemma ParseDigits(ds: string)
    requires |ds| > 0 && AllDigits(ds)
    ensures ParseTrimmed(ds) == Some(DecimalValue(ds) as int)
    ensures ParseTrimmed("-" + ds) == Some(-(DecimalValue(ds) as int))
  {
    UnsignedDigits(ds);
    assert IsDigit(ds[0]);
    NegatedDigits(ds);
  }

  lemma NegatedDigits(ds: string)
    requires ParseUnsigned(ds).Some?
    ensures ParseTrimmed("-" + ds) == Some(-(ParseUnsigned(ds).value as int))
  {
    var t := "-" + ds;
    assert t[0] == '-' && t[1..] == ds;
  }

  /** `int()` reads back the numeral `str()` writes. */
  lemma ParseNumeral(n: int)
    ensures ParseInt(FormatInt(n)) == Some(n)
  {
    var m := if n < 0 then -n else n;
    var x := FormatInt(n);
    NumeralEdges(n);
    assert TrimStart(x) == x;
    assert TrimEnd(x) == x;
    DecimalValueOfNumeral(m);
    ParseDigits(NatToDecimal(m));
  }

  /**
   * `int()` reads back what `str()` writes, also with whitespace around it:
   * the formatter is a right inverse of the parser.
   */
  lemma ParseFormatted(n: int, pre: string, post: string)
    requires forall i :: 0 <= i < |pre| ==> IsSpace(pre[i])
    requires forall i :: 0 <= i < |post| ==> IsSpace(post[i])
    ensures ParseInt(pre + FormatInt(n) + post) == Some(n)
  {
    NumeralEdges(n);
    TrimPadded(pre, FormatInt(n), post);
    TrimPadded([], FormatInt(n), []);
    assert [] + FormatInt(n) + [] == FormatInt(n);
    ParseNumeral(n);
  }

  /** Text without a single decimal digit, such as an ISO 8601 period or an empty string, never parses. */
  lemma NoDigitNoValue(s: string)
    requires forall i :: 0 <= i < |s| ==> !IsDigit(s[i])
    ensures ParseInt(s) == None
  {
    var t := Trim(s);
    var start := |s| - |TrimStart(s)|;
    assert forall i :: 0 <= i < |t| ==> t[i] == s[start + i];
    assert !Accepted(t) by {
      if t != [] {
        assert t[|t| - 1] == s[start + |t| - 1];
      }
    }
    ParsedEndsInDigit(t);
  }
}
