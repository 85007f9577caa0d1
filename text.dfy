/**
 * The Go library routines that the raw-record parser and the request
 * validator lean on, written out on `string` (a sequence of Unicode scalar
 * values): strings.Fields, strings.Split, strings.Join, strings.Contains,
 * strings.ContainsAny, strconv.Atoi, strconv.Itoa, strconv.ParseFloat and
 * strconv.ParseBool. Go's `int` is 64 bits wide on the platforms the tool
 * targets, so Atoi clamps and reports range errors at the int64 bounds.
 */
module Text {
  import opened Wrappers

  const MaxInt64: int := 0x7fff_ffff_ffff_ffff
  const MinInt64: int := -0x8000_0000_0000_0000

  /** `x + 1` on a 64-bit Go int: the maximum wraps around to the minimum. */
  function Inc64(x: int): (r: int)
    requires MinInt64 <= x <= MaxInt64
    ensures MinInt64 <= r <= MaxInt64
    ensures x < MaxInt64 ==> r == x + 1
    ensures x == MaxInt64 ==> r == MinInt64
  {
    if x == MaxInt64 then MinInt64 else x + 1
  }

  // ---------------------------------------------------------------------
  // strings.Fields, strings.Split, strings.Join
  // ---------------------------------------------------------------------

  /** Unicode White_Space, which is what Go's unicode.IsSpace reports. */
  predicate IsSpace(c: char) {
    || c == '\t' || c == '\n' || c == '\U{0B}' || c == '\U{0C}' || c == '\r' || c == ' '
    || c == '\U{85}' || c == '\U{A0}' || c == '\U{1680}'
    || ('\U{2000}' <= c <= '\U{200A}')
    || c == '\U{2028}' || c == '\U{2029}' || c == '\U{202F}' || c == '\U{205F}' || c == '\U{3000}'
  }

  /** A field as strings.Fields produces it: non-empty, no white space. */
  predicate IsWord(w: string) {
    |w| > 0 && forall i :: 0 <= i < |w| ==> !IsSpace(w[i])
  }

  /** Length of the longest white-space-free prefix of `s`. */
  function WordLength(s: string): (n: nat)
    ensures n <= |s|
    ensures forall i :: 0 <= i < n ==> !IsSpace(s[i])
    ensures n < |s| ==> IsSpace(s[n])
  {
    if s == [] || IsSpace(s[0]) then 0 else 1 + WordLength(s[1..])
  }

  /** strings.Fields: the maximal runs of non-white-space characters, in order. */
  function Fields(s: string): (r: seq<string>)
    ensures forall i :: 0 <= i < |r| ==> IsWord(r[i])
    decreases |s|
  {
    if s == [] then []
    else if IsSpace(s[0]) then Fields(s[1..])
    else
      var n := WordLength(s);
      [s[..n]] + Fields(s[n..])
  }

  /** strings.Join. */
  function Join(ws: seq<string>, sep: string): string {
    if ws == [] then ""
    else if |ws| == 1 then ws[0]
    else ws[0] + sep + Join(ws[1..], sep)
  }

  /** strings.Split with a one-character separator. */
  function Split(s: string, sep: char): (r: seq<string>)
    ensures |r| >= 1
    ensures forall i :: 0 <= i < |r| ==> sep !in r[i]
  {
    if s == [] then [""]
    else
      var rest := Split(s[1..], sep);
      if s[0] == sep then [""] + rest
      else [[s[0]] + rest[0]] + rest[1..]
  }

  /** A string without the separator splits into itself alone. */
  lemma {:induction false} SplitWithoutSeparator(s: string, sep: char)
    requires sep !in s
    ensures Split(s, sep) == [s]
  {
    if s != [] {
      assert s[0] in s && s[0] != sep;
      assert forall c :: c in s[1..] ==> c in s;
      SplitWithoutSeparator(s[1..], sep);
      assert [s[0]] + s[1..] == s;
    }
  }

  lemma {:induction false} FieldsOfSpaceFree(w: string)
    requires IsWord(w)
    ensures WordLength(w) == |w|
    ensures Fields(w) == [w]
  {
    var n := WordLength(w);
    assert n == |w|;
    assert w[..n] == w;
    assert w[n..] == [];
  }

  /** White space in front of a line is skipped. */
  lemma FieldsOfLeadingSpace(c: char, rest: string)
    requires IsSpace(c)
    ensures Fields([c] + rest) == Fields(rest)
  {
    assert ([c] + rest)[1..] == rest;
  }

  /** A space-free word followed by any white space: its field ends there. */
  lemma {:induction false} FieldsOfWordThenSpace(w: string, c: char, rest: string)
    requires IsWord(w) && IsSpace(c)
    ensures Fields(w + [c] + rest) == [w] + Fields(rest)
  {
    var s := w + [c] + rest;
    var n := WordLength(s);
    assert forall i :: 0 <= i < |w| ==> s[i] == w[i];
    assert s[|w|] == c;
    assert n == |w|;
    assert s[..n] == w;
    assert s[n..] == [c] + rest;
    FieldsOfLeadingSpace(c, rest);
  }

  /** Splitting on blanks undoes joining space-free words with single blanks. */
  lemma {:induction false} FieldsOfJoin(ws: seq<string>)
    requires forall i :: 0 <= i < |ws| ==> IsWord(ws[i])
    ensures Fields(Join(ws, " ")) == ws
    decreases |ws|
  {
    if ws == [] {
    } else if |ws| == 1 {
      FieldsOfSpaceFree(ws[0]);
    } else {
      FieldsOfJoin(ws[1..]);
      FieldsOfWordThenSpace(ws[0], ' ', Join(ws[1..], " "));
      assert ws == [ws[0]] + ws[1..];
    }
  }

  /** Joining the pieces with the separator gives back the original text. */
  lemma {:induction false} JoinSplit(s: string, sep: char)
    ensures Join(Split(s, sep), [sep]) == s
    decreases |s|
  {
    if s != [] {
      JoinSplit(s[1..], sep);
      var rest := Split(s[1..], sep);
      if s[0] == sep {
        assert [""] + rest == [""] + rest;
        assert ([""] + rest)[1..] == rest;
        assert s == [sep] + s[1..];
      } else if |rest| == 1 {
        assert s == [s[0]] + s[1..];
      } else {
        var r := [[s[0]] + rest[0]] + rest[1..];
        assert r[1..] == rest[1..];
        assert Join(rest, [sep]) == rest[0] + [sep] + Join(rest[1..], [sep]);
        assert s == [s[0]] + s[1..];
      }
    }
  }

  // ---------------------------------------------------------------------
  // strings.Contains, strings.ContainsAny
  // ---------------------------------------------------------------------

  /** strings.Contains: `sub` occurs in `s` at some position. */
  predicate Contains(s: string, sub: string) {
    exists i :: 0 <= i <= |s| - |sub| && OccursAt(s, sub, i)
  }

  predicate OccursAt(s: string, sub: string, i: int)
    requires 0 <= i <= |s| - |sub|
  {
    s[i..i + |sub|] == sub
  }

  /** strings.ContainsAny: some character of `s` is one of `chars`. */
  predicate ContainsAny(s: string, chars: set<char>) {
    exists i :: 0 <= i < |s| && s[i] in chars
  }

  lemma ContainsInfix(a: string, sub: string, b: string)
    ensures Contains(a + sub + b, sub)
  {
    var s := a + sub + b;
    assert OccursAt(s, sub, |a|);
  }

  // ---------------------------------------------------------------------
  // strconv.Atoi, strconv.Itoa
  // ---------------------------------------------------------------------

  predicate IsDigit(c: char) { '0' <= c <= '9' }

  predicate IsDigits(s: string) { forall i :: 0 <= i < |s| ==> IsDigit(s[i]) }

  function DigitValue(c: char): (d: nat)
    requires IsDigit(c)
    ensures d < 10
  {
    (c as int) - ('0' as int)
  }

  function DigitChar(d: nat): (c: char)
    requires d < 10
    ensures IsDigit(c) && DigitValue(c) == d
  {
    ('0' as int + d) as char
  }

  /** The value of a string of decimal digits, most significant first. */
  function DigitsValue(s: string): nat
    requires IsDigits(s)
  {
    if s == [] then 0 else 10 * DigitsValue(s[..|s| - 1]) + DigitValue(s[|s| - 1])
  }

  /** The syntax Atoi accepts: an optional sign and at least one decimal digit. */
  predicate IsDecimal(s: string) {
    var digits := if |s| > 0 && (s[0] == '+' || s[0] == '-') then s[1..] else s;
    digits != [] && IsDigits(digits)
  }

  /** The signed value a decimal denotes, without any bound. */
  function DecimalValue(s: string): int
    requires IsDecimal(s)
  {
    if s[0] == '-' then -(DigitsValue(s[1..]) as int)
    else if s[0] == '+' then DigitsValue(s[1..]) as int
    else DigitsValue(s)
  }

  /** What follows an optional leading sign. */
  function Unsigned(s: string): (u: string)
    ensures |u| <= |s|
  {
    if |s| > 0 && (s[0] == '+' || s[0] == '-') then s[1..] else s
  }

  predicate Negative(s: string) {
    |s| > 0 && s[0] == '-'
  }

  /** The number of decimal digits at the front of `s`. */
  function LeadingDigits(s: string): (n: nat)
    ensures n <= |s|
    ensures forall i :: 0 <= i < n ==> IsDigit(s[i])
    ensures n < |s| ==> !IsDigit(s[n])
  {
    if s == [] || !IsDigit(s[0]) then 0 else 1 + LeadingDigits(s[1..])
  }

  lemma {:induction false} LeadingDigitsOfDigits(s: string)
    requires IsDigits(s)
    ensures LeadingDigits(s) == |s|
  {
    if s != [] {
      LeadingDigitsOfDigits(s[1..]);
    }
  }

  const Uint64Bound: int := 0x1_0000_0000_0000_0000

  /**
   * strconv.ParseUint reads the digits in order and stops with a range
   * error as soon as those read so far denote 2^64 or more, before it looks
   * at any later character; Atoi then reports the int64 bound of the sign.
   */
  predicate Overflows(s: string) {
    var u := Unsigned(s);
    DigitsValue(u[..LeadingDigits(u)]) >= Uint64Bound
  }

  /** A well-formed decimal overflows exactly when its magnitude reaches 2^64. */
  lemma DecimalOverflows(s: string)
    requires IsDecimal(s)
    ensures Overflows(s) <==> (if Negative(s) then -DecimalValue(s) else DecimalValue(s)) >= Uint64Bound
  {
    var u := Unsigned(s);
    LeadingDigitsOfDigits(u);
    assert u[..LeadingDigits(u)] == u;
  }

  /**
   * strconv.Atoi on a 64-bit platform: an optional sign and at least one
   * decimal digit. A syntax error gives 0, a value outside the int64 range
   * gives the nearest bound; both report failure in the second component.
   * A run of digits that already overflows before a stray character is a
   * range error, not a syntax error.
   */
  function Atoi(s: string): (r: (int, bool))
    ensures MinInt64 <= r.0 <= MaxInt64
    ensures !IsDecimal(s) && !Overflows(s) ==> r == (0, false)
    ensures Overflows(s) ==> r == (if Negative(s) then MinInt64 else MaxInt64, false)
    ensures IsDecimal(s) && MinInt64 <= DecimalValue(s) <= MaxInt64 ==> r == (DecimalValue(s), true)
    ensures IsDecimal(s) && DecimalValue(s) > MaxInt64 ==> r == (MaxInt64, false)
    ensures IsDecimal(s) && DecimalValue(s) < MinInt64 ==> r == (MinInt64, false)
    ensures r.1 ==> IsDecimal(s)
  {
    if !IsDecimal(s) then
      if Overflows(s) then (if Negative(s) then MinInt64 else MaxInt64, false) else (0, false)
    else
      DecimalOverflows(s);
      var v := DecimalValue(s);
      if v > MaxInt64 then (MaxInt64, false)
      else if v < MinInt64 then (MinInt64, false)
      else (v, true)
  }

  /** strconv.Itoa of a non-negative value: its decimal digits, no leading zeros. */
  function NatToString(n: nat): (s: string)
    ensures |s| > 0 && IsDigits(s)
  {
    if n < 10 then [DigitChar(n)] else NatToString(n / 10) + [DigitChar(n % 10)]
  }

  /** strconv.Itoa. */
  function Itoa(n: int): (s: string)
    ensures |s| > 0
  {
    if n < 0 then "-" + NatToString(-n) else NatToString(n)
  }

  lemma {:induction false} DigitsValueOfNatToString(n: nat)
    ensures DigitsValue(NatToString(n)) == n
  {
    if n >= 10 {
      DigitsValueOfNatToString(n / 10);
      var s := NatToString(n);
      assert s[..|s| - 1] == NatToString(n / 10);
    }
  }

  /** Atoi reads back every int64 that Itoa writes. */
  lemma AtoiItoa(n: int)
    requires MinInt64 <= n <= MaxInt64
    ensures Atoi(Itoa(n)) == (n, true)
  {
    var s := Itoa(n);
    if n < 0 {
      var digits := NatToString(-n);
      DigitsValueOfNatToString(-n);
      assert s[0] == '-' && s[1..] == digits;
      assert DigitsValue(digits) == -n;
    } else {
      var digits := NatToString(n);
      DigitsValueOfNatToString(n);
      assert IsDigit(digits[0]);
      assert s == digits;
      assert DigitsValue(digits) == n;
    }
  }

  /** Distinct int64 values have distinct decimal spellings. */
  lemma ItoaInjective(m: int, n: int)
    requires MinInt64 <= m <= MaxInt64 && MinInt64 <= n <= MaxInt64
    requires Itoa(m) == Itoa(n)
    ensures m == n
  {
    AtoiItoa(m);
    AtoiItoa(n);
  }

  // ---------------------------------------------------------------------
  // strconv.ParseFloat (decimal forms), strconv.ParseBool
  // ---------------------------------------------------------------------

  /** m * 10^e for an integer exponent of either sign, one decimal place at a time. */
  function Scale10(m: real, e: int): (r: real)
    ensures m >= 0.0 ==> r >= 0.0
    ensures m == 0.0 ==> r == 0.0
    decreases if e >= 0 then e else -e
  {
    if e == 0 then m
    else if e > 0 then 10.0 * Scale10(m, e - 1)
    else Scale10(m, e + 1) / 10.0
  }

  /**
   * The digits of an exponent, read from position `i` on: `e` holds the
   * digits read so far, `digits` counts them, `neg` says whether a minus
   * sign preceded them.
   */
  function ScanExponent(s: string, i: nat, neg: bool, e: nat, digits: nat): Option<int>
    requires i <= |s|
    decreases |s| - i
  {
    if i == |s| then
      if digits == 0 then None else Some(if neg then -(e as int) else e)
    else if IsDigit(s[i]) then
      ScanExponent(s, i + 1, neg, 10 * e + DigitValue(s[i]), digits + 1)
    else None
  }

  /**
   * The unsigned part of a decimal float, read from position `i` on:
   * `mant` holds the digits read so far as an integer, `digits` counts
   * them, `fracDigits` counts those after the decimal point and `point`
   * says whether the point was seen. An exponent marker after at least
   * one digit is followed by an optionally signed exponent.
   */
  function ScanMantissa(s: string, i: nat, mant: nat, digits: nat, fracDigits: nat, point: bool): (r: Option<real>)
    requires i <= |s|
    ensures r.Some? ==> r.value >= 0.0
    ensures i == |s| ==> (r.Some? <==> digits > 0)
    decreases |s| - i
  {
    if i == |s| then
      if digits == 0 then None else Some(Scale10(mant as real, -(fracDigits as int)))
    else if IsDigit(s[i]) then
      ScanMantissa(s, i + 1, 10 * mant + DigitValue(s[i]), digits + 1, if point then fracDigits + 1 else fracDigits, point)
    else if s[i] == '.' && !point then
      ScanMantissa(s, i + 1, mant, digits, fracDigits, true)
    else if (s[i] == 'e' || s[i] == 'E') && digits > 0 then
      var signed := i + 1 < |s| && (s[i + 1] == '+' || s[i + 1] == '-');
      var start := if signed then i + 2 else i + 1;
      match ScanExponent(s, start, signed && s[i + 1] == '-', 0, 0)
      case None => None
      case Some(x) => Some(Scale10(mant as real, x - fracDigits))
    else None
  }

  /**
   * strconv.ParseFloat restricted to its decimal syntax: an optional sign,
   * a mantissa with an optional decimal point, an optional exponent. The
   * value is the exact real the text denotes.
   */
  function ParseFloat(s: string): (r: Option<real>)
    ensures s == [] ==> r.None?
    ensures r.Some? && !Negative(s) ==> r.value >= 0.0
    ensures r.Some? && Negative(s) ==> r.value <= 0.0
    ensures s == "-" || s == "+" || s == "." ==> r.None?
  {
    if |s| > 0 && (s[0] == '+' || s[0] == '-') then
      match ScanMantissa(s, 1, 0, 0, 0, false)
      case None => None
      case Some(v) => Some(if s[0] == '-' then -v else v)
    else ScanMantissa(s, 0, 0, 0, 0, false)
  }

  /** A plain run of digits, such as a latency in microseconds, parses to its integer value. */
  lemma ParseFloatOfDigits(s: string)
    requires |s| > 0 && IsDigits(s)
    ensures ParseFloat(s) == Some(DigitsValue(s) as real)
  {
    assert IsDigit(s[0]);
    assert s[..0] == [];
    ScanDigits(s, 0);
    assert s[..|s|] == s;
  }

  /** Reading the digits from position `i` on completes the value of the digits before it. */
  lemma {:induction false} ScanDigits(s: string, i: nat)
    requires IsDigits(s) && 0 < |s| && i <= |s|
    ensures ScanMantissa(s, i, DigitsValue(s[..i]), i, 0, false) == Some(DigitsValue(s) as real)
    decreases |s| - i
  {
    if i == |s| {
      assert s[..i] == s;
    } else {
      DigitsSnoc(s, i);
      ScanDigits(s, i + 1);
    }
  }

  /** One more digit: the value of a prefix grows by one decimal place. */
  lemma DigitsSnoc(s: string, i: nat)
    requires IsDigits(s) && i < |s|
    ensures DigitsValue(s[..i + 1]) == 10 * DigitsValue(s[..i]) + DigitValue(s[i])
  {
    assert s[..i + 1][..i] == s[..i];
  }

  /** strconv.ParseBool. */
  function ParseBool(s: string): (r: Option<bool>)
    ensures r == Some(true) <==> s in {"1", "t", "T", "TRUE", "true", "True"}
    ensures r == Some(false) <==> s in {"0", "f", "F", "FALSE", "false", "False"}
  {
    if s in {"1", "t", "T", "TRUE", "true", "True"} then Some(true)
    else if s in {"0", "f", "F", "FALSE", "false", "False"} then Some(false)
    else None
  }
}
