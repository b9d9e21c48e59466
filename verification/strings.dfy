/** The parts of Go's `strings` and `strconv` packages the modelled code relies on:
    Unicode white space trimming, lower-casing, prefix tests, and integer formatting and
    parsing in a given base. */
module GoStrings {
  import opened Base

  type Radix = b: int | 2 <= b <= 36 witness 10

  /** `unicode.IsSpace`: the Latin-1 spaces plus the White_Space code points above U+00FF. */
  predicate IsSpace(c: char) {
    || c == '\t' || c == '\n' || c == '\U{0B}' || c == '\U{0C}' || c == '\r' || c == ' '
    || c == '\U{85}' || c == '\U{A0}' || c == '\U{1680}' || ('\U{2000}' <= c <= '\U{200A}')
    || c == '\U{2028}' || c == '\U{2029}' || c == '\U{202F}' || c == '\U{205F}' || c == '\U{3000}'
  }

  function TrimLeftSpace(s: string): (r: string)
    ensures |r| <= |s| && r == s[|s| - |r|..]
    ensures |r| > 0 ==> !IsSpace(r[0])
    ensures forall i :: 0 <= i < |s| - |r| ==> IsSpace(s[i])
  {
    if |s| > 0 && IsSpace(s[0]) then TrimLeftSpace(s[1..]) else s
  }

  function TrimRightSpace(s: string): (r: string)
    ensures |r| <= |s| && r == s[..|r|]
    ensures |r| > 0 ==> !IsSpace(r[|r| - 1])
    ensures forall i :: |r| <= i < |s| ==> IsSpace(s[i])
  {
    if |s| > 0 && IsSpace(s[|s| - 1]) then TrimRightSpace(s[..|s| - 1]) else s
  }

  /** `strings.TrimSpace`: drops leading and trailing white space and nothing else. */
  function TrimSpace(s: string): (r: string)
    ensures |r| > 0 ==> !IsSpace(r[0]) && !IsSpace(r[|r| - 1])
    ensures r == "" <==> forall i :: 0 <= i < |s| ==> IsSpace(s[i])
    ensures |r| <= |s|
    ensures |s| > 0 && !IsSpace(s[0]) && !IsSpace(s[|s| - 1]) ==> r == s
  {
    var l := TrimLeftSpace(s);
    var r := TrimRightSpace(l);
    r
  }

  /** `unicode.ToLower` restricted to the code points whose lower case is ASCII: the
      ASCII capitals, U+0130 (capital I with dot) and U+212A (Kelvin sign). */
  function LowerChar(c: char): (r: char)
    ensures 'A' <= c <= 'Z' ==> r as int == c as int + 32
    ensures !('A' <= r <= 'Z')
  {
    if 'A' <= c <= 'Z' then (c as int + 32) as char
    else if c == '\U{0130}' then 'i'
    else if c == '\U{212A}' then 'k'
    else c
  }

  function ToLower(s: string): (r: string)
    ensures |r| == |s|
    ensures forall i :: 0 <= i < |s| ==> r[i] == LowerChar(s[i])
  {
    if |s| == 0 then "" else [LowerChar(s[0])] + ToLower(s[1..])
  }

  predicate HasPrefix(s: string, prefix: string) {
    |prefix| <= |s| && s[..|prefix|] == prefix
  }

  // ---------------------------------------------------------------------------------
  // Digits

  /** The digit value `strconv` assigns to a byte: decimal digits, then letters of either
      case from 10 up; anything else gets 36, which no base accepts. */
  function DigitValue(c: char): nat {
    if '0' <= c <= '9' then c as int - '0' as int
    else if 'a' <= c <= 'z' then c as int - 'a' as int + 10
    else if 'A' <= c <= 'Z' then c as int - 'A' as int + 10
    else 36
  }

  /** The lower-case digit `strconv.FormatInt` writes for `d`. */
  function DigitChar(d: nat): (c: char)
    requires d < 36
    ensures DigitValue(c) == d
    ensures '0' <= c <= '9' || 'a' <= c <= 'z'
  {
    if d < 10 then ('0' as int + d) as char else ('a' as int + d - 10) as char
  }

  predicate AllDigits(s: string, base: Radix) {
    forall i :: 0 <= i < |s| ==> DigitValue(s[i]) < base
  }

  /** The unbounded value of a numeral, most significant digit first. */
  function Value(s: string, base: Radix): nat {
    if |s| == 0 then 0 else Value(s[..|s| - 1], base) * base + DigitValue(s[|s| - 1])
  }

  /** The canonical numeral of `n`: lower-case digits, no sign, no leading zero. */
  function Digits(n: nat, base: Radix): (r: string)
    ensures |r| > 0 && AllDigits(r, base)
    ensures forall i :: 0 <= i < |r| ==> '0' <= r[i] <= '9' || 'a' <= r[i] <= 'z'
    ensures r[0] == '0' ==> n == 0 && r == "0"
    ensures Value(r, base) == n
  {
    if n < base then
      var c := DigitChar(n);
      assert [c][..0] == [];
      [c]
    else
      var q, d := n / base, n % base;
      DivModIdentity(n, base);
      var hi := Digits(q, base);
      var c := DigitChar(d);
      AppendDigit(n, q, hi, c, base);
      hi + [c]
  }

  /** Appending a digit to the numeral of `q` gives the numeral of `q * base` plus it. */
  lemma AppendDigit(n: nat, q: nat, hi: string, c: char, base: Radix)
    requires q > 0 && q * base + DigitValue(c) == n && DigitValue(c) < base
    requires |hi| > 0 && AllDigits(hi, base) && Value(hi, base) == q
    requires forall i :: 0 <= i < |hi| ==> '0' <= hi[i] <= '9' || 'a' <= hi[i] <= 'z'
    requires hi[0] == '0' ==> q == 0
    requires '0' <= c <= '9' || 'a' <= c <= 'z'
    ensures var r := hi + [c];
      && |r| > 0 && AllDigits(r, base)
      && (forall i :: 0 <= i < |r| ==> '0' <= r[i] <= '9' || 'a' <= r[i] <= 'z')
      && r[0] != '0'
      && Value(r, base) == n
  {
    assert (hi + [c])[..|hi|] == hi;
  }

  /** The canonical base-16 digits are decimal digits and the letters a to f. */
  lemma HexDigits(d: string)
    requires AllDigits(d, 16)
    requires forall i :: 0 <= i < |d| ==> '0' <= d[i] <= '9' || 'a' <= d[i] <= 'z'
    ensures forall i :: 0 <= i < |d| ==> '0' <= d[i] <= '9' || 'a' <= d[i] <= 'f'
  {
    forall i | 0 <= i < |d|
      ensures '0' <= d[i] <= '9' || 'a' <= d[i] <= 'f'
    {
      assert DigitValue(d[i]) < 16;
    }
  }

  /** `strconv.FormatInt(x, base)`: a leading '-' for negatives, then `Digits`. */
  function FormatInt(x: int, base: Radix): (r: string)
    ensures |r| > 0
    ensures r[0] == '-' <==> x < 0
    ensures x < 0 ==> r[1..] == Digits(-x, base)
    ensures x >= 0 ==> r == Digits(x, base)
  {
    if x < 0 then "-" + Digits(-x, base) else Digits(x, base)
  }

  /** In base 16, `FormatInt` writes only lower-case hexadecimal digits after the sign. */
  lemma FormatHex(x: int)
    ensures var r := FormatInt(x, 16);
      forall i :: 0 <= i < |r| ==> '0' <= r[i] <= '9' || 'a' <= r[i] <= 'f' || (i == 0 && r[i] == '-')
  {
    var r := FormatInt(x, 16);
    var d := Digits(if x < 0 then -x else x, 16);
    HexDigits(d);
    if x < 0 {
      assert forall i :: 0 < i < |r| ==> r[i] == d[i - 1];
    }
  }

  // ---------------------------------------------------------------------------------
  // Parsing

  datatype UintParse = UintParse(value: nat, err: Option<Error>)
  datatype IntParse = IntParse(value: Int64, err: Option<Error>)

  /** The digit loop of `strconv.ParseUint` for bit size 64, from index `i` with the value
      `n` accumulated so far: an invalid digit is a syntax error, a value passing 2^64-1 a
      range error (reported with the maximum), whichever the loop meets first. */
  function ParseUintAt(s: string, base: Radix, i: nat, n: nat): (r: UintParse)
    requires i <= |s| && n <= MaxUint64
    ensures r.value <= MaxUint64
    ensures r.err == None || r.err == Some(NumSyntax) || r.err == Some(NumRange)
    ensures r.err == Some(NumRange) ==> r.value == MaxUint64
    decreases |s| - i
  {
    if i == |s| then UintParse(n, None)
    else
      var d := DigitValue(s[i]);
      if d >= base then UintParse(0, Some(NumSyntax))
      else if n * base + d > MaxUint64 then UintParse(MaxUint64, Some(NumRange))
      else ParseUintAt(s, base, i + 1, n * base + d)
  }

  function ParseUint(s: string, base: Radix): (r: UintParse)
    ensures r.value <= MaxUint64
    ensures r.err == None || r.err == Some(NumSyntax) || r.err == Some(NumRange)
    ensures r.err == Some(NumRange) ==> r.value == MaxUint64
  {
    if s == "" then UintParse(0, Some(NumSyntax)) else ParseUintAt(s, base, 0, 0)
  }

  /** The numeral after an optional leading sign. */
  function Unsigned(s: string): string {
    if |s| > 0 && (s[0] == '+' || s[0] == '-') then s[1..] else s
  }

  predicate Negative(s: string) {
    |s| > 0 && s[0] == '-'
  }

  /** `strconv.ParseInt(s, base, 64)`, returning Go's value even on error: 0 for a syntax
      error, the clamped bound for a range error. */
  function ParseInt(s: string, base: Radix): (r: IntParse)
    ensures r.err == None || r.err == Some(NumSyntax) || r.err == Some(NumRange)
    ensures r.err == Some(NumSyntax) ==> r.value == 0
    ensures r.err == Some(NumRange) ==> r.value == (if Negative(s) then MinInt64 else MaxInt64)
  {
    if s == "" then IntParse(0, Some(NumSyntax))
    else
      var neg := s[0] == '-';
      var u := ParseUint(Unsigned(s), base);
      if u.err == Some(NumSyntax) then IntParse(0, Some(NumSyntax))
      else if !neg && u.value >= -MinInt64 then IntParse(MaxInt64, Some(NumRange))
      else if neg && u.value > -MinInt64 then IntParse(MinInt64, Some(NumRange))
      else IntParse(if neg then -(u.value as int) else u.value as int, None)
  }

  /** What a well-formed signed numeral denotes, without any width limit. */
  function SignedValue(s: string, base: Radix): int {
    if Negative(s) then -(Value(Unsigned(s), base) as int) else Value(Unsigned(s), base)
  }

  predicate WellFormedInt(s: string, base: Radix) {
    |Unsigned(s)| > 0 && AllDigits(Unsigned(s), base)
  }

  // ---------------------------------------------------------------------------------
  // Lemmas

  lemma DivModIdentity(n: nat, base: Radix)
    ensures (n / base) * base + n % base == n
    ensures n >= base ==> 0 < n / base < n
    ensures n % base < base
  {
  }

  lemma ScaleGrows(v: nat, base: Radix)
    ensures v <= v * base
  {
  }

  lemma {:induction false} ValueStep(s: string, i: nat, base: Radix)
    requires i < |s|
    ensures Value(s[..i + 1], base) == Value(s[..i], base) * base + DigitValue(s[i])
  {
    assert s[..i + 1][..i] == s[..i];
  }

  lemma {:induction false} ValuePrefixBound(s: string, j: nat, base: Radix)
    requires j <= |s|
    ensures Value(s[..j], base) <= Value(s, base)
    decreases |s| - j
  {
    if j < |s| {
      ValueStep(s, j, base);
      ScaleGrows(Value(s[..j], base), base);
      ValuePrefixBound(s, j + 1, base);
    } else {
      assert s[..j] == s;
    }
  }

  /** The digit loop computes `Value` exactly when every digit is valid and the value fits
      64 unsigned bits, and fails otherwise. */
  lemma {:induction false} ParseUintAtSpec(s: string, base: Radix, i: nat, n: nat)
    requires i <= |s| && n <= MaxUint64
    requires n == Value(s[..i], base)
    ensures var r := ParseUintAt(s, base, i, n);
      && (r.err.None? <==> (forall k :: i <= k < |s| ==> DigitValue(s[k]) < base) && Value(s, base) <= MaxUint64)
      && (r.err.None? ==> r.value == Value(s, base))
    decreases |s| - i
  {
    if i == |s| {
      assert s[..i] == s;
    } else {
      var d := DigitValue(s[i]);
      ValueStep(s, i, base);
      if d >= base {
      } else if n * base + d > MaxUint64 {
        ValuePrefixBound(s, i + 1, base);
      } else {
        ParseUintAtSpec(s, base, i + 1, n * base + d);
      }
    }
  }

  /** `ParseInt` succeeds exactly on a well-formed numeral whose value fits int64, and then
      returns that value. */
  lemma ParseIntSpec(s: string, base: Radix)
    ensures ParseInt(s, base).err.None? <==> WellFormedInt(s, base) && MinInt64 <= SignedValue(s, base) <= MaxInt64
    ensures ParseInt(s, base).err.None? ==> ParseInt(s, base).value == SignedValue(s, base)
  {
    var u := Unsigned(s);
    if s != "" && u != "" {
      assert u[..0] == "";
      ParseUintAtSpec(u, base, 0, 0);
    }
  }

  lemma FormatIntDenotes(x: int, base: Radix)
    ensures WellFormedInt(FormatInt(x, base), base)
    ensures SignedValue(FormatInt(x, base), base) == x
  {
  }

  /** Formatting then parsing in the same base gives back every int64. */
  lemma FormatParseRoundTrip(x: Int64, base: Radix)
    ensures ParseInt(FormatInt(x, base), base) == IntParse(x, None)
  {
    FormatIntDenotes(x, base);
    ParseIntSpec(FormatInt(x, base), base);
  }
}
