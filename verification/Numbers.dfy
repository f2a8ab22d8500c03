/** The integer parsers of base/numbers.cc: any text, any base, any two's-complement or unsigned type. */
module Numbers {

  import opened StringTrimming

  /** ascii_isspace. */
  const SPACES: set<char> := {9 as char, 10 as char, 11 as char, 12 as char, 13 as char, ' '}

  /** std::numeric_limits of the result type. */
  datatype IntType = IntType(min: int, max: int)

  const INT32 := IntType(-0x8000_0000, 0x7FFF_FFFF)
  const INT64 := IntType(-0x8000_0000_0000_0000, 0x7FFF_FFFF_FFFF_FFFF)
  const UINT32 := IntType(0, 0xFFFF_FFFF)
  const UINT64 := IntType(0, 0xFFFF_FFFF_FFFF_FFFF)

  predicate Fits(t: IntType, v: int) {
    t.min <= v <= t.max
  }

  function Clamp(t: IntType, v: int): int {
    if v < t.min then t.min else if v > t.max then t.max else v
  }

  // ----- Digits and their value ---------------------------------------------------------------------

  /** kAsciiToInt: 36 for what is no digit in any base. */
  function Digit(c: char): (d: nat)
    ensures d <= 36
  {
    if '0' <= c <= '9' then (c - '0') as nat
    else if 'A' <= c <= 'Z' then (c - 'A') as nat + 10
    else if 'a' <= c <= 'z' then (c - 'a') as nat + 10
    else 36
  }

  predicate AllDigits(s: string, base: int) {
    forall i :: 0 <= i < |s| ==> Digit(s[i]) < base
  }

  /** The number a digit string stands for. */
  function Val(s: string, base: nat): (v: int)
    ensures v >= 0
  {
    if s == "" then 0 else Val(s[..|s| - 1], base) * base + Digit(s[|s| - 1])
  }

  /** The length of the longest valid-digit prefix. */
  function ValidLength(s: string, base: int): (n: nat)
    ensures n <= |s| && AllDigits(s[..n], base) && (n < |s| ==> Digit(s[n]) >= base)
  {
    if s == "" || Digit(s[0]) >= base then 0 else
      var n := ValidLength(s[1..], base);
      assert s[..n + 1] == [s[0]] + s[1..][..n];
      n + 1
  }

  lemma {:induction false} ValidLengthIs(s: string, base: int, n: nat)
    requires n <= |s| && (forall i :: 0 <= i < n ==> Digit(s[i]) < base) && (n < |s| ==> Digit(s[n]) >= base)
    ensures ValidLength(s, base) == n
    decreases |s|
  {
    if n > 0 {
      ValidLengthIs(s[1..], base, n - 1);
    }
  }

  lemma ValStep(s: string, base: nat, i: nat)
    requires i < |s|
    ensures Val(s[..i + 1], base) == Val(s[..i], base) * base + Digit(s[i])
  {
    assert s[..i + 1][..i] == s[..i];
  }

  lemma TimesBase(v: nat, base: nat, d: nat)
    requires base >= 1
    ensures v <= v * base + d
  {
  }

  /** More digits never make less. */
  lemma {:induction false} ValGrows(s: string, base: nat, i: nat, j: nat)
    requires i <= j <= |s| && base >= 1
    ensures Val(s[..i], base) <= Val(s[..j], base)
    decreases j
  {
    if i < j {
      ValGrows(s, base, i, j - 1);
      ValStep(s, base, j - 1);
      TimesBase(Val(s[..j - 1], base), base, Digit(s[j - 1]));
    }
  }

  // ----- The digit loops ----------------------------------------------------------------------------

  lemma DivMod(v: nat, base: nat)
    requires base > 0
    ensures v == (v / base) * base + v % base
  {
  }

  lemma TimesGrows(a: nat, b: nat, base: nat)
    requires a <= b
    ensures a * base <= b * base
  {
    assert b * base == a * base + (b - a) * base;
  }

  /** Above the quotient the next product is out of range; at or below it, it is not. */
  lemma QuotientIsExact(max: nat, base: nat, v: nat)
    requires base >= 1
    ensures v * base <= max <==> v <= max / base
  {
    var q := max / base;
    DivMod(max, base);
    if v <= q {
      TimesGrows(v, q, base);
    } else {
      TimesGrows(q + 1, v, base);
      assert (q + 1) * base == q * base + base;
    }
  }

  lemma Overflown(s: string, base: nat, i: nat, max: nat)
    requires base >= 1 && i < |s| && (forall k :: 0 <= k <= i ==> Digit(s[k]) < base)
    requires Val(s[..i], base) * base + Digit(s[i]) > max
    ensures Val(s[..ValidLength(s, base)], base) > max
  {
    hide ValidLength, Val;
    var n := ValidLength(s, base);
    assert i < n;
    ValStep(s, base, i);
    ValGrows(s, base, i + 1, n);
  }

  /** What the two tests of a digit loop decide, on the magnitude of the value so far. */
  lemma DigitStep(s: string, base: nat, i: nat, max: nat)
    requires base >= 1 && i < |s| && (forall k :: 0 <= k <= i ==> Digit(s[k]) < base)
    ensures var v := Val(s[..i], base);
      && (v * base <= max <==> v <= max / base) && 0 <= v * base
      && Val(s[..i + 1], base) == v * base + Digit(s[i])
      && (v * base + Digit(s[i]) > max ==> Val(s[..ValidLength(s, base)], base) > max)
  {
    hide ValidLength, Val, Digit;
    var v := Val(s[..i], base);
    ValStep(s, base, i);
    QuotientIsExact(max, base, v);
    TimesBase(v, base, 0);
    if v * base + Digit(s[i]) > max {
      Overflown(s, base, i, max);
    }
  }

  method SafeParsePositiveInt(t: IntType, text: string, base: nat) returns (ok: bool, value: int)
    requires 2 <= base <= 36 && t.max >= 36 && t.min <= 0
    ensures value == Clamp(t, Val(text[..ValidLength(text, base)], base))
    ensures ok <==> AllDigits(text, base) && Fits(t, Val(text, base))
  {
    hide ValidLength, Val, AllDigits;
    value := 0;
    var vmaxOverBase := t.max / base;
    ValOfNothing(base);
    assert text[..0] == "";
    for i := 0 to |text|
      invariant value == Val(text[..i], base) && Fits(t, value)
      invariant forall k :: 0 <= k < i ==> Digit(text[k]) < base
    {
      var digit := Digit(text[i]);
      if digit >= base {
        ValidLengthIs(text, base, i);
        NotAllDigits(text, base, i);
        return false, value;
      }
      DigitStep(text, base, i, t.max);
      if value > vmaxOverBase {
        WholeIsValid(text, base);
        return false, t.max;
      }
      assert Fits(t, value * base);
      value := value * base;
      assert Fits(t, t.max - digit);
      if value > t.max - digit {
        WholeIsValid(text, base);
        return false, t.max;
      }
      value := value + digit;
    }
    AllAreDigits(text, base);
    WholeIsValid(text, base);
    return true, value;
  }

  lemma ValOfNothing(base: nat)
    ensures Val("", base) == 0
  {
  }

  lemma WholeIsValid(s: string, base: nat)
    ensures AllDigits(s, base) ==> s[..ValidLength(s, base)] == s
  {
    hide ValidLength;
    assert s[..|s|] == s;
  }

  /** Division in C++ truncates toward zero. */
  function TruncDiv(a: int, b: nat): int
    requires b > 0
  {
    if a >= 0 then a / b else -((-a) / b)
  }

  function TruncMod(a: int, b: nat): int
    requires b > 0
  {
    a - b * TruncDiv(a, b)
  }

  /** The remainder has the sign of the dividend, so the correction for a positive one never happens. */
  lemma NoPositiveRemainder(min: int, base: nat)
    requires min <= 0 && base > 0
    ensures TruncMod(min, base) <= 0
  {
    var q := (-min) / base;
    assert base * q <= -min;
  }

  lemma Negated(min: int, base: int, v: int)
    requires min <= 0 && base > 0 && v >= 0
    ensures (-v) * base == -(v * base)
    ensures -v >= TruncDiv(min, base) <==> v <= -min / base
  {
  }

  method SafeParseNegativeInt(t: IntType, text: string, base: nat) returns (ok: bool, value: int)
    requires 2 <= base <= 36 && t.min <= -36 && t.max >= 0
    ensures value == Clamp(t, -Val(text[..ValidLength(text, base)], base))
    ensures ok <==> AllDigits(text, base) && Fits(t, -Val(text, base))
  {
    hide ValidLength, Val, TruncMod, TruncDiv, AllDigits;
    value := 0;
    var vminOverBase := TruncDiv(t.min, base);
    NoPositiveRemainder(t.min, base);
    if TruncMod(t.min, base) > 0 {
      vminOverBase := vminOverBase + 1;
    }
    ValOfNothing(base);
    assert text[..0] == "";
    for i := 0 to |text|
      invariant value == -Val(text[..i], base) && Fits(t, value)
      invariant forall k :: 0 <= k < i ==> Digit(text[k]) < base
    {
      var digit := Digit(text[i]);
      if digit >= base {
        ValidLengthIs(text, base, i);
        NotAllDigits(text, base, i);
        return false, value;
      }
      DigitStep(text, base, i, -t.min);
      Negated(t.min, base, Val(text[..i], base));
      if value < vminOverBase {
        WholeIsValid(text, base);
        return false, t.min;
      }
      assert Fits(t, value * base);
      value := value * base;
      assert Fits(t, t.min + digit);
      if value < t.min + digit {
        WholeIsValid(text, base);
        return false, t.min;
      }
      value := value - digit;
    }
    AllAreDigits(text, base);
    WholeIsValid(text, base);
    return true, value;
  }

  lemma NotAllDigits(s: string, base: nat, i: nat)
    requires i < |s| && Digit(s[i]) >= base
    ensures !AllDigits(s, base)
  {
  }

  lemma AllAreDigits(s: string, base: nat)
    requires forall k :: 0 <= k < |s| ==> Digit(s[k]) < base
    ensures AllDigits(s, base) && s[..|s|] == s
  {
  }

  // ----- Sign and base ------------------------------------------------------------------------------

  datatype Head = Refused | Head(negative: bool, base: nat, digits: string)

  predicate HexMark(s: string) {
    |s| >= 2 && s[0] == '0' && (s[1] == 'x' || s[1] == 'X')
  }

  /** The base of an unsigned text and its digits. */
  function BaseOf(negative: bool, s: string, base: int): Head {
    if base == 0 && HexMark(s) then (if |s| == 2 then Refused else Head(negative, 16, s[2..]))
    else if base == 0 && s != "" && s[0] == '0' then Head(negative, 8, s[1..])
    else if base == 0 then Head(negative, 10, s)
    else if base == 16 && HexMark(s) then (if |s| == 2 then Refused else Head(negative, 16, s[2..]))
    else if 2 <= base <= 36 then Head(negative, base, s)
    else Refused
  }

  function HeadOf(s: string, base: int): Head {
    if s == "" then Refused
    else if s[0] == '-' || s[0] == '+' then (if |s| == 1 then Refused else BaseOf(s[0] == '-', s[1..], base))
    else BaseOf(false, s, base)
  }

  /** The grammar: what may stand before the digits of each base. */
  predicate IsPrefix(base: int, prefix: string, b: nat, digits: string) {
    || (2 <= base <= 36 && b == base && prefix == "" && digits != "")
    || ((base == 16 || base == 0) && b == 16 && (prefix == "0x" || prefix == "0X") && digits != "")
    || (base == 0 && b == 8 && prefix == "0")
    || (base == 0 && b == 10 && prefix == "" && digits != "" && digits[0] != '0')
  }

  predicate IsSign(sign: string, negative: bool) {
    if negative then sign == "-" else sign == "" || sign == "+"
  }

  predicate IsLiteral(s: string, base: int, sign: string, prefix: string, negative: bool, b: nat, digits: string) {
    IsSign(sign, negative) && IsPrefix(base, prefix, b, digits) && AllDigits(digits, b) && s == sign + prefix + digits
  }

  lemma NoDigits()
    ensures Digit('x') == Digit('X') == 33 && Digit('-') == Digit('+') == 36
  {
  }

  /** No hexadecimal mark hides in a digit string of a base up to 16. */
  lemma NotHex(s: string, b: nat)
    requires AllDigits(s, b) && b <= 16
    ensures !HexMark(s)
  {
    hide Digit;
    NoDigits();
  }

  lemma NotHexAfterZero(s: string)
    requires AllDigits(s, 8)
    ensures !HexMark("0" + s)
  {
    hide Digit;
    NoDigits();
    assert s != "" ==> ("0" + s)[1] == s[0];
  }

  lemma LiteralBase(base: int, prefix: string, negative: bool, b: nat, digits: string)
    requires IsPrefix(base, prefix, b, digits) && AllDigits(digits, b)
    ensures BaseOf(negative, prefix + digits, base) == Head(negative, b, digits)
  {
    hide AllDigits, Digit;
    var u := prefix + digits;
    assert u[|prefix|..] == digits;
    if prefix == "" {
      assert u == digits;
      if b <= 16 {
        NotHex(digits, b);
      }
    } else if prefix == "0" {
      NotHexAfterZero(digits);
      assert u[0] == '0';
    } else {
      assert u[0] == prefix[0] && u[1] == prefix[1] && |u| > 2;
    }
  }

  lemma LiteralStart(base: int, prefix: string, b: nat, digits: string)
    requires IsPrefix(base, prefix, b, digits) && AllDigits(digits, b)
    ensures var u := prefix + digits; u != "" && u[0] != '-' && u[0] != '+'
  {
    hide Digit;
    NoDigits();
    assert prefix == "" ==> (prefix + digits)[0] == digits[0];
  }

  /** A literal is read as it is written. */
  lemma LiteralHead(s: string, base: int, sign: string, prefix: string, negative: bool, b: nat, digits: string)
    requires IsLiteral(s, base, sign, prefix, negative, b, digits)
    ensures HeadOf(s, base) == Head(negative, b, digits)
  {
    hide AllDigits, IsPrefix, BaseOf;
    var u := prefix + digits;
    assert s == sign + u;
    LiteralBase(base, prefix, negative, b, digits);
    LiteralStart(base, prefix, b, digits);
    if sign == "" {
      assert s == u;
    } else {
      assert s[0] == sign[0] && s[1..] == u;
    }
  }

  lemma BasePrefix(negative: bool, s: string, base: int) returns (prefix: string)
    requires s != ""
    requires var h := BaseOf(negative, s, base); h.Head? && AllDigits(h.digits, h.base)
    ensures var h := BaseOf(negative, s, base);
      h.negative == negative && IsPrefix(base, prefix, h.base, h.digits) && s == prefix + h.digits
  {
    hide AllDigits;
    var h := BaseOf(negative, s, base);
    if (base == 0 || base == 16) && HexMark(s) {
      prefix := s[..2];
      assert prefix == [s[0], s[1]] && s == prefix + s[2..];
    } else if base == 0 && s[0] == '0' {
      prefix := "0";
      assert s == prefix + s[1..];
    } else {
      prefix := "";
      assert s == prefix + s;
    }
  }

  /** What is read with nothing but digits after its head is a literal. */
  lemma HeadLiteral(s: string, base: int) returns (sign: string, prefix: string)
    requires var h := HeadOf(s, base); h.Head? && AllDigits(h.digits, h.base)
    ensures var h := HeadOf(s, base); IsLiteral(s, base, sign, prefix, h.negative, h.base, h.digits)
  {
    hide BaseOf, AllDigits, IsPrefix;
    var h := HeadOf(s, base);
    if s[0] == '-' || s[0] == '+' {
      sign := s[..1];
      prefix := BasePrefix(s[0] == '-', s[1..], base);
    } else {
      sign := "";
      prefix := BasePrefix(false, s, base);
    }
    assert s == sign + prefix + h.digits;
  }

  method SafeParseSignAndBase(text: string, base: int) returns (h: Head)
    ensures h == HeadOf(Trim(SPACES, text), base)
  {
    hide FirstGood, LastGood;
    var start, end := 0, |text|;
    while start < end && text[start] in SPACES
      invariant 0 <= start <= end && forall i :: 0 <= i < start ==> text[i] in SPACES
    {
      start := start + 1;
    }
    while start < end && text[end - 1] in SPACES
      invariant start <= end <= |text| && forall i :: end <= i < |text| ==> text[i] in SPACES
    {
      end := end - 1;
    }
    TrimmedSlice(text, start, end);
    if start >= end {
      return Refused;
    }
    ghost var s := text[start..end];
    var negative := text[start] == '-';
    if negative || text[start] == '+' {
      start := start + 1;
      if start >= end {
        return Refused;
      }
    }
    h := ParseBase(text[start..end], base, negative);
    assert |text[start..end]| < |s| ==> s[1..] == text[start..end];
  }

  lemma TrimmedSlice(text: string, start: nat, end: nat)
    requires start <= end <= |text|
    requires forall i :: 0 <= i < start ==> text[i] in SPACES
    requires forall i :: end <= i < |text| ==> text[i] in SPACES
    requires start < end ==> text[start] !in SPACES && text[end - 1] !in SPACES
    ensures Trim(SPACES, text) == text[start..end]
  {
    hide FirstGood, LastGood, Trim, SPACES;
    assert text == text[..start] + text[start..end] + text[end..];
    TrimUndoesPadding(SPACES, text[..start], text[start..end], text[end..]);
  }

  /** The branches on the base, on what follows the sign. */
  method ParseBase(s: string, requested: int, negative: bool) returns (h: Head)
    requires s != ""
    ensures h == BaseOf(negative, s, requested)
  {
    var base, start := requested, 0;
    if base == 0 {
      if |s| >= 2 && s[0] == '0' && (s[1] == 'x' || s[1] == 'X') {
        base := 16;
        start := 2;
        if start >= |s| {
          return Refused;
        }
      } else if |s| >= 1 && s[0] == '0' {
        base := 8;
        start := 1;
      } else {
        base := 10;
      }
    } else if base == 16 {
      if |s| >= 2 && s[0] == '0' && (s[1] == 'x' || s[1] == 'X') {
        start := 2;
        if start >= |s| {
          return Refused;
        }
      }
    } else if base >= 2 && base <= 36 {
    } else {
      return Refused;
    }
    return Head(negative, base, s[start..]);
  }

  // ----- The parsers --------------------------------------------------------------------------------

  function Signed(negative: bool, v: int): int {
    if negative then -v else v
  }

  /** The number of the longest valid-digit prefix, whether or not it fits. */
  function Reading(h: Head): int
    requires h.Head?
  {
    Signed(h.negative, Val(h.digits[..ValidLength(h.digits, h.base)], h.base))
  }

  /** The text, without the spaces around it, is a literal whose value fits. */
  ghost predicate Denotes(t: IntType, text: string, base: int, v: int) {
    exists sign, prefix, negative, b: nat, digits ::
      IsLiteral(Trim(SPACES, text), base, sign, prefix, negative, b, digits) && v == Signed(negative, Val(digits, b)) && Fits(t, v)
  }

  lemma HeadDenotes(t: IntType, text: string, base: int, v: int)
    ensures var h := HeadOf(Trim(SPACES, text), base);
      Denotes(t, text, base, v) <==>
        h.Head? && AllDigits(h.digits, h.base) && v == Signed(h.negative, Val(h.digits, h.base)) && Fits(t, v)
  {
    hide Trim, HeadOf, IsLiteral, Val;
    var s := Trim(SPACES, text);
    var h := HeadOf(s, base);
    if h.Head? && AllDigits(h.digits, h.base) {
      var sign, prefix := HeadLiteral(s, base);
    }
    forall sign, prefix, negative, b: nat, digits | IsLiteral(s, base, sign, prefix, negative, b, digits)
      ensures h == Head(negative, b, digits) && AllDigits(digits, b)
    {
      LiteralHead(s, base, sign, prefix, negative, b, digits);
      LiteralDigits(s, base, sign, prefix, negative, b, digits);
    }
  }

  lemma LiteralDigits(s: string, base: int, sign: string, prefix: string, negative: bool, b: nat, digits: string)
    requires IsLiteral(s, base, sign, prefix, negative, b, digits)
    ensures AllDigits(digits, b)
  {
  }

  predicate HasMinus(text: string) {
    var s := Trim(SPACES, text);
    s != "" && s[0] == '-'
  }

  lemma HeadMinus(text: string, base: int)
    ensures var h := HeadOf(Trim(SPACES, text), base); h.Head? ==> (h.negative <==> HasMinus(text))
  {
    hide Trim;
  }

  lemma HeadBase(s: string, base: int)
    ensures var h := HeadOf(s, base); h.Head? ==> 2 <= h.base <= 36
  {
  }

  /** What a failed parse leaves: 0 without sign and base, else the valid-digit prefix or the bound it passes. */
  predicate Left(t: IntType, h: Head, value: int) {
    if h.Refused? then value == 0
    else if Reading(h) < t.min then value == t.min
    else if Reading(h) > t.max then value == t.max
    else value == Reading(h)
  }

  /** Success exactly on a literal that fits, with its value; otherwise 0, or the valid-digit prefix clamped. */
  ghost predicate SignedResult(t: IntType, text: string, base: int, ok: bool, value: int) {
    && (ok ==> Denotes(t, text, base, value))
    && (forall v :: Denotes(t, text, base, v) ==> ok && value == v)
    && (!ok ==> var h := HeadOf(Trim(SPACES, text), base); Left(t, h, value))
  }

  /** The unsigned parser also refuses every minus sign, even that of "-0". */
  ghost predicate UnsignedResult(t: IntType, text: string, base: int, ok: bool, value: int) {
    && (ok ==> Denotes(t, text, base, value) && !HasMinus(text))
    && (forall v :: Denotes(t, text, base, v) && !HasMinus(text) ==> ok && value == v)
    && (!ok ==>
      var h := HeadOf(Trim(SPACES, text), base);
      if HasMinus(text) then value == 0 else Left(t, h, value))
  }

  method SafeIntInternal(t: IntType, text: string, base: int) returns (ok: bool, value: int)
    requires t.max >= 36 && t.min <= -36
    ensures SignedResult(t, text, base, ok, value)
  {
    hide Trim, HeadOf, Denotes, Val, ValidLength;
    value := 0;
    var h := SafeParseSignAndBase(text, base);
    forall v
      ensures Denotes(t, text, base, v) <==>
        h.Head? && AllDigits(h.digits, h.base) && v == Signed(h.negative, Val(h.digits, h.base)) && Fits(t, v)
    {
      HeadDenotes(t, text, base, v);
    }
    if h.Refused? {
      return false, 0;
    }
    HeadBase(Trim(SPACES, text), base);
    WholeIsValid(h.digits, h.base);
    if !h.negative {
      ok, value := SafeParsePositiveInt(t, h.digits, h.base);
    } else {
      ok, value := SafeParseNegativeInt(t, h.digits, h.base);
    }
  }

  method SafeUintInternal(t: IntType, text: string, base: int) returns (ok: bool, value: int)
    requires t.max >= 36 && t.min == 0
    ensures UnsignedResult(t, text, base, ok, value)
  {
    hide Trim, HeadOf, Denotes, Val, ValidLength, HasMinus;
    value := 0;
    var h := SafeParseSignAndBase(text, base);
    HeadMinus(text, base);
    forall v
      ensures Denotes(t, text, base, v) <==>
        h.Head? && AllDigits(h.digits, h.base) && v == Signed(h.negative, Val(h.digits, h.base)) && Fits(t, v)
    {
      HeadDenotes(t, text, base, v);
    }
    if h.Refused? || h.negative {
      return false, 0;
    }
    HeadBase(Trim(SPACES, text), base);
    WholeIsValid(h.digits, h.base);
    ok, value := SafeParsePositiveInt(t, h.digits, h.base);
  }

  /** The text behind a lone 0 makes it the mark of base 16. */
  predicate LooksHex(base: int, prefix: string, digits: string, junk: string)
    requires junk != ""
  {
    (base == 0 || base == 16) && prefix + digits == "0" && (junk[0] == 'x' || junk[0] == 'X')
  }

  /** A literal with something behind it that is no digit: what is read is the literal. */
  lemma PrefixIsRead(base: int, sign: string, prefix: string, negative: bool, b: nat, digits: string, junk: string)
    requires IsSign(sign, negative) && IsPrefix(base, prefix, b, digits) && AllDigits(digits, b)
    requires junk != "" && Digit(junk[0]) >= b && !LooksHex(base, prefix, digits, junk)
    ensures var h := HeadOf(sign + prefix + (digits + junk), base);
      h == Head(negative, b, digits + junk) && Reading(h) == Signed(negative, Val(digits, b))
  {
    hide AllDigits, Digit, ValidLength, Val, BaseOf, IsPrefix;
    var u := prefix + (digits + junk);
    assert sign + prefix + (digits + junk) == sign + u;
    BrokenBase(base, prefix, negative, b, digits, junk);
    BrokenStart(base, prefix, b, digits, junk);
    if sign == "" {
      assert sign + u == u;
    } else {
      assert (sign + u)[0] == sign[0] && (sign + u)[1..] == u;
    }
    BrokenLength(digits, junk, b);
  }

  lemma BrokenLength(digits: string, junk: string, b: nat)
    requires AllDigits(digits, b) && junk != "" && Digit(junk[0]) >= b
    ensures (digits + junk)[..ValidLength(digits + junk, b)] == digits
  {
    hide ValidLength, Digit;
    assert (digits + junk)[|digits|] == junk[0];
    assert forall i :: 0 <= i < |digits| ==> (digits + junk)[i] == digits[i];
    ValidLengthIs(digits + junk, b, |digits|);
  }

  lemma BrokenStart(base: int, prefix: string, b: nat, digits: string, junk: string)
    requires IsPrefix(base, prefix, b, digits) && AllDigits(digits, b)
    ensures var u := prefix + (digits + junk); u != "" && u[0] != '-' && u[0] != '+'
  {
    LiteralStart(base, prefix, b, digits);
    assert prefix + (digits + junk) == prefix + digits + junk;
    assert (prefix + digits + junk)[0] == (prefix + digits)[0];
  }

  lemma BrokenBase(base: int, prefix: string, negative: bool, b: nat, digits: string, junk: string)
    requires IsPrefix(base, prefix, b, digits) && AllDigits(digits, b)
    requires junk != "" && !LooksHex(base, prefix, digits, junk)
    ensures BaseOf(negative, prefix + (digits + junk), base) == Head(negative, b, digits + junk)
  {
    hide AllDigits, Digit;
    var u := prefix + (digits + junk);
    assert u[|prefix|..] == digits + junk;
    if prefix == "0x" || prefix == "0X" {
      assert u[0] == prefix[0] && u[1] == prefix[1] && |u| > 2;
    } else {
      assert u == prefix + digits + junk;
      assert u[0] == (prefix + digits)[0];
      if base == 0 || base == 16 {
        MarkStaysAway(base, prefix, b, digits, junk);
      }
      assert prefix == "" ==> u == digits + junk;
    }
  }

  lemma MarkStaysAway(base: int, prefix: string, b: nat, digits: string, junk: string)
    requires IsPrefix(base, prefix, b, digits) && AllDigits(digits, b) && (base == 0 || base == 16)
    requires prefix != "0x" && prefix != "0X" && junk != "" && !LooksHex(base, prefix, digits, junk)
    ensures !HexMark(prefix + digits + junk)
  {
    hide AllDigits, Digit;
    var t := prefix + digits;
    if prefix == "" {
      NotHex(digits, b);
      assert t == digits;
    } else {
      NotHexAfterZero(digits);
    }
    if |t| == 1 {
      assert t == [t[0]] && (t + junk)[1] == junk[0];
    } else {
      assert (t + junk)[0] == t[0] && (t + junk)[1] == t[1];
    }
  }

  method SafeStrTo32Base(text: string, base: int) returns (ok: bool, value: int)
    ensures SignedResult(IntType(-0x8000_0000, 0x7FFF_FFFF), text, base, ok, value)
  {
    ok, value := SafeIntInternal(INT32, text, base);
  }

  method SafeStrTo64Base(text: string, base: int) returns (ok: bool, value: int)
    ensures SignedResult(IntType(-0x8000_0000_0000_0000, 0x7FFF_FFFF_FFFF_FFFF), text, base, ok, value)
  {
    ok, value := SafeIntInternal(INT64, text, base);
  }

  method SafeStrToU32Base(text: string, base: int) returns (ok: bool, value: int)
    ensures UnsignedResult(IntType(0, 0xFFFF_FFFF), text, base, ok, value)
  {
    ok, value := SafeUintInternal(UINT32, text, base);
  }

  method SafeStrToU64Base(text: string, base: int) returns (ok: bool, value: int)
    ensures UnsignedResult(IntType(0, 0xFFFF_FFFF_FFFF_FFFF), text, base, ok, value)
  {
    ok, value := SafeUintInternal(UINT64, text, base);
  }

  // ----- Printing and reading back ------------------------------------------------------------------

  function DigitChar(d: nat): char
    requires d < 36
  {
    if d < 10 then '0' + d as char else 'a' + (d - 10) as char
  }

  lemma SmallerQuotient(v: nat, base: nat)
    requires v >= base >= 2
    ensures v / base < v
  {
    assert v * base == v * (base - 2) + 2 * v;
    assert v * (base - 2) >= 0;
    QuotientIsExact(v, base, v);
  }

  /** The shortest digit string of a number. */
  function Digits(v: nat, base: nat): string
    requires 2 <= base <= 36
    decreases v
  {
    (if v < base then "" else SmallerQuotient(v, base); Digits(v / base, base)) + [DigitChar(v % base)]
  }

  lemma {:induction false} DigitsRoundTrip(v: nat, base: nat)
    requires 2 <= base <= 36
    ensures Digits(v, base) != "" && AllDigits(Digits(v, base), base) && Val(Digits(v, base), base) == v
    decreases v
  {
    hide Digits, Val, AllDigits;
    if v >= base {
      SmallerQuotient(v, base);
      DigitsRoundTrip(v / base, base);
    }
    MoreDigits(v, base);
  }

  lemma MoreDigits(v: nat, base: nat)
    requires 2 <= base <= 36
    requires v >= base ==> AllDigits(Digits(v / base, base), base) && Val(Digits(v / base, base), base) == v / base
    ensures Digits(v, base) != "" && AllDigits(Digits(v, base), base) && Val(Digits(v, base), base) == v
  {
    hide Digit, DigitChar, Val, AllDigits;
    var init, q, d := if v < base then "" else Digits(v / base, base), v / base, v % base;
    DivMod(v, base);
    if v < base {
      NothingDenotesZero(base);
      SmallQuotient(v, base);
    }
    AddDigit(init, q, d, base);
  }

  lemma NothingDenotesZero(base: nat)
    ensures AllDigits("", base) && Val("", base) == 0
  {
  }

  lemma AddDigit(init: string, q: nat, d: nat, base: nat)
    requires 2 <= base <= 36 && AllDigits(init, base) && Val(init, base) == q && d < base
    ensures AllDigits(init + [DigitChar(d)], base) && Val(init + [DigitChar(d)], base) == q * base + d
  {
    hide Digit, DigitChar, Val;
    DigitOfChar(d);
    ValAppend(init, DigitChar(d), base);
  }

  lemma DigitOfChar(d: nat)
    requires d < 36
    ensures Digit(DigitChar(d)) == d
  {
  }

  lemma ValAppend(s: string, c: char, base: nat)
    ensures Val(s + [c], base) == Val(s, base) * base + Digit(c)
  {
    hide Digit;
    assert (s + [c])[..|s|] == s;
  }

  lemma SmallQuotient(v: nat, base: nat)
    requires v < base
    ensures v / base == 0
  {
  }

  predicate IsSpace(c: char) {
    9 <= c as int <= 13 || c as int == 32
  }

  predicate Spaces(s: string) {
    forall i :: 0 <= i < |s| ==> IsSpace(s[i])
  }

  /** The same digits with any of the letters in upper case. */
  predicate SameDigits(s: string, lower: string) {
    |s| == |lower| && forall i :: 0 <= i < |s| ==> s[i] == lower[i] || ('a' <= lower[i] <= 'z' && s[i] == lower[i] - 32 as char)
  }

  lemma SameDigit(c: char, lower: char)
    requires c == lower || ('a' <= lower <= 'z' && c == lower - 32 as char)
    ensures Digit(c) == Digit(lower)
    ensures Digit(lower) < 36 ==> !IsSpace(c) && c != '-'
  {
  }

  lemma {:induction false} SameValue(s: string, lower: string, base: nat)
    requires SameDigits(s, lower)
    ensures Val(s, base) == Val(lower, base) && (AllDigits(s, base) <==> AllDigits(lower, base))
    decreases |s|
  {
    hide Digit, IsSpace;
    forall i | 0 <= i < |s|
      ensures Digit(s[i]) == Digit(lower[i])
    {
      SameDigit(s[i], lower[i]);
    }
    if s != "" {
      SameValue(s[..|s| - 1], lower[..|s| - 1], base);
    }
  }

  lemma SpacesAreTrimmed(s: string)
    ensures Spaces(s) <==> AllWhite(SPACES, s)
  {
    assert forall c :: IsSpace(c) <==> c in SPACES;
  }

  /** Every number of the type is read back from its digits in every base, with letters of either case, any number of
      spaces around it, and a plus sign if it is not negative. */
  lemma NumberRoundTrip(t: IntType, v: int, base: nat, sign: string, digits: string, before: string, after: string)
    requires t.min <= v <= t.max && 2 <= base <= 36 && Spaces(before) && Spaces(after)
    requires if v < 0 then sign == "-" else sign == "" || sign == "+"
    requires SameDigits(digits, Digits(if v < 0 then -v else v, base))
    ensures Denotes(t, before + (sign + digits) + after, base, v)
  {
    hide Trim, Digits, Val, AllWhite, IsSpace, Digit;
    var n := if v < 0 then -v else v;
    var s := sign + digits;
    DigitsRoundTrip(n, base);
    SameValue(digits, Digits(n, base), base);
    SpacesAreTrimmed(before);
    SpacesAreTrimmed(after);
    TextIsTrimmed(sign, digits, base);
    TrimUndoesPadding(SPACES, before, s, after);
    assert s == sign + "" + digits;
    assert IsLiteral(s, base, sign, "", v < 0, base, digits);
  }

  lemma TextIsTrimmed(sign: string, digits: string, base: nat)
    requires digits != "" && AllDigits(digits, base) && base <= 36 && (sign == "" || sign == "+" || sign == "-")
    ensures Trimmed(SPACES, sign + digits)
  {
    var s := sign + digits;
    assert s[|s| - 1] == digits[|digits| - 1] && s[0] == if sign == "" then digits[0] else sign[0];
    assert forall c :: c in SPACES ==> Digit(c) == 36;
  }
}
