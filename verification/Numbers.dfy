/** Printing and reading numbers: utoa, itoa and atoi of lib/string.c. */
module Numbers {
  import opened Bytes

  const MINUS: Byte := 45
  const PLUS: Byte := 43
  const SPACE: Byte := 32
  const TAB: Byte := 9
  const ZERO: Byte := 48
  const LOWER_A: Byte := 97
  const I32_MAX := 0x7FFF_FFFF
  const I32_MIN := -0x8000_0000

  // --- numerals ------------------------------------------------------------

  function Glyph(d: nat): Byte
    requires d < 16
  {
    if d < 10 then ZERO + d else LOWER_A + d - 10
  }

  /** What a digit stands for; 16 for anything that is none. */
  function DigitOf(c: Byte): nat
  {
    if ZERO <= c < ZERO + 10 then c - ZERO else if LOWER_A <= c < LOWER_A + 6 then c - LOWER_A + 10 else 16
  }

  /** The positional value of `s[j..n]`. */
  function ValueIn(s: seq<Byte>, base: nat, j: nat, n: nat): nat
    requires n <= |s|
    decreases n
  {
    if n <= j then 0 else ValueIn(s, base, j, n - 1) * base + DigitOf(s[n - 1])
  }

  ghost predicate AllDigits(s: seq<Byte>, base: nat)
  {
    forall i :: 0 <= i < |s| ==> DigitOf(s[i]) < base
  }

  /** Digits of the base, and no leading zero unless the whole numeral is "0". */
  ghost predicate Canonical(s: seq<Byte>, base: nat)
  {
    |s| > 0 && AllDigits(s, base) && (|s| > 1 ==> s[0] != ZERO)
  }

  function Numeral(v: nat, base: nat): seq<Byte>
    requires 2 <= base <= 16
    decreases v
  {
    if v < base then [Glyph(v)] else Numeral(v / base, base) + [Glyph(v % base)]
  }

  lemma {:induction false} ValuePrefix(a: seq<Byte>, b: seq<Byte>, base: nat, n: nat)
    requires n <= |a|
    ensures ValueIn(a + b, base, 0, n) == ValueIn(a, base, 0, n)
  {
    if n > 0 { ValuePrefix(a, b, base, n - 1); }
  }

  lemma GlyphDigit(d: nat)
    requires d < 16
    ensures DigitOf(Glyph(d)) == d && (Glyph(d) == ZERO <==> d == 0)
  {
  }

  /** The numeral is canonical and its value is the number. */
  lemma {:induction false} NumeralOk(v: nat, base: nat)
    requires 2 <= base <= 16
    ensures Canonical(Numeral(v, base), base) && ValueIn(Numeral(v, base), base, 0, |Numeral(v, base)|) == v
    ensures v > 0 ==> Numeral(v, base)[0] != ZERO
    decreases v
  {
    var s := Numeral(v, base);
    if v < base {
      GlyphDigit(v);
      assert ValueIn(s, base, 0, 0) == 0;
    } else {
      var q, d := NumeralSplit(v, base);
      NumeralOk(q, base);
      GlyphDigit(d);
      DigitAdded(Numeral(q, base), Glyph(d), base);
    }
  }

  lemma DigitAdded(a: seq<Byte>, c: Byte, base: nat)
    requires Canonical(a, base) && a[0] != ZERO && DigitOf(c) < base
    ensures Canonical(a + [c], base) && (a + [c])[0] != ZERO
    ensures ValueIn(a + [c], base, 0, |a| + 1) == ValueIn(a, base, 0, |a|) * base + DigitOf(c)
  {
    ValuePrefix(a, [c], base, |a|);
  }

  lemma GlyphOf(c: Byte, base: nat)
    requires base <= 16 && DigitOf(c) < base
    ensures Glyph(DigitOf(c)) == c
  {
  }

  /** A canonical numeral with a leading digit other than zero has a positive value. */
  lemma {:induction false} LeadingDigit(s: seq<Byte>, base: nat, n: nat)
    requires 2 <= base <= 16 && 0 < n <= |s| && AllDigits(s, base) && s[0] != ZERO
    ensures ValueIn(s, base, 0, n) > 0
  {
    if n > 1 {
      LeadingDigit(s, base, n - 1);
      MulMono(1, ValueIn(s, base, 0, n - 1), base);
    } else {
      GlyphOf(s[0], base);
      assert ValueIn(s, base, 0, 0) == 0;
    }
  }

  /** There is no other canonical numeral of a number. */
  lemma {:induction false} CanonicalUnique(s: seq<Byte>, base: nat)
    requires 2 <= base <= 16 && Canonical(s, base)
    ensures s == Numeral(ValueIn(s, base, 0, |s|), base)
    decreases |s|
  {
    var n := |s| - 1;
    var init, d := s[..n], DigitOf(s[n]);
    GlyphOf(s[n], base);
    assert s == init + [s[n]];
    var hi := ValueIn(s, base, 0, n);
    if n == 0 {
      assert hi == 0;
    } else {
      ValuePrefix(init, [s[n]], base, n);
      CanonicalUnique(init, base);
      LeadingDigit(s, base, n);
      DivMod(hi, d, base);
      assert ValueIn(s, base, 0, |s|) == hi * base + d;
    }
  }

  lemma DivMod(q: nat, d: nat, base: nat)
    requires d < base && q > 0
    ensures (q * base + d) / base == q && (q * base + d) % base == d && q * base + d >= base
  {
    var x := q * base + d;
    MulMono(x / base, q - 1, base);
    MulMono(q + 1, x / base, base);
    MulMono(1, q, base);
  }

  lemma MulMono(a: int, b: int, c: nat)
    ensures a <= b ==> a * c <= b * c
  {
  }

  /** A numeral of more than one digit, taken apart. */
  lemma NumeralSplit(v: nat, base: nat) returns (q: nat, d: nat)
    requires 2 <= base <= 16 && v >= base
    ensures q == v / base && d == v % base && 0 < q < v && d < base && q * base + d == v
    ensures Numeral(v, base) == Numeral(q, base) + [Glyph(d)]
  {
    q, d := v / base, v % base;
    DivBounds(v, base);
  }

  lemma DivBounds(v: nat, base: nat)
    requires base >= 2
    ensures v / base * base + v % base == v && v % base < base
    ensures if v >= base then 0 < v / base < v && v / base <= v / 2 else v / base == 0 && v % base == v
  {
    MulMono(2, base, v / base);
  }

  function Power(base: nat, k: nat): nat
  {
    if k == 0 then 1 else base * Power(base, k - 1)
  }

  /** A number below the k-th power of the base has at most k digits. */
  lemma {:induction false} NumeralLength(v: nat, base: nat, k: nat)
    requires 2 <= base <= 16 && k > 0 && v < Power(base, k)
    ensures |Numeral(v, base)| <= k
    decreases k
  {
    if v >= base {
      DivBounds(v, base);
      MulMono(Power(base, k - 1), v / base, base);
      NumeralLength(v / base, base, k - 1);
    }
  }

  lemma {:induction false} PowerMono(a: nat, b: nat, k: nat)
    requires a <= b
    ensures Power(a, k) <= Power(b, k)
  {
    if k > 0 {
      PowerMono(a, b, k - 1);
      MulMono(a, b, Power(a, k - 1));
      MulMono(Power(a, k - 1), Power(b, k - 1), b);
    }
  }

  lemma TwoTo32()
    ensures Power(2, 32) == U32_LIMIT
  {
    assert Power(2, 8) == 256;
    assert Power(2, 16) == 65536;
    assert Power(2, 24) == 0x100_0000;
  }

  /** No word has more than 32 digits in any base, so that tmp[33] suffices. */
  lemma WordDigits(v: U32, base: nat)
    requires 2 <= base <= 16
    ensures |Numeral(v, base)| <= 32
  {
    TwoTo32();
    PowerMono(2, base, 32);
    NumeralLength(v, base, 32);
  }

  /** A word has at most eight hexadecimal digits. */
  lemma HexDigits(v: U32)
    ensures |Numeral(v, 16)| <= 8
  {
    assert Power(16, 4) == 65536;
    assert Power(16, 8) == U32_LIMIT;
    NumeralLength(v, 16, 8);
  }

  /** A signed word has at most eleven characters in decimal, the sign included: the sixteen-byte buffers that the
      kernel passes are large enough. */
  lemma DecimalLength(v: int)
    requires I32_MIN <= v <= I32_MAX
    ensures |Decimal(v)| <= 11
  {
    assert Power(10, 5) == 100_000;
    assert Power(10, 10) == 10_000_000_000;
    NumeralLength(if v < 0 then -v else v, 10, 10);
  }

  // --- utoa and itoa -------------------------------------------------------

  /** `text` and its terminator stand in `buf` from `at` on; the bytes elsewhere are those of `was`. */
  ghost predicate Holds(buf: seq<Byte>, was: seq<Byte>, at: nat, text: seq<Byte>)
  {
    && |buf| == |was| && at + |text| < |buf| && buf[at..at + |text|] == text && buf[at + |text|] == 0
    && (forall i :: 0 <= i < |buf| && !(at <= i <= at + |text|) ==> buf[i] == was[i])
  }

  /** What utoa writes: the numeral, or the empty string in a base outside 2..16. */
  function InBase(value: nat, base: int): seq<Byte>
  {
    if 2 <= base <= 16 then Numeral(value, base) else []
  }

  /** utoa, writing from `at` on into a buffer that has room for the text and its terminator. */
  method Utoa(value: U32, buf: array<Byte>, at: nat, base: int)
    requires at + |InBase(value, base)| < buf.Length
    modifies buf
    ensures Holds(buf[..], old(buf[..]), at, InBase(value, base))
  {
    if base < 2 || base > 16 {
      buf[at] := 0;
      return;
    }
    ghost var text := Numeral(value, base);
    WordDigits(value, base);
    var tmp, i := Digits(value, base);
    var j := 0;
    while i > 0
      invariant 0 <= i <= |text| && j == |text| - i
      invariant forall x :: 0 <= x < |text| ==> tmp[x] == text[|text| - 1 - x]
      invariant forall x :: 0 <= x < buf.Length ==> buf[x] == if at <= x < at + j then text[x - at] else old(buf[x])
    {
      i := i - 1;
      buf[at + j] := tmp[i];
      j := j + 1;
    }
    buf[at + j] := 0;
  }

  /** The first loop of utoa: the digits, last one first. */
  method Digits(value: U32, base: int) returns (tmp: array<Byte>, i: nat)
    requires 2 <= base <= 16 && |Numeral(value, base)| <= 32
    ensures fresh(tmp) && tmp.Length == 33 && i == |Numeral(value, base)|
    ensures forall x :: 0 <= x < i ==> tmp[x] == Numeral(value, base)[i - 1 - x]
  {
    ghost var text := Numeral(value, base);
    tmp := new Byte[33];
    var v: nat := value;
    i := 0;
    if v == 0 {
      tmp[0] := ZERO;
      i := 1;
    }
    while v > 0
      invariant i <= |text| && (v == 0 ==> i == |text|) &&
                (v > 0 ==> i < |text| && Numeral(v, base) == text[..|text| - i])
      invariant forall x :: 0 <= x < i ==> tmp[x] == text[|text| - 1 - x]
    {
      DigitStep(v, base, text, i);
      tmp[i] := Glyph(v % base);
      i, v := i + 1, v / base;
    }
  }

  /** Dividing takes the last digit off what is left of the numeral. */
  lemma DigitStep(v: nat, base: nat, text: seq<Byte>, i: nat)
    requires 2 <= base <= 16 && v > 0 && i < |text| && Numeral(v, base) == text[..|text| - i]
    ensures text[|text| - 1 - i] == Glyph(v % base) && v / base < v
    ensures if v / base > 0 then i + 1 < |text| && Numeral(v / base, base) == text[..|text| - i - 1]
            else i + 1 == |text|
  {
    var n := Numeral(v, base);
    DivBounds(v, base);
    assert n[|n| - 1] == text[|text| - 1 - i];
    if v >= base {
      var q, d := NumeralSplit(v, base);
      assert Numeral(q, base) == n[..|n| - 1] == text[..|text| - i - 1];
    }
  }

  /** The decimal text of a signed number. */
  function Decimal(v: int): seq<Byte>
  {
    if v < 0 then [MINUS] + Numeral(-v, 10) else Numeral(v, 10)
  }

  /** itoa: the magnitude is taken in 64 bits, so the minimum is printed too. */
  method Itoa(value: int, buf: array<Byte>)
    requires I32_MIN <= value <= I32_MAX && |Decimal(value)| < buf.Length
    modifies buf
    ensures Holds(buf[..], old(buf[..]), 0, Decimal(value))
  {
    var p := 0;
    var mag := value;
    if value < 0 {
      buf[0] := MINUS;
      p := 1;
      mag := -value;
    }
    Utoa(mag, buf, p, 10);
    if value < 0 { assert buf[..][0..1 + |Numeral(mag, 10)|] == [buf[0]] + buf[..][1..1 + |Numeral(mag, 10)|]; }
  }

  // --- atoi ----------------------------------------------------------------

  predicate IsBlank(c: Byte)
  {
    c == SPACE || c == TAB
  }

  predicate IsDecimal(c: Byte)
  {
    ZERO <= c <= ZERO + 9
  }

  /** Where the blanks from `i` on end. */
  function BlanksEnd(s: seq<Byte>, i: nat): (e: nat)
    requires i <= |s|
    ensures i <= e <= |s|
    decreases |s| - i
  {
    if i < |s| && IsBlank(s[i]) then BlanksEnd(s, i + 1) else i
  }

  /** Where the decimal digits from `i` on end. */
  function DigitsEnd(s: seq<Byte>, i: nat): (e: nat)
    requires i <= |s|
    ensures i <= e <= |s|
    decreases |s| - i
  {
    if i < |s| && IsDecimal(s[i]) then DigitsEnd(s, i + 1) else i
  }

  predicate Negative(s: seq<Byte>)
  {
    var i := BlanksEnd(s, 0);
    i < |s| && s[i] == MINUS
  }

  function NumberStart(s: seq<Byte>): (j: nat)
    ensures j <= |s|
  {
    var i := BlanksEnd(s, 0);
    if i < |s| && (s[i] == MINUS || s[i] == PLUS) then i + 1 else i
  }

  /** The magnitude that a text spells out. */
  function Magnitude(s: seq<Byte>): nat
  {
    ValueIn(s, 10, NumberStart(s), DigitsEnd(s, NumberStart(s)))
  }

  function Parsed(s: seq<Byte>): int
  {
    if Negative(s) then 0 - Magnitude(s) else Magnitude(s)
  }

  /** More digits never make the value smaller. */
  lemma {:induction false} ValueGrows(s: seq<Byte>, j: nat, a: nat, b: nat)
    requires j <= a <= b <= |s|
    ensures ValueIn(s, 10, j, a) <= ValueIn(s, 10, j, b)
    decreases b
  {
    if a < b { ValueGrows(s, j, a, b - 1); }
  }

  /** atoi on the string `s` with its terminator behind it. The sum is a 32-bit one: it overflows at some digit exactly
      when the magnitude is above the maximum, and the result then means nothing. */
  method Atoi(s: seq<Byte>) returns (r: int, overflow: bool)
    ensures overflow <==> Magnitude(s) > I32_MAX
    ensures !overflow ==> r == Parsed(s) && -I32_MAX <= r <= I32_MAX
  {
    var i := 0;
    while i < |s| && IsBlank(s[i])
      invariant i <= |s| && BlanksEnd(s, i) == BlanksEnd(s, 0)
    {
      i := i + 1;
    }
    var sign := 1;
    if i < |s| && s[i] == MINUS {
      sign, i := -1, i + 1;
    } else if i < |s| && s[i] == PLUS {
      i := i + 1;
    }
    var v: nat := 0;
    ghost var j := i;
    while i < |s| && IsDecimal(s[i])
      invariant j <= i <= |s| && DigitsEnd(s, i) == DigitsEnd(s, j) && v == ValueIn(s, 10, j, i) <= I32_MAX
    {
      var d := s[i] - ZERO;
      if v * 10 + d > I32_MAX {
        ValueGrows(s, j, i + 1, DigitsEnd(s, i + 1));
        return 0, true;
      }
      v, i := v * 10 + d, i + 1;
    }
    return sign * v, false;
  }

  // --- what atoi reads -----------------------------------------------------

  lemma {:induction false} BlanksEndAt(s: seq<Byte>, i: nat, a: nat)
    requires i <= a <= |s| && (forall k :: i <= k < a ==> IsBlank(s[k])) && (a < |s| ==> !IsBlank(s[a]))
    ensures BlanksEnd(s, i) == a
    decreases a - i
  {
    if i < a { BlanksEndAt(s, i + 1, a); }
  }

  lemma {:induction false} DigitsEndAt(s: seq<Byte>, i: nat, e: nat)
    requires i <= e <= |s| && (forall k :: i <= k < e ==> IsDecimal(s[k])) && (e < |s| ==> !IsDecimal(s[e]))
    ensures DigitsEnd(s, i) == e
    decreases e - i
  {
    if i < e { DigitsEndAt(s, i + 1, e); }
  }

  /** On every string: spaces and tabs up to `a`, then a minus, a plus or neither, then decimal digits from `j` to `e`,
      where they end. atoi reads the value of the digits, negated after a minus. */
  lemma ReadsNumber(s: seq<Byte>, a: nat, j: nat, e: nat)
    requires a <= j <= e <= |s|
    requires (forall k :: 0 <= k < a ==> s[k] == 32 || s[k] == 9) && (a < |s| ==> s[a] != 32 && s[a] != 9)
    requires j == if a < |s| && (s[a] == 45 || s[a] == 43) then a + 1 else a
    requires (forall k :: j <= k < e ==> 48 <= s[k] <= 57) && (e < |s| ==> !(48 <= s[e] <= 57))
    ensures Parsed(s) == if a < |s| && s[a] == 45 then 0 - ValueIn(s, 10, j, e) else ValueIn(s, 10, j, e)
  {
    BlanksEndAt(s, 0, a);
    DigitsEndAt(s, j, e);
  }

  // --- the round trip ------------------------------------------------------

  lemma {:induction false} AllDecimal(s: seq<Byte>, i: nat)
    requires i <= |s| && forall x :: i <= x < |s| ==> IsDecimal(s[x])
    ensures DigitsEnd(s, i) == |s|
    decreases |s| - i
  {
    if i < |s| { AllDecimal(s, i + 1); }
  }

  lemma {:induction false} ValueAfter(a: seq<Byte>, b: seq<Byte>, n: nat)
    requires n <= |b|
    ensures ValueIn(a + b, 10, |a|, |a| + n) == ValueIn(b, 10, 0, n)
  {
    if n > 0 {
      ValueAfter(a, b, n - 1);
      assert (a + b)[|a| + n - 1] == b[n - 1];
    }
  }

  /** Reading a printed number gives the number, whatever its size. */
  lemma ParsedDecimal(v: int)
    ensures Parsed(Decimal(v)) == v && Magnitude(Decimal(v)) == if v < 0 then -v else v
  {
    var m := if v < 0 then -v else v;
    var digits := Numeral(m, 10);
    NumeralOk(m, 10);
    forall x | 0 <= x < |digits| ensures IsDecimal(digits[x]) {
      assert DigitOf(digits[x]) < 10;
    }
    var s, sign := Decimal(v), if v < 0 then [MINUS] else [];
    assert s == sign + digits;
    forall x | |sign| <= x < |s| ensures IsDecimal(s[x]) {
      assert s[x] == digits[x - |sign|];
    }
    assert NumberStart(s) == |sign| && (Negative(s) <==> v < 0) by {
      assert BlanksEnd(s, 0) == 0;
    }
    AllDecimal(s, |sign|);
    ValueAfter(sign, digits, |digits|);
  }

  /** atoi of itoa is the identity, with no overflow on the way, exactly for the numbers above the minimum. */
  lemma RoundTripIff(v: int)
    requires I32_MIN <= v <= I32_MAX
    ensures Magnitude(Decimal(v)) <= I32_MAX && Parsed(Decimal(v)) == v <==> v > I32_MIN
  {
    ParsedDecimal(v);
  }

  /** The minimum is printed, but reading it back overflows. */
  lemma MinimumOverflows()
    ensures Magnitude(Decimal(I32_MIN)) > I32_MAX
  {
    ParsedDecimal(I32_MIN);
  }
}
