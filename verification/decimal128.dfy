/** gtest's printer for 128-bit integers without 128-bit division
    (third-party/googletest/googletest/src/gtest-printers.cc:289-331). */
module Decimal128 {

  const WORD: nat := 0x1_0000_0000_0000_0000
  const WORD_TENTH: nat := 1844674407370955161
  const TWO_127: int := 0x8000_0000_0000_0000_0000_0000_0000_0000
  const TWO_128: nat := 0x1_0000_0000_0000_0000_0000_0000_0000_0000

  /** Arithmetic on a 64-bit word wraps around. */
  function U64(x: nat): nat { x % WORD }

  function Digit(d: nat): char
    requires d < 10
  {
    '0' + d as char
  }

  /** The digits of `v` without leading zeros: none at all for zero. */
  function Digits(v: nat): string {
    if v == 0 then "" else Digits(v / 10) + [Digit(v % 10)]
  }

  function Decimal(v: nat): string {
    if v == 0 then "0" else Digits(v)
  }

  // ---------- What the digits mean ----------

  predicate IsDigits(s: string) { forall i :: 0 <= i < |s| ==> '0' <= s[i] <= '9' }

  function Value(s: string): nat
    requires IsDigits(s)
  {
    if s == "" then 0 else 10 * Value(s[..|s| - 1]) + (s[|s| - 1] - '0') as nat
  }

  lemma {:induction false} DigitsMean(v: nat)
    ensures IsDigits(Digits(v)) && Value(Digits(v)) == v
    ensures v > 0 ==> Digits(v) != "" && Digits(v)[0] != '0'
  {
    if v > 0 {
      DigitsMean(v / 10);
      var s := Digits(v);
      assert s[..|s| - 1] == Digits(v / 10);
    }
  }

  /** The printed form is the decimal numeral: digits only, of that value, and with no leading
      zero except in zero itself. */
  lemma DecimalMeans(v: nat)
    ensures IsDigits(Decimal(v)) && Decimal(v) != "" && Value(Decimal(v)) == v
    ensures |Decimal(v)| > 1 ==> Decimal(v)[0] != '0'
  {
    DigitsMean(v);
    if v == 0 { assert "0"[..0] == ""; }
  }

  lemma DecimalInjective(v: nat, w: nat)
    requires Decimal(v) == Decimal(w)
    ensures v == w
  {
    DecimalMeans(v);
    DecimalMeans(w);
  }

  function Pow10(k: nat): nat { if k == 0 then 1 else 10 * Pow10(k - 1) }

  lemma {:induction false} DigitsLength(v: nat, k: nat)
    requires v < Pow10(k)
    ensures |Digits(v)| <= k
  {
    if v > 0 { DigitsLength(v / 10, k - 1); }
  }

  lemma PowersOfTen()
    ensures Pow10(39) == 1_000_000_000_000_000_000_000_000_000_000_000_000_000
  {
    assert Pow10(10) == 10_000_000_000;
    assert Pow10(20) == 100_000_000_000_000_000_000;
    assert Pow10(30) == 1_000_000_000_000_000_000_000_000_000_000;
  }

  /** Thirty-nine digits are enough for 128 bits. */
  lemma FitsBuffer(v: nat)
    requires v < TWO_128
    ensures |Digits(v)| <= 39
  {
    PowersOfTen();
    DigitsLength(v, 39);
  }

  method SplitWords(v: nat) returns (high: nat, low: nat)
    requires v < TWO_128
    ensures high < WORD && low < WORD && v == high * WORD + low
  {
    high, low := v / WORD, v % WORD;
  }

  // ---------- One step of the long division ----------

  /** The low word of the quotient, as the loop computes it but without wrap-around. */
  function NewLow(high: nat, low: nat): nat {
    low / 10 + (high % 10) * WORD_TENTH + (6 * (high % 10) + low % 10) / 10
  }

  /** No operation wraps around. */
  lemma NoWrap(high: nat, low: nat)
    requires high < WORD && low < WORD
    ensures NewLow(high, low) < WORD
    ensures U64(U64(6 * (high % 10)) + low % 10) == 6 * (high % 10) + low % 10
    ensures U64(U64(low / 10 + U64((high % 10) * WORD_TENTH)) + (6 * (high % 10) + low % 10) / 10) == NewLow(high, low)
  {
    var m := high % 10;
    assert low / 10 <= WORD_TENTH;
    assert low / 10 == WORD_TENTH ==> low % 10 <= 5;
    assert m * WORD_TENTH <= 9 * WORD_TENTH;
    SmallWord(6 * m);
    SmallWord(6 * m + low % 10);
    SmallWord(m * WORD_TENTH);
    SmallWord(low / 10 + m * WORD_TENTH);
    SmallWord(NewLow(high, low));
  }

  lemma SmallWord(x: nat)
    ensures x < WORD ==> U64(x) == x
  {
  }

  /** The two words hold the quotient by ten, and the carry holds the remainder. */
  lemma DivideByTen(high: nat, low: nat)
    ensures high * WORD + low == 10 * ((high / 10) * WORD + NewLow(high, low)) + (6 * (high % 10) + low % 10) % 10
  {
    var h, m := high / 10, high % 10;
    var carry := 6 * m + low % 10;
    assert high == 10 * h + m && low == 10 * (low / 10) + low % 10 && carry == 10 * (carry / 10) + carry % 10;
  }

  lemma QuotientIs(n: nat, q: nat, r: nat)
    requires n == 10 * q + r && r < 10
    ensures n / 10 == q && n % 10 == r
  {
  }

  /** The bound is tight: the low word can become all ones. */
  lemma TightAtAllOnes()
    ensures NewLow(9, WORD - 1) == WORD - 1
  {
  }

  /** `done` is what was printed of `v` so far, at `p`, and `rest` what is still to print. */
  ghost predicate Printing(v: nat, rest: nat, done: string, p: int) {
    |Digits(rest)| <= p <= 39 && |done| == 39 - p && Digits(v) == Digits(rest) + done
  }

  lemma Peel(v: nat, q: nat, d: nat, done: string, p: int)
    requires d < 10 && 10 * q + d > 0 && Printing(v, 10 * q + d, done, p)
    ensures p >= 1 && Printing(v, q, [Digit(d)] + done, p - 1)
  {
    QuotientIs(10 * q + d, q, d);
  }

  /** The arithmetic of the loop body: quotient by ten in two words, and the digit. */
  method DivideWords(high: nat, low: nat) returns (h: nat, l: nat, digit: nat)
    requires high < WORD && low < WORD
    ensures h < WORD && l < WORD && digit < 10
    ensures high * WORD + low == 10 * (h * WORD + l) + digit
  {
    NoWrap(high, low);
    DivideByTen(high, low);
    var highMod := high % 10;
    h := high / 10;
    var carry := U64(U64(6 * highMod) + low % 10);
    l := U64(U64(low / 10 + U64(highMod * WORD_TENTH)) + carry / 10);
    digit := carry % 10;
  }

  /** The loop: fills the buffer from the back, and never runs off its front. */
  method FillBackwards(buf: array<char>, v: nat, high0: nat, low0: nat) returns (p: nat)
    requires buf.Length == 40 && high0 < WORD && low0 < WORD
    requires v == high0 * WORD + low0 && |Digits(v)| <= 39
    modifies buf
    ensures p <= 39 && buf[p..39] == Digits(v) && buf[39] == old(buf[39])
  {
    p := 39;
    var high: nat, low: nat := high0, low0;
    ghost var rest: nat := v;
    while high != 0 || low != 0
      invariant high < WORD && low < WORD && rest == high * WORD + low
      invariant p <= 39 && Printing(v, rest, buf[p..39], p) && buf[39] == old(buf[39])
      decreases rest
    {
      ghost var done := buf[p..39];
      var digit: nat;
      high, low, digit := DivideWords(high, low);
      rest := high * WORD + low;
      Peel(v, rest, digit, done, p);
      p := p - 1;
      buf[p] := Digit(digit);
      assert buf[p..39] == [Digit(digit)] + done;
    }
  }

  /** Thirty-nine digits and the terminator are forty bytes. */
  method PrintTo(v: nat) returns (s: string)
    requires v < TWO_128
    ensures s == Decimal(v)
  {
    if v == 0 {
      return "0";
    }
    var buf := new char[40];
    var high: nat, low: nat := SplitWords(v);
    buf[39] := '\0';
    FitsBuffer(v);
    var p := FillBackwards(buf, v, high, low);
    s := buf[p..39];
  }

  /** Negating the unsigned pattern of a negative number gives its magnitude. */
  lemma Magnitude(v: int)
    requires -TWO_127 <= v < TWO_127
    ensures v >= 0 ==> v % TWO_128 == v
    ensures v < 0 ==> (-(v % TWO_128)) % TWO_128 == -v
  {
    if v < 0 {
      assert v % TWO_128 == v + TWO_128;
    }
  }

  /** The signed printer: the magnitude is taken modulo 2^128, which is right even for the
      least number. */
  method PrintSigned(v: int) returns (s: string)
    requires -TWO_127 <= v < TWO_127
    ensures s == if v < 0 then "-" + Decimal(-v) else Decimal(v)
  {
    Magnitude(v);
    var uv := v % TWO_128;
    s := "";
    if v < 0 {
      s := "-";
      uv := (-uv) % TWO_128;
    }
    var t := PrintTo(uv);
    s := s + t;
  }
}
