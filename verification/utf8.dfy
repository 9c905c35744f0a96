/** gtest's UTF-8 writer (third-party/googletest/googletest/src/gtest.cc:1961-2016) and
    validator (third-party/googletest/googletest/src/gtest-printers.cc:481-514) against the
    encoding of sections 3 and 4 of RFC 3629. */
module Utf8 {

  type byte = bv8

  const MAX_CODE_POINT_1: bv32 := 0x7F
  const MAX_CODE_POINT_2: bv32 := 0x7FF
  const MAX_CODE_POINT_3: bv32 := 0xFFFF
  const MAX_CODE_POINT_4: bv32 := 0x1F_FFFF

  predicate IsScalar(cp: bv32) { cp <= 0x10_FFFF && !(0xD800 <= cp <= 0xDFFF) }

  type Scalar = cp: bv32 | IsScalar(cp)

  function Trail(cp: bv32): byte { (0x80 | (cp & 0x3F)) as byte }

  function Lead2(cp: bv32): byte requires cp <= MAX_CODE_POINT_2 { (0xC0 | (cp >> 6)) as byte }
  function Lead3(cp: bv32): byte requires cp <= MAX_CODE_POINT_3 { (0xE0 | (cp >> 12)) as byte }
  function Lead4(cp: bv32): byte requires cp <= MAX_CODE_POINT_4 { (0xF0 | (cp >> 18)) as byte }

  /** The bit patterns of section 3 of RFC 3629, which reach up to 21 bits. */
  function Encode(cp: bv32): (s: seq<byte>)
    requires cp <= MAX_CODE_POINT_4
    ensures s != []
  {
    if cp <= MAX_CODE_POINT_1 then [cp as byte]
    else if cp <= MAX_CODE_POINT_2 then [Lead2(cp), Trail(cp)]
    else if cp <= MAX_CODE_POINT_3 then [Lead3(cp), Trail(cp >> 6), Trail(cp)]
    else [Lead4(cp), Trail(cp >> 12), Trail(cp >> 6), Trail(cp)]
  }

  function EncodeAll(cps: seq<Scalar>): seq<byte> {
    if cps == [] then [] else Encode(cps[0]) + EncodeAll(cps[1..])
  }

  // ---------- Bits ----------

  function Payload(t: byte): bv32 { (t & 0x3F) as bv32 }
  function Join2(a: byte, b: byte): bv32 { ((a & 0x1F) as bv32 << 6) | Payload(b) }
  function Join3(a: byte, b: byte, c: byte): bv32 { ((a & 0x0F) as bv32 << 12) | (Payload(b) << 6) | Payload(c) }
  function Join4(a: byte, b: byte, c: byte, d: byte): bv32 {
    ((a & 0x07) as bv32 << 18) | (Payload(b) << 12) | (Payload(c) << 6) | Payload(d)
  }

  predicate IsTrailByte(t: byte) { 0x80 <= t <= 0xBF }

  predicate Good2(a: byte, b: byte) { 0xC2 <= a <= 0xDF && IsTrailByte(b) }
  predicate Good3(a: byte, b: byte, c: byte) {
    0xE0 <= a <= 0xEF && IsTrailByte(b) && IsTrailByte(c) && (a != 0xE0 || b >= 0xA0) && (a != 0xED || b < 0xA0)
  }
  predicate Good4(a: byte, b: byte, c: byte, d: byte) {
    0xF0 <= a <= 0xF4 && IsTrailByte(b) && IsTrailByte(c) && IsTrailByte(d) && (a != 0xF0 || b >= 0x90) &&
      (a != 0xF4 || b < 0x90)
  }

  lemma Split2(cp: bv32)
    requires MAX_CODE_POINT_1 < cp <= MAX_CODE_POINT_2
    ensures Join2(Lead2(cp), Trail(cp)) == cp && Good2(Lead2(cp), Trail(cp))
  {
  }

  lemma Split3(cp: bv32)
    requires MAX_CODE_POINT_2 < cp <= MAX_CODE_POINT_3
    ensures Join3(Lead3(cp), Trail(cp >> 6), Trail(cp)) == cp
    ensures Good3(Lead3(cp), Trail(cp >> 6), Trail(cp)) <==> IsScalar(cp)
    ensures 0xE0 <= Lead3(cp) <= 0xEF
  {
  }

  lemma Split4(cp: bv32)
    requires MAX_CODE_POINT_3 < cp <= MAX_CODE_POINT_4
    ensures Join4(Lead4(cp), Trail(cp >> 12), Trail(cp >> 6), Trail(cp)) == cp
    ensures Good4(Lead4(cp), Trail(cp >> 12), Trail(cp >> 6), Trail(cp)) <==> IsScalar(cp)
    ensures 0xF0 <= Lead4(cp)
  {
  }

  lemma Merge2(a: byte, b: byte)
    requires Good2(a, b)
    ensures var cp := Join2(a, b); MAX_CODE_POINT_1 < cp <= MAX_CODE_POINT_2 && Lead2(cp) == a && Trail(cp) == b
  {
  }

  lemma Merge3(a: byte, b: byte, c: byte)
    requires Good3(a, b, c)
    ensures var cp := Join3(a, b, c);
            MAX_CODE_POINT_2 < cp <= MAX_CODE_POINT_3 && IsScalar(cp) && Lead3(cp) == a && Trail(cp >> 6) == b &&
              Trail(cp) == c
  {
  }

  lemma Merge4(a: byte, b: byte, c: byte, d: byte)
    requires Good4(a, b, c, d)
    ensures var cp := Join4(a, b, c, d);
            && MAX_CODE_POINT_3 < cp <= MAX_CODE_POINT_4 && IsScalar(cp)
            && Lead4(cp) == a && Trail(cp >> 12) == b && Trail(cp >> 6) == c && Trail(cp) == d
  {
  }

  // ---------- One character ----------

  /** How many bytes the validator takes from the front of `s`, zero where it gives up. */
  function Step(s: seq<byte>): (n: nat)
    requires s != []
    ensures n <= |s|
  {
    if s[0] <= 0x7F then 1
    else if s[0] < 0xC2 then 0
    else if |s| >= 2 && Good2(s[0], s[1]) then 2
    else if |s| >= 3 && Good3(s[0], s[1], s[2]) then 3
    else if |s| >= 4 && Good4(s[0], s[1], s[2], s[3]) then 4
    else 0
  }

  function Decode(s: seq<byte>): bv32
    requires 1 <= |s| <= 4
  {
    if |s| == 1 then s[0] as bv32
    else if |s| == 2 then Join2(s[0], s[1])
    else if |s| == 3 then Join3(s[0], s[1], s[2])
    else Join4(s[0], s[1], s[2], s[3])
  }

  /** The validator takes exactly the encoding of a scalar value, whatever follows it, and
      nothing from the encoding of any other number. */
  lemma StepEncode(cp: bv32, t: seq<byte>)
    requires cp <= MAX_CODE_POINT_4
    ensures Decode(Encode(cp)) == cp
    ensures Step(Encode(cp) + t) == if IsScalar(cp) then |Encode(cp)| else 0
  {
    if cp <= MAX_CODE_POINT_1 {
    } else if cp <= MAX_CODE_POINT_2 {
      Split2(cp);
    } else if cp <= MAX_CODE_POINT_3 {
      Split3(cp);
    } else {
      Split4(cp);
    }
  }

  lemma EncodeJoin1(a: byte)
    requires a <= 0x7F
    ensures IsScalar(a as bv32) && Encode(a as bv32) == [a]
  {
  }

  lemma EncodeJoin2(a: byte, b: byte)
    requires Good2(a, b)
    ensures IsScalar(Join2(a, b)) && Encode(Join2(a, b)) == [a, b]
  {
    Merge2(a, b);
  }

  lemma EncodeJoin3(a: byte, b: byte, c: byte)
    requires Good3(a, b, c)
    ensures IsScalar(Join3(a, b, c)) && Encode(Join3(a, b, c)) == [a, b, c]
  {
    Merge3(a, b, c);
  }

  lemma EncodeJoin4(a: byte, b: byte, c: byte, d: byte)
    requires Good4(a, b, c, d)
    ensures IsScalar(Join4(a, b, c, d)) && Encode(Join4(a, b, c, d)) == [a, b, c, d]
  {
    Merge4(a, b, c, d);
  }

  /** What the validator takes is the encoding of a scalar value. */
  lemma StepDecode(s: seq<byte>) returns (cp: bv32)
    requires s != [] && Step(s) > 0
    ensures IsScalar(cp) && Encode(cp) == s[..Step(s)]
  {
    var n := Step(s);
    if n == 1 {
      EncodeJoin1(s[0]);
      cp := s[0] as bv32;
    } else if n == 2 {
      EncodeJoin2(s[0], s[1]);
      cp := Join2(s[0], s[1]);
    } else if n == 3 {
      EncodeJoin3(s[0], s[1], s[2]);
      cp := Join3(s[0], s[1], s[2]);
    } else {
      EncodeJoin4(s[0], s[1], s[2], s[3]);
      cp := Join4(s[0], s[1], s[2], s[3]);
    }
  }

  // ---------- Whole strings ----------

  ghost predicate ValidFrom(s: seq<byte>) {
    s == [] || (Step(s) > 0 && ValidFrom(s[Step(s)..]))
  }

  lemma {:induction false} EncodedIsValid(cps: seq<Scalar>)
    ensures ValidFrom(EncodeAll(cps))
  {
    if cps != [] {
      var t := EncodeAll(cps[1..]);
      EncodedIsValid(cps[1..]);
      StepEncode(cps[0], t);
      assert (Encode(cps[0]) + t)[|Encode(cps[0])|..] == t;
    }
  }

  lemma {:induction false} ValidIsEncoded(s: seq<byte>) returns (cps: seq<Scalar>)
    requires ValidFrom(s)
    ensures EncodeAll(cps) == s
    decreases |s|
  {
    if s == [] {
      cps := [];
    } else {
      var cp := StepDecode(s);
      var rest := ValidIsEncoded(s[Step(s)..]);
      cps := [cp] + rest;
      assert cps[1..] == rest;
      assert s == s[..Step(s)] + s[Step(s)..];
    }
  }

  /** No byte string is the encoding of two different sequences of scalar values. */
  lemma {:induction false} EncodeAllInjective(a: seq<Scalar>, b: seq<Scalar>)
    requires EncodeAll(a) == EncodeAll(b)
    ensures a == b
    decreases |a|
  {
    if a != [] && b != [] {
      var s, t, u := EncodeAll(a), EncodeAll(a[1..]), EncodeAll(b[1..]);
      EncodePrefix(a[0], t, b[0], u);
      assert s[|Encode(a[0])|..] == t && s[|Encode(b[0])|..] == u;
      EncodeAllInjective(a[1..], b[1..]);
      assert a == [a[0]] + a[1..] && b == [b[0]] + b[1..];
    }
  }

  lemma EncodePrefix(x: bv32, t: seq<byte>, y: bv32, u: seq<byte>)
    requires IsScalar(x) && IsScalar(y)
    requires Encode(x) + t == Encode(y) + u
    ensures x == y
  {
    StepEncode(x, t);
    StepEncode(y, u);
    assert (Encode(x) + t)[..|Encode(x)|] == Encode(x);
    assert (Encode(y) + u)[..|Encode(y)|] == Encode(y);
  }

  /** Accepts exactly the concatenations of encoded scalar values. */
  method IsValidUTF8(s: seq<byte>) returns (valid: bool)
    ensures valid <==> exists cps: seq<Scalar> :: EncodeAll(cps) == s
  {
    forall cps: seq<Scalar> | EncodeAll(cps) == s ensures ValidFrom(s) { EncodedIsValid(cps); }
    valid := Validate(s);
    if valid { ghost var cps := ValidIsEncoded(s); }
  }

  lemma StepForward(s: seq<byte>, i: nat)
    requires i < |s|
    ensures ValidFrom(s[i..]) <==> Step(s[i..]) > 0 && ValidFrom(s[i + Step(s[i..])..])
  {
    var n := Step(s[i..]);
    assert s[i..][n..] == s[i + n..];
  }

  method Validate(s: seq<byte>) returns (valid: bool)
    ensures valid <==> ValidFrom(s)
  {
    var i := 0;
    assert s[0..] == s;
    while i < |s|
      invariant i <= |s|
      invariant ValidFrom(s) <==> ValidFrom(s[i..])
      decreases |s| - i
    {
      StepForward(s, i);
      var lead := s[i];
      i := i + 1;
      if lead <= 0x7F {
        continue;
      }
      if lead < 0xC2 {
        return false;
      } else if lead <= 0xDF && i + 1 <= |s| && IsTrailByte(s[i]) {
        i := i + 1;
      } else if 0xE0 <= lead <= 0xEF && i + 2 <= |s| && IsTrailByte(s[i]) && IsTrailByte(s[i + 1])
                && (lead != 0xE0 || s[i] >= 0xA0) && (lead != 0xED || s[i] < 0xA0) {
        i := i + 2;
      } else if 0xF0 <= lead <= 0xF4 && i + 3 <= |s|
                && IsTrailByte(s[i]) && IsTrailByte(s[i + 1]) && IsTrailByte(s[i + 2])
                && (lead != 0xF0 || s[i] >= 0x90) && (lead != 0xF4 || s[i] < 0x90) {
        i := i + 3;
      } else {
        return false;
      }
    }
    return true;
  }

  // ---------- The writer ----------

  /** A buffer read as a C string: up to its first zero byte. */
  function UpToNul(s: seq<byte>): seq<byte> {
    if s == [] || s[0] == 0 then [] else [s[0]] + UpToNul(s[1..])
  }

  lemma {:induction false} UpToNulIs(s: seq<byte>, n: nat)
    requires n < |s| && s[n] == 0 && forall i :: 0 <= i < n ==> s[i] != 0
    ensures UpToNul(s) == s[..n]
  {
    if n > 0 {
      UpToNulIs(s[1..], n - 1);
      assert s[..n] == [s[0]] + s[1..][..n - 1];
    }
  }

  /** Two shifts are one, and the bytes written are those of the encoding; none is zero. */
  lemma Chopped(cp: bv32)
    requires MAX_CODE_POINT_1 < cp <= MAX_CODE_POINT_4
    ensures cp >> 6 >> 6 == cp >> 12 && cp >> 6 >> 6 >> 6 == cp >> 18
    ensures Trail(cp) != 0 && Trail(cp >> 6) != 0 && Trail(cp >> 12) != 0
    ensures cp <= MAX_CODE_POINT_2 ==> Lead2(cp) != 0
    ensures cp <= MAX_CODE_POINT_3 ==> Lead3(cp) != 0
    ensures Lead4(cp) != 0
  {
  }

  /** Returns the low bits, and the number with them shifted out. */
  method ChopLowBits(bits: bv32, n: bv6) returns (low: bv32, rest: bv32)
    requires n <= 31
    ensures low == bits & ((1 << n) - 1) && rest == bits >> n
    ensures n == 6 ==> low <= 0x3F && (0x80 | low) as byte == Trail(bits)
  {
    low := bits & ((1 << n) - 1);
    rest := bits >> n;
  }

  const HEX_DIGITS: seq<byte> := [0x30, 0x31, 0x32, 0x33, 0x34, 0x35, 0x36, 0x37, 0x38, 0x39,
    0x41, 0x42, 0x43, 0x44, 0x45, 0x46]

  /** `FormatHexUInt32`: in base sixteen, with capitals and without leading zeros. */
  function Hex(v: nat): seq<byte> {
    if v < 16 then [HEX_DIGITS[v]] else Hex(v / 16) + [HEX_DIGITS[v % 16]]
  }

  /** "(Invalid Unicode 0x" and ")". */
  const INVALID_PREFIX: seq<byte> := [0x28, 0x49, 0x6E, 0x76, 0x61, 0x6C, 0x69, 0x64, 0x20, 0x55, 0x6E, 0x69, 0x63,
    0x6F, 0x64, 0x65, 0x20, 0x30, 0x78]
  const INVALID_SUFFIX: seq<byte> := [0x29]

  function InvalidText(cp: bv32): seq<byte> {
    INVALID_PREFIX + Hex(cp as nat) + INVALID_SUFFIX
  }

  /** `buf` starts with the encoding, closed by a zero byte. */
  ghost predicate Holds(buf: seq<byte>, cp: bv32)
    requires cp <= MAX_CODE_POINT_4 && |buf| == 5
  {
    var e := Encode(cp); buf[|e|] == 0 && forall i :: 0 <= i < |e| ==> buf[i] == e[i]
  }

  /** A buffer that holds the bytes of the encoding and a zero byte reads as the encoding. */
  lemma BufferReads(buf: seq<byte>, cp: bv32)
    requires 0 < cp <= MAX_CODE_POINT_4 && |buf| == 5
    requires Holds(buf, cp)
    ensures UpToNul(buf) == Encode(cp)
  {
    var e := Encode(cp);
    if cp > MAX_CODE_POINT_1 { Chopped(cp); }
    UpToNulIs(buf, |e|);
  }

  // The branches of CodePointToUtf8 that chop, one method each.

  method WriteTwo(codePoint: bv32, str: array<byte>)
    requires MAX_CODE_POINT_1 < codePoint <= MAX_CODE_POINT_2 && str.Length == 5
    modifies str
    ensures Holds(str[..], codePoint)
  {
    str[2] := 0;
    var low, rest := ChopLowBits(codePoint, 6);
    str[1] := (0x80 | low) as byte;
    str[0] := (0xC0 | rest) as byte;
  }

  method WriteThree(codePoint: bv32, str: array<byte>)
    requires MAX_CODE_POINT_2 < codePoint <= MAX_CODE_POINT_3 && str.Length == 5
    modifies str
    ensures Holds(str[..], codePoint)
  {
    Chopped(codePoint);
    str[3] := 0;
    var low, rest := ChopLowBits(codePoint, 6);
    str[2] := (0x80 | low) as byte;
    low, rest := ChopLowBits(rest, 6);
    str[1] := (0x80 | low) as byte;
    str[0] := (0xE0 | rest) as byte;
  }

  method WriteFour(codePoint: bv32, str: array<byte>)
    requires MAX_CODE_POINT_3 < codePoint <= MAX_CODE_POINT_4 && str.Length == 5
    modifies str
    ensures Holds(str[..], codePoint)
  {
    Chopped(codePoint);
    str[4] := 0;
    var low, rest := ChopLowBits(codePoint, 6);
    str[3] := (0x80 | low) as byte;
    low, rest := ChopLowBits(rest, 6);
    str[2] := (0x80 | low) as byte;
    low, rest := ChopLowBits(rest, 6);
    str[1] := (0x80 | low) as byte;
    str[0] := (0xF0 | rest) as byte;
  }

  method CodePointToUtf8(codePoint: bv32) returns (s: seq<byte>)
    ensures s == Written(codePoint)
  {
    if codePoint > MAX_CODE_POINT_4 {
      return InvalidText(codePoint);
    }
    var str := new byte[5];
    if codePoint <= MAX_CODE_POINT_1 {
      str[1] := 0;
      str[0] := codePoint as byte;
    } else if codePoint <= MAX_CODE_POINT_2 {
      WriteTwo(codePoint, str);
    } else if codePoint <= MAX_CODE_POINT_3 {
      WriteThree(codePoint, str);
    } else {
      WriteFour(codePoint, str);
    }
    if codePoint != 0 {
      BufferReads(str[..], codePoint);
    }
    s := UpToNul(str[..]);
  }

  /** The bytes written for any number: what the validator says of them. */
  ghost function Written(cp: bv32): seq<byte> {
    if cp == 0 then []
    else if cp <= MAX_CODE_POINT_4 then Encode(cp)
    else InvalidText(cp)
  }

  lemma {:induction false} AsciiIsValid(s: seq<byte>)
    requires forall i :: 0 <= i < |s| ==> s[i] <= 0x7F
    ensures ValidFrom(s)
  {
    if s != [] { AsciiIsValid(s[1..]); }
  }

  // ---------- What the invalid text says ----------

  predicate IsHexDigit(b: byte) { 0x30 <= b <= 0x39 || 0x41 <= b <= 0x46 }

  function HexDigitValue(b: byte): nat
    requires IsHexDigit(b)
  {
    if b <= 0x39 then (b - 0x30) as nat else (b - 0x37) as nat
  }

  function HexValue(s: seq<byte>): nat
    requires forall i :: 0 <= i < |s| ==> IsHexDigit(s[i])
  {
    if s == [] then 0 else 16 * HexValue(s[..|s| - 1]) + HexDigitValue(s[|s| - 1])
  }

  lemma HexDigitsMean(d: nat)
    requires d < 16
    ensures IsHexDigit(HEX_DIGITS[d]) && HexDigitValue(HEX_DIGITS[d]) == d
    ensures HEX_DIGITS[d] == 0x30 ==> d == 0
  {
  }

  lemma {:induction false} HexIsHexDigits(v: nat)
    ensures Hex(v) != [] && forall i :: 0 <= i < |Hex(v)| ==> IsHexDigit(Hex(v)[i])
  {
    HexDigitsMean(v % 16);
    if v >= 16 { HexIsHexDigits(v / 16); }
  }

  /** The digits 0 to 9 and A to F, of that value, and no leading zero except in zero itself. */
  lemma {:induction false} HexMeans(v: nat)
    ensures Hex(v) != [] && forall i :: 0 <= i < |Hex(v)| ==> IsHexDigit(Hex(v)[i])
    ensures HexValue(Hex(v)) == v
    ensures v > 0 ==> Hex(v)[0] != 0x30
  {
    HexIsHexDigits(v);
    HexDigitsMean(v % 16);
    if v < 16 {
      assert Hex(v)[..0] == [];
    } else {
      HexMeans(v / 16);
      assert Hex(v)[..|Hex(v)| - 1] == Hex(v / 16);
    }
  }

  ghost predicate Spells(s: seq<byte>, text: string) {
    |s| == |text| && forall i :: 0 <= i < |s| ==> s[i] as int == text[i] as int
  }

  /** The text around the number, by its characters. */
  lemma InvalidTextReads(cp: bv32)
    ensures var t := InvalidText(cp);
            && |t| > 20 && Spells(t[..19], "(Invalid Unicode 0x") && Spells(t[|t| - 1..], ")")
            && (forall i :: 19 <= i < |t| - 1 ==> IsHexDigit(t[i])) && HexValue(t[19..|t| - 1]) == cp as nat
            && (cp != 0 ==> t[19] != 0x30)
  {
    HexMeans(cp as nat);
    var t := InvalidText(cp);
    assert t[..19] == INVALID_PREFIX && t[19..|t| - 1] == Hex(cp as nat) && t[|t| - 1..] == INVALID_SUFFIX;
    PrefixSpells();
  }

  lemma PrefixSpells()
    ensures Spells(INVALID_PREFIX, "(Invalid Unicode 0x") && Spells(INVALID_SUFFIX, ")")
  {
    var text := "(Invalid Unicode 0x";
    forall i | 0 <= i < 19 ensures INVALID_PREFIX[i] as int == text[i] as int {
      if i < 10 { PrefixStarts(i); } else { PrefixEnds(i); }
    }
  }

  lemma PrefixStarts(i: nat)
    requires i < 10
    ensures INVALID_PREFIX[i] as int == "(Invalid Unicode 0x"[i] as int
  {
  }

  lemma PrefixEnds(i: nat)
    requires 10 <= i < 19
    ensures INVALID_PREFIX[i] as int == "(Invalid Unicode 0x"[i] as int
  {
  }

  /** The writer's output is valid except for surrogates and for the numbers above U+10FFFF
      that still fit 21 bits, which it encodes although they are no code points. */
  lemma WrittenIsValidExactly(cp: bv32)
    ensures ValidFrom(Written(cp)) <==> IsScalar(cp) || cp > MAX_CODE_POINT_4
  {
    if cp > MAX_CODE_POINT_4 {
      HexMeans(cp as nat);
      AsciiIsValid(Written(cp));
    } else if cp != 0 {
      StepEncode(cp, []);
      assert Encode(cp) + [] == Encode(cp);
    }
  }

  /** What the comment above `CodePointToUtf8` promises: the encoding of every number up to
      U+10FFFF, and the invalid text for every other one. */
  ghost function Promised(cp: bv32): seq<byte> {
    if cp <= 0x10_FFFF then Encode(cp) else InvalidText(cp)
  }

  lemma InvalidTextExactly(cp: bv32)
    ensures Written(cp) == InvalidText(cp) <==> cp > MAX_CODE_POINT_4
  {
    if cp <= MAX_CODE_POINT_4 { assert |Written(cp)| <= 4; }
  }

  /** The code keeps that promise except for zero, whose encoding ends the string it is read
      from, and for the numbers above U+10FFFF that fit 21 bits. */
  lemma WrittenAsPromisedExactly(cp: bv32)
    ensures Written(cp) == Promised(cp) <==> 0 < cp <= 0x10_FFFF || cp > MAX_CODE_POINT_4
    ensures (cp > 0x10_FFFF ==> Written(cp) == InvalidText(cp)) <==> cp <= 0x10_FFFF || cp > MAX_CODE_POINT_4
  {
    InvalidTextExactly(cp);
  }

  /** The first number beyond Unicode is written as four bytes. */
  lemma BeyondUnicode()
    ensures Written(0x11_0000) == [0xF4, 0x90, 0x80, 0x80] != Promised(0x11_0000)
  {
    WrittenAsPromisedExactly(0x11_0000);
  }
}
