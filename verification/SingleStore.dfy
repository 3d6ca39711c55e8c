/** Narrowing a double register to a single in memory, on the encodings of IEEE 754-2008, section 3.4.
    Bit patterns are numbers: a right shift divides by a power of two, a mask of low bits is a
    remainder, and joining fields that share no bit adds them. */
module SingleStore {
  import opened Arithmetic

  type Bits32 = n: int | 0 <= n < 0x1_0000_0000
  type Bits64 = n: int | 0 <= n < 0x1_0000_0000_0000_0000

  const TWO_21 := 0x20_0000
  const TWO_22 := 0x40_0000
  const TWO_23 := 0x80_0000
  const TWO_29 := 0x2000_0000
  const TWO_30 := 0x4000_0000
  const TWO_31 := 0x8000_0000
  const TWO_52 := 0x10_0000_0000_0000
  const TWO_62 := 0x4000_0000_0000_0000
  const TWO_63 := 0x8000_0000_0000_0000

  // ---- Singles and their exact doubles ------------------------------------------------------------

  function SingleExponent(s: Bits32): nat {
    s / TWO_23 % 0x100
  }

  function SingleFraction(s: Bits32): nat {
    s % TWO_23
  }

  predicate SignallingNaN(s: Bits32) {
    SingleExponent(s) == 0xFF && 0 < SingleFraction(s) < TWO_22
  }

  function Quieted(s: Bits32): Bits32 {
    if SignallingNaN(s) then s + TWO_22 else s
  }

  /** The weight of the leading one of a nonzero fraction. */
  function Lead(f: nat): (p: nat)
    requires f > 0
    ensures Pow2(p) <= f < 2 * Pow2(p)
  {
    if f == 1 then 0 else 1 + Lead(f / 2)
  }

  /** A single fraction leads at most at bit 22, so its normalized fraction fits 52 bits. */
  lemma {:induction false} LeadBound(f: nat)
    requires 0 < f < TWO_23
    ensures Lead(f) <= 22
  {
    PowValues();
    PowMono(if Lead(f) < 23 then Lead(f) else 23, Lead(f));
  }

  /** The fraction below the leading one, moved to the top of a double's fraction. */
  function NormalizedFraction(f: nat): (r: nat)
    requires 0 < f < TWO_23
    ensures r < TWO_52
  {
    LeadBound(f);
    PowValues();
    PowSum(Lead(f), 52 - Lead(f));
    MulLess(f - Pow2(Lead(f)), Pow2(Lead(f)), Pow2(52 - Lead(f)));
    (f - Pow2(Lead(f))) * Pow2(52 - Lead(f))
  }

  lemma MulLess(a: nat, b: nat, c: nat)
    requires a < b && c > 0
    ensures 0 <= a * c < b * c
  {
    assert (b - a) * c > 0;
  }

  /** The double with exactly the single's value; a signalling NaN comes out quiet. */
  function Widen(s: Bits32): Bits64 {
    var sign, e, f := s / TWO_31, SingleExponent(s), SingleFraction(s);
    if e == 0xFF then sign * TWO_63 + 0x7FF * TWO_52 + SingleFraction(Quieted(s)) * TWO_29
    else if e != 0 then sign * TWO_63 + (e + 896) * TWO_52 + f * TWO_29
    else if f == 0 then sign * TWO_63
    else
      LeadBound(f);
      sign * TWO_63 + (Lead(f) + 874) * TWO_52 + NormalizedFraction(f)
  }

  // ---- The store --------------------------------------------------------------------------------------

  function DoubleExponent(bits: Bits64): nat {
    bits / TWO_52 % 0x800
  }

  /** The shifted significand stays below the exponent field. */
  lemma WindowBound(significand: nat, exponent: nat)
    requires significand < 2 * TWO_31 && 874 <= exponent <= 896
    ensures significand / Pow2(905 - exponent) < TWO_23
  {
    PowValues();
    PowSum(896 - exponent, 9);
    var d := Pow2(905 - exponent);
    MulMono(1, Pow2(896 - exponent), 512);
    MulMono(512, d, TWO_23);
    QuotientBelow(significand, d, TWO_23);
  }

  /** The significand with its hidden one, shifted into a subnormal single's place. */
  function ShiftedSignificand(significand: nat, exponent: nat): (r: nat)
    requires significand < 2 * TWO_31 && 874 <= exponent <= 896
    ensures r < TWO_23
  {
    WindowBound(significand, exponent);
    significand / Pow2(905 - exponent)
  }

  function SubnormalArm(bits: Bits64): Bits32
    requires 874 <= DoubleExponent(bits) <= 896
  {
    ShiftedSignificand(TWO_31 + bits % TWO_52 / TWO_21, DoubleExponent(bits)) + bits / TWO_63 * TWO_31
  }

  /** Sign and top exponent bit, then the low thirty bits above the dropped fraction. */
  function PlainArm(bits: Bits64): Bits32 {
    bits / TWO_62 * TWO_30 + bits / TWO_29 % TWO_30
  }

  /** The bit-level rules: the subnormal window of exponents 874 to 896, and plain field narrowing. */
  function NarrowByRules(bits: Bits64): Bits32 {
    if 874 <= DoubleExponent(bits) <= 896 then SubnormalArm(bits) else PlainArm(bits)
  }

  /** The store as written: `narrowed` is what the host's float conversion of the same value gives. */
  function ConvertDoubleToSingle(bits: Bits64, narrowed: Bits32): Bits32 {
    if Widen(narrowed) == bits then narrowed else NarrowByRules(bits)
  }

  // ---- The rules undo widening ----------------------------------------------------------------------------

  lemma FieldsOf(sign: nat, e: nat, f: nat, bits: Bits64)
    requires sign <= 1 && e < 0x800 && f < TWO_52 && bits == sign * TWO_63 + e * TWO_52 + f
    ensures DoubleExponent(bits) == e && bits % TWO_52 == f && bits / TWO_63 == sign
    ensures bits / TWO_62 == sign * 2 + e / 0x400
    ensures bits / TWO_29 % TWO_30 == e % 0x80 * TWO_23 + f / TWO_29
  {
    assert bits / TWO_52 == sign * 0x800 + e;
    assert bits / TWO_29 == (sign * 0x800 + e) * TWO_23 + f / TWO_29;
    assert e == e / 0x80 * 0x80 + e % 0x80;
    assert bits / TWO_29 == (sign * 16 + e / 0x80) * TWO_30 + (e % 0x80 * TWO_23 + f / TWO_29);
  }

  lemma PlainBack(s: Bits32, e: nat, f: nat)
    requires e < 0x800 && !(874 <= e <= 896) && f < TWO_23
    requires Widen(s) == s / TWO_31 * TWO_63 + e * TWO_52 + f * TWO_29
    ensures NarrowByRules(Widen(s)) == s / TWO_31 * TWO_31 + e / 0x400 * TWO_30 + e % 0x80 * TWO_23 + f
  {
    FieldsOf(s / TWO_31, e, f * TWO_29, Widen(s));
  }

  lemma ShiftBack(f: nat, one: nat, k: nat, wide: nat)
    requires one <= f && k > 0 && one * k == TWO_31 && wide == k * TWO_21
    ensures (TWO_31 + (f - one) * wide / TWO_21) / k == f
  {
    var x := (f - one) * k;
    assert (f - one) * wide == x * TWO_21;
    assert x == f * k - one * k;
    QuotientIs((f - one) * wide, TWO_21, x);
    QuotientIs(f * k, k, f);
  }

  lemma PowersAround(p: nat)
    requires p <= 22
    ensures Pow2(p) * Pow2(31 - p) == TWO_31 && Pow2(52 - p) == Pow2(31 - p) * TWO_21
  {
    PowValues();
    PowSum(31 - p, 21);
    PowSum(p, 31 - p);
  }

  lemma {:induction false} NormalizedIs(f: nat)
    requires 0 < f < TWO_23
    ensures Lead(f) <= 22 && NormalizedFraction(f) == (f - Pow2(Lead(f))) * Pow2(52 - Lead(f))
  {
    LeadBound(f);
  }

  /** A normalized fraction, with its leading one restored, shifts back to itself. */
  lemma {:induction false} SignificandBack(f: nat)
    requires 0 < f < TWO_23
    ensures Lead(f) <= 22 && ShiftedSignificand(TWO_31 + NormalizedFraction(f) / TWO_21, Lead(f) + 874) == f
  {
    NormalizedIs(f);
    var p := Lead(f);
    PowersAround(p);
    ShiftBack(f, Pow2(p), Pow2(31 - p), Pow2(52 - p));
    ShiftedBy(TWO_31 + NormalizedFraction(f) / TWO_21, p);
  }

  lemma ShiftedBy(significand: nat, p: nat)
    requires significand < 2 * TWO_31 && p <= 22
    ensures ShiftedSignificand(significand, p + 874) == significand / Pow2(31 - p)
  {}

  lemma {:induction false} WindowBack(bits: Bits64, sign: nat, f: nat)
    requires sign <= 1 && 0 < f < TWO_23 && Lead(f) <= 22
    requires bits == sign * TWO_63 + (Lead(f) + 874) * TWO_52 + NormalizedFraction(f)
    ensures NarrowByRules(bits) == f + sign * TWO_31
  {
    FieldsOf(sign, Lead(f) + 874, NormalizedFraction(f), bits);
    SignificandBack(f);
  }

  lemma SubnormalBack(s: Bits32)
    requires SingleExponent(s) == 0 && SingleFraction(s) != 0
    ensures NarrowByRules(Widen(s)) == SingleFraction(s) + s / TWO_31 * TWO_31
  {
    LeadBound(SingleFraction(s));
    WindowBack(Widen(s), s / TWO_31, SingleFraction(s));
  }

  /** The exponent's top bit and low seven, put together, are the exponent rebiased. */
  lemma ExponentBack(e: nat)
    requires 0 < e < 0xFF
    ensures (e + 896) / 0x400 * TWO_30 + (e + 896) % 0x80 * TWO_23 == e * TWO_23
  {}

  lemma NormalBack(s: Bits32)
    requires 0 < SingleExponent(s) < 0xFF
    ensures NarrowByRules(Widen(s)) == s
  {
    PlainBack(s, SingleExponent(s) + 896, SingleFraction(s));
    ExponentBack(SingleExponent(s));
    SingleIsItsFields(s);
  }

  lemma SpecialBack(s: Bits32)
    requires SingleExponent(s) == 0xFF
    ensures NarrowByRules(Widen(s)) == Quieted(s)
  {
    PlainBack(s, 0x7FF, SingleFraction(Quieted(s)));
    QuietedFields(s);
  }

  lemma SingleIsItsFields(s: Bits32)
    ensures s == s / TWO_31 * TWO_31 + SingleExponent(s) * TWO_23 + SingleFraction(s)
  {}

  lemma QuietedFields(s: Bits32)
    requires SingleExponent(s) == 0xFF
    ensures Quieted(s) == s / TWO_31 * TWO_31 + 0xFF * TWO_23 + SingleFraction(Quieted(s))
  {}

  /** The rules undo widening: zeros, subnormals, normals, infinities and quiet NaNs come back bit for
      bit, and only a signalling NaN comes back quiet. */
  lemma RulesUndoWidening(s: Bits32)
    ensures NarrowByRules(Widen(s)) == Quieted(s)
  {
    SingleIsItsFields(s);
    if SingleExponent(s) == 0xFF {
      SpecialBack(s);
    } else if SingleExponent(s) != 0 {
      NormalBack(s);
    } else if SingleFraction(s) != 0 {
      SubnormalBack(s);
    } else {
      PlainBack(s, 0, 0);
    }
  }

  // ---- What the rules give for any other pattern --------------------------------------------------------------

  lemma SingleFields(sign: nat, e: nat, f: nat, s: Bits32)
    requires sign <= 1 && e < 0x100 && f < TWO_23 && s == sign * TWO_31 + e * TWO_23 + f
    ensures s / TWO_31 == sign && SingleExponent(s) == e && SingleFraction(s) == f
  {
    assert s / TWO_23 == sign * 0x100 + e;
  }

  lemma PlainFields(bits: Bits64, sign: nat, e: nat, f: nat)
    requires sign <= 1 && e < 0x800 && f < TWO_52 && bits == sign * TWO_63 + e * TWO_52 + f && !(874 <= e <= 896)
    ensures var r := NarrowByRules(bits);
            r / TWO_31 == sign && SingleExponent(r) == e / 0x400 * 0x80 + e % 0x80 && SingleFraction(r) == f / TWO_29
  {
    FieldsOf(sign, e, f, bits);
    var (x, y) := (e / 0x400 * 0x80 + e % 0x80, f / TWO_29);
    assert e / 0x400 <= 1 && x < 0x100 && y < TWO_23;
    SingleFields(sign, x, y, sign * TWO_31 + x * TWO_23 + y);
  }

  lemma DoubleIsItsFields(bits: Bits64)
    ensures bits / TWO_63 <= 1 && bits == bits / TWO_63 * TWO_63 + DoubleExponent(bits) * TWO_52 + bits % TWO_52
  {}

  /** The sign is always kept, and outside the subnormal window the fraction is cut and the exponent keeps
      its top bit and its low seven. */
  lemma NarrowedFields(bits: Bits64)
    ensures NarrowByRules(bits) / TWO_31 == bits / TWO_63
    ensures !(874 <= DoubleExponent(bits) <= 896) ==>
              var (r, e) := (NarrowByRules(bits), DoubleExponent(bits));
              SingleExponent(r) == e / 0x400 * 0x80 + e % 0x80 && SingleFraction(r) == bits % TWO_52 / TWO_29
    ensures 874 <= DoubleExponent(bits) <= 896 ==> SingleExponent(NarrowByRules(bits)) == 0
  {
    DoubleIsItsFields(bits);
    if 874 <= DoubleExponent(bits) <= 896 {
      var x := ShiftedSignificand(TWO_31 + bits % TWO_52 / TWO_21, DoubleExponent(bits));
      SingleFields(bits / TWO_63, 0, x, SubnormalArm(bits));
    } else {
      PlainFields(bits, bits / TWO_63, DoubleExponent(bits), bits % TWO_52);
    }
  }

  /** The shortcut gives what the rules give, whatever the host conversion returns, exactly unless it
      returned a signalling NaN. */
  lemma ShortcutIsTheRules(bits: Bits64, narrowed: Bits32)
    ensures ConvertDoubleToSingle(bits, narrowed) == NarrowByRules(bits)
            <==> Widen(narrowed) != bits || !SignallingNaN(narrowed)
  {
    RulesUndoWidening(narrowed);
  }

  /** A host that converts as IEEE 754-2008, section 6.2, asks: no operation delivers a signalling NaN. */
  ghost predicate DeliversQuietNaNs(host: Bits64 -> Bits32) {
    forall bits :: !SignallingNaN(host(bits))
  }

  /** On such a host the store is the bit-level rules, for every one of the 2^64 patterns. */
  lemma StoreIsTheRules(host: Bits64 -> Bits32, bits: Bits64)
    requires DeliversQuietNaNs(host)
    ensures ConvertDoubleToSingle(bits, host(bits)) == NarrowByRules(bits)
  {
    ShortcutIsTheRules(bits, host(bits));
  }

  // ---- Widening keeps the value -----------------------------------------------------------------------------

  /** The magnitude of a finite single in units of 2^-149, and of a finite double in units of 2^-1074. */
  function SingleMagnitude(s: Bits32): nat {
    if SingleExponent(s) == 0 then SingleFraction(s) else (TWO_23 + SingleFraction(s)) * Pow2(SingleExponent(s) - 1)
  }

  function DoubleMagnitude(bits: Bits64): nat {
    if DoubleExponent(bits) == 0 then bits % TWO_52 else (TWO_52 + bits % TWO_52) * Pow2(DoubleExponent(bits) - 1)
  }

  lemma Regroup(a: nat, b: nat, c: nat)
    ensures a * b * c == a * (b * c)
  {}

  lemma Rescale(x: nat, a: nat, b: nat, c: nat, d: nat)
    requires a * b == c * d
    ensures x * a * b == x * c * d
  {
    Regroup(x, a, b);
    Regroup(x, c, d);
  }

  lemma PowersOfNormal(e: nat)
    requires e > 0
    ensures TWO_29 * Pow2(e + 895) == Pow2(e - 1) * Pow2(925)
  {
    assert Pow2(29) == TWO_29 by {
      PowValues();
      PowSum(21, 8);
      assert Pow2(8) == 256;
    }
    PowSum(29, e + 895);
    PowSum(e - 1, 925);
  }

  lemma NormalKeepsValue(s: Bits32)
    requires 0 < SingleExponent(s) < 0xFF
    ensures DoubleMagnitude(Widen(s)) == SingleMagnitude(s) * Pow2(925)
  {
    var e, f := SingleExponent(s), SingleFraction(s);
    MagnitudeOf(s / TWO_31, e + 896, f * TWO_29, Widen(s));
    assert TWO_52 + f * TWO_29 == (TWO_23 + f) * TWO_29;
    PowersOfNormal(e);
    Rescale(TWO_23 + f, TWO_29, Pow2(e + 895), Pow2(e - 1), Pow2(925));
  }

  lemma NormalizedTimes(f: nat, one: nat, wide: nat, scale: nat)
    requires one <= f && one * wide == TWO_52
    ensures (TWO_52 + (f - one) * wide) * scale == f * (wide * scale)
  {
    assert (f - one) * wide == f * wide - one * wide;
    Regroup(f, wide, scale);
  }

  lemma {:induction false} MagnitudeOf(sign: nat, e: nat, f: nat, bits: Bits64)
    requires sign <= 1 && 0 < e < 0x800 && f < TWO_52 && bits == sign * TWO_63 + e * TWO_52 + f
    ensures DoubleMagnitude(bits) == (TWO_52 + f) * Pow2(e - 1)
  {
    FieldsOf(sign, e, f, bits);
  }

  lemma PowersToTheTop(p: nat)
    requires p <= 22
    ensures Pow2(p) * Pow2(52 - p) == TWO_52 && Pow2(52 - p) * Pow2(p + 873) == Pow2(925)
  {
    PowValues();
    PowSum(p, 52 - p);
    PowSum(52 - p, p + 873);
  }

  lemma {:induction false} SubnormalMagnitude(sign: nat, f: nat, bits: Bits64)
    requires sign <= 1 && 0 < f < TWO_23 && Lead(f) <= 22
    requires bits == sign * TWO_63 + (Lead(f) + 874) * TWO_52 + NormalizedFraction(f)
    ensures DoubleMagnitude(bits) == f * Pow2(925)
  {
    var p := Lead(f);
    NormalizedIs(f);
    MagnitudeOf(sign, p + 874, NormalizedFraction(f), bits);
    PowersToTheTop(p);
    NormalizedTimes(f, Pow2(p), Pow2(52 - p), Pow2(p + 873));
  }

  lemma SubnormalKeepsValue(s: Bits32)
    requires SingleExponent(s) == 0 && SingleFraction(s) != 0
    ensures DoubleMagnitude(Widen(s)) == SingleMagnitude(s) * Pow2(925)
  {
    LeadBound(SingleFraction(s));
    SubnormalMagnitude(s / TWO_31, SingleFraction(s), Widen(s));
  }

  /** The double has exactly the single's value: the same sign, and the magnitude at the finer scale. */
  lemma WideningKeepsTheValue(s: Bits32)
    requires SingleExponent(s) != 0xFF
    ensures Widen(s) / TWO_63 == s / TWO_31 && DoubleMagnitude(Widen(s)) == SingleMagnitude(s) * Pow2(925)
  {
    if SingleExponent(s) != 0 {
      NormalKeepsValue(s);
      FieldsOf(s / TWO_31, SingleExponent(s) + 896, SingleFraction(s) * TWO_29, Widen(s));
    } else if SingleFraction(s) != 0 {
      SubnormalKeepsValue(s);
      LeadBound(SingleFraction(s));
      FieldsOf(s / TWO_31, Lead(SingleFraction(s)) + 874, NormalizedFraction(SingleFraction(s)), Widen(s));
    } else {
      FieldsOf(s / TWO_31, 0, 0, Widen(s));
    }
  }

  // ---- Narrowing truncates the value --------------------------------------------------------------------------

  /** The weight of a finite single's last fraction bit. */
  function LastPlace(s: Bits32): nat {
    if SingleExponent(s) == 0 then 1 else Pow2(SingleExponent(s) - 1)
  }

  /** The single is the double with what lies below the single's last place cut off. */
  predicate CutTo(bits: Bits64, r: Bits32) {
    SingleMagnitude(r) * Pow2(925) <= DoubleMagnitude(bits) < (SingleMagnitude(r) + LastPlace(r)) * Pow2(925)
  }

  lemma Truncation(q: nat, z: nat, d: nat, scale: nat, unit: nat, big: nat)
    requires z < d && scale > 0 && d * scale == unit * big
    ensures q * unit * big <= (q * d + z) * scale < (q * unit + unit) * big
  {
    assert (q * d + z) * scale == q * (d * scale) + z * scale by {
      Regroup(q, d, scale);
    }
    Regroup(q, unit, big);
    MulLess(z, d, scale);
    assert (q * unit + unit) * big == q * unit * big + unit * big;
  }

  lemma NormalCut(e: nat, f: nat)
    requires 897 <= e <= 1150 && f < TWO_52
    ensures var (q, unit) := (TWO_23 + f / TWO_29, Pow2(e - 897));
            q * unit * Pow2(925) <= (TWO_52 + f) * Pow2(e - 1) < (q * unit + unit) * Pow2(925)
  {
    PowersOfNormal(e - 896);
    assert TWO_52 + f == (TWO_23 + f / TWO_29) * TWO_29 + f % TWO_29;
    Truncation(TWO_23 + f / TWO_29, f % TWO_29, TWO_29, Pow2(e - 1), Pow2(e - 897), Pow2(925));
  }

  lemma NormalTruncates(bits: Bits64, r: Bits32)
    requires 897 <= DoubleExponent(bits) <= 1150
    requires SingleExponent(r) == DoubleExponent(bits) - 896 && SingleFraction(r) == bits % TWO_52 / TWO_29
    ensures CutTo(bits, r)
  {
    var (e, f) := (DoubleExponent(bits), bits % TWO_52);
    NormalCut(e, f);
    assert SingleMagnitude(r) == (TWO_23 + f / TWO_29) * Pow2(e - 897) && LastPlace(r) == Pow2(e - 897);
    assert DoubleMagnitude(bits) == (TWO_52 + f) * Pow2(e - 1);
  }

  lemma ExponentIsRebiased(e: nat)
    requires 897 <= e <= 1150
    ensures e / 0x400 * 0x80 + e % 0x80 == e - 896
  {}

  lemma Distribute(q: nat, r: nat, a: nat, b: nat)
    ensures (q * b + r) * a == q * (a * b) + r * a
  {
    assert (q * b + r) * a == q * b * a + r * a;
    assert b * a == a * b;
    Regroup(q, b, a);
  }

  lemma WithinOne(q: nat, r: nat, z: nat, a: nat, b: nat)
    requires r < b && z < a
    ensures q * (a * b) <= (q * b + r) * a + z < q * (a * b) + a * b
  {
    Distribute(q, r, a, b);
    MulMono(r + 1, b, a);
    assert (r + 1) * a == r * a + a && b * a == a * b;
  }

  lemma DivMod(n: nat, d: nat) returns (q: nat, r: nat)
    requires d > 0
    ensures q == n / d && n == q * d + r && r < d
  {
    q, r := n / d, n % d;
  }

  lemma TwoShifts(x: nat, a: nat, b: nat, c: nat)
    requires a > 0 && b > 0 && c > 0 && c == a * b
    ensures x / a / b == x / c
  {
    var y, z := DivMod(x, a);
    var q, r := DivMod(y, b);
    WithinOne(q, r, z, a, b);
    QuotientIs(x, c, q);
  }

  lemma WindowPowers(e: nat)
    requires 874 <= e <= 896
    ensures TWO_21 * Pow2(905 - e) == Pow2(926 - e) && Pow2(926 - e) * Pow2(e - 1) == Pow2(925)
  {
    PowValues();
    PowSum(21, 905 - e);
    PowSum(926 - e, e - 1);
  }

  lemma ShiftIsDivision(f: nat, k: nat, d: nat)
    requires k > 0 && d > 0 && d == TWO_21 * k
    ensures (TWO_31 + f / TWO_21) / k == (TWO_52 + f) / d
  {
    assert (TWO_52 + f) / TWO_21 == TWO_31 + f / TWO_21;
    TwoShifts(TWO_52 + f, TWO_21, k, d);
  }

  lemma SignedFraction(x: nat, sign: nat)
    requires x < TWO_23 && sign <= 1
    ensures x + sign * TWO_31 < 0x1_0000_0000
    ensures SingleFraction(x + sign * TWO_31) == x && SingleExponent(x + sign * TWO_31) == 0
  {}

  lemma WindowFraction(bits: Bits64, e: nat, f: nat)
    requires 874 <= e <= 896 && e == DoubleExponent(bits) && f == bits % TWO_52
    ensures SingleExponent(NarrowByRules(bits)) == 0
    ensures SingleFraction(NarrowByRules(bits)) == (TWO_52 + f) / Pow2(926 - e)
  {
    var x := ShiftedSignificand(TWO_31 + f / TWO_21, e);
    SignedFraction(x, bits / TWO_63);
    assert NarrowByRules(bits) == x + bits / TWO_63 * TWO_31;
    WindowPowers(e);
    ShiftIsDivision(f, Pow2(905 - e), Pow2(926 - e));
  }

  lemma SubnormalTruncates(bits: Bits64, r: Bits32)
    requires 874 <= DoubleExponent(bits) <= 896 && SingleExponent(r) == 0
    requires SingleFraction(r) == (TWO_52 + bits % TWO_52) / Pow2(926 - DoubleExponent(bits))
    ensures CutTo(bits, r)
  {
    var (e, f) := (DoubleExponent(bits), bits % TWO_52);
    WindowPowers(e);
    QuotientTruncates(TWO_52 + f, Pow2(926 - e), Pow2(e - 1), Pow2(925));
    assert SingleMagnitude(r) == SingleFraction(r) && LastPlace(r) == 1;
    assert DoubleMagnitude(bits) == (TWO_52 + f) * Pow2(e - 1);
  }

  lemma QuotientTruncates(x: nat, d: nat, scale: nat, big: nat)
    requires d > 0 && scale > 0 && d * scale == big
    ensures x / d * big <= x * scale < (x / d + 1) * big
  {
    assert x == x / d * d + x % d;
    Truncation(x / d, x % d, d, scale, 1, big);
  }

  /** Whatever the rounding mode, the rules truncate: for every double from the smallest subnormal single to
      the largest single they keep the sign and cut the magnitude, and the result is finite. */
  lemma NarrowingTruncates(bits: Bits64)
    requires 874 <= DoubleExponent(bits) <= 1150
    ensures CutTo(bits, NarrowByRules(bits)) && SingleExponent(NarrowByRules(bits)) < 0xFF
    ensures NarrowByRules(bits) / TWO_31 == bits / TWO_63
  {
    NarrowedFields(bits);
    if DoubleExponent(bits) <= 896 {
      WindowFraction(bits, DoubleExponent(bits), bits % TWO_52);
      SubnormalTruncates(bits, NarrowByRules(bits));
    } else {
      ExponentIsRebiased(DoubleExponent(bits));
      NormalTruncates(bits, NarrowByRules(bits));
    }
  }

  /** Infinities widen to infinities, and a NaN to a quiet NaN of the same sign whose payload is kept. */
  lemma {:induction false} SpecialsStay(s: Bits32)
    requires SingleExponent(s) == 0xFF
    ensures var (d, f) := (Widen(s), SingleFraction(s));
            && d / TWO_63 == s / TWO_31 && DoubleExponent(d) == 0x7FF
            && d % TWO_52 == (if f == 0 then 0 else if f < 0x40_0000 then f + 0x40_0000 else f) * TWO_29
  {
    QuietedFields(s);
    FieldsOf(s / TWO_31, 0x7FF, SingleFraction(Quieted(s)) * TWO_29, Widen(s));
    if SignallingNaN(s) {
      SingleFields(s / TWO_31, 0xFF, SingleFraction(s) + TWO_22, s + TWO_22);
    }
  }

  /** Different singles widen to different doubles, up to the quieting of a NaN. */
  lemma WideningIsInjective(a: Bits32, b: Bits32)
    ensures Widen(a) == Widen(b) ==> Quieted(a) == Quieted(b)
  {
    RulesUndoWidening(a);
    RulesUndoWidening(b);
  }

  /** The joined fields of the plain rule share no bit, so the sum above is the source's disjunction. */
  lemma FieldsShareNoBit(bits: bv64)
    ensures ((bits >> 32) & 0xC000_0000) | ((bits >> 29) & 0x3FFF_FFFF)
            == ((bits >> 62) << 30) + ((bits >> 29) & 0x3FFF_FFFF)
  {}
}
