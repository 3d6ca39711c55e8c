/** The guard around calls that may clobber nonvolatile floating-point registers: its contiguous-run
    shortcut, what it restores, and what a whole call tree then preserves. */
module FprGuard {
  import opened Arithmetic

  // ---- Words as numbers ------------------------------------------------------------------------------

  /** Bitwise conjunction. */
  function And(a: nat, b: nat): nat {
    if a == 0 || b == 0 then 0 else 2 * And(a / 2, b / 2) + (a % 2) * (b % 2)
  }

  predicate Bit(m: nat, i: nat) {
    if i == 0 then m % 2 == 1 else Bit(m / 2, i - 1)
  }

  const WORD := 0x1_0000_0000

  type Word = n: int | 0 <= n < WORD

  /** Unsigned subtraction wraps. */
  function Minus(a: Word, b: Word): Word {
    (a - b) % WORD
  }

  /** The index of the lowest set bit. */
  function LowestSetBit(m: nat): nat
    requires m > 0
  {
    if m % 2 == 1 then 0 else 1 + LowestSetBit(m / 2)
  }

  // ---- The run test -------------------------------------------------------------------------------------

  /** The mask plus its lowest set bit, with wrap to zero. */
  function AboveRun(m: Word): Word {
    (m + And(m, Minus(0, m))) % WORD
  }

  predicate RunTest(m: Word) {
    And(AboveRun(m), Minus(AboveRun(m), 1)) == 0
  }

  function RunEnd(m: Word): nat {
    if AboveRun(m) == 0 then 32 else LowestSetBit(AboveRun(m))
  }

  lemma {:induction false} AndComplement(x: nat, w: nat)
    requires x < Pow2(w)
    ensures And(x, Pow2(w) - 1 - x) == 0
    decreases w
  {
    if w > 0 && x > 0 && Pow2(w) - 1 - x > 0 {
      AndComplement(x / 2, w - 1);
      assert (Pow2(w) - 1 - x) / 2 == Pow2(w - 1) - 1 - x / 2;
    }
  }

  lemma {:induction false} AndSelf(x: nat)
    ensures And(x, x) == x
  {
    if x > 0 {
      AndSelf(x / 2);
      assert And(x, x) == 2 * And(x / 2, x / 2) + x % 2;
    }
  }

  /** A number and its negation share exactly the lowest set bit. */
  lemma {:induction false} AndNegation(m: nat, w: nat)
    requires 0 < m < Pow2(w)
    ensures And(m, Pow2(w) - m) == Pow2(LowestSetBit(m))
    decreases w
  {
    if m % 2 == 1 {
      AndComplement(m / 2, w - 1);
      assert (Pow2(w) - m) / 2 == Pow2(w - 1) - 1 - m / 2;
    } else {
      AndNegation(m / 2, w - 1);
      assert (Pow2(w) - m) / 2 == Pow2(w - 1) - m / 2;
    }
  }

  lemma {:induction false} AndPredecessor(a: nat)
    requires a > 0
    ensures And(a, a - 1) == 0 <==> a == Pow2(LowestSetBit(a))
  {
    if a % 2 == 1 {
      AndSelf(a / 2);
      if a > 1 {
        assert (a - 1) / 2 == a / 2;
      }
    } else {
      AndPredecessor(a / 2);
      assert (a - 1) / 2 == a / 2 - 1;
    }
  }

  /** The lowest set bit divides the mask, so adding it never passes the top of the word. */
  lemma {:induction false} LowestFits(m: nat, w: nat)
    requires 0 < m < Pow2(w)
    ensures LowestSetBit(m) < w && m + Pow2(LowestSetBit(m)) <= Pow2(w)
    decreases w
  {
    if m % 2 == 0 {
      LowestFits(m / 2, w - 1);
    }
  }

  lemma {:induction false} LowestOfPower(e: nat)
    ensures LowestSetBit(Pow2(e)) == e
  {
    if e > 0 {
      LowestOfPower(e - 1);
    }
  }

  lemma {:induction false} BitsOfRun(f: nat, e: nat, i: nat)
    requires f <= e
    ensures Pow2(f) <= Pow2(e) && (Bit(Pow2(e) - Pow2(f), i) <==> f <= i < e)
  {
    if f > 0 {
      BitsOfRun(f - 1, e - 1, if i > 0 then i - 1 else 0);
      assert (Pow2(e) - Pow2(f)) / 2 == Pow2(e - 1) - Pow2(f - 1);
    } else if e > 0 {
      BitsOfRun(0, e - 1, if i > 0 then i - 1 else 0);
      assert (Pow2(e) - 1) / 2 == Pow2(e - 1) - 1;
    } else {
      NoBits(i);
    }
  }

  lemma {:induction false} NoBits(i: nat)
    ensures !Bit(0, i)
  {
    if i > 0 {
      NoBits(i - 1);
    }
  }

  lemma {:induction false} BitsDetermine(a: nat, b: nat, w: nat)
    requires a < Pow2(w) && b < Pow2(w) && forall i: nat | i < w :: Bit(a, i) <==> Bit(b, i)
    ensures a == b
  {
    if w > 0 {
      forall i: nat | i < w - 1 ensures Bit(a / 2, i) <==> Bit(b / 2, i) {
        assert Bit(a, i + 1) <==> Bit(b, i + 1);
      }
      BitsDetermine(a / 2, b / 2, w - 1);
      assert Bit(a, 0) <==> Bit(b, 0);
    }
  }

  lemma NegationIs(m: Word)
    requires m > 0
    ensures Minus(0, m) == WORD - m && Minus(m, 1) == m - 1
  {}

  lemma {:induction false} LowestIs(m: Word)
    requires m > 0
    ensures LowestSetBit(m) < 32 && And(m, Minus(0, m)) == Pow2(LowestSetBit(m)) <= WORD - m
  {
    Pow32();
    NegationIs(m);
    AndNegation(m, 32);
    LowestFits(m, 32);
  }

  lemma Wraps(m: Word, lowest: nat)
    requires m > 0 && lowest <= WORD - m
    ensures (m + lowest) % WORD == if m + lowest == WORD then 0 else m + lowest
  {}

  lemma {:induction false} AboveRunIs(m: Word)
    requires m > 0
    ensures LowestSetBit(m) < 32
    ensures AboveRun(m) == if m + Pow2(LowestSetBit(m)) == WORD then 0 else m + Pow2(LowestSetBit(m))
  {
    LowestIs(m);
    Wraps(m, Pow2(LowestSetBit(m)));
  }

  lemma {:induction false} OneBitTest(above: Word)
    ensures And(above, Minus(above, 1)) == 0 <==> above == 0 || above == Pow2(LowestSetBit(above))
  {
    if above > 0 {
      NegationIs(above);
      AndPredecessor(above);
    }
  }

  lemma {:induction false} PowerExponents(f: nat, e: nat)
    requires Pow2(f) < Pow2(e) <= WORD
    ensures f < e <= 32
  {
    Pow32();
    PowMono(if e < f then e else f, f);
    PowMono(if e < 32 then e else 32, e);
  }

  /** What the test computes: the mask plus its lowest bit is a power of two, possibly 2^32. */
  lemma {:induction false} RunTestMeans(m: Word)
    requires m > 0
    ensures RunTest(m) <==> m + Pow2(LowestSetBit(m)) == Pow2(RunEnd(m))
    ensures RunTest(m) ==> LowestSetBit(m) < RunEnd(m) <= 32
  {
    AboveRunIs(m);
    OneBitTest(AboveRun(m));
    Pow32();
    if RunTest(m) {
      PowerExponents(LowestSetBit(m), RunEnd(m));
    }
  }

  lemma {:induction false} RunEndIs(m: Word, e: nat)
    requires m > 0 && e <= 32 && m + Pow2(LowestSetBit(m)) == Pow2(e)
    ensures RunEnd(m) == e
  {
    AboveRunIs(m);
    Pow32();
    PowMono(e, 32);
    LowestOfPower(e);
  }

  /** The set bits are exactly one interval. */
  ghost predicate BitsAre(m: Word, first: nat, end: nat) {
    forall i: nat | i < 32 :: Bit(m, i) <==> first <= i < end
  }

  /** The test picks the run path exactly when the set bits are one interval, and the interval it
      copies is that one. */
  lemma {:induction false} RunTestPicksRuns(m: Word)
    requires m > 0
    ensures RunTest(m) <==> exists first, end :: 0 <= first <= end <= 32 && BitsAre(m, first, end)
    ensures RunTest(m) ==> LowestSetBit(m) < RunEnd(m) <= 32 && BitsAre(m, LowestSetBit(m), RunEnd(m))
  {
    RunTestMeans(m);
    if RunTest(m) {
      forall i: nat | i < 32 ensures Bit(m, i) <==> LowestSetBit(m) <= i < RunEnd(m) {
        BitsOfRun(LowestSetBit(m), RunEnd(m), i);
      }
      assert BitsAre(m, LowestSetBit(m), RunEnd(m));
    }
    forall first, end | 0 <= first <= end <= 32 && BitsAre(m, first, end) ensures RunTest(m) {
      IntervalIsRun(m, first, end);
    }
  }

  lemma IntervalIsRun(m: Word, first: nat, end: nat)
    requires m > 0 && first <= end <= 32 && BitsAre(m, first, end)
    ensures RunTest(m)
  {
    PowValues();
    PowMono(first, end);
    PowMono(end, 32);
    forall i: nat | i < 32 ensures Bit(m, i) <==> Bit(Pow2(end) - Pow2(first), i) {
      BitsOfRun(first, end, i);
    }
    BitsDetermine(m, Pow2(end) - Pow2(first), 32);
    LowestOfRun(first, end);
    RunEndIs(m, end);
    RunTestMeans(m);
  }

  lemma {:induction false} LowestOfRun(first: nat, end: nat)
    requires Pow2(end) > Pow2(first)
    ensures LowestSetBit(Pow2(end) - Pow2(first)) == first
  {
    if end == 0 {
    } else if first > 0 {
      assert (Pow2(end) - Pow2(first)) / 2 == Pow2(end - 1) - Pow2(first - 1);
      LowestOfRun(first - 1, end - 1);
    }
  }

  // ---- The guard ------------------------------------------------------------------------------------------

  const FIRST_NONVOLATILE := 14
  const REGISTERS := 32
  const ALL_NONVOLATILE: Word := 0xFFFF_C000

  /** One register: both halves of a paired single. */
  datatype Fpr = Fpr(ps0: int, ps1: int)

  lemma {:induction false} BitsOfAnd(a: nat, b: nat, i: nat)
    ensures Bit(And(a, b), i) <==> Bit(a, i) && Bit(b, i)
  {
    if a == 0 || b == 0 {
      NoBits(i);
    } else {
      assert And(a, b) / 2 == And(a / 2, b / 2) && And(a, b) % 2 == (a % 2) * (b % 2);
      if i > 0 {
        BitsOfAnd(a / 2, b / 2, i - 1);
      }
    }
  }

  lemma {:induction false} AndIsSmall(a: nat, b: nat)
    ensures And(a, b) <= a
  {
    if a > 0 && b > 0 {
      AndIsSmall(a / 2, b / 2);
    }
  }

  function NonvolatilePart(mask: Word): (m: Word)
    ensures forall i: nat | i < 32 :: Bit(m, i) <==> Bit(mask, i) && i >= FIRST_NONVOLATILE
  {
    assert forall i: nat | i < 32 :: Bit(And(mask, ALL_NONVOLATILE), i) <==> Bit(mask, i) && i >= FIRST_NONVOLATILE by {
      assert Pow2(14) == 0x4000;
      Pow32();
      forall i: nat | i < 32 ensures Bit(And(mask, ALL_NONVOLATILE), i) <==> Bit(mask, i) && i >= FIRST_NONVOLATILE {
        BitsOfAnd(mask, ALL_NONVOLATILE, i);
        BitsOfRun(14, 32, i);
      }
    }
    AndIsSmall(mask, ALL_NONVOLATILE);
    And(mask, ALL_NONVOLATILE)
  }

  /** Masked registers as they were before, the others as they are after. */
  function Restored(mask: Word, before: seq<Fpr>, after: seq<Fpr>): (r: seq<Fpr>)
    requires |before| == |after| == REGISTERS
    ensures |r| == REGISTERS
  {
    seq(REGISTERS, i requires 0 <= i < REGISTERS => if i >= FIRST_NONVOLATILE && Bit(mask, i) then before[i] else after[i])
  }

  ghost predicate NonvolatileOnly(m: Word) {
    forall i: nat | i < 32 && Bit(m, i) :: i >= FIRST_NONVOLATILE
  }

  ghost predicate RunIs(m: Word, firstSlot: nat, slotCount: nat) {
    slotCount > 0 ==> && FIRST_NONVOLATILE + firstSlot + slotCount <= REGISTERS
                      && BitsAre(m, FIRST_NONVOLATILE + firstSlot, FIRST_NONVOLATILE + firstSlot + slotCount)
  }

  /** The mask's run as slots, or no slots when it is not one run. */
  method DescribeRun(m: Word) returns (firstSlot: nat, slotCount: nat)
    requires NonvolatileOnly(m)
    ensures RunIs(m, firstSlot, slotCount)
  {
    firstSlot, slotCount := 0, 0;
    if m != 0 {
      RunTestPicksRuns(m);
      if RunTest(m) {
        assert Bit(m, LowestSetBit(m));
        firstSlot, slotCount := LowestSetBit(m) - FIRST_NONVOLATILE, RunEnd(m) - LowestSetBit(m);
      }
    }
  }

  /** Copies the run in one stretch, or every masked register on its own. */
  method SaveSlots(fpr: array<Fpr>, m: Word, firstSlot: nat, slotCount: nat, slots: array<Fpr>)
    requires fpr.Length == REGISTERS && slots.Length == REGISTERS - FIRST_NONVOLATILE && fpr != slots
    requires NonvolatileOnly(m) && RunIs(m, firstSlot, slotCount)
    modifies slots
    ensures forall i: nat | i < 32 && Bit(m, i) :: slots[i - FIRST_NONVOLATILE] == fpr[i]
  {
    if slotCount != 0 {
      var first := FIRST_NONVOLATILE + firstSlot;
      for i := 0 to slotCount
        invariant forall r: nat | first <= r < first + i :: slots[r - FIRST_NONVOLATILE] == fpr[r]
      {
        slots[firstSlot + i] := fpr[first + i];
      }
      return;
    }
    for i := 0 to slots.Length
      invariant forall r: nat | FIRST_NONVOLATILE <= r < FIRST_NONVOLATILE + i && Bit(m, r) ::
                  slots[r - FIRST_NONVOLATILE] == fpr[r]
    {
      if Bit(m, FIRST_NONVOLATILE + i) {
        slots[i] := fpr[FIRST_NONVOLATILE + i];
      }
    }
  }

  class Guard {
    const fpr: array<Fpr>
    const mask: Word
    const firstSlot: nat
    const slotCount: nat
    const saved: array<Fpr>
    ghost const before: seq<Fpr>

    /** Every masked register is saved in its slot; a run is remembered as a run. */
    ghost predicate Valid()
      reads saved
    {
      && fpr.Length == REGISTERS && saved.Length == REGISTERS - FIRST_NONVOLATILE && |before| == REGISTERS && fpr != saved
      && NonvolatileOnly(mask) && RunIs(mask, firstSlot, slotCount)
      && (forall i: nat | i < 32 && Bit(mask, i) :: saved[i - FIRST_NONVOLATILE] == before[i])
    }

    constructor (fpr: array<Fpr>, requested: Word)
      requires fpr.Length == REGISTERS
      ensures Valid() && fresh(saved) && this.fpr == fpr && before == fpr[..] && mask == NonvolatilePart(requested)
    {
      var m := NonvolatilePart(requested);
      var first, count := DescribeRun(m);
      var slots := new Fpr[REGISTERS - FIRST_NONVOLATILE];
      SaveSlots(fpr, m, first, count, slots);
      this.fpr, mask, firstSlot, slotCount, saved, before := fpr, m, first, count, slots, fpr[..];
    }

    /** Both paths put back exactly the masked registers. */
    method Restore()
      requires Valid()
      modifies fpr
      ensures fpr[..] == Restored(mask, before, old(fpr[..]))
    {
      if slotCount != 0 {
        var first := FIRST_NONVOLATILE + firstSlot;
        for i := 0 to slotCount
          invariant forall k: nat | k < REGISTERS ::
                      fpr[k] == if first <= k < first + i then before[k] else old(fpr[k])
        {
          assert Bit(mask, first + i);
          fpr[first + i] := saved[firstSlot + i];
        }
        return;
      }
      for i := 0 to saved.Length
        invariant forall k: nat | k < REGISTERS ::
                    fpr[k] == if FIRST_NONVOLATILE <= k < FIRST_NONVOLATILE + i && Bit(mask, k) then before[k] else old(fpr[k])
      {
        if Bit(mask, FIRST_NONVOLATILE + i) {
          fpr[FIRST_NONVOLATILE + i] := saved[i];
        }
      }
    }
  }

  // ---- Call trees ---------------------------------------------------------------------------------------------

  /** A function's run: register writes and guarded calls, in order. */
  datatype Body = Return | Write(register: nat, value: Fpr, next: Body) | Dispatch(writeMask: Word, callee: Body, next: Body)

  /** No body writes a nonvolatile register outside the mask its guard is built from. */
  ghost predicate WritesWithin(b: Body, mask: Word) {
    match b
    case Return => true
    case Write(r, _, next) => r < REGISTERS && (r >= FIRST_NONVOLATILE ==> Bit(mask, r)) && WritesWithin(next, mask)
    case Dispatch(m, callee, next) => WritesWithin(callee, m) && WritesWithin(next, mask)
  }

  function Executed(b: Body, registers: seq<Fpr>): (r: seq<Fpr>)
    requires |registers| == REGISTERS
    ensures |r| == REGISTERS
    decreases b
  {
    match b
    case Return => registers
    case Write(r, v, next) => Executed(next, if r < REGISTERS then registers[r := v] else registers)
    case Dispatch(m, callee, next) => Executed(next, Restored(NonvolatilePart(m), registers, Executed(callee, registers)))
  }

  /** Outside its mask a body changes no nonvolatile register, however deep it calls. */
  lemma {:induction false} KeepsUnmasked(b: Body, mask: Word, registers: seq<Fpr>, i: nat)
    requires |registers| == REGISTERS && WritesWithin(b, mask)
    requires FIRST_NONVOLATILE <= i < REGISTERS && !Bit(mask, i)
    ensures Executed(b, registers)[i] == registers[i]
    decreases b
  {
    match b {
      case Return =>
      case Write(r, v, next) => KeepsUnmasked(next, mask, registers[r := v], i);
      case Dispatch(m, callee, next) =>
        if !Bit(m, i) {
          KeepsUnmasked(callee, m, registers, i);
        }
        KeepsUnmasked(next, mask, Restored(NonvolatilePart(m), registers, Executed(callee, registers)), i);
    }
  }

  /** A guarded call preserves f14 to f31 for any call tree whose callees write only within their masks. */
  lemma {:induction false} CallTreePreserves(mask: Word, callee: Body, registers: seq<Fpr>, i: nat)
    requires |registers| == REGISTERS && WritesWithin(callee, mask) && FIRST_NONVOLATILE <= i < REGISTERS
    ensures Restored(NonvolatilePart(mask), registers, Executed(callee, registers))[i] == registers[i]
  {
    if !Bit(mask, i) {
      KeepsUnmasked(callee, mask, registers, i);
    }
  }

  /** The dispatch as it runs: guard, call, restore. */
  method Run(b: Body, fpr: array<Fpr>)
    requires fpr.Length == REGISTERS
    modifies fpr
    ensures fpr[..] == Executed(b, old(fpr[..]))
    decreases b
  {
    match b {
      case Return =>
      case Write(r, v, next) =>
        if r < REGISTERS {
          fpr[r] := v;
        }
        Run(next, fpr);
      case Dispatch(m, callee, next) =>
        var guard := new Guard(fpr, m);
        Run(callee, fpr);
        guard.Restore();
        Run(next, fpr);
    }
  }
}
