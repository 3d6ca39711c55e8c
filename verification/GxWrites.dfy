/** Per-granule write generations that let a graphics cache skip re-digesting an unchanged range. */
module GxWrites {

  type Address = a: int | 0 <= a < 0x1_0000_0000

  const MEM1_SIZE := 0x0180_0000
  const MEM2_PHYSICAL_BASE := 0x1000_0000
  const MEM2_PHYSICAL_END := 0x1800_0000
  const MEM2_SIZE := 0x0800_0000
  const MEM2_CACHED_BASE := 0x9000_0000
  const MEM2_UNCACHED_BASE := 0xD000_0000

  const GRANULE_SIZE := 0x1_0000
  const TRACKED_SPAN := MEM2_PHYSICAL_END
  const GRANULE_COUNT := 0x1800
  const UNTRACKED := 0xFFFF_FFFF_FFFF_FFFF
  const COUNTER := 0x1_0000_0000

  // ---- One address space ------------------------------------------------------------------------------

  /** The physical address behind any cached, uncached or physical alias. */
  function Canonicalize(a: Address): Address {
    if a < MEM1_SIZE then a
    else if MEM2_PHYSICAL_BASE <= a < MEM2_PHYSICAL_END then a
    else if 0x8000_0000 <= a < 0x8000_0000 + MEM1_SIZE then a - 0x8000_0000
    else if MEM2_CACHED_BASE <= a < MEM2_CACHED_BASE + MEM2_SIZE then a - 0x8000_0000
    else if 0xC000_0000 <= a < 0xC000_0000 + MEM1_SIZE then a - 0xC000_0000
    else if MEM2_UNCACHED_BASE <= a < MEM2_UNCACHED_BASE + MEM2_SIZE then a - 0xC000_0000
    else a
  }

  predicate MainRam(physical: int) {
    0 <= physical < MEM1_SIZE || MEM2_PHYSICAL_BASE <= physical < MEM2_PHYSICAL_END
  }

  /** Canonicalizing is idempotent, sends all three aliases of a main-memory byte to that byte, and leaves
      every other address alone. */
  lemma CanonicalAliases(a: Address)
    ensures Canonicalize(Canonicalize(a)) == Canonicalize(a)
    ensures MainRam(a) ==> && Canonicalize(a) == a && Canonicalize(a + 0x8000_0000) == a
                           && Canonicalize(a + 0xC000_0000) == a
    ensures !MainRam(a) && !MainRam(a - 0x8000_0000) && !MainRam(a - 0xC000_0000) ==> Canonicalize(a) == a
    ensures MainRam(Canonicalize(a)) ==> a in [Canonicalize(a), Canonicalize(a) + 0x8000_0000, Canonicalize(a) + 0xC000_0000]
  {}

  // ---- Ranges ------------------------------------------------------------------------------------------

  /** The physical start of an operation on [a, a + size). */
  function Start(a: Address): nat {
    Canonicalize(a)
  }

  predicate Tracked(a: Address, size: nat) {
    size > 0 && Start(a) + size <= TRACKED_SPAN
  }

  predicate Notifies(a: Address, size: nat) {
    size > 0 && Start(a) < TRACKED_SPAN
  }

  function ClampedEnd(a: Address, size: nat): nat {
    if Start(a) + size < TRACKED_SPAN then Start(a) + size else TRACKED_SPAN
  }

  /** Whether a notified write and a digested range share a granule. */
  predicate SharesGranule(write: Address, size: nat, a: Address, n: nat)
    requires Notifies(write, size) && Tracked(a, n)
  {
    Start(write) / GRANULE_SIZE <= (Start(a) + n - 1) / GRANULE_SIZE
    && Start(a) / GRANULE_SIZE <= (ClampedEnd(write, size) - 1) / GRANULE_SIZE
  }

  /** Writes and digests that share a byte share a granule. */
  lemma OverlapSharesGranule(write: Address, size: nat, a: Address, n: nat, byte: nat)
    requires Notifies(write, size) && Tracked(a, n)
    requires Start(write) <= byte < Start(write) + size && Start(a) <= byte < Start(a) + n
    ensures SharesGranule(write, size, a, n)
  {}

  // ---- Counters as values ---------------------------------------------------------------------------------

  /** One granule's counter is a 32-bit word. */
  type Counter = n: nat | n < COUNTER

  type Counters = s: seq<Counter> | |s| == GRANULE_COUNT witness seq(GRANULE_COUNT, _ => 0)

  /** Whether a notification bumps granule `g`. */
  predicate Covers(write: Address, size: nat, g: int) {
    Notifies(write, size) && Start(write) / GRANULE_SIZE <= g <= (ClampedEnd(write, size) - 1) / GRANULE_SIZE
  }

  /** A write is noticed exactly by the granules that hold one of its bytes below the end of MEM2. */
  lemma {:induction false} CoversIsBytes(write: Address, size: nat, g: nat)
    ensures Covers(write, size, g) <==>
            exists x :: Start(write) <= x < Start(write) + size && x < 0x1800_0000 && x / 0x1_0000 == g
  {
    if Covers(write, size, g) {
      var x := if g == Start(write) / GRANULE_SIZE then Start(write) else g * GRANULE_SIZE;
      assert Start(write) <= x < Start(write) + size && x < 0x1800_0000 && x / 0x1_0000 == g;
    }
    if x :| Start(write) <= x < Start(write) + size && x < 0x1800_0000 && x / 0x1_0000 == g {
      assert x <= ClampedEnd(write, size) - 1;
    }
  }

  function Bumped(c: Counters, write: Address, size: nat): Counters {
    seq(GRANULE_COUNT, g requires 0 <= g < GRANULE_COUNT =>
      if Covers(write, size, g) then (c[g] + 1) % COUNTER else c[g])
  }

  function Sum(c: seq<Counter>, first: nat, end: nat): nat
    requires first <= end <= |c|
    decreases end - first
  {
    if first == end then 0 else Sum(c, first, end - 1) + c[end - 1]
  }

  function FirstGranule(a: Address): nat {
    Start(a) / GRANULE_SIZE
  }

  function EndGranule(a: Address, n: nat): nat
    requires Tracked(a, n)
  {
    (Start(a) + n - 1) / GRANULE_SIZE + 1
  }

  function Generation(c: Counters, a: Address, n: nat): nat {
    if !Tracked(a, n) then UNTRACKED else Sum(c, FirstGranule(a), EndGranule(a, n))
  }

  /** A range is tracked exactly when it is not empty and ends below the end of MEM2, and its generation
      folds exactly the granules that hold one of its bytes. */
  lemma {:induction false} RangeIsBytes(a: Address, n: nat, g: nat)
    ensures Tracked(a, n) <==> n > 0 && Start(a) + n - 1 < 0x1800_0000
    ensures Tracked(a, n) ==>
              (FirstGranule(a) <= g < EndGranule(a, n) <==> exists x :: Start(a) <= x < Start(a) + n && x / 0x1_0000 == g)
  {
    if Tracked(a, n) && FirstGranule(a) <= g < EndGranule(a, n) {
      var x := if g == FirstGranule(a) then Start(a) else g * GRANULE_SIZE;
      assert Start(a) <= x < Start(a) + n && x / 0x1_0000 == g;
    }
  }

  predicate CanSkipDigest(stored: nat, current: nat) {
    current != UNTRACKED && stored == current
  }

  lemma {:induction false} SumBound(c: Counters, first: nat, end: nat)
    requires first <= end <= GRANULE_COUNT
    ensures Sum(c, first, end) <= (end - first) * COUNTER
    decreases end - first
  {
    if first < end {
      SumBound(c, first, end - 1);
    }
  }

  /** The fold of a tracked range stays far below the untracked sentinel and below 64 bits. */
  lemma GenerationIsBelowSentinel(c: Counters, a: Address, n: nat)
    ensures Generation(c, a, n) == UNTRACKED <==> !Tracked(a, n)
    ensures Generation(c, a, n) <= UNTRACKED
  {
    if Tracked(a, n) {
      SumBound(c, FirstGranule(a), EndGranule(a, n));
    }
  }

  // ---- A run of notifications ---------------------------------------------------------------------------------

  datatype Write = Write(address: Address, size: nat)

  function After(c: Counters, writes: seq<Write>): Counters {
    if writes == [] then c
    else Bumped(After(c, writes[..|writes| - 1]), writes[|writes| - 1].address, writes[|writes| - 1].size)
  }

  predicate Touches(w: Write, a: Address, n: nat)
    requires Tracked(a, n)
  {
    Notifies(w.address, w.size) && SharesGranule(w.address, w.size, a, n)
  }

  /** How many notifications of the run bump granule `g`. */
  function Hits(writes: seq<Write>, g: nat): nat {
    if writes == [] then 0
    else
      var w := writes[|writes| - 1];
      Hits(writes[..|writes| - 1], g) + if Covers(w.address, w.size, g) then 1 else 0
  }

  /** How many bumps of the run land on granules [first, end). */
  function Bumps(writes: seq<Write>, first: nat, end: nat): nat
    requires first <= end
    decreases end - first
  {
    if first == end then 0 else Bumps(writes, first, end - 1) + Hits(writes, end - 1)
  }

  /** How often a counter of granules [first, end) passes 2^32 during the run. */
  function Wraps(c: Counters, writes: seq<Write>, first: nat, end: nat): nat
    requires first <= end <= GRANULE_COUNT
    decreases end - first
  {
    if first == end then 0 else Wraps(c, writes, first, end - 1) + (c[end - 1] + Hits(writes, end - 1)) / COUNTER
  }

  lemma OneMore(x: nat, y: nat)
    requires y == x % COUNTER
    ensures (y + 1) % COUNTER == (x + 1) % COUNTER
  {}

  lemma {:induction false} CounterAfter(c: Counters, writes: seq<Write>, g: nat)
    requires g < GRANULE_COUNT
    ensures After(c, writes)[g] == (c[g] + Hits(writes, g)) % COUNTER
  {
    if writes != [] {
      var earlier := writes[..|writes| - 1];
      CounterAfter(c, earlier, g);
      OneMore(c[g] + Hits(earlier, g), After(c, earlier)[g]);
    }
  }

  /** Over any run a fold grows by the bumps that land on its granules, less 2^32 for each wrap. */
  lemma {:induction false} FoldIsConserved(c: Counters, writes: seq<Write>, first: nat, end: nat)
    requires first <= end <= GRANULE_COUNT
    ensures Sum(After(c, writes), first, end) + COUNTER * Wraps(c, writes, first, end)
            == Sum(c, first, end) + Bumps(writes, first, end)
    decreases end - first
  {
    if first < end {
      FoldIsConserved(c, writes, first, end - 1);
      CounterAfter(c, writes, end - 1);
    }
  }

  lemma {:induction false} UnhitGranule(writes: seq<Write>, g: nat)
    ensures Hits(writes, g) == 0 <==> forall i | 0 <= i < |writes| :: !Covers(writes[i].address, writes[i].size, g)
  {
    if writes != [] {
      var earlier := writes[..|writes| - 1];
      UnhitGranule(earlier, g);
      assert forall i | 0 <= i < |earlier| :: earlier[i] == writes[i];
    }
  }

  lemma {:induction false} NoBumps(writes: seq<Write>, first: nat, end: nat)
    requires first <= end
    ensures Bumps(writes, first, end) == 0 <==> forall g: nat | first <= g < end :: Hits(writes, g) == 0
    decreases end - first
  {
    if first < end {
      NoBumps(writes, first, end - 1);
      assert Bumps(writes, first, end) == Bumps(writes, first, end - 1) + Hits(writes, end - 1);
    }
  }

  /** A notification touches a range exactly when it bumps one of its granules. */
  lemma TouchesCovers(w: Write, a: Address, n: nat)
    requires Tracked(a, n)
    ensures Touches(w, a, n) <==> exists g: nat :: FirstGranule(a) <= g < EndGranule(a, n) && Covers(w.address, w.size, g)
  {
    if Touches(w, a, n) {
      var g := if FirstGranule(w.address) < FirstGranule(a) then FirstGranule(a) else FirstGranule(w.address);
      assert Covers(w.address, w.size, g);
    }
  }

  /** A range's granules are never bumped exactly when no notification shares one with it. */
  lemma UntouchedRange(writes: seq<Write>, a: Address, n: nat)
    requires Tracked(a, n)
    ensures RangeBumps(writes, a, n) == 0 <==> forall i | 0 <= i < |writes| :: !Touches(writes[i], a, n)
  {
    NoBumps(writes, FirstGranule(a), EndGranule(a, n));
    if RangeBumps(writes, a, n) == 0 {
      forall i | 0 <= i < |writes| ensures !Touches(writes[i], a, n) {
        TouchesCovers(writes[i], a, n);
        forall g: nat | FirstGranule(a) <= g < EndGranule(a, n) ensures !Covers(writes[i].address, writes[i].size, g) {
          UnhitGranule(writes, g);
        }
      }
    } else {
      var g: nat :| FirstGranule(a) <= g < EndGranule(a, n) && Hits(writes, g) != 0;
      UnhitGranule(writes, g);
      var i :| 0 <= i < |writes| && Covers(writes[i].address, writes[i].size, g);
      TouchesCovers(writes[i], a, n);
    }
  }

  function RangeBumps(writes: seq<Write>, a: Address, n: nat): nat
    requires Tracked(a, n)
  {
    Bumps(writes, FirstGranule(a), EndGranule(a, n))
  }

  lemma {:induction false} OneWriteBumps(w: Write, first: nat, end: nat)
    requires first <= end
    ensures Bumps([w], first, end) <= end - first
    decreases end - first
  {
    if first < end {
      OneWriteBumps(w, first, end - 1);
      assert [w][..0] == [];
      assert Hits([w][..0], end - 1) == 0;
    }
  }

  lemma {:induction false} NoWraps(c: Counters, writes: seq<Write>, first: nat, end: nat)
    requires first <= end <= GRANULE_COUNT && Bumps(writes, first, end) == 0
    ensures Wraps(c, writes, first, end) == 0
    decreases end - first
  {
    if first < end {
      NoWraps(c, writes, first, end - 1);
    }
  }

  /** One notification moves a range's generation exactly when it shares a granule with it, wrapping
      counters included. */
  lemma OneWriteMoves(c: Counters, w: Write, a: Address, n: nat)
    requires Tracked(a, n)
    ensures Generation(Bumped(c, w.address, w.size), a, n) != Generation(c, a, n) <==> Touches(w, a, n)
  {
    var first, end := FirstGranule(a), EndGranule(a, n);
    assert [w][..0] == [] && [w][0] == w;
    assert After(c, [w]) == Bumped(c, w.address, w.size);
    FoldIsConserved(c, [w], first, end);
    UntouchedRange([w], a, n);
    OneWriteBumps(w, first, end);
    if !Touches(w, a, n) {
      NoWraps(c, [w], first, end);
    }
  }

  /** For every run: a stored generation is accepted exactly when the range is tracked and the bumps
      that landed on it are 2^32 for each wrap of one of its counters. */
  lemma {:induction false} AcceptedExactly(c: Counters, writes: seq<Write>, a: Address, n: nat)
    ensures CanSkipDigest(Generation(c, a, n), Generation(After(c, writes), a, n))
            <==> Tracked(a, n)
                 && RangeBumps(writes, a, n) == COUNTER * Wraps(c, writes, FirstGranule(a), EndGranule(a, n))
  {
    if Tracked(a, n) {
      FoldIsConserved(c, writes, FirstGranule(a), EndGranule(a, n));
      GenerationIsBelowSentinel(After(c, writes), a, n);
    }
  }

  /** The skip contract: while fewer than 2^32 bumps land on the range, from any counters and whatever
      happens elsewhere, a stored generation is accepted exactly when the range is tracked and no
      notified write since touched any of its granules. */
  lemma {:induction false} SkipIsSafe(c: Counters, writes: seq<Write>, a: Address, n: nat)
    requires Tracked(a, n) ==> RangeBumps(writes, a, n) < COUNTER
    ensures CanSkipDigest(Generation(c, a, n), Generation(After(c, writes), a, n))
            <==> Tracked(a, n) && forall i | 0 <= i < |writes| :: !Touches(writes[i], a, n)
  {
    AcceptedExactly(c, writes, a, n);
    if Tracked(a, n) {
      UntouchedRange(writes, a, n);
      if RangeBumps(writes, a, n) == 0 {
        FoldIsConserved(c, writes, FirstGranule(a), EndGranule(a, n));
        NoWraps(c, writes, FirstGranule(a), EndGranule(a, n));
      }
    }
  }

  /** So an accepted digest was never overlapped, whichever alias each side used. */
  lemma {:induction false} SkippedIsUntouched(c: Counters, writes: seq<Write>, a: Address, n: nat, i: nat, byte: nat)
    requires Tracked(a, n) ==> RangeBumps(writes, a, n) < COUNTER
    requires CanSkipDigest(Generation(c, a, n), Generation(After(c, writes), a, n))
    requires i < |writes| && Start(a) <= byte < Start(a) + n
    ensures !(Start(writes[i].address) <= byte < Start(writes[i].address) + writes[i].size)
  {
    SkipIsSafe(c, writes, a, n);
    var w := writes[i];
    if Start(w.address) <= byte < Start(w.address) + w.size {
      OverlapSharesGranule(w.address, w.size, a, n, byte);
    }
  }

  lemma {:induction false} RepeatedHits(w: Write, times: nat, g: nat)
    ensures Hits(seq(times, _ => w), g) == if Covers(w.address, w.size, g) then times else 0
  {
    if times > 0 {
      RepeatedHits(w, times - 1, g);
      assert seq(times, _ => w)[..times - 1] == seq(times - 1, _ => w);
    }
  }

  /** The bound is needed: after exactly 2^32 writes to one granule the stored generation is accepted
      again. */
  lemma WrapIsAccepted(c: Counters, w: Write, a: Address, n: nat)
    requires Tracked(a, n) && Touches(w, a, n)
    ensures CanSkipDigest(Generation(c, a, n), Generation(After(c, seq(COUNTER, _ => w)), a, n))
  {
    var now := After(c, seq(COUNTER, _ => w));
    forall g: nat | g < GRANULE_COUNT ensures now[g] == c[g] {
      RepeatedHits(w, COUNTER, g);
      CounterAfter(c, seq(COUNTER, _ => w), g);
    }
    assert now == c;
    GenerationIsBelowSentinel(c, a, n);
  }

  // ---- The table -----------------------------------------------------------------------------------------------

  class Generations {
    const counters: array<Counter>
    var trackingDisabled: bool

    constructor ()
      ensures !trackingDisabled
      ensures fresh(counters) && counters.Length == GRANULE_COUNT && forall g | 0 <= g < GRANULE_COUNT :: counters[g] == 0
    {
      counters := new Counter[GRANULE_COUNT](_ => 0);
      trackingDisabled := false;
    }

    method NotifyWrite(a: Address, size: nat)
      requires counters.Length == GRANULE_COUNT
      modifies counters
      ensures counters[..] == Bumped(old(counters[..]), a, size)
    {
      if !Notifies(a, size) {
        return;
      }
      var first, last := Start(a) / GRANULE_SIZE, (ClampedEnd(a, size) - 1) / GRANULE_SIZE;
      var granule := first;
      while granule <= last
        invariant first <= granule <= last + 1
        invariant forall g | 0 <= g < GRANULE_COUNT ::
                    counters[g] == if first <= g < granule then (old(counters[g]) + 1) % COUNTER else old(counters[g])
      {
        counters[granule] := (counters[granule] + 1) % COUNTER;
        granule := granule + 1;
      }
    }

    method GenerationForRange(a: Address, n: nat) returns (folded: int)
      requires counters.Length == GRANULE_COUNT
      ensures folded == if trackingDisabled then UNTRACKED else Generation(counters[..], a, n)
    {
      if trackingDisabled || !Tracked(a, n) {
        return UNTRACKED;
      }
      GenerationIsBelowSentinel(counters[..], a, n);
      var first, last := Start(a) / GRANULE_SIZE, (Start(a) + n - 1) / GRANULE_SIZE;
      var granule := first;
      folded := 0;
      while granule <= last
        invariant first <= granule <= last + 1
        invariant folded == Sum(counters[..], first, granule)
      {
        folded := folded + counters[granule];
        granule := granule + 1;
      }
      folded := if folded == UNTRACKED then folded - 1 else folded;
    }
  }
}
