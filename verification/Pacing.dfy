/** The presentation schedule: slot deadlines, and how a late group slides along the interval grid. */
module Pacing {
  import opened Arithmetic

  /** One encoded frame: its schedule, its slots, whether interpolation paces it, and the clock after
      encoding. A base or interval of 0 is no schedule. */
  datatype Frame = Frame(base: nat, interval: nat, slots: nat, interpolates: bool, now: nat)

  datatype Job = Job(presentAt: int, slidPeriods: nat)

  const NATIVE_OFFSET := 6_500_000
  const PERIODS := 0x1_0000_0000

  predicate Scheduled(f: Frame) {
    f.interpolates && f.interval != 0 && f.base != 0 && f.slots > 0
  }

  /** Deadline of one slot before any sliding; 0 is "as soon as ready". */
  function SlotDeadline(f: Frame, slot: nat): int
    requires f.slots > 0
  {
    if f.base == 0 || f.interval == 0 then 0
    else if !f.interpolates then f.base - f.interval + NATIVE_OFFSET
    else f.base + f.interval * slot / f.slots
  }

  /** A group that finished late moves to the first grid point after the clock. */
  function CaughtUp(base: nat, interval: nat, now: nat): nat
    requires interval > 0
  {
    if now > base then base + ((now - base) / interval + 1) * interval else base
  }

  /** Past the clock when late, and past the previous group's anchor. */
  function AnchorFor(base: nat, interval: nat, now: nat, last: nat): nat
    requires interval > 0
  {
    var caughtUp := CaughtUp(base, interval, now);
    if last != 0 && caughtUp <= last then last + interval else caughtUp
  }

  function Deadlines(f: Frame, shift: nat): (d: seq<int>)
    requires f.slots > 0
    ensures |d| == f.slots
  {
    seq(f.slots, k requires 0 <= k < f.slots => SlotDeadline(f, k) + shift)
  }

  // ---- One group -----------------------------------------------------------------------------------------

  predicate OnGrid(x: int, base: int, interval: nat)
    requires interval > 0
  {
    (x - base) % interval == 0
  }

  lemma MultipleDivides(k: int, interval: nat)
    requires interval > 0
    ensures k * interval % interval == 0 && k * interval / interval == k
  {
    QuotientIs(k * interval, interval, k);
  }

  lemma GridSteps(x: int, y: int, base: int, interval: nat)
    requires interval > 0 && OnGrid(x, base, interval) && OnGrid(y, base, interval) && x < y
    ensures x + interval <= y
  {
    var a, b := (x - base) / interval, (y - base) / interval;
    assert x - base == a * interval && y - base == b * interval;
    if a >= b {
      MulMono(b, a, interval);
    }
    MulMono(a + 1, b, interval);
  }

  lemma CaughtUpIsNext(base: nat, interval: nat, now: nat)
    requires interval > 0
    ensures var c := CaughtUp(base, interval, now);
            OnGrid(c, base, interval) && c >= base && (now > base ==> c - interval <= now < c && OnGrid(c - interval, base, interval))
  {
    if now > base {
      var q := (now - base) / interval;
      MultipleDivides(q + 1, interval);
      MultipleDivides(q, interval);
      assert now - base == q * interval + (now - base) % interval;
      assert (q + 1) * interval == q * interval + interval;
    }
  }

  lemma NextOnGrid(x: int, base: int, interval: nat)
    requires interval > 0 && OnGrid(x, base, interval)
    ensures OnGrid(x + interval, base, interval)
  {
    var q := (x - base) / interval;
    assert x + interval - base == (q + 1) * interval;
    MultipleDivides(q + 1, interval);
  }

  /** The anchor is the least grid point that is at least the base, past the previous anchor, and past
      the clock when the group is late. */
  lemma AnchorIsLeast(base: nat, interval: nat, now: nat, last: nat, other: int)
    requires interval > 0 && (last != 0 ==> OnGrid(last, base, interval))
    ensures var anchor := AnchorFor(base, interval, now, last);
            && OnGrid(anchor, base, interval) && anchor >= base && (last != 0 ==> anchor > last) && (now > base ==> anchor > now)
            && (OnGrid(other, base, interval) && other >= base && (last != 0 ==> other > last) && (now > base ==> other > now)
                ==> anchor <= other)
  {
    CaughtUpIsNext(base, interval, now);
    var caughtUp := CaughtUp(base, interval, now);
    if last != 0 && caughtUp <= last {
      NextOnGrid(last, base, interval);
      if OnGrid(other, base, interval) && other > last {
        GridSteps(last, other, base, interval);
      }
    } else if now > base && OnGrid(other, base, interval) && other > now {
      GridSteps(caughtUp - interval, other, base, interval);
    }
  }

  /** Whatever the cursor: the anchor is at or after the base, past the previous anchor, and past the
      clock when late. */
  lemma AnchorIsPast(base: nat, interval: nat, now: nat, last: nat)
    requires interval > 0
    ensures var anchor := AnchorFor(base, interval, now, last);
            anchor >= base && (last != 0 ==> anchor > last) && (now > base ==> anchor > now)
  {
    CaughtUpIsNext(base, interval, now);
  }

  /** The slide of a group from a given cursor. */
  function Shift(f: Frame, last: nat): nat
    requires Scheduled(f)
  {
    AnchorIsPast(f.base, f.interval, f.now, last);
    AnchorFor(f.base, f.interval, f.now, last) - f.base
  }

  /** A slide in periods, a started one counting whole. */
  function Periods(shift: nat, interval: nat): nat
    requires interval > 0
  {
    (shift + interval - 1) / interval
  }

  /** The rounded-up periods cover the slide by less than one interval, and are exact on the grid only. */
  lemma RoundedUp(shift: nat, interval: nat)
    requires interval > 0
    ensures var slid := Periods(shift, interval) * interval;
            slid - interval < shift <= slid && (shift == slid <==> shift % interval == 0)
  {
    var q := Periods(shift, interval);
    assert shift + interval - 1 == q * interval + (shift + interval - 1) % interval;
    if shift % interval == 0 {
      QuotientIs(shift + interval - 1, interval, shift / interval);
      assert shift == shift / interval * interval;
    } else if shift == q * interval {
      MultipleDivides(q, interval);
    }
  }

  /** Slots strictly increase and stay within one interval of the anchor, exactly when the interval is
      at least the slot count. */
  lemma {:induction false} SlotsIncrease(f: Frame, shift: nat)
    requires Scheduled(f)
    ensures forall k | 0 <= k < f.slots :: f.base + shift <= Deadlines(f, shift)[k] < f.base + shift + f.interval
    ensures (forall j, k | 0 <= j < k < f.slots :: Deadlines(f, shift)[j] < Deadlines(f, shift)[k])
            <==> f.slots == 1 || f.interval >= f.slots
  {
    forall k | 0 <= k < f.slots ensures 0 <= f.interval * k / f.slots < f.interval {
      ShareBelow(f.interval, k, f.slots);
    }
    if f.interval >= f.slots {
      forall j, k | 0 <= j < k < f.slots ensures Deadlines(f, shift)[j] < Deadlines(f, shift)[k] {
        SharesIncrease(f.interval, j, k, f.slots);
      }
    } else if f.slots > 1 {
      assert f.interval * 1 / f.slots == 0 && f.interval * 0 / f.slots == 0;
      assert Deadlines(f, shift)[0] == Deadlines(f, shift)[1];
    }
  }

  /** Two slots in an interval of one tick fall due together. */
  lemma CrowdedSlots()
    ensures var f := Frame(100, 1, 2, true, 90);
            Scheduled(f) && Deadlines(f, 0) == [100, 100]
  {
    assert 1 * 1 / 2 == 0;
  }

  lemma ShareBelow(interval: nat, k: nat, slots: nat)
    requires k < slots && interval > 0
    ensures 0 <= interval * k / slots < interval
  {
    assert interval * (slots - k) > 0;
    QuotientBelow(interval * k, slots, interval);
    QuotientAtLeast(interval * k, slots, 0);
  }

  lemma SharesIncrease(interval: nat, j: nat, k: nat, slots: nat)
    requires j < k && 0 < slots <= interval
    ensures interval * j / slots < interval * k / slots
  {
    var q := interval * j / slots;
    assert interval * j == q * slots + interval * j % slots;
    MulMono(j + 1, k, interval);
    assert (q + 1) * slots == q * slots + slots;
    QuotientAtLeast(interval * k, slots, q + 1);
  }

  /** The first slot is the anchor's, and slots are spread evenly: any two lie their share of the interval
      apart, to within one tick. */
  lemma SlotsAreEven(f: Frame, shift: nat, j: nat, k: nat)
    requires Scheduled(f) && j <= k < f.slots
    ensures var d := Deadlines(f, shift);
            && d[0] == f.base + shift
            && (k - j) * f.interval - f.slots < (d[k] - d[j]) * f.slots < (k - j) * f.interval + f.slots
  {
    assert f.interval * 0 / f.slots == 0;
    var (x, y) := (f.interval * j, f.interval * k);
    assert x == x / f.slots * f.slots + x % f.slots && y == y / f.slots * f.slots + y % f.slots;
    assert (k - j) * f.interval == y - x;
    assert (y / f.slots - x / f.slots) * f.slots == y / f.slots * f.slots - x / f.slots * f.slots;
    assert Deadlines(f, shift)[k] - Deadlines(f, shift)[j] == y / f.slots - x / f.slots;
  }

  // ---- The scheduler ---------------------------------------------------------------------------------------

  /** The cursor keeps two groups off one anchor; 0 is no cursor. */
  class Scheduler {
    var lastGroupAnchor: nat

    constructor ()
      ensures lastGroupAnchor == 0
    {
      lastGroupAnchor := 0;
    }

    /** Slides a late group and stamps its jobs, whatever interval the cursor was left by; without a
        schedule the cursor goes. */
    method ScheduleGroup(f: Frame) returns (jobs: seq<Job>)
      requires f.slots > 0
      modifies this
      ensures lastGroupAnchor == if Scheduled(f) then AnchorFor(f.base, f.interval, f.now, old(lastGroupAnchor)) else 0
      ensures jobs == if Scheduled(f) then Slid(f, lastGroupAnchor - f.base) else Slid(f, 0)
    {
      jobs := Stamp(f, 0, 0);
      if !Scheduled(f) {
        lastGroupAnchor := 0;
        return;
      }
      var anchor := f.base;
      if f.now > anchor {
        anchor := anchor + ((f.now - anchor) / f.interval + 1) * f.interval;
      }
      if lastGroupAnchor != 0 && anchor <= lastGroupAnchor {
        anchor := lastGroupAnchor + f.interval;
      }
      AnchorIsPast(f.base, f.interval, f.now, lastGroupAnchor);
      var shift := anchor - f.base;
      if shift > 0 {
        jobs := Stamp(f, shift, Periods(shift, f.interval) % PERIODS);
      }
      lastGroupAnchor := anchor;
    }

    method Stamp(f: Frame, shift: int, slid: nat) returns (jobs: seq<Job>)
      requires f.slots > 0
      ensures jobs == seq(f.slots, k requires 0 <= k < f.slots => Job(SlotDeadline(f, k) + shift, slid))
    {
      jobs := [];
      for k := 0 to f.slots
        invariant jobs == seq(k, i requires 0 <= i < k <= f.slots => Job(SlotDeadline(f, i) + shift, slid))
      {
        jobs := jobs + [Job(SlotDeadline(f, k) + shift, slid)];
      }
    }
  }

  /** A group's jobs after sliding the whole group, stamped with the 32-bit period count. */
  function Slid(f: Frame, shift: int): seq<Job>
    requires f.slots > 0 && (shift != 0 ==> Scheduled(f) && shift > 0)
  {
    seq(f.slots, k requires 0 <= k < f.slots =>
      Job(SlotDeadline(f, k) + shift, if shift == 0 then 0 else Periods(shift, f.interval) % PERIODS))
  }

  /** Without interpolation every job of a paced frame is due 6.5 ms after the display boundary that just
      passed, one interval before the base, and never slides; without a schedule it is due at once. */
  lemma NativeJobs(f: Frame, k: nat)
    requires k < f.slots && !Scheduled(f)
    ensures Slid(f, 0)[k] == Job(if f.base == 0 || f.interval == 0 then 0 else f.base - f.interval + 6_500_000, 0)
  {}

  /** The slide, group for group: the stamped periods are its length exactly when the anchor lies on the
      group's own grid, as it does unless the interval changed under the cursor (`AnchorIsLeast`). */
  lemma SlideIsPeriods(f: Frame, last: nat, k: nat)
    requires Scheduled(f) && k < f.slots
    requires Periods(Shift(f, last), f.interval) < PERIODS
    ensures Slid(f, Shift(f, last))[k].presentAt == SlotDeadline(f, k) + Slid(f, Shift(f, last))[k].slidPeriods * f.interval
            <==> OnGrid(AnchorFor(f.base, f.interval, f.now, last), f.base, f.interval)
  {
    SlidJob(f, Shift(f, last), k);
    RoundedUp(Shift(f, last), f.interval);
    ShiftOnGrid(f, last);
  }

  lemma SlidJob(f: Frame, shift: nat, k: nat)
    requires Scheduled(f) && k < f.slots && Periods(shift, f.interval) < PERIODS
    ensures Slid(f, shift)[k] == Job(SlotDeadline(f, k) + shift, Periods(shift, f.interval))
  {
    Unwrapped(Periods(shift, f.interval));
    if shift == 0 {
      RoundedUp(0, f.interval);
    }
  }

  lemma ShiftOnGrid(f: Frame, last: nat)
    requires Scheduled(f)
    ensures Shift(f, last) % f.interval == 0 <==> OnGrid(AnchorFor(f.base, f.interval, f.now, last), f.base, f.interval)
  {}

  /** An interval change leaves the cursor off the grid: a group of interval 10 right after one of
      interval 7, both on time, slides by 15, which is stamped as two periods. */
  lemma UnevenSlide()
    ensures var before, f := Frame(105, 7, 1, true, 90), Frame(100, 10, 1, true, 90);
            var cursor := AnchorFor(before.base, before.interval, before.now, 0);
            && Scheduled(before) && Scheduled(f)
            && Shift(f, cursor) == 15 && Periods(Shift(f, cursor), f.interval) == 2
            && !OnGrid(AnchorFor(f.base, f.interval, f.now, cursor), f.base, f.interval)
  {}

  lemma Unwrapped(slid: nat)
    requires slid < PERIODS
    ensures slid % PERIODS == slid
  {}

  // ---- A run of scheduled groups -------------------------------------------------------------------------------

  function Anchors(frames: seq<Frame>, last: nat): (a: seq<nat>)
    requires forall i | 0 <= i < |frames| :: Scheduled(frames[i])
    ensures |a| == |frames|
  {
    if frames == [] then []
    else
      assert Scheduled(frames[0]);
      var anchor := AnchorFor(frames[0].base, frames[0].interval, frames[0].now, last);
      [anchor] + Anchors(frames[1..], anchor)
  }

  /** All frames are scheduled with one interval, on one grid, with at least one tick per slot. */
  predicate OneGrid(frames: seq<Frame>, interval: nat, base: nat) {
    interval > 0 && forall i | 0 <= i < |frames| ::
      Scheduled(frames[i]) && frames[i].interval == interval >= frames[i].slots && OnGrid(frames[i].base, base, interval)
  }

  lemma GridTransfers(x: int, b: int, base: int, interval: nat)
    requires interval > 0 && OnGrid(b, base, interval)
    ensures OnGrid(x, b, interval) <==> OnGrid(x, base, interval)
  {
    var q := (b - base) / interval;
    assert b - base == q * interval;
    if OnGrid(x, b, interval) {
      assert x - base == ((x - b) / interval + q) * interval;
      MultipleDivides((x - b) / interval + q, interval);
    }
    if OnGrid(x, base, interval) {
      assert x - b == ((x - base) / interval - q) * interval;
      MultipleDivides((x - base) / interval - q, interval);
    }
  }

  /** Every deadline of an unbroken run is strictly later than every deadline of earlier groups. */
  lemma {:induction false} RunIncreases(frames: seq<Frame>, interval: nat, base: nat, last: nat, i: nat)
    requires OneGrid(frames, interval, base) && (last != 0 ==> OnGrid(last, base, interval)) && i < |frames|
    ensures var a := Anchors(frames, last);
            && OnGrid(a[i], base, interval) && a[i] >= frames[i].base
            && (last != 0 ==> a[i] >= last + interval) && (i > 0 ==> a[i] >= a[0] + interval)
    decreases |frames|
  {
    var f := frames[0];
    var anchor := AnchorFor(f.base, interval, f.now, last);
    GridTransfers(last, f.base, base, interval);
    AnchorIsLeast(f.base, interval, f.now, last, 0);
    GridTransfers(anchor, f.base, base, interval);
    if last != 0 {
      GridSteps(last, anchor, base, interval);
    }
    if i > 0 {
      RunIncreases(frames[1..], interval, base, anchor, i - 1);
    }
  }

  /** Slot deadlines over a whole run strictly increase, group after group and slot after slot. */
  lemma {:induction false} AllDeadlinesIncrease(frames: seq<Frame>, interval: nat, base: nat, last: nat, i: nat,
                    j: nat, k: nat, l: nat)
    requires OneGrid(frames, interval, base) && (last != 0 ==> OnGrid(last, base, interval))
    requires i <= j < |frames| && k < frames[i].slots && l < frames[j].slots && (i < j || k < l)
    ensures var a := Anchors(frames, last);
            && a[i] >= frames[i].base && a[j] >= frames[j].base
            && Deadlines(frames[i], a[i] - frames[i].base)[k] < Deadlines(frames[j], a[j] - frames[j].base)[l]
    decreases |frames|
  {
    var a := Anchors(frames, last);
    RunIncreases(frames, interval, base, last, i);
    RunIncreases(frames, interval, base, last, j);
    if i == 0 {
      SlotsIncrease(frames[i], a[i] - frames[i].base);
      SlotsIncrease(frames[j], a[j] - frames[j].base);
    } else {
      var f := frames[0];
      RunIncreases(frames, interval, base, last, 0);
      AllDeadlinesIncrease(frames[1..], interval, base, a[0], i - 1, j - 1, k, l);
      assert a[i] == Anchors(frames[1..], a[0])[i - 1] && a[j] == Anchors(frames[1..], a[0])[j - 1];
    }
  }
}
