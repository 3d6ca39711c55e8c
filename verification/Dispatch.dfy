/** Indirect dispatch: the two-level table search against a plain scan, and the memos in front of it. */
module Dispatch {
  import opened Wrappers

  // ---- The table -------------------------------------------------------------------------------------

  type Address = a: int | 0 <= a < 0x1_0000_0000

  datatype Page = Page(firstEntry: nat, entryCount: nat)

  datatype Segment = Segment(pages: Option<seq<Page>>, firstPage: nat, pageCount: nat)

  /** Dispatch records sorted within 4 KiB pages, found through 256 high-byte segments. */
  datatype Table = Table(segments: Option<seq<Segment>>, entries: Option<seq<Address>>)

  const SEGMENTS := 256

  function SegmentOf(a: Address): nat {
    a / 0x100_0000
  }

  function PageOf(a: Address): nat {
    a / 0x1000 % 0x1000
  }

  /** The arrays are as long as the counts beside them say. */
  predicate Shaped(t: Table) {
    t.segments.Some? ==>
      && |t.segments.value| == SEGMENTS
      && forall s | 0 <= s < SEGMENTS ::
           t.segments.value[s].pages.Some? ==> |t.segments.value[s].pages.value| == t.segments.value[s].pageCount
  }

  /** The page an address falls in, when the table has it and its entry range is in bounds. */
  function PageFor(t: Table, a: Address): (p: Option<Page>)
    requires Shaped(t)
    ensures p.Some? ==> t.entries.Some? && p.value.firstEntry + p.value.entryCount <= |t.entries.value|
  {
    if t.segments.None? || t.entries.None? || t.entries.value == [] then None
    else
      var segment, page := t.segments.value[SegmentOf(a)], PageOf(a);
      if segment.pages.None? || page < segment.firstPage || page - segment.firstPage >= segment.pageCount then None
      else
        var p := segment.pages.value[page - segment.firstPage];
        if p.firstEntry > |t.entries.value| || p.entryCount > |t.entries.value| - p.firstEntry then None else Some(p)
  }

  /** The first entry with the address, however the table is organised. */
  function LinearScan(entries: seq<Address>, a: Address): (r: Option<nat>)
    ensures r.Some? ==> r.value < |entries| && entries[r.value] == a && a !in entries[..r.value]
    ensures r.None? ==> a !in entries
  {
    if entries == [] then None
    else if entries[0] == a then Some(0)
    else
      var rest := LinearScan(entries[1..], a);
      if rest.None? then None
      else
        assert entries[..rest.value + 1] == [entries[0]] + entries[1..][..rest.value];
        Some(rest.value + 1)
  }

  predicate SortedRange(entries: seq<Address>, first: nat, end: nat)
    requires first <= end <= |entries|
  {
    forall i, j | first <= i < j < end :: entries[i] <= entries[j]
  }

  /** Every entry lies in the range of its own address's page, and pages are sorted. */
  ghost predicate WellFormed(t: Table) {
    Shaped(t) && t.entries.Some?
    && forall i | 0 <= i < |t.entries.value| :: InItsPage(t, i)
  }

  ghost predicate InItsPage(t: Table, i: nat)
    requires Shaped(t) && t.entries.Some? && i < |t.entries.value|
  {
    var p := PageFor(t, t.entries.value[i]);
    && p.Some? && p.value.firstEntry <= i < p.value.firstEntry + p.value.entryCount
    && SortedRange(t.entries.value, p.value.firstEntry, p.value.firstEntry + p.value.entryCount)
  }

  /** Segments are 16 MiB of addresses and pages 4 KiB of a segment, in order. */
  lemma AddressIsItsParts(a: Address)
    ensures SegmentOf(a) < SEGMENTS && PageOf(a) < 0x1000
    ensures SegmentOf(a) * 0x100_0000 + PageOf(a) * 0x1000 <= a < SegmentOf(a) * 0x100_0000 + PageOf(a) * 0x1000 + 0x1000
  {}

  /** An entry lies in the sorted range of the j-th page of segment s, and its address in that page. */
  ghost predicate LaidOut(t: Table, i: nat, s: nat, j: nat)
    requires Shaped(t) && t.entries.Some? && i < |t.entries.value|
  {
    && t.segments.Some? && s < SEGMENTS
    && var segment := t.segments.value[s];
    && segment.pages.Some? && j < segment.pageCount && segment.firstPage + j < 0x1000
    && var (p, start) := (segment.pages.value[j], s * 0x100_0000 + (segment.firstPage + j) * 0x1000);
    && p.firstEntry <= i < p.firstEntry + p.entryCount <= |t.entries.value|
    && start <= t.entries.value[i] < start + 0x1000
    && SortedRange(t.entries.value, p.firstEntry, p.firstEntry + p.entryCount)
  }

  /** A table is well formed exactly when every entry is laid out in the page its address lies in. */
  lemma WellFormedIsLaidOut(t: Table, i: nat)
    requires Shaped(t) && t.entries.Some? && i < |t.entries.value|
    ensures InItsPage(t, i) <==> exists s, j :: LaidOut(t, i, s, j)
  {
    var a := t.entries.value[i];
    AddressIsItsParts(a);
    if InItsPage(t, i) {
      assert LaidOut(t, i, SegmentOf(a), PageOf(a) - t.segments.value[SegmentOf(a)].firstPage);
    }
    if s: nat, j: nat :| LaidOut(t, i, s, j) {
      assert SegmentOf(a) == s && PageOf(a) == t.segments.value[s].firstPage + j;
    }
  }

  /** Where the halving of [lower, upper) ends, on any entries. */
  function LowerBound(entries: seq<Address>, a: Address, lower: nat, upper: nat): (r: nat)
    requires lower <= upper <= |entries|
    ensures lower <= r <= upper
    decreases upper - lower
  {
    if lower == upper then lower
    else
      var middle := lower + (upper - lower) / 2;
      if entries[middle] < a then LowerBound(entries, a, middle + 1, upper) else LowerBound(entries, a, lower, middle)
  }

  /** The table's answer, whatever it holds. */
  function StaticLookup(t: Table, a: Address): (r: Option<nat>)
    requires Shaped(t)
    ensures r.Some? ==> t.entries.Some? && r.value < |t.entries.value| && t.entries.value[r.value] == a
  {
    match PageFor(t, a)
    case None => None
    case Some(p) =>
      var lower := LowerBound(t.entries.value, a, p.firstEntry, p.firstEntry + p.entryCount);
      if lower < p.firstEntry + p.entryCount && t.entries.value[lower] == a then Some(lower) else None
  }

  lemma {:induction false} NotInPage(t: Table, a: Address)
    requires WellFormed(t) && PageFor(t, a).None?
    ensures LinearScan(t.entries.value, a).None?
  {
    forall i | 0 <= i < |t.entries.value| ensures t.entries.value[i] != a {
      assert InItsPage(t, i);
    }
  }

  /** In a well-formed table the lower bound of an address's page is its first entry overall. */
  lemma {:induction false} LowerBoundIsScan(t: Table, a: Address, lower: nat)
    requires WellFormed(t) && PageFor(t, a).Some?
    requires var p := PageFor(t, a).value;
             && p.firstEntry <= lower <= p.firstEntry + p.entryCount
             && (SortedRange(t.entries.value, p.firstEntry, p.firstEntry + p.entryCount) ==>
                   SplitsAt(t.entries.value, a, p.firstEntry, lower, p.firstEntry + p.entryCount))
    ensures var p := PageFor(t, a).value;
            LinearScan(t.entries.value, a)
            == if lower < p.firstEntry + p.entryCount && t.entries.value[lower] == a then Some(lower) else None
  {
    var entries, p, scan := t.entries.value, PageFor(t, a).value, LinearScan(t.entries.value, a);
    if scan.Some? {
      assert InItsPage(t, scan.value);
    }
    if lower < p.firstEntry + p.entryCount && entries[lower] == a {
      assert InItsPage(t, lower);
      assert scan.Some? && InItsPage(t, scan.value);
    }
  }

  /** Everything before `at` is below the address and nothing from it on is. */
  predicate SplitsAt(entries: seq<Address>, a: Address, first: nat, at: nat, end: nat)
    requires first <= at <= end <= |entries|
  {
    (forall i | first <= i < at :: entries[i] < a) && (forall i | at <= i < end :: entries[i] >= a)
  }

  lemma {:induction false} LowerBoundSplits(entries: seq<Address>, a: Address, first: nat, end: nat, lower: nat,
                                            upper: nat)
    requires first <= lower <= upper <= end <= |entries| && SortedRange(entries, first, end)
    requires (forall i | first <= i < lower :: entries[i] < a) && (forall i | upper <= i < end :: entries[i] >= a)
    ensures SplitsAt(entries, a, first, LowerBound(entries, a, lower, upper), end)
    decreases upper - lower
  {
    if lower < upper {
      var middle := lower + (upper - lower) / 2;
      if entries[middle] < a {
        LowerBoundSplits(entries, a, first, end, middle + 1, upper);
      } else {
        LowerBoundSplits(entries, a, first, end, lower, middle);
      }
    }
  }

  lemma {:induction false} StaticLookupIsScan(t: Table, a: Address)
    requires WellFormed(t)
    ensures StaticLookup(t, a) == LinearScan(t.entries.value, a)
  {
    match PageFor(t, a) {
      case None => NotInPage(t, a);
      case Some(p) =>
        var end := p.firstEntry + p.entryCount;
        if SortedRange(t.entries.value, p.firstEntry, end) {
          LowerBoundSplits(t.entries.value, a, p.firstEntry, end, p.firstEntry, end);
        }
        LowerBoundIsScan(t, a, LowerBound(t.entries.value, a, p.firstEntry, end));
    }
  }

  /** The search: whatever the table holds, a result has the requested address and no index leaves the
      entries; on a well-formed table the result is the linear scan's. */
  method FindStaticIndirectDispatchEntry(t: Table, a: Address) returns (r: Option<nat>)
    requires Shaped(t)
    ensures r.Some? ==> t.entries.Some? && r.value < |t.entries.value| && t.entries.value[r.value] == a
    ensures WellFormed(t) ==> r == LinearScan(t.entries.value, a)
    ensures r == StaticLookup(t, a)
  {
    var page := PageFor(t, a);
    if page.None? {
      if WellFormed(t) {
        StaticLookupIsScan(t, a);
      }
      return None;
    }
    var entries, first, count := t.entries.value, page.value.firstEntry, page.value.entryCount;
    var lower, upper := first, first + count;
    while lower < upper
      invariant first <= lower <= upper <= first + count
      invariant LowerBound(entries, a, first, first + count) == LowerBound(entries, a, lower, upper)
    {
      var middle := lower + (upper - lower) / 2;
      if entries[middle] < a {
        lower := middle + 1;
      } else {
        upper := middle;
      }
    }
    r := if lower < first + count && entries[lower] == a then Some(lower) else None;
    if WellFormed(t) {
      StaticLookupIsScan(t, a);
    }
  }

  // ---- Generated and registered records -----------------------------------------------------------------------

  datatype RawRecord = Generated(index: nat) | Registered(index: nat)

  /** The registered records are kept sorted; their lookup halves the whole list. */
  function RegisteredLookup(entries: seq<Address>, a: Address): (r: Option<nat>)
    ensures r.Some? ==> r.value < |entries| && entries[r.value] == a
  {
    var lower := LowerBound(entries, a, 0, |entries|);
    if lower < |entries| && entries[lower] == a then Some(lower) else None
  }

  /** The generated table first, then the registered records. */
  function RawLookup(t: Option<Table>, entries: seq<Address>, a: Address): Option<RawRecord>
    requires t.Some? ==> Shaped(t.value)
  {
    var generated := if t.Some? then StaticLookup(t.value, a) else None;
    if generated.Some? then Some(Generated(generated.value))
    else
      var registered := RegisteredLookup(entries, a);
      if registered.Some? then Some(Registered(registered.value)) else None
  }

  function RecordAddress(t: Option<Table>, entries: seq<Address>, r: RawRecord): Option<Address> {
    match r
    case Generated(i) => if t.Some? && t.value.entries.Some? && i < |t.value.entries.value| then Some(t.value.entries.value[i]) else None
    case Registered(i) => if i < |entries| then Some(entries[i]) else None
  }

  /** Any record found has the requested address. On a well-formed table and sorted records the lookup
      finds the first generated record with the address, else the first registered one, and fails only
      when neither list has it. */
  lemma {:induction false} RawLookupIsScan(t: Option<Table>, entries: seq<Address>, a: Address)
    requires t.Some? ==> Shaped(t.value)
    ensures var r := RawLookup(t, entries, a);
            && (r.Some? ==> RecordAddress(t, entries, r.value) == Some(a))
            && ((t.Some? ==> WellFormed(t.value)) && SortedRange(entries, 0, |entries|) ==>
                  var generated := if t.Some? then LinearScan(t.value.entries.value, a) else None;
                  var registered := LinearScan(entries, a);
                  r == if generated.Some? then Some(Generated(generated.value))
                       else if registered.Some? then Some(Registered(registered.value)) else None)
  {
    if t.Some? && WellFormed(t.value) {
      StaticLookupIsScan(t.value, a);
    }
    if SortedRange(entries, 0, |entries|) {
      RegisteredIsScan(entries, a);
    }
  }

  lemma {:induction false} RegisteredIsScan(entries: seq<Address>, a: Address)
    requires SortedRange(entries, 0, |entries|)
    ensures RegisteredLookup(entries, a) == LinearScan(entries, a)
  {
    LowerBoundSplits(entries, a, 0, |entries|, 0, |entries|);
    var scan := LinearScan(entries, a);
    if scan.Some? {
      assert forall i | 0 <= i < scan.value :: entries[..scan.value][i] == entries[i];
    }
  }

  // ---- The memo --------------------------------------------------------------------------------------------

  const MEMO_ENTRIES := 4096

  /** The top twelve bits of a multiplicative hash. */
  function MemoIndex(a: Address): (i: nat)
    ensures i < MEMO_ENTRIES
  {
    a / 4 * 2654435761 % 0x1_0000_0000 / 0x10_0000
  }

  datatype Slot<T> = Slot(valid: bool, address: Address, result: Option<T>)

  /** A registry whose lookup may change until it is published and never afterwards, with the
      direct-mapped memo in front of it. */
  class Registry<T(0)> {
    var published: bool
    var lookup: Address -> Option<T>
    const memo: array<Slot<T>>

    /** Nothing is memoized before publication; afterwards a slot holds the lookup's own answer. */
    ghost predicate Valid()
      reads this, memo
    {
      && memo.Length == MEMO_ENTRIES
      && forall i | 0 <= i < MEMO_ENTRIES :: memo[i].valid ==> published && memo[i].result == lookup(memo[i].address)
    }

    constructor (initial: Address -> Option<T>)
      ensures Valid() && fresh(memo) && !published && lookup == initial
    {
      published, lookup := false, initial;
      memo := new Slot<T>[MEMO_ENTRIES](_ => Slot(false, 0, None));
    }

    /** Registration is refused once the lookup is published. */
    method Register(next: Address -> Option<T>) returns (ok: bool)
      requires Valid()
      modifies this`lookup
      ensures Valid() && ok == !published && lookup == if ok then next else old(lookup)
    {
      ok := !published;
      if ok {
        lookup := next;
      }
    }

    method Publish()
      requires Valid()
      modifies this`published
      ensures Valid() && published
    {
      published := true;
    }

    /** Whatever was looked up before, and whichever addresses share a slot, the answer is the
        lookup's: hits, misses and negative results alike. */
    method FindByAddress(a: Address) returns (r: Option<T>)
      requires Valid()
      modifies memo
      ensures Valid() && r == lookup(a)
      ensures !published ==> memo[..] == old(memo[..])
    {
      if !published {
        return lookup(a);
      }
      var cached := memo[MemoIndex(a)];
      if cached.valid && cached.address == a {
        return cached.result;
      }
      r := lookup(a);
      memo[MemoIndex(a)] := Slot(true, a, r);
    }
  }

  /** The raw records with their two memos, one for the sound processor. The generated table and the
      registered records change until publication only. */
  class RawRegistry {
    var published: bool
    var table: Option<Table>
    var registered: seq<Address>
    const memo: array<Slot<RawRecord>>
    const soundMemo: array<Slot<RawRecord>>

    ghost predicate SlotsHold(slots: array<Slot<RawRecord>>)
      reads this, slots
      requires table.Some? ==> Shaped(table.value)
    {
      && slots.Length == MEMO_ENTRIES
      && forall i | 0 <= i < MEMO_ENTRIES ::
           slots[i].valid ==> published && slots[i].result == RawLookup(table, registered, slots[i].address)
    }

    ghost predicate Valid()
      reads this, memo, soundMemo
    {
      && (table.Some? ==> Shaped(table.value)) && memo != soundMemo
      && SlotsHold(memo) && SlotsHold(soundMemo)
    }

    constructor ()
      ensures Valid() && !published && table == None && registered == []
      ensures fresh(memo) && fresh(soundMemo)
    {
      published, table, registered := false, None, [];
      memo := new Slot<RawRecord>[MEMO_ENTRIES](_ => Slot(false, 0, None));
      soundMemo := new Slot<RawRecord>[MEMO_ENTRIES](_ => Slot(false, 0, None));
    }

    /** Selecting a table or rebuilding the records is refused once published. */
    method Select(selected: Option<Table>, rebuilt: seq<Address>) returns (ok: bool)
      requires Valid() && (selected.Some? ==> Shaped(selected.value))
      modifies this`table, this`registered
      ensures Valid() && ok == !published
      ensures if ok then table == selected && registered == rebuilt
              else table == old(table) && registered == old(registered)
    {
      ok := !published;
      if ok {
        table, registered := selected, rebuilt;
      }
    }

    method Publish()
      requires Valid()
      modifies this`published
      ensures Valid() && published
    {
      published := true;
    }

    /** Nothing before publication; afterwards, whatever was looked up before and by whichever
        processor, exactly what searching the table and then the records gives. */
    method FindRawByAddress(a: Address, sound: bool) returns (r: Option<RawRecord>)
      requires Valid()
      modifies memo, soundMemo
      ensures Valid() && r == (if published then RawLookup(table, registered, a) else None)
      ensures !published ==> memo[..] == old(memo[..]) && soundMemo[..] == old(soundMemo[..])
      ensures sound ==> memo[..] == old(memo[..])
      ensures !sound ==> soundMemo[..] == old(soundMemo[..])
    {
      if !published {
        return None;
      }
      var slots := if sound then soundMemo else memo;
      var cached := slots[MemoIndex(a)];
      if cached.valid && cached.address == a {
        return cached.result;
      }
      r := FindMiss(a);
      slots[MemoIndex(a)] := Slot(true, a, r);
    }

    /** A memo miss: the generated table, and the slow path only when it has nothing. */
    method FindMiss(a: Address) returns (r: Option<RawRecord>)
      requires Valid()
      ensures r == RawLookup(table, registered, a)
    {
      if table.Some? {
        var generated := FindStaticIndirectDispatchEntry(table.value, a);
        if generated.Some? {
          return Some(Generated(generated.value));
        }
      }
      var found := RegisteredLookup(registered, a);
      r := if found.Some? then Some(Registered(found.value)) else None;
    }
  }

  // ---- The one-word latch ------------------------------------------------------------------------------------

  /** A direct call's cached target: 0 is unresolved, 1 is resolved to nothing, else a record pointer. */
  class Latch {
    const target: Address
    var cachedValue: nat

    ghost predicate Valid(registry: Registry<nat>)
      reads this, registry
    {
      cachedValue != 0 ==>
        registry.published && registry.lookup(target) == (if cachedValue == 1 then None else Some(cachedValue))
    }

    constructor (target: Address, registry: Registry<nat>)
      ensures Valid(registry) && this.target == target && cachedValue == 0
    {
      this.target, cachedValue := target, 0;
    }

    /** Resolves to what the registry answers, latching the answer only once it can no longer change. */
    method Resolve(registry: Registry<nat>) returns (r: Option<nat>)
      requires Valid(registry) && registry.Valid()
      requires forall a :: registry.lookup(a).Some? ==> registry.lookup(a).value > 1
      modifies this`cachedValue, registry.memo
      ensures Valid(registry) && registry.Valid() && r == registry.lookup(target)
      ensures !registry.published ==> cachedValue == 0
      ensures registry.published ==> cachedValue != 0
    {
      if cachedValue != 0 {
        return if cachedValue == 1 then None else Some(cachedValue);
      }
      r := registry.FindByAddress(target);
      if registry.published {
        cachedValue := if r.Some? then r.value else 1;
      }
    }
  }
}
