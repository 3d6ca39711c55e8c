/** The builders of the guest page tables: mapping regions, refreshing the fast paths, and the updates
    that executable ranges and deferred reads make. Every one of them keeps the tables valid, and a page
    off the fast read path exactly while a pending deferred read lies on it. */
module PageTables {
  import opened GuestMemory
  import opened Wrappers
  import WriteGuard

  /** A mapped guest region and the host address of its storage. */
  datatype Region = Region(base: nat, size: nat, storage: nat) {
    predicate Contains(x: int) {
      base <= x < base + size
    }
  }

  /** The region ends inside the guest address space and its storage inside host memory. */
  predicate Mappable(r: Region, hostSize: nat) {
    r.base + r.size <= ADDRESSES && r.storage > 0 && r.storage + r.size <= hostSize
  }

  ghost predicate AllMappable(regions: seq<Region>, hostSize: nat) {
    forall i | 0 <= i < |regions| :: Mappable(regions[i], hostSize)
  }

  const UNMAPPED := PageEntry(0, 0)

  /** The entry a region gives to a page whose start it contains. */
  function EntryOf(r: Region, page: nat): PageEntry
    requires r.Contains(page * PAGE_SIZE)
  {
    var offset := page * PAGE_SIZE - r.base;
    PageEntry(r.storage + offset, if r.size - offset < PAGE_SIZE then r.size - offset else PAGE_SIZE)
  }

  /** The last region that contains a page's start decides its entry. */
  function LastEntry(regions: seq<Region>, page: nat): PageEntry {
    if regions == [] then UNMAPPED
    else
      var last := regions[|regions| - 1];
      if last.Contains(page * PAGE_SIZE) then EntryOf(last, page) else LastEntry(regions[..|regions| - 1], page)
  }

  function FullBias(pages: seq<PageEntry>, page: nat): nat
    requires |pages| == PAGE_COUNT && page < PAGE_COUNT
  {
    if Continues(pages, page) then EncodedBias(pages[page].base, page) else 0
  }

  lemma {:induction false} EntriesFit(regions: seq<Region>, hostSize: nat, page: nat)
    requires AllMappable(regions, hostSize)
    ensures var e := LastEntry(regions, page); e.base + e.limit <= hostSize && e.limit <= PAGE_SIZE
  {
    if regions != [] {
      assert Mappable(regions[|regions| - 1], hostSize);
      EntriesFit(regions[..|regions| - 1], hostSize, page);
    }
  }

  // ---- What the table means ---------------------------------------------------------------------------------

  ghost predicate Disjoint(regions: seq<Region>) {
    forall i, j | 0 <= i < j < |regions| :: forall x {:trigger regions[i].Contains(x)} :: !(regions[i].Contains(x) && regions[j].Contains(x))
  }

  lemma OneRegion(regions: seq<Region>, i: nat, j: nat, x: int)
    requires Disjoint(regions) && i < |regions| && j < |regions| && regions[i].Contains(x) && regions[j].Contains(x)
    ensures i == j
  {}

  /** A region maps a byte when it also contains the start of the byte's page. */
  predicate Maps(r: Region, a: Address) {
    r.Contains(a / PAGE_SIZE * PAGE_SIZE) && r.Contains(a)
  }

  lemma {:induction false} EntryIsRegions(regions: seq<Region>, page: nat, i: nat)
    requires Disjoint(regions) && i < |regions| && regions[i].Contains(page * PAGE_SIZE)
    ensures LastEntry(regions, page) == EntryOf(regions[i], page)
  {
    var n := |regions| - 1;
    if i < n {
      assert !(regions[i].Contains(page * PAGE_SIZE) && regions[n].Contains(page * PAGE_SIZE));
      EntryIsRegions(regions[..n], page, i);
    }
  }

  lemma {:induction false} EntryHasRegion(regions: seq<Region>, page: nat)
    ensures LastEntry(regions, page) == UNMAPPED || exists i :: 0 <= i < |regions| && regions[i].Contains(page * PAGE_SIZE)
  {
    if regions != [] {
      var n := |regions| - 1;
      EntryHasRegion(regions[..n], page);
      if !regions[n].Contains(page * PAGE_SIZE) && LastEntry(regions, page) != UNMAPPED {
        var i :| 0 <= i < n && regions[..n][i].Contains(page * PAGE_SIZE);
        assert regions[i].Contains(page * PAGE_SIZE);
      }
    }
  }

  /** The simple form the fast paths are proved against is the region map: a byte lives where the one
      region that maps it puts it, and nowhere when none does. */
  lemma {:induction false} TranslateIsTheRegions(t: Tables, regions: seq<Region>, hostSize: nat, a: Address, host: nat)
    requires Sized(t) && Disjoint(regions) && AllMappable(regions, hostSize)
    requires forall p | 0 <= p < PAGE_COUNT :: t.pages[p] == LastEntry(regions, p)
    ensures Translate(t, a) == Some(host)
            <==> exists i :: 0 <= i < |regions| && Maps(regions[i], a) && host == regions[i].storage + (a - regions[i].base)
  {
    var page := a / PAGE_SIZE;
    assert t.pages[page] == LastEntry(regions, page);
    EntryHasRegion(regions, page);
    if i :| 0 <= i < |regions| && regions[i].Contains(page * PAGE_SIZE) {
      EntryIsRegions(regions, page, i);
      assert Mappable(regions[i], hostSize);
      forall j | 0 <= j < |regions| && regions[j].Contains(page * PAGE_SIZE) ensures j == i {
        OneRegion(regions, i, j, page * PAGE_SIZE);
      }
    }
  }

  /** A full page without a bias: its storage starts one byte below its guest address. */
  lemma UnencodableBias(pages: seq<PageEntry>)
    requires |pages| == PAGE_COUNT
    requires forall p | 0 <= p < PAGE_COUNT :: pages[p] == LastEntry([Region(0x8000_0000, 0x20_0000, 0x7FFF_FFFF)], p)
    ensures Continues(pages, 0x800) && FullBias(pages, 0x800) == 0
  {
    var regions := [Region(0x8000_0000, 0x20_0000, 0x7FFF_FFFF)];
    assert LastEntry(regions, 0x800) == EntryOf(regions[0], 0x800);
    assert LastEntry(regions, 0x801) == EntryOf(regions[0], 0x801);
    EncodedIsZero(0x7FFF_FFFF, 0x800);
  }

  // ---- The fast paths of one page ------------------------------------------------------------------------------

  function SubPages(page: nat): nat {
    page * SUB_PAGES_PER_PAGE
  }

  function SparseBiases(bias: nat, guarded: seq<bool>, page: nat): (s: seq<nat>)
    requires |guarded| == SUB_PAGE_COUNT && page < PAGE_COUNT
    ensures |s| == SUB_PAGES_PER_PAGE
  {
    seq(SUB_PAGES_PER_PAGE, s requires 0 <= s < SUB_PAGES_PER_PAGE => if guarded[SubPages(page) + s] then 0 else bias)
  }

  /** Only a mapped page with both executable and data pages gets a table of its own. */
  function SparseFor(bias: nat, coarse: bool, guarded: seq<bool>, page: nat): Option<seq<nat>>
    requires |guarded| == SUB_PAGE_COUNT && page < PAGE_COUNT
  {
    var mine := guarded[SubPages(page)..SubPages(page + 1)];
    if coarse && bias != 0 && true in mine && false in mine then Some(SparseBiases(bias, guarded, page)) else None
  }

  // ---- Deferred reads -----------------------------------------------------------------------------------------------

  const TOKENS := 0x1_0000_0000_0000_0000

  /** A range whose content is produced only when somebody reads it. */
  datatype Deferred = Deferred(token: nat, start: Address, length: nat) {
    predicate InBounds() {
      0 < length && start + length <= ADDRESSES
    }

    function FirstPage(): nat {
      start / PAGE_SIZE
    }

    function LastPage(): nat
      requires InBounds()
    {
      (start + length - 1) / PAGE_SIZE
    }
  }

  ghost predicate AllInBounds(pending: seq<Deferred>) {
    forall i | 0 <= i < |pending| :: pending[i].InBounds()
  }

  /** The overlap test for a range and a deferred read. */
  predicate Overlaps(start: int, length: nat, d: Deferred) {
    start < d.start + d.length && d.start < start + length
  }

  predicate DeferredOn(d: Deferred, page: nat)
    requires d.InBounds()
  {
    d.FirstPage() <= page <= d.LastPage()
  }

  /** The overlap test of a whole page says what the page range of the read says. */
  lemma OverlapIsPages(d: Deferred, page: nat)
    requires d.InBounds()
    ensures Overlaps(page * PAGE_SIZE, PAGE_SIZE, d) <==> DeferredOn(d, page)
  {}

  ghost predicate Covered(pending: seq<Deferred>, page: nat)
    requires AllInBounds(pending)
  {
    exists i :: 0 <= i < |pending| && DeferredOn(pending[i], page)
  }

  /** The reads that overlap a range, or those that do not, in their order. */
  function Overlapping(pending: seq<Deferred>, start: int, length: nat, overlapping: bool): seq<Deferred> {
    if pending == [] then []
    else
      var n := |pending| - 1;
      Overlapping(pending[..n], start, length, overlapping)
      + if Overlaps(start, length, pending[n]) == overlapping then [pending[n]] else []
  }

  /** Resolving takes off the overlapped reads and nothing else. */
  lemma {:induction false} OverlappingAre(pending: seq<Deferred>, start: int, length: nat, overlapping: bool,
                                          d: Deferred)
    ensures d in Overlapping(pending, start, length, overlapping)
            <==> d in pending && Overlaps(start, length, d) == overlapping
  {
    if pending != [] {
      OverlappingAre(pending[..|pending| - 1], start, length, overlapping, d);
    }
  }

  lemma {:induction false} RemainingInBounds(pending: seq<Deferred>, start: int, length: nat)
    requires AllInBounds(pending)
    ensures AllInBounds(Overlapping(pending, start, length, false))
  {
    var rest := Overlapping(pending, start, length, false);
    forall k | 0 <= k < |rest| ensures rest[k].InBounds() {
      OverlappingAre(pending, start, length, false, rest[k]);
    }
  }

  /** The pages that the overlapped reads lie on. */
  ghost predicate Affected(list: seq<nat>, pending: seq<Deferred>, start: int, length: nat)
    requires AllInBounds(pending)
  {
    forall p :: p in list <==> exists m :: 0 <= m < |pending| && Overlaps(start, length, pending[m]) && DeferredOn(pending[m], p)
  }

  /** One more read looked at: it is kept, or it is taken off with its pages. */
  lemma {:induction false} ResolvedOneMore(pending: seq<Deferred>, d: Deferred, start: int, length: nat,
                                           list: seq<nat>, more: seq<nat>)
    requires AllInBounds(pending) && d.InBounds() && Affected(list, pending, start, length)
    requires if Overlaps(start, length, d) then forall p :: p in more <==> p in list || DeferredOn(d, p) else more == list
    ensures AllInBounds(pending + [d]) && Affected(more, pending + [d], start, length)
    ensures forall b :: Overlapping(pending + [d], start, length, b)
                        == Overlapping(pending, start, length, b) + if Overlaps(start, length, d) == b then [d] else []
  {
    var now := pending + [d];
    assert now[..|pending|] == pending && now[|pending|] == d && forall m | 0 <= m < |pending| :: now[m] == pending[m];
    forall p
      ensures (exists m :: 0 <= m < |now| && Overlaps(start, length, now[m]) && DeferredOn(now[m], p))
              <==> (exists m :: 0 <= m < |pending| && Overlaps(start, length, pending[m]) && DeferredOn(pending[m], p))
                   || (Overlaps(start, length, d) && DeferredOn(d, p))
    {
      if m :| 0 <= m < |pending| && Overlaps(start, length, pending[m]) && DeferredOn(pending[m], p) {
        assert DeferredOn(now[m], p);
      }
    }
  }

  /** A page without an overlapped read is covered after the overlapped ones are gone exactly when it was. */
  lemma {:induction false} CoverRemains(pending: seq<Deferred>, start: int, length: nat, page: nat)
    requires AllInBounds(pending) && AllInBounds(Overlapping(pending, start, length, false))
    requires forall i | 0 <= i < |pending| && Overlaps(start, length, pending[i]) :: !DeferredOn(pending[i], page)
    ensures Covered(Overlapping(pending, start, length, false), page) <==> Covered(pending, page)
  {
    var rest := Overlapping(pending, start, length, false);
    if i :| 0 <= i < |pending| && DeferredOn(pending[i], page) {
      OverlappingAre(pending, start, length, false, pending[i]);
      var k :| 0 <= k < |rest| && rest[k] == pending[i];
      assert DeferredOn(rest[k], page);
    }
    if k :| 0 <= k < |rest| && DeferredOn(rest[k], page) {
      OverlappingAre(pending, start, length, false, rest[k]);
      var i :| 0 <= i < |pending| && pending[i] == rest[k];
      assert DeferredOn(pending[i], page);
    }
  }

  // ---- The tables as they are kept -------------------------------------------------------------------------------

  class PageTables {
    const pages: array<PageEntry>
    const fullBias: array<nat>
    const readableBias: array<nat>
    const writableBias: array<nat>
    const sparse: array<Option<seq<nat>>>
    const covered: array<bool>
    const guard: WriteGuard.Guard
    var deferred: seq<Deferred>
    var nextToken: nat

    constructor (guard: WriteGuard.Guard)
      ensures this.guard == guard && Shaped() && Cleared() && deferred == [] && nextToken == 1
      ensures fresh(pages) && fresh(fullBias) && fresh(readableBias) && fresh(writableBias) && fresh(sparse) && fresh(covered)
    {
      deferred, nextToken := [], 1;
      covered := new bool[PAGE_COUNT](_ => false);
      this.guard := guard;
      pages := new PageEntry[PAGE_COUNT](_ => UNMAPPED);
      fullBias := new nat[PAGE_COUNT](_ => 0);
      readableBias := new nat[PAGE_COUNT](_ => 0);
      writableBias := new nat[PAGE_COUNT](_ => 0);
      sparse := new Option<seq<nat>>[PAGE_COUNT](_ => None);
    }

    ghost predicate Shaped() {
      && pages.Length == fullBias.Length == readableBias.Length == writableBias.Length == sparse.Length == covered.Length == PAGE_COUNT
      && fullBias != readableBias && fullBias != writableBias && readableBias != writableBias
      && covered != guard.pages && covered != guard.midPages && covered != guard.coarsePages
    }

    ghost predicate Cleared()
      reads pages, fullBias, readableBias, writableBias, sparse
      requires Shaped()
    {
      forall p | 0 <= p < PAGE_COUNT ::
        pages[p] == UNMAPPED && fullBias[p] == 0 && readableBias[p] == 0 && writableBias[p] == 0 && sparse[p] == None
    }

    ghost function Kept(): Tables
      reads pages, fullBias, readableBias, writableBias, sparse, guard.pages
    {
      Tables(pages[..], fullBias[..], readableBias[..], writableBias[..], sparse[..], guard.pages[..])
    }

    /** A page is covered exactly while a pending read lies on it, and readable on its full bias exactly
        while it is not covered. */
    ghost predicate PageReadable(page: nat)
      reads this`deferred, fullBias, readableBias, covered
      requires Shaped() && AllInBounds(deferred) && page < PAGE_COUNT
    {
      covered[page] == Covered(deferred, page) && readableBias[page] == if Covered(deferred, page) then 0 else fullBias[page]
    }

    ghost predicate DeferredTracked()
      reads this`deferred, fullBias, readableBias, covered
      requires Shaped()
    {
      AllInBounds(deferred) && forall p {:trigger PageReadable(p)} | 0 <= p < PAGE_COUNT :: PageReadable(p)
    }

    /** The write tiers as a refresh leaves them: the coarse bias where no executable page is noted, a table
        of its own for every mixed page. */
    ghost predicate TiersRefreshed()
      reads fullBias, writableBias, sparse, guard.pages, guard.midPages, guard.coarsePages
      requires Shaped() && guard.Consistent()
    {
      forall p | 0 <= p < PAGE_COUNT ::
        && writableBias[p] == (if guard.coarsePages[p] then 0 else fullBias[p])
        && sparse[p] == SparseFor(fullBias[p], guard.coarsePages[p], guard.pages[..], p)
    }

    /** What the fast paths are proved from. */
    ghost predicate TablesValid(hostSize: nat)
      reads this`deferred, pages, fullBias, readableBias, writableBias, sparse, covered
      reads guard.pages, guard.midPages, guard.coarsePages
    {
      Shaped() && guard.Consistent() && Valid(Kept(), hostSize) && DeferredTracked()
    }

    // ---- Building -----------------------------------------------------------------------------------------------

    method MapRegion(r: Region)
      requires Shaped() && r.base + r.size <= ADDRESSES
      modifies pages
      ensures forall p | 0 <= p < PAGE_COUNT ::
                pages[p] == if r.Contains(p * PAGE_SIZE) then EntryOf(r, p) else old(pages[p])
    {
      if r.size == 0 {
        return;
      }
      var startPage, endPage := r.base / PAGE_SIZE, (r.base + r.size - 1) / PAGE_SIZE;
      var page := startPage;
      while page <= endPage
        invariant startPage <= page <= endPage + 1 <= PAGE_COUNT
        invariant forall p | 0 <= p < PAGE_COUNT ::
                    pages[p] == if p < page && r.Contains(p * PAGE_SIZE) then EntryOf(r, p) else old(pages[p])
      {
        if r.base <= page * PAGE_SIZE && page * PAGE_SIZE - r.base < r.size {
          pages[page] := EntryOf(r, page);
        }
        page := page + 1;
      }
    }

    /** Maps every region, later ones over earlier ones, then encodes the full pages. */
    method BuildPageTable(regions: seq<Region>, ghost hostSize: nat)
      requires Shaped() && Cleared() && AllMappable(regions, hostSize)
      modifies pages, fullBias
      ensures forall p | 0 <= p < PAGE_COUNT :: pages[p] == LastEntry(regions, p) && fullBias[p] == FullBias(pages[..], p)
    {
      for i := 0 to |regions|
        invariant forall p | 0 <= p < PAGE_COUNT :: pages[p] == LastEntry(regions[..i], p) && fullBias[p] == 0
      {
        assert Mappable(regions[i], hostSize) && regions[..i + 1][..i] == regions[..i];
        MapRegion(regions[i]);
      }
      assert regions[..|regions|] == regions;
      for page := 0 to PAGE_COUNT - 1
        invariant forall p | 0 <= p < PAGE_COUNT :: pages[p] == LastEntry(regions, p)
        invariant forall p | 0 <= p < PAGE_COUNT :: fullBias[p] == if p < page then FullBias(pages[..], p) else 0
      {
        if Continues(pages[..], page) {
          fullBias[page] := EncodedBias(pages[page].base, page);
        }
      }
    }

    /** Readable and writable fast paths for the current executable maps. */
    method RefreshWritable()
      requires Shaped() && guard.Consistent()
      modifies readableBias, writableBias, sparse, covered
      ensures forall p | 0 <= p < PAGE_COUNT :: readableBias[p] == fullBias[p] && !covered[p]
      ensures forall p | 0 <= p < PAGE_COUNT ::
                && writableBias[p] == (if guard.coarsePages[p] then 0 else fullBias[p])
                && sparse[p] == SparseFor(fullBias[p], guard.coarsePages[p], guard.pages[..], p)
    {
      for page := 0 to PAGE_COUNT
        invariant forall p | 0 <= p < page :: readableBias[p] == fullBias[p] && !covered[p]
        invariant forall p | 0 <= p < page ::
                    && writableBias[p] == (if guard.coarsePages[p] then 0 else fullBias[p])
                    && sparse[p] == SparseFor(fullBias[p], guard.coarsePages[p], guard.pages[..], p)
      {
        readableBias[page] := fullBias[page];
        covered[page] := false;
        writableBias[page] := if guard.coarsePages[page] then 0 else fullBias[page];
        sparse[page] := SparseFor(fullBias[page], guard.coarsePages[page], guard.pages[..], page);
      }
    }

    /** Takes the pages of one deferred read off the fast read path. */
    method CoverDeferred(d: Deferred)
      requires Shaped() && d.InBounds()
      modifies readableBias, covered
      ensures forall p | 0 <= p < PAGE_COUNT :: readableBias[p] == if DeferredOn(d, p) then 0 else old(readableBias[p])
      ensures forall p | 0 <= p < PAGE_COUNT :: covered[p] == (DeferredOn(d, p) || old(covered[p]))
    {
      var first, last := d.start / PAGE_SIZE, (d.start + d.length - 1) / PAGE_SIZE;
      var page := first;
      while page <= last
        invariant first <= page <= last + 1 <= PAGE_COUNT
        invariant forall p | 0 <= p < PAGE_COUNT ::
                    readableBias[p] == if first <= p < page then 0 else old(readableBias[p])
        invariant forall p | 0 <= p < PAGE_COUNT :: covered[p] == (first <= p < page || old(covered[p]))
      {
        readableBias[page] := 0;
        covered[page] := true;
        page := page + 1;
      }
    }

    // ---- Every operation keeps the tables valid ---------------------------------------------------------------------

    lemma PageStaysValid(hostSize: nat, page: nat)
      requires Shaped() && guard.Consistent() && page < PAGE_COUNT && pages[page].base + pages[page].limit <= hostSize
      requires pages[page].limit <= PAGE_SIZE && fullBias[page] == FullBias(pages[..], page)
      requires readableBias[page] == 0 || readableBias[page] == fullBias[page]
      requires writableBias[page] == (if guard.coarsePages[page] then 0 else fullBias[page])
      requires sparse[page] == SparseFor(fullBias[page], guard.coarsePages[page], guard.pages[..], page)
      ensures PageValid(Kept(), page, hostSize)
    {
      if !guard.coarsePages[page] {
        NothingGuarded(page);
      }
    }

    /** A page the coarse map leaves out has no executable page. */
    lemma NothingGuarded(page: nat)
      requires guard.Consistent() && page < PAGE_COUNT && !guard.coarsePages[page]
      ensures forall s {:trigger guard.pages[s]} | SubPages(page) <= s < SubPages(page + 1) :: !guard.pages[s]
    {
      forall s | SubPages(page) <= s < SubPages(page + 1) ensures !guard.pages[s] {
        WriteGuard.CoarseCovers(guard.pages[..], guard.midPages[..], guard.coarsePages[..], s);
        assert guard.pages[..][s] == guard.pages[s] && s / 256 == page;
      }
    }

    /** Initialization: the tables are valid for any mappable regions, overlapping ones included. */
    method Init(regions: seq<Region>, ghost hostSize: nat)
      requires Shaped() && Cleared() && guard.Consistent() && AllMappable(regions, hostSize) && hostSize < POINTERS
      requires AllInBounds(deferred)
      modifies pages, fullBias, readableBias, writableBias, sparse, covered
      ensures TablesValid(hostSize) && TiersRefreshed()
      ensures forall p | 0 <= p < PAGE_COUNT :: pages[p] == LastEntry(regions, p)
    {
      BuildPageTable(regions, hostSize);
      RefreshFastPaths(hostSize, regions);
    }

    /** Refreshing after new executable ranges keeps the tables valid. */
    method RefreshFastPaths(ghost hostSize: nat, ghost regions: seq<Region>)
      requires Shaped() && guard.Consistent() && AllMappable(regions, hostSize) && hostSize < POINTERS
      requires forall p | 0 <= p < PAGE_COUNT :: pages[p] == LastEntry(regions, p) && fullBias[p] == FullBias(pages[..], p)
      requires AllInBounds(deferred)
      modifies readableBias, writableBias, sparse, covered
      ensures TablesValid(hostSize) && TiersRefreshed()
    {
      RefreshWritable();
      for i := 0 to |deferred|
        modifies readableBias, covered
        invariant AllInBounds(deferred[..i])
        invariant forall p | 0 <= p < PAGE_COUNT ::
                    covered[p] == Covered(deferred[..i], p) && readableBias[p] == if covered[p] then 0 else fullBias[p]
      {
        CoverDeferred(deferred[i]);
        forall p | 0 <= p < PAGE_COUNT
          ensures Covered(deferred[..i + 1], p) == (Covered(deferred[..i], p) || DeferredOn(deferred[i], p))
        {
          CoveredByOneMore(deferred[..i], deferred[i], p);
          assert deferred[..i] + [deferred[i]] == deferred[..i + 1];
        }
      }
      assert deferred[..|deferred|] == deferred;
      forall p | 0 <= p < PAGE_COUNT ensures PageValid(Kept(), p, hostSize) && PageReadable(p) {
        EntriesFit(regions, hostSize, p);
        PageStaysValid(hostSize, p);
      }
    }

    /** Tables stay valid under any change of deferred reads and of what they cover. */
    twostate lemma StillValid(hostSize: nat)
      requires old(TablesValid(hostSize)) && Shaped() && DeferredTracked()
      requires pages[..] == old(pages[..]) && fullBias[..] == old(fullBias[..]) && writableBias[..] == old(writableBias[..])
      requires sparse[..] == old(sparse[..]) && guard.pages[..] == old(guard.pages[..])
      requires guard.Consistent()
      ensures TablesValid(hostSize)
    {
      forall p | 0 <= p < PAGE_COUNT ensures PageValid(Kept(), p, hostSize) {
        assert PageValid(old(Kept()), p, hostSize) && PageReadable(p);
      }
    }

    /** Registers a deferred read; token 0 refuses one that is empty, leaves the address space, or has
        nothing to call. */
    method RegisterDeferredRead(start: Address, length: nat, callable: bool, ghost hostSize: nat) returns (token: nat)
      requires TablesValid(hostSize) && nextToken < TOKENS
      modifies this, readableBias, covered
      ensures TablesValid(hostSize) && nextToken < TOKENS
      ensures token == 0 <==> length == 0 || !callable || start + length > ADDRESSES
      ensures deferred == old(deferred) + if token == 0 then [] else [Deferred(token, start, length)]
      ensures token == 0 ==> nextToken == old(nextToken)
    {
      if length == 0 || !callable || start + length > ADDRESSES {
        return 0;
      }
      token := TakeToken();
      if token == 0 {
        token := TakeToken();
      }
      var d := Deferred(token, start, length);
      deferred := deferred + [d];
      CoverDeferred(d);
      forall p | 0 <= p < PAGE_COUNT ensures PageReadable(p) {
        assert old(PageReadable(p));
        CoveredByOneMore(old(deferred), d, p);
      }
      StillValid(hostSize);
    }

    /** The next token, counting in 64 bits. */
    method TakeToken() returns (token: nat)
      requires nextToken < TOKENS
      modifies this`nextToken
      ensures token == old(nextToken) && nextToken == (token + 1) % TOKENS
    {
      token := nextToken;
      nextToken := (nextToken + 1) % TOKENS;
    }

    /** Puts one page back on the fast read path unless a pending read lies on it. */
    method RefreshDeferredReadPage(page: nat)
      requires Shaped() && AllInBounds(deferred) && page < PAGE_COUNT
      modifies readableBias, covered
      ensures PageReadable(page)
      ensures forall p | 0 <= p < PAGE_COUNT && p != page ::
                readableBias[p] == old(readableBias[p]) && covered[p] == old(covered[p])
    {
      var found := false;
      for i := 0 to |deferred|
        modifies {}
        invariant found <==> exists k :: 0 <= k < i && DeferredOn(deferred[k], page)
      {
        OverlapIsPages(deferred[i], page);
        found := found || Overlaps(page * PAGE_SIZE, PAGE_SIZE, deferred[i]);
      }
      readableBias[page] := if !found then fullBias[page] else 0;
      covered[page] := found;
    }

    /** Adds the pages of one read to a list of pages. */
    method PagesOf(pagesSoFar: seq<nat>, d: Deferred) returns (list: seq<nat>)
      requires d.InBounds()
      ensures forall p :: p in list <==> p in pagesSoFar || DeferredOn(d, p)
    {
      list := pagesSoFar;
      var page := d.start / PAGE_SIZE;
      while page <= (d.start + d.length - 1) / PAGE_SIZE
        invariant d.FirstPage() <= page <= d.LastPage() + 1
        invariant forall p :: p in list <==> p in pagesSoFar || d.FirstPage() <= p < page
      {
        list := list + [page];
        page := page + 1;
      }
    }

    /** Refreshes every listed page. */
    method RefreshPages(list: seq<nat>)
      requires Shaped() && AllInBounds(deferred) && forall p | p in list :: p < PAGE_COUNT
      requires forall p {:trigger PageReadable(p)} | 0 <= p < PAGE_COUNT && p !in list :: PageReadable(p)
      modifies readableBias, covered
      ensures DeferredTracked()
    {
      for i := 0 to |list|
        invariant forall p {:trigger PageReadable(p)} | 0 <= p < PAGE_COUNT && (p in list[..i] || p !in list) :: PageReadable(p)
      {
        label before:
        assert list[i] in list;
        RefreshDeferredReadPage(list[i]);
        forall p | 0 <= p < PAGE_COUNT && (p in list[..i + 1] || p !in list) ensures PageReadable(p) {
          if p != list[i] {
            assert old@before(PageReadable(p));
          }
        }
      }
      assert list[..|list|] == list;
    }

    /** Forgets every deferred read: every full page is readable again. */
    method ClearDeferredReads(ghost hostSize: nat)
      requires TablesValid(hostSize)
      modifies this`deferred, readableBias, covered
      ensures TablesValid(hostSize) && deferred == [] && readableBias[..] == fullBias[..]
    {
      var list := [];
      for i := 0 to |deferred|
        modifies {}
        invariant forall p :: p in list <==> Covered(deferred[..i], p)
      {
        list := PagesOf(list, deferred[i]);
        assert deferred[..i] + [deferred[i]] == deferred[..i + 1];
        forall p: nat {
          CoveredByOneMore(deferred[..i], deferred[i], p);
        }
      }
      assert deferred[..|deferred|] == deferred;
      deferred := [];
      forall p | 0 <= p < PAGE_COUNT && p !in list ensures PageReadable(p) {
        assert old(PageReadable(p));
      }
      RefreshPages(list);
      StillValid(hostSize);
      forall p | 0 <= p < PAGE_COUNT ensures readableBias[p] == fullBias[p] {
        assert PageReadable(p);
      }
    }

    /** Takes the reads that overlap a range off the list, in their order, and puts the pages no other
        read lies on back on the fast path; what the matches then produce is the callbacks' own. */
    method ResolveDeferredReads(start: Address, length: nat, ghost hostSize: nat) returns (matches: seq<Deferred>)
      requires TablesValid(hostSize)
      modifies this`deferred, readableBias, covered
      ensures TablesValid(hostSize)
      ensures matches == Overlapping(old(deferred), start, length, true)
      ensures deferred == Overlapping(old(deferred), start, length, false)
    {
      ghost var was, k := deferred, 0;
      var list, i := [], 0;
      matches := [];
      while i < |deferred|
        modifies this`deferred
        invariant k <= |was| && i <= |deferred| && deferred[i..] == was[k..]
        invariant deferred[..i] == Overlapping(was[..k], start, length, false)
        invariant matches == Overlapping(was[..k], start, length, true)
        invariant Affected(list, was[..k], start, length)
        decreases |deferred| - i
      {
        ghost var d := deferred[i];
        assert d == deferred[i..][0] == was[k..][0] && was[..k] + [d] == was[..k + 1];
        assert deferred[i + 1..] == deferred[i..][1..] == was[k..][1..] == was[k + 1..];
        ghost var pagesSoFar := list;
        if !Overlaps(start, length, deferred[i]) {
          i := i + 1;
        } else {
          list := PagesOf(list, deferred[i]);
          matches := matches + [deferred[i]];
          deferred := deferred[..i] + deferred[i + 1..];
        }
        ResolvedOneMore(was[..k], d, start, length, pagesSoFar, list);
        k := k + 1;
      }
      assert was[..k] == was && deferred[..i] == deferred;
      RemainingInBounds(was, start, length);
      forall p | 0 <= p < PAGE_COUNT && p !in list ensures PageReadable(p) {
        assert old(PageReadable(p));
        CoverRemains(was, start, length, p);
      }
      RefreshPages(list);
      StillValid(hostSize);
    }

    /** On tables as any of these operations leaves them, a load is native exactly when the regions map its
        page and seven more bytes in one piece and no pending read lies on the page. */
    lemma LoadIsNative(a: Address, hostSize: nat)
      requires TablesValid(hostSize)
      ensures LoadPointer(Kept(), a).Some? <==> Encodable(Kept(), a / PAGE_SIZE) && !Covered(deferred, a / PAGE_SIZE)
    {
      assert PageReadable(a / PAGE_SIZE);
      LoadIsGiven(Kept(), a, hostSize);
      FullBiasIsGiven(Kept(), a / PAGE_SIZE, hostSize);
    }

    /** A load that the fast path serves reads no byte of a pending read, exactly unless it runs into the
        next page and reads one there; such a load is left to the protection of the host pages. */
    lemma FastLoadAvoidsDeferred(a: Address, length: nat, hostSize: nat)
      requires TablesValid(hostSize) && 1 <= length <= MAX_FAST_SCALAR && LoadPointer(Kept(), a).Some?
      ensures var next := (a / PAGE_SIZE + 1) * PAGE_SIZE;
              (exists i :: 0 <= i < |deferred| && Overlaps(a, length, deferred[i]))
              <==> a + length > next && exists i :: 0 <= i < |deferred| && Overlaps(next, a + length - next, deferred[i])
    {
      var page := a / PAGE_SIZE;
      var next := (page + 1) * PAGE_SIZE;
      assert PageReadable(page) && !Covered(deferred, page);
      forall i | 0 <= i < |deferred|
        ensures Overlaps(a, length, deferred[i]) <==> a + length > next && Overlaps(next, a + length - next, deferred[i])
      {
        assert !DeferredOn(deferred[i], page);
        OverlapIsPages(deferred[i], page);
      }
    }

    /** An executable range registered later marks the guard and drops the coarse write paths it touches;
        sparse tables keep their old biases, and stay valid. */
    method MarkExecutable(start: Address, end: Address, ghost hostSize: nat)
      requires TablesValid(hostSize) && guard.Separate() && start < end
      modifies writableBias, guard.pages, guard.midPages, guard.coarsePages, guard`enabled
      ensures TablesValid(hostSize)
      ensures forall p | 0 <= p < PAGE_COUNT ::
                writableBias[p] == if WriteGuard.Spans(start, end, p, PAGE_SIZE) then 0 else old(writableBias[p])
      ensures forall p | 0 <= p < SUB_PAGE_COUNT :: guard.pages[p] == (old(guard.pages[p]) || WriteGuard.Spans(start, end, p, SUB_PAGE_SIZE))
    {
      ghost var was := Kept();
      guard.Mark(start, end);
      var first, last := start / PAGE_SIZE, (end - 1) / PAGE_SIZE;
      var page := first;
      while page <= last
        modifies writableBias
        invariant first <= page <= last + 1 <= PAGE_COUNT
        invariant forall p | 0 <= p < PAGE_COUNT :: writableBias[p] == if first <= p < page then 0 else was.writableBias[p]
      {
        writableBias[page] := 0;
        page := page + 1;
      }
      forall p | 0 <= p < PAGE_COUNT ensures PageValid(Kept(), p, hostSize) {
        assert PageValid(was, p, hostSize);
        UnmarkedOutside(start, end, p);
      }
    }
  }

  lemma CoveredByOneMore(pending: seq<Deferred>, d: Deferred, page: nat)
    requires AllInBounds(pending) && d.InBounds()
    ensures AllInBounds(pending + [d]) && (Covered(pending + [d], page) <==> Covered(pending, page) || DeferredOn(d, page))
  {
    var more := pending + [d];
    assert more[|pending|] == d && forall i | 0 <= i < |pending| :: more[i] == pending[i];
    if i :| 0 <= i < |pending| && DeferredOn(pending[i], page) {
      assert DeferredOn(more[i], page);
    }
    if DeferredOn(d, page) {
      assert DeferredOn(more[|pending|], page);
    }
  }

  /** A 1 MiB page outside a range has no 4 KiB page in it. */
  lemma UnmarkedOutside(start: Address, end: Address, page: nat)
    requires start < end
    ensures !(start / PAGE_SIZE <= page <= (end - 1) / PAGE_SIZE) ==>
              forall s | SubPages(page) <= s < SubPages(page + 1) :: !WriteGuard.Spans(start, end, s, SUB_PAGE_SIZE)
  {}
}
