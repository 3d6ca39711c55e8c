/** The three-level guard map in front of writes to executable guest pages. */
module WriteGuard {
  import opened Arithmetic

  type Address = a: int | 0 <= a < 0x1_0000_0000

  const PAGE := 0x1000
  const MID_PAGE := 0x1_0000
  const COARSE_PAGE := 0x10_0000
  const PAGES := 0x10_0000
  const MID_PAGES := 0x1_0000
  const COARSE_PAGES := 0x1000

  /** The last page of a range at one level, cut to the address space. */
  function LastPage(a: Address, length: nat, size: nat, count: nat): nat
    requires length > 0 && size > 0 && count > 0
  {
    var last := (a + length - 1) / size;
    if last >= count then count - 1 else last
  }

  /** Whether any page of a range is marked in one map. */
  ghost predicate AnyMarked(map_: seq<bool>, first: nat, last: nat) {
    exists p :: first <= p <= last && p < |map_| && map_[p]
  }

  /** A coarser map marks every page that has a marked page below it; it may mark others too. */
  ghost predicate Covers(coarse: seq<bool>, fine: seq<bool>) {
    |fine| == 16 * |coarse| && forall p {:trigger fine[p]} | 0 <= p < |fine| && fine[p] :: coarse[p / 16]
  }

  lemma CoarseCovers(pages: seq<bool>, midPages: seq<bool>, coarsePages: seq<bool>, p: nat)
    requires Covers(midPages, pages) && Covers(coarsePages, midPages) && p < |pages|
    ensures pages[p] ==> coarsePages[p / 256]
  {
    assert pages[p] ==> midPages[p / 16];
    assert midPages[p / 16] ==> coarsePages[p / 16 / 16];
    assert p / 16 / 16 == p / 256;
  }

  /** Some byte of the range, cut to the address space, lies on a guarded 4 KiB page. */
  ghost predicate SomeByteGuarded(pages: seq<bool>, a: Address, length: nat)
    requires |pages| == PAGES
  {
    exists x: Address :: a <= x < a + length && pages[x / PAGE]
  }

  lemma PagesAreBytes(pages: seq<bool>, a: Address, length: nat)
    requires |pages| == PAGES && length > 0
    ensures AnyMarked(pages, a / PAGE, LastPage(a, length, PAGE, PAGES)) <==> SomeByteGuarded(pages, a, length)
  {
    if AnyMarked(pages, a / PAGE, LastPage(a, length, PAGE, PAGES)) {
      var p :| a / PAGE <= p <= LastPage(a, length, PAGE, PAGES) && pages[p];
      var x: Address := if p * PAGE < a then a else p * PAGE;
      assert pages[x / PAGE];
    }
    if SomeByteGuarded(pages, a, length) {
      var x: Address :| a <= x < a + length && pages[x / PAGE];
      assert pages[x / PAGE];
    }
  }

  /** Whether page `p` of the given size holds some byte of [start, end). */
  predicate Spans(start: Address, end: Address, p: int, size: nat)
    requires start < end && size > 0
  {
    start / size <= p <= (end - 1) / size
  }

  lemma SpansIsOverlap(start: Address, end: Address, p: nat, size: nat)
    requires start < end && size > 0
    ensures Spans(start, end, p, size) <==> exists x :: start <= x < end && x / size == p
  {
    if Spans(start, end, p, size) {
      var x := if p == start / size then start else p * size;
      if p != start / size {
        PageStart(start, end, p, size);
      }
      assert start <= x < end && x / size == p;
    }
    if x :| start <= x < end && x / size == p {
      DivMono(start, x, size);
      DivMono(x, end - 1, size);
    }
  }

  lemma DivMono(a: nat, b: nat, size: nat)
    requires a <= b && size > 0
    ensures a / size <= b / size
  {
    QuotientAtLeast(b, size, a / size);
  }

  lemma PageStart(start: Address, end: Address, p: nat, size: nat)
    requires start < end && size > 0 && Spans(start, end, p, size) && p != start / size
    ensures start <= p * size < end && p * size / size == p
  {
    var first, last := start / size, (end - 1) / size;
    MulMono(first + 1, p, size);
    MulMono(p, last, size);
    QuotientIs(p * size, size, p);
  }

  class Guard {
    var enabled: bool
    const pages: array<bool>
    const midPages: array<bool>
    const coarsePages: array<bool>

    constructor (pages: array<bool>, midPages: array<bool>, coarsePages: array<bool>)
      ensures this.pages == pages && this.midPages == midPages && this.coarsePages == coarsePages && !enabled
    {
      this.pages, this.midPages, this.coarsePages, enabled := pages, midPages, coarsePages, false;
    }

    ghost predicate Consistent()
      reads pages, midPages, coarsePages
    {
      && pages.Length == PAGES && midPages.Length == MID_PAGES && coarsePages.Length == COARSE_PAGES
      && Covers(midPages[..], pages[..]) && Covers(coarsePages[..], midPages[..])
    }

    method MarkPages(map_: array<bool>, first: nat, last: nat)
      requires first <= last < map_.Length
      modifies map_
      ensures forall p | 0 <= p < map_.Length :: map_[p] == (old(map_[p]) || first <= p <= last)
    {
      var page := first;
      while page <= last
        invariant first <= page <= last + 1
        invariant forall p | 0 <= p < map_.Length :: map_[p] == (old(map_[p]) || first <= p < page)
      {
        map_[page] := true;
        page := page + 1;
      }
    }

    /** Registers executable bytes [start, end): exactly their pages become marked at every level, and the
        maps stay consistent. */
    method Mark(start: Address, end: Address)
      requires Consistent() && Separate() && start < end
      modifies pages, midPages, coarsePages, this`enabled
      ensures Consistent() && enabled
      ensures forall p | 0 <= p < PAGES :: pages[p] == (old(pages[p]) || Spans(start, end, p, PAGE))
      ensures forall p | 0 <= p < COARSE_PAGES :: coarsePages[p] == (old(coarsePages[p]) || Spans(start, end, p, COARSE_PAGE))
    {
      MarkPages(pages, start / PAGE, (end - 1) / PAGE);
      MarkPages(coarsePages, start / COARSE_PAGE, (end - 1) / COARSE_PAGE);
      MarkPages(midPages, start / MID_PAGE, (end - 1) / MID_PAGE);
      enabled := true;
    }

    ghost predicate Separate() {
      pages != midPages && midPages != coarsePages && pages != coarsePages
    }

    method Scan(map_: array<bool>, first: nat, last: nat) returns (hit: bool)
      requires last < map_.Length
      ensures hit <==> AnyMarked(map_[..], first, last)
    {
      var page := first;
      while page <= last
        invariant first <= page
        invariant forall p | first <= p < page && p < map_.Length :: !map_[p]
      {
        if map_[page] {
          assert map_[..][page];
          return true;
        }
        page := page + 1;
      }
      hit := false;
    }

    /** Two coarse scans first, then the exact one: the answer is the exact one's. */
    method MayHit(a: Address, length: nat) returns (hit: bool)
      requires Consistent()
      ensures hit <==> enabled && SomeByteGuarded(pages[..], a, length)
    {
      if length == 0 || !enabled {
        return false;
      }
      PagesAreBytes(pages[..], a, length);
      if AnyMarked(pages[..], a / PAGE, LastPage(a, length, PAGE, PAGES)) {
        PagesAgree(pages[..], midPages[..], a, length);
        MidPagesAgree(midPages[..], coarsePages[..], a, length);
      }
      var coarseHit := Scan(coarsePages, a / COARSE_PAGE, LastPage(a, length, COARSE_PAGE, COARSE_PAGES));
      if !coarseHit {
        return false;
      }
      var midHit := Scan(midPages, a / MID_PAGE, LastPage(a, length, MID_PAGE, MID_PAGES));
      if !midHit {
        return false;
      }
      hit := Scan(pages, a / PAGE, LastPage(a, length, PAGE, PAGES));
    }
  }

  /** A marked page in a range marks its parent, and the parent is in the range one level up. */
  lemma PagesAgree(fine: seq<bool>, coarse: seq<bool>, a: Address, length: nat)
    requires Covers(coarse, fine) && length > 0 && |coarse| == MID_PAGES
    requires AnyMarked(fine, a / PAGE, LastPage(a, length, PAGE, PAGES))
    ensures AnyMarked(coarse, a / MID_PAGE, LastPage(a, length, MID_PAGE, MID_PAGES))
  {
    var p :| a / PAGE <= p <= LastPage(a, length, PAGE, PAGES) && p < |fine| && fine[p];
    assert coarse[p / 16];
  }

  lemma MidPagesAgree(fine: seq<bool>, coarse: seq<bool>, a: Address, length: nat)
    requires Covers(coarse, fine) && length > 0 && |coarse| == COARSE_PAGES
    requires AnyMarked(fine, a / MID_PAGE, LastPage(a, length, MID_PAGE, MID_PAGES))
    ensures AnyMarked(coarse, a / COARSE_PAGE, LastPage(a, length, COARSE_PAGE, COARSE_PAGES))
  {
    var p :| a / MID_PAGE <= p <= LastPage(a, length, MID_PAGE, MID_PAGES) && p < |fine| && fine[p];
    assert coarse[p / 16];
  }
}
