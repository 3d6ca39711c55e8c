/** The tiered fast paths to guest memory against the plain per-byte, guarded translation. */
module GuestMemory {
  import opened Arithmetic
  import opened Wrappers

  const PAGE_SIZE := 0x10_0000
  const PAGE_COUNT := 0x1000
  const SUB_PAGE_SIZE := 0x1000
  const SUB_PAGES_PER_PAGE := 0x100
  const SUB_PAGE_COUNT := 0x10_0000
  const ADDRESSES := 0x1_0000_0000
  const POINTERS := 0x1_0000_0000_0000_0000
  const MAX_FAST_SCALAR := 8

  type Address = a: int | 0 <= a < ADDRESSES

  /** A mapped 1 MiB page, or the mapped start of one; base 0 is no mapping. */
  datatype PageEntry = PageEntry(base: nat, limit: nat)

  /** An encoded bias is (host page base - guest page base) + 1 in pointer arithmetic; 0 is none. */
  datatype Tables = Tables(
    pages: seq<PageEntry>, fullBias: seq<nat>, readableBias: seq<nat>, writableBias: seq<nat>,
    sparse: seq<Option<seq<nat>>>, guarded: seq<bool>)

  // ---- The simple form -------------------------------------------------------------------------------

  ghost predicate Sized(t: Tables) {
    |t.pages| == |t.fullBias| == |t.readableBias| == |t.writableBias| == |t.sparse| == PAGE_COUNT
    && |t.guarded| == SUB_PAGE_COUNT
  }

  /** Where one guest byte lives. */
  function Translate(t: Tables, a: Address): Option<nat>
    requires Sized(t)
  {
    var e := t.pages[a / PAGE_SIZE];
    if e.base == 0 || a % PAGE_SIZE >= e.limit then None else Some(e.base + a % PAGE_SIZE)
  }

  /** Whether a write to this byte must be seen by the executable-write policy. */
  predicate Guarded(t: Tables, a: Address)
    requires Sized(t)
  {
    t.guarded[a / SUB_PAGE_SIZE]
  }

  /** The whole range is mapped, in one piece, at `host`. */
  ghost predicate MappedAt(t: Tables, a: Address, length: nat, host: nat)
    requires Sized(t)
  {
    forall i | 0 <= i < length :: ByteMapped(t, a, i, host)
  }

  ghost predicate ByteMapped(t: Tables, a: Address, i: nat, host: nat)
    requires Sized(t)
  {
    a + i < ADDRESSES && Translate(t, a + i) == Some(host + i)
  }

  ghost predicate Unguarded(t: Tables, a: Address, length: nat)
    requires Sized(t)
  {
    forall i | 0 <= i < length :: ByteFree(t, a, i)
  }

  ghost predicate ByteFree(t: Tables, a: Address, i: nat)
    requires Sized(t)
  {
    a + i < ADDRESSES && !Guarded(t, a + i)
  }

  // ---- The tables ---------------------------------------------------------------------------------------

  function EncodedBias(base: nat, page: nat): nat {
    ((base - page * PAGE_SIZE) % POINTERS + 1) % POINTERS
  }

  /** A full page whose next page continues it for at least seven bytes. */
  predicate Continues(pages: seq<PageEntry>, page: nat)
    requires |pages| == PAGE_COUNT && page < PAGE_COUNT
  {
    && page + 1 < PAGE_COUNT && pages[page].base > 0 && pages[page].limit == PAGE_SIZE
    && pages[page + 1].base == pages[page].base + PAGE_SIZE && pages[page + 1].limit >= MAX_FAST_SCALAR - 1
  }

  predicate FullPage(t: Tables, page: nat)
    requires Sized(t) && page < PAGE_COUNT
  {
    Continues(t.pages, page)
  }

  ghost predicate BiasIs(t: Tables, page: nat, bias: nat)
    requires Sized(t) && page < PAGE_COUNT
  {
    bias != 0 ==> FullPage(t, page) && bias == EncodedBias(t.pages[page].base, page)
  }

  ghost predicate SparseValid(t: Tables, page: nat, s: nat, bias: nat)
    requires Sized(t) && page < PAGE_COUNT && s < SUB_PAGES_PER_PAGE
  {
    if bias == 0 then t.guarded[page * SUB_PAGES_PER_PAGE + s] else bias == t.fullBias[page]
  }

  ghost predicate PageValid(t: Tables, page: nat, hostSize: nat)
    requires Sized(t) && page < PAGE_COUNT
  {
    && t.pages[page].base + t.pages[page].limit <= hostSize && t.pages[page].limit <= PAGE_SIZE
    && t.fullBias[page] == (if FullPage(t, page) then EncodedBias(t.pages[page].base, page) else 0)
    && (t.readableBias[page] == 0 || t.readableBias[page] == t.fullBias[page])
    && (t.writableBias[page] == 0 || t.writableBias[page] == t.fullBias[page])
    // a coarse writable page holds no executable 4 KiB page
    && (t.writableBias[page] != 0 ==>
          forall s {:trigger t.guarded[s]} | page * SUB_PAGES_PER_PAGE <= s < (page + 1) * SUB_PAGES_PER_PAGE :: !t.guarded[s])
    // a sparse entry carries the page's own bias, whatever has become executable since, or none where
    // its 4 KiB page was executable before
    && (t.sparse[page].Some? ==>
          |t.sparse[page].value| == SUB_PAGES_PER_PAGE
          && forall s | 0 <= s < SUB_PAGES_PER_PAGE :: SparseValid(t, page, s, t.sparse[page].value[s]))
  }

  ghost predicate Valid(t: Tables, hostSize: nat) {
    Sized(t) && hostSize < POINTERS && forall p {:trigger PageValid(t, p, hostSize)} | 0 <= p < PAGE_COUNT :: PageValid(t, p, hostSize)
  }

  // ---- The fast lookups ------------------------------------------------------------------------------------

  function Biased(bias: nat, a: Address): nat
    requires bias != 0
  {
    (bias - 1 + a) % POINTERS
  }

  /** Any mapped range that fits one entry, or crosses into a contiguous page. */
  function PointerFast(t: Tables, a: Address, length: nat): Option<nat>
    requires Sized(t)
  {
    var page, offset := a / PAGE_SIZE, a % PAGE_SIZE;
    if length <= 8 && t.fullBias[page] != 0 then Some(Biased(t.fullBias[page], a))
    else if t.pages[page].base == 0 || offset + length > t.pages[page].limit then None
    else Some(t.pages[page].base + offset)
  }

  function WritablePointerFast(t: Tables, a: Address, length: nat, hostSize: nat): Option<nat>
    requires Valid(t, hostSize)
  {
    if length == 0 || length > 8 || a > ADDRESSES - 1 - (length - 1) then None
    else
      assert PageValid(t, a / PAGE_SIZE, hostSize);
      var page, end := a / PAGE_SIZE, a + (length - 1);
      var first, last, offset := a / SUB_PAGE_SIZE, end / SUB_PAGE_SIZE, a % PAGE_SIZE;
      var coarse := t.writableBias[page];
      if coarse != 0 then
        if end / PAGE_SIZE != page && t.guarded[last] then None else Some(Biased(coarse, a))
      else if t.sparse[page].Some? then
        var bias := t.sparse[page].value[offset / SUB_PAGE_SIZE];
        if bias == 0 || t.guarded[first] || (last != first && t.guarded[last]) then None else Some(Biased(bias, a))
      else if t.pages[page].base == 0 || offset + length > t.pages[page].limit then None
      else if t.guarded[first] || (last != first && t.guarded[last]) then None
      else Some(t.pages[page].base + offset)
  }

  /** The pointer the checked scalar store uses: the inlined coarse test, then the tiers. */
  function StorePointer(t: Tables, a: Address, length: nat, hostSize: nat): Option<nat>
    requires Valid(t, hostSize) && 1 <= length <= MAX_FAST_SCALAR
  {
    if a > ADDRESSES - 1 - (length - 1) || (a + (length - 1)) / PAGE_SIZE != a / PAGE_SIZE then None
    else if t.writableBias[a / PAGE_SIZE] != 0 then Some(Biased(t.writableBias[a / PAGE_SIZE], a))
    else WritablePointerFast(t, a, length, hostSize)
  }

  function LoadPointer(t: Tables, a: Address): Option<nat>
    requires Sized(t)
  {
    var bias := t.readableBias[a / PAGE_SIZE];
    if bias == 0 then None else Some(Biased(bias, a))
  }

  // ---- They agree with the simple form -------------------------------------------------------------------

  /** A full page's bias translates every access of up to eight bytes that starts in the page. */
  lemma BiasTranslates(t: Tables, a: Address, length: nat, bias: nat, hostSize: nat)
    requires Valid(t, hostSize) && 1 <= length <= MAX_FAST_SCALAR
    requires bias != 0 && BiasIs(t, a / PAGE_SIZE, bias)
    ensures MappedAt(t, a, length, Biased(bias, a))
  {
    var page := a / PAGE_SIZE;
    assert PageValid(t, page, hostSize) && PageValid(t, page + 1, hostSize);
    BiasedIs(t.pages[page].base, page, a);
    forall i | 0 <= i < length ensures ByteMapped(t, a, i, Biased(bias, a)) {
      ByteOfFullPage(t, a, i);
    }
  }

  lemma ByteOfFullPage(t: Tables, a: Address, i: nat)
    requires Sized(t) && i < MAX_FAST_SCALAR && FullPage(t, a / PAGE_SIZE)
    ensures ByteMapped(t, a, i, t.pages[a / PAGE_SIZE].base + a % PAGE_SIZE)
  {
    if a % PAGE_SIZE + i < PAGE_SIZE {
      assert (a + i) / PAGE_SIZE == a / PAGE_SIZE && (a + i) % PAGE_SIZE == a % PAGE_SIZE + i;
    } else {
      assert (a + i) / PAGE_SIZE == a / PAGE_SIZE + 1 && (a + i) % PAGE_SIZE == a % PAGE_SIZE + i - PAGE_SIZE;
    }
  }

  lemma BiasedIs(base: nat, page: nat, a: Address)
    requires page == a / PAGE_SIZE && base + PAGE_SIZE < POINTERS && EncodedBias(base, page) != 0
    ensures Biased(EncodedBias(base, page), a) == base + a % PAGE_SIZE
  {}

  lemma EntryTranslates(t: Tables, a: Address, length: nat)
    requires Sized(t) && t.pages[a / PAGE_SIZE].base != 0
    requires a % PAGE_SIZE + length <= t.pages[a / PAGE_SIZE].limit <= PAGE_SIZE
    ensures MappedAt(t, a, length, t.pages[a / PAGE_SIZE].base + a % PAGE_SIZE)
  {
    var host := t.pages[a / PAGE_SIZE].base + a % PAGE_SIZE;
    forall i | 0 <= i < length ensures ByteMapped(t, a, i, host) {
      assert (a + i) / PAGE_SIZE == a / PAGE_SIZE && (a + i) % PAGE_SIZE == a % PAGE_SIZE + i;
    }
  }

  /** Eight bytes touch at most two 4 KiB pages, so testing both ends is testing every byte. */
  lemma EndsDecide(t: Tables, a: Address, length: nat)
    requires Sized(t) && 1 <= length <= MAX_FAST_SCALAR && a + length <= ADDRESSES
    requires !t.guarded[a / SUB_PAGE_SIZE] && !t.guarded[(a + length - 1) / SUB_PAGE_SIZE]
    ensures Unguarded(t, a, length)
  {
    forall i | 0 <= i < length ensures ByteFree(t, a, i) {
      assert (a + i) / SUB_PAGE_SIZE == a / SUB_PAGE_SIZE || (a + i) / SUB_PAGE_SIZE == (a + length - 1) / SUB_PAGE_SIZE;
    }
  }

  lemma CoarseIsUnguarded(t: Tables, a: Address, hostSize: nat)
    requires Valid(t, hostSize) && t.writableBias[a / PAGE_SIZE] != 0
    ensures !t.guarded[a / SUB_PAGE_SIZE]
  {
    assert PageValid(t, a / PAGE_SIZE, hostSize);
  }

  /** Every pointer the writable lookup hands out addresses exactly the translated bytes, and none of
      them lies on a guarded page - coarse, sparse, small mapping or page-crossing. */
  lemma WritableIsTranslated(t: Tables, a: Address, length: nat, hostSize: nat)
    requires Valid(t, hostSize) && WritablePointerFast(t, a, length, hostSize).Some?
    ensures MappedAt(t, a, length, WritablePointerFast(t, a, length, hostSize).value)
    ensures Unguarded(t, a, length)
  {
    var page, end := a / PAGE_SIZE, a + (length - 1);
    assert PageValid(t, page, hostSize);
    if t.writableBias[page] != 0 {
      BiasTranslates(t, a, length, t.writableBias[page], hostSize);
      CoarseIsUnguarded(t, a, hostSize);
      if end / PAGE_SIZE == page {
        CoarseIsUnguarded(t, end, hostSize);
      }
    } else if t.sparse[page].Some? {
      BiasTranslates(t, a, length, t.sparse[page].value[a % PAGE_SIZE / SUB_PAGE_SIZE], hostSize);
    } else {
      EntryTranslates(t, a, length);
    }
    EndsDecide(t, a, length);
  }

  lemma StoreIsTranslated(t: Tables, a: Address, length: nat, hostSize: nat)
    requires Valid(t, hostSize) && 1 <= length <= MAX_FAST_SCALAR && StorePointer(t, a, length, hostSize).Some?
    ensures MappedAt(t, a, length, StorePointer(t, a, length, hostSize).value)
    ensures Unguarded(t, a, length)
  {
    assert PageValid(t, a / PAGE_SIZE, hostSize);
    if t.writableBias[a / PAGE_SIZE] != 0 {
      BiasTranslates(t, a, length, t.writableBias[a / PAGE_SIZE], hostSize);
      CoarseIsUnguarded(t, a, hostSize);
      CoarseIsUnguarded(t, a + length - 1, hostSize);
      EndsDecide(t, a, length);
    } else {
      WritableIsTranslated(t, a, length, hostSize);
    }
  }

  lemma LoadIsTranslated(t: Tables, a: Address, length: nat, hostSize: nat)
    requires Valid(t, hostSize) && 1 <= length <= MAX_FAST_SCALAR && LoadPointer(t, a).Some?
    ensures MappedAt(t, a, length, LoadPointer(t, a).value)
  {
    assert PageValid(t, a / PAGE_SIZE, hostSize);
    BiasTranslates(t, a, length, t.readableBias[a / PAGE_SIZE], hostSize);
  }

  lemma PointerIsTranslated(t: Tables, a: Address, length: nat, hostSize: nat)
    requires Valid(t, hostSize) && length >= 1 && PointerFast(t, a, length).Some?
    ensures MappedAt(t, a, length, PointerFast(t, a, length).value)
  {
    assert PageValid(t, a / PAGE_SIZE, hostSize);
    if length <= 8 && t.fullBias[a / PAGE_SIZE] != 0 {
      BiasTranslates(t, a, length, t.fullBias[a / PAGE_SIZE], hostSize);
    } else {
      EntryTranslates(t, a, length);
    }
  }

  // ---- When a pointer is given --------------------------------------------------------------------------------

  /** The whole range is mapped somewhere, in one piece. */
  ghost predicate Mapped(t: Tables, a: Address, length: nat)
    requires Sized(t)
  {
    exists host :: MappedAt(t, a, length, host)
  }

  lemma OnePageMapped(t: Tables, a: Address, length: nat)
    requires Sized(t) && length >= 1 && a % PAGE_SIZE + length <= PAGE_SIZE && t.pages[a / PAGE_SIZE].limit <= PAGE_SIZE
    ensures Mapped(t, a, length) <==>
            t.pages[a / PAGE_SIZE].base != 0 && a % PAGE_SIZE + length <= t.pages[a / PAGE_SIZE].limit
  {
    if host :| MappedAt(t, a, length, host) {
      assert ByteMapped(t, a, 0, host) && ByteMapped(t, a, length - 1, host);
      assert (a + length - 1) / PAGE_SIZE == a / PAGE_SIZE && (a + length - 1) % PAGE_SIZE == a % PAGE_SIZE + length - 1;
    } else if t.pages[a / PAGE_SIZE].base != 0 && a % PAGE_SIZE + length <= t.pages[a / PAGE_SIZE].limit {
      EntryTranslates(t, a, length);
    }
  }

  lemma UnguardedEnds(t: Tables, a: Address, length: nat)
    requires Sized(t) && 1 <= length <= MAX_FAST_SCALAR && a + length <= ADDRESSES
    ensures Unguarded(t, a, length) <==> !t.guarded[a / SUB_PAGE_SIZE] && !t.guarded[(a + length - 1) / SUB_PAGE_SIZE]
  {
    if Unguarded(t, a, length) {
      assert ByteFree(t, a, 0) && ByteFree(t, a, length - 1);
    } else if !t.guarded[a / SUB_PAGE_SIZE] && !t.guarded[(a + length - 1) / SUB_PAGE_SIZE] {
      EndsDecide(t, a, length);
    }
  }

  lemma WritableIsGiven(t: Tables, a: Address, length: nat, hostSize: nat)
    requires Valid(t, hostSize) && 1 <= length <= MAX_FAST_SCALAR && a % PAGE_SIZE + length <= PAGE_SIZE
    ensures WritablePointerFast(t, a, length, hostSize).Some? <==> Mapped(t, a, length) && Unguarded(t, a, length)
  {
    var page := a / PAGE_SIZE;
    assert PageValid(t, page, hostSize) && (a + length - 1) / PAGE_SIZE == page && a + length <= ADDRESSES;
    OnePageMapped(t, a, length);
    UnguardedEnds(t, a, length);
    if t.writableBias[page] != 0 {
      CoarseIsUnguarded(t, a, hostSize);
      CoarseIsUnguarded(t, a + length - 1, hostSize);
    } else if t.sparse[page].Some? {
      var s := a % PAGE_SIZE / SUB_PAGE_SIZE;
      assert page * SUB_PAGES_PER_PAGE + s == a / SUB_PAGE_SIZE;
      assert SparseValid(t, page, s, t.sparse[page].value[s]);
    }
  }

  /** A general writable access that leaves its page is native exactly when none of its bytes is guarded and
      the page has a write bias, coarse or sparse. */
  lemma {:induction false} CrossingIsGiven(t: Tables, a: Address, length: nat, hostSize: nat)
    requires Valid(t, hostSize) && 1 <= length <= MAX_FAST_SCALAR
    requires a % PAGE_SIZE + length > PAGE_SIZE && a + length <= ADDRESSES
    ensures WritablePointerFast(t, a, length, hostSize).Some? <==>
            Unguarded(t, a, length) && (t.writableBias[a / PAGE_SIZE] != 0 || t.sparse[a / PAGE_SIZE].Some?)
  {
    var page := a / PAGE_SIZE;
    assert PageValid(t, page, hostSize) && (a + length - 1) / PAGE_SIZE != page;
    UnguardedEnds(t, a, length);
    if t.writableBias[page] != 0 {
      CoarseIsUnguarded(t, a, hostSize);
    } else if t.sparse[page].Some? {
      var s := a % PAGE_SIZE / SUB_PAGE_SIZE;
      assert page * SUB_PAGES_PER_PAGE + s == a / SUB_PAGE_SIZE;
      assert SparseValid(t, page, s, t.sparse[page].value[s]);
    }
  }

  /** The store is native exactly when its bytes lie in one 1 MiB page, are mapped in one piece, and none
      of them is guarded. */
  lemma StoreIsGiven(t: Tables, a: Address, length: nat, hostSize: nat)
    requires Valid(t, hostSize) && 1 <= length <= MAX_FAST_SCALAR
    ensures StorePointer(t, a, length, hostSize).Some? <==>
            a % PAGE_SIZE + length <= PAGE_SIZE && Mapped(t, a, length) && Unguarded(t, a, length)
  {
    var page := a / PAGE_SIZE;
    assert PageValid(t, page, hostSize);
    if a % PAGE_SIZE + length <= PAGE_SIZE {
      WritableIsGiven(t, a, length, hostSize);
      if t.writableBias[page] != 0 {
        StoreIsTranslated(t, a, length, hostSize);
      }
    }
  }

  /** The page and the next seven bytes are mapped in one piece. */
  ghost predicate PageRun(t: Tables, page: nat, host: nat)
    requires Sized(t) && page < PAGE_COUNT
  {
    MappedAt(t, page * PAGE_SIZE, PAGE_SIZE + MAX_FAST_SCALAR - 1, host)
  }

  /** That is what a full page is. */
  lemma FullIsMapped(t: Tables, page: nat, hostSize: nat)
    requires Valid(t, hostSize) && page < PAGE_COUNT
    ensures FullPage(t, page) ==> PageRun(t, page, t.pages[page].base)
    ensures forall host: nat | PageRun(t, page, host) :: FullPage(t, page) && host == t.pages[page].base
  {
    var start := page * PAGE_SIZE;
    assert PageValid(t, page, hostSize);
    if FullPage(t, page) {
      forall i | 0 <= i < PAGE_SIZE + 7 ensures ByteMapped(t, start, i, t.pages[page].base) {
        if i < PAGE_SIZE {
          assert (start + i) / PAGE_SIZE == page && (start + i) % PAGE_SIZE == i;
        } else {
          assert (start + i) / PAGE_SIZE == page + 1 && (start + i) % PAGE_SIZE == i - PAGE_SIZE;
        }
      }
    }
    forall host: nat | PageRun(t, page, host) ensures FullPage(t, page) && host == t.pages[page].base {
      assert ByteMapped(t, start, 0, host) && ByteMapped(t, start, PAGE_SIZE - 1, host);
      assert ByteMapped(t, start, PAGE_SIZE, host) && ByteMapped(t, start, PAGE_SIZE + 6, host);
      PageBytes(page);
      assert PageValid(t, page + 1, hostSize);
    }
  }

  lemma PageBytes(page: nat)
    ensures var start := page * PAGE_SIZE;
            && start / PAGE_SIZE == page && start % PAGE_SIZE == 0
            && (start + PAGE_SIZE - 1) / PAGE_SIZE == page && (start + PAGE_SIZE - 1) % PAGE_SIZE == PAGE_SIZE - 1
            && (start + PAGE_SIZE) / PAGE_SIZE == page + 1 && (start + PAGE_SIZE) % PAGE_SIZE == 0
            && (start + PAGE_SIZE + 6) / PAGE_SIZE == page + 1 && (start + PAGE_SIZE + 6) % PAGE_SIZE == 6
  {}

  /** The one bias that the encoding cannot hold is that of storage one byte below its guest address. */
  lemma EncodedIsZero(base: nat, page: nat)
    requires page < PAGE_COUNT && base + PAGE_SIZE < POINTERS
    ensures EncodedBias(base, page) == 0 <==> base + 1 == page * PAGE_SIZE
  {
    var bias := base - page * PAGE_SIZE;
    if bias < 0 {
      QuotientIs(bias, POINTERS, -1);
    } else {
      QuotientIs(bias, POINTERS, 0);
    }
  }

  /** The page and the next seven bytes are mapped in one piece, at an address the encoding can hold. */
  ghost predicate Encodable(t: Tables, page: nat)
    requires Sized(t) && page < PAGE_COUNT
  {
    exists host: nat :: PageRun(t, page, host) && host + 1 != page * PAGE_SIZE
  }

  /** Taken off the fast read path. */
  predicate Withheld(t: Tables, page: nat)
    requires |t.readableBias| == |t.fullBias| == PAGE_COUNT && page < PAGE_COUNT
  {
    t.readableBias[page] != t.fullBias[page]
  }

  lemma FullBiasIsGiven(t: Tables, page: nat, hostSize: nat)
    requires Valid(t, hostSize) && page < PAGE_COUNT
    ensures t.fullBias[page] != 0 <==> Encodable(t, page)
  {
    assert PageValid(t, page, hostSize);
    FullIsMapped(t, page, hostSize);
    if FullPage(t, page) {
      assert PageValid(t, page + 1, hostSize);
      EncodedIsZero(t.pages[page].base, page);
    }
  }

  /** A load is native exactly when its page is encodable and not withheld, wherever it ends. */
  lemma LoadIsGiven(t: Tables, a: Address, hostSize: nat)
    requires Valid(t, hostSize)
    ensures LoadPointer(t, a).Some? <==> Encodable(t, a / PAGE_SIZE) && !Withheld(t, a / PAGE_SIZE)
  {
    assert PageValid(t, a / PAGE_SIZE, hostSize);
    FullBiasIsGiven(t, a / PAGE_SIZE, hostSize);
  }

  /** The general lookup gives a pointer to every range mapped within one page, and to a scalar that
      leaves an encodable one. */
  lemma PointerIsGiven(t: Tables, a: Address, length: nat, hostSize: nat)
    requires Valid(t, hostSize) && length >= 1
    ensures PointerFast(t, a, length).Some? <==>
            if a % PAGE_SIZE + length <= PAGE_SIZE then Mapped(t, a, length)
            else length <= MAX_FAST_SCALAR && Encodable(t, a / PAGE_SIZE)
  {
    assert PageValid(t, a / PAGE_SIZE, hostSize);
    FullBiasIsGiven(t, a / PAGE_SIZE, hostSize);
    if a % PAGE_SIZE + length <= PAGE_SIZE {
      OnePageMapped(t, a, length);
    }
  }

  // ---- Bytes ------------------------------------------------------------------------------------------------

  type Byte = b: int | 0 <= b < 0x100

  function Pow256(n: nat): nat {
    if n == 0 then 1 else 0x100 * Pow256(n - 1)
  }

  function BigEndian(value: nat, n: nat): (s: seq<Byte>)
    ensures |s| == n
  {
    if n == 0 then [] else BigEndian(value / 0x100, n - 1) + [value % 0x100]
  }

  function FromBigEndian(s: seq<Byte>): nat {
    if s == [] then 0 else FromBigEndian(s[..|s| - 1]) * 0x100 + s[|s| - 1]
  }

  function Reverse(s: seq<Byte>): (r: seq<Byte>)
    ensures |r| == |s| && forall i | 0 <= i < |s| :: r[i] == s[|s| - 1 - i]
  {
    seq(|s|, i requires 0 <= i < |s| => s[|s| - 1 - i])
  }

  /** A little-endian host's byte order, and the swap between the two. */
  function LittleEndian(value: nat, n: nat): seq<Byte> {
    Reverse(BigEndian(value, n))
  }

  function FromLittleEndian(s: seq<Byte>): nat {
    FromBigEndian(Reverse(s))
  }

  function ByteSwap(value: nat, n: nat): nat {
    FromBigEndian(LittleEndian(value, n))
  }

  lemma {:induction false} BytesRoundTrip(s: seq<Byte>)
    ensures FromBigEndian(s) < Pow256(|s|) && BigEndian(FromBigEndian(s), |s|) == s
  {
    if s != [] {
      BytesRoundTrip(s[..|s| - 1]);
      assert FromBigEndian(s) / 0x100 == FromBigEndian(s[..|s| - 1]);
    }
  }

  lemma {:induction false} ValueRoundTrip(value: nat, n: nat)
    requires value < Pow256(n)
    ensures FromBigEndian(BigEndian(value, n)) == value
  {
    if n > 0 {
      ValueRoundTrip(value / 0x100, n - 1);
      assert BigEndian(value, n)[..n - 1] == BigEndian(value / 0x100, n - 1);
    }
  }

  /** Swapping before a host store puts the bytes in guest order. */
  lemma {:induction false} SwappedStore(value: nat, n: nat)
    ensures LittleEndian(ByteSwap(value, n), n) == BigEndian(value, n)
  {
    var host := LittleEndian(value, n);
    BytesRoundTrip(host);
    assert Reverse(host) == BigEndian(value, n);
  }

  /** Swapping after a host load reads them in guest order. */
  lemma {:induction false} SwappedLoad(bytes: seq<Byte>)
    ensures ByteSwap(FromLittleEndian(bytes), |bytes|) == FromBigEndian(bytes)
  {
    BytesRoundTrip(Reverse(bytes));
    assert Reverse(Reverse(bytes)) == bytes;
  }

  lemma Shifted(x: nat, p: nat, y: nat, last: nat)
    ensures (x * p + y) * 0x100 + last == x * (0x100 * p) + (y * 0x100 + last)
  {}

  /** One fused access is the two accesses: the high half first, then the low half. */
  lemma {:induction false} FusedPair(a: seq<Byte>, b: seq<Byte>)
    ensures FromBigEndian(a + b) == FromBigEndian(a) * Pow256(|b|) + FromBigEndian(b)
    ensures FromBigEndian(b) < Pow256(|b|)
  {
    if b == [] {
      assert a + b == a;
    } else {
      var rest := b[..|b| - 1];
      assert (a + b)[..|a + b| - 1] == a + rest;
      FusedPair(a, rest);
      Shifted(FromBigEndian(a), Pow256(|rest|), FromBigEndian(rest), b[|b| - 1]);
    }
  }

  lemma {:induction false} FusedStore(first: nat, second: nat, m: nat, n: nat)
    requires second < Pow256(n)
    ensures BigEndian(first * Pow256(n) + second, m + n) == BigEndian(first, m) + BigEndian(second, n)
  {
    if n == 0 {
      assert BigEndian(first, m) + BigEndian(second, 0) == BigEndian(first, m);
    } else {
      var packed := first * Pow256(n) + second;
      assert packed == 0x100 * (first * Pow256(n - 1)) + second;
      assert packed / 0x100 == first * Pow256(n - 1) + second / 0x100 && packed % 0x100 == second % 0x100;
      FusedStore(first, second / 0x100, m, n - 1);
    }
  }

  /** The packed reads split exactly at the element boundary. */
  lemma {:induction false} PairsAreTwoAccesses(bytes: seq<Byte>)
    ensures |bytes| == 4 ==> FromBigEndian(bytes) / 0x1_0000 == FromBigEndian(bytes[..2])
                             && FromBigEndian(bytes) % 0x1_0000 == FromBigEndian(bytes[2..])
    ensures |bytes| == 8 ==> FromBigEndian(bytes) / 0x1_0000_0000 == FromBigEndian(bytes[..4])
                             && FromBigEndian(bytes) % 0x1_0000_0000 == FromBigEndian(bytes[4..])
  {
    if |bytes| == 4 {
      assert bytes == bytes[..2] + bytes[2..];
      FusedPair(bytes[..2], bytes[2..]);
      assert Pow256(2) == 0x1_0000;
      QuotientIs(FromBigEndian(bytes), 0x1_0000, FromBigEndian(bytes[..2]));
    }
    if |bytes| == 8 {
      assert bytes == bytes[..4] + bytes[4..];
      FusedPair(bytes[..4], bytes[4..]);
      assert Pow256(2) == 0x1_0000 && Pow256(4) == 0x1_0000_0000;
      QuotientIs(FromBigEndian(bytes), 0x1_0000_0000, FromBigEndian(bytes[..4]));
    }
  }

  // ---- Host memory ---------------------------------------------------------------------------------------------

  /** One guest byte written the simple way: translated, and only when no guard covers it. */
  function WriteByte(h: seq<Byte>, t: Tables, a: Address, b: Byte): seq<Byte>
    requires Sized(t)
  {
    var p := Translate(t, a);
    if p.Some? && p.value < |h| && !Guarded(t, a) then h[p.value := b] else h
  }

  function WriteBytes(h: seq<Byte>, t: Tables, a: Address, bytes: seq<Byte>): (r: seq<Byte>)
    requires Sized(t) && a + |bytes| <= ADDRESSES
    ensures |r| == |h|
  {
    if bytes == [] then h
    else WriteByte(WriteBytes(h, t, a, bytes[..|bytes| - 1]), t, a + |bytes| - 1, bytes[|bytes| - 1])
  }

  function ReadBytes(h: seq<Byte>, t: Tables, a: Address, n: nat): Option<seq<Byte>>
    requires Sized(t) && a + n <= ADDRESSES
  {
    if n == 0 then Some([])
    else
      var rest, p := ReadBytes(h, t, a, n - 1), Translate(t, a + n - 1);
      if rest.None? || p.None? || p.value >= |h| then None else Some(rest.value + [h[p.value]])
  }

  function Copied(h: seq<Byte>, p: nat, bytes: seq<Byte>): (r: seq<Byte>)
    requires p + |bytes| <= |h|
    ensures |r| == |h|
  {
    h[..p] + bytes + h[p + |bytes|..]
  }

  /** A native copy to a translated, unguarded range is the per-byte guarded write. */
  lemma {:induction false} CopyIsGuardedWrite(h: seq<Byte>, t: Tables, a: Address, bytes: seq<Byte>, p: nat)
    requires Sized(t) && a + |bytes| <= ADDRESSES && p + |bytes| <= |h|
    requires MappedAt(t, a, |bytes|, p) && Unguarded(t, a, |bytes|)
    ensures WriteBytes(h, t, a, bytes) == Copied(h, p, bytes)
  {
    if bytes == [] {
      assert Copied(h, p, bytes) == h;
    } else {
      var n := |bytes| - 1;
      CopyIsGuardedWrite(h, t, a, bytes[..n], p);
      assert ByteMapped(t, a, n, p) && ByteFree(t, a, n);
    }
  }

  lemma {:induction false} ReadIsTranslated(h: seq<Byte>, t: Tables, a: Address, n: nat, p: nat)
    requires Sized(t) && a + n <= ADDRESSES && p + n <= |h| && MappedAt(t, a, n, p)
    ensures ReadBytes(h, t, a, n) == Some(h[p..p + n])
  {
    if n > 0 {
      ReadIsTranslated(h, t, a, n - 1, p);
      assert ByteMapped(t, a, n - 1, p);
      assert h[p..p + n] == h[p..p + n - 1] + [h[p + n - 1]];
    } else {
      assert h[p..p] == [];
    }
  }

  lemma HostInRange(t: Tables, a: Address, length: nat, p: nat, hostSize: nat)
    requires Valid(t, hostSize) && length >= 1 && MappedAt(t, a, length, p)
    ensures a + length <= ADDRESSES && 0 < p + length <= hostSize
  {
    assert ByteMapped(t, a, length - 1, p);
    assert PageValid(t, (a + length - 1) / PAGE_SIZE, hostSize);
  }

  class Memory {
    const tables: Tables
    const host: array<Byte>

    constructor (tables: Tables, host: array<Byte>)
      ensures this.tables == tables && this.host == host
    {
      this.tables, this.host := tables, host;
    }

    /** A successful store is the per-byte translated, guarded write; a refused one writes nothing. */
    method TryWriteGuestScalar(a: Address, value: nat, size: nat) returns (ok: bool)
      requires Valid(tables, host.Length) && 1 <= size <= MAX_FAST_SCALAR
      modifies host
      ensures ok <==> a % PAGE_SIZE + size <= PAGE_SIZE && Mapped(tables, a, size) && Unguarded(tables, a, size)
      ensures ok ==> a + size <= ADDRESSES && Unguarded(tables, a, size)
                     && host[..] == WriteBytes(old(host[..]), tables, a, BigEndian(value, size))
      ensures !ok ==> host[..] == old(host[..])
    {
      var pointer := StorePointer(tables, a, size, host.Length);
      StoreIsGiven(tables, a, size, host.Length);
      if pointer.None? {
        return false;
      }
      var p := pointer.value;
      StoreIsTranslated(tables, a, size, host.Length);
      HostInRange(tables, a, size, p, host.Length);
      var swapped := LittleEndian(ByteSwap(value, size), size);
      SwappedStore(value, size);
      CopyIsGuardedWrite(host[..], tables, a, swapped, p);
      Copy(p, swapped);
      ok := true;
    }

    /** A native copy into host memory. */
    method Copy(p: nat, bytes: seq<Byte>)
      requires p + |bytes| <= host.Length
      modifies host
      ensures host[..] == Copied(old(host[..]), p, bytes)
    {
      for i := 0 to |bytes|
        invariant forall q | 0 <= q < host.Length :: host[q] == if p <= q < p + i then bytes[q - p] else old(host[q])
      {
        host[p + i] := bytes[i];
      }
    }

    /** A successful load is the per-byte translated read, most significant byte first. */
    method TryReadGuestScalar(a: Address, size: nat) returns (ok: bool, value: nat)
      requires Valid(tables, host.Length) && 1 <= size <= MAX_FAST_SCALAR
      ensures ok <==> Encodable(tables, a / PAGE_SIZE) && !Withheld(tables, a / PAGE_SIZE)
      ensures ok ==> a + size <= ADDRESSES && ReadBytes(host[..], tables, a, size).Some?
                     && value == FromBigEndian(ReadBytes(host[..], tables, a, size).value)
    {
      var pointer := LoadPointer(tables, a);
      LoadIsGiven(tables, a, host.Length);
      if pointer.None? {
        return false, 0;
      }
      var p := pointer.value;
      LoadIsTranslated(tables, a, size, host.Length);
      HostInRange(tables, a, size, p, host.Length);
      ReadIsTranslated(host[..], tables, a, size, p);
      SwappedLoad(host[p..p + size]);
      value := ByteSwap(FromLittleEndian(host[p..p + size]), size);
      ok := true;
    }
  }

  lemma OnlyTranslatedBytesChange(h: seq<Byte>, t: Tables, a: Address, bytes: seq<Byte>, p: nat)
    requires Sized(t) && a + |bytes| <= ADDRESSES && p + |bytes| <= |h| && MappedAt(t, a, |bytes|, p)
    ensures var now := Copied(h, p, bytes);
            forall q | 0 <= q < |h| && now[q] != h[q] ::
              exists x: Address :: a <= x < a + |bytes| && Translate(t, x) == Some(q)
  {
    var now := Copied(h, p, bytes);
    forall q | 0 <= q < |h| && now[q] != h[q]
      ensures exists x: Address :: a <= x < a + |bytes| && Translate(t, x) == Some(q)
    {
      assert ByteMapped(t, a, q - p, p);
      assert Translate(t, a + (q - p)) == Some(q);
    }
  }

  /** What a successful store wrote is what a load of the same scalar then returns; every host byte
      outside the translated range keeps its value. */
  lemma {:induction false} StoreThenLoad(h: seq<Byte>, t: Tables, a: Address, value: nat, size: nat)
    requires Valid(t, |h|) && 1 <= size <= MAX_FAST_SCALAR && value < Pow256(size)
    requires StorePointer(t, a, size, |h|).Some?
    ensures a + size <= ADDRESSES
    ensures var now := WriteBytes(h, t, a, BigEndian(value, size));
            && ReadBytes(now, t, a, size).Some? && FromBigEndian(ReadBytes(now, t, a, size).value) == value
            && forall q | 0 <= q < |h| && now[q] != h[q] ::
                 exists x: Address :: a <= x < a + size && Translate(t, x) == Some(q)
  {
    var p := StorePointer(t, a, size, |h|).value;
    var bytes := BigEndian(value, size);
    StoreIsTranslated(t, a, size, |h|);
    HostInRange(t, a, size, p, |h|);
    CopyIsGuardedWrite(h, t, a, bytes, p);
    var now := WriteBytes(h, t, a, bytes);
    ReadIsTranslated(now, t, a, size, p);
    assert now[p..p + size] == bytes;
    ValueRoundTrip(value, size);
    OnlyTranslatedBytesChange(h, t, a, bytes, p);
  }

  // ---- Flat ranges -------------------------------------------------------------------------------------------------

  predicate Mmio(a: int) {
    0xCC00_0000 <= a < 0xCE00_0000
  }

  /** The mask test in front of every flat store: clearing the low 25 bits rounds down to 32 MiB. */
  predicate FlatWriteNeedsPolicy(a: Address) {
    a / 0x200_0000 * 0x200_0000 == 0xCC00_0000
  }

  lemma PolicyIsMmio(a: Address)
    ensures FlatWriteNeedsPolicy(a) <==> Mmio(a)
  {}

  function RangeStart(base: Address, minOffset: int): Address {
    (base + minOffset) % ADDRESSES
  }

  /** Offset of the range in the flat guest mapping, or None. */
  function ResolveRange(base: Address, minOffset: int, length: nat, needsWrite: bool): Option<Address> {
    var start := RangeStart(base, minOffset);
    if length == 0 || length > PAGE_SIZE || start > ADDRESSES - 1 - (length - 1) then None
    else if needsWrite && (FlatWriteNeedsPolicy(start) || FlatWriteNeedsPolicy(start + length - 1)) then None
    else Some(start)
  }

  /** Testing both ends decides the whole range: a write range is refused exactly when it is empty,
      longer than a page, wraps, or touches the register window anywhere. */
  lemma EndpointsProveTheRange(base: Address, minOffset: int, length: nat, needsWrite: bool)
    ensures var start := RangeStart(base, minOffset);
            ResolveRange(base, minOffset, length, needsWrite).Some? <==>
            && 0 < length <= PAGE_SIZE && start + length <= ADDRESSES
            && (needsWrite ==> forall x | start <= x < start + length :: !Mmio(x))
    ensures ResolveRange(base, minOffset, length, needsWrite).Some? ==>
              var at := ResolveRange(base, minOffset, length, needsWrite).value;
              (at - (base + minOffset)) % ADDRESSES == 0 && (0 <= base + minOffset < ADDRESSES ==> at == base + minOffset)
  {
    var start := RangeStart(base, minOffset);
    if 0 < length && start + length <= ADDRESSES {
      PolicyIsMmio(start);
      PolicyIsMmio(start + length - 1);
    }
  }
}
