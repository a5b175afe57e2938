/**
 * The two-level IOMMU page table shared by the driver (kernel/ipu4/ipu6-mmu.c) and
 * the device (tools/qemu-patches/hw/misc/ipu4.c).
 *
 * IOVAs are 32 bits: ten bits of L1 slot, ten bits of L2 index, twelve bits of
 * offset.  Table pages have a CPU name (what `l2_pts` holds) and a bus name (what an
 * L1 entry holds); `bus` is the only link between the two, so the driver's lookup and
 * the device's walk really are two different paths to the same memory.
 */
module PageTable {
  import opened Common

  const PAGE_SIZE: nat := 4096
  const PTES: nat := 1024
  const PAGES: nat := 1024 * 1024

  /** A table entry is a u32: a wider page frame number loses its high bits. */
  function Pte(pfn: nat): nat { pfn % U32 }

  /** The IOVA page that L1 slot `i`, L2 index `j` translates. */
  function Page(i: nat, j: nat): nat { i * PTES + j }

  /** The `k` consecutive pages from `a`. */
  function Range(a: nat, k: nat): set<nat> { set p: nat | a <= p < a + k && Within(p, a, k) }

  predicate Within(p: nat, a: nat, k: nat) { a <= p < a + k }

  lemma {:induction false} RangeJoin(a: nat, k: nat, n: nat)
    ensures Range(a, k + n) == Range(a, k) + Range(a + k, n) && Range(a, k) !! Range(a + k, n)
  {
  }

  /** How many of `n` pages from `start` exist below 2^32. */
  function Clip(start: nat, n: nat): nat {
    if start + n <= PAGES then n else if start < PAGES then PAGES - start else 0
  }

  /** The page map after `k` pages from `start` were mapped to the frames from `pfn` on. */
  function Extend(pages: map<nat, nat>, start: nat, pfn: nat, k: nat): map<nat, nat> {
    if k == 0 then pages else Extend(pages, start, pfn, k - 1)[start + k - 1 := Pte(pfn + k - 1)]
  }

  lemma {:induction false} ExtendAt(pages: map<nat, nat>, start: nat, pfn: nat, k: nat)
    ensures Extend(pages, start, pfn, k).Keys == pages.Keys + Range(start, k)
    ensures forall p :: p in Range(start, k) ==> Extend(pages, start, pfn, k)[p] == Pte(pfn + (p - start))
    ensures forall p :: p in pages && p !in Range(start, k) ==> Extend(pages, start, pfn, k)[p] == pages[p]
  {
    if k != 0 {
      ExtendAt(pages, start, pfn, k - 1);
      assert Range(start, k) == Range(start, k - 1) + {start + k - 1};
    }
  }

  lemma {:induction false} ExtendJoin(pages: map<nat, nat>, start: nat, pfn: nat, a: nat, b: nat)
    ensures Extend(Extend(pages, start, pfn, a), start + a, pfn + a, b) == Extend(pages, start, pfn, a + b)
  {
    if b != 0 {
      ExtendJoin(pages, start, pfn, a, b - 1);
    }
  }

  /** Clearing what was just mapped leaves the other pages as they were. */
  lemma ExtendThenClear(pages: map<nat, nat>, start: nat, pfn: nat, k: nat)
    ensures Extend(pages, start, pfn, k) - Range(start, k) == pages - Range(start, k)
  {
    ExtendAt(pages, start, pfn, k);
  }

  /**
   * Table memory.  `ram` holds the 1024 entries of each table page by CPU page name,
   * `bus` says which CPU page a bus page frame reaches, `l2Pts` is the driver's shadow
   * array of L2 pointers (0 is NULL).
   */
  datatype Tables = Tables(
    l1Page: nat, l1Dma: nat, dummyL2Page: nat, dummyL2Dma: nat, dummyPte: nat,
    ram: map<nat, seq<nat>>, bus: map<nat, nat>, l2Pts: seq<nat>)
  {
    predicate IsTable(v: nat) {
      v in ram && |ram[v]| == PTES
    }

    /** L1 entry and shadow pointer of slot `i` name the same table, or both say "none". */
    predicate SlotOk(i: nat)
      requires i < PTES && |l2Pts| == PTES && IsTable(l1Page)
    {
      var e := ram[l1Page][i];
      var v := l2Pts[i];
      if v == 0 then e == dummyL2Dma
      else
        && e != dummyL2Dma && e != 0
        && e in bus && bus[e] == v
        && IsTable(v) && v != l1Page && v != dummyL2Page
    }

    /** No two slots share a table. */
    predicate Apart(i: nat, k: nat)
      requires i < |l2Pts| && k < |l2Pts|
    {
      l2Pts[i] == 0 || l2Pts[i] != l2Pts[k]
    }

    ghost predicate WellFormed() {
      && |l2Pts| == PTES
      && IsTable(l1Page) && IsTable(dummyL2Page) && l1Page != dummyL2Page
      && 0 !in ram && dummyPte != 0
      && l1Dma != 0 && l1Dma in bus && bus[l1Dma] == l1Page
      && dummyL2Dma != 0 && dummyL2Dma in bus && bus[dummyL2Dma] == dummyL2Page
      && (forall j :: 0 <= j < PTES ==> ram[dummyL2Page][j] == dummyPte)
      && (forall i :: 0 <= i < PTES ==> SlotOk(i))
      && (forall i, k :: 0 <= i < k < PTES ==> Apart(i, k))
    }

    /** The entry that governs IOVA page (i, j). */
    function Cell(i: nat, j: nat): nat
    {
      if i < |l2Pts| && IsTable(l2Pts[i]) && j < PTES then ram[l2Pts[i]][j] else dummyPte
    }

    /** These tables implement the partial map `pages` from IOVA page to page frame. */
    ghost predicate Represents(pages: map<nat, nat>) {
      && WellFormed()
      && (forall p :: p in pages ==> p < PAGES)
      && (forall i, j {:trigger Cell(i, j)} :: 0 <= i < PTES && 0 <= j < PTES ==>
            && (Page(i, j) in pages ==> l2Pts[i] != 0)
            && Cell(i, j) == if Page(i, j) in pages then pages[Page(i, j)] else dummyPte)
    }

    /** Which L1 slots have a table of their own. */
    function Present(): (s: seq<bool>)
      ensures |s| == |l2Pts|
    {
      seq(|l2Pts|, i requires 0 <= i < |l2Pts| => l2Pts[i] != 0)
    }

    // ----- the two lookups

    /** A 4-byte DMA read of entry `idx` of the table page at bus frame `pfn`; 0 if it faults. */
    function DmaEntry(pfn: nat, idx: nat): nat {
      if pfn in bus && bus[pfn] in ram && idx < |ram[bus[pfn]]| then ram[bus[pfn]][idx] else 0
    }

    /** `ipu4_iova_to_phys`: the device's walk from the programmed L1 frame. */
    function DeviceWalk(l1Pfn: nat, iova: nat): Option<nat> {
      if l1Pfn == 0 then None
      else
        var l2 := DmaEntry(l1Pfn, (iova / 0x40_0000) % PTES);
        if l2 == 0 then None
        else
          var target := DmaEntry(l2, (iova / PAGE_SIZE) % PTES);
          if target == 0 then None else Some(target * PAGE_SIZE + iova % PAGE_SIZE)
    }

    /** `ipu6_mmu_iova_to_phys`: the driver's lookup through the shadow array.  It follows the
        pointer without a NULL check, so the slot must have a table. */
    function ShadowLookup(iova: nat): nat
      requires iova < U32 && |l2Pts| == PTES
      requires IsTable(l2Pts[iova / 0x40_0000])
    {
      ram[l2Pts[iova / 0x40_0000]][(iova / PAGE_SIZE) % PTES] * PAGE_SIZE
    }

    // ----- the two ways the driver changes the tables

    function Store(i: nat, j: nat, e: nat): Tables
      requires i < PTES && j < PTES && |l2Pts| == PTES && IsTable(l2Pts[i])
    {
      var row: seq<nat> := ram[l2Pts[i]][j := e];
      this.(ram := ram[l2Pts[i] := row])
    }

    function Install(i: nat, v: nat, dma: nat): Tables
      requires i < PTES && |l2Pts| == PTES && IsTable(l1Page)
    {
      var row: seq<nat> := ram[l1Page][i := dma];
      this.(ram := ram[v := seq(PTES, _ => dummyPte)][l1Page := row],
            bus := bus[dma := v], l2Pts := l2Pts[i := v])
    }
  }

  lemma PageInjective(i: nat, j: nat, a: nat, b: nat)
    requires j < PTES && b < PTES
    ensures Page(i, j) == Page(a, b) <==> i == a && j == b
    ensures Page(i, j) / PTES == i && Page(i, j) % PTES == j
  {
  }

  /** Writing one entry changes the translation of exactly one IOVA page. */
  lemma StoreKeeps(t: Tables, pages: map<nat, nat>, i: nat, j: nat, e: nat)
    requires t.Represents(pages) && i < PTES && j < PTES && t.l2Pts[i] != 0
    ensures t.SlotOk(i)
    ensures t.Store(i, j, e).Represents(pages[Page(i, j) := e])
    ensures e == t.dummyPte ==> t.Store(i, j, e).Represents(pages - {Page(i, j)})
    ensures t.Store(i, j, e).Present() == t.Present()
  {
    assert t.SlotOk(i);
    var u := t.Store(i, j, e);
    assert u.WellFormed() by {
      forall k | 0 <= k < PTES ensures u.SlotOk(k) { assert t.SlotOk(k); }
      forall a, b | 0 <= a < b < PTES ensures u.Apart(a, b) { assert t.Apart(a, b); }
    }
    forall a, b | 0 <= a < PTES && 0 <= b < PTES
      ensures u.Cell(a, b) == if a == i && b == j then e else t.Cell(a, b)
      ensures Page(a, b) in pages ==> t.l2Pts[a] != 0
    {
      assert t.SlotOk(a) && u.SlotOk(a);
      assert a < i ==> t.Apart(a, i);
      assert i < a ==> t.Apart(i, a);
    }
    forall a, b | 0 <= a < PTES && 0 <= b < PTES
      ensures Page(a, b) == Page(i, j) <==> a == i && b == j
    {
      PageInjective(a, b, i, j);
    }
    assert Page(i, j) < PAGES;
  }

  /** Hanging a fresh table of dummy entries under an empty slot changes no translation. */
  lemma InstallKeeps(t: Tables, pages: map<nat, nat>, i: nat, v: nat, dma: nat)
    requires t.Represents(pages) && i < PTES && t.l2Pts[i] == 0
    requires v != 0 && v !in t.ram && dma != 0 && dma !in t.bus
    ensures t.Install(i, v, dma).Represents(pages)
    ensures t.Install(i, v, dma).Present() == t.Present()[i := true]
  {
    var u := t.Install(i, v, dma);
    assert u.WellFormed() by {
      forall k | 0 <= k < PTES ensures u.SlotOk(k) { assert t.SlotOk(k); }
      forall a, b | 0 <= a < b < PTES ensures u.Apart(a, b) {
        assert t.SlotOk(a) && t.SlotOk(b) && t.Apart(a, b);
      }
    }
    forall a, b | 0 <= a < PTES && 0 <= b < PTES
      ensures u.Cell(a, b) == t.Cell(a, b)
      ensures Page(a, b) in pages ==> u.l2Pts[a] != 0
    {
      assert t.SlotOk(a) && u.SlotOk(a);
    }
  }

  /**
   * The abstract page map, the driver's shadow lookup and the device's hardware walk agree on
   * every IOVA; an unmapped IOVA walks to the dummy page and to nothing else.
   */
  lemma ViewsAgree(t: Tables, pages: map<nat, nat>, iova: nat)
    requires t.Represents(pages) && iova < U32
    ensures
      var p := iova / PAGE_SIZE;
      var off := iova % PAGE_SIZE;
      if p in pages then
        && t.IsTable(t.l2Pts[iova / 0x40_0000])
        && t.ShadowLookup(iova) == pages[p] * PAGE_SIZE
        && t.DeviceWalk(t.l1Dma, iova) ==
             (if pages[p] == 0 then None else Some(t.ShadowLookup(iova) + off))
      else
        t.DeviceWalk(t.l1Dma, iova) == Some(t.dummyPte * PAGE_SIZE + off)
  {
    var i, j := iova / 0x40_0000, (iova / PAGE_SIZE) % PTES;
    assert i == (iova / PAGE_SIZE) / PTES && i < PTES;
    assert Page(i, j) == iova / PAGE_SIZE;
    assert t.SlotOk(i);
    var c := t.Cell(i, j);
  }

  /** In a slot with a table the driver's lookup finds the page map, and the dummy page where it has nothing. */
  lemma ShadowExact(t: Tables, pages: map<nat, nat>, iova: nat)
    requires t.Represents(pages) && iova < U32 && t.l2Pts[iova / 0x40_0000] != 0
    ensures t.IsTable(t.l2Pts[iova / 0x40_0000])
    ensures var p := iova / PAGE_SIZE;
      t.ShadowLookup(iova) == (if p in pages then pages[p] else t.dummyPte) * PAGE_SIZE
  {
    var i, j := iova / 0x40_0000, (iova / PAGE_SIZE) % PTES;
    assert i == (iova / PAGE_SIZE) / PTES && i < PTES;
    assert Page(i, j) == iova / PAGE_SIZE;
    assert t.SlotOk(i);
    var c := t.Cell(i, j);
  }

  /** A mapped page is below 2^32 and its slot has a table. */
  lemma MappedHasTable(t: Tables, pages: map<nat, nat>, p: nat)
    requires t.Represents(pages) && p in pages
    ensures p < PAGES && t.l2Pts[p / PTES] != 0
  {
    assert Page(p / PTES, p % PTES) == p;
    var c := t.Cell(p / PTES, p % PTES);
  }

  // ----- which pages an unmap reaches

  /**
   * The pages `l2_unmap` writes: it is at L1 slot `l1` with `left` pages to go and its IOVA
   * cursor at page `p`.  An absent slot is skipped without moving the cursor, so from then on
   * the pages written lie above the ones asked for.
   */
  function TouchedFrom(present: seq<bool>, l1: nat, p: nat, left: nat): set<nat>
    requires |present| == PTES
    decreases PTES - l1
  {
    if left == 0 || l1 >= PTES then {}
    else if !present[l1] then TouchedFrom(present, l1 + 1, p, left)
    else
      var j := p % PTES;
      var k := if left < PTES - j then left else PTES - j;
      Range(Page(l1, j), k) + TouchedFrom(present, l1 + 1, p + k, left - k)
  }

  /** How many pages one round of the outer loop clears: none in an absent slot. */
  function RowLength(present: seq<bool>, l1: nat, p: nat, left: nat): nat
    requires l1 < |present|
  {
    if !present[l1] then 0 else if left < PTES - p % PTES then left else PTES - p % PTES
  }

  lemma {:induction false} TouchedStep(present: seq<bool>, done: set<nat>, l1: nat, p: nat, left: nat)
    requires |present| == PTES && l1 < PTES && left > 0
    ensures
      var k := RowLength(present, l1, p, left);
      done + TouchedFrom(present, l1, p, left)
        == (done + Range(Page(l1, p % PTES), k)) + TouchedFrom(present, l1 + 1, p + k, left - k)
  {
    assert !present[l1] ==> Range(Page(l1, p % PTES), 0) == {};
  }

  function Touched(present: seq<bool>, start: nat, n: nat): set<nat>
    requires |present| == PTES
  {
    TouchedFrom(present, start / PTES, start, n)
  }

  /** Every L1 slot that the pages [start, start + n) fall in has a table. */
  ghost predicate AllPresent(present: seq<bool>, start: nat, n: nat)
    requires |present| == PTES
  {
    0 < n ==> forall s :: start / PTES <= s < PTES && s * PTES < start + n ==> present[s]
  }

  lemma {:induction false} TouchedIsRange(present: seq<bool>, start: nat, n: nat)
    requires |present| == PTES && AllPresent(present, start, n)
    ensures Touched(present, start, n) == Range(start, Clip(start, n))
    decreases n
  {
    if n != 0 && start < PAGES {
      var l1, j := start / PTES, start % PTES;
      assert Page(l1, j) == start && l1 * PTES <= start;
      var k := if n < PTES - j then n else PTES - j;
      if n == k {
        assert TouchedFrom(present, l1 + 1, start + k, 0) == {};
      } else {
        assert (start + k) / PTES == l1 + 1;
        TouchedIsRange(present, start + k, n - k);
      }
    }
  }

  /** Whatever lies behind them, the pages of a prefix whose slots all have tables are cleared. */
  lemma {:induction false} TouchedCoversPrefix(present: seq<bool>, start: nat, k: nat, n: nat)
    requires |present| == PTES && k <= n && start + k <= PAGES && AllPresent(present, start, k)
    ensures Range(start, k) <= Touched(present, start, n)
    decreases k
  {
    if k != 0 {
      var l1, j := start / PTES, start % PTES;
      assert Page(l1, j) == start && l1 * PTES <= start;
      var row := if n < PTES - j then n else PTES - j;
      if k > row {
        assert (start + row) / PTES == l1 + 1;
        TouchedCoversPrefix(present, start + row, k - row, n - row);
        assert Range(start, k) == Range(start, row) + Range(start + row, k - row);
      } else {
        assert Range(start, k) <= Range(start, row);
      }
    }
  }

  /** A range of mapped pages has a table in every slot, so unmapping it is exact. */
  lemma MappedIsPresent(t: Tables, pages: map<nat, nat>, start: nat, n: nat)
    requires t.Represents(pages) && Range(start, n) <= pages.Keys
    ensures AllPresent(t.Present(), start, n)
    ensures Touched(t.Present(), start, n) == Range(start, n)
  {
    forall s | 0 < n && start / PTES <= s < PTES && s * PTES < start + n ensures t.Present()[s] {
      var p := if start < s * PTES then s * PTES else start;
      assert p in Range(start, n) && Page(s, p % PTES) == p;
      var c := t.Cell(s, p % PTES);
    }
    TouchedIsRange(t.Present(), start, n);
    if n != 0 { assert start + n - 1 in Range(start, n); }
  }

  /** The pages of the range that some table could hold a mapping for. */
  function Wanted(present: seq<bool>, lo: nat, end: nat): set<nat>
    requires |present| == PTES
  {
    set p | lo <= p < PAGES && p < end && present[p / PTES]
  }

  /**
   * What a caller can check before unmapping [start, start + n): an absent slot inside the range
   * is harmless only if every table above it lies wholly inside the range, and, when the absent
   * slot is the first one, the range starts on a slot boundary (or there is no table above).
   */
  ghost predicate UnmapSafe(present: seq<bool>, start: nat, n: nat)
    requires |present| == PTES
  {
    forall s, t :: start / PTES <= s < t < PTES && s * PTES < start + n && 0 < n && !present[s] && present[t] ==>
      Page(t, PTES) <= start + n && (s == start / PTES ==> start % PTES == 0)
  }

  lemma {:induction false} TouchedAbove(present: seq<bool>, l1: nat, p: nat, left: nat)
    requires |present| == PTES
    ensures forall q :: q in TouchedFrom(present, l1, p, left) ==> l1 * PTES <= q < PAGES
    decreases PTES - l1
  {
    if left != 0 && l1 < PTES {
      if !present[l1] {
        TouchedAbove(present, l1 + 1, p, left);
      } else {
        var j := p % PTES;
        var k := if left < PTES - j then left else PTES - j;
        TouchedAbove(present, l1 + 1, p + k, left - k);
      }
    }
  }

  lemma DisjointCancel(r: set<nat>, a: set<nat>, b: set<nat>)
    requires r !! a && r !! b
    ensures r + a == r + b <==> a == b
  {
    if r + a == r + b {
      assert a == (r + a) - r && b == (r + b) - r;
    }
  }

  /** The check on a range whose first slot is present is the check on the rest. */
  lemma UnmapSafeStep(present: seq<bool>, p: nat, left: nat, k: nat)
    requires |present| == PTES && p / PTES < PTES && present[p / PTES]
    requires k == PTES - p % PTES && k < left
    ensures UnmapSafe(present, p, left) <==> UnmapSafe(present, p + k, left - k)
  {
    assert (p + k) / PTES == p / PTES + 1 && (p + k) % PTES == 0;
  }

  /** Behind by whole slots: right exactly when every remaining table lies inside the range. */
  lemma {:induction false} TouchedBehindAligned(present: seq<bool>, l1: nat, p: nat, left: nat, end: nat)
    requires |present| == PTES && l1 <= PTES && p % PTES == 0
    requires left > 0 && left + l1 * PTES > end
    ensures TouchedFrom(present, l1, p, left) == Wanted(present, l1 * PTES, end)
       <==> forall t :: l1 <= t < PTES && present[t] ==> Page(t, PTES) <= end
    decreases PTES - l1
  {
    var T := TouchedFrom(present, l1, p, left);
    var W := Wanted(present, l1 * PTES, end);
    if l1 < PTES {
      var W' := Wanted(present, (l1 + 1) * PTES, end);
      if !present[l1] {
        TouchedBehindAligned(present, l1 + 1, p, left, end);
        assert W == W' by {
          forall q | q in W ensures q in W' { assert q / PTES != l1; }
        }
      } else if Page(l1, PTES) <= end {
        assert T == Range(Page(l1, 0), PTES) + TouchedFrom(present, l1 + 1, p + PTES, left - PTES);
        TouchedBehindAligned(present, l1 + 1, p + PTES, left - PTES, end);
        TouchedAbove(present, l1 + 1, p + PTES, left - PTES);
        assert W == Range(Page(l1, 0), PTES) + W' by {
          forall q | q in Range(Page(l1, 0), PTES) ensures q in W { assert q / PTES == l1; }
        }
        DisjointCancel(Range(Page(l1, 0), PTES), TouchedFrom(present, l1 + 1, p + PTES, left - PTES), W');
      } else {
        var q := if end >= l1 * PTES then end else l1 * PTES;
        assert q in Range(Page(l1, 0), if left < PTES then left else PTES);
        assert q in T && q !in W;
      }
    }
  }

  /** Behind with a cursor inside a slot: right exactly when there is nothing left to unmap. */
  lemma {:induction false} TouchedBehindOffset(present: seq<bool>, l1: nat, p: nat, left: nat, end: nat)
    requires |present| == PTES && l1 <= PTES && p % PTES != 0
    requires left > 0
    ensures TouchedFrom(present, l1, p, left) == Wanted(present, l1 * PTES, end)
       <==> forall t :: l1 <= t < PTES ==> !present[t]
    decreases PTES - l1
  {
    var T := TouchedFrom(present, l1, p, left);
    var W := Wanted(present, l1 * PTES, end);
    if l1 < PTES {
      if !present[l1] {
        TouchedBehindOffset(present, l1 + 1, p, left, end);
        assert W == Wanted(present, (l1 + 1) * PTES, end) by {
          forall q | q in W ensures q in Wanted(present, (l1 + 1) * PTES, end) { assert q / PTES != l1; }
        }
      } else {
        var j := p % PTES;
        var k := if left < PTES - j then left else PTES - j;
        TouchedAbove(present, l1 + 1, p + k, left - k);
        assert Page(l1, j) in Range(Page(l1, j), k);
        var low := Page(l1, 0);
        assert T == Range(Page(l1, j), k) + TouchedFrom(present, l1 + 1, p + k, left - k);
        assert low !in T && Page(l1, j) in T;
        if low < end {
          assert low / PTES == l1;
          assert low in W;
        } else {
          assert Page(l1, j) !in W;
        }
      }
    }
  }

  lemma {:induction false} UnmapExactAbsent(present: seq<bool>, p: nat, left: nat)
    requires |present| == PTES && 0 < left && p / PTES < PTES && !present[p / PTES]
    ensures Touched(present, p, left) == Wanted(present, p, p + left) <==> UnmapSafe(present, p, left)
  {
    var l1 := p / PTES;
    var W, W' := Wanted(present, p, p + left), Wanted(present, (l1 + 1) * PTES, p + left);
    assert W == W' by {
      forall q | q in W ensures q in W' { assert q / PTES != l1; }
    }
    if p % PTES == 0 {
      TouchedBehindAligned(present, l1 + 1, p, left, p + left);
    } else {
      TouchedBehindOffset(present, l1 + 1, p, left, p + left);
    }
  }

  /** The pages of a present slot are wanted as a whole. */
  lemma {:induction false} WantedRow(present: seq<bool>, p: nat, k: nat, end: nat)
    requires |present| == PTES && p / PTES < PTES && present[p / PTES] && p % PTES + k <= PTES && p + k <= end
    ensures Wanted(present, p, end) == Range(p, k) + Wanted(present, p + k, end)
    ensures Range(p, k) !! Wanted(present, p + k, end)
  {
    forall q | q in Range(p, k) ensures q in Wanted(present, p, end) { assert q / PTES == p / PTES; }
  }

  /**
   * `l2_unmap` clears exactly the requested pages, whatever those tables hold, if and only if the
   * caller's check `UnmapSafe` holds.
   */
  lemma {:induction false} UnmapExactIff(present: seq<bool>, p: nat, left: nat)
    requires |present| == PTES
    ensures Touched(present, p, left) == Wanted(present, p, p + left) <==> UnmapSafe(present, p, left)
    decreases left
  {
    var l1, j := p / PTES, p % PTES;
    if left == 0 || l1 >= PTES {
      assert Wanted(present, p, p + left) == {};
    } else if !present[l1] {
      UnmapExactAbsent(present, p, left);
    } else {
      var k := if left < PTES - j then left else PTES - j;
      var T', W' := TouchedFrom(present, l1 + 1, p + k, left - k), Wanted(present, p + k, p + left);
      assert Page(l1, j) == p;
      WantedRow(present, p, k, p + left);
      if k == left {
        assert T' == {} && W' == {};
      } else {
        assert (p + k) / PTES == l1 + 1 && (p + k) % PTES == 0;
        UnmapExactIff(present, p + k, left - k);
        TouchedAbove(present, l1 + 1, p + k, left - k);
        DisjointCancel(Range(p, k), T', W');
        UnmapSafeStep(present, p, left, k);
      }
    }
  }

  // ----- when an unmap stays inside its range

  /** Every table from slot `l1` on lies below `end`. */
  ghost predicate TablesBelow(present: seq<bool>, l1: nat, end: nat)
    requires |present| == PTES
  {
    forall t :: l1 <= t < PTES && present[t] ==> Page(t, PTES) <= end
  }

  ghost predicate Below(pages: set<nat>, end: nat) {
    forall q :: q in pages ==> q < end
  }

  lemma {:induction false} TablesBelowStep(present: seq<bool>, l1: nat, end: nat)
    requires |present| == PTES && l1 < PTES
    ensures TablesBelow(present, l1, end)
       <==> (present[l1] ==> Page(l1, PTES) <= end) && TablesBelow(present, l1 + 1, end)
  {
    if TablesBelow(present, l1 + 1, end) && (present[l1] ==> Page(l1, PTES) <= end) {
      forall t | l1 <= t < PTES && present[t] ensures Page(t, PTES) <= end {
        assert t == l1 || l1 + 1 <= t;
      }
    }
  }

  /** Behind by whole slots: nothing from `end` on is written exactly when every remaining table lies below. */
  lemma {:induction false} BehindStays(present: seq<bool>, l1: nat, p: nat, left: nat, end: nat)
    requires |present| == PTES && l1 <= PTES && p % PTES == 0
    requires left > 0 && left + l1 * PTES > end
    ensures Below(TouchedFrom(present, l1, p, left), end) <==> TablesBelow(present, l1, end)
    decreases PTES - l1
  {
    if l1 < PTES {
      TablesBelowStep(present, l1, end);
      var T := TouchedFrom(present, l1, p, left);
      if !present[l1] {
        BehindStays(present, l1 + 1, p, left, end);
      } else if Page(l1, PTES) <= end {
        var T' := TouchedFrom(present, l1 + 1, p + PTES, left - PTES);
        assert T == Range(Page(l1, 0), PTES) + T';
        BehindStays(present, l1 + 1, p + PTES, left - PTES, end);
        assert Below(Range(Page(l1, 0), PTES), end);
      } else {
        var q := if end >= l1 * PTES then end else l1 * PTES;
        assert q in Range(Page(l1, 0), if left < PTES then left else PTES);
        assert q in T;
      }
    }
  }

  /** The check on an aligned range whose first slot is absent. */
  lemma {:induction false} UnmapSafeBehind(present: seq<bool>, p: nat, left: nat)
    requires |present| == PTES && p / PTES < PTES && p % PTES == 0 && 0 < left && !present[p / PTES]
    ensures UnmapSafe(present, p, left) <==> TablesBelow(present, p / PTES + 1, p + left)
  {
    assert p / PTES * PTES == p;
  }

  /** Behind its first slot, which has a table, the range is a slot-aligned range of its own. */
  lemma {:induction false} UnmapStaysStep(present: seq<bool>, p: nat, left: nat, k: nat)
    requires |present| == PTES && p / PTES + 1 < PTES && present[p / PTES] && k == PTES - p % PTES && k < left
    ensures Touched(present, p, left) <= Range(p, left) <==> Touched(present, p + k, left - k) <= Range(p + k, left - k)
    ensures UnmapSafe(present, p, left) <==> UnmapSafe(present, p + k, left - k)
  {
    var l1 := p / PTES;
    assert Page(l1, p % PTES) == p && (p + k) / PTES == l1 + 1;
    var T' := Touched(present, p + k, left - k);
    assert Touched(present, p, left) == Range(p, k) + T';
    TouchedAbove(present, l1 + 1, p + k, left - k);
    UnmapSafeStep(present, p, left, k);
  }

  lemma {:induction false} UnmapStaysAbsent(present: seq<bool>, p: nat, left: nat)
    requires |present| == PTES && p / PTES < PTES && p % PTES == 0 && 0 < left && !present[p / PTES]
    ensures Touched(present, p, left) <= Range(p, left) <==> UnmapSafe(present, p, left)
  {
    var l1 := p / PTES;
    UnmapSafeBehind(present, p, left);
    BehindStays(present, l1 + 1, p, left, p + left);
    TouchedAbove(present, l1 + 1, p, left);
    assert Touched(present, p, left) <= Range(p, left) <==> Below(Touched(present, p, left), p + left);
  }

  /**
   * Unmapping a range that begins with a table writes no page outside the range if and only if
   * `UnmapSafe` holds.
   */
  lemma {:induction false} UnmapStaysIff(present: seq<bool>, p: nat, left: nat)
    requires |present| == PTES && (p / PTES < PTES ==> present[p / PTES])
    ensures Touched(present, p, left) <= Range(p, left) <==> UnmapSafe(present, p, left)
    decreases left
  {
    var l1, j := p / PTES, p % PTES;
    if left != 0 && l1 < PTES {
      var k := if left < PTES - j then left else PTES - j;
      assert Page(l1, j) == p;
      if k == left || l1 + 1 == PTES {
        assert Touched(present, p, left) == Range(p, k) + TouchedFrom(present, l1 + 1, p + k, left - k);
        assert TouchedFrom(present, l1 + 1, p + k, left - k) == {};
      } else {
        UnmapStaysStep(present, p, left, k);
        assert (p + k) / PTES == l1 + 1 && (p + k) % PTES == 0;
        if present[l1 + 1] { UnmapStaysIff(present, p + k, left - k); }
        else { UnmapStaysAbsent(present, p + k, left - k); }
      }
    }
  }

  /** Slot 0 absent, slot 1 present: asking to unmap page 0 clears page 1024 of another mapping. */
  lemma UnmapSkipsToNextTable(present: seq<bool>)
    requires |present| == PTES && !present[0] && present[1]
    ensures Touched(present, 0, 1) == {1024}
    ensures !UnmapSafe(present, 0, 1)
  {
    assert TouchedFrom(present, 0, 0, 1) == TouchedFrom(present, 1, 0, 1);
    assert TouchedFrom(present, 2, 1, 0) == {};
    assert Page(1, PTES) == 2048;
  }

  // ----- runs of calls

  datatype Call = MapCall(iova: nat, paddr: nat, size: nat) | UnmapCall(iova: nat, size: nat)

  /** What one call did to the page map. */
  datatype Effect = Nothing | Added(start: nat, pfn: nat, count: nat) | Cleared(which: set<nat>)

  function Apply(pages: map<nat, nat>, e: Effect): map<nat, nat> {
    match e
    case Nothing => pages
    case Added(start, pfn, count) => Extend(pages, start, pfn, count)
    case Cleared(which) => pages - which
  }

  function Replay(pages: map<nat, nat>, log: seq<Effect>): map<nat, nat> {
    if log == [] then pages else Apply(Replay(pages, log[..|log| - 1]), log[|log| - 1])
  }

  predicate Aligned(x: nat) { x % PAGE_SIZE == 0 }

  /**
   * What a call did, given the page map and the slots with tables at that moment.  An unmap clears
   * what its cursor reaches, which is the range whenever the range was mapped; a map adds the range,
   * or, if a slot of it lacks a table, may clear the part it had written.
   */
  ghost predicate Explains(c: Call, pages: map<nat, nat>, present: seq<bool>, e: Effect) {
    |present| == PTES &&
    match c
    case MapCall(iova, paddr, size) =>
      var start, n := (iova / PAGE_SIZE) % PAGES, size / PAGE_SIZE;
      if !(Aligned(iova) && Aligned(paddr) && Aligned(size)) then e == Nothing
      else
        || e == Added(start, paddr / PAGE_SIZE, Clip(start, n))
        || (!AllPresent(present, start, n) && exists k: nat :: k < n && e == Cleared(Range(start, k)))
    case UnmapCall(iova, size) =>
      var start, n := iova / PAGE_SIZE, size / PAGE_SIZE;
      if !(Aligned(iova) && Aligned(size)) then e == Nothing
      else
        && e == Cleared(Touched(present, start, n))
        && (Range(start, n) <= pages.Keys ==> e == Cleared(Range(start, n)))
  }

  /** Call `i` of a run explained in the state it found; tables are only added, and only by maps. */
  ghost predicate Explained(calls: seq<Call>, pages: map<nat, nat>, log: seq<Effect>, tables: seq<seq<bool>>, i: nat)
    requires i < |calls| && i < |log| && i + 1 < |tables|
  {
    && Explains(calls[i], Replay(pages, log[..i]), tables[i], log[i])
    && Grown(tables[i], tables[i + 1]) && (calls[i].UnmapCall? ==> tables[i + 1] == tables[i])
  }

  /** Mapping an unmapped range and unmapping it again gives back the page map, whatever happened before. */
  lemma {:induction false} MapThenUnmap(
    calls: seq<Call>, pages: map<nat, nat>, log: seq<Effect>, tables: seq<seq<bool>>, i: nat)
    requires i + 1 < |calls| && i + 1 < |log| && i + 2 < |tables|
    requires Explained(calls, pages, log, tables, i) && Explained(calls, pages, log, tables, i + 1)
    requires calls[i].MapCall? && calls[i + 1] == UnmapCall(calls[i].iova, calls[i].size)
    requires var c := calls[i]; Aligned(c.iova) && Aligned(c.paddr) && Aligned(c.size) && c.iova + c.size <= U32
    requires Replay(pages, log[..i]).Keys !! Range(calls[i].iova / PAGE_SIZE, calls[i].size / PAGE_SIZE)
    requires log[i].Added?
    ensures Replay(pages, log[..i + 2]) == Replay(pages, log[..i])
  {
    var start, n := calls[i].iova / PAGE_SIZE, calls[i].size / PAGE_SIZE;
    var before := Replay(pages, log[..i]);
    assert log[..i + 1][..i] == log[..i] && log[..i + 2][..i + 1] == log[..i + 1];
    if n == 0 {
      assert Range(start, n) == {};
    } else {
      assert start + n <= PAGES && start < PAGES;
    }
    var pfn := calls[i].paddr / PAGE_SIZE;
    assert Clip(start % PAGES, n) == n && (n > 0 ==> start % PAGES == start);
    ExtendAt(before, start, pfn, n);
    ExtendThenClear(before, start, pfn, n);
    ClearUnmapped(before, Range(start, n));
  }

  /**
   * A failed map of a range that was unmapped changes nothing: clearing pages outside the map is
   * the identity.
   */
  lemma ClearUnmapped(pages: map<nat, nat>, which: set<nat>)
    requires pages.Keys !! which
    ensures pages - which == pages
  {
  }

  /** One more call at the end of a run leaves the explanation of the earlier ones as it is. */
  lemma {:induction false} ExtendLog(calls: seq<Call>, pages: map<nat, nat>, log: seq<Effect>, tables: seq<seq<bool>>,
                                     e: Effect, after: seq<bool>)
    requires |log| < |calls| && |tables| == |log| + 1
    requires forall i :: 0 <= i < |log| ==> Explained(calls, pages, log, tables, i)
    requires var k := |log|; Explains(calls[k], Replay(pages, log), tables[k], e)
    requires var k := |log|; Grown(tables[k], after) && (calls[k].UnmapCall? ==> after == tables[k])
    ensures forall i :: 0 <= i <= |log| ==> Explained(calls, pages, log + [e], tables + [after], i)
    ensures Replay(pages, log + [e]) == Apply(Replay(pages, log), e)
  {
    var k := |log|;
    assert (log + [e])[..k] == log;
    forall i | 0 <= i <= k ensures Explained(calls, pages, log + [e], tables + [after], i) {
      if i < k {
        assert Explained(calls, pages, log, tables, i);
        assert (log + [e])[..i] == log[..i];
      }
    }
  }

  /** Tables are only ever added. */
  ghost predicate Grown(before: seq<bool>, after: seq<bool>) {
    |before| == |after| && forall s :: 0 <= s < |before| && before[s] ==> after[s]
  }

  /** A row ends the request or the slot. */
  lemma RowEnd(p: nat, left: nat, k: nat)
    requires p < PAGES && k == if left < PTES - p % PTES then left else PTES - p % PTES
    ensures Page(p / PTES, p % PTES) == p && p + k <= PAGES
    ensures k < left ==> p / PTES + 1 == (p + k) / PTES && (p / PTES + 1 >= PTES ==> p + k == PAGES)
  {
  }

  /** `struct ipu6_mmu_info`. */
  class MmuInfo {
    const l1Page: nat
    const l1Dma: nat
    const dummyL2Page: nat
    const dummyL2Dma: nat
    const dummyPte: nat
    var ram: map<nat, seq<nat>>
    var bus: map<nat, nat>
    var l2Pts: seq<nat>
    /** The host's other DMA mappings: which page each bus frame of a buffer reaches. */
    var pci: map<nat, nat>
    /** The partial map the tables stand for. */
    ghost var pages: map<nat, nat>
    /** History: how often the kernel has refused a page or a DMA mapping. */
    ghost var refusals: nat

    function State(): Tables
      reads this
    {
      Tables(l1Page, l1Dma, dummyL2Page, dummyL2Dma, dummyPte, ram, bus, l2Pts)
    }

    ghost predicate Valid()
      reads this
    {
      State().Represents(pages) && Separate()
    }

    /** No buffer shares a bus frame with a table, and nothing shares the dummy page's. */
    ghost predicate Separate()
      reads this
    {
      dummyPte !in bus && dummyPte !in pci && 0 !in pci && forall f :: f in pci ==> f !in bus
    }

    function Present(): (s: seq<bool>)
      reads this
      ensures |s| == |l2Pts|
    {
      State().Present()
    }

    /** `ipu6_mmu_alloc`: dummy page, dummy L2 table, L1 table; all five pages already obtained. */
    constructor (l1Page: nat, l1Dma: nat, dummyL2Page: nat, dummyL2Dma: nat, dummyPte: nat)
      requires l1Page != 0 && dummyL2Page != 0 && l1Page != dummyL2Page
      requires l1Dma != 0 && dummyL2Dma != 0 && dummyPte != 0
      requires l1Dma != dummyL2Dma && dummyPte != l1Dma && dummyPte != dummyL2Dma
      ensures Valid() && pages == map[] && pci == map[]
      ensures this.l1Dma == l1Dma && this.dummyPte == dummyPte
    {
      this.l1Page, this.l1Dma, this.dummyL2Page, this.dummyL2Dma, this.dummyPte :=
        l1Page, l1Dma, dummyL2Page, dummyL2Dma, dummyPte;
      ram := map[l1Page := seq(PTES, _ => dummyL2Dma), dummyL2Page := seq(PTES, _ => dummyPte)];
      bus := map[l1Dma := l1Page, dummyL2Dma := dummyL2Page];
      l2Pts := seq(PTES, _ => 0);
      pci, pages := map[], map[];
    }

    /** A fresh page from the page allocator, or 0. */
    method GetZeroedPage() returns (v: nat)
      modifies this`refusals
      ensures if v == 0 then refusals == old(refusals) + 1 else v !in ram && refusals == old(refusals)
    {
      v := *;
      if v == 0 || v in ram { v, refusals := 0, refusals + 1; }
    }

    /** `map_single`: a bus frame for a page, or 0 on a mapping error. */
    method MapSingle() returns (dma: nat)
      modifies this`refusals
      ensures dma == 0 ==> refusals == old(refusals) + 1
      ensures dma != 0 ==> dma !in bus && dma !in pci && dma != dummyPte && dma < U32 && refusals == old(refusals)
    {
      dma := *;
      if dma in bus || dma in pci || dma == dummyPte || dma >= U32 { dma := 0; }
      if dma == 0 { refusals := refusals + 1; }
    }

    /** `l2_pt[l2_idx] = paddr >> ISP_PADDR_SHIFT`. */
    method StoreEntry(i: nat, j: nat, e: nat)
      requires Valid() && i < PTES && j < PTES && l2Pts[i] != 0
      modifies this`ram, this`pages
      ensures Valid() && Present() == old(Present())
      ensures pages == old(pages)[Page(i, j) := e]
    {
      StoreKeeps(State(), pages, i, j, e);
      var row: seq<nat> := ram[l2Pts[i]][j := e];
      ram := ram[l2Pts[i] := row];
      pages := pages[Page(i, j) := e];
    }

    /** `l2_pt[l2_idx] = mmu_info->dummy_page_pteval`. */
    method ClearEntry(i: nat, j: nat)
      requires Valid() && i < PTES && j < PTES && l2Pts[i] != 0
      modifies this`ram, this`pages
      ensures Valid() && Present() == old(Present())
      ensures pages == old(pages) - {Page(i, j)}
    {
      StoreKeeps(State(), pages, i, j, dummyPte);
      var row: seq<nat> := ram[l2Pts[i]][j := dummyPte];
      ram := ram[l2Pts[i] := row];
      pages := pages - {Page(i, j)};
    }

    /** The part of `l2_map` that gives slot `l1` a table when it has none. */
    method EnsureTable(l1: nat) returns (err: Errno)
      requires Valid() && l1 < PTES
      modifies this`ram, this`bus, this`l2Pts, this`refusals
      ensures Valid() && pages == old(pages)
      ensures err == Ok ==> l2Pts[l1] != 0 && Present() == old(Present())[l1 := true] && refusals == old(refusals)
      ensures err != Ok ==> State() == old(State()) && !Present()[l1] && refusals > old(refusals)
    {
      assert State().SlotOk(l1);
      err := Ok;
      if ram[l1Page][l1] == dummyL2Dma {
        var v := GetZeroedPage();
        if v == 0 { return ENOMEM; }
        var pt: seq<nat> := [];
        while |pt| < PTES
          invariant |pt| <= PTES && forall k :: 0 <= k < |pt| ==> pt[k] == dummyPte
        {
          pt := pt + [dummyPte];
        }
        var dma := MapSingle();
        if dma == 0 { return EINVAL; }
        InstallKeeps(State(), pages, l1, v, dma);
        assert pt == seq(PTES, _ => dummyPte);
        var row: seq<nat> := ram[l1Page][l1 := dma];
        ram := ram[v := pt][l1Page := row];
        bus := bus[dma := v];
        l2Pts := l2Pts[l1 := v];
      }
    }

    /** `mmu_info->l1_pt[l1_idx] != mmu_info->dummy_l2_pteval`. */
    method HasTable(l1: nat) returns (b: bool)
      requires Valid() && l1 < PTES
      ensures b == Present()[l1] == (l2Pts[l1] != 0)
    {
      assert State().SlotOk(l1);
      b := ram[l1Page][l1] != dummyL2Dma;
    }

    /** The inner loop of `l2_unmap`: clears entries of slot `l1` from index `j0` on. */
    method ClearRow(l1: nat, j0: nat, left: nat) returns (k: nat)
      requires Valid() && l1 < PTES && j0 < PTES && l2Pts[l1] != 0
      modifies this`ram, this`pages
      ensures Valid() && Present() == old(Present())
      ensures k == if left < PTES - j0 then left else PTES - j0
      ensures pages == old(pages) - Range(Page(l1, j0), k)
    {
      k := 0;
      while k < left && j0 + k < PTES
        invariant k <= left && j0 + k <= PTES
        invariant Valid() && Present() == old(Present())
        invariant pages == old(pages) - Range(Page(l1, j0), k)
      {
        ClearEntry(l1, j0 + k);
        assert Range(Page(l1, j0), k + 1) == Range(Page(l1, j0), k) + {Page(l1, j0 + k)};
        k := k + 1;
      }
    }

    /** The body of the outer loop of `l2_unmap`; an absent slot is skipped. */
    method ClearSlot(l1: nat, p: nat, left: nat) returns (k: nat)
      requires Valid() && l1 < PTES
      modifies this`ram, this`pages
      ensures Valid() && Present() == old(Present())
      ensures k == RowLength(Present(), l1, p, left)
      ensures pages == old(pages) - Range(Page(l1, p % PTES), k)
    {
      var mapped := HasTable(l1);
      if !mapped {
        assert Range(Page(l1, p % PTES), 0) == {};
        return 0;
      }
      k := ClearRow(l1, p % PTES, left);
    }

    /** One round of that loop: what was cleared so far and what is still ahead make up `goal`. */
    method UnmapSlot(l1: nat, p: nat, left: nat, ghost all: map<nat, nat>, ghost done: set<nat>, ghost goal: set<nat>)
      returns (p': nat, left': nat, ghost done': set<nat>)
      requires Valid() && l1 < PTES && left > 0 && pages == all - done &&
        goal == done + TouchedFrom(Present(), l1, p, left)
      modifies this`ram, this`pages
      ensures Valid() && Present() == old(Present())
      ensures pages == all - done' && goal == done' + TouchedFrom(Present(), l1 + 1, p', left')
    {
      TouchedStep(Present(), done, l1, p, left);
      var k := ClearSlot(l1, p, left);
      done' := done + Range(Page(l1, p % PTES), k);
      p', left' := p + k, left - k;
    }

    /**
     * `l2_unmap` on page numbers: clears exactly the pages of `Touched`, which is the requested
     * range whenever every L1 slot of the range has a table (`TouchedIsRange`).
     */
    method L2Unmap(start: nat, n: nat)
      requires Valid()
      modifies this`ram, this`pages
      ensures Valid() && Present() == old(Present())
      ensures pages == old(pages) - Touched(Present(), start, n)
    {
      ghost var present, all := Present(), pages;
      ghost var goal, done: set<nat> := Touched(present, start, n), {};
      var p: nat, left: nat, l1: nat := start, n, start / PTES;
      while left > 0 && l1 < PTES
        invariant Valid() && Present() == present && pages == all - done
        invariant goal == done + TouchedFrom(present, l1, p, left)
        decreases PTES - l1
      {
        p, left, done := UnmapSlot(l1, p, left, all, done, goal);
        l1 := l1 + 1;
      }
      assert TouchedFrom(present, l1, p, left) == {};
      assert goal == done;
    }

    /** The inner loop of `l2_map`: writes entries of slot `l1` from index `j0` on. */
    method FillRow(l1: nat, j0: nat, pfn: nat, left: nat) returns (k: nat)
      requires Valid() && l1 < PTES && j0 < PTES && l2Pts[l1] != 0
      modifies this`ram, this`pages
      ensures Valid() && Present() == old(Present())
      ensures k == if left < PTES - j0 then left else PTES - j0
      ensures pages == Extend(old(pages), Page(l1, j0), pfn, k)
    {
      k := 0;
      while k < left && j0 + k < PTES
        invariant k <= left && j0 + k <= PTES
        invariant Valid() && Present() == old(Present())
        invariant pages == Extend(old(pages), Page(l1, j0), pfn, k)
      {
        StoreEntry(l1, j0 + k, Pte(pfn + k));
        k := k + 1;
      }
    }

    /** One round of the loop of `l2_map`: the pages of the request in the slot of page `p`. */
    method MapRow(p: nat, pfn: nat, left: nat) returns (err: Errno, k: nat)
      requires Valid() && p < PAGES
      modifies this`ram, this`bus, this`l2Pts, this`pages, this`refusals
      ensures Valid() && pages == Extend(old(pages), p, pfn, k)
      ensures Grown(old(Present()), Present())
      ensures if err == Ok then refusals == old(refusals) else !old(Present())[p / PTES] && refusals > old(refusals)
      ensures k <= left && p + k <= PAGES && (err != Ok ==> k == 0)
      ensures err == Ok && k < left ==> p / PTES + 1 == (p + k) / PTES && (p / PTES + 1 >= PTES ==> p + k == PAGES)
    {
      var l1 := p / PTES;
      err := EnsureTable(l1);
      if err != Ok {
        k := 0;
        return;
      }
      assert Page(l1, p % PTES) == p;
      k := FillRow(l1, p % PTES, pfn, left);
      RowEnd(p, left, k);
    }

    /** The loop of `l2_map`: maps a prefix of the range, all of it unless a table is missing. */
    method MapRows(start: nat, pfn: nat, n: nat) returns (err: Errno, mapped: nat)
      requires Valid() && start < PAGES
      modifies this`ram, this`bus, this`l2Pts, this`pages, this`refusals
      ensures Valid() && pages == Extend(old(pages), start, pfn, mapped)
      ensures if err == Ok then mapped == Clip(start, n) else mapped < n && start + mapped < PAGES
      ensures Grown(old(Present()), Present()) && |old(Present())| == PTES
      ensures if err == Ok then refusals == old(refusals)
              else !old(Present())[(start + mapped) / PTES] && refusals > old(refusals)
    {
      ghost var was, all := Present(), pages;
      var p: nat, left: nat, l1: nat := start, n, start / PTES;
      err, mapped := Ok, 0;
      while left > 0 && l1 < PTES
        invariant err == Ok && p == start + mapped && mapped + left == n && p <= PAGES
        invariant left > 0 && l1 < PTES ==> l1 == p / PTES
        invariant left > 0 && l1 >= PTES ==> p == PAGES
        invariant Valid() && pages == Extend(all, start, pfn, mapped)
        invariant Grown(was, Present()) && refusals == old(refusals)
        decreases PTES - l1
      {
        var k;
        err, k := MapRow(start + mapped, pfn + mapped, left);
        ExtendJoin(all, start, pfn, mapped, k);
        mapped := mapped + k;
        if err != Ok { return; }
        p, left, l1 := p + k, left - k, l1 + 1;
      }
    }

    /**
     * `l2_map` on page numbers.  Success maps every page of the range below 2^32; failure leaves
     * the map as it was except that the `done` pages already written are cleared again.  It fails
     * only for want of a table, and only if the kernel refused one.
     */
    method L2Map(start: nat, pfn: nat, n: nat) returns (err: Errno, ghost done: nat)
      requires Valid() && start < PAGES
      modifies this`ram, this`bus, this`l2Pts, this`pages, this`refusals
      ensures Valid()
      ensures err == Ok ==> pages == Extend(old(pages), start, pfn, Clip(start, n))
      ensures err != Ok ==> done < n && pages == old(pages) - Range(start, done)
      ensures AllPresent(old(Present()), start, n) ==> err == Ok
      ensures Grown(old(Present()), Present())
      ensures if err == Ok then refusals == old(refusals) else refusals > old(refusals)
    {
      var mapped;
      err, mapped := MapRows(start, pfn, n);
      done := mapped;
      if err != Ok {
        if mapped > 0 {
          ExtendAt(old(pages), start, pfn, mapped);
          MappedIsPresent(State(), pages, start, mapped);
          L2Unmap(start + mapped - mapped, mapped);
        }
        ExtendThenClear(old(pages), start, pfn, mapped);
        assert mapped == 0 ==> Range(start, mapped) == {};
      }
    }

    /** `ipu6_mmu_iova_to_phys`, which follows the slot's table pointer without a NULL check. */
    method IovaToPhys(iova: nat) returns (phys: nat)
      requires Valid() && iova < U32 && l2Pts[iova / 0x40_0000] != 0
      ensures phys == (if iova / PAGE_SIZE in pages then pages[iova / PAGE_SIZE] else dummyPte) * PAGE_SIZE
    {
      ShadowExact(State(), pages, iova);
      var l2 := l2Pts[iova / 0x40_0000];
      phys := ram[l2][(iova / PAGE_SIZE) % PTES] * PAGE_SIZE;
    }

    /** `ipu6_mmu_map`: a range that was unmapped is mapped in full or left untouched. */
    method Map(iova: nat, paddr: nat, size: nat) returns (err: Errno, ghost e: Effect)
      requires Valid()
      modifies this`ram, this`bus, this`l2Pts, this`pages, this`refusals
      ensures Valid()
      ensures Explains(MapCall(iova, paddr, size), old(pages), old(Present()), e) && pages == Apply(old(pages), e)
      ensures Grown(old(Present()), Present())
      ensures err == Ok <==> e.Added?
      ensures err != Ok && old(pages).Keys !! Range((iova / PAGE_SIZE) % PAGES, size / PAGE_SIZE) ==>
        pages == old(pages)
      ensures Aligned(iova) && Aligned(paddr) && Aligned(size) ==>
        AllPresent(old(Present()), (iova / PAGE_SIZE) % PAGES, size / PAGE_SIZE) ==> err == Ok
      ensures err == Ok ==> refusals == old(refusals)
      ensures Aligned(iova) && Aligned(paddr) && Aligned(size) && err != Ok ==> refusals > old(refusals)
    {
      if iova % PAGE_SIZE != 0 || paddr % PAGE_SIZE != 0 || size % PAGE_SIZE != 0 {
        return EINVAL, Nothing;
      }
      var start := (iova / PAGE_SIZE) % PAGES;
      ghost var done;
      err, done := L2Map(start, paddr / PAGE_SIZE, size / PAGE_SIZE);
      if err == Ok {
        e := Added(start, paddr / PAGE_SIZE, Clip(start, size / PAGE_SIZE));
      } else {
        e := Cleared(Range(start, done));
        assert Range(start, done) <= Range(start, size / PAGE_SIZE);
      }
    }

    /** `ipu6_mmu_unmap`. */
    method Unmap(iova: nat, size: nat) returns (ghost e: Effect)
      requires Valid()
      modifies this`ram, this`pages
      ensures Valid() && Present() == old(Present())
      ensures Explains(UnmapCall(iova, size), old(pages), old(Present()), e) && pages == Apply(old(pages), e)
    {
      if iova % PAGE_SIZE != 0 || size % PAGE_SIZE != 0 {
        return Nothing;
      }
      var start, n := iova / PAGE_SIZE, size / PAGE_SIZE;
      if Range(start, n) <= pages.Keys {
        MappedIsPresent(State(), pages, start, n);
      }
      L2Unmap(start, n);
      e := Cleared(Touched(Present(), start, n));
    }

    /** One call of a run. */
    method Perform(c: Call) returns (ghost e: Effect)
      requires Valid()
      modifies this`ram, this`bus, this`l2Pts, this`pages, this`refusals
      ensures Valid() && pages == Apply(old(pages), e) && Explains(c, old(pages), old(Present()), e)
      ensures Grown(old(Present()), Present()) && (c.UnmapCall? ==> Present() == old(Present()))
    {
      match c
      case MapCall(iova, paddr, size) =>
        var err;
        err, e := Map(iova, paddr, size);
      case UnmapCall(iova, size) =>
        e := Unmap(iova, size);
    }

    /**
     * Any sequence of map and unmap calls, each free to fail, keeps the tables an implementation of
     * the page map obtained by replaying the calls' effects, each of which is explained by the page
     * map and the tables its call found; `tables` are the slots with tables before each call and at
     * the end.
     */
    method Run(calls: seq<Call>) returns (ghost log: seq<Effect>, ghost tables: seq<seq<bool>>)
      requires Valid()
      modifies this`ram, this`bus, this`l2Pts, this`pages, this`refusals
      ensures Valid() && |log| == |calls| && |tables| == |calls| + 1
      ensures tables[0] == old(Present()) && tables[|calls|] == Present()
      ensures forall i :: 0 <= i < |calls| ==> Explained(calls, old(pages), log, tables, i)
      ensures pages == Replay(old(pages), log)
    {
      ghost var p0 := pages;
      log, tables := [], [Present()];
      for k := 0 to |calls|
        invariant Valid() && |log| == k && |tables| == k + 1 && tables[0] == old(Present()) && tables[k] == Present()
        invariant forall i :: 0 <= i < k ==> Explained(calls, p0, log, tables, i)
        invariant pages == Replay(p0, log)
      {
        ghost var e := Perform(calls[k]);
        ExtendLog(calls, p0, log, tables, e, Present());
        log, tables := log + [e], tables + [Present()];
      }
    }

    /**
     * Any sequence of calls, then a walk by the device: it finds what replaying the calls says, and
     * the dummy page for every IOVA that is not mapped.
     */
    method RunThenWalk(calls: seq<Call>, iova: nat)
      returns (phys: Option<nat>, ghost log: seq<Effect>, ghost tables: seq<seq<bool>>)
      requires Valid() && iova < U32
      modifies this`ram, this`bus, this`l2Pts, this`pages, this`refusals
      ensures Valid() && |log| == |calls| && |tables| == |calls| + 1
      ensures forall i :: 0 <= i < |calls| ==> Explained(calls, old(pages), log, tables, i)
      ensures var after := Replay(old(pages), log); var p, off := iova / PAGE_SIZE, iova % PAGE_SIZE;
        phys == if p !in after then Some(dummyPte * PAGE_SIZE + off)
                else if after[p] == 0 then None else Some(after[p] * PAGE_SIZE + off)
    {
      log, tables := Run(calls);
      ViewsAgree(State(), pages, iova);
      phys := State().DeviceWalk(l1Dma, iova);
    }
  }
}
