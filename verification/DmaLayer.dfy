/**
 * DMA memory on top of the page table (kernel/ipu4/ipu6-dma.c): coherent buffers with
 * multi-stage unwinding, and scatter lists.
 *
 * The kernel's page allocator, IOVA allocator and PCI DMA mapping are specified by what
 * they hand out (fresh, disjoint, or nothing); every one of them may fail at any call.
 */
module DmaLayer {
  import opened Common
  import opened PageTable

  function Elems(s: seq<nat>): set<nat> { set x | x in s }

  function Pow2(n: nat): (r: nat)
    ensures r >= 1
  {
    if n == 0 then 1 else 2 * Pow2(n - 1)
  }

  /** `__fls`: the largest order whose block fits. */
  function Fls(n: nat): (o: nat)
    requires n > 0
    ensures Pow2(o) <= n < Pow2(o + 1)
  {
    if n == 1 then 0 else Fls(n / 2) + 1
  }

  /** `PFN_UP`. */
  function PagesUp(size: nat): nat { (size + (PAGE_SIZE - 1)) / PAGE_SIZE }

  // ----- what mapping and unmapping a run of pages does to the two maps

  /** The page map after IOVA pages lo, lo+1, ... were pointed at `frames`. */
  function MapAll(m: map<nat, nat>, lo: nat, frames: seq<nat>): map<nat, nat> {
    if frames == [] then m
    else MapAll(m, lo, frames[..|frames| - 1])[lo + |frames| - 1 := frames[|frames| - 1]]
  }

  /** The PCI mappings after page k was given bus frame k, for every k. */
  function PciAll(pci: map<nat, nat>, frames: seq<nat>, pages: seq<nat>): map<nat, nat>
    requires |frames| == |pages|
  {
    if frames == [] then pci
    else PciAll(pci, frames[..|frames| - 1], pages[..|pages| - 1])[frames[|frames| - 1] := pages[|pages| - 1]]
  }

  lemma {:induction false} MapAllAt(m: map<nat, nat>, lo: nat, frames: seq<nat>)
    ensures MapAll(m, lo, frames).Keys == m.Keys + Range(lo, |frames|)
    ensures forall k :: 0 <= k < |frames| ==>
      lo + k in MapAll(m, lo, frames) && MapAll(m, lo, frames)[lo + k] == frames[k]
    ensures forall p :: p in m && p !in Range(lo, |frames|) ==> MapAll(m, lo, frames)[p] == m[p]
  {
    if frames != [] {
      MapAllAt(m, lo, frames[..|frames| - 1]);
      assert Range(lo, |frames|) == Range(lo, |frames| - 1) + {lo + |frames| - 1};
    }
  }

  lemma {:induction false} PciAllKeys(pci: map<nat, nat>, frames: seq<nat>, pages: seq<nat>)
    requires |frames| == |pages|
    ensures PciAll(pci, frames, pages).Keys == pci.Keys + Elems(frames)
  {
    if frames != [] {
      var init, last := frames[..|frames| - 1], frames[|frames| - 1];
      PciAllKeys(pci, init, pages[..|pages| - 1]);
      ElemsSnoc(init, last);
      assert frames == init + [last];
    }
  }

  lemma {:induction false} ElemsSnoc(s: seq<nat>, x: nat)
    ensures Elems(s + [x]) == Elems(s) + {x}
    ensures Distinct(s + [x]) <==> Distinct(s) && x !in s
  {
    var t := s + [x];
    assert t[|s|] == x && forall k :: 0 <= k < |s| ==> t[k] == s[k];
    if Distinct(t) {
      forall i, j | 0 <= i < j < |s| ensures s[i] != s[j] { assert t[i] != t[j]; }
      forall i | 0 <= i < |s| ensures s[i] != x { assert t[i] != t[|s|]; }
    }
  }

  /** The last mapping is the newest; the others are those of the shorter lists. */
  lemma {:induction false} PciAllLast(pci: map<nat, nat>, frames: seq<nat>, pages: seq<nat>, f: nat)
    requires |frames| == |pages| && frames != []
    ensures var n := |frames| - 1;
      var init := PciAll(pci, frames[..n], pages[..n]); var all := PciAll(pci, frames, pages);
      && frames[n] in all && all[frames[n]] == pages[n]
      && (f in init && f != frames[n] ==> f in all && all[f] == init[f])
  {
  }

  lemma {:induction false} PciAllAt(pci: map<nat, nat>, frames: seq<nat>, pages: seq<nat>, k: nat)
    requires |frames| == |pages| && Distinct(frames) && k < |frames|
    ensures frames[k] in PciAll(pci, frames, pages) && PciAll(pci, frames, pages)[frames[k]] == pages[k]
  {
    PciAllLast(pci, frames, pages, frames[k]);
    var n := |frames| - 1;
    if k < n {
      assert frames[..n][k] == frames[k] && pages[..n][k] == pages[k];
      PciAllAt(pci, frames[..n], pages[..n], k);
    }
  }

  lemma {:induction false} PciAllKeeps(pci: map<nat, nat>, frames: seq<nat>, pages: seq<nat>, f: nat)
    requires |frames| == |pages| && f in pci && f !in frames
    ensures f in PciAll(pci, frames, pages) && PciAll(pci, frames, pages)[f] == pci[f]
  {
    if frames != [] {
      var n := |frames| - 1;
      assert f !in frames[..n];
      PciAllKeeps(pci, frames[..n], pages[..n], f);
      PciAllLast(pci, frames, pages, f);
    }
  }

  /** Unmapping the range takes back exactly what mapping it added. */
  lemma {:induction false} MapAllUndo(m: map<nat, nat>, lo: nat, frames: seq<nat>)
    requires m.Keys !! Range(lo, |frames|)
    ensures MapAll(m, lo, frames) - Range(lo, |frames|) == m
  {
    MapAllAt(m, lo, frames);
  }

  lemma {:induction false} PciAllUndo(pci: map<nat, nat>, frames: seq<nat>, pages: seq<nat>)
    requires |frames| == |pages| && Distinct(frames) && pci.Keys !! Elems(frames)
    ensures PciAll(pci, frames, pages) - Elems(frames) == pci
  {
    PciAllKeys(pci, frames, pages);
    forall f | f in pci ensures f in PciAll(pci, frames, pages) && PciAll(pci, frames, pages)[f] == pci[f] {
      assert f !in Elems(frames);
      PciAllKeeps(pci, frames, pages, f);
    }
  }

  /** `struct vm_info`: the pages behind one buffer and its IOVA range. */
  datatype VmInfo = VmInfo(pages: seq<nat>, lo: nat)
  {
    function Count(): nat { |pages| }
    predicate Covers(p: nat) { lo <= p < lo + |pages| }
  }

  /** The IOVA page is inside some allocated range. */
  ghost predicate InUse(iovas: map<nat, nat>, p: nat) {
    exists a :: a in iovas && a <= p < a + iovas[a]
  }

  /** The books of the DMA layer: IOVA ranges, pages, PCI mappings, page map, buffers. */
  datatype Ledger = Ledger(
    iovas: map<nat, nat>, owned: set<nat>, pci: map<nat, nat>, pages: map<nat, nat>, vmas: seq<VmInfo>)
  {
    /** IOVA page k of the buffer translates to the bus frame of its page k. */
    ghost predicate BufferOk(v: VmInfo) {
      && v.lo in iovas && iovas[v.lo] == v.Count() && v.lo + v.Count() <= PAGES
      && Distinct(v.pages) && 0 !in v.pages && Elems(v.pages) <= owned
      && forall k :: 0 <= k < v.Count() ==> FrameOk(v, k)
    }

    ghost predicate FrameOk(v: VmInfo, k: nat)
      requires k < v.Count()
    {
      v.lo + k in pages && pages[v.lo + k] in pci && pci[pages[v.lo + k]] == v.pages[k]
    }

    /** No two allocated IOVA ranges overlap. */
    ghost predicate RangesApart() {
      forall a, b :: a in iovas && b in iovas && a != b ==> a + iovas[a] <= b || b + iovas[b] <= a
    }

    /** Only allocated IOVA pages are mapped. */
    ghost predicate MappedInUse() {
      forall p :: p in pages ==> InUse(iovas, p)
    }

    /** No two buffers share an IOVA range or a page. */
    ghost predicate Apart(v: VmInfo, w: VmInfo) {
      v.lo != w.lo && Elems(v.pages) !! Elems(w.pages)
    }

    ghost predicate Balanced() {
      && RangesApart() && MappedInUse()
      && (forall i :: 0 <= i < |vmas| ==> BufferOk(vmas[i]))
      && (forall i, j :: 0 <= i < j < |vmas| ==> Apart(vmas[i], vmas[j]))
    }

    /** Every page mapped is on a bus frame that the host has handed out for it. */
    ghost predicate Held() {
      forall p :: p in pages ==> pages[p] in pci
    }

    /** No page outside the range is mapped to a frame of a page inside it. */
    ghost predicate Alone(lo: nat)
      requires lo in iovas
    {
      forall p, q :: p in pages && q in pages && lo <= p < lo + iovas[lo] && !(lo <= q < lo + iovas[lo]) ==>
        pages[p] != pages[q]
    }

    /** Different IOVA ranges, be they buffers, scatter lists or the trash range, share no frame. */
    ghost predicate Isolated() {
      Held() && forall lo :: lo in iovas ==> Alone(lo)
    }

    /** The books after buffer `v` was set up on bus frames `frames`. */
    ghost function WithBuffer(v: VmInfo, frames: seq<nat>): Ledger
      requires |frames| == v.Count()
    {
      Ledger(iovas[v.lo := v.Count()], owned + Elems(v.pages), PciAll(pci, frames, v.pages),
             MapAll(pages, v.lo, frames), [v] + vmas)
    }

    /** The IOVA range, the pages and the bus frames are all new to these books. */
    ghost predicate Fresh(v: VmInfo, frames: seq<nat>) {
      && |frames| == v.Count() && v.lo !in iovas && v.lo + v.Count() <= PAGES
      && (forall a :: a in iovas ==> a + iovas[a] <= v.lo || v.lo + v.Count() <= a)
      && Distinct(v.pages) && 0 !in v.pages && Elems(v.pages) !! owned
      && Distinct(frames) && Elems(frames) !! pci.Keys
    }

    /** The bus frames of a buffer, read from the page table as `ipu6_dma_free` does. */
    ghost function Frames(v: VmInfo): seq<nat>
      requires BufferOk(v)
    {
      seq(v.Count(), k requires 0 <= k < v.Count() => assert FrameOk(v, k); pages[v.lo + k])
    }

    /** The books after buffer number `i` was released. */
    ghost function WithoutBuffer(i: nat): Ledger
      requires i < |vmas| && BufferOk(vmas[i])
    {
      var v := vmas[i];
      Ledger(iovas - {v.lo}, owned - Elems(v.pages), pci - Elems(Frames(v)),
             pages - Range(v.lo, v.Count()), vmas[..i] + vmas[i + 1..])
    }

    /** The books after buffer number `i` was freed with a size of `n` pages: the other pages stay behind. */
    ghost function Released(i: nat, n: nat): Ledger
      requires i < |vmas| && BufferOk(vmas[i]) && n <= vmas[i].Count()
    {
      var v := vmas[i];
      WithoutBuffer(i).(owned := owned - Elems(v.pages[..n]), pci := pci - Elems(Frames(v)[..n]))
    }
  }

  /** A range that no allocated one overlaps. */
  ghost predicate FreeRange(b: Ledger, lo: nat, n: nat) {
    lo !in b.iovas && forall a :: a in b.iovas ==> a + b.iovas[a] <= lo || lo + n <= a
  }

  /** Books with everything of `b` in them, and maybe more pages, mappings and ranges. */
  ghost predicate Extends(c: Ledger, b: Ledger) {
    && c.vmas == b.vmas && b.owned <= c.owned
    && (forall f :: f in b.pci ==> f in c.pci && c.pci[f] == b.pci[f])
    && (forall p :: p in b.pages ==> p in c.pages && c.pages[p] == b.pages[p])
    && (forall a :: a in b.iovas ==> a in c.iovas && c.iovas[a] == b.iovas[a])
  }

  lemma {:induction false} BufferKept(b: Ledger, c: Ledger, v: VmInfo)
    requires Extends(c, b) && b.BufferOk(v)
    ensures c.BufferOk(v)
  {
    forall k | 0 <= k < v.Count() ensures c.FrameOk(v, k) { assert b.FrameOk(v, k); }
  }

  lemma {:induction false} ExtendsBalanced(b: Ledger, c: Ledger)
    requires b.Balanced() && Extends(c, b) && c.RangesApart() && c.MappedInUse()
    ensures c.Balanced()
  {
    forall i | 0 <= i < |c.vmas| ensures c.BufferOk(c.vmas[i]) { BufferKept(b, c, b.vmas[i]); }
    forall i, j | 0 <= i < j < |c.vmas| ensures c.Apart(c.vmas[i], c.vmas[j]) {
      assert b.Apart(b.vmas[i], b.vmas[j]);
    }
  }

  /** A page in use stays in use when ranges are added. */
  lemma {:induction false} InUseKept(a: map<nat, nat>, c: map<nat, nat>, p: nat)
    requires InUse(a, p) && forall x :: x in a ==> x in c && c[x] == a[x]
    ensures InUse(c, p)
  {
    var x :| x in a && x <= p < x + a[x];
    assert x in c;
  }

  /** A new range next to the others, with or without pages in it, keeps the books balanced. */
  lemma {:induction false} RangeAdded(b: Ledger, c: Ledger, lo: nat, n: nat)
    requires b.Balanced() && FreeRange(b, lo, n) && Extends(c, b) && c.iovas == b.iovas[lo := n]
    requires c.pages.Keys <= b.pages.Keys + Range(lo, n)
    ensures c.Balanced()
  {
    forall p | p in c.pages ensures InUse(c.iovas, p) {
      if p in b.pages {
        assert InUse(b.iovas, p);
        InUseKept(b.iovas, c.iovas, p);
      } else {
        assert p in Range(lo, n) && lo in c.iovas;
      }
    }
    ExtendsBalanced(b, c);
  }

  /** A fresh IOVA range is unmapped. */
  lemma {:induction false} FreshIsUnmapped(b: Ledger, lo: nat, count: nat)
    requires b.Balanced()
    requires forall a :: a in b.iovas ==> a + b.iovas[a] <= lo || lo + count <= a
    ensures b.pages.Keys !! Range(lo, count)
  {
    forall p | p in b.pages ensures p !in Range(lo, count) {
      assert InUse(b.iovas, p);
    }
  }

  lemma {:induction false} WithBufferOk(b: Ledger, v: VmInfo, frames: seq<nat>)
    requires b.Fresh(v, frames)
    ensures b.WithBuffer(v, frames).BufferOk(v)
    ensures b.WithBuffer(v, frames).Frames(v) == frames
  {
    var c := b.WithBuffer(v, frames);
    forall k | 0 <= k < v.Count() ensures c.FrameOk(v, k) && c.pages[v.lo + k] == frames[k] {
      NewFrameOk(b.pages, b.pci, v, frames, k);
    }
  }

  lemma {:induction false} NewFrameOk(m: map<nat, nat>, pci: map<nat, nat>, v: VmInfo, frames: seq<nat>, k: nat)
    requires |frames| == v.Count() && Distinct(frames) && k < v.Count()
    ensures v.lo + k in MapAll(m, v.lo, frames) && MapAll(m, v.lo, frames)[v.lo + k] == frames[k]
    ensures frames[k] in PciAll(pci, frames, v.pages) && PciAll(pci, frames, v.pages)[frames[k]] == v.pages[k]
  {
    MapAllAt(m, v.lo, frames);
    PciAllAt(pci, frames, v.pages, k);
  }

  lemma {:induction false} OldFrameOk(m: map<nat, nat>, pci: map<nat, nat>, v: VmInfo, frames: seq<nat>, p: nat)
    requires |frames| == v.Count() && Distinct(frames) && Elems(frames) !! pci.Keys
    requires m.Keys !! Range(v.lo, v.Count()) && p in m && m[p] in pci
    ensures p in MapAll(m, v.lo, frames) && MapAll(m, v.lo, frames)[p] == m[p]
    ensures m[p] in PciAll(pci, frames, v.pages) && PciAll(pci, frames, v.pages)[m[p]] == pci[m[p]]
  {
    MapAllAt(m, v.lo, frames);
    assert m[p] !in frames by { assert m[p] !in Elems(frames); }
    PciAllKeeps(pci, frames, v.pages, m[p]);
  }

  lemma {:induction false} WithBufferKeepsOther(b: Ledger, v: VmInfo, frames: seq<nat>, w: VmInfo)
    requires b.Balanced() && b.Fresh(v, frames) && b.BufferOk(w)
    ensures b.WithBuffer(v, frames).BufferOk(w)
  {
    var c := b.WithBuffer(v, frames);
    FreshIsUnmapped(b, v.lo, v.Count());
    forall k | 0 <= k < w.Count() ensures c.FrameOk(w, k) {
      assert b.FrameOk(w, k);
      OldFrameOk(b.pages, b.pci, v, frames, w.lo + k);
    }
  }

  lemma {:induction false} WithBufferRanges(b: Ledger, v: VmInfo, frames: seq<nat>)
    requires b.Balanced() && b.Fresh(v, frames)
    ensures b.WithBuffer(v, frames).RangesApart() && b.WithBuffer(v, frames).MappedInUse()
  {
    var c := b.WithBuffer(v, frames);
    MapAllAt(b.pages, v.lo, frames);
    forall p | p in c.pages ensures InUse(c.iovas, p) {
      if p in Range(v.lo, v.Count()) {
        assert v.lo in c.iovas;
      } else {
        assert InUse(b.iovas, p);
        var a :| a in b.iovas && a <= p < a + b.iovas[a];
        assert a in c.iovas && c.iovas[a] == b.iovas[a];
      }
    }
  }

  /** Setting up a buffer keeps the books balanced. */
  lemma {:induction false} WithBufferBalanced(b: Ledger, v: VmInfo, frames: seq<nat>)
    requires b.Balanced() && b.Fresh(v, frames)
    ensures b.WithBuffer(v, frames).Balanced()
  {
    var c := b.WithBuffer(v, frames);
    WithBufferOk(b, v, frames);
    WithBufferRanges(b, v, frames);
    forall i | 0 <= i < |b.vmas| ensures c.BufferOk(b.vmas[i]) {
      WithBufferKeepsOther(b, v, frames, b.vmas[i]);
    }
    PushBuffer(b, c, v);
  }

  lemma {:induction false} PushBuffer(b: Ledger, c: Ledger, v: VmInfo)
    requires b.Balanced() && c.RangesApart() && c.MappedInUse() && c.vmas == [v] + b.vmas
    requires c.BufferOk(v) && forall i :: 0 <= i < |b.vmas| ==> c.BufferOk(b.vmas[i])
    requires v.lo !in b.iovas && Elems(v.pages) !! b.owned
    ensures c.Balanced()
  {
    forall i | 0 <= i < |c.vmas| ensures c.BufferOk(c.vmas[i]) {
      if i > 0 { assert c.vmas[i] == b.vmas[i - 1]; }
    }
    forall i, j | 0 <= i < j < |c.vmas| ensures c.Apart(c.vmas[i], c.vmas[j]) {
      assert c.vmas[j] == b.vmas[j - 1] && b.BufferOk(b.vmas[j - 1]);
      if i > 0 { assert c.vmas[i] == b.vmas[i - 1] && b.Apart(b.vmas[i - 1], b.vmas[j - 1]); }
    }
  }

  /** Releasing the buffer just set up gives back exactly the books from before. */
  lemma {:induction false} AllocFreeRoundTrip(b: Ledger, v: VmInfo, frames: seq<nat>)
    requires b.Balanced() && b.Fresh(v, frames)
    ensures b.WithBuffer(v, frames).BufferOk(v)
    ensures b.WithBuffer(v, frames).WithoutBuffer(0) == b
  {
    WithBufferOk(b, v, frames);
    FreshIsUnmapped(b, v.lo, v.Count());
    MapAllUndo(b.pages, v.lo, frames);
    PciAllUndo(b.pci, frames, v.pages);
  }

  /** The bus frames of two buffers are different, because their pages are. */
  lemma {:induction false} FramesApart(b: Ledger, v: VmInfo, w: VmInfo, k: nat)
    requires b.BufferOk(v) && b.BufferOk(w) && b.Apart(v, w) && k < w.Count()
    ensures b.FrameOk(w, k) && b.pages[w.lo + k] !in Elems(b.Frames(v))
  {
    assert b.FrameOk(w, k) && w.pages[k] in Elems(w.pages);
    forall t | 0 <= t < v.Count() ensures b.Frames(v)[t] != b.pages[w.lo + k] {
      assert b.FrameOk(v, t) && v.pages[t] in Elems(v.pages);
    }
  }

  /** Releasing one buffer keeps the others intact. */
  lemma {:induction false} WithoutBufferKeepsOther(b: Ledger, i: nat, w: VmInfo)
    requires b.RangesApart() && i < |b.vmas| && b.BufferOk(b.vmas[i])
    requires b.BufferOk(w) && b.Apart(b.vmas[i], w)
    ensures b.WithoutBuffer(i).BufferOk(w)
  {
    var v, c := b.vmas[i], b.WithoutBuffer(i);
    forall k | 0 <= k < w.Count() ensures c.FrameOk(w, k) {
      FramesApart(b, v, w, k);
      assert w.lo + k !in Range(v.lo, v.Count());
    }
  }

  lemma {:induction false} WithoutBufferRanges(b: Ledger, i: nat)
    requires b.Balanced() && i < |b.vmas|
    ensures b.BufferOk(b.vmas[i])
    ensures b.WithoutBuffer(i).RangesApart() && b.WithoutBuffer(i).MappedInUse()
  {
    var v := b.vmas[i];
    assert b.BufferOk(v);
    var c := b.WithoutBuffer(i);
    forall p | p in c.pages ensures InUse(c.iovas, p) {
      assert InUse(b.iovas, p);
      var a :| a in b.iovas && a <= p < a + b.iovas[a];
      assert a != v.lo by { assert p !in Range(v.lo, v.Count()); }
      assert a in c.iovas;
    }
  }

  lemma {:induction false} WithoutBufferOther(b: Ledger, i: nat, k: nat)
    requires b.Balanced() && i < |b.vmas| && k + 1 < |b.vmas|
    ensures b.BufferOk(b.vmas[i])
    ensures var c := b.WithoutBuffer(i); k < |c.vmas| && c.BufferOk(c.vmas[k])
  {
    var j := if k < i then k else k + 1;
    assert b.BufferOk(b.vmas[i]) && b.BufferOk(b.vmas[j]);
    assert b.Apart(b.vmas[i], b.vmas[j]) by {
      if j < i { assert b.Apart(b.vmas[j], b.vmas[i]); }
    }
    WithoutBufferKeepsOther(b, i, b.vmas[j]);
  }

  /** Releasing a buffer keeps the books balanced. */
  lemma {:induction false} WithoutBufferBalanced(b: Ledger, i: nat)
    requires b.Balanced() && i < |b.vmas|
    ensures b.BufferOk(b.vmas[i]) && b.WithoutBuffer(i).Balanced()
  {
    WithoutBufferRanges(b, i);
    var c := b.WithoutBuffer(i);
    forall k | 0 <= k < |c.vmas| ensures c.BufferOk(c.vmas[k]) {
      WithoutBufferOther(b, i, k);
    }
    forall k, l | 0 <= k < l < |c.vmas| ensures c.Apart(c.vmas[k], c.vmas[l]) {
      var k', l' := if k < i then k else k + 1, if l < i then l else l + 1;
      assert c.vmas[k] == b.vmas[k'] && c.vmas[l] == b.vmas[l'];
      assert b.Apart(b.vmas[k'], b.vmas[l']);
    }
  }

  /** Freeing with any size up to the buffer's keeps the books balanced. */
  lemma {:induction false} ReleasedBalanced(b: Ledger, i: nat, n: nat)
    requires b.Balanced() && i < |b.vmas| && n <= b.vmas[i].Count()
    ensures b.BufferOk(b.vmas[i]) && b.Released(i, n).Balanced()
  {
    WithoutBufferBalanced(b, i);
    ExtendsBalanced(b.WithoutBuffer(i), b.Released(i, n));
  }

  /** It is the undo of the allocation iff the size is the one the buffer was allocated with. */
  lemma {:induction false} ReleasedExactIff(b: Ledger, i: nat, n: nat)
    requires i < |b.vmas| && b.BufferOk(b.vmas[i]) && n <= b.vmas[i].Count()
    ensures b.Released(i, n) == b.WithoutBuffer(i) <==> n == b.vmas[i].Count()
  {
    var v := b.vmas[i];
    if n == v.Count() {
      assert v.pages[..n] == v.pages && b.Frames(v)[..n] == b.Frames(v);
    } else {
      assert v.pages[n] in Elems(v.pages) && v.pages[n] !in v.pages[..n];
      assert v.pages[n] in b.Released(i, n).owned && v.pages[n] !in b.WithoutBuffer(i).owned;
    }
  }

  /** With a smaller size exactly the first pages and their mappings are given back. */
  lemma {:induction false} ReleasedAt(b: Ledger, i: nat, n: nat, k: nat)
    requires i < |b.vmas| && b.BufferOk(b.vmas[i]) && n <= b.vmas[i].Count() && k < b.vmas[i].Count()
    ensures var v, c := b.vmas[i], b.Released(i, n);
      (v.pages[k] in c.owned <==> k >= n) && (b.Frames(v)[k] in c.pci <==> k >= n)
  {
    var v := b.vmas[i];
    FramesDistinct(b, v);
    assert b.FrameOk(v, k) && v.pages[k] in Elems(v.pages);
    var f := b.Frames(v);
    if k < n {
      assert v.pages[..n][k] == v.pages[k] && f[..n][k] == f[k];
    } else {
      assert v.pages[k] !in v.pages[..n] && f[k] !in f[..n];
    }
  }

  // ----- ranges share no frame

  /** The new range is mapped to frames that the host has handed out and nobody has mapped. */
  ghost predicate NewFrames(b: Ledger, c: Ledger, lo: nat, n: nat) {
    forall p :: p in c.pages && lo <= p < lo + n ==>
      c.pages[p] in c.pci && forall q :: q in b.pages ==> b.pages[q] != c.pages[p]
  }

  /** A new range on new frames keeps all ranges on frames of their own. */
  lemma {:induction false} RangeIsolated(b: Ledger, c: Ledger, lo: nat, n: nat)
    requires b.Isolated() && FreeRange(b, lo, n) && c.iovas == b.iovas[lo := n] && NewFrames(b, c, lo, n)
    requires forall p :: p in c.pages && !(lo <= p < lo + n) ==> p in b.pages && c.pages[p] == b.pages[p]
    requires b.pages.Keys !! Range(lo, n) && b.pci.Keys <= c.pci.Keys
    ensures c.Isolated()
  {
    forall a | a in c.iovas ensures c.Alone(a) {
      forall p, q | p in c.pages && q in c.pages && a <= p < a + c.iovas[a] && !(a <= q < a + c.iovas[a])
        ensures c.pages[p] != c.pages[q]
      {
        if a != lo { assert b.Alone(a); }
      }
    }
  }

  /** Fewer pages and fewer ranges share no frame either, as long as the host keeps those still mapped. */
  lemma {:induction false} FewerIsolated(b: Ledger, c: Ledger)
    requires b.Isolated()
    requires forall a :: a in c.iovas ==> a in b.iovas && c.iovas[a] == b.iovas[a]
    requires forall p :: p in c.pages ==> p in b.pages && c.pages[p] == b.pages[p] && c.pages[p] in c.pci
    ensures c.Isolated()
  {
    forall a | a in c.iovas ensures c.Alone(a) { assert b.Alone(a); }
  }

  lemma {:induction false} WithBufferIsolated(b: Ledger, v: VmInfo, frames: seq<nat>)
    requires b.Balanced() && b.Isolated() && b.Fresh(v, frames)
    ensures b.WithBuffer(v, frames).Isolated()
  {
    FreshIsUnmapped(b, v.lo, v.Count());
    MapAllAt(b.pages, v.lo, frames);
    PciAllKeys(b.pci, frames, v.pages);
    BufferNewFrames(b, v, frames);
    RangeIsolated(b, b.WithBuffer(v, frames), v.lo, v.Count());
  }

  lemma {:induction false} BufferNewFrames(b: Ledger, v: VmInfo, frames: seq<nat>)
    requires b.Held() && b.Fresh(v, frames)
    ensures NewFrames(b, b.WithBuffer(v, frames), v.lo, v.Count())
  {
    var c := b.WithBuffer(v, frames);
    PciAllKeys(b.pci, frames, v.pages);
    forall p | p in c.pages && v.lo <= p < v.lo + v.Count()
      ensures c.pages[p] in c.pci && forall q :: q in b.pages ==> b.pages[q] != c.pages[p]
    {
      NewFrameOk(b.pages, b.pci, v, frames, p - v.lo);
      assert c.pages[p] in Elems(frames);
    }
  }

  lemma {:induction false} ReleasedIsolated(b: Ledger, i: nat, n: nat)
    requires b.Balanced() && b.Isolated() && i < |b.vmas| && n <= b.vmas[i].Count()
    ensures b.BufferOk(b.vmas[i]) && b.Released(i, n).Isolated()
  {
    var v, c := b.vmas[i], b.Released(i, n);
    assert b.BufferOk(v) && b.Alone(v.lo);
    forall p | p in c.pages ensures c.pages[p] in c.pci {
      NotItsFrame(b, v, n, p);
    }
    FewerIsolated(b, c);
  }

  /** A page outside the buffer is not on one of the buffer's frames. */
  lemma {:induction false} NotItsFrame(b: Ledger, v: VmInfo, n: nat, p: nat)
    requires b.BufferOk(v) && b.Alone(v.lo) && n <= v.Count() && p in b.pages && p !in Range(v.lo, v.Count())
    ensures b.pages[p] !in b.Frames(v)[..n]
  {
    forall k | 0 <= k < n ensures b.Frames(v)[k] != b.pages[p] { assert b.FrameOk(v, k); }
  }

  // ----- allocations and releases of different buffers commute

  lemma {:induction false} MapAllMinus(m: map<nat, nat>, lo: nat, frames: seq<nat>, away: set<nat>)
    requires away !! Range(lo, |frames|)
    ensures MapAll(m, lo, frames) - away == MapAll(m - away, lo, frames)
  {
    if frames != [] {
      var n := |frames| - 1;
      assert Range(lo, n) <= Range(lo, |frames|) && lo + n in Range(lo, |frames|);
      MapAllMinus(m, lo, frames[..n], away);
    }
  }

  lemma {:induction false} PciAllMinus(pci: map<nat, nat>, frames: seq<nat>, pages: seq<nat>, away: set<nat>)
    requires |frames| == |pages| && away !! Elems(frames)
    ensures PciAll(pci, frames, pages) - away == PciAll(pci - away, frames, pages)
  {
    if frames != [] {
      var n := |frames| - 1;
      assert frames[n] in Elems(frames) && Elems(frames[..n]) <= Elems(frames);
      PciAllMinus(pci, frames[..n], pages[..n], away);
    }
  }

  /** A buffer set up before keeps its bus frames when another one is added. */
  lemma {:induction false} FramesKept(b: Ledger, v: VmInfo, frames: seq<nat>, w: VmInfo)
    requires b.Balanced() && b.Fresh(v, frames) && b.BufferOk(w)
    ensures b.WithBuffer(v, frames).BufferOk(w) && b.WithBuffer(v, frames).Frames(w) == b.Frames(w)
    ensures Elems(b.Frames(w)) !! Elems(frames)
  {
    WithBufferKeepsOther(b, v, frames, w);
    FreshIsUnmapped(b, v.lo, v.Count());
    var c := b.WithBuffer(v, frames);
    forall k | 0 <= k < w.Count() ensures c.Frames(w)[k] == b.Frames(w)[k] && b.Frames(w)[k] !in Elems(frames) {
      assert b.FrameOk(w, k);
      OldFrameOk(b.pages, b.pci, v, frames, w.lo + k);
    }
  }

  /** Setting up one buffer and releasing another can be done in either order. */
  lemma {:induction false} AllocFreeCommute(b: Ledger, v: VmInfo, frames: seq<nat>, i: nat)
    requires b.Balanced() && b.Fresh(v, frames) && i < |b.vmas|
    ensures b.BufferOk(b.vmas[i]) && b.WithBuffer(v, frames).BufferOk(b.vmas[i])
    ensures b.WithBuffer(v, frames).WithoutBuffer(i + 1) == b.WithoutBuffer(i).WithBuffer(v, frames)
  {
    var w := b.vmas[i];
    assert b.BufferOk(w);
    FramesKept(b, v, frames, w);
    MapAllMinus(b.pages, v.lo, frames, Range(w.lo, w.Count()));
    PciAllMinus(b.pci, frames, v.pages, Elems(b.Frames(w)));
    var c := b.WithBuffer(v, frames);
    assert c.vmas[..i + 1] + c.vmas[i + 2..] == [v] + (b.vmas[..i] + b.vmas[i + 1..]);
    assert (b.owned + Elems(v.pages)) - Elems(w.pages) == (b.owned - Elems(w.pages)) + Elems(v.pages);
    assert b.iovas[v.lo := v.Count()] - {w.lo} == (b.iovas - {w.lo})[v.lo := v.Count()];
  }

  /** So a buffer's release undoes its allocation, whatever was allocated after it. */
  lemma {:induction false} AllocFreeAnyOrder(b: Ledger, v: VmInfo, f: seq<nat>, w: VmInfo, g: seq<nat>)
    requires b.Balanced() && b.Fresh(v, f) && b.WithBuffer(v, f).Fresh(w, g)
    ensures var c := b.WithBuffer(v, f).WithBuffer(w, g);
      c.BufferOk(v) && c.vmas[1] == v && c.WithoutBuffer(1) == b.WithBuffer(w, g)
  {
    WithBufferBalanced(b, v, f);
    AllocFreeCommute(b.WithBuffer(v, f), w, g, 0);
    AllocFreeRoundTrip(b, v, f);
  }

  class Dma {
    const mmu: MmuInfo
    /** The IOVA allocator: first page of each allocated range, and its length. */
    var iovas: map<nat, nat>
    /** Pages held from the page allocator. */
    var owned: set<nat>
    /** `vma_list`, newest first. */
    var vmas: seq<VmInfo>
    /** History: how often a kernel service has refused a request. */
    ghost var refusals: nat

    /** Everything a call can change, as one value. */
    ghost function Books(): Ledger
      reads this, mmu
    {
      Ledger(iovas, owned, mmu.pci, mmu.pages, vmas)
    }

    ghost predicate Valid()
      reads this, mmu
    {
      mmu.Valid() && Books().Balanced()
    }

    /** Refusals seen here and by the page table. */
    ghost function Refusals(): nat
      reads this, mmu
    {
      refusals + mmu.refusals
    }

    constructor (mmu: MmuInfo)
      requires mmu.Valid() && mmu.pages == map[] && mmu.pci == map[]
      ensures this.mmu == mmu && Valid()
      ensures iovas == map[] && owned == {} && vmas == []
    {
      this.mmu := mmu;
      refusals := 0;
      iovas, owned, vmas := map[], {}, [];
    }

    // ----- the kernel services

    /** `alloc_iova`: a range disjoint from every allocated one, or nothing. */
    method AllocIova(count: nat) returns (ok: bool, lo: nat)
      modifies this`iovas, this`refusals
      ensures !ok ==> iovas == old(iovas)
      ensures refusals == old(refusals) + if ok then 0 else 1
      ensures ok ==> iovas == old(iovas)[lo := count] && lo !in old(iovas) && lo + count <= PAGES
      ensures ok ==> forall a :: a in old(iovas) ==> a + old(iovas)[a] <= lo || lo + count <= a
    {
      lo := *;
      ok := lo !in iovas && lo + count <= PAGES
         && forall a | a in iovas :: a + iovas[a] <= lo || lo + count <= a;
      if ok { iovas := iovas[lo := count]; } else { refusals := refusals + 1; }
    }

    /** `alloc_pages`: a free block of 2^order pages, or 0. */
    method AllocPages(order: nat) returns (base: nat)
      modifies this`owned, this`refusals
      ensures base == 0 ==> owned == old(owned)
      ensures refusals == old(refusals) + if base == 0 then 1 else 0
      ensures base != 0 ==> owned == old(owned) + Range(base, Pow2(order)) && old(owned) !! Range(base, Pow2(order))
    {
      base := *;
      if !(owned !! Range(base, Pow2(order))) { base := 0; }
      if base != 0 { owned := owned + Range(base, Pow2(order)); } else { refusals := refusals + 1; }
    }

    /** `__free_pages(page, 0)`. */
    method FreePage(page: nat)
      requires page in owned
      modifies this`owned
      ensures owned == old(owned) - {page}
    {
      owned := owned - {page};
    }

    /** `dma_map_page_attrs`: a bus frame the device can address, or 0 on a mapping error. */
    method DmaMapPage(page: nat) returns (frame: nat)
      requires mmu.Valid()
      modifies mmu`pci, this`refusals
      ensures mmu.Valid()
      ensures frame == 0 ==> mmu.pci == old(mmu.pci)
      ensures refusals == old(refusals) + if frame == 0 then 1 else 0
      ensures frame != 0 ==> frame < U32 && frame !in old(mmu.pci) && mmu.pci == old(mmu.pci)[frame := page]
    {
      frame := *;
      if frame >= U32 || frame in mmu.pci || frame in mmu.bus || frame == mmu.dummyPte { frame := 0; }
      if frame != 0 { mmu.pci := mmu.pci[frame := page]; } else { refusals := refusals + 1; }
    }

    /** `dma_unmap_page_attrs`. */
    method DmaUnmapPage(frame: nat)
      requires mmu.Valid() && frame in mmu.pci
      modifies mmu`pci
      ensures mmu.Valid()
      ensures mmu.pci == old(mmu.pci) - {frame}
    {
      mmu.pci := mmu.pci - {frame};
    }

    // ----- page buffers

    /** The loop that spreads a split block over the page array. */
    method FillBlock(pages: array<nat>, i: nat, n: nat)
      requires n >= 1 && i + n <= pages.Length
      modifies pages
      ensures pages[..i] == old(pages[..i])
      ensures forall k :: i <= k < i + n ==> pages[k] == old(pages[i]) + (k - i)
    {
      var base := pages[i];
      var j := n;
      while j != 0
        invariant 0 <= j <= n && pages[..i] == old(pages[..i])
        invariant j != 0 ==> pages[i] == base
        invariant forall k :: i + j <= k < i + n ==> pages[k] == base + (k - i)
      {
        j := j - 1;
        pages[i + j] := pages[i] + j;
      }
    }

    /** Asks for the largest block that fits and halves the request until one is granted. */
    method AllocShrinking(left: nat) returns (base: nat, order: nat)
      requires left > 0
      modifies this`owned, this`refusals
      ensures Pow2(order) <= left
      ensures base == 0 ==> order == 0 && owned == old(owned) && refusals > old(refusals)
      ensures refusals >= old(refusals)
      ensures base != 0 ==> owned == old(owned) + Range(base, Pow2(order)) && old(owned) !! Range(base, Pow2(order))
    {
      order := Fls(left);
      base := AllocPages(order);
      while base == 0 && order != 0
        invariant Pow2(order) <= left
        invariant base == 0 ==> owned == old(owned) && refusals > old(refusals)
        invariant refusals >= old(refusals)
        invariant base != 0 ==> owned == old(owned) + Range(base, Pow2(order)) && old(owned) !! Range(base, Pow2(order))
        decreases order
      {
        order := order - 1;
        base := AllocPages(order);
      }
    }

    /**
     * `__alloc_buffer`: `count` distinct fresh pages, taken in blocks whose order shrinks whenever a
     * block is refused; if even a single page is refused everything taken so far is given back.
     */
    method AllocBuffer(count: nat) returns (ok: bool, pages: array<nat>)
      modifies this`owned, this`refusals
      ensures fresh(pages) && pages.Length == count
      ensures !ok ==> owned == old(owned) && refusals > old(refusals)
      ensures refusals >= old(refusals)
      ensures ok ==> Distinct(pages[..]) && 0 !in pages[..]
      ensures ok ==> Elems(pages[..]) !! old(owned) && owned == old(owned) + Elems(pages[..])
    {
      pages := new nat[count](_ => 0);
      var hasArray: bool := *;
      if !hasArray {
        refusals := refusals + 1;
        return false, pages;
      }
      var i: nat, left: nat := 0, count;
      while left != 0
        invariant i + left == count && pages.Length == count
        invariant Distinct(pages[..i]) && 0 !in pages[..i]
        invariant Elems(pages[..i]) !! old(owned) && owned == old(owned) + Elems(pages[..i])
        invariant refusals >= old(refusals)
        decreases left
      {
        var base, order := AllocShrinking(left);
        ghost var before := pages[..i];
        pages[i] := base;
        assert pages[..i] == before;
        if base == 0 {
          ReleaseBack(pages, i, old(owned));
          return false, pages;
        }
        FillBlock(pages, i, Pow2(order));
        BlockAppended(before, pages[..i + Pow2(order)], base, Pow2(order), old(owned));
        i, left := i + Pow2(order), left - Pow2(order);
      }
      assert pages[..] == pages[..i];
      ok := true;
    }

    /** The unwind of `__alloc_buffer`: frees the first `n` pages, last one first. */
    method ReleaseBack(pages: array<nat>, n: nat, ghost rest: set<nat>)
      requires n <= pages.Length && Distinct(pages[..n]) && 0 !in pages[..n]
      requires Elems(pages[..n]) !! rest && owned == rest + Elems(pages[..n])
      modifies this`owned
      ensures owned == rest
    {
      var i := n;
      while i != 0
        invariant 0 <= i <= n && owned == rest + Elems(pages[..i])
      {
        i := i - 1;
        assert pages[..i + 1] == pages[..i] + [pages[i]];
        assert pages[i] == pages[..n][i];
        if pages[i] != 0 { FreePage(pages[i]); }
        assert pages[i] !in pages[..i] by {
          forall t | 0 <= t < i ensures pages[t] != pages[i] { assert pages[..n][t] != pages[..n][i]; }
        }
      }
    }

    /** `__free_buffer`: frees the pages, first one first. */
    method FreeBuffer(pages: seq<nat>, ghost rest: set<nat>)
      requires Distinct(pages) && 0 !in pages
      requires Elems(pages) !! rest && owned == rest + Elems(pages)
      modifies this`owned
      ensures owned == rest
    {
      var i := 0;
      while i < |pages| && pages[i] != 0
        invariant 0 <= i <= |pages| && owned == rest + Elems(pages[i..])
      {
        assert pages[i..] == [pages[i]] + pages[i + 1..];
        assert pages[i] !in pages[i + 1..];
        FreePage(pages[i]);
        i := i + 1;
      }
    }

    // ----- one page at a time

    /** `ipu6_mmu_map(..., PAGE_SIZE)` of an unmapped page. */
    method MapOne(p: nat, frame: nat) returns (ok: bool)
      requires mmu.Valid() && p < PAGES && p !in mmu.pages && frame < U32
      modifies mmu`ram, mmu`bus, mmu`l2Pts, mmu`pages, mmu`refusals
      ensures mmu.Valid()
      ensures mmu.pages == if ok then old(mmu.pages)[p := frame] else old(mmu.pages)
      ensures if ok then mmu.refusals == old(mmu.refusals) else mmu.refusals > old(mmu.refusals)
    {
      ghost var e;
      var err;
      assert (p * PAGE_SIZE / PAGE_SIZE) % PAGES == p && frame * PAGE_SIZE / PAGE_SIZE == frame;
      assert Range(p, 1) == {p};
      err, e := mmu.Map(p * PAGE_SIZE, frame * PAGE_SIZE, PAGE_SIZE);
      ok := err == Ok;
      if ok {
        assert Extend(old(mmu.pages), p, frame, 1) == Extend(old(mmu.pages), p, frame, 0)[p := Pte(frame)];
      }
    }

    /** `ipu6_mmu_unmap` of `n` mapped pages. */
    method UnmapMapped(p: nat, n: nat)
      requires mmu.Valid() && Range(p, n) <= mmu.pages.Keys
      modifies mmu`ram, mmu`pages
      ensures mmu.Valid() && mmu.pages == old(mmu.pages) - Range(p, n) && mmu.refusals == old(mmu.refusals)
    {
      assert p * PAGE_SIZE / PAGE_SIZE == p && n * PAGE_SIZE / PAGE_SIZE == n;
      ghost var e := mmu.Unmap(p * PAGE_SIZE, n * PAGE_SIZE);
    }

    /** `ipu6_mmu_iova_to_phys` of a mapped page, as a frame. */
    method FrameOf(p: nat) returns (frame: nat)
      requires mmu.Valid() && p in mmu.pages
      ensures frame == mmu.pages[p]
    {
      assert p * PAGE_SIZE / PAGE_SIZE == p && p * PAGE_SIZE / 0x40_0000 == p / PTES;
      MappedHasTable(mmu.State(), mmu.pages, p);
      var phys := mmu.IovaToPhys(p * PAGE_SIZE);
      frame := phys / PAGE_SIZE;
    }

    /** One round of the mapping loop of `ipu6_dma_alloc`; 0 means nothing was changed. */
    method MapPage(p: nat, page: nat) returns (frame: nat)
      requires mmu.Valid() && p < PAGES && p !in mmu.pages
      modifies this`refusals, mmu
      ensures mmu.Valid()
      ensures frame == 0 ==> mmu.pci == old(mmu.pci) && mmu.pages == old(mmu.pages)
      ensures if frame == 0 then Refusals() > old(Refusals()) else Refusals() == old(Refusals())
      ensures frame != 0 ==> frame !in old(mmu.pci) && mmu.pci == old(mmu.pci)[frame := page]
      ensures frame != 0 ==> mmu.pages == old(mmu.pages)[p := frame]
    {
      frame := DmaMapPage(page);
      if frame != 0 {
        var ok := MapOne(p, frame);
        if !ok {
          DmaUnmapPage(frame);
          frame := 0;
        }
      }
    }

    /** One round of the mapping loop of `ipu6_dma_alloc`: page `i` on a new bus frame, or no change. */
    method MapNextPage(
      lo: nat, pages: seq<nat>, i: nat, ghost m: map<nat, nat>, ghost pci0: map<nat, nat>, ghost frames: seq<nat>)
      returns (frame: nat)
      requires mmu.Valid() && i == |frames| < |pages| && lo + |pages| <= PAGES && m.Keys !! Range(lo, |pages|)
      requires Distinct(frames) && Elems(frames) !! pci0.Keys
      requires mmu.pages == MapAll(m, lo, frames) && mmu.pci == PciAll(pci0, frames, pages[..i])
      modifies this`refusals, mmu
      ensures mmu.Valid()
      ensures frame == 0 ==> mmu.pages == old(mmu.pages) && mmu.pci == old(mmu.pci)
      ensures if frame == 0 then Refusals() > old(Refusals()) else Refusals() == old(Refusals())
      ensures frame != 0 ==> Distinct(frames + [frame]) && Elems(frames + [frame]) !! pci0.Keys
      ensures frame != 0 ==>
        mmu.pages == MapAll(m, lo, frames + [frame]) && mmu.pci == PciAll(pci0, frames + [frame], pages[..i + 1])
    {
      NextPageFree(m, lo, frames, |pages|);
      frame := MapPage(lo + i, pages[i]);
      if frame != 0 {
        AppendPage(m, pci0, lo, frames, pages[..i], frame, pages[i]);
        assert pages[..i + 1] == pages[..i] + [pages[i]];
      }
    }

    /** The mapping loop of `ipu6_dma_alloc`: a prefix of the pages, all of them when `ok`. */
    method MapPages(lo: nat, pages: seq<nat>) returns (ok: bool, i: nat, ghost frames: seq<nat>)
      requires mmu.Valid() && lo + |pages| <= PAGES && mmu.pages.Keys !! Range(lo, |pages|)
      modifies this`refusals, mmu
      ensures mmu.Valid() && i == |frames| <= |pages| && (ok ==> i == |pages|)
      ensures if ok then Refusals() == old(Refusals()) else Refusals() > old(Refusals())
      ensures Distinct(frames) && Elems(frames) !! old(mmu.pci).Keys
      ensures mmu.pages == MapAll(old(mmu.pages), lo, frames)
      ensures mmu.pci == PciAll(old(mmu.pci), frames, pages[..i])
    {
      ghost var m, pci0 := mmu.pages, mmu.pci;
      i, frames, ok := 0, [], true;
      while i < |pages|
        invariant mmu.Valid() && i == |frames| <= |pages|
        invariant Distinct(frames) && Elems(frames) !! pci0.Keys
        invariant mmu.pages == MapAll(m, lo, frames) && mmu.pci == PciAll(pci0, frames, pages[..i])
        invariant Refusals() == old(Refusals())
      {
        var frame := MapNextPage(lo, pages, i, m, pci0, frames);
        if frame == 0 { return false, i, frames; }
        frames, i := frames + [frame], i + 1;
      }
    }

    /** One round of the `out_unmap` loop: the bus frame is looked up in the page table. */
    method UnmapPage(p: nat)
      requires mmu.Valid() && p in mmu.pages && mmu.pages[p] in mmu.pci
      modifies mmu
      ensures mmu.Valid() && mmu.pages == old(mmu.pages) - {p} && mmu.pci == old(mmu.pci) - {old(mmu.pages)[p]}
      ensures mmu.refusals == old(mmu.refusals)
    {
      assert Range(p, 1) == {p};
      var frame := FrameOf(p);
      DmaUnmapPage(frame);
      UnmapMapped(p, 1);
    }

    /** The `out_unmap` loop of `ipu6_dma_alloc`: takes back the first `n` pages, last one first. */
    method UnwindPages(lo: nat, n: nat, ghost pages: seq<nat>, ghost frames: seq<nat>,
                       ghost m0: map<nat, nat>, ghost pci0: map<nat, nat>)
      requires mmu.Valid() && |pages| == |frames| == n && m0.Keys !! Range(lo, n)
      requires Distinct(frames) && Elems(frames) !! pci0.Keys
      requires mmu.pages == MapAll(m0, lo, frames) && mmu.pci == PciAll(pci0, frames, pages)
      modifies mmu
      ensures mmu.Valid() && mmu.pages == m0 && mmu.pci == pci0 && mmu.refusals == old(mmu.refusals)
    {
      var i := n;
      assert frames[..n] == frames && pages[..n] == pages;
      while i != 0
        invariant 0 <= i <= n && mmu.Valid() && mmu.refusals == old(mmu.refusals)
        invariant mmu.pages == MapAll(m0, lo, frames[..i]) && mmu.pci == PciAll(pci0, frames[..i], pages[..i])
      {
        i := i - 1;
        UnwindStep(m0, pci0, lo, frames, pages, i);
        UnmapPage(lo + i);
      }
    }

    /** `__free_iova`. */
    method FreeIova(lo: nat)
      requires lo in iovas
      modifies this`iovas
      ensures iovas == old(iovas) - {lo}
    {
      iovas := iovas - {lo};
    }

    /** `find_iova`: the allocated range around page `p`. */
    method FindIova(p: nat) returns (found: bool, lo: nat)
      ensures found <==> InUse(iovas, p)
      ensures found ==> lo in iovas && lo <= p < lo + iovas[lo]
    {
      found := exists a | a in iovas :: a <= p < a + iovas[a];
      lo := 0;
      if found { lo :| lo in iovas && lo <= p < lo + iovas[lo]; }
    }

    /** `get_vm_info`: the first buffer on the list that covers page `p`. */
    method GetVmInfo(p: nat) returns (i: nat)
      ensures i <= |vmas| && (i < |vmas| ==> vmas[i].Covers(p))
      ensures forall k :: 0 <= k < i ==> !vmas[k].Covers(p)
    {
      i := 0;
      while i < |vmas| && !vmas[i].Covers(p)
        invariant i <= |vmas| && forall k :: 0 <= k < i ==> !vmas[k].Covers(p)
      {
        i := i + 1;
      }
    }

    /** The stages of `ipu6_dma_alloc` between the IOVA range and the buffer list, with their unwind. */
    method BuildBuffer(lo: nat, count: nat) returns (ok: bool, pages: seq<nat>, ghost frames: seq<nat>)
      requires mmu.Valid() && lo + count <= PAGES && mmu.pages.Keys !! Range(lo, count)
      modifies this`owned, this`refusals, mmu
      ensures mmu.Valid()
      ensures !ok ==> owned == old(owned) && mmu.pci == old(mmu.pci) && mmu.pages == old(mmu.pages)
      ensures !ok ==> Refusals() > old(Refusals())
      ensures ok ==> |pages| == |frames| == count && Distinct(pages) && 0 !in pages && Elems(pages) !! old(owned)
      ensures ok ==> Distinct(frames) && Elems(frames) !! old(mmu.pci).Keys
      ensures ok ==> owned == old(owned) + Elems(pages) && mmu.pci == PciAll(old(mmu.pci), frames, pages)
      ensures ok ==> mmu.pages == MapAll(old(mmu.pages), lo, frames)
    {
      var gotPages, buffer := AllocBuffer(count);
      if !gotPages { return false, [], []; }
      pages := buffer[..];
      var i;
      ok, i, frames := MapPages(lo, pages);
      var vmapped: bool := *;
      if !vmapped { refusals := refusals + 1; }
      if !ok || !vmapped {
        assert Range(lo, i) <= Range(lo, count);
        UnwindPages(lo, i, pages[..i], frames, old(mmu.pages), old(mmu.pci));
        FreeBuffer(pages, old(owned));
        return false, pages, frames;
      }
      assert pages[..i] == pages;
    }

    /** `ipu6_dma_alloc` once it has its IOVA range: the buffer goes on the list, or the range goes back. */
    method AllocInRange(lo: nat, count: nat, ghost b: Ledger)
      returns (ok: bool, ghost v: VmInfo, ghost frames: seq<nat>)
      requires mmu.Valid() && lo !in b.iovas && lo + count <= PAGES && b.pages.Keys !! Range(lo, count)
      requires forall a :: a in b.iovas ==> a + b.iovas[a] <= lo || lo + count <= a
      requires Books() == b.(iovas := b.iovas[lo := count])
      modifies this, mmu
      ensures mmu.Valid()
      ensures !ok ==> Books() == b && Refusals() > old(Refusals())
      ensures ok ==> v.lo == lo && v.Count() == count && b.Fresh(v, frames) && Books() == b.WithBuffer(v, frames)
    {
      var pages;
      ok, pages, frames := BuildBuffer(lo, count);
      v := VmInfo(pages, lo);
      if !ok {
        FreeIova(lo);
        assert iovas == b.iovas;
        return;
      }
      vmas := [VmInfo(pages, lo)] + vmas;
    }

    /**
     * `ipu6_dma_alloc`: success adds one buffer of distinct fresh pages whose IOVA page k translates
     * to page k's bus frame; every failure, at any stage, leaves the books exactly as they were, and
     * there is none unless the kernel refused something in this very call.
     */
    method Alloc(size: nat) returns (ok: bool, handle: nat, ghost v: VmInfo, ghost frames: seq<nat>)
      requires Valid()
      modifies this, mmu
      ensures Valid()
      ensures !ok ==> Books() == old(Books()) && Refusals() > old(Refusals())
      ensures ok ==> v.Count() == PagesUp(size) && handle == v.lo * PAGE_SIZE
      ensures ok ==> old(Books()).Fresh(v, frames) && Books() == old(Books()).WithBuffer(v, frames)
      ensures old(Books()).Isolated() ==> Books().Isolated()
    {
      ghost var b := Books();
      ok, handle, v, frames := false, 0, VmInfo([], 0), [];
      var info: bool := *;
      if !info {
        refusals := refusals + 1;
        return;
      }
      var count := PagesUp(size);
      var got, lo := AllocIova(count);
      if !got {
        assert Books() == b;
        return;
      }
      FreshIsUnmapped(b, lo, count);
      ok, v, frames := AllocInRange(lo, count, b);
      if ok {
        handle := lo * PAGE_SIZE;
        WithBufferBalanced(b, v, frames);
        if b.Isolated() { WithBufferIsolated(b, v, frames); }
      }
    }

    /** The `dma_unmap_page_attrs` loop of `ipu6_dma_free`, over the first `n` pages. */
    method DmaUnmapFirst(v: VmInfo, n: nat)
      requires mmu.Valid() && Books().BufferOk(v) && n <= v.Count()
      modifies mmu`pci
      ensures mmu.Valid() && mmu.pci == old(mmu.pci) - Elems(old(Books()).Frames(v)[..n])
    {
      ghost var frames := Books().Frames(v);
      FramesDistinct(Books(), v);
      var i := 0;
      while i < n
        invariant i <= n && mmu.Valid() && mmu.pci == old(mmu.pci) - Elems(frames[..i])
      {
        assert old(Books()).FrameOk(v, i);
        var frame := FrameOf(v.lo + i);
        ElemsSnoc(frames[..i], frames[i]);
        assert frames[..i + 1] == frames[..i] + [frames[i]];
        DmaUnmapPage(frame);
        i := i + 1;
      }
    }

    /** The part of `ipu6_dma_free` that gives back PCI mappings, page map entries and pages. */
    method Release(v: VmInfo, n: nat)
      requires mmu.Valid() && Books().BufferOk(v) && n <= v.Count()
      modifies this`owned, mmu
      ensures mmu.Valid()
      ensures owned == old(owned) - Elems(v.pages[..n]) && mmu.pci == old(mmu.pci) - Elems(old(Books()).Frames(v)[..n])
      ensures mmu.pages == old(mmu.pages) - Range(v.lo, v.Count())
    {
      assert Range(v.lo, v.Count()) <= mmu.pages.Keys by {
        forall q | q in Range(v.lo, v.Count()) ensures q in mmu.pages { assert Books().FrameOk(v, q - v.lo); }
      }
      assert Elems(v.pages[..n]) <= Elems(v.pages) && Distinct(v.pages[..n]);
      DmaUnmapFirst(v, n);
      UnmapMapped(v.lo, iovas[v.lo]);
      FreeBuffer(v.pages[..n], owned - Elems(v.pages[..n]));
    }

    /**
     * `ipu6_dma_free`: a handle that belongs to no buffer changes nothing; otherwise the buffer is
     * taken off the books, exactly so if the size is the one it was allocated with; a smaller size
     * leaves pages and PCI mappings behind.  (A larger one would read beyond the page array.)
     */
    method Free(size: nat, handle: nat)
      requires Valid()
      requires forall i :: 0 <= i < |vmas| && vmas[i].Covers(handle / PAGE_SIZE) ==> PagesUp(size) <= vmas[i].Count()
      modifies this, mmu
      ensures Valid()
      ensures (forall i :: 0 <= i < |old(vmas)| ==> !old(vmas)[i].Covers(handle / PAGE_SIZE)) ==>
        Books() == old(Books())
      ensures forall i :: 0 <= i < |old(vmas)| && old(vmas)[i].Covers(handle / PAGE_SIZE) ==>
        && old(Books()).BufferOk(old(vmas)[i]) && Books() == old(Books()).Released(i, PagesUp(size))
        && (Books() == old(Books()).WithoutBuffer(i) <==> PagesUp(size) == old(vmas)[i].Count())
      ensures old(Books()).Isolated() ==> Books().Isolated()
    {
      var p := handle / PAGE_SIZE;
      var found, lo := FindIova(p);
      if !found {
        assert forall i :: 0 <= i < |vmas| ==> Books().BufferOk(vmas[i]);
        return;
      }
      var i := GetVmInfo(p);
      if i == |vmas| { return; }
      FreeFound(i, lo, p, PagesUp(size));
    }

    /** The rest of `ipu6_dma_free` once buffer and IOVA range are found. */
    method FreeFound(i: nat, lo: nat, ghost p: nat, n: nat)
      requires Valid() && i < |vmas| && vmas[i].Covers(p) && n <= vmas[i].Count()
      requires lo in iovas && lo <= p < lo + iovas[lo]
      modifies this, mmu
      ensures Valid() && old(Books()).BufferOk(old(vmas)[i]) && Books() == old(Books()).Released(i, n)
      ensures Books() == old(Books()).WithoutBuffer(i) <==> n == old(vmas)[i].Count()
      ensures forall j :: 0 <= j < |old(vmas)| && old(vmas)[j].Covers(p) ==> j == i
      ensures old(Books()).Isolated() ==> Books().Isolated()
    {
      var v := vmas[i];
      ghost var b := Books();
      CoverUnique(b, i, p, lo);
      ReleasedBalanced(b, i, n);
      ReleasedExactIff(b, i, n);
      if b.Isolated() { ReleasedIsolated(b, i, n); }
      Release(v, n);
      vmas := vmas[..i] + vmas[i + 1..];
      FreeIova(lo);
      assert Books() == b.Released(i, n);
    }
  }

  lemma {:induction false} FramesDistinct(b: Ledger, v: VmInfo)
    requires b.BufferOk(v)
    ensures Distinct(b.Frames(v))
  {
    var f := b.Frames(v);
    forall i, j | 0 <= i < j < |f| ensures f[i] != f[j] {
      assert b.FrameOk(v, i) && b.FrameOk(v, j) && v.pages[i] != v.pages[j];
    }
  }

  /** The IOVA range around a buffer's page is the buffer's own, and no other buffer covers it. */
  lemma {:induction false} CoverUnique(b: Ledger, i: nat, p: nat, lo: nat)
    requires b.Balanced() && i < |b.vmas| && b.vmas[i].Covers(p)
    requires lo in b.iovas && lo <= p < lo + b.iovas[lo]
    ensures b.BufferOk(b.vmas[i]) && lo == b.vmas[i].lo
    ensures forall j :: 0 <= j < |b.vmas| && b.vmas[j].Covers(p) ==> j == i
  {
    assert b.BufferOk(b.vmas[i]);
    forall j | 0 <= j < |b.vmas| && b.vmas[j].Covers(p) ensures j == i {
      assert b.BufferOk(b.vmas[j]);
      assert i < j ==> b.Apart(b.vmas[i], b.vmas[j]);
      assert j < i ==> b.Apart(b.vmas[j], b.vmas[i]);
    }
  }

  lemma {:induction false} NextPageFree(m: map<nat, nat>, lo: nat, frames: seq<nat>, n: nat)
    requires |frames| < n && m.Keys !! Range(lo, n)
    ensures lo + |frames| !in MapAll(m, lo, frames)
  {
    MapAllAt(m, lo, frames);
    assert lo + |frames| in Range(lo, n);
  }

  lemma {:induction false} AppendPage(
    m: map<nat, nat>, pci: map<nat, nat>, lo: nat, frames: seq<nat>, pages: seq<nat>, frame: nat, page: nat)
    requires |frames| == |pages| && Distinct(frames) && Elems(frames) !! pci.Keys
    requires frame !in PciAll(pci, frames, pages)
    ensures MapAll(m, lo, frames + [frame]) == MapAll(m, lo, frames)[lo + |frames| := frame]
    ensures PciAll(pci, frames + [frame], pages + [page]) == PciAll(pci, frames, pages)[frame := page]
    ensures Distinct(frames + [frame]) && Elems(frames + [frame]) !! pci.Keys
  {
    PciAllKeys(pci, frames, pages);
    assert (frames + [frame])[..|frames|] == frames && (pages + [page])[..|frames|] == pages;
    ElemsSnoc(frames, frame);
    assert frame !in frames by { assert frame !in Elems(frames); }
  }

  /** Taking the last mapped page away again gives the page map without it. */
  lemma {:induction false} UnwindMap(m: map<nat, nat>, lo: nat, frames: seq<nat>)
    requires |frames| > 0 && m.Keys !! Range(lo, |frames|)
    ensures
      var n := |frames| - 1;
      && lo + n in MapAll(m, lo, frames) && MapAll(m, lo, frames)[lo + n] == frames[n]
      && MapAll(m, lo, frames) - {lo + n} == MapAll(m, lo, frames[..n])
  {
    NextPageFree(m, lo, frames[..|frames| - 1], |frames|);
  }

  /** ... and the PCI mappings without it. */
  lemma {:induction false} UnwindPci(pci: map<nat, nat>, frames: seq<nat>, pages: seq<nat>)
    requires |frames| == |pages| && |frames| > 0 && Distinct(frames) && Elems(frames) !! pci.Keys
    ensures
      var n := |frames| - 1;
      && frames[n] in PciAll(pci, frames, pages)
      && PciAll(pci, frames, pages) - {frames[n]} == PciAll(pci, frames[..n], pages[..n])
  {
    var n := |frames| - 1;
    PciAllKeys(pci, frames[..n], pages[..n]);
    assert frames[..n] + [frames[n]] == frames;
    ElemsSnoc(frames[..n], frames[n]);
  }

  lemma {:induction false} UnwindStep(
    m: map<nat, nat>, pci: map<nat, nat>, lo: nat, frames: seq<nat>, pages: seq<nat>, i: nat)
    requires |frames| == |pages| && i < |frames| && m.Keys !! Range(lo, |frames|)
    requires Distinct(frames) && Elems(frames) !! pci.Keys
    ensures
      var m', pci' := MapAll(m, lo, frames[..i + 1]), PciAll(pci, frames[..i + 1], pages[..i + 1]);
      && lo + i in m' && m'[lo + i] == frames[i] && frames[i] in pci'
      && m' - {lo + i} == MapAll(m, lo, frames[..i])
      && pci' - {frames[i]} == PciAll(pci, frames[..i], pages[..i])
  {
    var f, g := frames[..i + 1], pages[..i + 1];
    assert Range(lo, i + 1) <= Range(lo, |frames|) && Elems(f) <= Elems(frames) && Distinct(f);
    assert f[..i] == frames[..i] && g[..i] == pages[..i];
    UnwindMap(m, lo, f);
    UnwindPci(pci, f, g);
  }

  /** Appending a fresh block of consecutive pages keeps the buffer's pages distinct. */
  lemma {:induction false} BlockAppended(before: seq<nat>, after: seq<nat>, base: nat, n: nat, owned: set<nat>)
    requires |after| == |before| + n && after[..|before|] == before && base != 0
    requires forall k :: |before| <= k < |after| ==> after[k] == base + (k - |before|)
    requires Distinct(before) && 0 !in before && Elems(before) !! owned
    requires (owned + Elems(before)) !! Range(base, n)
    ensures Distinct(after) && 0 !in after && Elems(after) !! owned
    ensures Elems(after) == Elems(before) + Range(base, n)
  {
    forall i | 0 <= i < |after|
      ensures after[i] == if i < |before| then before[i] else base + (i - |before|)
    {
      if i < |before| { assert after[..|before|][i] == before[i]; }
    }
    forall x | x in Range(base, n) ensures x in Elems(after) {
      assert after[|before| + (x - base)] == x;
    }
    forall x | x in before ensures x in Elems(after) {
      var i :| 0 <= i < |before| && before[i] == x;
      assert after[i] == x;
    }
    forall i, j | 0 <= i < j < |after| ensures after[i] != after[j] {
      if i < |before| <= j {
        assert before[i] in Elems(before) && after[j] in Range(base, n);
      }
    }
  }
}
