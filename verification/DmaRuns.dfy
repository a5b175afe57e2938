/**
 * Any sequence of the calls that give IOVA space away: DMA buffers (kernel/ipu4/ipu6-dma.c:152-294),
 * scatter lists (330-436), the trash range (kernel/ipu4/ipu6-mmu.c:511-568), and what the host does with
 * its own DMA mappings in between.  The books are at all times those of the buffers and lists still
 * mapped, whatever came and went before.
 */
module DmaRuns {
  import opened Common
  import opened PageTable
  import opened DmaLayer
  import opened ScatterList
  import opened TrashRange

  /** Whose an IOVA range is. */
  datatype Owner =
    | Buffer(v: VmInfo, frames: seq<nat>)
    | List(sgl: seq<Entry>)
    | Trash(frame: nat)
    /** A range whose scatter list could not be mapped from its first entry on. */
    | Leaked(n: nat)
  {
    /** The bus frames of its pages, one after the other. */
    function Frames(): seq<nat> {
      match this
      case Buffer(_, frames) => frames
      case List(sgl) => ListFrames(sgl)
      case Trash(frame) => Same(frame, TRASH_PAGES)
      case Leaked(_) => []
    }

    function Length(): nat { if Leaked? then n else |Frames()| }
  }

  /** The bus frames of a list, entry after entry. */
  function ListFrames(sgl: seq<Entry>): (f: seq<nat>)
    ensures |f| == Total(sgl)
  {
    if sgl == [] then []
    else ListFrames(sgl[..|sgl| - 1]) + EntryFrames(sgl[|sgl| - 1], sgl[|sgl| - 1].Pages())
  }

  function EntryFrames(e: Entry, n: nat): (f: seq<nat>)
    ensures |f| == n && forall j :: 0 <= j < n ==> f[j] == BusPage(e, j)
  {
    seq(n, j requires 0 <= j < n => BusPage(e, j))
  }

  lemma {:induction false} ExtendIsMapAll(m: map<nat, nat>, at: nat, e: Entry, n: nat)
    ensures Extend(m, at, e.Frame(), n) == MapAll(m, at, EntryFrames(e, n))
  {
    if n > 0 {
      ExtendIsMapAll(m, at, e, n - 1);
      assert EntryFrames(e, n)[..n - 1] == EntryFrames(e, n - 1);
    }
  }

  lemma {:induction false} MapAllConcat(m: map<nat, nat>, lo: nat, f: seq<nat>, g: seq<nat>)
    ensures MapAll(MapAll(m, lo, f), lo + |f|, g) == MapAll(m, lo, f + g)
  {
    if g == [] {
      assert f + g == f;
    } else {
      var n := |g| - 1;
      MapAllConcat(m, lo, f, g[..n]);
      assert (f + g)[..|f| + n] == f + g[..n];
    }
  }

  /** Mapping a list, entry by entry, is mapping its frames, page by page. */
  lemma {:induction false} SgMapIsMapAll(m: map<nat, nat>, lo: nat, sgl: seq<Entry>)
    ensures SgMap(m, lo, sgl) == MapAll(m, lo, ListFrames(sgl))
  {
    if sgl != [] {
      var init, last := sgl[..|sgl| - 1], sgl[|sgl| - 1];
      SgMapIsMapAll(m, lo, init);
      var f, g := ListFrames(init), EntryFrames(last, last.Pages());
      assert SgMap(m, lo, sgl) == MapAll(MapAll(m, lo, f), lo + |f|, g) by {
        ExtendIsMapAll(SgMap(m, lo, init), lo + Total(init), last, last.Pages());
      }
      MapAllConcat(m, lo, f, g);
    }
  }

  // ----- the state

  /** The books, and whose every allocated range is. */
  datatype State = State(b: Ledger, owners: map<nat, Owner>)

  ghost predicate Within(lo: nat, o: Owner, p: nat) { lo <= p < lo + |o.Frames()| }

  /** The page belongs to some owner. */
  ghost predicate Owned(owners: map<nat, Owner>, p: nat) {
    exists lo :: lo in owners && Within(lo, owners[lo], p)
  }

  /** The pages of the range are mapped to the owner's frames. */
  ghost predicate MappedAs(pages: map<nat, nat>, lo: nat, frames: seq<nat>) {
    forall p :: lo <= p < lo + |frames| ==> p in pages && pages[p] == frames[p - lo]
  }

  /** Every range has an owner, and its length. */
  ghost predicate RangesOwned(iovas: map<nat, nat>, owners: map<nat, Owner>) {
    iovas.Keys == owners.Keys && forall lo :: lo in owners ==> iovas[lo] == owners[lo].Length()
  }

  ghost predicate AllMapped(pages: map<nat, nat>, owners: map<nat, Owner>) {
    forall lo :: lo in owners ==> MappedAs(pages, lo, owners[lo].Frames())
  }

  ghost predicate AllOwned(pages: map<nat, nat>, owners: map<nat, Owner>) {
    forall p :: p in pages ==> Owned(owners, p)
  }

  /** The books are those of the owners: no range, no page and no translation more or less. */
  ghost predicate Accounted(s: State) {
    RangesOwned(s.b.iovas, s.owners) && AllMapped(s.b.pages, s.owners) && AllOwned(s.b.pages, s.owners)
  }

  /** Every buffer owns its range. */
  ghost predicate BuffersOwn(s: State) {
    forall i :: 0 <= i < |s.b.vmas| ==>
      var v := s.b.vmas[i]; v.lo in s.owners && s.owners[v.lo].Buffer? && s.owners[v.lo].v == v
  }

  ghost predicate Sound(s: State) {
    s.b.Balanced() && s.b.Isolated() && Accounted(s) && BuffersOwn(s)
  }

  /** The IOVA ranges and the page map depend on the owners only, not on what happened before. */
  lemma {:induction false} OwnersDecide(s: State, t: State)
    requires Accounted(s) && Accounted(t) && s.owners == t.owners
    ensures s.b.iovas == t.b.iovas && s.b.pages == t.b.pages
  {
    OwnersDecideHalf(s, t);
    OwnersDecideHalf(t, s);
  }

  lemma {:induction false} OwnersDecideHalf(s: State, t: State)
    requires Accounted(s) && Accounted(t) && s.owners == t.owners
    ensures forall p :: p in s.b.pages ==> p in t.b.pages && t.b.pages[p] == s.b.pages[p]
  {
    forall p | p in s.b.pages ensures p in t.b.pages && t.b.pages[p] == s.b.pages[p] {
      assert Owned(s.owners, p);
      var lo :| lo in s.owners && Within(lo, s.owners[lo], p);
      var f := s.owners[lo].Frames();
      assert MappedAs(s.b.pages, lo, f) && MappedAs(t.b.pages, lo, f);
      assert s.b.pages[p] == f[p - lo] == t.b.pages[p];
    }
  }

  // ----- ranges come and go

  /** What is mapped elsewhere stays as it is. */
  lemma {:induction false} StillMapped(m: map<nat, nat>, m': map<nat, nat>, lo: nat, frames: seq<nat>)
    requires MappedAs(m, lo, frames)
    requires forall p :: lo <= p < lo + |frames| && p in m ==> p in m' && m'[p] == m[p]
    ensures MappedAs(m', lo, frames)
  {
  }

  lemma {:induction false} NewlyMapped(m: map<nat, nat>, lo: nat, frames: seq<nat>)
    ensures MappedAs(MapAll(m, lo, frames), lo, frames)
  {
    MapAllAt(m, lo, frames);
    var m' := MapAll(m, lo, frames);
    forall p | lo <= p < lo + |frames| ensures p in m' && m'[p] == frames[p - lo] {
      assert m'[lo + (p - lo)] == frames[p - lo];
    }
  }

  lemma {:induction false} AddedMapped(m: map<nat, nat>, owners: map<nat, Owner>, lo: nat, o: Owner)
    requires AllMapped(m, owners) && lo !in owners && m.Keys !! Range(lo, |o.Frames()|)
    ensures AllMapped(MapAll(m, lo, o.Frames()), owners[lo := o])
  {
    var m', owners' := MapAll(m, lo, o.Frames()), owners[lo := o];
    forall a | a in owners' ensures MappedAs(m', a, owners'[a].Frames()) {
      if a == lo {
        NewlyMapped(m, lo, o.Frames());
      } else {
        MapAllAt(m, lo, o.Frames());
        StillMapped(m, m', a, owners[a].Frames());
      }
    }
  }

  lemma {:induction false} AddedOwned(m: map<nat, nat>, owners: map<nat, Owner>, lo: nat, o: Owner)
    requires AllOwned(m, owners) && lo !in owners
    ensures AllOwned(MapAll(m, lo, o.Frames()), owners[lo := o])
  {
    var m', owners' := MapAll(m, lo, o.Frames()), owners[lo := o];
    MapAllAt(m, lo, o.Frames());
    forall p | p in m' ensures Owned(owners', p) {
      if p in m {
        assert Owned(owners, p);
        var a :| a in owners && Within(a, owners[a], p);
        assert a in owners' && Within(a, owners'[a], p);
      } else {
        assert lo in owners' && Within(lo, owners'[lo], p);
      }
    }
  }

  /** A free range got an owner. */
  lemma {:induction false} Added(s: State, c: Ledger, lo: nat, o: Owner)
    requires Accounted(s) && s.b.Balanced() && FreeRange(s.b, lo, o.Length())
    requires c.iovas == s.b.iovas[lo := o.Length()] && c.pages == MapAll(s.b.pages, lo, o.Frames())
    ensures Accounted(State(c, s.owners[lo := o]))
  {
    AddedRanges(s.b.iovas, s.owners, lo, o);
    FramesUnmapped(s.b, lo, o);
    AddedMapped(s.b.pages, s.owners, lo, o);
    AddedOwned(s.b.pages, s.owners, lo, o);
  }

  lemma {:induction false} AddedRanges(iovas: map<nat, nat>, owners: map<nat, Owner>, lo: nat, o: Owner)
    requires RangesOwned(iovas, owners)
    ensures RangesOwned(iovas[lo := o.Length()], owners[lo := o])
  {
  }

  lemma {:induction false} FramesUnmapped(b: Ledger, lo: nat, o: Owner)
    requires b.Balanced() && FreeRange(b, lo, o.Length())
    ensures b.pages.Keys !! Range(lo, |o.Frames()|)
  {
    var n, k := o.Length(), |o.Frames()|;
    assert k <= n;
    FreshIsUnmapped(b, lo, n);
    assert Range(lo, k) <= Range(lo, n);
  }

  /** The ranges of two owners have no page in common. */
  lemma {:induction false} OwnersApart(b: Ledger, owners: map<nat, Owner>, lo: nat, a: nat)
    requires RangesOwned(b.iovas, owners) && b.RangesApart() && lo in owners && a in owners && lo != a
    ensures Range(a, |owners[a].Frames()|) !! Range(lo, |owners[lo].Frames()|)
  {
    assert b.iovas[lo] == owners[lo].Length() && b.iovas[a] == owners[a].Length();
  }

  lemma {:induction false} RemovedMapped(b: Ledger, owners: map<nat, Owner>, lo: nat)
    requires RangesOwned(b.iovas, owners) && b.RangesApart() && AllMapped(b.pages, owners) && lo in owners
    ensures AllMapped(b.pages - Range(lo, |owners[lo].Frames()|), owners - {lo})
  {
    var m := b.pages - Range(lo, |owners[lo].Frames()|);
    forall a | a in owners - {lo} ensures MappedAs(m, a, owners[a].Frames()) {
      OwnersApart(b, owners, lo, a);
      var r := Range(a, |owners[a].Frames()|);
      assert forall p :: a <= p < a + |owners[a].Frames()| ==> p in r;
      StillMapped(b.pages, m, a, owners[a].Frames());
    }
  }

  lemma {:induction false} RemovedOwned(m: map<nat, nat>, owners: map<nat, Owner>, lo: nat)
    requires AllOwned(m, owners) && lo in owners
    ensures AllOwned(m - Range(lo, |owners[lo].Frames()|), owners - {lo})
  {
    var owners' := owners - {lo};
    forall p | p in m && p !in Range(lo, |owners[lo].Frames()|) ensures Owned(owners', p) {
      assert Owned(owners, p);
      var a :| a in owners && Within(a, owners[a], p);
      assert a in owners' && Within(a, owners'[a], p);
    }
  }

  /** An owner gave its range back. */
  lemma {:induction false} Removed(s: State, c: Ledger, lo: nat)
    requires Accounted(s) && s.b.RangesApart() && lo in s.owners
    requires c.iovas == s.b.iovas - {lo} && c.pages == s.b.pages - Range(lo, |s.owners[lo].Frames()|)
    ensures Accounted(State(c, s.owners - {lo}))
  {
    RemovedRanges(s.b.iovas, s.owners, lo);
    RemovedMapped(s.b, s.owners, lo);
    RemovedOwned(s.b.pages, s.owners, lo);
  }

  lemma {:induction false} RemovedRanges(iovas: map<nat, nat>, owners: map<nat, Owner>, lo: nat)
    requires RangesOwned(iovas, owners)
    ensures RangesOwned(iovas - {lo}, owners - {lo})
  {
  }

  // ----- the calls as steps

  datatype Act =
    | Alloc(v: VmInfo, frames: seq<nat>)
    | Free(i: nat)
    | MapList(lo: nat, sgl: seq<Entry>)
    | UnmapList(lo: nat)
    | MapTrash(lo: nat, frame: nat, page: nat)
    /** `ipu6_dma_map_sg` that fails at its first entry. */
    | Leak(lo: nat, n: nat)
    /** The host maps a page for somebody, or takes a mapping back that nobody uses here. */
    | HostMap(frame: nat, page: nat)
    | HostUnmap(frame: nat)

  ghost predicate Unused(b: Ledger, frame: nat) { forall p :: p in b.pages ==> b.pages[p] != frame }

  ghost predicate Can(s: State, a: Act) {
    match a
    case Alloc(v, frames) => s.b.Fresh(v, frames)
    case Free(i) => i < |s.b.vmas| && s.b.BufferOk(s.b.vmas[i])
    case MapList(lo, sgl) => FreeRange(s.b, lo, Total(sgl)) && ListNew(s.b, sgl)
    case UnmapList(lo) => lo in s.owners && s.owners[lo].List?
    case MapTrash(lo, frame, _) => FreeRange(s.b, lo, TRASH_PAGES) && frame !in s.b.pci
    case Leak(lo, n) => FreeRange(s.b, lo, n)
    case HostMap(frame, _) => frame !in s.b.pci
    case HostUnmap(frame) => Unused(s.b, frame)
  }

  ghost function Do(s: State, a: Act): State
    requires Can(s, a)
  {
    match a
    case Alloc(v, frames) => State(s.b.WithBuffer(v, frames), s.owners[v.lo := Buffer(v, frames)])
    case Free(i) => State(s.b.WithoutBuffer(i), s.owners - {s.b.vmas[i].lo})
    case MapList(lo, sgl) => State(WithList(s.b, lo, sgl), s.owners[lo := List(sgl)])
    case UnmapList(lo) => State(WithoutRange(s.b, lo, |s.owners[lo].Frames()|), s.owners - {lo})
    case MapTrash(lo, frame, page) => State(WithTrash(s.b, lo, frame, page), s.owners[lo := Trash(frame)])
    case Leak(lo, n) => State(s.b.(iovas := s.b.iovas[lo := n]), s.owners[lo := Leaked(n)])
    case HostMap(frame, page) => s.(b := s.b.(pci := s.b.pci[frame := page]))
    case HostUnmap(frame) => s.(b := s.b.(pci := s.b.pci - {frame}))
  }

  ghost function WithoutRange(b: Ledger, lo: nat, n: nat): Ledger {
    b.(iovas := b.iovas - {lo}, pages := b.pages - Range(lo, n))
  }

  lemma {:induction false} AllocKeeps(s: State, v: VmInfo, frames: seq<nat>)
    requires Sound(s) && Can(s, Alloc(v, frames))
    ensures Sound(Do(s, Alloc(v, frames)))
  {
    WithBufferBalanced(s.b, v, frames);
    WithBufferIsolated(s.b, v, frames);
    Added(s, s.b.WithBuffer(v, frames), v.lo, Buffer(v, frames));
    var t := Do(s, Alloc(v, frames));
    forall i | 0 <= i < |t.b.vmas|
      ensures var w := t.b.vmas[i]; w.lo in t.owners && t.owners[w.lo].Buffer? && t.owners[w.lo].v == w
    {
      if i > 0 { assert t.b.vmas[i] == s.b.vmas[i - 1]; }
    }
  }

  lemma {:induction false} FreeKeeps(s: State, i: nat)
    requires Sound(s) && Can(s, Free(i))
    ensures Sound(Do(s, Free(i)))
  {
    var v, t := s.b.vmas[i], Do(s, Free(i));
    WithoutBufferBalanced(s.b, i);
    ReleasedIsolated(s.b, i, v.Count());
    ReleasedExactIff(s.b, i, v.Count());
    assert s.b.iovas[v.lo] == s.owners[v.lo].Length();
    Removed(s, t.b, v.lo);
    forall k | 0 <= k < |t.b.vmas|
      ensures var w := t.b.vmas[k]; w.lo in t.owners && t.owners[w.lo].Buffer? && t.owners[w.lo].v == w
    {
      var k' := if k < i then k else k + 1;
      assert t.b.vmas[k] == s.b.vmas[k'];
      assert if k' < i then s.b.Apart(s.b.vmas[k'], v) else s.b.Apart(v, s.b.vmas[k']);
    }
  }

  lemma {:induction false} MapListKeeps(s: State, lo: nat, sgl: seq<Entry>)
    requires Sound(s) && Can(s, MapList(lo, sgl))
    ensures Sound(Do(s, MapList(lo, sgl)))
  {
    SgBalanced(s.b, lo, sgl);
    SgIsolated(s.b, lo, sgl);
    SgMapIsMapAll(s.b.pages, lo, sgl);
    Added(s, WithList(s.b, lo, sgl), lo, List(sgl));
  }

  /** Books with the same buffers, each in order, and ranges in order are in order. */
  lemma {:induction false} SameBuffers(b: Ledger, c: Ledger)
    requires b.Balanced() && c.vmas == b.vmas && c.RangesApart() && c.MappedInUse()
    requires forall i :: 0 <= i < |c.vmas| ==> c.BufferOk(c.vmas[i])
    ensures c.Balanced()
  {
    forall i, j | 0 <= i < j < |c.vmas| ensures c.Apart(c.vmas[i], c.vmas[j]) {
      assert b.Apart(b.vmas[i], b.vmas[j]);
    }
  }

  lemma {:induction false} WithoutRangeBuffer(b: Ledger, lo: nat, n: nat, v: VmInfo)
    requires b.BufferOk(v) && v.lo != lo && Range(v.lo, v.Count()) !! Range(lo, n)
    ensures WithoutRange(b, lo, n).BufferOk(v)
  {
    var c := WithoutRange(b, lo, n);
    forall k | 0 <= k < v.Count() ensures c.FrameOk(v, k) {
      assert b.FrameOk(v, k) && v.lo + k in Range(v.lo, v.Count());
    }
  }

  lemma {:induction false} WithoutRangeInUse(b: Ledger, lo: nat)
    requires b.MappedInUse() && b.RangesApart() && lo in b.iovas
    ensures WithoutRange(b, lo, b.iovas[lo]).MappedInUse() && WithoutRange(b, lo, b.iovas[lo]).RangesApart()
  {
    var c := WithoutRange(b, lo, b.iovas[lo]);
    forall p | p in c.pages ensures InUse(c.iovas, p) {
      assert InUse(b.iovas, p) && p !in Range(lo, b.iovas[lo]);
      StillInUse(b.iovas, lo, p);
    }
  }

  lemma {:induction false} StillInUse(iovas: map<nat, nat>, lo: nat, p: nat)
    requires lo in iovas && InUse(iovas, p) && p !in Range(lo, iovas[lo])
    ensures InUse(iovas - {lo}, p)
  {
    var a :| a in iovas && a <= p < a + iovas[a];
    assert a in iovas - {lo};
  }

  lemma {:induction false} WithoutRangeSound(s: State, lo: nat)
    requires Sound(s) && lo in s.owners && !s.owners[lo].Buffer? && !s.owners[lo].Leaked?
    ensures WithoutRange(s.b, lo, |s.owners[lo].Frames()|).Balanced()
    ensures WithoutRange(s.b, lo, |s.owners[lo].Frames()|).Isolated()
  {
    var n := |s.owners[lo].Frames()|;
    var c := WithoutRange(s.b, lo, n);
    assert s.b.iovas[lo] == s.owners[lo].Length() == n;
    WithoutRangeInUse(s.b, lo);
    forall i | 0 <= i < |c.vmas| ensures c.BufferOk(c.vmas[i]) {
      var v := s.b.vmas[i];
      assert s.b.BufferOk(v) && v.lo in s.owners && s.owners[v.lo].Buffer?;
      WithoutRangeBuffer(s.b, lo, n, v);
    }
    SameBuffers(s.b, c);
    FewerIsolated(s.b, c);
  }

  lemma {:induction false} UnmapListKeeps(s: State, lo: nat)
    requires Sound(s) && Can(s, UnmapList(lo))
    ensures Sound(Do(s, UnmapList(lo)))
  {
    WithoutRangeSound(s, lo);
    Removed(s, Do(s, UnmapList(lo)).b, lo);
  }

  lemma {:induction false} MapTrashKeeps(s: State, lo: nat, frame: nat, page: nat)
    requires Sound(s) && Can(s, MapTrash(lo, frame, page))
    ensures Sound(Do(s, MapTrash(lo, frame, page)))
  {
    TrashBalanced(s.b, lo, frame, page);
    TrashIsolated(s.b, lo, frame, page);
    Added(s, WithTrash(s.b, lo, frame, page), lo, Trash(frame));
  }

  lemma {:induction false} LeakKeeps(s: State, lo: nat, n: nat)
    requires Sound(s) && Can(s, Leak(lo, n))
    ensures Sound(Do(s, Leak(lo, n)))
  {
    GrantBalanced(s.b, lo, n);
    GrantIsolated(s.b, lo, n);
    Added(s, s.b.(iovas := s.b.iovas[lo := n]), lo, Leaked(n));
  }

  lemma {:induction false} HostMapKeeps(s: State, frame: nat, page: nat)
    requires Sound(s) && Can(s, HostMap(frame, page))
    ensures Sound(Do(s, HostMap(frame, page)))
  {
    var c := Do(s, HostMap(frame, page)).b;
    ExtendsBalanced(s.b, c);
    FewerIsolated(s.b, c);
  }

  lemma {:induction false} HostUnmapBuffer(b: Ledger, frame: nat, v: VmInfo)
    requires b.BufferOk(v) && Unused(b, frame)
    ensures b.(pci := b.pci - {frame}).BufferOk(v)
  {
    var c := b.(pci := b.pci - {frame});
    forall k | 0 <= k < v.Count() ensures c.FrameOk(v, k) { assert b.FrameOk(v, k); }
  }

  lemma {:induction false} HostUnmapKeeps(s: State, frame: nat)
    requires Sound(s) && Can(s, HostUnmap(frame))
    ensures Sound(Do(s, HostUnmap(frame)))
  {
    var c := Do(s, HostUnmap(frame)).b;
    forall i | 0 <= i < |c.vmas| ensures c.BufferOk(c.vmas[i]) {
      HostUnmapBuffer(s.b, frame, s.b.vmas[i]);
    }
    SameBuffers(s.b, c);
    FewerIsolated(s.b, c);
  }

  /** Every call keeps the books in order. */
  lemma {:induction false} StepKeepsSound(s: State, a: Act)
    requires Sound(s) && Can(s, a)
    ensures Sound(Do(s, a))
  {
    match a
    case Alloc(v, frames) => AllocKeeps(s, v, frames);
    case Free(i) => FreeKeeps(s, i);
    case MapList(lo, sgl) => MapListKeeps(s, lo, sgl);
    case UnmapList(lo) => UnmapListKeeps(s, lo);
    case MapTrash(lo, frame, page) => MapTrashKeeps(s, lo, frame, page);
    case Leak(lo, n) => LeakKeeps(s, lo, n);
    case HostMap(frame, page) => HostMapKeeps(s, frame, page);
    case HostUnmap(frame) => HostUnmapKeeps(s, frame);
  }

  // ----- runs

  ghost predicate Next(run: seq<State>, acts: seq<Act>, n: nat)
    requires n < |acts| && n + 1 < |run|
  {
    Can(run[n], acts[n]) && run[n + 1] == Do(run[n], acts[n])
  }

  ghost predicate Run(run: seq<State>, acts: seq<Act>) {
    && |run| == |acts| + 1 && run[0] == State(Ledger(map[], {}, map[], map[], []), map[])
    && forall n :: 0 <= n < |acts| ==> Next(run, acts, n)
  }

  /**
   * After any run the books are balanced, no two ranges share a frame, and ranges and page map are exactly
   * those of the buffers and lists still mapped.
   */
  lemma {:induction false} RunSound(run: seq<State>, acts: seq<Act>, n: nat)
    requires Run(run, acts) && n < |run|
    ensures Sound(run[n])
  {
    if n > 0 {
      RunSound(run, acts, n - 1);
      assert Next(run, acts, n - 1);
      StepKeepsSound(run[n - 1], acts[n - 1]);
    }
  }

  /** Whatever order things came and went in, with the same owners the ranges and the page map are the same. */
  lemma {:induction false} OrderIrrelevant(
    run: seq<State>, acts: seq<Act>, m: nat, run': seq<State>, acts': seq<Act>, n: nat)
    requires Run(run, acts) && m < |run| && Run(run', acts') && n < |run'| && run[m].owners == run'[n].owners
    ensures run[m].b.iovas == run'[n].b.iovas && run[m].b.pages == run'[n].b.pages
  {
    RunSound(run, acts, m);
    RunSound(run', acts', n);
    OwnersDecide(run[m], run'[n]);
  }

  // ----- the driver's calls are such steps

  /** The books of the DMA layer are those of the owners in `s`. */
  ghost predicate Keeps(dma: Dma, s: State)
    reads dma, dma.mmu
  {
    dma.mmu.Valid() && dma.Books() == s.b && Sound(s)
  }

  method CallAlloc(dma: Dma, size: nat, ghost s: State) returns (ok: bool, handle: nat, ghost t: State)
    requires Keeps(dma, s)
    modifies dma, dma.mmu
    ensures Keeps(dma, t) && (!ok ==> t == s)
    ensures ok ==> exists v, frames ::
      && Can(s, Alloc(v, frames)) && t == Do(s, Alloc(v, frames))
      && v.Count() == PagesUp(size) && handle == v.lo * PAGE_SIZE
  {
    ghost var v, frames;
    ok, handle, v, frames := dma.Alloc(size);
    t := s;
    if ok {
      AllocKeeps(s, v, frames);
      t := Do(s, Alloc(v, frames));
    }
  }

  /** A buffer is freed by its handle and its size. */
  method CallFree(dma: Dma, i: nat, ghost s: State) returns (ghost t: State)
    requires Keeps(dma, s) && i < |dma.vmas| && dma.vmas[i].Count() > 0
    modifies dma, dma.mmu
    ensures Can(s, Free(i)) && t == Do(s, Free(i)) && Keeps(dma, t)
  {
    var v := dma.vmas[i];
    assert s.b.BufferOk(s.b.vmas[i]);
    ThisBuffer(s.b, i);
    FreeKeeps(s, i);
    t := Do(s, Free(i));
    dma.Free(v.Count() * PAGE_SIZE, v.lo * PAGE_SIZE);
  }

  lemma {:induction false} ThisBuffer(b: Ledger, i: nat)
    requires b.Balanced() && i < |b.vmas| && b.vmas[i].Count() > 0
    ensures var v := b.vmas[i]; v.lo * PAGE_SIZE / PAGE_SIZE == v.lo && PagesUp(v.Count() * PAGE_SIZE) == v.Count()
    ensures var v := b.vmas[i]; forall j :: 0 <= j < |b.vmas| && b.vmas[j].Covers(v.lo) ==> j == i
  {
    var v := b.vmas[i];
    assert b.BufferOk(v) && v.Covers(v.lo);
    forall j | 0 <= j < |b.vmas| && b.vmas[j].Covers(v.lo) ensures j == i { CoverUnique(b, i, v.lo, v.lo); }
  }

  /** A list on new bus pages; it is a step however it ends, except for an unwind that goes astray. */
  method CallMap(m: Mapper, sgl: array<Entry>, ghost s: State)
    returns (ret: int, ghost out: SgOutcome, ghost lo: nat, ghost t: State)
    requires Keeps(m.dma, s) && NonEmpty(sgl[..]) && ListNew(s.b, sgl[..])
    modifies sgl, m.dma`iovas, m.dma`refusals,
             m.dma.mmu`ram, m.dma.mmu`bus, m.dma.mmu`l2Pts, m.dma.mmu`pages, m.dma.mmu`refusals
    ensures var src := old(sgl[..]);
      match out
      case Mapped =>
        && Can(s, MapList(lo, src)) && t == Do(s, MapList(lo, src)) && Keeps(m.dma, t)
        && Placed(sgl[..], src, lo, sgl.Length)
      case FirstFailed => Can(s, Leak(lo, Total(src))) && t == Do(s, Leak(lo, Total(src))) && Keeps(m.dma, t)
      case Unwound(_) =>
        t == s && m.dma.mmu.Valid() && (UnmapSafe(m.dma.mmu.Present(), lo, Total(src)) ==> Keeps(m.dma, s))
      case _ => t == s && Keeps(m.dma, s)
  {
    ghost var src := sgl[..];
    ret, out, lo := m.MapSg(sgl);
    t := s;
    if out.Mapped? {
      MapListKeeps(s, lo, src);
      t := Do(s, MapList(lo, src));
    } else if out.FirstFailed? {
      LeakKeeps(s, lo, Total(src));
      t := Do(s, Leak(lo, Total(src)));
    }
  }

  /** What is mapped to a list's frames is what mapping the list would give. */
  lemma {:induction false} MappedIsSgMap(pages: map<nat, nat>, lo: nat, sgl: seq<Entry>)
    requires MappedAs(pages, lo, ListFrames(sgl))
    ensures pages == SgMap(pages - Range(lo, Total(sgl)), lo, sgl)
    ensures Range(lo, Total(sgl)) <= pages.Keys
  {
    var m, f := pages - Range(lo, Total(sgl)), ListFrames(sgl);
    SgMapIsMapAll(m, lo, sgl);
    MapAllAt(m, lo, f);
    NewlyMapped(m, lo, f);
  }

  lemma {:induction false} ListOwned(s: State, lo: nat, src: seq<Entry>)
    requires Accounted(s) && lo in s.owners && s.owners[lo] == List(src)
    ensures lo in s.b.iovas && s.b.iovas[lo] == Total(src) && Range(lo, Total(src)) <= s.b.pages.Keys
    ensures s.b.pages == SgMap(s.b.pages - Range(lo, Total(src)), lo, src)
  {
    assert s.b.iovas[lo] == s.owners[lo].Length() && MappedAs(s.b.pages, lo, ListFrames(src));
    MappedIsSgMap(s.b.pages, lo, src);
  }

  /** A list that is mapped, after whatever came in between: it gets its addresses back, and the range is gone. */
  method CallUnmap(m: Mapper, sgl: array<Entry>, ghost src: seq<Entry>, ghost lo: nat, ghost s: State)
    returns (ghost t: State)
    requires Keeps(m.dma, s) && lo in s.owners && s.owners[lo] == List(src)
    requires 0 < sgl.Length && Placed(sgl[..], src, lo, sgl.Length) && NonEmpty(src) && Addressable(src)
    modifies sgl, m.dma`iovas, m.dma.mmu`ram, m.dma.mmu`bus, m.dma.mmu`l2Pts, m.dma.mmu`pages, m.dma.mmu`refusals
    ensures Can(s, UnmapList(lo)) && t == Do(s, UnmapList(lo)) && Keeps(m.dma, t) && sgl[..] == src
  {
    ListOwned(s, lo, src);
    assert src[..sgl.Length] == src;
    UnmapListKeeps(s, lo);
    t := Do(s, UnmapList(lo));
    m.UnmapMoved(sgl, sgl.Length, lo, src, s.b.pages - Range(lo, Total(src)));
  }

  method CallTrash(dma: Dma, page: nat, ghost s: State) returns (ok: bool, ghost t: State)
    requires Keeps(dma, s)
    modifies dma, dma.mmu
    ensures ok ==> exists lo, frame ::
      Can(s, MapTrash(lo, frame, page)) && t == Do(s, MapTrash(lo, frame, page)) && Keeps(dma, t)
    ensures !ok ==> t == s && exists lo :: GaveUp(s.b, dma.Books(), dma.mmu.Present(), lo)
  {
    var lo;
    ghost var frame;
    ok, lo, frame := AllocTrash(dma, page);
    t := s;
    if ok {
      MapTrashKeeps(s, lo, frame, page);
      t := Do(s, MapTrash(lo, frame, page));
    }
  }
}
