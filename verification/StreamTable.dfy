/**
 * The refcounted stream slots (kernel/ipu4/ipu6-isys-video.c:942-1063): a slot is live while somebody
 * holds it, is found by (sub-device, virtual channel), by handle or by (source, virtual channel),
 * and is recycled when the last holder puts it.  Each operation runs under one lock.
 */
module StreamTable {
  import opened Common

  const MAX_STREAMS: nat := 8
  const NR_OF_CSI2_VC: nat := 4

  /** What identifies a stream, and the port it was set up with. */
  datatype Slot = Slot(asd: int, vc: nat, source: int)

  datatype Table = Table(slots: seq<Slot>, count: seq<nat>) {
    predicate Shape() { |slots| == MAX_STREAMS && |count| == MAX_STREAMS }

    predicate Live(i: nat)
      requires i < |count|
    {
      count[i] > 0
    }

    predicate Matches(i: nat, asd: int, vc: nat)
      requires Shape() && i < MAX_STREAMS
    {
      Live(i) && slots[i].vc == vc && slots[i].asd == asd
    }

    predicate FromSource(i: nat, source: int, vc: nat)
      requires Shape() && i < MAX_STREAMS
    {
      Live(i) && slots[i].source == source && slots[i].vc == vc
    }

    /** No two live slots have the same identity. */
    ghost predicate Valid() {
      && Shape()
      && (forall i, j :: 0 <= i < j < MAX_STREAMS && Live(i) && Live(j) ==> Differ(slots[i], slots[j]))
    }

    function Hold(i: nat): Table
      requires i < |count|
    {
      this.(count := count[i := count[i] + 1])
    }
  }

  predicate Differ(s: Slot, t: Slot) { s.asd != t.asd || s.vc != t.vc }

  // ----- what the searches find

  /** First live slot from `i` on with this identity, or MAX_STREAMS. */
  function FindLive(t: Table, asd: int, vc: nat, i: nat): (j: nat)
    requires t.Shape() && i <= MAX_STREAMS
    ensures i <= j <= MAX_STREAMS
    ensures forall k :: i <= k < j ==> !t.Matches(k, asd, vc)
    ensures j < MAX_STREAMS ==> t.Matches(j, asd, vc)
    decreases MAX_STREAMS - i
  {
    if i == MAX_STREAMS || t.Matches(i, asd, vc) then i else FindLive(t, asd, vc, i + 1)
  }

  function FindFree(t: Table, i: nat): (j: nat)
    requires t.Shape() && i <= MAX_STREAMS
    ensures i <= j <= MAX_STREAMS
    ensures forall k :: i <= k < j ==> t.Live(k)
    ensures j < MAX_STREAMS ==> !t.Live(j)
    decreases MAX_STREAMS - i
  {
    if i == MAX_STREAMS || !t.Live(i) then i else FindFree(t, i + 1)
  }

  function FindSource(t: Table, source: int, vc: nat, i: nat): (j: nat)
    requires t.Shape() && i <= MAX_STREAMS
    ensures i <= j <= MAX_STREAMS
    ensures forall k :: i <= k < j ==> !t.FromSource(k, source, vc)
    ensures j < MAX_STREAMS ==> t.FromSource(j, source, vc)
    decreases MAX_STREAMS - i
  {
    if i == MAX_STREAMS || t.FromSource(i, source, vc) then i else FindSource(t, source, vc, i + 1)
  }

  // ----- the operations as steps

  datatype Step =
    | Get(asd: int, vc: nat)
    | ByHandle(handle: nat)
    | BySource(source: int, vc: nat)
    | Put(i: nat)
    /** `ipu6_isys_video_prepare_stream`. */
    | SetSource(i: nat, source: int)

  /** A put or a setup may be on any slot, also on one nobody holds. */
  predicate Can(t: Table, a: Step) {
    t.Shape() && (a.Put? || a.SetSource? ==> a.i < MAX_STREAMS)
  }

  /** The slot a call returns, None for NULL. */
  function Result(t: Table, a: Step): Option<nat>
    requires t.Shape()
  {
    match a
    case Get(asd, vc) =>
      var i := FindLive(t, asd, vc, 0);
      var j := FindFree(t, 0);
      if i < MAX_STREAMS then Some(i) else if j < MAX_STREAMS then Some(j) else None
    case ByHandle(h) => if h < MAX_STREAMS && t.Live(h) then Some(h) else None
    case BySource(source, vc) =>
      var i := FindSource(t, source, vc, 0);
      if source >= 0 && i < MAX_STREAMS then Some(i) else None
    case Put(_) => None
    case SetSource(_, _) => None
  }

  function Do(t: Table, a: Step): Table
    requires Can(t, a)
  {
    match a
    case Get(asd, vc) =>
      var r := Result(t, a);
      if r.None? then t
      else if t.Live(r.value) then t.Hold(r.value)
      else t.(slots := t.slots[r.value := t.slots[r.value].(asd := asd, vc := vc)]).Hold(r.value)
    case ByHandle(_) => if Result(t, a).None? then t else t.Hold(Result(t, a).value)
    case BySource(_, _) => if Result(t, a).None? then t else t.Hold(Result(t, a).value)
    case Put(i) => if t.Live(i) then t.(count := t.count[i := t.count[i] - 1]) else t
    case SetSource(i, source) => t.(slots := t.slots[i := t.slots[i].(source := source)])
  }

  lemma {:induction false} HoldKeepsValid(t: Table, i: nat)
    requires t.Valid() && i < MAX_STREAMS && t.Live(i)
    ensures t.Hold(i).Valid()
  {
  }

  /** A free slot may take an identity that no live slot has. */
  lemma {:induction false} ClaimKeepsValid(t: Table, i: nat, s: Slot)
    requires t.Valid() && i < MAX_STREAMS && !t.Live(i)
    requires forall k :: 0 <= k < MAX_STREAMS && t.Live(k) ==> Differ(t.slots[k], s) && Differ(s, t.slots[k])
    ensures t.(slots := t.slots[i := s]).Hold(i).Valid()
  {
    var u := t.(slots := t.slots[i := s]).Hold(i);
    forall j, k | 0 <= j < k < MAX_STREAMS && u.Live(j) && u.Live(k) ensures Differ(u.slots[j], u.slots[k]) {
      assert j != i ==> t.Live(j) && u.slots[j] == t.slots[j];
      assert k != i ==> t.Live(k) && u.slots[k] == t.slots[k];
    }
  }

  lemma {:induction false} PutKeepsValid(t: Table, i: nat)
    requires t.Valid() && Can(t, Put(i))
    ensures Do(t, Put(i)).Valid()
  {
  }

  lemma {:induction false} SetSourceKeepsValid(t: Table, i: nat, source: int)
    requires t.Valid() && Can(t, SetSource(i, source))
    ensures Do(t, SetSource(i, source)).Valid()
  {
  }

  /** Every operation keeps live identities different. */
  lemma {:induction false} StepKeepsValid(t: Table, a: Step)
    requires t.Valid() && Can(t, a)
    ensures Do(t, a).Valid()
  {
    var r := Result(t, a);
    match a
    case Get(asd, vc) =>
      if r.Some? {
        if t.Live(r.value) {
          HoldKeepsValid(t, r.value);
        } else {
          ClaimKeepsValid(t, r.value, t.slots[r.value].(asd := asd, vc := vc));
        }
      }
    case Put(i) => PutKeepsValid(t, i);
    case SetSource(i, source) => SetSourceKeepsValid(t, i, source);
    case _ => if r.Some? { HoldKeepsValid(t, r.value); }
  }

  /** A get returns a live slot with the identity asked for, and fails only if all slots are taken by others. */
  lemma {:induction false} GetExact(t: Table, asd: int, vc: nat)
    requires t.Valid()
    ensures var u := Do(t, Get(asd, vc)); var r := Result(t, Get(asd, vc));
      && (r.Some? ==>
            && r.value < MAX_STREAMS && u.slots[r.value].asd == asd && u.slots[r.value].vc == vc
            && u.count == t.count[r.value := t.count[r.value] + 1])
      && (r.None? <==> forall i :: 0 <= i < MAX_STREAMS ==>
            t.count[i] > 0 && (t.slots[i].asd != asd || t.slots[i].vc != vc))
      && (r.None? ==> u == t)
      && (forall i :: 0 <= i < MAX_STREAMS && t.count[i] > 0 && t.slots[i].asd == asd && t.slots[i].vc == vc ==>
            r == Some(i) && u.slots == t.slots)
      && (forall i :: 0 <= i < MAX_STREAMS && r != Some(i) ==> u.slots[i] == t.slots[i])
  {
    forall i | 0 <= i < MAX_STREAMS && t.Matches(i, asd, vc) ensures FindLive(t, asd, vc, 0) == i {
      var j := FindLive(t, asd, vc, 0);
      assert j <= i && t.Matches(j, asd, vc);
      assert !Differ(t.slots[j], t.slots[i]);
    }
    assert forall i :: 0 <= i < MAX_STREAMS ==>
      (t.Matches(i, asd, vc) <==> t.count[i] > 0 && t.slots[i].asd == asd && t.slots[i].vc == vc);
  }

  /** One more reference to slot `i`, and nothing else. */
  ghost predicate OneMore(before: Table, after: Table, i: nat) {
    i < |before.count| && after.slots == before.slots && after.count == before.count[i := before.count[i] + 1]
  }

  /** A query by handle gives exactly that slot, if it is live; otherwise NULL, and nothing changes. */
  lemma {:induction false} ByHandleExact(t: Table, h: nat)
    requires t.Shape()
    ensures var r, u := Result(t, ByHandle(h)), Do(t, ByHandle(h));
      if h < MAX_STREAMS && t.count[h] > 0 then r == Some(h) && OneMore(t, u, h) else r == None && u == t
  {
  }

  /** Slot `i` is live and was set up with this source and channel. */
  ghost predicate SetUpAs(t: Table, i: nat, source: int, vc: nat) {
    i < |t.count| && i < |t.slots| && t.count[i] > 0 && t.slots[i].source == source && t.slots[i].vc == vc
  }

  /** A query by source gives the first live slot with that source and channel; without one, or with no source, NULL. */
  lemma {:induction false} BySourceExact(t: Table, source: int, vc: nat)
    requires t.Shape()
    ensures var r, u := Result(t, BySource(source, vc)), Do(t, BySource(source, vc));
      && (r.Some? ==>
            && source >= 0 && SetUpAs(t, r.value, source, vc) && OneMore(t, u, r.value)
            && forall i :: 0 <= i < r.value ==> !SetUpAs(t, i, source, vc))
      && (r.None? ==> u == t && (source < 0 || forall i :: 0 <= i < MAX_STREAMS ==> !SetUpAs(t, i, source, vc)))
  {
    assert forall i :: 0 <= i < MAX_STREAMS ==> (t.FromSource(i, source, vc) <==> SetUpAs(t, i, source, vc));
  }

  /** Setting up a live stream makes it one that a query by its source and channel can find. */
  lemma {:induction false} SetupThenQuery(t: Table, i: nat, source: int)
    requires t.Shape() && i < MAX_STREAMS && t.count[i] > 0 && source >= 0
    ensures var u := Do(t, SetSource(i, source)); var r := Result(u, BySource(source, t.slots[i].vc));
      && u.count == t.count && u.slots[i] == t.slots[i].(source := source)
      && (forall k :: 0 <= k < MAX_STREAMS && k != i ==> u.slots[k] == t.slots[k])
      && r.Some? && r.value <= i && SetUpAs(u, r.value, source, t.slots[i].vc)
  {
    var u := Do(t, SetSource(i, source));
    BySourceExact(u, source, t.slots[i].vc);
    assert SetUpAs(u, i, source, t.slots[i].vc);
  }

  /** As long as a slot is live, no operation changes whose stream it is. */
  lemma {:induction false} StepKeepsIdentity(t: Table, a: Step, i: nat)
    requires Can(t, a) && i < MAX_STREAMS && t.Live(i)
    ensures Do(t, a).Shape() && !Differ(Do(t, a).slots[i], t.slots[i])
  {
  }

  /** State `n + 1` follows from state `n` by operation `n`. */
  ghost predicate Next(run: seq<Table>, acts: seq<Step>, n: nat)
    requires n < |acts| && n + 1 < |run|
  {
    Can(run[n], acts[n]) && run[n + 1] == Do(run[n], acts[n])
  }

  ghost predicate Empty(t: Table) {
    t.Shape() && forall i :: 0 <= i < MAX_STREAMS ==> t.count[i] == 0
  }

  ghost predicate Run(run: seq<Table>, acts: seq<Step>) {
    |run| == |acts| + 1 && Empty(run[0]) && forall n :: 0 <= n < |acts| ==> Next(run, acts, n)
  }

  /** In every state of every run, also with puts by anybody, live slots differ. */
  lemma {:induction false} RunValid(run: seq<Table>, acts: seq<Step>, n: nat)
    requires Run(run, acts) && n < |run|
    ensures run[n].Valid()
  {
    if n > 0 {
      RunValid(run, acts, n - 1);
      assert Next(run, acts, n - 1);
      StepKeepsValid(run[n - 1], acts[n - 1]);
    }
  }

  ghost predicate LiveThroughout(run: seq<Table>, m: nat, n: nat, i: nat)
    requires m <= n < |run|
  {
    forall k {:trigger run[k]} :: m <= k <= n ==> i < |run[k].count| && run[k].Live(i)
  }

  /** Over any stretch of a run in which a slot stays live, its identity stays the same. */
  lemma {:induction false} RunIdentity(run: seq<Table>, acts: seq<Step>, m: nat, n: nat, i: nat)
    requires Run(run, acts) && m <= n < |run| && i < MAX_STREAMS && LiveThroughout(run, m, n, i)
    ensures run[m].Shape() && run[n].Shape() && !Differ(run[m].slots[i], run[n].slots[i])
    decreases n
  {
    if m == n {
      assert run[m].Shape() by { RunValid(run, acts, m); }
    } else {
      assert LiveThroughout(run, m, n - 1, i) && run[n - 1].Live(i);
      RunIdentity(run, acts, m, n - 1, i);
      assert Next(run, acts, n - 1);
      StepKeepsIdentity(run[n - 1], acts[n - 1], i);
    }
  }

  /** What a query takes, the matching put gives back. */
  lemma {:induction false} QueryThenPut(t: Table, a: Step)
    requires t.Valid() && (a.ByHandle? || a.BySource?)
    ensures Result(t, a).Some? ==> Can(Do(t, a), Put(Result(t, a).value)) && Do(Do(t, a), Put(Result(t, a).value)) == t
    ensures Result(t, a).None? ==> Do(t, a) == t
  {
    if Result(t, a).Some? {
      var i := Result(t, a).value;
      var u := Do(t, a);
      var v := Do(u, Put(i));
      assert u.count[i] == t.count[i] + 1;
      assert v.count == t.count;
    }
  }

  // ----- who holds what

  /** What a holder got: a slot, and whose stream it was then. */
  datatype Ref = Ref(slot: nat, asd: int, vc: nat)

  /** The table and the references not yet put, by holder. */
  datatype World = World(table: Table, refs: map<nat, Ref>)

  ghost function Holders(refs: map<nat, Ref>, i: nat): set<nat> {
    set h | h in refs && refs[h].slot == i
  }

  /** The table's operations by somebody: each get or query has a holder, and only a holder puts or sets up. */
  datatype Act =
    | Acquire(h: nat, a: Step)
    | Release(h: nat)
    | Setup(h: nat, source: int)

  predicate Able(w: World, x: Act) {
    && w.table.Shape()
    && match x
       case Acquire(h, a) => h !in w.refs && (a.Get? || a.ByHandle? || a.BySource?)
       case Release(h) => h in w.refs && w.refs[h].slot < MAX_STREAMS
       case Setup(h, _) => h in w.refs && w.refs[h].slot < MAX_STREAMS
  }

  function After(w: World, x: Act): World
    requires Able(w, x)
  {
    match x
    case Acquire(h, a) =>
      var r, t := Result(w.table, a), Do(w.table, a);
      if r.None? then w.(table := t)
      else World(t, w.refs[h := Ref(r.value, t.slots[r.value].asd, t.slots[r.value].vc)])
    case Release(h) => World(Do(w.table, Put(w.refs[h].slot)), w.refs - {h})
    case Setup(h, source) => w.(table := Do(w.table, SetSource(w.refs[h].slot, source)))
  }

  /** The holder's slot is still the stream it got. */
  ghost predicate RefOk(t: Table, ref: Ref)
    requires t.Shape()
  {
    ref.slot < MAX_STREAMS && t.Matches(ref.slot, ref.asd, ref.vc)
  }

  /** Counts are the numbers of holders, every holder's slot is live and its own, and live slots differ. */
  ghost predicate Sound(w: World) {
    && w.table.Valid()
    && (forall i :: 0 <= i < MAX_STREAMS ==> w.table.count[i] == |Holders(w.refs, i)|)
    && (forall h :: h in w.refs ==> RefOk(w.table, w.refs[h]))
  }

  lemma {:induction false} HoldersMore(refs: map<nat, Ref>, h: nat, ref: Ref, i: nat)
    requires h !in refs
    ensures |Holders(refs[h := ref], i)| == |Holders(refs, i)| + if ref.slot == i then 1 else 0
  {
    assert Holders(refs[h := ref], i) == Holders(refs, i) + if ref.slot == i then {h} else {};
  }

  lemma {:induction false} HoldersLess(refs: map<nat, Ref>, h: nat, i: nat)
    requires h in refs
    ensures |Holders(refs - {h}, i)| == |Holders(refs, i)| - if refs[h].slot == i then 1 else 0
  {
    assert Holders(refs, i) == Holders(refs - {h}, i) + if refs[h].slot == i then {h} else {};
  }

  /** A get or a query returns a live slot and counts one more; nothing a holder relies on changes. */
  lemma {:induction false} AcquireEffect(t: Table, a: Step)
    requires t.Valid() && (a.Get? || a.ByHandle? || a.BySource?)
    ensures var r, u := Result(t, a), Do(t, a);
      && u.Shape() && (r.None? ==> u == t)
      && (r.Some? ==> r.value < MAX_STREAMS && u.count == t.count[r.value := t.count[r.value] + 1])
      && (forall ref :: RefOk(t, ref) ==> RefOk(u, ref))
  {
    if a.Get? { GetExact(t, a.asd, a.vc); }
  }

  lemma {:induction false} AcquireKeepsSound(w: World, h: nat, a: Step)
    requires Sound(w) && Able(w, Acquire(h, a))
    ensures Sound(After(w, Acquire(h, a)))
  {
    var r, w' := Result(w.table, a), After(w, Acquire(h, a));
    StepKeepsValid(w.table, a);
    AcquireEffect(w.table, a);
    if r.Some? {
      forall i | 0 <= i < MAX_STREAMS ensures w'.table.count[i] == |Holders(w'.refs, i)| {
        HoldersMore(w.refs, h, w'.refs[h], i);
      }
    }
  }

  lemma {:induction false} ReleaseKeepsSound(w: World, h: nat)
    requires Sound(w) && h in w.refs
    ensures Able(w, Release(h)) && Sound(After(w, Release(h)))
  {
    assert RefOk(w.table, w.refs[h]);
    var s, w' := w.refs[h].slot, After(w, Release(h));
    StepKeepsValid(w.table, Put(s));
    forall i | 0 <= i < MAX_STREAMS ensures w'.table.count[i] == |Holders(w'.refs, i)| {
      HoldersLess(w.refs, h, i);
    }
    forall g | g in w'.refs ensures RefOk(w'.table, w'.refs[g]) {
      assert RefOk(w.table, w.refs[g]);
      assert g in Holders(w'.refs, w'.refs[g].slot);
    }
  }

  lemma {:induction false} SetupKeepsSound(w: World, h: nat, source: int)
    requires Sound(w) && h in w.refs
    ensures Able(w, Setup(h, source)) && Sound(After(w, Setup(h, source)))
  {
    assert RefOk(w.table, w.refs[h]);
    StepKeepsValid(w.table, SetSource(w.refs[h].slot, source));
    forall g | g in w.refs ensures RefOk(After(w, Setup(h, source)).table, w.refs[g]) {
      assert RefOk(w.table, w.refs[g]);
    }
  }

  /** Every operation by a holder keeps all holders' references sound. */
  lemma {:induction false} ActKeepsSound(w: World, x: Act)
    requires Sound(w) && Able(w, x)
    ensures Sound(After(w, x))
  {
    match x
    case Acquire(h, a) => AcquireKeepsSound(w, h, a);
    case Release(h) => ReleaseKeepsSound(w, h);
    case Setup(h, source) => SetupKeepsSound(w, h, source);
  }

  ghost predicate NextAct(run: seq<World>, acts: seq<Act>, n: nat)
    requires n < |acts| && n + 1 < |run|
  {
    Able(run[n], acts[n]) && run[n + 1] == After(run[n], acts[n])
  }

  /** A run of holders: every holder puts what it got, at most once, and nothing else. */
  ghost predicate HolderRun(run: seq<World>, acts: seq<Act>) {
    && |run| == |acts| + 1 && Empty(run[0].table) && run[0].refs == map[]
    && forall n :: 0 <= n < |acts| ==> NextAct(run, acts, n)
  }

  /** In every state of every run of holders, counts are the numbers of holders and all references are sound. */
  lemma {:induction false} RunSound(run: seq<World>, acts: seq<Act>, n: nat)
    requires HolderRun(run, acts) && n < |run|
    ensures Sound(run[n])
  {
    if n == 0 {
      forall i | 0 <= i < MAX_STREAMS ensures |Holders(run[0].refs, i)| == 0 {
        assert Holders(run[0].refs, i) == {};
      }
    } else {
      RunSound(run, acts, n - 1);
      assert NextAct(run, acts, n - 1);
      ActKeepsSound(run[n - 1], acts[n - 1]);
    }
  }

  ghost predicate NotReleased(acts: seq<Act>, m: nat, n: nat, h: nat) {
    n <= |acts| && forall k {:trigger acts[k]} :: m <= k < n ==> acts[k] != Release(h)
  }

  /** A reference stays what it is until its holder puts it. */
  lemma {:induction false} RefKept(run: seq<World>, acts: seq<Act>, m: nat, n: nat, h: nat)
    requires HolderRun(run, acts) && m <= n < |run| && h in run[m].refs && NotReleased(acts, m, n, h)
    ensures h in run[n].refs && run[n].refs[h] == run[m].refs[h]
    decreases n
  {
    if m < n {
      RefKept(run, acts, m, n - 1, h);
      assert NextAct(run, acts, n - 1) && acts[n - 1] != Release(h);
    }
  }

  /**
   * A holder that got a stream for a sub-device and a channel has it until its own put: in every run of
   * holders, in every state between the two, the slot it got is live and still that sub-device's and channel's.
   */
  lemma {:induction false} HolderKeepsStream(run: seq<World>, acts: seq<Act>, m: nat, n: nat, h: nat, asd: int, vc: nat)
    requires HolderRun(run, acts) && m < n < |run| && acts[m] == Acquire(h, Get(asd, vc))
    requires run[m].table.Shape() && Result(run[m].table, Get(asd, vc)).Some? && NotReleased(acts, m + 1, n, h)
    ensures var i, t := Result(run[m].table, Get(asd, vc)).value, run[n].table;
      t.Shape() && i < MAX_STREAMS && t.count[i] > 0 && t.slots[i].asd == asd && t.slots[i].vc == vc
  {
    assert NextAct(run, acts, m);
    RunSound(run, acts, m);
    GetExact(run[m].table, asd, vc);
    RefKept(run, acts, m + 1, n, h);
    RunSound(run, acts, n);
    assert RefOk(run[n].table, run[n].refs[h]);
  }

  /**
   * While it holds the stream, a query by the handle it got, as for every response the device posts to it,
   * finds that very stream.
   */
  lemma {:induction false} HolderFoundByHandle(
    run: seq<World>, acts: seq<Act>, m: nat, n: nat, h: nat, asd: int, vc: nat)
    requires HolderRun(run, acts) && m < n < |run| && acts[m] == Acquire(h, Get(asd, vc))
    requires run[m].table.Shape() && Result(run[m].table, Get(asd, vc)).Some? && NotReleased(acts, m + 1, n, h)
    ensures var i, t := Result(run[m].table, Get(asd, vc)).value, run[n].table;
      t.Shape() && i < MAX_STREAMS && Result(t, ByHandle(i)) == Some(i) && t.slots[i].asd == asd && t.slots[i].vc == vc
  {
    HolderKeepsStream(run, acts, m, n, h, asd, vc);
    ByHandleExact(run[n].table, Result(run[m].table, Get(asd, vc)).value);
  }

  /** Why only holders may put: one put too many, and the slot is given to another stream under its holder. */
  lemma {:induction false} StrayPut(t: Table, asd: int, vc: nat, other: int)
    requires Empty(t) && asd != other
    ensures var g := Get(asd, vc); var u := Do(t, g);
      && Result(t, g) == Some(0) && u.Matches(0, asd, vc)
      && Can(u, Put(0)) && var v := Do(u, Put(0));
      && v.Shape() && Result(v, Get(other, vc)) == Some(0) && Do(v, Get(other, vc)).Matches(0, other, vc)
  {
  }

  // ----- the driver's code

  class Isys {
    const slots: array<Slot>
    const refs: array<nat>

    ghost predicate Ok()
      reads this, slots, refs
    {
      slots.Length == MAX_STREAMS && refs.Length == MAX_STREAMS && Now().Valid()
    }

    ghost function Now(): Table
      reads this, slots, refs
    {
      Table(slots[..], refs[..])
    }

    constructor ()
      ensures Ok() && Empty(Now()) && fresh(slots) && fresh(refs)
    {
      slots := new Slot[MAX_STREAMS](_ => Slot(0, 0, 0));
      refs := new nat[MAX_STREAMS](_ => 0);
    }

    /** The increment under the lock. */
    method Hold(i: nat)
      requires i < refs.Length
      modifies refs
      ensures Now() == old(Now()).Hold(i)
    {
      refs[i] := refs[i] + 1;
    }

    /** The first search of `ipu6_isys_get_stream`: a live slot with this identity. */
    method FindStream(asd: int, vc: nat) returns (i: nat)
      requires slots.Length == MAX_STREAMS && refs.Length == MAX_STREAMS
      ensures i == FindLive(Now(), asd, vc, 0)
    {
      i := 0;
      while i < MAX_STREAMS && !(refs[i] != 0 && slots[i].vc == vc && slots[i].asd == asd)
        invariant i <= MAX_STREAMS && FindLive(Now(), asd, vc, i) == FindLive(Now(), asd, vc, 0)
      {
        i := i + 1;
      }
    }

    /** The second one: a slot nobody holds. */
    method FindUnused() returns (i: nat)
      requires slots.Length == MAX_STREAMS && refs.Length == MAX_STREAMS
      ensures i == FindFree(Now(), 0)
    {
      i := 0;
      while i < MAX_STREAMS && refs[i] != 0
        invariant i <= MAX_STREAMS && FindFree(Now(), i) == FindFree(Now(), 0)
      {
        i := i + 1;
      }
    }

    /** `ipu6_isys_get_stream`. */
    method GetStream(asd: int, vc: nat) returns (r: Option<nat>)
      requires Ok()
      modifies refs, slots
      ensures Ok() && r == Result(old(Now()), Get(asd, vc)) && Now() == Do(old(Now()), Get(asd, vc))
    {
      ghost var t := Now();
      StepKeepsValid(t, Get(asd, vc));
      var i := FindStream(asd, vc);
      if i < MAX_STREAMS {
        Hold(i);
        return Some(i);
      }
      i := FindUnused();
      if i == MAX_STREAMS { return None; }
      slots[i] := slots[i].(asd := asd, vc := vc);
      assert Now() == t.(slots := t.slots[i := t.slots[i].(asd := asd, vc := vc)]);
      Hold(i);
      return Some(i);
    }

    /** `ipu6_isys_query_stream_by_handle`. */
    method QueryByHandle(handle: nat) returns (r: Option<nat>)
      requires Ok()
      modifies refs
      ensures Ok() && r == Result(old(Now()), ByHandle(handle)) && Now() == Do(old(Now()), ByHandle(handle))
      ensures if handle < MAX_STREAMS && old(refs[..])[handle] > 0
              then r == Some(handle) && refs[..] == old(refs[..])[handle := old(refs[..])[handle] + 1]
              else r == None && refs[..] == old(refs[..])
    {
      ByHandleExact(Now(), handle);
      StepKeepsValid(Now(), ByHandle(handle));
      r := None;
      if handle >= MAX_STREAMS { return; }
      if refs[handle] > 0 {
        Hold(handle);
        r := Some(handle);
      }
    }

    /** `ipu6_isys_query_stream_by_source`. */
    method QueryBySource(source: int, vc: nat) returns (r: Option<nat>)
      requires Ok()
      modifies refs
      ensures Ok() && r == Result(old(Now()), BySource(source, vc)) && Now() == Do(old(Now()), BySource(source, vc))
      ensures r.Some? ==>
        && source >= 0 && SetUpAs(old(Now()), r.value, source, vc) && OneMore(old(Now()), Now(), r.value)
        && forall i :: 0 <= i < r.value ==> !SetUpAs(old(Now()), i, source, vc)
      ensures r.None? ==> Now() == old(Now())
    {
      BySourceExact(Now(), source, vc);
      ghost var t := Now();
      StepKeepsValid(t, BySource(source, vc));
      r := None;
      if source < 0 { return; }
      var i: nat := 0;
      while i < MAX_STREAMS
        invariant i <= MAX_STREAMS && Now() == t && r == None &&
          FindSource(t, source, vc, i) == FindSource(t, source, vc, 0)
      {
        if refs[i] != 0 {
          if slots[i].source == source && slots[i].vc == vc {
            Hold(i);
            return Some(i);
          }
        }
        i := i + 1;
      }
    }

    /** `ipu6_isys_put_stream`; NULL and a slot nobody holds are reported and ignored. */
    method PutStream(stream: Option<nat>)
      requires Ok()
      modifies refs
      ensures Ok()
      ensures Now() == if stream.None? || stream.value >= MAX_STREAMS then old(Now())
                       else Do(old(Now()), Put(stream.value))
      ensures stream.Some? && stream.value < MAX_STREAMS && old(refs[..])[stream.value] > 0 ==>
        refs[..] == old(refs[..])[stream.value := old(refs[..])[stream.value] - 1]
    {
      if stream.None? { return; }
      var i: nat := 0;
      while i < MAX_STREAMS && i != stream.value
        invariant i <= stream.value && i <= MAX_STREAMS
      {
        i := i + 1;
      }
      if i == MAX_STREAMS { return; }
      StepKeepsValid(Now(), Put(i));
      if refs[i] > 0 {
        refs[i] := refs[i] - 1;
      }
    }

    /**
     * The bracket of `isys_isr_one` around one response: `stream` is what the response is handled for, the live
     * stream of that handle, if any; afterwards the table is as before.
     */
    method ResponsePath(handle: nat) returns (stream: Option<nat>)
      requires Ok()
      modifies refs
      ensures Ok() && Now() == old(Now())
      ensures stream == if handle < MAX_STREAMS && refs[handle] > 0 then Some(handle) else None
    {
      if handle >= MAX_STREAMS { return None; }
      QueryThenPut(Now(), ByHandle(handle));
      stream := QueryByHandle(handle);
      if stream.None? { return; }
      PutStream(stream);
    }

    /** One frame-start or frame-end event of `ipu6_isys_csi2_isr`: the stream it is for, if any. */
    method SourceEvent(source: int, vc: nat) returns (stream: Option<nat>)
      requires Ok()
      modifies refs
      ensures Ok() && Now() == old(Now()) && stream == Result(Now(), BySource(source, vc))
    {
      QueryThenPut(Now(), BySource(source, vc));
      stream := QueryBySource(source, vc);
      if stream.Some? { PutStream(stream); }
    }

    /**
     * `ipu6_isys_csi2_isr`: for every start and every end bit of the status word, in channel order, the stream
     * set up with that source and channel is looked up; afterwards the table is as before.
     */
    method Csi2Isr(source: int, frameStart: seq<bool>, frameEnd: seq<bool>) returns (found: seq<Option<nat>>)
      requires Ok() && |frameStart| == |frameEnd| == NR_OF_CSI2_VC
      modifies refs
      ensures Ok() && Now() == old(Now())
      ensures |found| == |Channels(frameStart, frameEnd, NR_OF_CSI2_VC)|
      ensures forall j :: 0 <= j < |found| ==>
        found[j] == Result(Now(), BySource(source, Channels(frameStart, frameEnd, NR_OF_CSI2_VC)[j]))
    {
      var i: nat := 0;
      found := [];
      while i < NR_OF_CSI2_VC
        invariant i <= NR_OF_CSI2_VC && Ok() && Now() == old(Now())
        invariant |found| == |Channels(frameStart, frameEnd, i)|
        invariant forall j :: 0 <= j < |found| ==>
          found[j] == Result(Now(), BySource(source, Channels(frameStart, frameEnd, i)[j]))
      {
        if frameStart[i] {
          var stream := SourceEvent(source, i);
          found := found + [stream];
        }
        if frameEnd[i] {
          var stream := SourceEvent(source, i);
          found := found + [stream];
        }
        i := i + 1;
      }
    }
  }

  /** The channels of the set bits below channel `n`, starts before ends. */
  function Channels(frameStart: seq<bool>, frameEnd: seq<bool>, n: nat): seq<nat>
    requires n <= |frameStart| && n <= |frameEnd|
  {
    if n == 0 then []
    else
      var c: nat := n - 1;
      Channels(frameStart, frameEnd, c) + (if frameStart[c] then [c] else []) + (if frameEnd[c] then [c] else [])
  }
}
