/**
 * The syscom token rings (kernel/ipu4/ipu6-fw-com.c:331-408): one producer, one consumer, the
 * two cursors in shared registers.  A ring with `queue_size + 1` slots is shown to be a FIFO of
 * capacity `queue_size` under every interleaving of the single register accesses of both sides.
 */
module SyscomRing {
  import opened Common

  /** Cursor after the put code: `+ 1`, then wrap to 0. */
  function Bump(size: nat, c: nat): nat {
    if c + 1 >= size then 0 else c + 1
  }

  /** `packets` as `ipu6_send_get_token` computes it: free slots. */
  function FreeSlots(size: nat, wr: nat, rd: nat): int {
    if wr < rd then rd - wr - 1 else size - (wr - rd + 1)
  }

  /** `packets` as `ipu6_recv_get_token` computes it: tokens waiting. */
  function Waiting(size: nat, wr: nat, rd: nat): int {
    (if wr < rd then wr + size else wr) - rd
  }

  /** Where a cursor stands after `k` bumps from 0. */
  function Slot(size: nat, k: nat): (c: nat)
    requires size > 0
    ensures c < size
  {
    if k == 0 then 0 else Bump(size, Slot(size, k - 1))
  }

  /** Less than a full turn ahead, the cursor has moved by the number of bumps, modulo one wrap. */
  lemma {:induction false} SlotAhead(size: nat, a: nat, d: nat)
    requires size > 0 && d <= size
    ensures Slot(size, a + d) == if Slot(size, a) + d < size then Slot(size, a) + d else Slot(size, a) + d - size
  {
    if d > 0 {
      SlotAhead(size, a, d - 1);
      assert Slot(size, a + d) == Bump(size, Slot(size, a + (d - 1)));
    }
  }

  /** The driver's two packet counts are the abstract ones. */
  lemma {:induction false} CountsExact(size: nat, sent: nat, taken: nat)
    requires size > 0 && taken <= sent < taken + size
    ensures Waiting(size, Slot(size, sent), Slot(size, taken)) == sent - taken
    ensures FreeSlots(size, Slot(size, sent), Slot(size, taken)) == size - 1 - (sent - taken)
  {
    SlotAhead(size, taken, sent - taken);
  }

  lemma {:induction false} SlotsDiffer(size: nat, a: nat, b: nat)
    requires size > 0 && a < b < a + size
    ensures Slot(size, a) != Slot(size, b)
  {
    SlotAhead(size, a, b - a);
  }

  /**
   * Registers and slots hold exactly the tokens `sent[taken..]`, in order, and never more than
   * one less than the number of slots.
   */
  ghost predicate Holds<T(!new)>(size: nat, buf: seq<T>, wr: nat, rd: nat, sent: seq<T>, taken: nat) {
    && size > 0 && |buf| == size
    && taken <= |sent| < taken + size
    && wr == Slot(size, |sent|) && rd == Slot(size, taken)
    && forall k {:trigger Slot(size, k)} :: taken <= k < |sent| ==> buf[Slot(size, k)] == sent[k]
  }

  /** Filling the slot at the write cursor overwrites no unread token. */
  lemma {:induction false} FillSafe<T(!new)>(size: nat, buf: seq<T>, wr: nat, rd: nat, sent: seq<T>, taken: nat, t: T)
    requires Holds(size, buf, wr, rd, sent, taken) && |sent| + 1 < taken + size
    ensures Holds(size, buf[wr := t], wr, rd, sent, taken)
    ensures forall k :: taken <= k < |sent| ==> Slot(size, k) != wr
  {
    forall k | taken <= k < |sent| ensures Slot(size, k) != wr {
      SlotsDiffer(size, k, |sent|);
    }
  }

  lemma {:induction false} Publish<T(!new)>(size: nat, buf: seq<T>, wr: nat, rd: nat, sent: seq<T>, taken: nat, t: T)
    requires Holds(size, buf, wr, rd, sent, taken) && |sent| + 1 < taken + size && buf[wr] == t
    ensures Holds(size, buf, Bump(size, wr), rd, sent + [t], taken)
  {
    forall k | taken <= k < |sent| + 1 ensures buf[Slot(size, k)] == (sent + [t])[k] {
      if k == |sent| { assert Slot(size, k) == wr; }
    }
  }

  lemma {:induction false} Consume<T(!new)>(size: nat, buf: seq<T>, wr: nat, rd: nat, sent: seq<T>, taken: nat)
    requires Holds(size, buf, wr, rd, sent, taken) && taken < |sent|
    ensures buf[rd] == sent[taken]
    ensures Holds(size, buf, wr, Bump(size, rd), sent, taken + 1)
  {
    assert Slot(size, taken + 1) == Bump(size, Slot(size, taken));
  }

  // ----- the interleaving model

  /** Program counter of the producer; `seen` is history: tokens taken when `rd` was read. */
  datatype Producer<T> =
    | PIdle
    | PReadWr(wr: nat)
    | PReadBoth(wr: nat, rd: nat, seen: nat)
    | PRoom
    | PGranted(index: nat)
    | PFilled(token: T)
    | PBumping(token: T, next: nat)

  /** Program counter of the consumer; `seen` is history: tokens sent when `wr` was read. */
  datatype Consumer<T> =
    | CIdle
    | CReadWr(wr: nat, seen: nat)
    | CReadBoth(wr: nat, rd: nat, seen: nat)
    | CGranted(slot: nat)
    | CTaken(token: T)
    | CBumping(token: T, next: nat)

  /** Shared memory, both program counters, and the tokens sent and received so far. */
  datatype Ring<T> = Ring(
    size: nat, buf: seq<T>, wr: nat, rd: nat, prod: Producer<T>, cons: Consumer<T>, sent: seq<T>, got: seq<T>)
  {
    ghost predicate Init() {
      && size > 0 && |buf| == size && wr == 0 && rd == 0
      && prod == PIdle && cons == CIdle && sent == [] && got == []
    }

    /** The FIFO this ring stands for. */
    function Content(): seq<T>
      requires |got| <= |sent|
    {
      sent[|got|..]
    }
  }

  /** One access to a register or a slot. */
  datatype Label<T> =
    | ReadWrP | ReadRdP | CheckP | ReadIndexP | FillP(token: T) | ReadBumpP | WriteBumpP
    | ReadWrC | ReadRdC | CheckC | TakeC | ReadBumpC | WriteBumpC

  ghost predicate Step<T>(s: Ring<T>, l: Label<T>, s': Ring<T>) {
    match l
    // ipu6_send_get_token
    case ReadWrP => s.prod == PIdle && s' == s.(prod := PReadWr(s.wr))
    case ReadRdP => s.prod.PReadWr? && s' == s.(prod := PReadBoth(s.prod.wr, s.rd, |s.got|))
    case CheckP =>
      && s.prod.PReadBoth?
      && var ok := s.prod.wr < s.size && s.prod.rd < s.size && FreeSlots(s.size, s.prod.wr, s.prod.rd) != 0;
      s' == s.(prod := if ok then PRoom else PIdle)
    case ReadIndexP => s.prod.PRoom? && s' == s.(prod := PGranted(s.wr))
    case FillP(t) =>
      && s.prod.PGranted? && s.prod.index < |s.buf|
      && s' == s.(buf := s.buf[s.prod.index := t], prod := PFilled(t))
    // ipu6_send_put_token
    case ReadBumpP => s.prod.PFilled? && s' == s.(prod := PBumping(s.prod.token, Bump(s.size, s.wr)))
    case WriteBumpP =>
      s.prod.PBumping? && s' == s.(wr := s.prod.next, sent := s.sent + [s.prod.token], prod := PIdle)
    // ipu6_recv_get_token
    case ReadWrC => s.cons == CIdle && s' == s.(cons := CReadWr(s.wr, |s.sent|))
    case ReadRdC => s.cons.CReadWr? && s' == s.(cons := CReadBoth(s.cons.wr, s.rd, s.cons.seen))
    case CheckC =>
      && s.cons.CReadBoth?
      && var ok := s.cons.wr < s.size && s.cons.rd < s.size && Waiting(s.size, s.cons.wr, s.cons.rd) != 0;
      s' == s.(cons := if ok then CGranted(s.cons.rd) else CIdle)
    case TakeC => s.cons.CGranted? && s.cons.slot < |s.buf| && s' == s.(cons := CTaken(s.buf[s.cons.slot]))
    // ipu6_recv_put_token
    case ReadBumpC => s.cons.CTaken? && s' == s.(cons := CBumping(s.cons.token, Bump(s.size, s.rd)))
    case WriteBumpC =>
      s.cons.CBumping? && s' == s.(rd := s.cons.next, got := s.got + [s.cons.token], cons := CIdle)
  }

  ghost predicate ProducerInv<T(!new)>(s: Ring<T>)
    requires s.size > 0 && |s.buf| == s.size
  {
    match s.prod
    case PIdle => true
    case PReadWr(wr) => wr == s.wr
    case PReadBoth(wr, rd, seen) =>
      wr == s.wr && seen <= |s.got| && |s.sent| < seen + s.size && rd == Slot(s.size, seen)
    case PRoom => |s.sent| + 1 < |s.got| + s.size
    case PGranted(index) => |s.sent| + 1 < |s.got| + s.size && index == s.wr
    case PFilled(t) => |s.sent| + 1 < |s.got| + s.size && s.wr < s.size && s.buf[s.wr] == t
    case PBumping(t, next) =>
      |s.sent| + 1 < |s.got| + s.size && s.wr < s.size && s.buf[s.wr] == t && next == Bump(s.size, s.wr)
  }

  ghost predicate ConsumerInv<T(!new)>(s: Ring<T>)
    requires s.size > 0
  {
    match s.cons
    case CIdle => true
    case CReadWr(wr, seen) => |s.got| <= seen <= |s.sent| && wr == Slot(s.size, seen)
    case CReadBoth(wr, rd, seen) => |s.got| <= seen <= |s.sent| && wr == Slot(s.size, seen) && rd == s.rd
    case CGranted(slot) => |s.got| < |s.sent| && slot == s.rd
    case CTaken(t) => |s.got| < |s.sent| && t == s.sent[|s.got|]
    case CBumping(t, next) => |s.got| < |s.sent| && t == s.sent[|s.got|] && next == Bump(s.size, s.rd)
  }

  ghost predicate Inv<T(!new)>(s: Ring<T>) {
    && Holds(s.size, s.buf, s.wr, s.rd, s.sent, |s.got|)
    && s.got <= s.sent
    && ProducerInv(s) && ConsumerInv(s)
  }

  /** A step of the bounded FIFO: nothing, an append below capacity, or removal of the head. */
  ghost predicate FifoStep<T(!new)>(capacity: nat, q: seq<T>, q': seq<T>) {
    || q' == q
    || (|q| < capacity && |q'| == |q| + 1 && q == q'[..|q|])
    || (q != [] && q' == q[1..])
  }

  predicate ByProducer<T>(l: Label<T>) {
    l.ReadWrP? || l.ReadRdP? || l.CheckP? || l.ReadIndexP? || l.FillP? || l.ReadBumpP? || l.WriteBumpP?
  }

  lemma {:induction false} ProducerKeepsInv<T(!new)>(s: Ring<T>, l: Label<T>, s': Ring<T>)
    requires Inv(s) && Step(s, l, s') && ByProducer(l)
    ensures Inv(s')
  {
    match l
    case FillP(t) => FillSafe(s.size, s.buf, s.wr, s.rd, s.sent, |s.got|, t);
    case CheckP => CountsExact(s.size, |s.sent|, s.prod.seen);
    case WriteBumpP => Publish(s.size, s.buf, s.wr, s.rd, s.sent, |s.got|, s.prod.token);
    case _ =>
  }

  lemma {:induction false} ConsumerKeepsInv<T(!new)>(s: Ring<T>, l: Label<T>, s': Ring<T>)
    requires Inv(s) && Step(s, l, s') && !ByProducer(l)
    ensures Inv(s')
  {
    match l
    case CheckC => CountsExact(s.size, s.cons.seen, |s.got|);
    case TakeC => Consume(s.size, s.buf, s.wr, s.rd, s.sent, |s.got|);
    case WriteBumpC => Consume(s.size, s.buf, s.wr, s.rd, s.sent, |s.got|);
    case _ =>
  }

  /** Every single access keeps the invariant. */
  lemma {:induction false} StepKeepsInv<T(!new)>(s: Ring<T>, l: Label<T>, s': Ring<T>)
    requires Inv(s) && Step(s, l, s')
    ensures Inv(s')
  {
    if ByProducer(l) { ProducerKeepsInv(s, l, s'); } else { ConsumerKeepsInv(s, l, s'); }
  }

  /**
   * The ring refines a FIFO of capacity `size - 1`: only the producer's cursor write appends, and
   * it appends the token it filled in; only the consumer's cursor write removes, and it removes the
   * oldest token, which is the one the consumer read.
   */
  lemma {:induction false} StepRefinesFifo<T(!new)>(s: Ring<T>, l: Label<T>, s': Ring<T>)
    requires Inv(s) && Step(s, l, s')
    ensures |s'.got| <= |s'.sent| && FifoStep((s.size - 1) as nat, s.Content(), s'.Content())
    ensures match l
      case WriteBumpP => s'.Content() == s.Content() + [s.prod.token]
      case WriteBumpC => s.Content() != [] && s.Content()[0] == s.cons.token && s'.Content() == s.Content()[1..]
      case _ => s'.Content() == s.Content()
  {
    StepKeepsInv(s, l, s');
    if l.WriteBumpP? {
      var q := s.Content();
      assert (q + [s.prod.token])[..|q|] == q;
    }
  }

  /** A cursor read that has gone stale only under-reports: less room, fewer tokens than there are. */
  lemma {:induction false} StaleReadsUnderReport<T(!new)>(s: Ring<T>)
    requires Inv(s)
    ensures s.prod.PReadBoth? ==> 0 <= FreeSlots(s.size, s.prod.wr, s.prod.rd) <= s.size - 1 - |s.Content()|
    ensures s.cons.CReadBoth? ==> 0 <= Waiting(s.size, s.cons.wr, s.cons.rd) <= |s.Content()|
  {
    if s.prod.PReadBoth? { CountsExact(s.size, |s.sent|, s.prod.seen); }
    if s.cons.CReadBoth? { CountsExact(s.size, s.cons.seen, |s.got|); }
  }

  /** A run: every consecutive pair of states is some access. */
  ghost predicate Run<T(!new)>(run: seq<Ring<T>>) {
    && |run| > 0 && run[0].Init()
    && forall i :: 0 <= i < |run| - 1 ==> Reaches(run[i], run[i + 1])
  }

  ghost predicate Reaches<T(!new)>(s: Ring<T>, s': Ring<T>) {
    exists l :: Step(s, l, s')
  }

  /**
   * In every state of every run the tokens received are a prefix of the tokens sent, and the rest
   * waits in the ring, never more than `size - 1` of them.
   */
  lemma {:induction false} RunDelivers<T(!new)>(run: seq<Ring<T>>, i: nat)
    requires Run(run) && i < |run|
    ensures Inv(run[i]) && run[i].got <= run[i].sent
    ensures run[i].sent == run[i].got + run[i].Content() && |run[i].Content()| < run[i].size == run[0].size
  {
    if i > 0 {
      RunDelivers(run, i - 1);
      var l :| Step(run[i - 1], l, run[i]);
      StepKeepsInv(run[i - 1], l, run[i]);
    }
  }

  // ----- either side can always do its round

  /** A path of accesses of one side. */
  ghost predicate Path<T(!new)>(path: seq<Ring<T>>, labels: seq<Label<T>>, producer: bool) {
    && |path| == |labels| + 1
    && forall i :: 0 <= i < |labels| ==> PathStep(path, labels, producer, i)
  }

  ghost predicate PathStep<T(!new)>(path: seq<Ring<T>>, labels: seq<Label<T>>, producer: bool, i: nat)
    requires i < |labels| && i + 1 < |path|
  {
    ByProducer(labels[i]) == producer && Step(path[i], labels[i], path[i + 1])
  }

  /**
   * The producer alone: its accesses, one after the other, append the token exactly when there is room, and
   * otherwise change nothing; either way it is done.
   */
  lemma {:induction false} ProducerRound<T(!new)>(s: Ring<T>, t: T) returns (path: seq<Ring<T>>, labels: seq<Label<T>>)
    requires Inv(s) && s.prod == PIdle
    ensures Path(path, labels, true) && path[0] == s
    ensures var r := path[|labels|];
      && r.prod == PIdle && r.cons == s.cons && r.got == s.got && r.size == s.size
      && r.sent == if |s.Content()| < s.size - 1 then s.sent + [t] else s.sent
  {
    CountsExact(s.size, |s.sent|, |s.got|);
    var s1 := s.(prod := PReadWr(s.wr));
    var s2 := s.(prod := PReadBoth(s.wr, s.rd, |s.got|));
    if |s.Content()| < s.size - 1 {
      var s3, s4 := s.(prod := PRoom), s.(prod := PGranted(s.wr));
      var s5 := s.(buf := s.buf[s.wr := t], prod := PFilled(t));
      var s6 := s5.(prod := PBumping(t, Bump(s.size, s.wr)));
      var s7 := s6.(wr := Bump(s.size, s.wr), sent := s.sent + [t], prod := PIdle);
      path := [s, s1, s2, s3, s4, s5, s6, s7];
      labels := [ReadWrP, ReadRdP, CheckP, ReadIndexP, FillP(t), ReadBumpP, WriteBumpP];
    } else {
      path, labels := [s, s1, s2, s], [ReadWrP, ReadRdP, CheckP];
    }
  }

  /** The consumer alone: it receives the oldest token exactly when there is one. */
  lemma {:induction false} ConsumerRound<T(!new)>(s: Ring<T>) returns (path: seq<Ring<T>>, labels: seq<Label<T>>)
    requires Inv(s) && s.cons == CIdle
    ensures Path(path, labels, false) && path[0] == s
    ensures var r := path[|labels|];
      && r.cons == CIdle && r.prod == s.prod && r.sent == s.sent && r.size == s.size
      && r.got == if s.Content() != [] then s.got + [s.Content()[0]] else s.got
  {
    if s.Content() != [] {
      path, labels := ConsumerTakes(s);
    } else {
      CountsExact(s.size, |s.sent|, |s.got|);
      var s1, s2 := s.(cons := CReadWr(s.wr, |s.sent|)), s.(cons := CReadBoth(s.wr, s.rd, |s.sent|));
      path, labels := [s, s1, s2, s], [ReadWrC, ReadRdC, CheckC];
    }
  }

  lemma {:induction false} ConsumerTakes<T(!new)>(s: Ring<T>) returns (path: seq<Ring<T>>, labels: seq<Label<T>>)
    requires Inv(s) && s.cons == CIdle && s.Content() != []
    ensures Path(path, labels, false) && path[0] == s
    ensures var r := path[|labels|];
      && r.cons == CIdle && r.prod == s.prod && r.sent == s.sent && r.size == s.size
      && r.got == s.got + [s.Content()[0]]
  {
    var t := s.Content()[0];
    assert s.wr < s.size && s.rd < s.size && Waiting(s.size, s.wr, s.rd) != 0 by {
      CountsExact(s.size, |s.sent|, |s.got|);
    }
    assert s.buf[s.rd] == t by { Consume(s.size, s.buf, s.wr, s.rd, s.sent, |s.got|); }
    var s1, s2 := s.(cons := CReadWr(s.wr, |s.sent|)), s.(cons := CReadBoth(s.wr, s.rd, |s.sent|));
    var s3, s4 := s.(cons := CGranted(s.rd)), s.(cons := CTaken(t));
    var s5 := s.(cons := CBumping(t, Bump(s.size, s.rd)));
    var s6 := s.(rd := Bump(s.size, s.rd), got := s.got + [t], cons := CIdle);
    path, labels := [s, s1, s2, s3, s4, s5, s6], [ReadWrC, ReadRdC, CheckC, TakeC, ReadBumpC, WriteBumpC];
  }

  // ----- the driver's code on one queue

  /** The number of opcodes (kernel/ipu4/ipu6-fw-isys.h:131-140). */
  const N_SEND_TYPE: nat := 7

  /** `struct ipu6_fw_sys_queue` with its two registers and its slots. */
  class Queue<T(!new, 0)> {
    const size: nat
    var wr: nat
    var rd: nat
    var slots: array<T>
    ghost var sent: seq<T>
    ghost var taken: nat

    ghost predicate Valid()
      reads this, slots
    {
      slots.Length == size && Holds(size, slots[..], wr, rd, sent, taken)
    }

    ghost function Content(): seq<T>
      requires taken <= |sent|
      reads this
    {
      sent[taken..]
    }

    /** `ipu6_sys_queue_init`: one slot more than the queue is to hold. */
    constructor (queueSize: nat)
      ensures Valid() && fresh(slots) && size == queueSize + 1 && Content() == []
    {
      size := queueSize + 1;
      wr, rd, sent, taken := 0, 0, [], 0;
      slots := new T[queueSize + 1];
    }

    /** `ipu6_send_get_token`: the slot to fill, unless the queue is full. */
    method SendGetToken() returns (ok: bool, index: nat)
      requires Valid()
      ensures ok <==> |Content()| < size - 1
      ensures ok ==> index == wr < size
    {
      CountsExact(size, |sent|, taken);
      ok, index := false, 0;
      if wr >= size || rd >= size { return; }
      var packets := if wr < rd then rd - wr - 1 else size - (wr - rd + 1);
      if packets == 0 { return; }
      return true, wr;
    }

    /**
     * `ipu6_fw_isys_complex_cmd`: refuse an unknown opcode, get a token, fill it in, put it.  `t` is the
     * token that carries the opcode.
     */
    method SendToken(sendType: nat, t: T) returns (ret: Errno)
      requires Valid()
      modifies this`wr, this`sent, slots
      ensures Valid()
      ensures ret == EINVAL <==> sendType >= N_SEND_TYPE
      ensures ret == Ok <==> sendType < N_SEND_TYPE && |old(Content())| < size - 1
      ensures ret == Ok || ret == EINVAL || ret == EBUSY
      ensures Content() == if ret == Ok then old(Content()) + [t] else old(Content())
    {
      if sendType >= N_SEND_TYPE { return EINVAL; }
      var ok, index := SendGetToken();
      if !ok { return EBUSY; }
      ghost var before := slots[..];
      FillSafe(size, before, wr, rd, sent, taken, t);
      slots[index] := t;
      assert slots[..] == before[wr := t];
      Publish(size, slots[..], wr, rd, sent, taken, t);
      var next := wr + 1;
      if next >= size { next := 0; }
      wr := next;
      sent := sent + [t];
      ret := Ok;
    }

    /** `ipu6_recv_get_token`: the oldest token, unless the queue is empty. */
    method RecvGetToken() returns (ok: bool, t: T)
      requires Valid()
      ensures ok <==> Content() != []
      ensures ok ==> t == Content()[0]
    {
      CountsExact(size, |sent|, taken);
      ok, t := false, *;
      if wr >= size || rd >= size { return; }
      var w := if wr < rd then wr + size else wr;
      if w - rd == 0 { return; }
      Consume(size, slots[..], wr, rd, sent, taken);
      return true, slots[rd];
    }

    /** `ipu6_recv_put_token` after a token was got. */
    method RecvPutToken()
      requires Valid() && Content() != []
      modifies this`rd, this`taken
      ensures Valid() && Content() == old(Content())[1..]
    {
      Consume(size, slots[..], wr, rd, sent, taken);
      var next := rd + 1;
      if next >= size { next := 0; }
      rd := next;
      taken := taken + 1;
    }
  }
}
