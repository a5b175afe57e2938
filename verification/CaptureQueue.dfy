/**
 * Ownership of capture buffers (kernel/ipu4/ipu6-isys-queue.c): every video queue of a stream has an
 * incoming and an active list, a capture request collects one buffer per queue in a list of its own,
 * and everything else belongs to userspace.  A list's head is index 0: `list_add` inserts there, so
 * the oldest buffer is the last one.
 */
module CaptureQueue {
  /** A video buffer: the queue it belongs to, its index there and its device address. */
  datatype Buf = Buf(queue: nat, index: nat, addr: nat)

  /** Buffers with multiplicity. */
  type Bufs = multiset<Buf>

  /** Every buffer of the list belongs to queue `q`. */
  ghost predicate OwnQueue(l: seq<Buf>, q: nat) {
    forall i :: 0 <= i < |l| ==> l[i].queue == q
  }

  predicate InRange(hand: seq<Buf>, n: nat) {
    forall i :: 0 <= i < |hand| ==> hand[i].queue < n
  }

  /** Where every buffer is. */
  datatype Lists = Lists(incoming: seq<seq<Buf>>, active: seq<seq<Buf>>, hand: seq<Buf>, user: Bufs) {
    ghost predicate Valid() {
      && |incoming| == |active| && InRange(hand, |incoming|)
      && (forall q :: 0 <= q < |incoming| ==> OwnQueue(incoming[q], q))
      && (forall q :: 0 <= q < |active| ==> OwnQueue(active[q], q))
    }

    /** All places together, with multiplicity. */
    ghost function All(): Bufs {
      Flat(incoming) + Flat(active) + multiset(hand) + user
    }
  }

  ghost function Flat(ls: seq<seq<Buf>>): Bufs {
    if ls == [] then multiset{} else Flat(ls[..|ls| - 1]) + multiset(ls[|ls| - 1])
  }

  function Remove(l: seq<Buf>, i: nat): seq<Buf>
    requires i < |l|
  {
    l[..i] + l[i + 1..]
  }

  // ----- counting

  lemma {:induction false} FlatUpdate(ls: seq<seq<Buf>>, q: nat, l: seq<Buf>)
    requires q < |ls|
    ensures Flat(ls[q := l]) + multiset(ls[q]) == Flat(ls) + multiset(l)
  {
    var n := |ls| - 1;
    var us := ls[q := l];
    if q == n {
      assert us[..n] == ls[..n];
    } else {
      assert us[..n] == ls[..n][q := l] && us[n] == ls[n];
      FlatUpdate(ls[..n], q, l);
      Swap(Flat(us[..n]), Flat(ls[..n]), multiset(ls[q]), multiset(l), multiset(ls[n]));
    }
  }

  lemma {:induction false} Swap(x: Bufs, y: Bufs, a: Bufs, b: Bufs, c: Bufs)
    requires x + a == y + b
    ensures (x + c) + a == (y + c) + b
  {
    forall e: Buf ensures ((x + c) + a)[e] == ((y + c) + b)[e] {
      assert (x + a)[e] == (y + b)[e];
    }
  }

  lemma {:induction false} RemoveCount(l: seq<Buf>, i: nat)
    requires i < |l|
    ensures multiset(l) == multiset(Remove(l, i)) + multiset{l[i]}
  {
    assert l == l[..i] + ([l[i]] + l[i + 1..]);
  }

  lemma {:induction false} TakeOut(ls: seq<seq<Buf>>, q: nat, i: nat)
    requires q < |ls| && i < |ls[q]|
    ensures Flat(ls) == Flat(ls[q := Remove(ls[q], i)]) + multiset{ls[q][i]}
  {
    FlatUpdate(ls, q, Remove(ls[q], i));
    RemoveCount(ls[q], i);
    Cancel(Flat(ls), Flat(ls[q := Remove(ls[q], i)]), multiset(Remove(ls[q], i)), multiset{ls[q][i]});
  }

  lemma {:induction false} PutIn(ls: seq<seq<Buf>>, q: nat, l: seq<Buf>, b: Buf)
    requires q < |ls| && (l == [b] + ls[q] || l == ls[q] + [b])
    ensures Flat(ls[q := l]) == Flat(ls) + multiset{b}
  {
    FlatUpdate(ls, q, l);
    assert multiset(l) == multiset(ls[q]) + multiset{b};
    Cancel(Flat(ls[q := l]), Flat(ls), multiset(ls[q]), multiset{b});
  }

  lemma {:induction false} Cancel(x: Bufs, y: Bufs, r: Bufs, b: Bufs)
    requires y + (r + b) == x + r
    ensures x == y + b
  {
    forall e: Buf ensures x[e] == (y + b)[e] {
      assert (y + (r + b))[e] == (x + r)[e];
    }
  }

  // ----- the steps, each one critical section

  datatype Step =
    /** `buf_queue`: userspace hands a buffer in. */
    | Queue(b: Buf)
    /** `buffer_list_get`: the oldest incoming buffer of a queue. */
    | Take(q: nat)
    /** `ipu6_isys_buffer_list_queue` with the INCOMING flag only. */
    | PutBack
    /** The same with the ACTIVE flag. */
    | Activate
    /** The same with INCOMING and SET_STATE: the buffer is also handed to userspace. */
    | PutBackDone
    /** The exits without a message buffer: the list, a local variable, is gone. */
    | Abandon
    /** `ipu6_stream_buf_ready`: firmware finished the active buffer at position `i`. */
    | Ready(q: nat, i: nat)
    /** `flush_firmware_streamon_fail`, for a queue that streams and for one that does not. */
    | FlushBack(q: nat)
    | FlushOut(q: nat)
    /** `return_buffers`, its two loops. */
    | DrainIncoming(q: nat)
    | DrainActive(q: nat)

  predicate Can(s: Lists, a: Step) {
    match a
    case Queue(b) => b in s.user && b.queue < |s.incoming|
    case Take(q) => q < |s.incoming| && s.incoming[q] != []
    case PutBack => s.hand != [] && s.hand[0].queue < |s.incoming|
    case Activate => s.hand != [] && s.hand[0].queue < |s.active|
    case PutBackDone => s.hand != [] && s.hand[0].queue < |s.incoming|
    case Abandon => true
    case Ready(q, i) => q < |s.active| && i < |s.active[q]|
    case FlushBack(q) => q < |s.active| && q < |s.incoming| && s.active[q] != []
    case FlushOut(q) => q < |s.active| && s.active[q] != []
    case DrainIncoming(q) => q < |s.incoming| && s.incoming[q] != []
    case DrainActive(q) => q < |s.active| && s.active[q] != []
  }

  function Do(s: Lists, a: Step): Lists
    requires Can(s, a)
  {
    match a
    case Queue(b) =>
      s.(incoming := s.incoming[b.queue := [b] + s.incoming[b.queue]], user := s.user - multiset{b})
    case Take(q) =>
      var last := |s.incoming[q]| - 1;
      s.(incoming := s.incoming[q := Remove(s.incoming[q], last)], hand := [s.incoming[q][last]] + s.hand)
    case PutBack =>
      var b := s.hand[0];
      s.(incoming := s.incoming[b.queue := s.incoming[b.queue] + [b]], hand := s.hand[1..])
    case Activate =>
      var b := s.hand[0];
      s.(active := s.active[b.queue := [b] + s.active[b.queue]], hand := s.hand[1..])
    case PutBackDone =>
      var b := s.hand[0];
      Lists(s.incoming[b.queue := s.incoming[b.queue] + [b]], s.active, s.hand[1..], s.user + multiset{b})
    case Abandon => s.(hand := [])
    case Ready(q, i) =>
      s.(active := s.active[q := Remove(s.active[q], i)], user := s.user + multiset{s.active[q][i]})
    case FlushBack(q) =>
      var b := s.active[q][0];
      s.(active := s.active[q := Remove(s.active[q], 0)], incoming := s.incoming[q := [b] + s.incoming[q]])
    case FlushOut(q) =>
      s.(active := s.active[q := Remove(s.active[q], 0)], user := s.user + multiset{s.active[q][0]})
    case DrainIncoming(q) =>
      s.(incoming := s.incoming[q := Remove(s.incoming[q], 0)], user := s.user + multiset{s.incoming[q][0]})
    case DrainActive(q) =>
      s.(active := s.active[q := Remove(s.active[q], 0)], user := s.user + multiset{s.active[q][0]})
  }

  lemma {:induction false} HandCount(hand: seq<Buf>)
    requires hand != []
    ensures multiset(hand) == multiset(hand[1..]) + multiset{hand[0]}
  {
    assert hand == [hand[0]] + hand[1..];
  }

  /** Moving `e` from the first place to the third, or back, keeps the sum. */
  lemma {:induction false} Transfer13(x: Bufs, x': Bufs, z: Bufs, z': Bufs, e: Bufs, y: Bufs, w: Bufs)
    requires x == x' + e && z' == z + e
    ensures x' + y + z' + w == x + y + z + w
  {
  }

  lemma {:induction false} Transfer23(x: Bufs, y: Bufs, y': Bufs, z: Bufs, z': Bufs, e: Bufs, w: Bufs)
    requires y == y' + e && z' == z + e
    ensures x + y' + z' + w == x + y + z + w
  {
  }

  lemma {:induction false} Transfer14(x: Bufs, x': Bufs, w: Bufs, w': Bufs, e: Bufs, y: Bufs, z: Bufs)
    requires x == x' + e && w' == w + e
    ensures x' + y + z + w' == x + y + z + w
  {
  }

  lemma {:induction false} Transfer24(y: Bufs, y': Bufs, w: Bufs, w': Bufs, e: Bufs, x: Bufs, z: Bufs)
    requires y == y' + e && w' == w + e
    ensures x + y' + z + w' == x + y + z + w
  {
  }

  lemma {:induction false} Transfer21(x: Bufs, x': Bufs, y: Bufs, y': Bufs, e: Bufs, z: Bufs, w: Bufs)
    requires y == y' + e && x' == x + e
    ensures x' + y' + z + w == x + y + z + w
  {
  }

  lemma {:induction false} QueueConserves(s: Lists, b: Buf)
    requires Can(s, Queue(b))
    ensures Do(s, Queue(b)).All() == s.All()
  {
    var t := Do(s, Queue(b));
    PutIn(s.incoming, b.queue, [b] + s.incoming[b.queue], b);
    Transfer14(Flat(t.incoming), Flat(s.incoming), t.user, s.user, multiset{b}, Flat(s.active), multiset(s.hand));
  }

  lemma {:induction false} TakeConserves(s: Lists, q: nat)
    requires Can(s, Take(q))
    ensures Do(s, Take(q)).All() == s.All()
  {
    var t := Do(s, Take(q));
    TakeOut(s.incoming, q, |s.incoming[q]| - 1);
    HandCount(t.hand);
    assert t.hand[1..] == s.hand;
    Transfer13(Flat(s.incoming), Flat(t.incoming), multiset(s.hand), multiset(t.hand), multiset{t.hand[0]},
               Flat(s.active), s.user);
  }

  lemma {:induction false} PutBackConserves(s: Lists)
    requires Can(s, PutBack)
    ensures Do(s, PutBack).All() == s.All()
  {
    var t, b := Do(s, PutBack), s.hand[0];
    HandCount(s.hand);
    PutIn(s.incoming, b.queue, s.incoming[b.queue] + [b], b);
    Transfer13(Flat(t.incoming), Flat(s.incoming), multiset(t.hand), multiset(s.hand), multiset{b},
               Flat(s.active), s.user);
  }

  lemma {:induction false} ActivateConserves(s: Lists)
    requires Can(s, Activate)
    ensures Do(s, Activate).All() == s.All()
  {
    var t, b := Do(s, Activate), s.hand[0];
    HandCount(s.hand);
    PutIn(s.active, b.queue, [b] + s.active[b.queue], b);
    Transfer23(Flat(s.incoming), Flat(t.active), Flat(s.active),
               multiset(t.hand), multiset(s.hand), multiset{b}, s.user);
  }

  lemma {:induction false} ReadyConserves(s: Lists, q: nat, i: nat)
    requires Can(s, Ready(q, i))
    ensures Do(s, Ready(q, i)).All() == s.All()
  {
    var t := Do(s, Ready(q, i));
    TakeOut(s.active, q, i);
    Transfer24(Flat(s.active), Flat(t.active), s.user, t.user,
               multiset{s.active[q][i]}, Flat(s.incoming), multiset(s.hand));
  }

  lemma {:induction false} FlushBackConserves(s: Lists, q: nat)
    requires Can(s, FlushBack(q))
    ensures Do(s, FlushBack(q)).All() == s.All()
  {
    var t, b := Do(s, FlushBack(q)), s.active[q][0];
    TakeOut(s.active, q, 0);
    PutIn(s.incoming, q, [b] + s.incoming[q], b);
    Transfer21(Flat(s.incoming), Flat(t.incoming), Flat(s.active), Flat(t.active),
               multiset{b}, multiset(s.hand), s.user);
  }

  lemma {:induction false} DrainIncomingConserves(s: Lists, q: nat)
    requires Can(s, DrainIncoming(q))
    ensures Do(s, DrainIncoming(q)).All() == s.All()
  {
    var t := Do(s, DrainIncoming(q));
    TakeOut(s.incoming, q, 0);
    Transfer14(Flat(s.incoming), Flat(t.incoming), s.user, t.user, multiset{s.incoming[q][0]},
               Flat(s.active), multiset(s.hand));
  }

  /** The steps that put a buffer in exactly one place: all but the two the driver gets wrong. */
  predicate Plain(a: Step) { !a.PutBackDone? && !a.Abandon? }

  /** No plain step loses or duplicates a buffer. */
  lemma {:induction false} StepConserves(s: Lists, a: Step)
    requires Can(s, a) && Plain(a)
    ensures Do(s, a).All() == s.All()
  {
    match a
    case Queue(b) => QueueConserves(s, b);
    case Take(q) => TakeConserves(s, q);
    case PutBack => PutBackConserves(s);
    case Activate => ActivateConserves(s);
    case Ready(q, i) => ReadyConserves(s, q, i);
    case FlushBack(q) => FlushBackConserves(s, q);
    case FlushOut(q) => ReadyConserves(s, q, 0);
    case DrainIncoming(q) => DrainIncomingConserves(s, q);
    case DrainActive(q) => ReadyConserves(s, q, 0);
  }

  /** What a step loses, and what it puts in two places. */
  ghost function Lost(s: Lists, a: Step): Bufs {
    if a.Abandon? then multiset(s.hand) else multiset{}
  }

  ghost function Doubled(s: Lists, a: Step): Bufs {
    if a.PutBackDone? && s.hand != [] then multiset{s.hand[0]} else multiset{}
  }

  lemma {:induction false} PutBackDoneAccounts(s: Lists)
    requires Can(s, PutBackDone)
    ensures Do(s, PutBackDone).All() == s.All() + multiset{s.hand[0]}
  {
    PutBackConserves(s);
    var t, b := Do(s, PutBack), multiset{s.hand[0]};
    assert Do(s, PutBackDone).All() == Flat(t.incoming) + Flat(t.active) + multiset(t.hand) + (t.user + b);
  }

  /** The account of any step. */
  lemma {:induction false} StepAccounts(s: Lists, a: Step)
    requires Can(s, a)
    ensures Do(s, a).All() + Lost(s, a) == s.All() + Doubled(s, a)
  {
    if a.PutBackDone? {
      PutBackDoneAccounts(s);
    } else if a.Abandon? {
      assert s.All() == (Flat(s.incoming) + Flat(s.active) + multiset{} + s.user) + multiset(s.hand);
    } else {
      StepConserves(s, a);
    }
  }

  lemma {:induction false} OwnEnds(l: seq<Buf>, q: nat, b: Buf)
    requires OwnQueue(l, q) && b.queue == q
    ensures OwnQueue([b] + l, q) && OwnQueue(l + [b], q)
  {
  }

  lemma {:induction false} OwnLess(l: seq<Buf>, q: nat, i: nat)
    requires OwnQueue(l, q) && i < |l|
    ensures OwnQueue(Remove(l, i), q) && l[i].queue == q
  {
  }

  /** A step that changes at most list `q` of either kind, to a list of `q`'s own buffers, keeps them apart. */
  lemma {:induction false} ValidAfter(
    s: Lists, q: nat, incoming: seq<Buf>, active: seq<Buf>, hand: seq<Buf>, user: Bufs)
    requires s.Valid() && q < |s.incoming| && InRange(hand, |s.incoming|)
    requires OwnQueue(incoming, q) && OwnQueue(active, q)
    ensures Lists(s.incoming[q := incoming], s.active[q := active], hand, user).Valid()
  {
  }

  lemma {:induction false} HandStepKeepsValid(s: Lists, a: Step)
    requires s.Valid() && Can(s, a) && (a.PutBack? || a.Activate? || a.PutBackDone? || a.Abandon?)
    ensures Do(s, a).Valid()
  {
    if a.Abandon? { return; }
    var b, t := s.hand[0], Do(s, a);
    var q := b.queue;
    assert OwnQueue(s.incoming[q], q) && OwnQueue(s.active[q], q);
    OwnEnds(s.incoming[q], q, b);
    OwnEnds(s.active[q], q, b);
    ValidAfter(s, q, t.incoming[q], t.active[q], t.hand, t.user);
    assert t.incoming == s.incoming[q := t.incoming[q]] && t.active == s.active[q := t.active[q]];
  }

  lemma {:induction false} QueueStepKeepsValid(s: Lists, a: Step, q: nat)
    requires s.Valid() && Can(s, a) && q < |s.incoming|
    requires match a
      case Queue(b) => b.queue == q
      case Take(p) => p == q
      case Ready(p, _) => p == q
      case FlushBack(p) => p == q
      case FlushOut(p) => p == q
      case DrainIncoming(p) => p == q
      case DrainActive(p) => p == q
      case _ => false
    ensures Do(s, a).Valid()
  {
    var t := Do(s, a);
    assert OwnQueue(s.incoming[q], q) && OwnQueue(s.active[q], q);
    if a.Queue? { OwnEnds(s.incoming[q], q, a.b); }
    if a.Take? { OwnLess(s.incoming[q], q, |s.incoming[q]| - 1); }
    if a.DrainIncoming? { OwnLess(s.incoming[q], q, 0); }
    if a.Ready? { OwnLess(s.active[q], q, a.i); }
    if a.FlushBack? || a.FlushOut? || a.DrainActive? { OwnLess(s.active[q], q, 0); }
    if a.FlushBack? { OwnEnds(s.incoming[q], q, s.active[q][0]); }
    ValidAfter(s, q, t.incoming[q], t.active[q], t.hand, t.user);
    assert t.incoming == s.incoming[q := t.incoming[q]] && t.active == s.active[q := t.active[q]];
  }

  /** A buffer stays with its own queue. */
  lemma {:induction false} StepKeepsValid(s: Lists, a: Step)
    requires s.Valid() && Can(s, a)
    ensures Do(s, a).Valid()
  {
    if a.PutBack? || a.Activate? || a.PutBackDone? || a.Abandon? {
      HandStepKeepsValid(s, a);
    } else {
      QueueStepKeepsValid(s, a, if a.Queue? then a.b.queue else a.q);
    }
  }

  /** State `n + 1` follows from state `n` by step `n`. */
  ghost predicate Next(run: seq<Lists>, acts: seq<Step>, n: nat)
    requires n < |acts| && n + 1 < |run|
  {
    Can(run[n], acts[n]) && run[n + 1] == Do(run[n], acts[n])
  }

  ghost predicate Run(run: seq<Lists>, acts: seq<Step>) {
    |run| == |acts| + 1 && run[0].Valid() && forall n :: 0 <= n < |acts| ==> Next(run, acts, n)
  }

  /** What the first `n` steps lost and what they doubled. */
  ghost function LostBy(run: seq<Lists>, acts: seq<Step>, n: nat): Bufs
    requires n <= |acts| && n <= |run|
  {
    if n == 0 then multiset{} else LostBy(run, acts, n - 1) + Lost(run[n - 1], acts[n - 1])
  }

  ghost function DoubledBy(run: seq<Lists>, acts: seq<Step>, n: nat): Bufs
    requires n <= |acts| && n <= |run|
  {
    if n == 0 then multiset{} else DoubledBy(run, acts, n - 1) + Doubled(run[n - 1], acts[n - 1])
  }

  lemma {:induction false} AccountStep(x0: Bufs, x: Bufs, x': Bufs, l: Bufs, l': Bufs, d: Bufs, d': Bufs)
    requires x + l == x0 + d && x' + l' == x + d'
    ensures x' + (l + l') == x0 + (d + d')
  {
    forall e: Buf ensures (x' + (l + l'))[e] == (x0 + (d + d'))[e] {
      assert (x + l)[e] == (x0 + d)[e] && (x' + l')[e] == (x + d')[e];
    }
  }

  /**
   * The account of every run, also through the exits that lose a list and the requeue that doubles
   * one: what there is now and what was lost is what there was at the start and what was doubled.
   */
  lemma {:induction false} RunAccounts(run: seq<Lists>, acts: seq<Step>, n: nat)
    requires Run(run, acts) && n < |run|
    ensures run[n].Valid() && run[n].All() + LostBy(run, acts, n) == run[0].All() + DoubledBy(run, acts, n)
  {
    if n > 0 {
      RunAccounts(run, acts, n - 1);
      assert Next(run, acts, n - 1);
      var s, a := run[n - 1], acts[n - 1];
      StepAccounts(s, a);
      StepKeepsValid(s, a);
      AccountStep(run[0].All(), s.All(), run[n].All(), LostBy(run, acts, n - 1), Lost(s, a),
                  DoubledBy(run, acts, n - 1), Doubled(s, a));
    }
  }

  /**
   * In every state of every run of plain steps each buffer that existed at the start is in exactly
   * one of the places, as often as it was there at the start, and in a list of its own queue.
   */
  lemma {:induction false} RunConserves(run: seq<Lists>, acts: seq<Step>, n: nat)
    requires Run(run, acts) && n < |run| && forall k :: 0 <= k < n ==> Plain(acts[k])
    ensures run[n].Valid() && run[n].All() == run[0].All()
    ensures forall b :: run[0].All()[b] == 1 ==>
      Flat(run[n].incoming)[b] + Flat(run[n].active)[b] + multiset(run[n].hand)[b] + run[n].user[b] == 1
  {
    if n > 0 {
      RunConserves(run, acts, n - 1);
      assert Next(run, acts, n - 1);
      StepConserves(run[n - 1], acts[n - 1]);
      StepKeepsValid(run[n - 1], acts[n - 1]);
    }
  }

  // ----- whole operations on values

  /** Where `ipu6_isys_buffer_list_queue` puts the buffers, by its flags. */
  datatype Dest = Incoming | Active | Nowhere

  /** Each buffer of `hand`, head first, to the tail of its queue's list. */
  function Back(ls: seq<seq<Buf>>, hand: seq<Buf>): (r: seq<seq<Buf>>)
    requires InRange(hand, |ls|)
    ensures |r| == |ls|
    decreases |hand|
  {
    if hand == [] then ls else Back(ls[hand[0].queue := ls[hand[0].queue] + [hand[0]]], hand[1..])
  }

  /** Each buffer of `hand`, head first, to the head of its queue's list. */
  function Front(ls: seq<seq<Buf>>, hand: seq<Buf>): (r: seq<seq<Buf>>)
    requires InRange(hand, |ls|)
    ensures |r| == |ls|
    decreases |hand|
  {
    if hand == [] then ls else Front(ls[hand[0].queue := [hand[0]] + ls[hand[0].queue]], hand[1..])
  }

  lemma {:induction false} BackFlat(ls: seq<seq<Buf>>, hand: seq<Buf>)
    requires InRange(hand, |ls|)
    ensures Flat(Back(ls, hand)) == Flat(ls) + multiset(hand)
    decreases |hand|
  {
    if hand != [] {
      var b := hand[0];
      PutIn(ls, b.queue, ls[b.queue] + [b], b);
      BackFlat(ls[b.queue := ls[b.queue] + [b]], hand[1..]);
      HandCount(hand);
    }
  }

  lemma {:induction false} FrontFlat(ls: seq<seq<Buf>>, hand: seq<Buf>)
    requires InRange(hand, |ls|)
    ensures Flat(Front(ls, hand)) == Flat(ls) + multiset(hand)
    decreases |hand|
  {
    if hand != [] {
      var b := hand[0];
      PutIn(ls, b.queue, [b] + ls[b.queue], b);
      FrontFlat(ls[b.queue := [b] + ls[b.queue]], hand[1..]);
      HandCount(hand);
    }
  }

  /** The effect of `ipu6_isys_buffer_list_queue`; SET_STATE also hands the buffers to userspace. */
  function Requeued(s: Lists, dest: Dest, setState: bool): Lists
    requires |s.incoming| == |s.active| && InRange(s.hand, |s.incoming|)
  {
    Lists(if dest.Incoming? then Back(s.incoming, s.hand) else s.incoming,
          if dest.Active? then Front(s.active, s.hand) else s.active,
          [],
          if setState then s.user + multiset(s.hand) else s.user)
  }

  /** One round of that loop: the head of the hand list goes to its place or places. */
  function RequeuedOne(s: Lists, dest: Dest, setState: bool): Lists
    requires |s.incoming| == |s.active| && s.hand != [] && s.hand[0].queue < |s.incoming|
  {
    var b := s.hand[0];
    Lists(if dest.Incoming? then s.incoming[b.queue := s.incoming[b.queue] + [b]] else s.incoming,
          if dest.Active? then s.active[b.queue := [b] + s.active[b.queue]] else s.active,
          s.hand[1..],
          if setState then s.user + multiset{b} else s.user)
  }

  lemma {:induction false} RequeueRound(s: Lists, dest: Dest, setState: bool)
    requires |s.incoming| == |s.active| && s.hand != [] && InRange(s.hand, |s.incoming|)
    ensures Requeued(RequeuedOne(s, dest, setState), dest, setState) == Requeued(s, dest, setState)
  {
    HandCount(s.hand);
    assert (s.user + multiset{s.hand[0]}) + multiset(s.hand[1..]) == s.user + multiset(s.hand);
  }

  /** Activating a list leaves every buffer with its own queue. */
  lemma {:induction false} RequeuedValid(s: Lists)
    requires s.Valid()
    ensures Requeued(s, Active, false).Valid()
    decreases |s.hand|
  {
    if s.hand != [] {
      RequeueRound(s, Active, false);
      StepKeepsValid(s, Step.Activate);
      RequeuedValid(RequeuedOne(s, Active, false));
    }
  }

  /** How far the total is from what it was: `copies` of the hand list instead of one. */
  lemma {:induction false} RequeuedTotal(s: Lists, dest: Dest, setState: bool)
    requires |s.incoming| == |s.active| && InRange(s.hand, |s.incoming|)
    ensures var rest := Flat(s.incoming) + Flat(s.active) + s.user;
      var h := multiset(s.hand);
      && s.All() == rest + h
      && Requeued(s, dest, setState).All() ==
           (if dest.Nowhere? then (if setState then rest + h else rest)
            else if setState then rest + h + h else rest + h)
  {
    BackFlat(s.incoming, s.hand);
    FrontFlat(s.active, s.hand);
    Regroup(Flat(s.incoming), Flat(s.active), multiset(s.hand), s.user);
  }

  lemma {:induction false} Regroup(fi: Bufs, fa: Bufs, h: Bufs, u: Bufs)
    ensures fi + fa + h + u == (fi + fa + u) + h
    ensures (fi + h) + fa + multiset{} + u == (fi + fa + u) + h
    ensures fi + (fa + h) + multiset{} + u == (fi + fa + u) + h
    ensures (fi + h) + fa + multiset{} + (u + h) == (fi + fa + u) + h + h
    ensures fi + (fa + h) + multiset{} + (u + h) == (fi + fa + u) + h + h
    ensures fi + fa + multiset{} + (u + h) == (fi + fa + u) + h
    ensures fi + fa + multiset{} + u == fi + fa + u
  {
  }

  /**
   * Requeueing keeps the partition exactly when there is nothing to requeue or the buffers go to
   * exactly one place: with INCOMING and SET_STATE together, as the failing start path passes them,
   * they would be in userspace and in a list at once.
   */
  lemma {:induction false} RequeueConservesIff(s: Lists, dest: Dest, setState: bool)
    requires |s.incoming| == |s.active| && InRange(s.hand, |s.incoming|)
    ensures Requeued(s, dest, setState).All() == s.All() <==> s.hand == [] || dest.Nowhere? == setState
  {
    RequeuedTotal(s, dest, setState);
    var rest := Flat(s.incoming) + Flat(s.active) + s.user;
    var h := multiset(s.hand);
    if s.hand == [] {
      assert rest + h == rest && rest + h + h == rest;
    } else {
      var b := s.hand[0];
      assert b in h && h[b] > 0;
      assert rest[b] < (rest + h)[b] < (rest + h + h)[b];
    }
  }

  function Oldest(l: seq<Buf>): Buf
    requires l != []
  {
    l[|l| - 1]
  }

  /** Each of the first `k` queues can give a buffer, and it is its own. */
  ghost predicate Supplied(ls: seq<seq<Buf>>, k: nat) {
    k <= |ls| && forall q :: 0 <= q < k ==> ls[q] != [] && Oldest(ls[q]).queue == q
  }

  /** The lists without the oldest buffer of each of the first `k` queues. */
  ghost function Popped(ls: seq<seq<Buf>>, k: nat): (r: seq<seq<Buf>>)
    requires Supplied(ls, k)
    ensures |r| == |ls|
    ensures forall q :: 0 <= q < |ls| ==> r[q] == if q < k then ls[q][..|ls[q]| - 1] else ls[q]
  {
    seq(|ls|, q requires 0 <= q < |ls| => if q < k then ls[q][..|ls[q]| - 1] else ls[q])
  }

  /** Those buffers, the last queue's first. */
  ghost function Collected(ls: seq<seq<Buf>>, k: nat): (h: seq<Buf>)
    requires Supplied(ls, k)
    ensures |h| == k && InRange(h, k)
  {
    if k == 0 then [] else [Oldest(ls[k - 1])] + Collected(ls, k - 1)
  }

  lemma {:induction false} PopOne(ls: seq<seq<Buf>>, k: nat)
    requires k < |ls| && Supplied(ls, k) && Supplied(ls, k + 1)
    ensures Popped(ls, k)[k := ls[k][..|ls[k]| - 1]] == Popped(ls, k + 1)
  {
  }

  /** Putting a collected list back gives each of its queues its buffer. */
  lemma {:induction false} BackCollected(up: seq<seq<Buf>>, ls: seq<seq<Buf>>, k: nat, q: nat)
    requires Supplied(ls, k) && |up| == |ls| && q < |ls|
    ensures Back(up, Collected(ls, k))[q] == if q < k then up[q] + [Oldest(ls[q])] else up[q]
    decreases k
  {
    if k > 0 {
      var b := Oldest(ls[k - 1]);
      assert Collected(ls, k)[1..] == Collected(ls, k - 1);
      BackCollected(up[k - 1 := up[k - 1] + [b]], ls, k - 1, q);
    }
  }

  /** Putting back what was collected restores every list as the same sequence. */
  lemma {:induction false} PoppedThenBack(ls: seq<seq<Buf>>, k: nat)
    requires Supplied(ls, k)
    ensures Back(Popped(ls, k), Collected(ls, k)) == ls
  {
    var up := Popped(ls, k);
    var r := Back(up, Collected(ls, k));
    forall q | 0 <= q < |ls| ensures r[q] == ls[q] {
      BackCollected(up, ls, k, q);
    }
    assert r == ls;
  }

  /** Activating a collected list gives each of its queues its buffer. */
  lemma {:induction false} FrontCollected(active: seq<seq<Buf>>, ls: seq<seq<Buf>>, k: nat, q: nat)
    requires Supplied(ls, k) && |active| == |ls| && q < |ls|
    ensures Front(active, Collected(ls, k))[q] == if q < k then [Oldest(ls[q])] + active[q] else active[q]
    decreases k
  {
    if k > 0 {
      var b := Oldest(ls[k - 1]);
      assert Collected(ls, k)[1..] == Collected(ls, k - 1);
      FrontCollected(active[k - 1 := [b] + active[k - 1]], ls, k - 1, q);
    }
  }

  lemma {:induction false} PoppedFlat(ls: seq<seq<Buf>>, k: nat)
    requires Supplied(ls, k)
    ensures Flat(Popped(ls, k)) + multiset(Collected(ls, k)) == Flat(ls)
  {
    PoppedThenBack(ls, k);
    BackFlat(Popped(ls, k), Collected(ls, k));
  }

  // ----- the driver's code

  /** Length of the shortest list. */
  function Shortest(ls: seq<seq<Buf>>): (m: nat)
    requires ls != []
    ensures forall q :: 0 <= q < |ls| ==> m <= |ls[q]|
    ensures exists q :: 0 <= q < |ls| && m == |ls[q]|
  {
    var l := |ls[|ls| - 1]|;
    if |ls| == 1 then l
    else
      var m := Shortest(ls[..|ls| - 1]);
      assert forall q :: 0 <= q < |ls| - 1 ==> ls[q] == ls[..|ls| - 1][q];
      if l < m then l else m
  }

  /** The `k` oldest buffers of every queue went from the incoming to the active list, keeping their order. */
  ghost predicate Shifted(
    in0: seq<seq<Buf>>, act0: seq<seq<Buf>>, incoming: seq<seq<Buf>>, active: seq<seq<Buf>>, k: nat)
  {
    && |in0| == |act0| == |incoming| == |active|
    && forall q :: 0 <= q < |in0| ==> ShiftedOne(in0[q], act0[q], incoming[q], active[q], k)
  }

  ghost predicate ShiftedOne(in0: seq<Buf>, act0: seq<Buf>, incoming: seq<Buf>, active: seq<Buf>, k: nat) {
    k <= |in0| && incoming == in0[..|in0| - k] && active == in0[|in0| - k..] + act0
  }

  /** One more capture round. */
  lemma {:induction false} ShiftMore(
    in0: seq<seq<Buf>>, act0: seq<seq<Buf>>, incoming: seq<seq<Buf>>, active: seq<seq<Buf>>, k: nat)
    requires Shifted(in0, act0, incoming, active, k) && Supplied(incoming, |incoming|)
    ensures Shifted(in0, act0, Popped(incoming, |incoming|), Front(active, Collected(incoming, |incoming|)), k + 1)
  {
    var n := |incoming|;
    var hand := Collected(incoming, n);
    forall q | 0 <= q < n ensures ShiftedOne(in0[q], act0[q], Popped(incoming, n)[q], Front(active, hand)[q], k + 1) {
      FrontCollected(active, incoming, n, q);
      assert ShiftedOne(in0[q], act0[q], incoming[q], active[q], k);
      ShiftOneMore(in0[q], act0[q], incoming[q], active[q], k);
    }
  }

  lemma {:induction false} ShiftOneMore(in0: seq<Buf>, act0: seq<Buf>, incoming: seq<Buf>, active: seq<Buf>, k: nat)
    requires ShiftedOne(in0, act0, incoming, active, k) && incoming != []
    ensures ShiftedOne(in0, act0, incoming[..|incoming| - 1], [Oldest(incoming)] + active, k + 1)
  {
    var m := |in0| - k;
    assert in0[m - 1..] == [in0[m - 1]] + in0[m..];
  }

  lemma {:induction false} ShiftedOwned(s: Lists, incoming: seq<seq<Buf>>, active: seq<seq<Buf>>, k: nat)
    requires s.Valid() && s.hand == [] && Shifted(s.incoming, s.active, incoming, active, k)
    ensures Lists(incoming, active, [], s.user).Valid()
  {
    forall q, i | 0 <= q < |incoming| && 0 <= i < |incoming[q]| ensures incoming[q][i].queue == q {
      assert ShiftedOne(s.incoming[q], s.active[q], incoming[q], active[q], k);
      assert incoming[q][i] == s.incoming[q][i];
    }
    forall q, i | 0 <= q < |active| && 0 <= i < |active[q]| ensures active[q][i].queue == q {
      assert ShiftedOne(s.incoming[q], s.active[q], incoming[q], active[q], k);
      var m := |s.incoming[q]| - k;
      assert active[q][i] == if i < k then s.incoming[q][m + i] else s.active[q][i - k];
    }
  }

  /** Some queue is empty after exactly `Shortest` rounds, none before. */
  lemma {:induction false} ShiftedEmpty(
    in0: seq<seq<Buf>>, act0: seq<seq<Buf>>, incoming: seq<seq<Buf>>, active: seq<seq<Buf>>, k: nat)
    requires Shifted(in0, act0, incoming, active, k) && in0 != []
    ensures k <= Shortest(in0)
    ensures (forall q :: 0 <= q < |incoming| ==> incoming[q] != []) <==> k < Shortest(in0)
  {
    forall q | 0 <= q < |in0| ensures k <= |in0[q]| && |incoming[q]| == |in0[q]| - k {
      assert ShiftedOne(in0[q], act0[q], incoming[q], active[q], k);
    }
    var m :| 0 <= m < |in0| && Shortest(in0) == |in0[m]|;
  }

  /** The lists after a round that found no message buffer: one buffer of every queue is in `hand`. */
  ghost predicate Uncaptured(was: seq<seq<Buf>>, incoming: seq<seq<Buf>>, hand: seq<Buf>) {
    Supplied(was, |was|) && incoming == Popped(was, |was|) && hand == Collected(was, |was|)
  }

  /** The start loop runs out of messages before it runs out of buffers or of room on the ring. */
  predicate OutOfMessages(incoming: seq<seq<Buf>>, msgs: nat, room: nat)
    requires incoming != []
  {
    msgs < Shortest(incoming) && msgs <= room
  }

  /** How the start loop ends, and after how many captures. */
  ghost predicate Stopped(in0: seq<seq<Buf>>, msgs: nat, room: nat, k: nat, out: Outcome)
    requires in0 != []
  {
    var m := Shortest(in0);
    match out
    case Drained => m <= msgs && m <= room && k == m
    case NoMessage => OutOfMessages(in0, msgs, room) && k == msgs
    case Busy => room < m && room < msgs && k == room + 1
  }

  /** What is missing shows in the total. */
  lemma {:induction false} LossShows(now: Bufs, lost: seq<Buf>, before: Bufs)
    requires now + multiset(lost) == before
    ensures now == before <==> lost == []
  {
    if lost == [] {
      assert multiset(lost) == multiset{};
    } else {
      var b := lost[0];
      assert b in multiset(lost);
      assert (now + multiset(lost))[b] > now[b];
    }
  }

  /** Taking one buffer of every queue makes the shortest list shorter by one. */
  lemma {:induction false} PoppedShortest(ls: seq<seq<Buf>>)
    requires ls != [] && Supplied(ls, |ls|)
    ensures Shortest(Popped(ls, |ls|)) == Shortest(ls) - 1
  {
    var r := Popped(ls, |ls|);
    var q :| 0 <= q < |ls| && Shortest(ls) == |ls[q]|;
    var p :| 0 <= p < |r| && Shortest(r) == |r[p]|;
    assert |r[q]| == |ls[q]| - 1 && |r[p]| == |ls[p]| - 1;
  }

  /** Collecting leaves every buffer with its own queue. */
  lemma {:induction false} CollectedValid(s: Lists)
    requires s.Valid() && s.hand == [] && Supplied(s.incoming, |s.incoming|)
    ensures var n := |s.incoming|; s.(incoming := Popped(s.incoming, n), hand := Collected(s.incoming, n)).Valid()
  {
    var incoming := Popped(s.incoming, |s.incoming|);
    forall q | 0 <= q < |incoming| ensures OwnQueue(incoming[q], q) {
      assert OwnQueue(s.incoming[q], q);
    }
  }

  /** The incoming lists with `b` at the head of its queue's. */
  function WithNew(ls: seq<seq<Buf>>, b: Buf): seq<seq<Buf>>
    requires b.queue < |ls|
  {
    ls[b.queue := [b] + ls[b.queue]]
  }

  /**
   * First queued, first captured: a new buffer is taken only after all those of its queue that were there
   * before it, which keep their order, and the other queues are as they were.
   */
  lemma {:induction false} NewestLast(ls: seq<seq<Buf>>, b: Buf, k: nat)
    requires b.queue < |ls| && k <= |ls[b.queue]|
    ensures var l, l' := ls[b.queue], WithNew(ls, b)[b.queue];
      |l'| == |l| + 1 && l'[|l'| - k..] == l[|l| - k..] && l'[|l'| - (|l| + 1)] == b
    ensures forall q :: 0 <= q < |ls| && q != b.queue ==> WithNew(ls, b)[q] == ls[q]
  {
  }

  /** Every queue has a buffer to give. */
  predicate Complete(ls: seq<seq<Buf>>) {
    forall q :: 0 <= q < |ls| ==> ls[q] != []
  }

  datatype Outcome = Drained | NoMessage | Busy

  function Reversed(l: seq<Buf>): seq<Buf> {
    if l == [] then [] else Reversed(l[1..]) + [l[0]]
  }

  /** An incoming list after its queue's active list was flushed: one by one to its head, or not at all. */
  function Flushed(active: seq<Buf>, incoming: seq<Buf>, streaming: bool): seq<Buf> {
    if streaming then Reversed(active) + incoming else incoming
  }

  lemma {:induction false} ReversedAt(l: seq<Buf>, i: nat)
    requires i < |l|
    ensures |Reversed(l)| == |l| && Reversed(l)[i] == l[|l| - 1 - i]
  {
    if |l| > 1 { ReversedAt(l[1..], if i < |l| - 1 then i else 0); }
  }

  /**
   * What was flushed waits behind everything else, the newest of it first in turn: the flush turns the order
   * of the active buffers around.
   */
  lemma {:induction false} FlushedAt(active: seq<Buf>, incoming: seq<Buf>, i: nat)
    requires i < |active|
    ensures var r := Flushed(active, incoming, true);
      |r| == |active| + |incoming| && r[|active|..] == incoming && r[i] == active[|active| - 1 - i]
  {
    ReversedAt(active, i);
  }

  lemma {:induction false} FlushedStep(active: seq<Buf>, incoming: seq<Buf>, streaming: bool)
    requires active != []
    ensures Flushed(active[1..], if streaming then [active[0]] + incoming else incoming, streaming) ==
      Flushed(active, incoming, streaming)
  {
    var r := Reversed(active[1..]);
    assert r + ([active[0]] + incoming) == (r + [active[0]]) + incoming;
  }

  function FlushStep(q: nat, streaming: bool): Step {
    if streaming then FlushBack(q) else FlushOut(q)
  }

  /** Between `s` and `t` only queue `q` was flushed, part of the way. */
  ghost predicate PartlyFlushed(s: Lists, t: Lists, q: nat, streaming: bool)
    requires q < |s.active| == |s.incoming| == |t.active| == |t.incoming|
  {
    && t.active == s.active[q := t.active[q]] && t.incoming == s.incoming[q := t.incoming[q]]
    && Flushed(t.active[q], t.incoming[q], streaming) == Flushed(s.active[q], s.incoming[q], streaming)
    && t.All() == s.All()
  }

  lemma {:induction false} PartlyFlushedStep(s: Lists, t: Lists, q: nat, streaming: bool)
    requires q < |s.active| == |s.incoming| == |t.active| == |t.incoming|
    requires PartlyFlushed(s, t, q, streaming) && t.active[q] != []
    ensures var u := Do(t, FlushStep(q, streaming));
      |u.active| == |u.incoming| == |s.active| && |u.active[q]| < |t.active[q]| && PartlyFlushed(s, u, q, streaming)
  {
    var u := Do(t, FlushStep(q, streaming));
    assert u.All() == t.All() by { StepConserves(t, FlushStep(q, streaming)); }
    FlushStepLists(t, q, streaming);
    FlushedStep(t.active[q], t.incoming[q], streaming);
    assert u.active == s.active[q := u.active[q]];
    assert u.incoming == s.incoming[q := u.incoming[q]];
  }

  lemma {:induction false} FlushStepLists(t: Lists, q: nat, streaming: bool)
    requires q < |t.active| == |t.incoming| && t.active[q] != []
    ensures var u := Do(t, FlushStep(q, streaming));
      && u.active == t.active[q := t.active[q][1..]]
      && u.incoming == t.incoming[q := if streaming then [t.active[q][0]] + t.incoming[q] else t.incoming[q]]
  {
    assert Remove(t.active[q], 0) == t.active[q][1..];
  }

  lemma {:induction false} FlushedEnd(s: Lists, t: Lists, q: nat, streaming: bool)
    requires q < |s.active| == |s.incoming| == |t.active| == |t.incoming|
    requires PartlyFlushed(s, t, q, streaming) && t.active[q] == []
    ensures t.active == s.active[q := []] &&
      t.incoming == s.incoming[q := Flushed(s.active[q], s.incoming[q], streaming)]
  {
    assert Flushed([], t.incoming[q], streaming) == t.incoming[q];
  }

  /** The lists with the first `k` of them emptied. */
  function Emptied(ls: seq<seq<Buf>>, k: nat): (r: seq<seq<Buf>>)
    ensures |r| == |ls| && forall q :: 0 <= q < |ls| ==> r[q] == if q < k then [] else ls[q]
  {
    seq(|ls|, q requires 0 <= q < |ls| => if q < k then [] else ls[q])
  }

  function FlushedAll(active: seq<seq<Buf>>, incoming: seq<seq<Buf>>, streaming: seq<bool>, k: nat): (r: seq<seq<Buf>>)
    requires |active| == |incoming| == |streaming|
    ensures |r| == |incoming|
    ensures forall q :: 0 <= q < |r| ==>
      r[q] == if q < k then Flushed(active[q], incoming[q], streaming[q]) else incoming[q]
  {
    seq(|incoming|, q requires 0 <= q < |incoming| =>
      if q < k then Flushed(active[q], incoming[q], streaming[q]) else incoming[q])
  }

  lemma {:induction false} FlushedNext(active: seq<seq<Buf>>, incoming: seq<seq<Buf>>, streaming: seq<bool>, k: nat)
    requires |active| == |incoming| == |streaming|
    ensures Emptied(active, 0) == active && FlushedAll(active, incoming, streaming, 0) == incoming
    ensures k < |active| ==> Emptied(active, k)[k := []] == Emptied(active, k + 1)
    ensures k < |active| ==>
      FlushedAll(active, incoming, streaming, k)[k := Flushed(active[k], incoming[k], streaming[k])] ==
        FlushedAll(active, incoming, streaming, k + 1)
  {
  }

  /** Captures after captures are captures. */
  lemma {:induction false} ShiftedThen(in0: seq<seq<Buf>>, act0: seq<seq<Buf>>, in1: seq<seq<Buf>>, act1: seq<seq<Buf>>,
                                       in2: seq<seq<Buf>>, act2: seq<seq<Buf>>, j: nat, k: nat)
    requires Shifted(in0, act0, in1, act1, j) && Shifted(in1, act1, in2, act2, k)
    ensures Shifted(in0, act0, in2, act2, j + k)
  {
    forall q | 0 <= q < |in0| ensures ShiftedOne(in0[q], act0[q], in2[q], act2[q], j + k) {
      assert ShiftedOne(in0[q], act0[q], in1[q], act1[q], j) && ShiftedOne(in1[q], act1[q], in2[q], act2[q], k);
      var n := |in0[q]|;
      assert in0[q][n - j - k..] == in0[q][n - j - k..n - j] + in0[q][n - j..];
    }
  }

  /** Collecting a list and activating it is one capture. */
  lemma {:induction false} CaptureOne(incoming: seq<seq<Buf>>, active: seq<seq<Buf>>)
    requires Supplied(incoming, |incoming|) && |active| == |incoming|
    ensures var n := |incoming|;
      Shifted(incoming, active, Popped(incoming, n), Front(active, Collected(incoming, n)), 1)
  {
    forall q | 0 <= q < |incoming| ensures ShiftedOne(incoming[q], active[q], incoming[q], active[q], 0) {
      assert incoming[q][|incoming[q]|..] + active[q] == active[q];
    }
    ShiftMore(incoming, active, incoming, active, 0);
  }

  /**
   * The lists after the start loop ran `k` times on incoming lists `in0` with `act0` active: the `k` oldest of
   * every queue are active too, in order, and, without a message buffer, the next one of every queue is lost.
   */
  ghost predicate LoopEnded(in0: seq<seq<Buf>>, act0: seq<seq<Buf>>, msgs: nat, room: nat, c: Ended,
                            incoming: seq<seq<Buf>>, active: seq<seq<Buf>>) {
    && in0 != [] && Stopped(in0, msgs, room, c.k, c.out) && Shifted(in0, act0, c.was, active, c.k)
    && if c.out.NoMessage? then c.lost != [] && Uncaptured(c.was, incoming, c.lost)
       else c.lost == [] && incoming == c.was
  }

  /** How the start loop ended: after how many captures, why, the incoming lists then, and what was lost. */
  datatype Ended = Ended(k: nat, out: Outcome, was: seq<seq<Buf>>, lost: seq<Buf>)

  /**
   * The lists after a failed start: nothing is active; the list goes back to the incoming lists if it was not
   * activated, and then what is active, with it if it was, is flushed.
   */
  ghost predicate StartUndone(s: Lists, activated: bool, streaming: seq<bool>,
                              incoming: seq<seq<Buf>>, active: seq<seq<Buf>>) {
    && |s.incoming| == |s.active| == |streaming| == |active| && InRange(s.hand, |s.incoming|)
    && (forall q :: 0 <= q < |active| ==> active[q] == [])
    && incoming == if activated then FlushedAll(Front(s.active, s.hand), s.incoming, streaming, |active|)
                   else FlushedAll(s.active, Back(s.incoming, s.hand), streaming, |active|)
  }

  /**
   * The lists after `buf_queue` collected the oldest buffer of every queue of `now`.  Without a message they
   * are gone; on a running stream they are active; after a successful start they and those of the loop's
   * captures are; after a failed one nothing is, and incoming is `now` or what is left of it, behind what
   * was flushed.
   */
  ghost predicate Queued(now: seq<seq<Buf>>, act0: seq<seq<Buf>>, message: bool, running: bool, activated: bool,
                         ok: bool, streaming: seq<bool>, msgs: nat, room: nat, c: Ended,
                         incoming: seq<seq<Buf>>, active: seq<seq<Buf>>)
  {
    var n := |now|;
    && Supplied(now, n) && |act0| == |streaming| == n
    && var in1, act1 := Popped(now, n), Front(act0, Collected(now, n));
    if !message then incoming == in1 && active == act0
    else if running then Shifted(now, act0, incoming, active, 1)
    else if ok then
      LoopEnded(in1, act1, msgs, room, c, incoming, active) && Shifted(now, act0, c.was, active, c.k + 1)
    else
      && |active| == n && (forall q :: 0 <= q < n ==> active[q] == [])
      && incoming == if activated then FlushedAll(act1, in1, streaming, n) else FlushedAll(act0, now, streaming, n)
  }

  lemma {:induction false} QueuedStart(now: seq<seq<Buf>>, act0: seq<seq<Buf>>, activated: bool, streaming: seq<bool>,
                                       msgs: nat, room: nat, c: Ended, incoming: seq<seq<Buf>>, active: seq<seq<Buf>>)
    requires |act0| == |now| == |streaming| && Supplied(now, |now|)
    requires LoopEnded(Popped(now, |now|), Front(act0, Collected(now, |now|)), msgs, room, c, incoming, active)
    ensures Queued(now, act0, true, false, activated, true, streaming, msgs, room, c, incoming, active)
  {
    var in1, act1 := Popped(now, |now|), Front(act0, Collected(now, |now|));
    assert Shifted(now, act0, in1, act1, 1) by { CaptureOne(now, act0); }
    assert Shifted(now, act0, c.was, active, 1 + c.k) by { ShiftedThen(now, act0, in1, act1, c.was, active, 1, c.k); }
  }

  lemma {:induction false} QueuedFailed(s: Lists, now: seq<seq<Buf>>, activated: bool, streaming: seq<bool>,
                                        msgs: nat, room: nat, c: Ended, incoming: seq<seq<Buf>>, active: seq<seq<Buf>>)
    requires |s.active| == |now| == |streaming| && Supplied(now, |now|)
    requires s.incoming == Popped(now, |now|) && s.hand == Collected(now, |now|)
    requires StartUndone(s, activated, streaming, incoming, active)
    ensures Queued(now, s.active, true, false, activated, false, streaming, msgs, room, c, incoming, active)
  {
    if !activated { PoppedThenBack(now, |now|); }
  }

  /** A stream with its video queues. */
  class Stream {
    var incoming: seq<seq<Buf>>
    var active: seq<seq<Buf>>
    /** The buffer list of the caller that holds the stream's mutex. */
    var hand: seq<Buf>
    var user: Bufs
    var needReset: bool

    /** A stream of `n` queues with the given incoming buffers. */
    constructor (incoming: seq<seq<Buf>>, n: nat)
      requires |incoming| == n
      ensures Snap() == Lists(incoming, seq(n, _ => []), [], multiset{})
    {
      this.incoming, active, hand, user, needReset := incoming, seq(n, _ => []), [], multiset{}, false;
    }

    ghost function Snap(): Lists
      reads this
    {
      Lists(incoming, active, hand, user)
    }

    /** One round of the loop of `ipu6_isys_buffer_list_queue`. */
    method RequeueOne(dest: Dest, setState: bool)
      requires |incoming| == |active| && hand != [] && hand[0].queue < |incoming|
      modifies this`incoming, this`active, this`hand, this`user
      ensures Snap() == RequeuedOne(old(Snap()), dest, setState)
    {
      var b := hand[0];
      hand := hand[1..];
      if dest.Active? {
        active := active[b.queue := [b] + active[b.queue]];
      } else if dest.Incoming? {
        incoming := incoming[b.queue := incoming[b.queue] + [b]];
      }
      if setState { user := user + multiset{b}; }
    }

    /** `ipu6_isys_buffer_list_queue`. */
    method BufferListQueue(dest: Dest, setState: bool)
      requires |incoming| == |active| && InRange(hand, |incoming|)
      modifies this`incoming, this`active, this`hand, this`user
      ensures Snap() == Requeued(old(Snap()), dest, setState)
    {
      while hand != []
        invariant |incoming| == |active| && InRange(hand, |incoming|)
        invariant Requeued(Snap(), dest, setState) == Requeued(old(Snap()), dest, setState)
        decreases |hand|
      {
        RequeueRound(Snap(), dest, setState);
        RequeueOne(dest, setState);
      }
      assert multiset(hand) == multiset{};
    }

    /** One round of the loop of `buffer_list_get`, on a queue that has a buffer. */
    method TakeOldest(q: nat, ghost was: seq<seq<Buf>>)
      requires Supplied(was, q + 1) && incoming == Popped(was, q) && hand == Collected(was, q)
      modifies this`incoming, this`hand
      ensures incoming == Popped(was, q + 1) && hand == Collected(was, q + 1)
    {
      var last := |incoming[q]| - 1;
      var ib := incoming[q][last];
      PopOne(was, q);
      incoming := incoming[q := incoming[q][..last]];
      hand := [ib] + hand;
    }

    /** Its error path: what was collected so far goes back. */
    method PutAllBack(q: nat, ghost was: seq<seq<Buf>>)
      requires Supplied(was, q) && incoming == Popped(was, q) && hand == Collected(was, q) && |incoming| == |active|
      modifies this`incoming, this`active, this`hand, this`user
      ensures incoming == was && hand == [] && active == old(active) && user == old(user)
    {
      PoppedThenBack(was, q);
      if hand != [] { BufferListQueue(Incoming, false); }
    }

    /**
     * `buffer_list_get`: the oldest buffer of every queue, or, if some queue has none, every list
     * exactly as it was.  The list is a fresh local of the caller.
     */
    method BufferListGet() returns (ok: bool)
      requires Snap().Valid() && hand == []
      modifies this`incoming, this`active, this`hand, this`user
      ensures ok <==> forall q :: 0 <= q < |old(incoming)| ==> old(incoming)[q] != []
      ensures active == old(active) && user == old(user)
      ensures ok ==> Supplied(old(incoming), |old(incoming)|)
      ensures ok ==>
        incoming == Popped(old(incoming), |old(incoming)|) && hand == Collected(old(incoming), |old(incoming)|)
      ensures !ok ==> incoming == old(incoming) && hand == []
      ensures Snap().All() == old(Snap().All())
    {
      var n := |incoming|;
      var q: nat := 0;
      ghost var was := incoming;
      assert Popped(was, 0) == was;
      while q < n
        invariant q <= n && Supplied(was, q)
        invariant incoming == Popped(was, q) && hand == Collected(was, q)
        invariant active == old(active) && user == old(user)
      {
        if incoming[q] == [] {
          PutAllBack(q, was);
          return false;
        }
        assert was[q][|was[q]| - 1].queue == q;
        TakeOldest(q, was);
        q := q + 1;
      }
      PoppedFlat(was, n);
      Transfer13(Flat(was), Flat(incoming), multiset{}, multiset(hand), multiset(hand), Flat(active), user);
      ok := true;
    }

    /** The capture part of a round: what was collected becomes active. */
    method ActivateCollected(
      ghost in0: seq<seq<Buf>>, ghost act0: seq<seq<Buf>>, ghost was: seq<seq<Buf>>, ghost k: nat)
      requires Shifted(in0, act0, was, active, k) && Supplied(was, |was|)
      requires incoming == Popped(was, |was|) && hand == Collected(was, |was|)
      modifies this`incoming, this`active, this`hand, this`user
      ensures hand == [] && user == old(user) && Shifted(in0, act0, incoming, active, k + 1)
      ensures Snap().All() == old(Snap().All())
    {
      ShiftMore(in0, act0, was, active, k);
      RequeueConservesIff(Snap(), Active, false);
      BufferListQueue(Active, false);
    }

    /** One round: collect a list and, if a message buffer can be had, activate it. */
    method StartRound(ghost s0: Lists, ghost k: nat, message: bool) returns (got: bool)
      requires s0.Valid() && s0.hand == [] && s0.incoming != [] && hand == [] && user == s0.user
      requires Shifted(s0.incoming, s0.active, incoming, active, k)
      modifies this`incoming, this`active, this`hand, this`user
      ensures got <==> k < Shortest(s0.incoming)
      ensures user == s0.user && Snap().All() == old(Snap().All())
      ensures !got ==> hand == [] && Shifted(s0.incoming, s0.active, incoming, active, k)
      ensures got && message ==> hand == [] && Shifted(s0.incoming, s0.active, incoming, active, k + 1)
      ensures got && !message ==> Uncaptured(old(incoming), incoming, hand) && active == old(active)
    {
      ShiftedOwned(s0, incoming, active, k);
      ShiftedEmpty(s0.incoming, s0.active, incoming, active, k);
      ghost var was := incoming;
      got := BufferListGet();
      if got && message {
        ActivateCollected(s0.incoming, s0.active, was, k);
      }
    }

    /** The list is a local variable of a function that returns: its buffers are on no list any more. */
    method AbandonList()
      modifies this`hand
      ensures hand == [] && Snap() == Do(old(Snap()), Abandon)
      ensures Snap().All() + multiset(old(hand)) == old(Snap().All())
    {
      StepAccounts(Snap(), Abandon);
      hand := [];
    }

    /**
     * The loop of `ipu6_isys_stream_start`, with `msgs` message buffers and room for `room` commands
     * on the ring.  After `k` captures each queue's `k` oldest buffers are active, in order; `was` are
     * the incoming lists then.
     */
    method Captures(msgs: nat, room: nat) returns (k: nat, out: Outcome, ghost was: seq<seq<Buf>>)
      requires Snap().Valid() && hand == [] && incoming != []
      modifies this`incoming, this`active, this`hand, this`user
      ensures user == old(user) && Snap().All() == old(Snap().All())
      ensures Stopped(old(incoming), msgs, room, k, out)
      ensures Shifted(old(incoming), old(active), was, active, k)
      ensures if out.NoMessage? then Uncaptured(was, incoming, hand) else hand == [] && incoming == was
    {
      k := 0;
      ghost var s0, total := Snap(), Snap().All();
      while true
        invariant hand == [] && user == s0.user && Snap().All() == total
        invariant Shifted(s0.incoming, s0.active, incoming, active, k)
        invariant k <= msgs && k <= room && k <= Shortest(s0.incoming)
        decreases Shortest(s0.incoming) - k
      {
        was := incoming;
        var got := StartRound(s0, k, k < msgs);
        if !got {
          was := incoming;
          return k, Drained, was;
        }
        if k == msgs { return k, NoMessage, was; }
        k, was := k + 1, incoming;
        if k > room { return k, Busy, was; }
      }
    }

    /**
     * That loop and its return.  When messages and room suffice there are as many captures as the
     * shortest incoming list allows; without a message buffer the list just collected is lost, one
     * more buffer of every queue.
     */
    method StartLoop(msgs: nat, room: nat)
      returns (k: nat, out: Outcome, ghost was: seq<seq<Buf>>, ghost lost: seq<Buf>)
      requires Snap().Valid() && hand == [] && incoming != []
      modifies this`incoming, this`active, this`hand, this`user
      ensures user == old(user) && hand == [] && Snap().All() + multiset(lost) == old(Snap().All())
      ensures Stopped(old(incoming), msgs, room, k, out)
      ensures Shifted(old(incoming), old(active), was, active, k)
      ensures if out.NoMessage? then lost != [] && Uncaptured(was, incoming, lost) else lost == [] && incoming == was
    {
      k, out, was := Captures(msgs, room);
      lost := hand;
      AbandonList();
    }

    /**
     * `ipu6_stream_buf_ready`: the firmware finished the buffer at `addr` of queue `q`.  The scan
     * runs from the oldest active buffer to the newest and hands the first match to userspace.
     */
    method BufReady(q: nat, addr: nat) returns (found: bool, at: nat)
      requires q < |active|
      modifies this`active, this`user
      ensures found <==> exists i :: 0 <= i < |old(active)[q]| && old(active)[q][i].addr == addr
      ensures found ==> at < |old(active)[q]| && old(active)[q][at].addr == addr
      ensures found ==> forall j :: at < j < |old(active)[q]| ==> old(active)[q][j].addr != addr
      ensures found ==> Snap() == Do(old(Snap()), Ready(q, at))
      ensures found ==>
        && active == old(active)[q := old(active)[q][..at] + old(active)[q][at + 1..]]
        && user == old(user) + multiset{old(active)[q][at]}
      ensures !found ==> Snap() == old(Snap())
    {
      found, at := false, |active[q]|;
      while at > 0
        invariant at <= |active[q]| && active == old(active) && user == old(user)
        invariant forall j :: at <= j < |active[q]| ==> active[q][j].addr != addr
      {
        at := at - 1;
        var ib := active[q][at];
        if ib.addr == addr {
          active := active[q := Remove(active[q], at)];
          user := user + multiset{ib};
          return true, at;
        }
      }
    }

    /** One round of the inner loop of `flush_firmware_streamon_fail`: the newest active buffer goes
        back to the driver or to userspace. */
    method FlushOne(q: nat, streaming: bool)
      requires q < |active| == |incoming| && active[q] != []
      modifies this`incoming, this`active, this`user
      ensures Snap() == Do(old(Snap()), FlushStep(q, streaming))
    {
      var ib := active[q][0];
      assert Remove(active[q], 0) == active[q][1..];
      active := active[q := active[q][1..]];
      if streaming {
        incoming := incoming[q := [ib] + incoming[q]];
      } else {
        user := user + multiset{ib};
      }
    }

    /** The inner loop. */
    method FlushQueue(q: nat, streaming: bool)
      requires q < |active| == |incoming|
      modifies this`incoming, this`active, this`user
      ensures active == old(active)[q := []]
      ensures incoming == old(incoming)[q := Flushed(old(active)[q], old(incoming)[q], streaming)]
      ensures Snap().All() == old(Snap().All())
    {
      ghost var s0 := Snap();
      while active[q] != []
        invariant |active| == |incoming| == |s0.active| && hand == s0.hand
        invariant PartlyFlushed(s0, Snap(), q, streaming)
        decreases |active[q]|
      {
        PartlyFlushedStep(s0, Snap(), q, streaming);
        FlushOne(q, streaming);
      }
      FlushedEnd(s0, Snap(), q, streaming);
    }

    /** `flush_firmware_streamon_fail`: no buffer stays with the firmware. */
    method Flush(streaming: seq<bool>)
      requires |streaming| == |active| == |incoming|
      modifies this`incoming, this`active, this`user
      ensures active == Emptied(old(active), |old(active)|)
      ensures incoming == FlushedAll(old(active), old(incoming), streaming, |old(active)|)
      ensures Snap().All() == old(Snap().All())
    {
      var q, n: nat := 0, |active|;
      FlushedNext(active, incoming, streaming, 0);
      while q < n
        invariant q <= n && active == Emptied(old(active), q) &&
          incoming == FlushedAll(old(active), old(incoming), streaming, q)
        invariant Snap().All() == old(Snap().All())
      {
        FlushedNext(old(active), old(incoming), streaming, q);
        FlushQueue(q, streaming[q]);
        q := q + 1;
      }
    }

    /** One round of either loop of `return_buffers`. */
    method ReturnOne(q: nat, fromActive: bool)
      requires q < |active| == |incoming| && (if fromActive then active[q] else incoming[q]) != []
      modifies this`incoming, this`active, this`user
      ensures Snap() == Do(old(Snap()), if fromActive then DrainActive(q) else DrainIncoming(q))
      ensures Snap().All() == old(Snap().All())
      ensures fromActive ==> active == old(active)[q := old(active)[q][1..]] && incoming == old(incoming)
      ensures !fromActive ==> incoming == old(incoming)[q := old(incoming)[q][1..]] && active == old(active)
    {
      StepConserves(Snap(), if fromActive then DrainActive(q) else DrainIncoming(q));
      if fromActive {
        user := user + multiset{active[q][0]};
        assert Remove(active[q], 0) == active[q][1..];
        active := active[q := active[q][1..]];
      } else {
        user := user + multiset{incoming[q][0]};
        assert Remove(incoming[q], 0) == incoming[q][1..];
        incoming := incoming[q := incoming[q][1..]];
      }
    }

    /** The loop over the incoming list. */
    method ReturnIncoming(q: nat)
      requires q < |active| == |incoming|
      modifies this`incoming, this`active, this`user
      ensures incoming == old(incoming)[q := []] && active == old(active)
      ensures Snap().All() == old(Snap().All())
    {
      ghost var total, in0 := Snap().All(), incoming;
      while incoming[q] != []
        invariant |incoming| == |active| == |in0| && incoming == in0[q := incoming[q]] && active == old(active)
        invariant Snap().All() == total
        decreases |incoming[q]|
      {
        ReturnOne(q, false);
      }
    }

    /** The loop over the active list; `stuck` is the source's local `need_reset`. */
    method ReturnActive(q: nat) returns (stuck: bool)
      requires q < |active| == |incoming|
      modifies this`incoming, this`active, this`user
      ensures active == old(active)[q := []] && incoming == old(incoming)
      ensures stuck <==> old(active)[q] != []
      ensures Snap().All() == old(Snap().All())
    {
      ghost var total, act0 := Snap().All(), active;
      stuck := false;
      while active[q] != []
        invariant |incoming| == |active| == |act0| && active == act0[q := active[q]] && incoming == old(incoming)
        invariant Snap().All() == total
        invariant if stuck then act0[q] != [] else active[q] == act0[q]
        decreases |active[q]|
      {
        ReturnOne(q, true);
        stuck := true;
      }
    }

    /** `return_buffers`: both lists end up empty, and a reset is asked for iff the firmware kept a buffer. */
    method ReturnBuffers(q: nat)
      requires q < |active| == |incoming|
      modifies this`incoming, this`active, this`user, this`needReset
      ensures incoming == old(incoming)[q := []] && active == old(active)[q := []]
      ensures needReset <==> old(needReset) || old(active)[q] != []
      ensures Snap().All() == old(Snap().All())
    {
      ReturnIncoming(q);
      var stuck := ReturnActive(q);
      if stuck { needReset := true; }
    }

    /** Giving the list back after a failed start. */
    method RequeueFailed(error: bool)
      requires |incoming| == |active| && InRange(hand, |incoming|)
      modifies this`incoming, this`active, this`hand, this`user
      ensures hand == [] && active == old(active) && incoming == Back(old(incoming), old(hand))
      ensures Snap().All() == old(Snap().All()) <==> old(hand) == [] || !error
      ensures Snap().All() == old(Snap().All()) + if error then multiset(old(hand)) else multiset{}
    {
      if hand == [] {
        assert multiset(hand) == multiset{};
        return;
      }
      RequeueConservesIff(Snap(), Incoming, error);
      RequeuedTotal(Snap(), Incoming, error);
      BufferListQueue(Incoming, error);
    }

    /** The error exit of `ipu6_isys_stream_start`. */
    method StartFailed(error: bool, streaming: seq<bool>)
      requires |incoming| == |active| == |streaming| && InRange(hand, |incoming|)
      modifies this`incoming, this`active, this`hand, this`user
      ensures hand == [] && active == Emptied(old(active), |old(active)|)
      ensures incoming == FlushedAll(old(active), Back(old(incoming), old(hand)), streaming, |old(active)|)
      ensures Snap().All() == old(Snap().All()) <==> old(hand) == [] || !error
      ensures Snap().All() == old(Snap().All()) + if error then multiset(old(hand)) else multiset{}
    {
      RequeueFailed(error);
      Flush(streaming);
    }

    /** Activating the first list, inside the firmware start. */
    method ActivateFirst()
      requires Snap().Valid()
      modifies this`incoming, this`active, this`hand, this`user
      ensures hand == [] && Snap().Valid() && incoming == old(incoming) && user == old(user)
      ensures active == Front(old(active), old(hand))
      ensures Snap().All() == old(Snap().All())
    {
      RequeueConservesIff(Snap(), Active, false);
      RequeuedValid(Snap());
      BufferListQueue(Active, false);
    }

    /** A start that succeeds: the first list is active, then the loop runs. */
    method StartSucceeds(msgs: nat, room: nat) returns (ghost c: Ended)
      requires Snap().Valid() && incoming != []
      modifies this`incoming, this`active, this`hand, this`user
      ensures hand == [] && user == old(user)
      ensures LoopEnded(old(incoming), Front(old(active), old(hand)), msgs, room, c, incoming, active)
      ensures Snap().All() == old(Snap().All()) <==> !OutOfMessages(old(incoming), msgs, room)
      ensures Snap().All() + multiset(c.lost) == old(Snap().All())
    {
      ActivateFirst();
      ghost var before := Snap().All();
      var k, out;
      ghost var was, lost;
      k, out, was, lost := StartLoop(msgs, room);
      c := Ended(k, out, was, lost);
      LossShows(Snap().All(), lost, before);
    }

    /** A start that fails, before or after the first list was activated. */
    method StartFails(activated: bool, error: bool, streaming: seq<bool>)
      requires Snap().Valid() && |streaming| == |active|
      modifies this`incoming, this`active, this`hand, this`user
      ensures hand == [] && StartUndone(old(Snap()), activated, streaming, incoming, active)
      ensures Snap().All() == old(Snap().All()) <==> old(hand) == [] || activated || !error
      ensures Snap().All() == old(Snap().All()) + if error && !activated then multiset(old(hand)) else multiset{}
    {
      if activated { ActivateFirst(); }
      assert activated ==> multiset(hand) == multiset{};
      StartFailed(error, streaming);
    }

    /**
     * `ipu6_isys_stream_start`.  `activated` says whether starting the firmware stream got as far as
     * activating the first list, `ok` whether it succeeded.  When it fails nothing stays with the
     * firmware.  No buffer is lost or duplicated exactly when, on failure, there was no list left to
     * requeue or the caller did not ask for the error state, and, on success, the loop does not run
     * out of message buffers before it runs out of buffers or of room on the ring.
     */
    method StreamStart(activated: bool, ok: bool, error: bool, streaming: seq<bool>, msgs: nat, room: nat)
      returns (ghost c: Ended)
      requires Snap().Valid() && incoming != [] && |streaming| == |active| && (ok ==> activated)
      modifies this`incoming, this`active, this`hand, this`user
      ensures hand == []
      ensures ok ==>
        && user == old(user)
        && LoopEnded(old(incoming), Front(old(active), old(hand)), msgs, room, c, incoming, active)
      ensures !ok ==> StartUndone(old(Snap()), activated, streaming, incoming, active)
      ensures Snap().All() == old(Snap().All()) <==>
        (old(hand) == [] || activated || !error) && !(ok && OutOfMessages(old(incoming), msgs, room))
      ensures ok ==> Snap().All() + multiset(c.lost) == old(Snap().All())
      ensures !ok ==>
        Snap().All() == old(Snap().All()) + if error && !activated then multiset(old(hand)) else multiset{}
    {
      c := Ended(0, Drained, [], []);
      if ok {
        c := StartSucceeds(msgs, room);
      } else {
        StartFails(activated, error, streaming);
      }
    }

    /** The first critical section of `buf_queue`. */
    method AddIncoming(b: Buf)
      requires Snap().Valid() && b in user && b.queue < |incoming|
      modifies this`incoming, this`user
      ensures Snap() == Do(old(Snap()), Queue(b)) && incoming == WithNew(old(incoming), b)
      ensures Snap().Valid() && Snap().All() == old(Snap().All())
    {
      StepConserves(Snap(), Queue(b));
      StepKeepsValid(Snap(), Queue(b));
      incoming := incoming[b.queue := [b] + incoming[b.queue]];
      user := user - multiset{b};
    }

    /** The part of `buf_queue` behind its message buffer: start the stream, or one more capture. */
    method SubmitCollected(running: bool, activated: bool, ok: bool, streaming: seq<bool>, msgs: nat, room: nat)
      returns (ghost c: Ended)
      requires Snap().Valid() && incoming != [] && hand != [] && |streaming| == |active| && (ok ==> activated)
      modifies this`incoming, this`active, this`hand, this`user
      ensures hand == []
      ensures running ==> incoming == old(incoming) && active == Front(old(active), old(hand)) && user == old(user)
      ensures !running && ok ==>
        && user == old(user)
        && LoopEnded(old(incoming), Front(old(active), old(hand)), msgs, room, c, incoming, active)
      ensures !running && !ok ==> StartUndone(old(Snap()), activated, streaming, incoming, active)
      ensures Snap().All() == old(Snap().All()) <==>
        running || (activated && !(ok && OutOfMessages(old(incoming), msgs, room)))
    {
      c := Ended(0, Drained, [], []);
      if running {
        ActivateFirst();
      } else {
        c := StreamStart(activated, ok, true, streaming, msgs, room);
      }
    }

    /**
     * `buf_queue`: the buffer goes to the head of its incoming list; `ready` says whether all queues of
     * the pipeline stream, and then, if every queue has a buffer, the oldest one of each is collected.  On a
     * `running` stream they become active.  Otherwise they start it: after a start that succeeds they and
     * those of `c.k` more captures are active; after one that fails nothing is, and they are flushed or put
     * back.  No buffer is lost or duplicated exactly when no list was collected, or there was a message
     * buffer for it and, if it was to start the stream, the start activated it and did not run out of
     * messages later.
     */
    method BufQueue(b: Buf, ready: bool, message: bool, running: bool,
                    activated: bool, ok: bool, streaming: seq<bool>, msgs: nat, room: nat)
      returns (ghost c: Ended)
      requires Snap().Valid() && hand == [] && b in user && b.queue < |incoming|
      requires |streaming| == |active| && (ok ==> activated)
      modifies this`incoming, this`active, this`hand, this`user
      ensures hand == []
      ensures var now := WithNew(old(incoming), b);
        && (!ready || !Complete(now) ==> incoming == now && active == old(active) && user == old(user) - multiset{b})
        && (ready && Complete(now) ==>
              Queued(now, old(active), message, running, activated, ok, streaming, msgs, room, c, incoming, active))
        && (Snap().All() == old(Snap().All()) <==>
              || !ready || !Complete(now)
              || (message && (running || (activated && !(ok && OutOfMessages(now, msgs + 1, room + 1))))))
    {
      ghost var total := Snap().All();
      c := Ended(0, Drained, [], []);
      AddIncoming(b);
      if !ready { return; }
      ghost var s1 := Snap();
      var got := BufferListGet();
      if !got { return; }
      PoppedShortest(s1.incoming);
      CollectedValid(s1);
      if !message {
        LossShows(Do(Snap(), Abandon).All(), hand, total) by { StepAccounts(Snap(), Abandon); }
        AbandonList();
        return;
      }
      ghost var s2 := Snap();
      c := SubmitCollected(running, activated, ok, streaming, msgs, room);
      if running { CaptureOne(s1.incoming, s1.active); }
      else if ok { QueuedStart(s1.incoming, s1.active, activated, streaming, msgs, room, c, incoming, active); }
      else { QueuedFailed(s2, s1.incoming, activated, streaming, msgs, room, c, incoming, active); }
    }

    /** The second half of `restart_stream`: the collected list is activated, or forgotten. */
    method RestartCollected(activated: bool) returns (ghost lost: seq<Buf>)
      requires Snap().Valid()
      modifies this`incoming, this`active, this`hand, this`user
      ensures hand == [] && user == old(user) && incoming == old(incoming)
      ensures lost == if activated then [] else old(hand)
      ensures active == if activated then Front(old(active), old(hand)) else old(active)
      ensures Snap().All() + multiset(lost) == old(Snap().All())
    {
      lost := [];
      if activated {
        ActivateFirst();
      } else {
        lost := hand;
        AbandonList();
      }
    }

    /**
     * `restart_stream`: `reached` says whether it got as far as collecting a list, `activated` whether
     * starting the firmware stream again got as far as activating it.  A list that was collected and not
     * activated is lost, one buffer of every queue.
     */
    method RestartStream(reached: bool, activated: bool) returns (ghost lost: seq<Buf>)
      requires Snap().Valid() && hand == [] && incoming != []
      modifies this`incoming, this`active, this`hand, this`user
      ensures hand == [] && user == old(user) && Snap().All() + multiset(lost) == old(Snap().All())
      ensures !reached || !Complete(old(incoming)) ==> Snap() == old(Snap()) && lost == []
      ensures reached && Complete(old(incoming)) && activated ==>
        lost == [] && Shifted(old(incoming), old(active), incoming, active, 1)
      ensures reached && Complete(old(incoming)) && !activated ==>
        active == old(active) && Uncaptured(old(incoming), incoming, lost)
      ensures Snap().All() == old(Snap().All()) <==> !reached || !Complete(old(incoming)) || activated
    {
      lost := [];
      ghost var s0 := Snap();
      if reached {
        var got := BufferListGet();
        if got {
          CollectedValid(s0);
          CaptureOne(s0.incoming, s0.active);
          lost := RestartCollected(activated);
        }
      }
      LossShows(Snap().All(), lost, s0.All());
    }
  }

  // ----- the losses, at one input each

  /** One queue, its only buffer in the list of a failed start: INCOMING and SET_STATE put it in two places. */
  lemma {:induction false} RequeueDoubles(b: Buf)
    requires b.queue == 0
    ensures Requeued(Lists([[]], [[]], [b], multiset{}), Incoming, true) == Lists([[b]], [[]], [], multiset{b})
    ensures Lists([[b]], [[]], [], multiset{b}).All() == multiset{b, b}
  {
    var empty: seq<seq<Buf>> := [[]];
    assert empty[0] + [b] == [b];
    assert empty[0 := [b]] == [[b]];
    assert Back(empty, [b]) == Back([[b]], []);
    FlatOne([b]);
    FlatOne([]);
  }

  lemma {:induction false} FlatOne(l: seq<Buf>)
    ensures Flat([l]) == multiset(l)
  {
    assert [l][..0] == [];
  }

  /** One queue with one buffer and no message buffer: a start that succeeds leaves it on no list at all. */
  method StartLoses(b: Buf) returns (st: Stream)
    requires b.queue == 0
    ensures st.hand == [] && st.Snap().All() == multiset{}
  {
    st := new Stream([[b]], 1);
    FlatOne([b]);
    FlatOne([]);
    assert st.active == [[]];
    assert st.Snap().All() == multiset{b};
    ghost var c := st.StreamStart(true, true, true, [true], 0, 5);
    assert multiset(c.lost)[c.lost[0]] >= 1 && c.lost[0] == b;
  }

  /** One queue with one buffer: a restart that fails before activating it leaves it on no list at all. */
  method RestartLoses(b: Buf) returns (st: Stream)
    requires b.queue == 0
    ensures st.hand == [] && st.Snap().All() == multiset{}
  {
    st := new Stream([[b]], 1);
    FlatOne([b]);
    FlatOne([]);
    assert st.active == [[]];
    assert st.Snap().All() == multiset{b};
    ghost var lost := st.RestartStream(true, false);
    assert multiset(lost)[lost[0]] >= 1 && lost[0] == b;
  }
}
