/**
 * Two pieces of kernel/ipu4/ipu6-buttress.c: the 64-bit time-stamp counter read as two 32-bit halves
 * (lines 789-808), and the bulk IPC send loop with its retry (lines 221-306).
 */
module Buttress {
  import opened Common

  const BIT31: nat := 0x8000_0000

  // ----- the time-stamp counter

  /** The high word that belongs to `lo`: the first one unless the low word is small and they differ. */
  function Combined(hi1: nat, lo: nat, hi2: nat): nat {
    (if hi1 == hi2 || lo >= BIT31 then hi1 else hi2) * U32 + lo
  }

  /**
   * The read is linearizable: if the counter advances by at most 2^31 from the first to the third
   * register read, the result is exactly its value at the moment the low word was read, whether or
   * not the low word rolled over in between.
   */
  lemma {:induction false} TscLinearizable(c1: nat, c2: nat, c3: nat)
    requires c1 <= c2 <= c3 < U64 && c3 - c1 <= BIT31
    ensures Combined(c1 / U32, c2 % U32, c3 / U32) == c2
  {
    var h1, h2, h3, lo := c1 / U32, c2 / U32, c3 / U32, c2 % U32;
    assert h1 <= h2 <= h3 <= h1 + 1;
    assert c2 == h2 * U32 + lo;
    if h1 != h3 {
      assert c1 < h3 * U32 <= c3;
      if h2 == h3 {
        assert lo == c2 - h3 * U32 < c2 - c1;
      } else {
        assert lo == c2 - h1 * U32 >= h3 * U32 - BIT31 - h1 * U32;
      }
    }
  }

  /**
   * `ipu6_buttress_tsc_read`.  The 64-bit counter stands at `c1`, `c2` and `c3` when the high, the low
   * and again the high word are read; the code sees only those words.  The value it puts together is
   * the counter's at the moment of the low read.
   */
  method TscRead(ghost c1: nat, ghost c2: nat, ghost c3: nat, hi1: nat, lo: nat, hi2: nat) returns (val: nat)
    requires c1 <= c2 <= c3 < U64 && hi1 == c1 / U32 && lo == c2 % U32 && hi2 == c3 / U32
    ensures c3 - c1 <= BIT31 ==> val == c2
    ensures val % U32 == c2 % U32 && c1 / U32 <= val / U32 <= c3 / U32
  {
    if hi1 == hi2 {
      val := hi1 * U32 + lo;
    } else {
      if lo / BIT31 % 2 == 1 {
        val := hi1 * U32 + lo;
      } else {
        val := hi2 * U32 + lo;
      }
    }
    assert val == Combined(hi1, lo, hi2);
    if c3 - c1 <= BIT31 { TscLinearizable(c1, c2, c3); }
    assert val / U32 == (if hi1 == hi2 || lo >= BIT31 then hi1 else hi2) && val % U32 == lo;
  }

  /** The bound is sharp on both sides of a rollover: one tick more and the result can be 2^32 off. */
  lemma {:induction false} TscBoundSharp()
    ensures var c1, c2 := U32 - 1, U32 + BIT31;
      c2 - c1 == BIT31 + 1 && Combined(c1 / U32, c2 % U32, c2 / U32) == c2 - U32
    ensures var c2, c3 := BIT31 - 1, U32; c3 - c2 == BIT31 + 1 && Combined(c2 / U32, c2 % U32, c3 / U32) == c2 + U32
  {
    assert (U32 + BIT31) % U32 == BIT31 && (U32 + BIT31) / U32 == 1 && (U32 - 1) / U32 == 0;
    assert (BIT31 - 1) % U32 == BIT31 - 1 && (BIT31 - 1) / U32 == 0 && U32 / U32 == 1;
  }

  // ----- bulk IPC

  const CMD_SEND_RETRY: nat := 1

  datatype Msg = Msg(cmd: nat, requireResp: bool, expectedResp: nat)

  /** What the other side does after a doorbell: completes the send in time, responds in time, and with what. */
  datatype Outcome = Outcome(acked: bool, responded: bool, data: nat)

  datatype Nack = Nack(mask: nat, value: nat)

  /** Bitwise and. */
  function And(a: nat, b: nat): nat {
    if a == 0 || b == 0 then 0 else a % 2 * (b % 2) + 2 * And(a / 2, b / 2)
  }

  /** Bit `i` of a number. */
  function Bit(a: nat, i: nat): nat { if i == 0 then a % 2 else Bit(a / 2, i - 1) }

  /** It is the conjunction of the bits. */
  lemma {:induction false} AndBits(a: nat, b: nat, i: nat)
    ensures Bit(And(a, b), i) == if Bit(a, i) == 1 && Bit(b, i) == 1 then 1 else 0
    decreases i
  {
    if a == 0 || b == 0 {
      BitOfZero(i);
    } else {
      var c, d := a % 2 * (b % 2), And(a / 2, b / 2);
      assert And(a, b) == c + 2 * d && c <= 1;
      if i > 0 { AndBits(a / 2, b / 2, i - 1); } else { BitRange(a, 0); }
    }
  }

  lemma {:induction false} BitOfZero(i: nat)
    ensures Bit(0, i) == 0
  {
    if i > 0 { BitOfZero(i - 1); }
  }

  lemma {:induction false} BitRange(a: nat, i: nat)
    ensures Bit(a, i) == 0 || Bit(a, i) == 1
  {
    if i > 0 { BitRange(a / 2, i - 1); }
  }

  /** The verdict on a completed send. */
  function Verdict(msg: Msg, o: Outcome, nack: Nack): Errno {
    if !msg.requireResp then Ok
    else if !o.responded then ETIMEDOUT
    else if nack.mask != 0 && And(o.data, nack.mask) == nack.value then EIO
    else if o.data != msg.expectedResp then EIO
    else Ok
  }

  /** Result and the messages whose doorbell was rung, in order. */
  datatype Sent = Sent(ret: Errno, bells: seq<nat>)

  /**
   * The reference, message by message: ring, ring once more if the first was not acknowledged, judge
   * the response, go on with the next message.  Doorbell number `e` has outcome `env(e)`.
   */
  function SendFrom(msgs: seq<Msg>, nack: Nack, env: nat -> Outcome, m: nat, e: nat): Sent
    requires m <= |msgs|
    decreases |msgs| - m
  {
    if m == |msgs| then Sent(Ok, [])
    else
      var last := if env(e).acked then e else e + 1;
      var bells := if env(e).acked then [m] else [m, m];
      if !env(last).acked then Sent(ETIMEDOUT, bells)
      else if Verdict(msgs[m], env(last), nack) != Ok then Sent(Verdict(msgs[m], env(last), nack), bells)
      else
        var rest := SendFrom(msgs, nack, env, m + 1, last + 1);
        Sent(rest.ret, bells + rest.bells)
  }

  function Then(bells: seq<nat>, s: Sent): Sent { Sent(s.ret, bells + s.bells) }

  /** One message acknowledged at the first or second ring and judged good: the rest decides. */
  lemma {:induction false} Advance(
    msgs: seq<Msg>, nack: Nack, env: nat -> Outcome, m: nat, e: nat, retried: bool, before: seq<nat>)
    requires m < |msgs| && (retried ==> e > 0 && !env(e - 1).acked)
    requires env(e).acked && Verdict(msgs[m], env(e), nack) == Ok
    ensures Then(before, SendFrom(msgs, nack, env, m, if retried then e - 1 else e))
         == Then(before + (if retried then [m, m] else [m]), SendFrom(msgs, nack, env, m + 1, e + 1))
  {
    var rest := SendFrom(msgs, nack, env, m + 1, e + 1).bells;
    assert before + ([m] + rest) == (before + [m]) + rest;
    assert before + ([m, m] + rest) == (before + [m, m]) + rest;
  }

  /** One message not acknowledged twice, or acknowledged and judged bad: that is the result. */
  lemma {:induction false} Stop(
    msgs: seq<Msg>, nack: Nack, env: nat -> Outcome, m: nat, e: nat, retried: bool, before: seq<nat>)
    requires m < |msgs| && (retried ==> e > 0 && !env(e - 1).acked)
    requires if env(e).acked then Verdict(msgs[m], env(e), nack) != Ok else retried
    ensures Then(before, SendFrom(msgs, nack, env, m, if retried then e - 1 else e))
         == Sent(if env(e).acked then Verdict(msgs[m], env(e), nack) else ETIMEDOUT,
                 before + (if retried then [m, m] else [m]))
  {
  }

  /** The waits and tests after an acknowledged send. */
  method Judge(msg: Msg, o: Outcome, nack: Nack) returns (ret: Errno)
    ensures ret == Verdict(msg, o, nack)
  {
    if !msg.requireResp { return Ok; }
    if !o.responded { return ETIMEDOUT; }
    if nack.mask != 0 && And(o.data, nack.mask) == nack.value { return EIO; }
    if o.data != msg.expectedResp { return EIO; }
    return Ok;
  }

  /** `i--` followed by the loop's `i++`, on an unsigned int: back to the same message, also from 0. */
  method SameAgain(i: nat) returns (j: nat)
    requires i < U32
    ensures j == i
  {
    j := (i + U32 - 1) % U32;
    j := (j + 1) % U32;
  }

  /** What is left to do when message `i` is next; `retry` is 0 when its doorbell was rung once already. */
  ghost predicate Left(
    msgs: seq<Msg>, nack: Nack, env: nat -> Outcome, i: nat, e: nat, retry: nat, bells: seq<nat>, goal: Sent)
  {
    && i <= |msgs| && retry <= CMD_SEND_RETRY
    && (retry == 0 ==> i < |msgs| && e > 0 && !env(e - 1).acked && bells != [])
    && (retry == 0 ==> bells[|bells| - 1] == i)
    && (retry == 0 ==> goal == Then(bells[..|bells| - 1], SendFrom(msgs, nack, env, i, e - 1)))
    && (retry > 0 ==> goal == Then(bells, SendFrom(msgs, nack, env, i, e)))
  }

  /** Not acknowledged, one retry left: the same message again. */
  lemma {:induction false} LeftAgain(
    msgs: seq<Msg>, nack: Nack, env: nat -> Outcome, i: nat, e: nat, bells: seq<nat>, goal: Sent)
    requires i < |msgs| && Left(msgs, nack, env, i, e, CMD_SEND_RETRY, bells, goal) && !env(e).acked
    ensures Left(msgs, nack, env, i, e + 1, 0, bells + [i], goal)
  {
    assert (bells + [i])[..|bells|] == bells;
  }

  /** Acknowledged and judged: the next message, or the result. */
  lemma {:induction false} LeftNext(
    msgs: seq<Msg>, nack: Nack, env: nat -> Outcome, i: nat, e: nat, retry: nat, bells: seq<nat>, goal: Sent)
    requires i < |msgs| && Left(msgs, nack, env, i, e, retry, bells, goal) && (env(e).acked || retry == 0)
    ensures env(e).acked && Verdict(msgs[i], env(e), nack) == Ok ==>
      Left(msgs, nack, env, i + 1, e + 1, CMD_SEND_RETRY, bells + [i], goal)
    ensures !(env(e).acked && Verdict(msgs[i], env(e), nack) == Ok) ==>
      goal == Sent(if env(e).acked then Verdict(msgs[i], env(e), nack) else ETIMEDOUT, bells + [i])
  {
    var retried := retry == 0;
    var before := if retried then bells[..|bells| - 1] else bells;
    assert bells + [i] == before + (if retried then [i, i] else [i]);
    if env(e).acked && Verdict(msgs[i], env(e), nack) == Ok {
      Advance(msgs, nack, env, i, e, retried, before);
    } else {
      Stop(msgs, nack, env, i, e, retried, before);
    }
  }

  /** One pass through the loop body, up to the loop's own increment; `stop` is a jump to `out`. */
  method Attempt(
    msgs: seq<Msg>, nack: Nack, env: nat -> Outcome, i: nat, e: nat, retry: nat, bells: seq<nat>, ghost goal: Sent)
    returns (stop: bool, ret: Errno, next: nat, retryLeft: nat, rung: seq<nat>)
    requires |msgs| < U32 && i < |msgs| && Left(msgs, nack, env, i, e, retry, bells, goal)
    ensures rung == bells + [i]
    ensures stop ==> Sent(ret, rung) == goal
    ensures !stop ==> ret == Ok && Left(msgs, nack, env, next, e + 1, retryLeft, rung, goal)
    ensures !stop ==> next > i || (next == i && retryLeft < retry)
  {
    stop, ret, next, retryLeft, rung := false, Ok, i, retry, bells + [i];
    if !env(e).acked {
      if retry == 0 {
        LeftNext(msgs, nack, env, i, e, retry, bells, goal);
        return true, ETIMEDOUT, i, retry, rung;
      }
      LeftAgain(msgs, nack, env, i, e, bells, goal);
      retryLeft := retry - 1;
      next := SameAgain(i);
      return;
    }
    LeftNext(msgs, nack, env, i, e, retry, bells, goal);
    retryLeft := CMD_SEND_RETRY;
    ret := Judge(msgs[i], env(e), nack);
    if ret != Ok {
      stop := true;
      return;
    }
    next := (i + 1) % U32;
  }

  /**
   * `ipu6_buttress_ipc_send_bulk`, with its single loop, its shared retry counter and its 32-bit index
   * that is decremented before `continue` increments it again, also at 0.  `open` is the result of
   * opening the register window.  The loop ends, and it is the reference.
   */
  method SendBulk(msgs: seq<Msg>, nack: Nack, env: nat -> Outcome, open: Errno) returns (ret: Errno, bells: seq<nat>)
    requires |msgs| < U32
    ensures Sent(ret, bells) == if open != Ok then Sent(open, []) else SendFrom(msgs, nack, env, 0, 0)
  {
    bells := [];
    if open != Ok { return open, []; }
    ret := Ok;
    var i: nat, e: nat, retry: nat := 0, 0, CMD_SEND_RETRY;
    ghost var goal := SendFrom(msgs, nack, env, 0, 0);
    assert [] + goal.bells == goal.bells;
    while i < |msgs|
      invariant ret == Ok && Left(msgs, nack, env, i, e, retry, bells, goal)
      decreases |msgs| - i, retry
    {
      var stop;
      stop, ret, i, retry, bells := Attempt(msgs, nack, env, i, e, retry, bells, goal);
      if stop { return; }
      e := e + 1;
    }
  }

  // ----- what the reference does

  /** In message order, every message at most twice, from message `m` on. */
  ghost predicate InOrder(b: seq<nat>, m: nat, n: nat) {
    && (forall k :: 0 <= k < |b| ==> m <= b[k] < n)
    && (forall j, k :: 0 <= j < k < |b| ==> b[j] <= b[k])
    && (forall j, k :: 0 <= j && j + 2 <= k < |b| ==> b[j] < b[k])
  }

  lemma {:induction false} InOrderConcat(first: seq<nat>, rest: seq<nat>, m: nat, n: nat)
    requires (first == [m] || first == [m, m]) && m < n && InOrder(rest, m + 1, n)
    ensures InOrder(first + rest, m, n)
  {
    var b := first + rest;
    forall j, k | 0 <= j && j + 2 <= k < |b| ensures b[j] < b[k] {
      assert b[k] == rest[k - |first|];
      if j >= |first| { assert b[j] == rest[j - |first|]; }
    }
  }

  /** Doorbells ring in message order, each message's at most twice, and none beyond the messages. */
  lemma {:induction false} BellsInOrder(msgs: seq<Msg>, nack: Nack, env: nat -> Outcome, m: nat, e: nat)
    requires m <= |msgs|
    ensures InOrder(SendFrom(msgs, nack, env, m, e).bells, m, |msgs|)
    decreases |msgs| - m
  {
    if m < |msgs| {
      var last := if env(e).acked then e else e + 1;
      var first := if env(e).acked then [m] else [m, m];
      if env(last).acked && Verdict(msgs[m], env(last), nack) == Ok {
        BellsInOrder(msgs, nack, env, m + 1, last + 1);
        InOrderConcat(first, SendFrom(msgs, nack, env, m + 1, last + 1).bells, m, |msgs|);
      } else {
        InOrderConcat(first, [], m, |msgs|);
        assert first + [] == first;
      }
    }
  }

  /**
   * From message `m` on, the messages completed in turn: message `m` was acknowledged at doorbell
   * `at[0]`, the next one or the one after it, its response, if one is required, arrived, was no NACK
   * and was the expected one; and so on.
   */
  ghost predicate Completed(msgs: seq<Msg>, nack: Nack, env: nat -> Outcome, m: nat, e: nat, at: seq<nat>)
    requires m <= |msgs|
    decreases |msgs| - m
  {
    if m == |msgs| then at == []
    else
      && at != [] && CompletedOne(msgs[m], nack, env(at[0]))
      && (at[0] == e || (at[0] == e + 1 && !env(e).acked))
      && Completed(msgs, nack, env, m + 1, at[0] + 1, at[1..])
  }

  predicate CompletedOne(msg: Msg, nack: Nack, o: Outcome) {
    && o.acked
    && (msg.requireResp ==> o.responded && o.data == msg.expectedResp)
    && (msg.requireResp ==> !(nack.mask != 0 && And(o.data, nack.mask) == nack.value))
  }

  lemma {:induction false} VerdictExact(msg: Msg, nack: Nack, o: Outcome)
    ensures CompletedOne(msg, nack, o) <==> o.acked && Verdict(msg, o, nack) == Ok
  {
  }

  /** Success means that every message completed and every required response matched ... */
  lemma {:induction false} OkMeansCompleted(msgs: seq<Msg>, nack: Nack, env: nat -> Outcome, m: nat, e: nat)
    returns (at: seq<nat>)
    requires m <= |msgs| && SendFrom(msgs, nack, env, m, e).ret == Ok
    ensures Completed(msgs, nack, env, m, e, at)
    decreases |msgs| - m
  {
    at := [];
    if m < |msgs| {
      var last := if env(e).acked then e else e + 1;
      var rest := OkMeansCompleted(msgs, nack, env, m + 1, last + 1);
      at := [last] + rest;
      assert at[1..] == rest;
      VerdictExact(msgs[m], nack, env(last));
    }
  }

  /** ... and nothing else: if every message completes in turn, the result is success. */
  lemma {:induction false} CompletedMeansOk(
    msgs: seq<Msg>, nack: Nack, env: nat -> Outcome, m: nat, e: nat, at: seq<nat>)
    requires m <= |msgs| && Completed(msgs, nack, env, m, e, at)
    ensures SendFrom(msgs, nack, env, m, e).ret == Ok
    decreases |msgs| - m
  {
    if m < |msgs| {
      VerdictExact(msgs[m], nack, env(at[0]));
      CompletedMeansOk(msgs, nack, env, m + 1, at[0] + 1, at[1..]);
    }
  }

  /** Neither of two doorbells was acknowledged, or the one that was got no required response. */
  predicate TimedOut(msg: Msg, first: Outcome, second: Outcome) {
    var o := if first.acked then first else second;
    (!first.acked && !second.acked) || (msg.requireResp && !o.responded)
  }

  /** Acknowledged and answered, but with a NACK or with something else than expected. */
  predicate Rejected(msg: Msg, nack: Nack, first: Outcome, second: Outcome) {
    var o := if first.acked then first else second;
    && o.acked && msg.requireResp && o.responded
    && (o.data != msg.expectedResp || (nack.mask != 0 && And(o.data, nack.mask) == nack.value))
  }

  /**
   * A failure is that of the first message that does not complete: those before it did, in turn, and the
   * error number says how it failed.
   */
  lemma {:induction false} FailureExact(msgs: seq<Msg>, nack: Nack, env: nat -> Outcome, m: nat, e: nat)
    returns (j: nat, at: seq<nat>, d: nat)
    requires m <= |msgs| && SendFrom(msgs, nack, env, m, e).ret != Ok
    ensures m <= j < |msgs| && Completed(msgs[..j], nack, env, m, e, at)
    ensures d == if at == [] then e else at[|at| - 1] + 1
    ensures var ret := SendFrom(msgs, nack, env, m, e).ret;
      && (ret == ETIMEDOUT <==> TimedOut(msgs[j], env(d), env(d + 1)))
      && (ret == EIO <==> Rejected(msgs[j], nack, env(d), env(d + 1)))
      && (ret == ETIMEDOUT || ret == EIO)
    decreases |msgs| - m
  {
    var last := if env(e).acked then e else e + 1;
    if env(last).acked && Verdict(msgs[m], env(last), nack) == Ok {
      var at';
      j, at', d := FailureExact(msgs, nack, env, m + 1, last + 1);
      at := [last] + at';
      assert at[1..] == at' && msgs[..j][m] == msgs[m];
      VerdictExact(msgs[m], nack, env(last));
    } else {
      j, at, d := m, [], e;
    }
  }
}
