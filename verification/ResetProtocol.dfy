/**
 * Who may touch the firmware channel (kernel/ipu4/ipu6-isys-video.c:125-190,1194-1250,
 * kernel/ipu4/ipu6-isys-queue.c:717-818).  `video_open`, `ipu6_isys_fw_get` and `ipu6_isys_fw_put` take
 * the ISYS mutex and wait while a reset is under way; the thread that resets gives the mutex up and
 * opens and closes the channel under the `resetting` flag alone.  Any number of threads run, each
 * step is one critical action of one thread, and every decision of the environment (a reset is
 * needed, an open or close fails) may go either way.
 */
module ResetProtocol {
  import opened Common

  datatype Call = Open | Get | Put

  /** Where a thread is. */
  datatype Pc =
    | Out
    /** About to take the mutex, at first or again after a sleep in `wait_for_not_resetting`. */
    | Locking(call: Call)
    /** Holds the mutex, about to test `resetting`. */
    | Testing(call: Call)
    /** Holds the mutex, found `resetting` false. */
    | Inside(call: Call)
    /** `ipu6_fw_isys_open` in `ipu6_isys_fw_get`, `ipu6_fw_isys_close` in `ipu6_isys_fw_put`. */
    | Opening
    | Closing
    /** About to drop the mutex and return. */
    | Leaving
    /** `video_open` has set `resetting` and is about to drop the mutex. */
    | ResetStart
    /** In `ipu6_isys_queue_restart_streams`, without the mutex: between channel operations, closing, reopening. */
    | Restarting
    | RestartClose
    | RestartOpen
    /** About to take the mutex again; then to clear `resetting`. */
    | ResetLocking
    | ResetEnd

  predicate HoldsMutex(pc: Pc) {
    pc.Testing? || pc.Inside? || pc.Opening? || pc.Closing? || pc.Leaving? || pc.ResetStart? || pc.ResetEnd?
  }

  predicate IsResetting(pc: Pc) {
    pc.ResetStart? || pc.Restarting? || pc.RestartClose? || pc.RestartOpen? || pc.ResetLocking? || pc.ResetEnd?
  }

  /** Opens, closes or replaces the firmware channel. */
  predicate OnChannel(pc: Pc) {
    pc.Opening? || pc.Closing? || pc.RestartClose? || pc.RestartOpen?
  }

  /** Has entered `ipu6_isys_fw_put` and not yet dropped the count. */
  predicate AboutToPut(pc: Pc) {
    (pc.Locking? || pc.Testing? || pc.Inside?) && pc.call == Put
  }

  /** Threads not in `pcs` are outside. */
  datatype State = State(
    pcs: map<nat, Pc>, mutex: Option<nat>, resetting: bool, refCount: int,
    /** The channel is up; something about it failed. */
    up: bool, failed: bool,
    /** History: who set `resetting`; successful gets, puts, references nobody is putting, and who is. */
    resetter: Option<nat>, gets: nat, puts: nat, spare: nat, putters: set<nat>)
  {
    function Pc(t: nat): Pc { if t in pcs then pcs[t] else Out }

    function Go(t: nat, pc: Pc): State { this.(pcs := pcs[t := pc]) }

    ghost predicate Init() {
      pcs == map[] && mutex == None && !resetting && refCount == 0 && !up && !failed && resetter == None &&
        gets == puts == spare == 0 && putters == {}
    }
  }

  datatype Action =
    | Enter(call: Call) | Lock | Test
    | Decide(reset: bool) | Bump | Opened(ok: bool) | Drop | Closed(ok: bool) | Unlock
    | Restart | RestartClosed(ok: bool) | RestartOpened(ok: bool) | RestartDone | Clear

  /** Thread `t` does `a`. */
  ghost predicate Step(s: State, t: nat, a: Action, s': State) {
    var pc := s.Pc(t);
    match a
    case Enter(c) =>
      && pc == Out && (c == Put ==> s.spare > 0)
      && s' == if c == Put then s.(spare := s.spare - 1, putters := s.putters + {t}).Go(t, Locking(c))
               else s.Go(t, Locking(c))
    case Lock =>
      && s.mutex == None && (pc.Locking? || pc.ResetLocking?)
      && s' == s.(mutex := Some(t)).Go(t, if pc.Locking? then Testing(pc.call) else ResetEnd)
    case Test =>
      && pc.Testing?
      && s' == if s.resetting then s.(mutex := None).Go(t, Locking(pc.call)) else s.Go(t, Inside(pc.call))
    // video_open
    case Decide(reset) =>
      && pc == Inside(Open)
      && s' == if reset then s.(resetting := true, resetter := Some(t)).Go(t, ResetStart) else s.Go(t, Leaving)
    // ipu6_isys_fw_get
    case Bump =>
      && pc == Inside(Get)
      && s' == if s.refCount != 0
               then s.(refCount := s.refCount + 1, gets := s.gets + 1, spare := s.spare + 1).Go(t, Leaving)
               else s.(refCount := s.refCount + 1).Go(t, Opening)
    case Opened(ok) =>
      && pc == Opening
      && s' == if ok then s.(up := true, gets := s.gets + 1, spare := s.spare + 1).Go(t, Leaving)
               else s.(refCount := s.refCount - 1, up := false).Go(t, Leaving)
    // ipu6_isys_fw_put
    case Drop =>
      && pc == Inside(Put)
      && s' == s.(refCount := s.refCount - 1, puts := s.puts + 1, putters := s.putters - {t})
                .Go(t, if s.refCount - 1 == 0 then Closing else Leaving)
    case Closed(ok) => pc == Closing && s' == s.(up := false, failed := s.failed || !ok).Go(t, Leaving)
    case Unlock =>
      && (pc == Leaving || pc == ResetStart)
      && s' == s.(mutex := None).Go(t, if pc == Leaving then Out else Restarting)
    // ipu6_isys_queue_restart_streams; only a streaming video, which has a reference, is restarted
    case Restart => pc == Restarting && s.refCount > 0 && s' == s.Go(t, RestartClose)
    case RestartClosed(ok) =>
      && pc == RestartClose
      && s' == if ok then s.(up := false).Go(t, RestartOpen) else s.(failed := true).Go(t, ResetLocking)
    case RestartOpened(ok) =>
      && pc == RestartOpen
      && s' == if ok then s.(up := true).Go(t, Restarting) else s.(failed := true).Go(t, ResetLocking)
    case RestartDone => pc == Restarting && s' == s.Go(t, ResetLocking)
    case Clear => pc == ResetEnd && s' == s.(resetting := false, resetter := None).Go(t, Leaving)
  }

  // ----- the invariant

  /** What thread `u`'s place says about the shared state. */
  ghost predicate ThreadOk(s: State, u: nat) {
    var pc := s.Pc(u);
    && (HoldsMutex(pc) <==> s.mutex == Some(u))
    && (IsResetting(pc) <==> s.resetter == Some(u))
    && (pc.Inside? || pc.Opening? || pc.Closing? ==> !s.resetting)
    && (AboutToPut(pc) <==> u in s.putters)
    && (pc.Opening? ==> s.refCount == 1)
    && (pc.Closing? ==> s.refCount == 0)
    && (pc.RestartClose? || pc.RestartOpen? ==> s.refCount > 0)
  }

  /** An opening get has been counted in `refCount` but has not succeeded yet. */
  function Pending(s: State): int {
    if s.mutex.Some? && s.Pc(s.mutex.value).Opening? then 1 else 0
  }

  /** Some thread is on the channel: the mutex holder or the resetting one. */
  predicate Busy(s: State) {
    (s.mutex.Some? && OnChannel(s.Pc(s.mutex.value))) || (s.resetter.Some? && OnChannel(s.Pc(s.resetter.value)))
  }

  ghost predicate GlobalOk(s: State) {
    && (s.resetting <==> s.resetter.Some?)
    && s.refCount == s.gets - s.puts + Pending(s)
    && s.gets - s.puts == s.spare + |s.putters|
    && (!s.failed && !Busy(s) ==> (s.up <==> s.refCount > 0))
  }

  ghost predicate Inv(s: State) {
    GlobalOk(s) && forall u: nat :: ThreadOk(s, u)
  }

  // ----- every step keeps it

  /** Steps around the mutex, as opposed to what is done inside it or in a reset. */
  predicate Waits(a: Action) { a.Enter? || a.Lock? || a.Test? || a.Unlock? }

  predicate Counts(a: Action) { a.Bump? || a.Opened? || a.Drop? || a.Closed? }

  lemma {:induction false} EntererOk(s: State, t: nat, c: Call, s': State)
    requires GlobalOk(s) && ThreadOk(s, t) && Step(s, t, Enter(c), s')
    ensures ThreadOk(s', t)
    ensures s'.resetter == s.resetter && s'.resetting == s.resetting && s'.refCount == s.refCount &&
      s'.gets == s.gets && s'.puts == s.puts
    ensures Pending(s') == Pending(s) && s'.spare + |s'.putters| == s.spare + |s.putters|
  {
    assert s.mutex != Some(t);
  }

  lemma {:induction false} WaiterOk(s: State, t: nat, a: Action, s': State)
    requires GlobalOk(s) && ThreadOk(s, t) && Step(s, t, a, s') && Waits(a) && !a.Enter?
    ensures ThreadOk(s', t)
    ensures s'.resetter == s.resetter && s'.resetting == s.resetting && s'.refCount == s.refCount &&
      s'.gets == s.gets && s'.puts == s.puts
    ensures Pending(s') == Pending(s) && s'.spare == s.spare && s'.putters == s.putters
  {
  }

  lemma {:induction false} CounterOk(s: State, t: nat, a: Action, s': State)
    requires GlobalOk(s) && ThreadOk(s, t) && Step(s, t, a, s') && Counts(a)
    ensures ThreadOk(s', t)
    ensures s'.resetter == s.resetter && s'.resetting == s.resetting
    ensures s'.refCount == s'.gets - s'.puts + Pending(s') && s'.gets - s'.puts == s'.spare + |s'.putters|
  {
  }

  lemma {:induction false} ResetterOk(s: State, t: nat, a: Action, s': State)
    requires GlobalOk(s) && ThreadOk(s, t) && Step(s, t, a, s') && !Waits(a) && !Counts(a)
    ensures ThreadOk(s', t)
    ensures s'.resetting <==> s'.resetter.Some?
    ensures s'.refCount == s.refCount && s'.gets == s.gets && s'.puts == s.puts && s'.spare == s.spare &&
      s'.putters == s.putters
    ensures Pending(s') == Pending(s)
  {
  }

  /** The thread that moved is still consistent with the shared state, and the counts add up. */
  lemma {:induction false} MoverOk(s: State, t: nat, a: Action, s': State)
    requires GlobalOk(s) && ThreadOk(s, t) && Step(s, t, a, s')
    ensures ThreadOk(s', t)
    ensures s'.resetting <==> s'.resetter.Some?
    ensures s'.refCount == s'.gets - s'.puts + Pending(s') && s'.gets - s'.puts == s'.spare + |s'.putters|
  {
    if a.Enter? { EntererOk(s, t, a.call, s'); }
    else if Waits(a) { WaiterOk(s, t, a, s'); }
    else if Counts(a) { CounterOk(s, t, a, s'); }
    else { ResetterOk(s, t, a, s'); }
  }

  lemma {:induction false} OtherOkWaits(s: State, t: nat, a: Action, s': State, u: nat)
    requires GlobalOk(s) && ThreadOk(s, t) && ThreadOk(s, u) && Step(s, t, a, s') && u != t && Waits(a)
    ensures ThreadOk(s', u)
  {
    assert s'.Pc(u) == s.Pc(u);
  }

  lemma {:induction false} OtherOkInside(s: State, t: nat, a: Action, s': State, u: nat)
    requires GlobalOk(s) && ThreadOk(s, t) && ThreadOk(s, u) && Step(s, t, a, s') && u != t && !Waits(a)
    ensures ThreadOk(s', u)
  {
    assert s'.Pc(u) == s.Pc(u);
  }

  /** And so is every other one: what `t` may change, no other thread's place depends on. */
  lemma {:induction false} OtherOk(s: State, t: nat, a: Action, s': State, u: nat)
    requires GlobalOk(s) && ThreadOk(s, t) && ThreadOk(s, u) && Step(s, t, a, s') && u != t
    ensures ThreadOk(s', u)
  {
    if Waits(a) { OtherOkWaits(s, t, a, s', u); } else { OtherOkInside(s, t, a, s', u); }
  }

  lemma {:induction false} ChannelKept(s: State, t: nat, a: Action, s': State)
    requires GlobalOk(s) && ThreadOk(s, t) && Step(s, t, a, s')
    requires s.mutex.Some? ==> ThreadOk(s, s.mutex.value)
    requires s.resetter.Some? ==> ThreadOk(s, s.resetter.value)
    ensures !s'.failed && !Busy(s') ==> (s'.up <==> s'.refCount > 0)
  {
  }

  lemma {:induction false} StepKeepsInv(s: State, t: nat, a: Action, s': State)
    requires Inv(s) && Step(s, t, a, s')
    ensures Inv(s')
  {
    assert ThreadOk(s, t);
    ChannelKept(s, t, a, s');
    MoverOk(s, t, a, s');
    forall u: nat | u != t ensures ThreadOk(s', u) { OtherOk(s, t, a, s', u); }
  }

  // ----- what it means

  /** State `n + 1` follows from state `n` by one step of one thread. */
  ghost predicate Next(run: seq<State>, n: nat)
    requires n + 1 < |run|
  {
    Reaches(run[n], run[n + 1])
  }

  ghost predicate Reaches(s: State, s': State) {
    exists t: nat, a :: Step(s, t, a, s')
  }

  ghost predicate Run(run: seq<State>) {
    |run| > 0 && run[0].Init() && forall n :: 0 <= n < |run| - 1 ==> Next(run, n)
  }

  lemma {:induction false} RunKeepsInv(run: seq<State>, n: nat)
    requires Run(run) && n < |run|
    ensures Inv(run[n])
  {
    if n > 0 {
      RunKeepsInv(run, n - 1);
      assert Next(run, n - 1);
      var t, a :| Step(run[n - 1], t, a, run[n]);
      StepKeepsInv(run[n - 1], t, a, run[n]);
    }
  }

  /**
   * At any time of any run at most one thread is on the channel, and it is the holder of the mutex
   * while no reset is under way or the one thread that set `resetting`.
   */
  lemma {:induction false} ChannelExclusive(run: seq<State>, n: nat, t: nat, u: nat)
    requires Run(run) && n < |run| && OnChannel(run[n].Pc(t))
    ensures var s := run[n];
      && (OnChannel(s.Pc(u)) ==> t == u)
      && ((s.mutex == Some(t) && !s.resetting) || (s.resetting && s.resetter == Some(t)))
  {
    RunKeepsInv(run, n);
    assert ThreadOk(run[n], t) && ThreadOk(run[n], u);
  }

  /** Only one thread at a time resets, and only it clears the flag. */
  lemma {:induction false} ResetterUnique(run: seq<State>, n: nat, t: nat, u: nat)
    requires Run(run) && n < |run| && IsResetting(run[n].Pc(t)) && IsResetting(run[n].Pc(u))
    ensures t == u && run[n].resetting
  {
    RunKeepsInv(run, n);
    assert ThreadOk(run[n], t) && ThreadOk(run[n], u);
  }

  /**
   * `refCount` is the number of successful gets minus puts, one more while a get is opening the
   * channel; it is never negative; and while nobody is on the channel and nothing about it failed,
   * the channel is up exactly when there are references.
   */
  lemma {:induction false} CountExact(run: seq<State>, n: nat)
    requires Run(run) && n < |run|
    ensures var s := run[n];
      && s.refCount == s.gets - s.puts + (if exists t :: s.Pc(t).Opening? then 1 else 0)
      && s.refCount >= 0
      && (!s.failed && (forall t :: !OnChannel(s.Pc(t))) ==> (s.up <==> s.refCount > 0))
  {
    RunKeepsInv(run, n);
    var s := run[n];
    if t :| s.Pc(t).Opening? {
      assert ThreadOk(s, t);
    } else if s.mutex.Some? {
      assert !s.Pc(s.mutex.value).Opening?;
    }
  }

  // ----- every call can return

  /** Steps a thread has to take at most until it is out, if nobody is in its way and no stream is left to restart. */
  function ToGo(pc: Pc): nat {
    match pc
    case Out => 0
    case Leaving => 1
    case ResetEnd => 2
    case ResetLocking => 3
    case Restarting => 4
    case RestartOpen => 5
    case RestartClose => 6
    case ResetStart => 5
    case Opening => 2
    case Closing => 2
    case Inside(_) => 6
    case Testing(_) => 7
    case Locking(_) => 8
  }

  /** Nobody else holds the mutex, and nobody else resets. */
  ghost predicate Free(s: State, t: nat) {
    (s.mutex == None || s.mutex == Some(t)) && (s.resetting ==> s.resetter == Some(t))
  }

  /** A thread in nobody's way gets on. */
  lemma {:induction false} FreeStep(s: State, t: nat) returns (a: Action, s': State)
    requires Inv(s) && Free(s, t) && s.Pc(t) != Out
    ensures Step(s, t, a, s') && Free(s', t) && ToGo(s'.Pc(t)) < ToGo(s.Pc(t))
  {
    assert ThreadOk(s, t);
    var pc := s.Pc(t);
    match pc
    case Leaving => a, s' := Unlock, s.(mutex := None).Go(t, Out);
    case ResetEnd => a, s' := Clear, s.(resetting := false, resetter := None).Go(t, Leaving);
    case ResetLocking => a, s' := Lock, s.(mutex := Some(t)).Go(t, ResetEnd);
    case Restarting => a, s' := RestartDone, s.Go(t, ResetLocking);
    case RestartOpen => a, s' := RestartOpened(true), s.(up := true).Go(t, Restarting);
    case RestartClose => a, s' := RestartClosed(true), s.(up := false).Go(t, RestartOpen);
    case ResetStart => a, s' := Unlock, s.(mutex := None).Go(t, Restarting);
    case Opening => a, s' := Opened(true), s.(up := true, gets := s.gets + 1, spare := s.spare + 1).Go(t, Leaving);
    case Closing => a, s' := Closed(true), s.(up := false).Go(t, Leaving);
    case Testing(c) => a, s' := Test, s.Go(t, Inside(c));
    case Locking(c) => a, s' := Lock, s.(mutex := Some(t)).Go(t, Testing(c));
    case Inside(c) => a, s' := InsideStep(s, t, c);
  }

  lemma {:induction false} InsideStep(s: State, t: nat, c: Call) returns (a: Action, s': State)
    requires s.Pc(t) == Inside(c) && s.mutex == Some(t) && !s.resetting
    ensures Step(s, t, a, s') && Free(s', t) && ToGo(s'.Pc(t)) < ToGo(s.Pc(t))
  {
    match c
    case Open => a, s' := Decide(false), s.Go(t, Leaving);
    case Get =>
      a := Bump;
      s' := if s.refCount != 0
            then s.(refCount := s.refCount + 1, gets := s.gets + 1, spare := s.spare + 1).Go(t, Leaving)
            else s.(refCount := s.refCount + 1).Go(t, Opening);
    case Put =>
      a := Drop;
      s' := s.(refCount := s.refCount - 1, puts := s.puts + 1, putters := s.putters - {t})
             .Go(t, if s.refCount - 1 == 0 then Closing else Leaving);
  }

  lemma {:induction false} RunMore(run: seq<State>, t: nat, a: Action, s': State)
    requires Run(run) && Step(run[|run| - 1], t, a, s')
    ensures Run(run + [s'])
  {
    var run' := run + [s'];
    forall n | 0 <= n < |run'| - 1 ensures Next(run', n) {
      if n < |run| - 1 { assert Next(run, n); }
    }
  }

  /** A thread in nobody's way returns. */
  lemma {:induction false} FreeReturns(run: seq<State>, t: nat) returns (run': seq<State>)
    requires Run(run) && Free(run[|run| - 1], t)
    ensures Run(run') && run <= run' && run'[|run'| - 1].Pc(t) == Out && Free(run'[|run'| - 1], t)
    decreases ToGo(run[|run| - 1].Pc(t))
  {
    var s := run[|run| - 1];
    RunKeepsInv(run, |run| - 1);
    if s.Pc(t) == Out {
      run' := run;
    } else {
      var a, s' := FreeStep(s, t);
      RunMore(run, t, a, s');
      run' := FreeReturns(run + [s'], t);
    }
  }

  /** Whoever holds the mutex can let go of it; who waits for a reset does so to sleep. */
  lemma {:induction false} MutexReleased(run: seq<State>) returns (run': seq<State>)
    requires Run(run)
    ensures Run(run') && run <= run' && run'[|run'| - 1].mutex == None
  {
    var s := run[|run| - 1];
    RunKeepsInv(run, |run| - 1);
    if s.mutex == None {
      run' := run;
    } else {
      var u := s.mutex.value;
      assert ThreadOk(s, u);
      if Free(s, u) {
        run' := FreeReturns(run, u);
        RunKeepsInv(run', |run'| - 1);
        assert ThreadOk(run'[|run'| - 1], u);
      } else if s.Pc(u).Testing? {
        var s' := s.(mutex := None).Go(u, Locking(s.Pc(u).call));
        RunMore(run, u, Test, s');
        run' := run + [s'];
      } else {
        var s' := s.(mutex := None).Go(u, Out);
        RunMore(run, u, Unlock, s');
        run' := run + [s'];
      }
    }
  }

  /**
   * No deadlock: from every reachable state, whoever holds the mutex or resets, every call of every thread
   * can still return.
   */
  lemma {:induction false} EveryCallReturns(run: seq<State>, t: nat) returns (run': seq<State>)
    requires Run(run)
    ensures Run(run') && run <= run' && run'[|run'| - 1].Pc(t) == Out
  {
    run' := MutexReleased(run);
    var s := run'[|run'| - 1];
    RunKeepsInv(run', |run'| - 1);
    if s.resetting {
      run' := FreeReturns(run', s.resetter.value);
      s := run'[|run'| - 1];
      RunKeepsInv(run', |run'| - 1);
      var r := s.resetter;
      assert r.Some? ==> ThreadOk(s, r.value);
      assert s.mutex.Some? ==> ThreadOk(s, s.mutex.value);
    }
    run' := FreeReturns(run', t);
  }
}
