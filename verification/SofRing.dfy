/**
 * Frame numbers by time stamp: every start-of-frame event stores its frame number and time stamp in a
 * two-entry ring (kernel/ipu4/ipu6-isys.c:1473-1485), and a finished buffer looks its number up there
 * (kernel/ipu4/ipu6-isys-queue.c:849-875).  The ring is compared with the full history of events
 * since the stream was prepared (kernel/ipu4/ipu6-isys-video.c:818-822).
 */
module SofRing {
  import opened Common

  const MAX_PARALLEL_SOF: nat := 2

  datatype Info = Info(sequence: nat, timestamp: nat)

  /** The latest event that went to ring entry `j`, given the time stamps so far; zeros if none did. */
  function Entry(history: seq<nat>, j: nat): Info
    requires j < MAX_PARALLEL_SOF
  {
    var n := |history|;
    if n >= 1 && (n - 1) % 2 == j then Info((n - 1) % U32, history[n - 1])
    else if n >= 2 && (n - 2) % 2 == j then Info((n - 2) % U32, history[n - 2])
    else Info(0, 0)
  }

  /** What a lookup answers, in terms of the events alone. */
  function Answer(history: seq<nat>, time: nat): nat {
    if time == 0 then (|history| + U32 - 1) % U32
    else if Entry(history, 0).timestamp == time then Entry(history, 0).sequence
    else if Entry(history, 1).timestamp == time then Entry(history, 1).sequence
    else 0
  }

  /** Storing event `n` in entry `n % 2` keeps the other entry the latest of its parity. */
  lemma {:induction false} EntryStep(history: seq<nat>, ts: nat, j: nat)
    requires j < MAX_PARALLEL_SOF
    ensures Entry(history + [ts], j) == if |history| % 2 == j then Info(|history| % U32, ts) else Entry(history, j)
  {
    var h := history + [ts];
    var n := |history|;
    assert h[n] == ts;
    if n >= 1 { assert h[n - 1] == history[n - 1]; }
  }

  /** Time stamps of real events: none is the value of an unused entry, no two are alike. */
  ghost predicate Stamps(history: seq<nat>) {
    0 !in history && Distinct(history)
  }

  /**
   * With distinct non-zero time stamps, looking up event `k` gives its frame number exactly when it is
   * one of the last two; an older one is answered with 0, which is right only for frame 0.
   */
  lemma {:induction false} LookupExactIff(history: seq<nat>, k: nat)
    requires Stamps(history) && k < |history|
    ensures Answer(history, history[k]) == k % U32 <==> k + MAX_PARALLEL_SOF >= |history| || k % U32 == 0
    ensures k + MAX_PARALLEL_SOF < |history| ==> Answer(history, history[k]) == 0
  {
    var n := |history|;
    var last := (n - 1) % 2;
    assert n >= 2 ==> (n - 2) % 2 == 1 - last;
    if k + 2 < n {
      assert history[k] != history[n - 1] && history[k] != history[n - 2];
    } else if n >= 2 {
      assert history[n - 2] != history[n - 1];
    }
  }

  class Stream {
    var sequence: nat
    var seqIndex: nat
    const seqs: array<Info>
    ghost var history: seq<nat>

    ghost predicate Valid()
      reads this, seqs
    {
      && seqs.Length == MAX_PARALLEL_SOF
      && sequence == |history| % U32 && seqIndex == |history| % 2
      && seqs[0] == Entry(history, 0) && seqs[1] == Entry(history, 1)
    }

    constructor ()
      ensures Valid() && history == [] && fresh(seqs)
    {
      sequence, seqIndex, history := 0, 0, [];
      seqs := new Info[MAX_PARALLEL_SOF](_ => Info(0, 0));
    }

    /** `ipu6_isys_video_prepare_stream`: counting and the ring start over. */
    method Prepare()
      requires seqs.Length == MAX_PARALLEL_SOF
      modifies this`sequence, this`seqIndex, this`history, seqs
      ensures Valid() && history == []
    {
      sequence, seqIndex, history := 0, 0, [];
      var i: nat := 0;
      while i < seqs.Length
        invariant i <= seqs.Length && sequence == 0 && seqIndex == 0 && history == []
        invariant forall j :: 0 <= j < i ==> seqs[j] == Info(0, 0)
      {
        seqs[i] := Info(0, 0);
        i := i + 1;
      }
    }

    /** The FRAME_SOF case of `isys_isr_one`. */
    method FrameSof(ts: nat)
      requires Valid()
      modifies this`sequence, this`seqIndex, this`history, seqs
      ensures Valid() && history == old(history) + [ts]
    {
      EntryStep(history, ts, 0);
      EntryStep(history, ts, 1);
      NextFrame(|history|);
      sequence := (sequence + 1) % U32;
      seqs[seqIndex] := Info((sequence + U32 - 1) % U32, ts);
      seqIndex := (seqIndex + 1) % MAX_PARALLEL_SOF;
      history := history + [ts];
    }

    /** `get_sof_sequence_by_timestamp`. */
    method SequenceByTimestamp(time: nat) returns (r: nat)
      requires Valid()
      ensures r == Answer(history, time)
      ensures time == 0 && history != [] ==> r == (|history| - 1) % U32
      ensures time == 0 && history == [] ==> r == U32 - 1
    {
      if time == 0 {
        NextFrame(|history|);
        if history != [] { NextFrame(|history| - 1); }
        return (sequence + U32 - 1) % U32;
      }
      var i: nat := 0;
      while i < MAX_PARALLEL_SOF
        invariant i <= MAX_PARALLEL_SOF && forall j :: 0 <= j < i ==> seqs[j].timestamp != time
      {
        if time == seqs[i].timestamp { return seqs[i].sequence; }
        i := i + 1;
      }
      return 0;
    }

    /** Any run of events since the stream was prepared. */
    method Events(times: seq<nat>)
      requires seqs.Length == MAX_PARALLEL_SOF
      modifies this`sequence, this`seqIndex, this`history, seqs
      ensures Valid() && history == times
    {
      Prepare();
      var i: nat := 0;
      while i < |times|
        invariant i <= |times| && Valid() && history == times[..i]
      {
        FrameSof(times[i]);
        i := i + 1;
      }
      assert times[..i] == times;
    }

    /**
     * A whole run of events, then a lookup: for distinct non-zero time stamps, either of the last two gives
     * that event's frame number.
     */
    method RunThenLookup(times: seq<nat>, k: nat) returns (r: nat)
      requires seqs.Length == MAX_PARALLEL_SOF && Stamps(times) && k < |times|
      modifies this`sequence, this`seqIndex, this`history, seqs
      ensures k + MAX_PARALLEL_SOF >= |times| ==> r == k % U32
    {
      Events(times);
      LookupExactIff(times, k);
      r := SequenceByTimestamp(times[k]);
    }

    /**
     * A whole run of events, whatever their time stamps, then a lookup without one, as the device's
     * responses ask for: the number of the last event, and -1 before the first.
     */
    method RunThenLatest(times: seq<nat>) returns (r: nat)
      requires seqs.Length == MAX_PARALLEL_SOF
      modifies this`sequence, this`seqIndex, this`history, seqs
      ensures r == if times == [] then U32 - 1 else (|times| - 1) % U32
    {
      Events(times);
      r := SequenceByTimestamp(0);
    }
  }

  /** Counting modulo 2^32. */
  lemma {:induction false} NextFrame(n: nat)
    ensures (n % U32 + 1) % U32 == (n + 1) % U32
    ensures ((n + 1) % U32 + U32 - 1) % U32 == n % U32
    ensures (n % U32 + U32 - 1) % U32 == (n + U32 - 1) % U32
  {
    var q, r := n / U32, n % U32;
    assert n == q * U32 + r;
    if r + 1 == U32 {
      assert n + 1 == (q + 1) * U32;
    } else {
      assert n + 1 == q * U32 + (r + 1);
    }
    if r > 0 {
      assert n + U32 - 1 == (q + 1) * U32 + (r - 1);
    }
  }
}
