/**
 * The dust sensor's low-pulse occupancy sampler (DustSensor). The pin and the
 * board's clocks are an input Signal; every read of the pin, of ticks_ms or of
 * ticks_us observes the signal at the current instant and moves the cursor t
 * one instant on.
 */
module Dust {
  import opened Pins

  /** The pin level and the microsecond clock at each instant of a run. */
  datatype Signal = Signal(level: nat -> Level, us: nat -> nat)

  predicate Earlier(a: nat, b: nat) {
    a < b
  }

  /** Every read takes time: the microsecond clock strictly increases from one instant to the next.
      (The quantifier fires only on Earlier terms, which ClockOrder supplies where a proof needs them.) */
  ghost predicate ClockAdvances(s: Signal) {
    forall a: nat, b: nat {:trigger Earlier(a, b)} :: Earlier(a, b) ==> s.us(a) < s.us(b)
  }

  lemma ClockOrder(s: Signal, a: nat, b: nat)
    requires ClockAdvances(s) && a < b
    ensures s.us(a) < s.us(b)
  {
    assert Earlier(a, b);
  }

  /** ticks_ms at instant n. */
  function Ms(s: Signal, n: nat): int {
    s.us(n) / 1000
  }

  /** The remaining microseconds before the clock passes the millisecond limit, or 0 once it has. */
  function Remaining(s: Signal, n: nat, limitMs: int): nat {
    if s.us(n) < limitMs * 1000 then limitMs * 1000 - s.us(n) else 0
  }

  /** Both busy-waits of _pulseInTimeout go in rounds of a pin read and then a ticks_ms read;
      round k of a wait that starts at instant t0 reads the pin at t0 + 2k ... */
  function PinInstant(t0: nat, k: nat): nat {
    t0 + 2 * k
  }

  /** ... and ticks_ms at t0 + 2k + 1. */
  function ClockInstant(t0: nat, k: nat): nat {
    t0 + 2 * k + 1
  }

  /** The first `waits` rounds of waiting, from instant t0, saw the pin away from `value`
      and the clock not yet past endTime, so the wait went on. */
  ghost predicate WaitedWithout(s: Signal, value: Level, endTime: int, t0: nat, waits: nat) {
    forall k :: 0 <= k < waits ==>
      s.level(PinInstant(t0, k)) != value && Ms(s, ClockInstant(t0, k)) <= endTime
  }

  /** The first `rounds` rounds of holding, from instant t0, saw the pin at `value`
      and the clock still before endTime, so the hold went on. */
  ghost predicate HeldFor(s: Signal, value: Level, endTime: int, t0: nat, rounds: nat) {
    forall k :: 0 <= k < rounds ==>
      s.level(PinInstant(t0, k)) == value && Ms(s, ClockInstant(t0, k)) < endTime
  }

  /** How the hold that starts at instant t0 ends after `rounds` full rounds, its last read being
      the one at instant t - 1: the next pin read shows another level, or it still shows `value`
      and the next ticks_ms read has reached endTime. */
  ghost predicate HoldEnds(s: Signal, value: Level, endTime: int, t0: nat, rounds: nat, t: nat) {
    (t == PinInstant(t0, rounds) + 1 && s.level(PinInstant(t0, rounds)) != value) ||
    (t == ClockInstant(t0, rounds) + 1 && s.level(PinInstant(t0, rounds)) == value &&
     endTime <= Ms(s, ClockInstant(t0, rounds)))
  }

  /**
   * The busy-wait `while pin.value() == value and ticks_ms() < endTime` of _pulseInTimeout,
   * started at instant t0: it stops at the first pin read that shows another level or the
   * first ticks_ms read that reaches endTime, after `rounds` rounds that did neither.
   */
  method HoldWhileAtLevel(s: Signal, value: Level, endTime: int, t0: nat) returns (t: nat, ghost rounds: nat)
    requires ClockAdvances(s)
    ensures t0 < t
    ensures s.level(t - 1) != value || endTime <= Ms(s, t - 1)
    ensures HeldFor(s, value, endTime, t0, rounds)
    ensures HoldEnds(s, value, endTime, t0, rounds, t)
  {
    t, rounds := t0, 0;
    while true
      invariant t == t0 + 2 * rounds
      invariant HeldFor(s, value, endTime, t0, rounds)
      decreases Remaining(s, t, endTime)
    {
      var lv := s.level(t);
      t := t + 1;
      if lv != value {
        return;
      }
      var now := Ms(s, t);
      t := t + 1;
      if now >= endTime {
        return;
      }
      rounds := rounds + 1;
      ClockOrder(s, t - 2, t - 1);
      ClockOrder(s, t - 2, t);
    }
  }

  /** Which way a call of _pulseInTimeout went: whether it timed out, how many rounds it
      waited for the level, and how many rounds it then held it. */
  datatype PulseRun = PulseRun(timedOut: bool, waits: nat, rounds: nat)

  /** The instant a call starting at t0 reads its start stamp, when it does not time out. */
  function StartInstant(t0: nat, run: PulseRun): nat {
    t0 + 2 * run.waits + 1
  }

  /**
   * A call of _pulseInTimeout from instant t0 that went as `run` reads the signal at instants
   * t0 .. t - 1 and returns d. It waits run.waits rounds without seeing `value`. Then either the
   * next pin read is still away from `value` and the next ticks_ms read is past endTime, and d is
   * 0; or the next pin read shows `value`, the start stamp is read, the level is held for
   * run.rounds rounds until the hold ends, and d is the final ticks_us read minus the stamp.
   */
  ghost predicate PulseOutcome(s: Signal, value: Level, endTime: int, t0: nat, t: nat, d: int, run: PulseRun) {
    WaitedWithout(s, value, endTime, t0, run.waits) &&
    if run.timedOut then
      s.level(PinInstant(t0, run.waits)) != value && endTime < Ms(s, ClockInstant(t0, run.waits)) &&
      t == ClockInstant(t0, run.waits) + 1 && d == 0
    else
      s.level(PinInstant(t0, run.waits)) == value &&
      HeldFor(s, value, endTime, StartInstant(t0, run) + 1, run.rounds) &&
      StartInstant(t0, run) + 1 < t &&
      HoldEnds(s, value, endTime, StartInstant(t0, run) + 1, run.rounds, t - 1) &&
      d == s.us(t - 1) - s.us(StartInstant(t0, run))
  }

  /**
   * _pulseInTimeout: wait for the pin to reach `value` (giving up with 0 once ticks_ms exceeds endTime),
   * then return the microseconds it stays there, cut short when ticks_ms reaches endTime.
   */
  method PulseInTimeout(s: Signal, value: Level, endTime: int, t0: nat)
    returns (d: int, t: nat, ghost run: PulseRun)
    requires ClockAdvances(s)
    ensures t0 < t
    ensures PulseOutcome(s, value, endTime, t0, t, d, run)
    ensures 0 <= d <= s.us(t - 1) - s.us(t0)
    ensures (forall n :: t0 <= n < t ==> s.level(n) != value) ==> run.timedOut && d == 0
  {
    t := t0;
    ghost var waits := 0;
    // Wait till the pin has the wanted value.
    var lv := s.level(t);
    t := t + 1;
    while lv != value
      invariant t == t0 + 2 * waits + 1
      invariant lv == s.level(t - 1)
      invariant WaitedWithout(s, value, endTime, t0, waits)
      decreases Remaining(s, t, endTime + 1)
    {
      var now := Ms(s, t);
      t := t + 1;
      if now > endTime {
        if t0 < t - 1 { ClockOrder(s, t0, t - 1); }
        return 0, t, PulseRun(true, waits, 0);
      }
      lv := s.level(t);
      t := t + 1;
      waits := waits + 1;
      ClockOrder(s, t - 2, t);
    }
    // Time how long it keeps the value, stopping at the end of the window.
    var start := s.us(t);
    ghost var tStart := t;
    t := t + 1;
    ghost var rounds;
    t, rounds := HoldWhileAtLevel(s, value, endTime, t);
    var now := s.us(t);
    t := t + 1;
    ClockOrder(s, tStart, t - 1);
    if t0 < tStart { ClockOrder(s, t0, tStart); }
    d := now - start;
    run := PulseRun(false, waits, rounds);
  }

  /** partials[i] is the accumulator after adding the non-negative duration durations[i]
      to the accumulator before it, which starts at 0. */
  ghost predicate RunningSums(durations: seq<int>, partials: seq<int>) {
    |partials| == |durations| &&
    (forall i :: 0 <= i < |durations| ==> 0 <= durations[i]) &&
    (partials != [] ==> partials[0] == durations[0]) &&
    (forall i :: 0 < i < |partials| ==> partials[i] == partials[i - 1] + durations[i])
  }

  lemma RunningSumsAppend(durations: seq<int>, partials: seq<int>, d: int)
    requires RunningSums(durations, partials) && 0 <= d
    ensures RunningSums(durations + [d], partials + [(if partials == [] then 0 else partials[|partials| - 1]) + d])
  {
    var ds := durations + [d];
    var ps := partials + [(if partials == [] then 0 else partials[|partials| - 1]) + d];
    forall i | 0 < i < |ps| ensures ps[i] == ps[i - 1] + ds[i] {
      if i < |partials| {
        assert ps[i] == partials[i] && ps[i - 1] == partials[i - 1] && ds[i] == durations[i];
      }
    }
  }

  /** An accumulator that only ever adds non-negative durations never decreases. */
  lemma RunningSumsNondecreasing(durations: seq<int>, partials: seq<int>)
    requires RunningSums(durations, partials)
    ensures forall i :: 0 < i < |partials| ==> partials[i - 1] <= partials[i]
  {
  }

  /**
   * The i-th pulse measurement of a read whose last loop test is the ticks_ms read at instant
   * t - 1: the call of _pulseInTimeout starts at instant calls[i], right after a loop test that
   * found ticks_ms before endTime (the first one right after the first loop test, at t0 + 1);
   * it went as runs[i], returned durations[i], and ends where the next loop test is read.
   */
  ghost predicate CallMeasured(s: Signal, endTime: int, t0: nat, t: nat,
                               calls: seq<nat>, runs: seq<PulseRun>, durations: seq<int>, i: nat)
    requires i < |calls| == |runs| == |durations|
  {
    var tNext := if i + 1 < |calls| then calls[i + 1] else t;
    1 <= calls[i] && Ms(s, calls[i] - 1) < endTime && (i == 0 ==> calls[i] == t0 + 2) &&
    1 <= tNext && PulseOutcome(s, 0, endTime, calls[i], tNext - 1, durations[i], runs[i])
  }

  /** Every pulse measurement of the read is as CallMeasured says. */
  ghost predicate Measured(s: Signal, endTime: int, t0: nat, t: nat,
                           calls: seq<nat>, runs: seq<PulseRun>, durations: seq<int>) {
    |calls| == |runs| == |durations| &&
    forall i :: 0 <= i < |calls| ==> CallMeasured(s, endTime, t0, t, calls, runs, durations, i)
  }

  /** One more call, started at tCall right after a loop test before endTime and ending at tRet,
      extends the measurements; the next loop test reads ticks_ms at tRet. */
  lemma MeasuredAppend(s: Signal, endTime: int, t0: nat, calls: seq<nat>, runs: seq<PulseRun>,
                       durations: seq<int>, tCall: nat, tRet: nat, d: int, run: PulseRun)
    requires Measured(s, endTime, t0, tCall, calls, runs, durations)
    requires calls == [] ==> tCall == t0 + 2
    requires 1 <= tCall && Ms(s, tCall - 1) < endTime
    requires PulseOutcome(s, 0, endTime, tCall, tRet, d, run)
    ensures Measured(s, endTime, t0, tRet + 1, calls + [tCall], runs + [run], durations + [d])
  {
    var cs, rs, ds, tEnd := calls + [tCall], runs + [run], durations + [d], tRet + 1;
    forall i | 0 <= i < |cs| ensures CallMeasured(s, endTime, t0, tEnd, cs, rs, ds, i) {
      if i < |calls| {
        CallMeasuredFrame(s, endTime, t0, tCall, calls, runs, durations, tEnd, cs, rs, ds, i);
      }
    }
  }

  /** A measurement depends only on its own entries and on where the next loop test is read. */
  lemma CallMeasuredFrame(s: Signal, endTime: int, t0: nat, t: nat,
                          calls: seq<nat>, runs: seq<PulseRun>, durations: seq<int>,
                          t': nat, calls': seq<nat>, runs': seq<PulseRun>, durations': seq<int>, i: nat)
    requires i < |calls| == |runs| == |durations| && i < |calls'| == |runs'| == |durations'|
    requires CallMeasured(s, endTime, t0, t, calls, runs, durations, i)
    requires calls'[i] == calls[i] && runs'[i] == runs[i] && durations'[i] == durations[i]
    requires (if i + 1 < |calls'| then calls'[i + 1] else t') == (if i + 1 < |calls| then calls[i + 1] else t)
    ensures CallMeasured(s, endTime, t0, t', calls', runs', durations', i)
  {
  }

  /**
   * One turn of read's loop after a loop test at tCall - 1 found ticks_ms before endTime:
   * call _pulseInTimeout for the low level from tCall. The measurements gain that call, which
   * ends where the next loop test is read, at t.
   */
  method MeasureNext(s: Signal, endTime: int, t0: nat, tCall: nat,
                     ghost calls: seq<nat>, ghost runs: seq<PulseRun>, ghost durations: seq<int>)
    returns (d: int, t: nat, ghost run: PulseRun)
    requires ClockAdvances(s)
    requires Measured(s, endTime, t0, tCall, calls, runs, durations)
    requires calls == [] ==> tCall == t0 + 2
    requires 1 <= tCall && Ms(s, tCall - 1) < endTime
    ensures tCall < t
    ensures 0 <= d <= s.us(t - 1) - s.us(tCall)
    ensures (forall n :: tCall <= n < t ==> s.level(n) != 0) ==> d == 0
    ensures Measured(s, endTime, t0, t + 1, calls + [tCall], runs + [run], durations + [d])
  {
    d, t, run := PulseInTimeout(s, 0, endTime, tCall);
    MeasuredAppend(s, endTime, t0, calls, runs, durations, tCall, t, d, run);
  }

  class DustSensor {
    /** Length of one sampling window in milliseconds. */
    const sampleTimeMs: int

    constructor (sampleTimeMs: int := 30000)
      ensures this.sampleTimeMs == sampleTimeMs
    {
      this.sampleTimeMs := sampleTimeMs;
    }

    /**
     * The integer part of read: add up the low-pulse durations seen until ticks_ms reaches
     * the end of the window. `durations` lists what each pulse measurement returned, `partials`
     * the accumulator after adding it, and `calls` and `runs` where each measurement started
     * and which way it went.
     */
    method Read(s: Signal, t0: nat)
      returns (occupancy: int, t: nat, ghost durations: seq<int>, ghost partials: seq<int>,
               ghost calls: seq<nat>, ghost runs: seq<PulseRun>)
      requires ClockAdvances(s)
      ensures t0 < t
      ensures 0 <= occupancy <= s.us(t - 1) - s.us(t0)
      ensures Ms(s, t0) + sampleTimeMs <= Ms(s, t - 1)
      ensures (forall n :: t0 <= n < t ==> s.level(n) != 0) ==> occupancy == 0
      ensures partials == [] <==> Ms(s, t0) + sampleTimeMs <= Ms(s, t0 + 1)
      ensures Measured(s, Ms(s, t0) + sampleTimeMs, t0, t, calls, runs, durations)
      ensures RunningSums(durations, partials)
      ensures forall i :: 0 < i < |partials| ==> partials[i - 1] <= partials[i]
      ensures occupancy == if partials == [] then 0 else partials[|partials| - 1]
    {
      var startMs := Ms(s, t0);
      t := t0 + 1;
      var endTime := startMs + sampleTimeMs;
      occupancy, durations, partials := 0, [], [];
      calls, runs := [], [];
      var now := Ms(s, t);
      t := t + 1;
      ClockOrder(s, t0, t0 + 1);
      while now < endTime
        invariant t0 < t
        invariant now == Ms(s, t - 1)
        invariant 0 <= occupancy <= s.us(t - 1) - s.us(t0)
        invariant (forall n :: t0 <= n < t ==> s.level(n) != 0) ==> occupancy == 0
        invariant partials == [] <==> t == t0 + 2
        invariant partials != [] ==> Ms(s, t0 + 1) < endTime
        invariant Measured(s, endTime, t0, t, calls, runs, durations)
        invariant RunningSums(durations, partials)
        invariant occupancy == if partials == [] then 0 else partials[|partials| - 1]
        decreases Remaining(s, t - 1, endTime)
      {
        var duration;
        ghost var tCall, run := t, PulseRun(false, 0, 0);
        duration, t, run := MeasureNext(s, endTime, t0, t, calls, runs, durations);
        ClockOrder(s, tCall - 1, tCall);
        ClockOrder(s, t - 1, t);
        ClockOrder(s, tCall - 1, t);
        RunningSumsAppend(durations, partials, duration);
        calls, runs := calls + [tCall], runs + [run];
        occupancy := occupancy + duration;
        durations, partials := durations + [duration], partials + [occupancy];
        now := Ms(s, t);
        t := t + 1;
      }
      RunningSumsNondecreasing(durations, partials);
    }
  }
}
