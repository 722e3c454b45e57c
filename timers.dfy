/// The engine's `Timer`, as the game's systems use it: durations and elapsed
/// time are whole nanoseconds (a `Duration`), a one-shot timer stops at its
/// duration, a repeating timer wraps around and counts how often it finished.
module Timers {

  datatype TimerMode = Once | Repeating

  datatype Timer = Timer(duration: nat, elapsed: nat, mode: TimerMode, finished: bool, timesFinishedThisTick: nat)

  const NanosPerSecond: nat := 1_000_000_000
  const U32Max: nat := 0xFFFF_FFFF

  /// `Timer::new` / `Timer::from_seconds` with the duration already in nanoseconds.
  function NewTimer(duration: nat, mode: TimerMode): (t: Timer)
    ensures t.duration == duration && t.mode == mode
    ensures t.elapsed == 0 && !t.finished && !JustFinished(t)
  {
    Timer(duration, 0, mode, false, 0)
  }

  /// `Duration::as_secs_f32`, exact.
  function Seconds(d: nat): real { d as real / NanosPerSecond as real }

  /// `Timer::just_finished`.
  predicate JustFinished(t: Timer) { t.timesFinishedThisTick > 0 }

  /// `Timer::tick(delta)`: a finished one-shot timer does not move; otherwise
  /// elapsed grows by delta and the timer finishes when it reaches the duration,
  /// a one-shot timer then stopping at the duration and a repeating one keeping
  /// the remainder.
  function Tick(t: Timer, delta: nat): (r: Timer)
    ensures r.duration == t.duration && r.mode == t.mode
    ensures t.mode == Once && t.finished ==> r.finished && !JustFinished(r) && r.elapsed == t.elapsed
    ensures !(t.mode == Once && t.finished) ==> (r.finished <==> t.elapsed + delta >= t.duration)
    ensures JustFinished(r) ==> r.finished
  {
    if t.mode == Once && t.finished then
      t.(timesFinishedThisTick := 0)
    else
      var e := t.elapsed + delta;
      if e >= t.duration then
        if t.mode == Repeating then
          if t.duration == 0 then t.(elapsed := 0, finished := true, timesFinishedThisTick := U32Max)
          else t.(elapsed := e % t.duration, finished := true, timesFinishedThisTick := e / t.duration)
        else
          t.(elapsed := t.duration, finished := true, timesFinishedThisTick := 1)
      else
        t.(elapsed := e, finished := false, timesFinishedThisTick := 0)
  }

  /// The time covered by a run of frames.
  function Total(deltas: seq<nat>): nat {
    if deltas == [] then 0 else Total(deltas[..|deltas| - 1]) + deltas[|deltas| - 1]
  }

  /// `Timer::reset`.
  function Reset(t: Timer): (r: Timer)
    ensures r.duration == t.duration && r.mode == t.mode
    ensures r.elapsed == 0 && !r.finished && !JustFinished(r)
  {
    t.(elapsed := 0, finished := false, timesFinishedThisTick := 0)
  }

  /// A timer in a state ticking can produce: not past its duration, and a
  /// repeating one strictly before it.
  ghost predicate Valid(t: Timer) {
    && t.elapsed <= t.duration
    && (t.mode == Repeating && t.duration > 0 ==> t.elapsed < t.duration)
    && (t.mode == Once ==> (t.finished <==> t.elapsed == t.duration))
  }

  lemma NewTimerValid(d: nat, mode: TimerMode)
    requires d > 0
    ensures Valid(NewTimer(d, mode))
  {
  }

  /// Ticking keeps a timer valid.
  lemma TickValid(t: Timer, delta: nat)
    requires Valid(t)
    ensures Valid(Tick(t, delta))
  {
  }

  /// A repeating timer just finishes exactly in the tick that carries it past
  /// its duration, and keeps the part of the tick beyond it.
  lemma RepeatingJustFinished(t: Timer, delta: nat)
    requires t.mode == Repeating && t.duration > 0
    ensures JustFinished(Tick(t, delta)) <==> t.elapsed + delta >= t.duration
    ensures Tick(t, delta).elapsed == (t.elapsed + delta) % t.duration
  {
    var e := t.elapsed + delta;
    if e >= t.duration {
      assert e / t.duration >= 1;
    } else {
      assert e % t.duration == e;
    }
  }

  /// A one-shot timer just finishes exactly once: in the tick that carries it
  /// to its duration, never afterwards.
  lemma OnceJustFinished(t: Timer, delta: nat)
    requires t.mode == Once
    ensures JustFinished(Tick(t, delta)) <==> !t.finished && t.elapsed + delta >= t.duration
  {
  }
}
