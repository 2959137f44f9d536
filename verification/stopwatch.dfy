/**
  A System.Diagnostics.Stopwatch read against an explicit clock.

  Time is a tick counter `now` that the caller supplies and that never goes
  backwards. A running stopwatch remembers the tick at which it was (re)started;
  a stopped one remembers the reading at which it stopped.
 */
module Stopwatches {

  datatype Stopwatch = Running(startedAt: nat) | Stopped(frozen: nat)

  /** The clock has not gone behind the stopwatch's start. */
  predicate ReadableAt(sw: Stopwatch, now: nat) {
    sw.Running? ==> sw.startedAt <= now
  }

  /**
    `Stopwatch.Elapsed` at time `now`: a running stopwatch has counted every
    tick since its start, a stopped one shows the reading it stopped at.
   */
  function Elapsed(sw: Stopwatch, now: nat): (e: nat)
    requires ReadableAt(sw, now)
    ensures sw.Running? ==> sw.startedAt + e == now
    ensures sw.Stopped? ==> e == sw.frozen
  {
    match sw
    case Running(s) => now - s
    case Stopped(f) => f
  }

  /** `new Stopwatch()` followed by `Start()`: reads zero now and then counts with the clock. */
  function StartNew(now: nat): (sw: Stopwatch)
    ensures sw.Running? && ReadableAt(sw, now) && Elapsed(sw, now) == 0
    ensures forall later :: now <= later ==> ReadableAt(sw, later) && Elapsed(sw, later) == later - now
  {
    Running(now)
  }

  /** `Restart()`: whatever the previous state, reads zero now and runs. */
  function Restart(sw: Stopwatch, now: nat): (r: Stopwatch)
    ensures r.Running? && ReadableAt(r, now) && Elapsed(r, now) == 0
    ensures forall later :: now <= later ==> ReadableAt(r, later) && Elapsed(r, later) == later - now
  {
    Running(now)
  }

  /** `Stop()`: the reading taken at `now` is kept for ever after. */
  function Stop(sw: Stopwatch, now: nat): (r: Stopwatch)
    requires ReadableAt(sw, now)
    ensures r.Stopped?
    ensures forall later :: ReadableAt(r, later) && Elapsed(r, later) == Elapsed(sw, now)
  {
    Stopped(Elapsed(sw, now))
  }

  /** A stopwatch's reading never decreases as the clock advances. */
  lemma ElapsedMonotone(sw: Stopwatch, now: nat, later: nat)
    requires ReadableAt(sw, now) && now <= later
    ensures ReadableAt(sw, later)
    ensures Elapsed(sw, now) <= Elapsed(sw, later)
    ensures Elapsed(sw, later) <= Elapsed(sw, now) + (later - now)
  {
  }
}
