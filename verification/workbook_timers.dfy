/**
  The per-workbook editing-time state machine (class `WorkbookTimers`).

  All durations are TimeSpan tick counts. The four pieces of state are the
  persisted total, the active time of the current save session, the stopwatch
  reading at the last confirmed change (the "mark"), and the stopwatch itself.
 */
module Timers {
  import opened Stopwatches

  datatype WorkbookTimers = WorkbookTimers(
    elapsedTime: nat,          // persisted total, changed only at construction and on save
    sessionElapsedTime: nat,   // active time folded in since the last save
    lastChangeTimeSpan: nat,   // stopwatch reading at the last confirmed change
    changeStopwatch: Stopwatch)

  /** The invariant every reachable timer keeps: the mark never runs ahead of the stopwatch. */
  predicate Valid(t: WorkbookTimers, now: nat) {
    && ReadableAt(t.changeStopwatch, now)
    && t.lastChangeTimeSpan <= Elapsed(t.changeStopwatch, now)
  }

  /** Active time recorded since the last save and not yet in the total. */
  function Pending(t: WorkbookTimers): nat {
    t.sessionElapsedTime + t.lastChangeTimeSpan
  }

  /** The most that could still be counted at `now` if every remaining second were confirmed. */
  function Ceiling(t: WorkbookTimers, now: nat): nat
    requires ReadableAt(t.changeStopwatch, now)
  {
    t.elapsedTime + t.sessionElapsedTime + Elapsed(t.changeStopwatch, now)
  }

  /** `TimeSpan.CompareTo`: the sign of `a - b`. */
  function CompareTo(a: int, b: int): (c: int)
    ensures c < 0 <==> a < b
    ensures c == 0 <==> a == b
  {
    if a < b then -1 else if a == b then 0 else 1
  }

  /** The constructor: seeded total, empty session, zero mark, a freshly started stopwatch. */
  function New(seed: nat, now: nat): (t: WorkbookTimers)
    ensures Valid(t, now)
    ensures GetElapsedTime(t) == seed
    ensures t.sessionElapsedTime == 0 && t.lastChangeTimeSpan == 0
    ensures t.changeStopwatch.Running? && Elapsed(t.changeStopwatch, now) == 0
    ensures Ceiling(t, now) == seed
  {
    WorkbookTimers(seed, 0, 0, StartNew(now))
  }

  /** The time since the last confirmed change (the idle gap). */
  function ElapsedSinceLastChange(t: WorkbookTimers, now: nat): (gap: nat)
    requires Valid(t, now)
    ensures gap <= Elapsed(t.changeStopwatch, now)
    ensures t.lastChangeTimeSpan + gap == Elapsed(t.changeStopwatch, now)
  {
    Elapsed(t.changeStopwatch, now) - t.lastChangeTimeSpan
  }

  /** Whether the idle gap is strictly longer than `idleTime`. */
  function IdleTimeGreaterThan(t: WorkbookTimers, now: nat, idleTime: nat): (idle: bool)
    requires Valid(t, now)
    ensures idle <==> ElapsedSinceLastChange(t, now) > idleTime
  {
    CompareTo(idleTime, Elapsed(t.changeStopwatch, now) - t.lastChangeTimeSpan) < 0
  }

  /** Confirms the current reading as the last change: the whole idle gap becomes active time. */
  function SaveChangeTime(t: WorkbookTimers, now: nat): (r: WorkbookTimers)
    requires Valid(t, now)
    ensures Valid(r, now)
    ensures r.elapsedTime == t.elapsedTime
    ensures r.sessionElapsedTime == t.sessionElapsedTime
    ensures r.changeStopwatch == t.changeStopwatch
    ensures Pending(r) == Pending(t) + ElapsedSinceLastChange(t, now)
    ensures ElapsedSinceLastChange(r, now) == 0
    ensures Ceiling(r, now) == Ceiling(t, now)
  {
    t.(lastChangeTimeSpan := Elapsed(t.changeStopwatch, now))
  }

  /** Keeps the time up to the last change, drops the idle gap, and starts timing afresh. */
  function SaveLastChangeAndReset(t: WorkbookTimers, now: nat): (r: WorkbookTimers)
    requires Valid(t, now)
    ensures Valid(r, now)
    ensures r.elapsedTime == t.elapsedTime
    ensures r.sessionElapsedTime == t.sessionElapsedTime + t.lastChangeTimeSpan
    ensures r.lastChangeTimeSpan == 0
    ensures r.changeStopwatch.Running? && Elapsed(r.changeStopwatch, now) == 0
    ensures Pending(r) == Pending(t)
    ensures ElapsedSinceLastChange(r, now) == 0
    ensures Ceiling(r, now) <= Ceiling(t, now)
  {
    WorkbookTimers(t.elapsedTime, t.sessionElapsedTime + t.lastChangeTimeSpan, 0, Restart(t.changeStopwatch, now))
  }

  /** The result of `SaveSession`: the reset timer and the value it returns for persisting. */
  datatype Saved = Saved(timer: WorkbookTimers, total: nat)

  /** Folds the session and the mark into the total, resets the rest and returns the new total. */
  function SaveSession(t: WorkbookTimers, now: nat): (r: Saved)
    ensures r.total == t.elapsedTime + Pending(t)
    ensures r.total >= t.elapsedTime
    ensures GetElapsedTime(r.timer) == r.total
    ensures Pending(r.timer) == 0
    ensures Valid(r.timer, now)
    ensures r.timer.changeStopwatch.Running? && Elapsed(r.timer.changeStopwatch, now) == 0
    ensures Valid(t, now) ==> Ceiling(r.timer, now) <= Ceiling(t, now)
  {
    var total := t.elapsedTime + (t.sessionElapsedTime + t.lastChangeTimeSpan);
    Saved(WorkbookTimers(total, 0, 0, Restart(t.changeStopwatch, now)), total)
  }

  /** Stops the stopwatch; nothing else changes and the reading stays frozen. */
  function Close(t: WorkbookTimers, now: nat): (r: WorkbookTimers)
    requires Valid(t, now)
    ensures r.elapsedTime == t.elapsedTime && Pending(r) == Pending(t)
    ensures forall later :: Valid(r, later) && Elapsed(r.changeStopwatch, later) == Elapsed(t.changeStopwatch, now)
    ensures forall later :: ElapsedSinceLastChange(r, later) == ElapsedSinceLastChange(t, now)
  {
    t.(changeStopwatch := Stop(t.changeStopwatch, now))
  }

  /** The persisted total. */
  function GetElapsedTime(t: WorkbookTimers): nat {
    t.elapsedTime
  }

  /** The invariant survives the clock moving forward, and the ceiling grows at most with the clock. */
  lemma ValidAdvances(t: WorkbookTimers, now: nat, later: nat)
    requires Valid(t, now) && now <= later
    ensures Valid(t, later)
    ensures Ceiling(t, later) <= Ceiling(t, now) + (later - now)
  {
    ElapsedMonotone(t.changeStopwatch, now, later);
  }
}
