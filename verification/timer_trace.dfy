/**
  Runs of one workbook timer: a sequence of timestamped operations, replayed in
  order against a clock that never goes backwards. Used to state what holds
  across many calls: saved totals never decrease, the total changes only on
  save, and the counted time never exceeds the wall-clock time that passed.
 */
module TimerTraces {
  import opened Timers

  datatype TimerOp = SaveChangeTimeOp | SaveLastChangeAndResetOp | SaveSessionOp | CloseOp

  datatype TimedOp = TimedOp(op: TimerOp, at: nat)

  /** Every operation happens no earlier than `now` and no earlier than the one before it. */
  predicate Chronological(now: nat, ops: seq<TimedOp>) {
    && (forall i :: 0 <= i < |ops| ==> now <= ops[i].at)
    && (forall i, j :: 0 <= i < j < |ops| ==> ops[i].at <= ops[j].at)
  }

  /** The clock reading after the last operation. */
  function EndTime(now: nat, ops: seq<TimedOp>): nat {
    if |ops| == 0 then now else ops[|ops| - 1].at
  }

  /** How many of `ops` are saves. */
  function SaveCount(ops: seq<TimedOp>): nat {
    if |ops| == 0 then 0
    else (if ops[0].op == SaveSessionOp then 1 else 0) + SaveCount(ops[1..])
  }

  /** The timer after a run and the totals `SaveSession` returned, in order. */
  datatype Trace = Trace(timer: WorkbookTimers, saved: seq<nat>)

  /** One operation; a save also reports the total it returned. */
  function Step(t: WorkbookTimers, op: TimerOp, now: nat): (r: Trace)
    requires Valid(t, now)
    ensures Valid(r.timer, now)
    ensures Ceiling(r.timer, now) <= Ceiling(t, now)
    ensures op == SaveSessionOp <==> |r.saved| == 1
    ensures op != SaveSessionOp <==> |r.saved| == 0
    ensures |r.saved| == 1 ==> r.saved[0] == r.timer.elapsedTime >= t.elapsedTime
    ensures |r.saved| == 0 ==> r.timer.elapsedTime == t.elapsedTime
  {
    match op
    case SaveChangeTimeOp => Trace(SaveChangeTime(t, now), [])
    case SaveLastChangeAndResetOp => Trace(SaveLastChangeAndReset(t, now), [])
    case SaveSessionOp =>
      var s := SaveSession(t, now);
      Trace(s.timer, [s.total])
    case CloseOp => Trace(Close(t, now), [])
  }

  /** Replays `ops` in order, starting from `t` at time `now`. */
  function Replay(t: WorkbookTimers, now: nat, ops: seq<TimedOp>): (r: Trace)
    requires Valid(t, now) && Chronological(now, ops)
    ensures Valid(r.timer, EndTime(now, ops))
    ensures Ceiling(r.timer, EndTime(now, ops)) <= Ceiling(t, now) + (EndTime(now, ops) - now)
    ensures |r.saved| == SaveCount(ops)
    ensures forall i :: 0 <= i < |r.saved| ==> t.elapsedTime <= r.saved[i] <= Ceiling(t, now) + (EndTime(now, ops) - now)
    ensures forall i, j :: 0 <= i < j < |r.saved| ==> r.saved[i] <= r.saved[j]
    ensures r.timer.elapsedTime == if |r.saved| == 0 then t.elapsedTime else r.saved[|r.saved| - 1]
    decreases |ops|
  {
    if |ops| == 0 then Trace(t, [])
    else
      ValidAdvances(t, now, ops[0].at);
      var first := Step(t, ops[0].op, ops[0].at);
      var rest := Replay(first.timer, ops[0].at, ops[1..]);
      Trace(rest.timer, first.saved + rest.saved)
  }

  /** From a freshly opened timer, every saved total lies between the seed and the seed plus the wall-clock time that passed. */
  lemma FreshTimerNeverOvercounts(seed: nat, start: nat, ops: seq<TimedOp>)
    requires Chronological(start, ops)
    ensures forall i :: 0 <= i < |Replay(New(seed, start), start, ops).saved| ==>
      seed <= Replay(New(seed, start), start, ops).saved[i] <= seed + (EndTime(start, ops) - start)
  {
  }
}
