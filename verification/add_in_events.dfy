/**
  Properties of the add-in's handlers across several events: the idle-gap
  decision end to end, the blacklist gate, reopening after close, and runs of
  host events in which workbooks no event names are never touched.
 */
module AddInEvents {
  import opened Wrappers
  import opened Stopwatches
  import opened Timers
  import opened TimeFormat
  import opened AddInConfig
  import opened ThisAddIn

  /** The user is asked only about an idle gap: otherwise the answer makes no difference. */
  lemma AnswerIgnoredWhenActive(t: WorkbookTimers, idleTimeout: nat, now: nat, a1: Answer, a2: Answer)
    requires Valid(t, now)
    requires ElapsedSinceLastChange(t, now) <= idleTimeout
    ensures ChangeTimer(t, idleTimeout, now, a1) == ChangeTimer(t, idleTimeout, now, a2)
    ensures ChangeTimer(t, idleTimeout, now, a1).doneAt == now
  {
  }

  /**
    Declining the idle gap restarts timing when the prompt closes, not when
    the change was made: from then on the gap counts from the close.
   */
  lemma DeclinedGapRestartsWhenPromptCloses(t: WorkbookTimers, idleTimeout: nat, now: nat, answer: Answer, later: nat)
    requires Valid(t, now)
    requires ElapsedSinceLastChange(t, now) > idleTimeout && !answer.yes
    requires now + answer.delay <= later
    ensures
      var r := ChangeTimer(t, idleTimeout, now, answer);
      && r.doneAt == now + answer.delay
      && Pending(r.timer) == Pending(t)
      && Valid(r.timer, later)
      && ElapsedSinceLastChange(r.timer, later) == later - r.doneAt
  {
    var r := ChangeTimer(t, idleTimeout, now, answer);
    assert r.timer.changeStopwatch == Running(r.doneAt);
  }

  /** A blacklisted or startup-folder workbook is never tracked by opening it. */
  lemma IgnoredWorkbookNeverTracked(timers: Registry, cfg: Config, startupPath: string, wb: Workbook, now: nat)
    requires RegistryValid(timers, now)
    requires IsBlacklisted(cfg, wb.name) || wb.path == startupPath
    requires wb.fullName !in timers
    ensures wb.fullName !in WorkbookOpenOrNew(timers, cfg, startupPath, wb, now).timers
  {
  }

  /** Closing and reopening gives a fresh timer that remembers nothing of the closed one but the stored total. */
  lemma CloseThenReopen(timers: Registry, cfg: Config, startupPath: string, wb: Workbook, now: nat)
    requires RegistryValid(timers, now)
    requires !Ignored(cfg, startupPath, wb)
    ensures
      var reopened := WorkbookOpenOrNew(BeforeCloseHandler(timers, wb.fullName), cfg, startupPath, wb, now);
      && reopened.timers[wb.fullName] == New(StoredSeed(wb), now)
      && reopened.timers.Keys == timers.Keys + {wb.fullName}
  {
  }

  /** A running stopwatch's idle gap grows exactly with the clock. */
  lemma GapGrowsWithClock(t: WorkbookTimers, now: nat, later: nat)
    requires Valid(t, now) && now <= later && t.changeStopwatch.Running?
    ensures Valid(t, later)
    ensures ElapsedSinceLastChange(t, later) == ElapsedSinceLastChange(t, now) + (later - now)
  {
    ValidAdvances(t, now, later);
  }

  /**
    Open a workbook at `start`, change it at once, then save it `gap` ticks
    later. Within the timeout the stored total grows by `gap`. Past it the
    prompt appears: Yes adds the gap and the time the prompt stayed open, No
    adds nothing.
   */
  lemma IdleGapCountedOnlyIfConfirmed(cfg: Config, startupPath: string, wb: Workbook, start: nat, gap: nat, a0: Answer, answer: Answer)
    requires !Ignored(cfg, startupPath, wb)
    ensures
      var afterOpen := WorkbookOpenOrNew(map[], cfg, startupPath, wb, start);
      var changed := WorkbookChangeHandler(afterOpen.timers, cfg, wb.fullName, start, a0);
      && changed.doneAt == start
      && var saved := WorkbookSaveHandler(changed.timers, cfg, afterOpen.workbook, start + gap, answer);
      && saved.workbook.elapsedTimeProperty ==
        Some(if gap <= cfg.idleTimeout then StoredSeed(wb) + gap
             else if answer.yes then StoredSeed(wb) + gap + answer.delay
             else StoredSeed(wb))
      && saved.doneAt == if gap <= cfg.idleTimeout then start + gap else start + gap + answer.delay
  {
    var k := wb.fullName;
    var afterOpen := WorkbookOpenOrNew(map[], cfg, startupPath, wb, start);
    var t0 := afterOpen.timers[k];
    assert ElapsedSinceLastChange(t0, start) == 0;
    var changed := WorkbookChangeHandler(afterOpen.timers, cfg, k, start, a0);
    var t1 := changed.timers[k];
    assert ChangeResult(t1, changed.doneAt) == ChangeTimer(t0, cfg.idleTimeout, start, a0);
    assert t1 == SaveChangeTime(t0, start) && changed.doneAt == start;
    assert Pending(t1) == 0 && t1.changeStopwatch.Running?;
    GapGrowsWithClock(t1, start, start + gap);
    RegistryAdvances(changed.timers, start, start + gap);
    assert afterOpen.workbook.fullName == k;
  }

  /**
    With the default 120-second timeout, a 300-second gap counts only if the
    user says Yes, and then together with the time the prompt stayed open.
   */
  lemma FiveMinuteGapWithDefaultTimeout(startupPath: string, wb: Workbook, start: nat, a0: Answer, answer: Answer)
    requires wb.path != startupPath
    ensures
      var gap := 300 * TicksPerSecond;
      var afterOpen := WorkbookOpenOrNew(map[], DefaultConfig, startupPath, wb, start);
      var changed := WorkbookChangeHandler(afterOpen.timers, DefaultConfig, wb.fullName, start, a0);
      var saved := WorkbookSaveHandler(changed.timers, DefaultConfig, afterOpen.workbook, start + gap, answer);
      saved.workbook.elapsedTimeProperty ==
        Some(if answer.yes then StoredSeed(wb) + gap + answer.delay else StoredSeed(wb))
  {
    IdleGapCountedOnlyIfConfirmed(DefaultConfig, startupPath, wb, start, 300 * TicksPerSecond, a0, answer);
  }

  /** A host event, as the handlers receive it; a change or a save carries the reply the prompt would get. */
  datatype Event =
    | Opened(wb: Workbook)
    | Changed(fullName: string, answer: Answer)
    | Saving(wb: Workbook, answer: Answer)
    | Closing(fullName: string)

  /** An event raised `wait` ticks after the previous handler returned. */
  datatype TimedEvent = TimedEvent(event: Event, wait: nat)

  /** The full name an event is about. */
  function Key(e: Event): string {
    match e
    case Opened(wb) => wb.fullName
    case Changed(k, _) => k
    case Saving(wb, _) => wb.fullName
    case Closing(k) => k
  }

  /** The time spent between events, prompts not included. */
  function TotalWait(evs: seq<TimedEvent>): nat {
    if |evs| == 0 then 0 else evs[0].wait + TotalWait(evs[1..])
  }

  /** Dispatches one event to its handler. */
  function Dispatch(timers: Registry, cfg: Config, startupPath: string, e: Event, now: nat): (r: Handled)
    requires RegistryValid(timers, now)
    ensures r.doneAt >= now
    ensures RegistryValid(r.timers, r.doneAt)
    ensures forall k :: k in timers && k != Key(e) ==> k in r.timers && r.timers[k] == timers[k]
    ensures forall k :: k in r.timers && k != Key(e) ==> k in timers
  {
    match e
    case Opened(wb) => Handled(WorkbookOpenOrNew(timers, cfg, startupPath, wb, now).timers, now)
    case Changed(k, answer) => WorkbookChangeHandler(timers, cfg, k, now, answer)
    case Saving(wb, answer) =>
      var s := WorkbookSaveHandler(timers, cfg, wb, now, answer);
      Handled(s.timers, s.doneAt)
    case Closing(k) => Handled(BeforeCloseHandler(timers, k), now)
  }

  /**
    Runs a sequence of events through the handlers in order, each one after
    the previous handler has returned.
   */
  function Run(timers: Registry, cfg: Config, startupPath: string, now: nat, evs: seq<TimedEvent>): (r: Handled)
    requires RegistryValid(timers, now)
    ensures r.doneAt >= now + TotalWait(evs)
    ensures RegistryValid(r.timers, r.doneAt)
    ensures forall k :: k in timers && (forall i :: 0 <= i < |evs| ==> Key(evs[i].event) != k) ==> k in r.timers && r.timers[k] == timers[k]
    ensures forall k :: k in r.timers ==> k in timers || exists i :: 0 <= i < |evs| && Key(evs[i].event) == k
    decreases |evs|
  {
    if |evs| == 0 then Handled(timers, now)
    else
      var at := now + evs[0].wait;
      RegistryAdvances(timers, now, at);
      var first := Dispatch(timers, cfg, startupPath, evs[0].event, at);
      var rest := Run(first.timers, cfg, startupPath, first.doneAt, evs[1..]);
      assert forall k :: k in rest.timers && k !in first.timers ==> exists i :: 0 <= i < |evs| && Key(evs[i].event) == k by {
        forall k | k in rest.timers && k !in first.timers
          ensures exists i :: 0 <= i < |evs| && Key(evs[i].event) == k
        {
          var j :| 0 <= j < |evs[1..]| && Key(evs[1..][j].event) == k;
          assert Key(evs[j + 1].event) == k;
        }
      }
      rest
  }
}
