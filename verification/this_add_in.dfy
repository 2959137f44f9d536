/**
  The add-in's registry of timers, one per open workbook, keyed by the
  workbook's full name, and the event handlers that drive it.

  Excel is replaced by values: a `Workbook` record carries the name, path,
  full name and the stored "ElapsedTime" document property; the startup
  path is a parameter; the clock is the tick count `now`. The idle prompt is
  modal and the stopwatch keeps running while it is open, so the user's reply
  is an `Answer` that says both what was chosen and how long the prompt stayed
  open; a handler that shows the prompt finishes at `doneAt`, when it closes.
 */
module ThisAddIn {
  import opened Wrappers
  import opened Timers
  import opened TimeFormat
  import opened AddInConfig

  type Registry = map<string, WorkbookTimers>

  datatype Workbook = Workbook(name: string, path: string, fullName: string, elapsedTimeProperty: Option<nat>)

  /** The reply to the idle prompt: Yes or No, given `delay` ticks after the prompt appeared. */
  datatype Answer = Answer(yes: bool, delay: nat)

  /** The open handler's effect: the new registry and the workbook with its stored property. */
  datatype Outcome = Outcome(timers: Registry, workbook: Workbook)

  /** A handler's effect on the registry and the time at which the handler returns. */
  datatype Handled = Handled(timers: Registry, doneAt: nat)

  /** The save handler's effect: the new registry, the workbook as stored, and when the handler returns. */
  datatype SaveOutcome = SaveOutcome(timers: Registry, workbook: Workbook, doneAt: nat)

  /** One timer after a change: its new state and the time at which the change handler returns. */
  datatype ChangeResult = ChangeResult(timer: WorkbookTimers, doneAt: nat)

  /** A tracked timer keeps its invariant and its stopwatch runs. */
  predicate Tracking(t: WorkbookTimers, now: nat) {
    Valid(t, now) && t.changeStopwatch.Running?
  }

  /** Every tracked timer is in good order at `now`. */
  predicate RegistryValid(timers: Registry, now: nat) {
    forall k :: k in timers ==> Tracking(timers[k], now)
  }

  /** The registry stays in good order as the clock moves forward. */
  lemma RegistryAdvances(timers: Registry, now: nat, later: nat)
    requires RegistryValid(timers, now) && now <= later
    ensures RegistryValid(timers, later)
  {
    forall k | k in timers {
      ValidAdvances(timers[k], now, later);
    }
  }

  /** The stored property of a tracked workbook equals its timer's total. */
  predicate InSync(timers: Registry, wb: Workbook) {
    wb.fullName in timers ==> wb.elapsedTimeProperty == Some(GetElapsedTime(timers[wb.fullName]))
  }

  /**
    A workbook the open handler ignores: blacklisted by name, or in the
    startup folder. A blacklisted name always matches a listed one ignoring
    case, and with a lower-cased blacklist, as loaded, every such name is ignored.
   */
  function Ignored(cfg: Config, startupPath: string, wb: Workbook): (b: bool)
    ensures b ==> wb.path == startupPath || exists x :: x in cfg.blacklist && SameIgnoringCase(x, wb.name)
    ensures LowerCased(cfg.blacklist) ==>
      (b <==> wb.path == startupPath || exists x :: x in cfg.blacklist && SameIgnoringCase(x, wb.name))
    ensures wb.path == startupPath ==> b
  {
    IsBlacklisted(cfg, wb.name) || wb.path == startupPath
  }

  /** The stored total, or zero when the workbook has none yet. */
  function StoredSeed(wb: Workbook): (seed: nat)
    ensures wb.elapsedTimeProperty.Some? ==> seed == wb.elapsedTimeProperty.value
    ensures wb.elapsedTimeProperty.None? ==> seed == 0
  {
    wb.elapsedTimeProperty.GetOr(0)
  }

  /** `Application_WorkbookOpenOrNew`: start timing a workbook unless it is ignored. */
  function WorkbookOpenOrNew(timers: Registry, cfg: Config, startupPath: string, wb: Workbook, now: nat): (r: Outcome)
    requires RegistryValid(timers, now)
    ensures RegistryValid(r.timers, now)
    ensures Ignored(cfg, startupPath, wb) ==> r == Outcome(timers, wb)
    ensures !Ignored(cfg, startupPath, wb) ==>
      && r.timers.Keys == timers.Keys + {wb.fullName}
      && r.timers[wb.fullName] == New(StoredSeed(wb), now)
      && r.workbook == wb.(elapsedTimeProperty := Some(StoredSeed(wb)))
      && InSync(r.timers, r.workbook)
    ensures forall k :: k in timers && k != wb.fullName ==> k in r.timers && r.timers[k] == timers[k]
  {
    if IsBlacklisted(cfg, wb.name) || wb.path == startupPath then
      Outcome(timers, wb)
    else
      var seed := wb.elapsedTimeProperty.GetOr(0);
      var wb' := if wb.elapsedTimeProperty.None? then wb.(elapsedTimeProperty := Some(0)) else wb;
      var timers' :=
        if wb.fullName !in timers then timers[wb.fullName := New(seed, now)]
        else (timers - {wb.fullName})[wb.fullName := New(seed, now)];
      Outcome(timers', wb')
  }

  /** Whether the gap since the last change counts as editing time: it is short, or the user says Yes. */
  predicate Counted(t: WorkbookTimers, idleTimeout: nat, now: nat, answer: Answer)
    requires Valid(t, now)
  {
    ElapsedSinceLastChange(t, now) <= idleTimeout || answer.yes
  }

  /**
    The body of `WorkbookChangeHandler` on one timer. Past the idle timeout
    the prompt is shown and the timer is updated when it closes, `answer.delay`
    ticks later: Yes counts the whole gap up to then, the prompt's own time
    included, No drops the gap and restarts the stopwatch at that moment.
   */
  function ChangeTimer(t: WorkbookTimers, idleTimeout: nat, now: nat, answer: Answer): (r: ChangeResult)
    requires Valid(t, now)
    ensures r.doneAt == if IdleTimeGreaterThan(t, now, idleTimeout) then now + answer.delay else now
    ensures Valid(t, r.doneAt)
    ensures Valid(r.timer, r.doneAt)
    ensures GetElapsedTime(r.timer) == GetElapsedTime(t)
    ensures ElapsedSinceLastChange(r.timer, r.doneAt) == 0
    ensures !IdleTimeGreaterThan(t, now, idleTimeout) ==> r.timer == SaveChangeTime(t, now)
    ensures IdleTimeGreaterThan(t, now, idleTimeout) && answer.yes ==> r.timer == SaveChangeTime(t, r.doneAt)
    ensures IdleTimeGreaterThan(t, now, idleTimeout) && !answer.yes ==> r.timer == SaveLastChangeAndReset(t, r.doneAt)
    ensures Pending(r.timer) == Pending(t) + (if Counted(t, idleTimeout, now, answer) then ElapsedSinceLastChange(t, r.doneAt) else 0)
    ensures t.changeStopwatch.Running? ==>
      && r.timer.changeStopwatch.Running?
      && ElapsedSinceLastChange(t, r.doneAt) == ElapsedSinceLastChange(t, now) + (r.doneAt - now)
    ensures Ceiling(r.timer, r.doneAt) <= Ceiling(t, now) + (r.doneAt - now)
  {
    if IdleTimeGreaterThan(t, now, idleTimeout) then
      var doneAt := now + answer.delay;
      ValidAdvances(t, now, doneAt);
      if answer.yes then ChangeResult(SaveChangeTime(t, doneAt), doneAt)
      else ChangeResult(SaveLastChangeAndReset(t, doneAt), doneAt)
    else
      ChangeResult(SaveChangeTime(t, now), now)
  }

  /** `WorkbookChangeHandler`: update the changed workbook's timer, if it is tracked. */
  function WorkbookChangeHandler(timers: Registry, cfg: Config, fullName: string, now: nat, answer: Answer): (r: Handled)
    requires RegistryValid(timers, now)
    ensures r.doneAt >= now
    ensures RegistryValid(r.timers, r.doneAt)
    ensures r.timers.Keys == timers.Keys
    ensures fullName !in timers ==> r == Handled(timers, now)
    ensures fullName in timers ==>
      ChangeResult(r.timers[fullName], r.doneAt) == ChangeTimer(timers[fullName], cfg.idleTimeout, now, answer)
    ensures forall k :: k in timers && k != fullName ==> r.timers[k] == timers[k]
    ensures forall k :: k in timers ==> GetElapsedTime(r.timers[k]) == GetElapsedTime(timers[k])
  {
    if fullName !in timers then Handled(timers, now)
    else
      var c := ChangeTimer(timers[fullName], cfg.idleTimeout, now, answer);
      RegistryAdvances(timers, now, c.doneAt);
      Handled(timers[fullName := c.timer], c.doneAt)
  }

  /**
    `WorkbookSaveHandler`: bring the timer up to date as a change would,
    then, once any prompt has closed, fold the session into the total and
    store it.
   */
  function WorkbookSaveHandler(timers: Registry, cfg: Config, wb: Workbook, now: nat, answer: Answer): (r: SaveOutcome)
    requires RegistryValid(timers, now)
    ensures r.doneAt >= now
    ensures RegistryValid(r.timers, r.doneAt)
    ensures r.timers.Keys == timers.Keys
    ensures wb.fullName !in timers ==> r == SaveOutcome(timers, wb, now)
    ensures wb.fullName in timers ==>
      var t := timers[wb.fullName];
      var c := ChangeTimer(t, cfg.idleTimeout, now, answer);
      var total := GetElapsedTime(r.timers[wb.fullName]);
      && r.doneAt == c.doneAt
      && r.workbook == wb.(elapsedTimeProperty := Some(total))
      && total == GetElapsedTime(t) + Pending(c.timer)
      && total >= GetElapsedTime(t)
      && total <= Ceiling(t, now) + (r.doneAt - now)
      && Pending(r.timers[wb.fullName]) == 0
      && ElapsedSinceLastChange(r.timers[wb.fullName], r.doneAt) == 0
    ensures InSync(r.timers, r.workbook)
    ensures forall k :: k in timers && k != wb.fullName ==> k in r.timers && r.timers[k] == timers[k]
  {
    if wb.fullName !in timers then SaveOutcome(timers, wb, now)
    else
      var changed := WorkbookChangeHandler(timers, cfg, wb.fullName, now, answer);
      var saved := SaveSession(changed.timers[wb.fullName], changed.doneAt);
      SaveOutcome(changed.timers[wb.fullName := saved.timer], wb.(elapsedTimeProperty := Some(saved.total)), changed.doneAt)
  }

  /** `BeforeCloseHandler`: stop and forget the closing workbook's timer, if it is tracked. */
  function BeforeCloseHandler(timers: Registry, fullName: string): (r: Registry)
    ensures r.Keys == timers.Keys - {fullName}
    ensures forall k :: k in r ==> r[k] == timers[k]
    ensures fullName !in timers ==> r == timers
    ensures forall now :: RegistryValid(timers, now) ==> RegistryValid(r, now)
  {
    if fullName in timers then timers - {fullName} else timers
  }

  /** `GetElapsedTime` on the add-in: the stored total of a tracked workbook as `m:ss`; an untracked one has no entry. */
  function GetElapsedTimeDisplay(timers: Registry, fullName: string): (r: Option<string>)
    ensures r.None? <==> fullName !in timers
    ensures r.Some? ==>
      var total := GetElapsedTime(timers[fullName]);
      ParseDisplay(r.value) == Some(Display(TotalMinutes(total), SecondsComponent(total)))
    ensures r.Some? ==> (r.value[0] == '0' ==> r.value[1] == ':')
  {
    if fullName in timers then Some(Format(GetElapsedTime(timers[fullName]))) else None
  }
}
