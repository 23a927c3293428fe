/**
 * The dishwasher scheduler's coordinator: it keeps a plan for when to press the
 * dishwasher's start button (the next occurrence of the "cheapest hour" signal,
 * provided that hour lies in the allowed time-of-day window), checks on every
 * minute tick whether the planned minute has come and the appliance reports
 * itself ready, presses start, records the outcome and notifies its listeners.
 *
 * Every external signal the coordinator reads from Home Assistant's state
 * machine is a parameter: `None` for an entity that does not exist, otherwise
 * its state text. The clock reading, the outcome of the button press and
 * Python's `int(float(text))` conversion are parameters too.
 */
module Coordinator {
  import opened Wrappers
  import opened Clock
  import opened Text
  import opened Const

  /** A registered state listener, identified by value as Python's `list.remove` does. */
  type Listener = nat

  /**
   * The `last_result` text of the runtime state: "never", "not_ready",
   * "started" or "start_failed".
   */
  datatype LastResult = Never | NotReady | Started | StartFailed

  /** How the start-button press service call ended: it returned, or it raised. */
  datatype PressOutcome = PressOk | PressFail

  /**
   * The configuration the coordinator resolves from its entry: the ready
   * substring, the window bounds as whole hours, and `int(float(text))`
   * (`None` where Python raises `ValueError` or `TypeError`).
   */
  datatype Config = Config(
    readySubstring: string,
    windowStart: int,
    windowEnd: int,
    parseNumber: NumberParser)

  /** The value of the four fields of `RuntimeState`. */
  datatype Runtime = Runtime(
    armed: bool,
    plannedStart: Option<int>,
    lastAttempt: Option<int>,
    lastResult: LastResult)

  const InitialRuntime: Runtime := Runtime(false, None, None, Never)

  // ---------------------------------------------------------------------
  // Window test, signal readings

  /**
   * Whether `hour` lies in the allowed window: every hour when the bounds are
   * equal, `[start, end)` when `start < end`, and the span wrapping past
   * midnight otherwise. For distinct bounds on the 24-hour clock, that is
   * the set of hours reached walking forward from `start` before `end`.
   */
  function WithinWindow(hour: int, start: int, end: int): (r: bool)
    ensures start == end ==> r
    ensures 0 <= hour < 24 && 0 <= start < 24 && 0 <= end < 24 && start != end ==>
              (r <==> (hour - start) % 24 < (end - start) % 24)
  {
    if start == end then true
    else if start < end then start <= hour < end
    else hour >= start || hour < end
  }

  /**
   * The cheapest-hour signal as an hour of the day: nothing when the entity
   * is missing, its text is not a number, or the number is outside 0..23.
   */
  function CheapestHour(reading: Option<string>, parseNumber: NumberParser): (h: Option<int>)
    ensures h.Some? <==> reading.Some? && parseNumber(reading.value).Some?
                         && 0 <= parseNumber(reading.value).value <= 23
    ensures h.Some? ==> h == parseNumber(reading.value) && 0 <= h.value < 24
  {
    match reading
    case None => None
    case Some(text) =>
      match parseNumber(text)
      case None => None
      case Some(hour) => if 0 <= hour <= 23 then Some(hour) else None
  }

  /**
   * The plan `_recompute_planned_start` stores when the clock reads `now`:
   * none without a usable cheapest hour or when that hour is outside the
   * window; otherwise the next instant strictly after `now` at that hour,
   * on the hour, at most one day ahead.
   */
  function PlannedStartFor(reading: Option<string>, now: int, cfg: Config): (p: Option<int>)
    ensures p.None? <==> CheapestHour(reading, cfg.parseNumber).None?
                         || !WithinWindow(CheapestHour(reading, cfg.parseNumber).value, cfg.windowStart, cfg.windowEnd)
    ensures p.Some? ==> OnTheHour(p.value, CheapestHour(reading, cfg.parseNumber).value)
                        && now < p.value <= now + SecondsPerDay
  {
    match CheapestHour(reading, cfg.parseNumber)
    case None => None
    case Some(h) =>
      if WithinWindow(h, cfg.windowStart, cfg.windowEnd) then Some(NextOccurrence(now, h)) else None
  }

  /** The status texts that never count as ready, compared after lower-casing. */
  predicate IsUnusableStatus(lowered: string) {
    lowered == "unknown" || lowered == "unavailable" || lowered == ""
  }

  /**
   * Whether the status entity says the appliance is ready: it exists, its
   * stripped state is not empty, "unknown" or "unavailable" in any case, and
   * that state contains the ready substring, ignoring case.
   */
  function StatusIsReady(status: Option<string>, readySubstring: string): (ready: bool)
    ensures status.None? ==> !ready
  {
    match status
    case None => false
    case Some(text) =>
      var state := Strip(text);
      if IsUnusableStatus(Lower(state)) then false
      else Contains(Lower(state), Lower(readySubstring))
  }

  // ---------------------------------------------------------------------
  // The state transitions, on values

  /** `_recompute_planned_start`: only the plan changes. */
  function Recompute(r: Runtime, cfg: Config, now: int, cheapest: Option<string>): (r': Runtime)
    ensures r'.armed == r.armed && r'.lastAttempt == r.lastAttempt && r'.lastResult == r.lastResult
    ensures var h := CheapestHour(cheapest, cfg.parseNumber);
            r'.plannedStart == if h.Some? && WithinWindow(h.value, cfg.windowStart, cfg.windowEnd)
                               then Some(NextOccurrence(now, h.value)) else None
  {
    r.(plannedStart := PlannedStartFor(cheapest, now, cfg))
  }

  /** `set_armed(value)`: set the flag; arming also recomputes the plan. */
  function Arm(r: Runtime, cfg: Config, value: bool, now: int, cheapest: Option<string>): (r': Runtime)
    ensures r'.armed == value && r'.lastAttempt == r.lastAttempt && r'.lastResult == r.lastResult
    ensures value ==> r'.plannedStart == PlannedStartFor(cheapest, now, cfg)
    ensures !value ==> r'.plannedStart == r.plannedStart
  {
    var flagged := r.(armed := value);
    if value then Recompute(flagged, cfg, now, cheapest) else flagged
  }

  /** The state after the recompute a tick performs when armed without a plan. */
  function TickPlanned(r: Runtime, cfg: Config, now: int, cheapest: Option<string>): Runtime {
    if r.plannedStart.None? && r.armed then Recompute(r, cfg, now, cheapest) else r
  }

  /** Whether a tick at `now` is due: armed, with a plan in the same minute as `now`. */
  predicate TickDue(r: Runtime, cfg: Config, now: int, cheapest: Option<string>) {
    var r1 := TickPlanned(r, cfg, now, cheapest);
    r1.armed && r1.plannedStart.Some? && MinuteKey(now) == MinuteKey(r1.plannedStart.value)
  }

  /** Whether the tick presses the start button: it is due and the status reads ready. */
  predicate TickPresses(r: Runtime, cfg: Config, now: int, cheapest: Option<string>, ready: bool) {
    TickDue(r, cfg, now, cheapest) && ready
  }

  /**
   * The attempt a due tick makes at `now`: it records the time, then either
   * finds the appliance not ready, or presses the button, which on success
   * disarms the scheduler.
   */
  function Attempt(r: Runtime, now: int, ready: bool, press: PressOutcome): (r': Runtime)
    ensures r'.lastAttempt == Some(now) && r'.lastResult != Never && r'.plannedStart == r.plannedStart
    ensures !ready ==> r'.lastResult == NotReady && r'.armed == r.armed
    ensures ready && press == PressOk ==> r'.lastResult == Started && !r'.armed
    ensures ready && press == PressFail ==> r'.lastResult == StartFailed && r'.armed == r.armed
  {
    var tried := r.(lastAttempt := Some(now));
    if !ready then tried.(lastResult := NotReady)
    else match press
      case PressOk => tried.(lastResult := Started, armed := false)
      case PressFail => tried.(lastResult := StartFailed)
  }

  /**
   * `_handle_minute_tick(now)` on the runtime state, where `ready` is what
   * `_status_is_ready` reports and `press` how the button press would end.
   */
  function Tick(r: Runtime, cfg: Config, now: int, cheapest: Option<string>, ready: bool,
                press: PressOutcome): (r': Runtime)
    ensures r'.armed ==> r.armed
    ensures r.plannedStart.Some? ==> r'.plannedStart == r.plannedStart
    ensures r'.lastAttempt == r.lastAttempt || r'.lastAttempt == Some(now)
  {
    var r1 := TickPlanned(r, cfg, now, cheapest);
    if TickDue(r, cfg, now, cheapest) then Attempt(r1, now, ready, press) else r1
  }

  /**
   * What every state reachable under one configuration satisfies: a plan
   * lies on a whole hour inside that configuration's window, and an attempt
   * has been recorded exactly when a result has.
   */
  predicate Invariant(r: Runtime, cfg: Config) {
    (r.plannedStart.Some? ==>
       OnTheHour(r.plannedStart.value, HourOf(r.plannedStart.value))
       && WithinWindow(HourOf(r.plannedStart.value), cfg.windowStart, cfg.windowEnd))
    && (r.lastAttempt.None? <==> r.lastResult == Never)
  }

  // ---------------------------------------------------------------------
  // Listener lists

  /** Where the first occurrence of `x` in `s` is. */
  function FirstIndex(s: seq<Listener>, x: Listener): (i: nat)
    requires x in s
    ensures i < |s| && s[i] == x && x !in s[..i]
  {
    if s[0] == x then 0
    else
      var j := FirstIndex(s[1..], x);
      assert s[..j + 1] == [s[0]] + s[1..][..j];
      j + 1
  }

  /** Python's `if x in s: s.remove(x)`: drop the first occurrence of `x`, if any. */
  function RemoveFirst(s: seq<Listener>, x: Listener): (r: seq<Listener>)
    ensures x !in s ==> r == s
    ensures x in s ==> |r| == |s| - 1
  {
    if s == [] then []
    else if s[0] == x then s[1..]
    else [s[0]] + RemoveFirst(s[1..], x)
  }

  // ---------------------------------------------------------------------
  // The objects

  /** The scheduler's runtime data, updated field by field in place. */
  class RuntimeState {
    var armed: bool
    var plannedStart: Option<int>
    var lastAttempt: Option<int>
    var lastResult: LastResult

    constructor ()
      ensures Value() == InitialRuntime
    {
      armed := false;
      plannedStart := None;
      lastAttempt := None;
      lastResult := Never;
    }

    function Value(): Runtime
      reads this
    {
      Runtime(armed, plannedStart, lastAttempt, lastResult)
    }
  }

  class DishwasherSchedulerCoordinator {
    const config: Config
    const state: RuntimeState
    /** The registered listeners, in registration order. */
    var listeners: seq<Listener>
    /** Every listener call made so far, in the order made. */
    var delivered: seq<Listener>

    ghost predicate Valid()
      reads state
    {
      Invariant(state.Value(), config)
    }

    constructor (config: Config)
      ensures Valid() && fresh(state) && this.config == config
      ensures state.Value() == InitialRuntime && listeners == [] && delivered == []
    {
      this.config := config;
      state := new RuntimeState();
      listeners := [];
      delivered := [];
    }

    /** `set_armed(value)`, with the clock and the cheapest-hour signal it may read. */
    method SetArmed(value: bool, now: int, cheapest: Option<string>)
      requires Valid()
      modifies this`delivered, state
      ensures Valid()
      ensures state.Value() == Arm(old(state.Value()), config, value, now, cheapest)
      ensures listeners == old(listeners) && delivered == old(delivered) + listeners
    {
      ArmPreservesInvariant(state.Value(), config, value, now, cheapest);
      state.armed := value;
      if value {
        RecomputePlannedStart(now, cheapest);
      }
      NotifyListeners();
    }

    /** `async_add_listener`: register a listener at the end of the list. */
    method AddListener(listener: Listener)
      modifies this`listeners
      ensures listeners == old(listeners) + [listener]
    {
      listeners := listeners + [listener];
    }

    /** The unsubscribe callback `async_add_listener` returns, when called. */
    method RemoveListener(listener: Listener)
      modifies this`listeners
      ensures listeners == RemoveFirst(old(listeners), listener)
    {
      if listener in listeners {
        listeners := RemoveFirst(listeners, listener);
      }
    }

    /** `_notify_listeners`: call every listener of a snapshot of the list, in order. */
    method NotifyListeners()
      modifies this`delivered
      ensures delivered == old(delivered) + listeners
    {
      var snapshot := listeners;
      for i := 0 to |snapshot|
        invariant delivered == old(delivered) + snapshot[..i]
      {
        delivered := delivered + [snapshot[i]];
      }
    }

    /** `_recompute_planned_start`, with the clock reading `now` and the cheapest-hour signal. */
    method RecomputePlannedStart(now: int, cheapest: Option<string>)
      modifies state
      ensures state.Value() == Recompute(old(state.Value()), config, now, cheapest)
    {
      var hour := CheapestHour(cheapest, config.parseNumber);
      if hour.None? {
        state.plannedStart := None;
        return;
      }
      var candidate := SameDayAt(now, hour.value);
      if candidate <= now {
        candidate := candidate + SecondsPerDay;
      }
      if !WithinWindow(hour.value, config.windowStart, config.windowEnd) {
        state.plannedStart := None;
        return;
      }
      state.plannedStart := Some(candidate);
    }

    /**
     * `_handle_minute_tick(now)`, with the signals it may read and the outcome
     * the start-button press would have; `pressed` tells whether it pressed.
     */
    method HandleMinuteTick(now: int, cheapest: Option<string>, status: Option<string>, press: PressOutcome)
      returns (pressed: bool)
      requires Valid()
      modifies this`delivered, state
      ensures Valid()
      ensures state.Value() == Tick(old(state.Value()), config, now, cheapest,
                                    StatusIsReady(status, config.readySubstring), press)
      ensures pressed == TickPresses(old(state.Value()), config, now, cheapest,
                                     StatusIsReady(status, config.readySubstring))
      ensures listeners == old(listeners) && delivered == old(delivered) + listeners
    {
      ghost var r0 := state.Value();
      var ready := StatusIsReady(status, config.readySubstring);
      if state.plannedStart.None? && state.armed {
        RecomputePlannedStart(now, cheapest);
      }
      var planned := state.plannedStart;
      if state.armed && planned.Some? && MinuteKey(now) == MinuteKey(planned.value) {
        pressed := RecordAttempt(now, ready, press);
      } else {
        pressed := false;
      }
      assert state.Value() == Tick(r0, config, now, cheapest, ready, press);
      TickPreservesInvariant(r0, config, now, cheapest, ready, press);
      NotifyListeners();
    }

    /** The attempt part of `_handle_minute_tick`, on a due tick; `pressed` tells whether it pressed. */
    method RecordAttempt(now: int, ready: bool, press: PressOutcome) returns (pressed: bool)
      modifies state
      ensures state.Value() == Attempt(old(state.Value()), now, ready, press)
      ensures pressed == ready
    {
      state.lastAttempt := Some(now);
      if !ready {
        state.lastResult := NotReady;
        return false;
      }
      match press {
        case PressOk =>
          state.lastResult := Started;
          state.armed := false;
        case PressFail =>
          state.lastResult := StartFailed;
      }
      return true;
    }
  }

  // ---------------------------------------------------------------------
  // Invariant preservation (used by the methods above)

  lemma PlanFits(p: int, h: int, cfg: Config)
    requires 0 <= h < 24 && OnTheHour(p, h) && WithinWindow(h, cfg.windowStart, cfg.windowEnd)
    ensures OnTheHour(p, HourOf(p)) && WithinWindow(HourOf(p), cfg.windowStart, cfg.windowEnd)
  {
    OnTheHourParts(p, h);
  }

  lemma RecomputePreservesInvariant(r: Runtime, cfg: Config, now: int, cheapest: Option<string>)
    requires Invariant(r, cfg)
    ensures Invariant(Recompute(r, cfg, now, cheapest), cfg)
  {
    var p := PlannedStartFor(cheapest, now, cfg);
    if p.Some? {
      PlanFits(p.value, CheapestHour(cheapest, cfg.parseNumber).value, cfg);
    }
  }

  /** `set_armed` keeps the invariant. */
  lemma ArmPreservesInvariant(r: Runtime, cfg: Config, value: bool, now: int, cheapest: Option<string>)
    requires Invariant(r, cfg)
    ensures Invariant(Arm(r, cfg, value, now, cheapest), cfg)
  {
    RecomputePreservesInvariant(r.(armed := value), cfg, now, cheapest);
  }

  /** A minute tick keeps the invariant. */
  lemma TickPreservesInvariant(r: Runtime, cfg: Config, now: int, cheapest: Option<string>,
                               ready: bool, press: PressOutcome)
    requires Invariant(r, cfg)
    ensures Invariant(Tick(r, cfg, now, cheapest, ready, press), cfg)
  {
    RecomputePreservesInvariant(r, cfg, now, cheapest);
  }
}
