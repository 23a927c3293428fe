# Dishwasher scheduler — a Dafny model of its coordinator and config-flow normalisers

The Home Assistant integration `dishwasher_scheduler` keeps a plan for when to
press a dishwasher's start button. The plan is the next occurrence of the hour
reported by a "cheapest hour" sensor, provided that hour lies in an allowed
time-of-day window. On every minute tick the coordinator checks whether the
planned minute has come and whether the appliance's status sensor reports it
ready. If both hold it presses start, records the attempt and its result, and
disarms after a successful press. Listeners are told after each change.

This project models:

- `coordinator.dfy` (module `Coordinator`): the runtime state
  (`RuntimeState`, a class with the four fields of the Python dataclass) and
  the coordinator (`DishwasherSchedulerCoordinator`, a class with the
  listener list). Its methods update those fields in place.
  `SetArmed`, `RecomputePlannedStart` and `HandleMinuteTick` are proved to
  follow the value-level transitions `Arm`, `Recompute` and `Tick`, and
  `RecordAttempt` (the attempt step of a tick) follows `Attempt`.
  `SetArmed` and `HandleMinuteTick` also keep the state invariant.
  `AddListener`, `RemoveListener` and `NotifyListeners` are proved against
  list operations: append, `RemoveFirst`, and one call per listener in order.
  The pure readings are functions: `WithinWindow`, `CheapestHour`,
  `PlannedStartFor` and `StatusIsReady`.
- `coordinator_properties.dfy` (module `CoordinatorProperties`): what the
  coordinator promises, as lemmas over those transitions. Among them: a plan
  lies on the cheapest hour and is the earliest such instant after the
  reading; a tick presses exactly when armed, in the planned minute and
  ready; a missed minute never fires; no second press follows a successful
  start; readiness ignores case and surrounding whitespace; unsubscribing
  undoes subscribing.
- `config_flow.dfy` (module `ConfigFlow`): `_ensure_time` and
  `_time_to_str`, with the round trip between them.
- `clock.dfy`, `text.dfy`, `const.dfy` and `wrappers.dfy` hold the wall
  clock, Python's string operations and `int(float(...))`, the default
  window bounds, and `Option`.

Modelling choices:

- An instant is an integer count of seconds since a local midnight.
  `MinuteKey` (seconds divided by 60) stands for the
  `strftime("%Y-%m-%d %H:%M")` text the tick compares.
- Every entity the coordinator reads from Home Assistant is a parameter. It
  is `None` when the entity does not exist and otherwise its state text.
- The clock reading and the outcome of the button-press service call are
  parameters too. The press outcome is `PressOk` when the call returns and
  `PressFail` when it raises.
- Python's `int(float(text))` is an uninterpreted function of type
  `Text.NumberParser`: `Config.parseNumber` in the coordinator and the
  `parseNumber` parameter in the config flow. `dt_util.parse_time` is the uninterpreted function
  `parseTime`. A lemma states any property it needs of them as a
  precondition.
- Listeners are identified by a number and compared by value, as
  `list.remove` does. Calling them is recorded in the `delivered` trace, in
  call order.
- The coordinator reads its window bounds with `int(...)`. The config flow
  stores them as "HH:MM" text. `int("21:00")` raises in Python, so the two
  files do not agree. The model follows the coordinator and takes the bounds
  as integers in `Config`, with the defaults 21 and 5 from
  `custom_components/dishwasher_scheduler/const.py`.

## Model

| member | source | states |
|---|---|---|
| Coordinator.RuntimeState.constructor | custom_components/dishwasher_scheduler/coordinator.py:27-34 | a new runtime state is disarmed, with no plan, no attempt and result "never" |
| Coordinator.DishwasherSchedulerCoordinator.constructor | custom_components/dishwasher_scheduler/coordinator.py:40-45 | a new coordinator has the initial runtime state, no listeners and satisfies the invariant |
| Coordinator.WithinWindow | custom_components/dishwasher_scheduler/coordinator.py:121-128 | equal bounds allow every hour; for distinct bounds in 0..23, an hour is allowed exactly when it is reached walking forward from the start before the end |
| Coordinator.CheapestHour | custom_components/dishwasher_scheduler/coordinator.py:109-119 | an hour is returned exactly when the entity exists, its text converts to a number and that number is in 0..23; it is then that number |
| Coordinator.PlannedStartFor | custom_components/dishwasher_scheduler/coordinator.py:130-145 | there is no plan exactly when there is no usable cheapest hour or that hour is outside the window; a plan lies on that hour, strictly after the clock reading and at most one day later |
| Coordinator.StatusIsReady | custom_components/dishwasher_scheduler/coordinator.py:147-150 | a missing status entity is never ready |
| Coordinator.Recompute | custom_components/dishwasher_scheduler/coordinator.py:130-145 | only the plan changes; it becomes the next occurrence of the cheapest hour when there is one inside the window, and otherwise nothing |
| Coordinator.Arm | custom_components/dishwasher_scheduler/coordinator.py:88-92 | `set_armed(value)` sets the flag to `value` and keeps the attempt record; arming replaces the plan with a fresh one, disarming keeps it |
| Coordinator.Attempt | custom_components/dishwasher_scheduler/coordinator.py:174-186 | a due tick records its time and keeps the plan; not ready gives "not_ready" and keeps the flag, a press that returns gives "started" and disarms, a press that raises gives "start_failed" and keeps the flag |
| Coordinator.Tick | custom_components/dishwasher_scheduler/coordinator.py:160-188 | a tick never arms, never changes an existing plan, and records no attempt time other than its own |
| Coordinator.FirstIndex | custom_components/dishwasher_scheduler/coordinator.py:100-101 | the index found holds the listener and no earlier index does |
| Coordinator.RemoveFirst | custom_components/dishwasher_scheduler/coordinator.py:99-101 | removing a listener that is not registered changes nothing; removing one that is shortens the list by one |
| Coordinator.DishwasherSchedulerCoordinator.SetArmed | custom_components/dishwasher_scheduler/coordinator.py:88-93 | the new runtime state is `Arm` of the old one; the invariant is kept; every listener is called once, in order |
| Coordinator.DishwasherSchedulerCoordinator.AddListener | custom_components/dishwasher_scheduler/coordinator.py:95-97 | the listener is appended to the list |
| Coordinator.DishwasherSchedulerCoordinator.RemoveListener | custom_components/dishwasher_scheduler/coordinator.py:99-103 | calling the unsubscribe callback removes the listener's first registration, if there is one |
| Coordinator.DishwasherSchedulerCoordinator.NotifyListeners | custom_components/dishwasher_scheduler/coordinator.py:105-107 | every listener of the list is called exactly once, in registration order |
| Coordinator.DishwasherSchedulerCoordinator.RecomputePlannedStart | custom_components/dishwasher_scheduler/coordinator.py:130-145 | only the plan changes, and it becomes `PlannedStartFor` the clock reading |
| Coordinator.DishwasherSchedulerCoordinator.HandleMinuteTick | custom_components/dishwasher_scheduler/coordinator.py:160-188 | the new runtime state is `Tick` of the old one; it reports a press exactly when `TickPresses` holds; the invariant is kept; every listener is called once, on every path |
| Coordinator.DishwasherSchedulerCoordinator.RecordAttempt | custom_components/dishwasher_scheduler/coordinator.py:172-188 | a due tick records the time; not ready gives "not_ready", a press that returns gives "started" and disarms, a press that raises gives "start_failed"; it presses exactly when ready |
| Coordinator.PlanFits | custom_components/dishwasher_scheduler/coordinator.py:137-145 | a plan at an hour inside the window is on the hour and its hour of day is inside the window |
| Coordinator.RecomputePreservesInvariant | custom_components/dishwasher_scheduler/coordinator.py:130-145 | recomputing the plan keeps the invariant |
| Coordinator.ArmPreservesInvariant | custom_components/dishwasher_scheduler/coordinator.py:88-93 | `set_armed` keeps the invariant |
| Coordinator.TickPreservesInvariant | custom_components/dishwasher_scheduler/coordinator.py:160-188 | a minute tick keeps the invariant: a plan stays on a whole hour inside the window, and an attempt is recorded exactly when a result is |
| CoordinatorProperties.SwappedWindowIsComplement | custom_components/dishwasher_scheduler/coordinator.py:124-128 | swapping two distinct bounds allows exactly the hours the original window forbids |
| CoordinatorProperties.DefaultWindowWraps | custom_components/dishwasher_scheduler/const.py:11-12 | the default window from 21 to 5 allows 22, 0 and 4 and forbids 5 and 12 |
| CoordinatorProperties.PlanShape | custom_components/dishwasher_scheduler/coordinator.py:136-139 | a plan has the cheapest hour, minute 0 and second 0; it is that hour today when still ahead, otherwise tomorrow |
| CoordinatorProperties.PlanIsEarliest | custom_components/dishwasher_scheduler/coordinator.py:137-139 | no instant at the cheapest hour that is after the clock reading comes before the plan |
| CoordinatorProperties.RollForwardExample | custom_components/dishwasher_scheduler/coordinator.py:137-139 | at 14:00 a cheapest hour of 10 is planned for 10:00 the next day |
| CoordinatorProperties.OutsideWindowClearsPlan | custom_components/dishwasher_scheduler/coordinator.py:141-143 | a cheapest hour outside the window clears the plan, whatever the clock reads |
| CoordinatorProperties.ReadyIgnoresStatusCase | custom_components/dishwasher_scheduler/coordinator.py:151-154 | lower-casing the status text does not change readiness |
| CoordinatorProperties.ReadyIgnoresSubstringCase | custom_components/dishwasher_scheduler/coordinator.py:154 | lower-casing the ready substring does not change readiness |
| CoordinatorProperties.ReadyIgnoresPadding | custom_components/dishwasher_scheduler/coordinator.py:151 | whitespace around the status text does not change readiness |
| CoordinatorProperties.MissingStatusIsNeverReady | custom_components/dishwasher_scheduler/coordinator.py:148-150 | a missing status entity is never ready |
| CoordinatorProperties.UnavailableIsNeverReady | custom_components/dishwasher_scheduler/coordinator.py:152-153 | "Unavailable" is never ready, whatever the ready substring |
| CoordinatorProperties.UnknownIsNeverReady | custom_components/dishwasher_scheduler/coordinator.py:152-153 | "UNKNOWN" is never ready, whatever the ready substring |
| CoordinatorProperties.BlankStatusIsNeverReady | custom_components/dishwasher_scheduler/coordinator.py:151-153 | a status of only whitespace is never ready |
| CoordinatorProperties.EmptySubstringAcceptsUsableStatus | custom_components/dishwasher_scheduler/coordinator.py:152-154 | an empty ready substring accepts every status that is not "unknown", "unavailable" or blank |
| CoordinatorProperties.TickWhenDisarmed | custom_components/dishwasher_scheduler/coordinator.py:161-167 | when disarmed, a tick changes nothing and presses nothing |
| CoordinatorProperties.TickWhenArmedWithoutPlan | custom_components/dishwasher_scheduler/coordinator.py:161-171 | when armed without a plan, a tick only recomputes the plan and never fires it in the same minute |
| CoordinatorProperties.TickOffMinute | custom_components/dishwasher_scheduler/coordinator.py:169-171 | a tick in another minute than the plan's changes nothing and presses nothing |
| CoordinatorProperties.TickOnPlannedMinute | custom_components/dishwasher_scheduler/coordinator.py:173-188 | when armed in the planned minute, a tick records the attempt and keeps the plan: not ready stays armed with "not_ready", a press that returns disarms with "started", a press that raises stays armed with "start_failed" |
| CoordinatorProperties.PressesExactlyWhenDue | custom_components/dishwasher_scheduler/coordinator.py:160-183 | the button is pressed if and only if armed, with a plan in this minute, and ready |
| CoordinatorProperties.FiresOnlyInPlannedMinute | custom_components/dishwasher_scheduler/coordinator.py:169-171 | in a reachable state a tick presses only within the sixty seconds of the planned minute; a tick before it or a late tick leaves the state unchanged |
| CoordinatorProperties.TickIgnoresWindowOfExistingPlan | custom_components/dishwasher_scheduler/coordinator.py:160-183 | once a plan exists, whether and how a tick fires does not depend on the window bounds |
| CoordinatorProperties.NoSecondPressAfterStart | custom_components/dishwasher_scheduler/coordinator.py:182-184 | after a successful start, no later tick presses until the scheduler is armed again |
| CoordinatorProperties.RearmIsIdempotent | custom_components/dishwasher_scheduler/coordinator.py:88-93 | arming twice with the same signals is the same as arming once |
| CoordinatorProperties.DisarmSuppressesTick | custom_components/dishwasher_scheduler/coordinator.py:88-93 | after disarming, a tick neither presses nor changes anything |
| CoordinatorProperties.InitialInvariant | custom_components/dishwasher_scheduler/coordinator.py:27-34 | the initial runtime state satisfies the invariant |
| CoordinatorProperties.RemoveFirstAt | custom_components/dishwasher_scheduler/coordinator.py:99-101 | unsubscribing removes the first registration and keeps the others in order |
| CoordinatorProperties.RemoveFirstCount | custom_components/dishwasher_scheduler/coordinator.py:99-101 | unsubscribing takes exactly one registration of the listener out of the list |
| CoordinatorProperties.RemoveIsIdempotent | custom_components/dishwasher_scheduler/coordinator.py:99-101 | calling the unsubscribe callback twice does nothing more when the listener was registered once |
| CoordinatorProperties.RemoveUndoesAdd | custom_components/dishwasher_scheduler/coordinator.py:95-103 | unsubscribing right after subscribing a new listener restores the list |
| Clock.SameDayAt | custom_components/dishwasher_scheduler/coordinator.py:137 | `replace(hour=h, minute=0, second=0)` stays on the same day at `h`:00:00 |
| Clock.NextOccurrence | custom_components/dishwasher_scheduler/coordinator.py:137-139 | the candidate rolled forward is on the hour, strictly after the clock reading and at most one day later |
| Clock.NextOccurrenceIsEarliest | custom_components/dishwasher_scheduler/coordinator.py:137-139 | no instant at that hour after the reading comes before it |
| Clock.LaterWholeMinuteHasLaterKey | custom_components/dishwasher_scheduler/coordinator.py:169 | an instant on a whole minute that is after the reading has a later minute text |
| Text.TrimStart | custom_components/dishwasher_scheduler/coordinator.py:151 | the result is a suffix of the input that does not start with whitespace |
| Text.TrimStartRemovesOnlySpace | custom_components/dishwasher_scheduler/coordinator.py:151 | only whitespace is removed from the front |
| Text.TrimEnd | custom_components/dishwasher_scheduler/coordinator.py:151 | the result is a prefix of the input that does not end with whitespace |
| Text.TrimEndRemovesOnlySpace | custom_components/dishwasher_scheduler/coordinator.py:151 | only whitespace is removed from the back |
| Text.Strip | custom_components/dishwasher_scheduler/coordinator.py:151 | `strip()` leaves no whitespace at either end |
| Text.StripPadded | custom_components/dishwasher_scheduler/coordinator.py:151 | `strip()` ignores whitespace padding on both sides |
| Text.Lower | custom_components/dishwasher_scheduler/coordinator.py:152-154 | `lower()` keeps the length and lower-cases each character |
| Text.LowerIdempotent | custom_components/dishwasher_scheduler/coordinator.py:152-154 | lower-casing twice is lower-casing once |
| Text.StripLower | custom_components/dishwasher_scheduler/coordinator.py:151-152 | stripping and lower-casing commute |
| Text.AllSpaceTrimStart | custom_components/dishwasher_scheduler/coordinator.py:151 | a string of whitespace strips to the empty string |
| Text.Decimal | custom_components/dishwasher_scheduler/config_flow.py:57 | the decimal spelling of a natural number is non-empty, all digits, with no leading zero |
| Text.DecimalRoundTrip | custom_components/dishwasher_scheduler/config_flow.py:57 | reading back the decimal spelling of `n` gives `n` |
| Text.TwoDigits | custom_components/dishwasher_scheduler/config_flow.py:51 | two zero-padded digits that read back as the number |
| Text.Format02d | custom_components/dishwasher_scheduler/config_flow.py:57 | `f"{n:02d}"` is the digits of `n` with no leading zero from 10 up, a minus sign and the digits of `-n` with no leading zero for negative `n`, and the two-digit form for 0..99 |
| ConfigFlow.HourTime | custom_components/dishwasher_scheduler/config_flow.py:41 | `time(n % 24, 0)` is on the hour with an hour congruent to `n` modulo 24 |
| ConfigFlow.EnsureTime | custom_components/dishwasher_scheduler/config_flow.py:30-44 | a time is kept; a string `parse_time` accepts gives that time; otherwise a number gives its hour modulo 24 on the hour; anything else gives the parsed default or midnight |
| ConfigFlow.FormatHourMinute | custom_components/dishwasher_scheduler/config_flow.py:51 | `strftime("%H:%M")` is five characters with a colon in the middle |
| ConfigFlow.TimeToStr | custom_components/dishwasher_scheduler/config_flow.py:47-59 | the result is text, except that a value of no handled type gives the integer 21, and only such a value does |
| ConfigFlow.FormatHourMinuteRoundTrip | custom_components/dishwasher_scheduler/config_flow.py:51-54 | the "HH:MM" text of a time reads back as its hour and minute |
| ConfigFlow.TimeStoredAsHourMinute | custom_components/dishwasher_scheduler/config_flow.py:53-54 | a time is stored as "HH:MM", which reads back as its hour and minute |
| ConfigFlow.TextStaysText | custom_components/dishwasher_scheduler/config_flow.py:48-52 | a string stays a string: one `parse_time` accepts becomes the "HH:MM" of that time, any other is kept unchanged |
| ConfigFlow.NumberStoredWithoutModulo | custom_components/dishwasher_scheduler/config_flow.py:55-57 | a number is stored as its own spelling followed by ":00", with no reduction modulo 24: the text before ":00" reads back as `n` (after the minus sign for negative `n`) with no leading zero from 10 up; for 0..99 the whole text reads back as (n, 0) |
| ConfigFlow.HourFormsAgree | custom_components/dishwasher_scheduler/config_flow.py:30-57 | for hours 0..23, the time `_ensure_time` makes of a number prints as `_time_to_str` stores that number |
| ConfigFlow.HourFormsDisagreeAt24 | custom_components/dishwasher_scheduler/config_flow.py:41 | 24 is shown as midnight but stored as "24:00" |
| ConfigFlow.StoredTimeShowsAgain | custom_components/dishwasher_scheduler/config_flow.py:30-54 | when `parse_time` reads "HH:MM" back, storing a time and showing it again gives the same hour and minute |
| ConfigFlow.TimeToStrIdempotent | custom_components/dishwasher_scheduler/config_flow.py:47-57 | for times, accepted strings and hours 0..23, normalising twice is normalising once |
| ConfigFlow.FallbackIsNotText | custom_components/dishwasher_scheduler/config_flow.py:58-59 | the fallback is the integer 21, which normalises again to the text "21:00" |

## Left out

- `async_start`, `async_stop` and the timer subscription (`async_track_time_change`) are not modelled. The Home Assistant event loop is not modelled. A minute tick is a call to `HandleMinuteTick` with the clock reading.
- The button-press service call (`_press_start_button`) is the `press` parameter. The only part of it modelled is whether it returned or raised.
- `_opt` and the entry's options and data are not modelled. The resolved ready substring and the integer window bounds are fields of `Config`.
- The options are fixed for a coordinator's life in the model: `config` is a constant, and `Invariant` (a plan lies inside the window) is stated for that one configuration. In the source `_opt` rereads the options on every call, and the options flow can change the window while a plan exists. The tick never rechecks the window, so such a plan fires outside the new window. The model does not represent that state. `TickIgnoresWindowOfExistingPlan` states that the tick's outcome for an existing plan does not depend on the window.
- The `int(...)` that `window_start` and `window_end` apply to the stored value is not modelled. That `int` raises on the "HH:MM" text the config flow stores.
- Time zones, daylight-saving shifts and microseconds are not modelled. An instant is a whole number of local seconds, and `dt_util.now()` is the `now` parameter.
- In a tick, the recompute uses the tick's `now` parameter. The source's `_recompute_planned_start` reads `dt_util.now()` itself, at nearly the same moment.
- `float` parsing and its errors are the uninterpreted `parseNumber`. This includes the `OverflowError` that `int(float("inf"))` raises, which the source does not catch.
- Text.Lower: lower-cases ASCII letters only, because Python's full Unicode case mapping is not modelled.
- Coordinator.StatusIsReady: its contract states only that a missing entity is never ready. The rest of its behaviour is stated by the readiness lemmas in `CoordinatorProperties`. A state of `None`, which `(st.state or "")` maps to the empty text, is the status `Some("")`.
- Coordinator.RemoveFirst: its own contract gives the length only. The exact contents are stated by `RemoveFirstAt` and `RemoveFirstCount`.
- What listener callbacks themselves do is not modelled, and neither is a listener that subscribes or unsubscribes while being notified. `NotifyListeners` iterates a snapshot, as the source does.
- ConfigFlow.EnsureTime: the default argument of `_ensure_time` is taken as text. In the source it defaults to the integer `DEFAULT_WINDOW_START`, and what `parse_time` does with an integer is not modelled.
- The config flow's forms, schemas and option steps are not modelled. The sensor and switch entities are not modelled either.
