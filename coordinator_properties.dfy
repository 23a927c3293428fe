/**
 * What the coordinator promises, stated over the value-level transitions
 * `Recompute`, `Arm` and `Tick` that its methods are proved to follow.
 */
module CoordinatorProperties {
  import opened Wrappers
  import opened Clock
  import opened Text
  import opened Coordinator
  import opened Const

  // ---------------------------------------------------------------------
  // The window test

  /** Swapping two distinct bounds allows exactly the hours the original window forbids. */
  lemma SwappedWindowIsComplement(hour: int, start: int, end: int)
    requires start != end
    ensures WithinWindow(hour, end, start) == !WithinWindow(hour, start, end)
  {
  }

  /** The default window, 21 to 5, wraps past midnight: late evening and night are allowed, midday is not. */
  lemma DefaultWindowWraps()
    ensures WithinWindow(22, DefaultWindowStart, DefaultWindowEnd)
    ensures WithinWindow(0, DefaultWindowStart, DefaultWindowEnd)
    ensures WithinWindow(4, DefaultWindowStart, DefaultWindowEnd)
    ensures !WithinWindow(5, DefaultWindowStart, DefaultWindowEnd)
    ensures !WithinWindow(12, DefaultWindowStart, DefaultWindowEnd)
  {
  }

  // ---------------------------------------------------------------------
  // Planning

  /**
   * A plan sits at the cheapest hour with minute and second 0, strictly after
   * the clock reading and at most a day later; it is that hour today unless
   * that instant is not after `now`, and then the same hour tomorrow.
   */
  lemma PlanShape(cheapest: Option<string>, now: int, cfg: Config)
    requires PlannedStartFor(cheapest, now, cfg).Some?
    ensures var p := PlannedStartFor(cheapest, now, cfg).value;
            var h := CheapestHour(cheapest, cfg.parseNumber).value;
            && HourOf(p) == h && MinuteOf(p) == 0 && SecondOf(p) == 0
            && now < p <= now + SecondsPerDay
            && p == SameDayAt(now, h) + (if SameDayAt(now, h) <= now then SecondsPerDay else 0)
  {
    var p := PlannedStartFor(cheapest, now, cfg).value;
    OnTheHourParts(p, CheapestHour(cheapest, cfg.parseNumber).value);
  }

  /** No instant at the cheapest hour that is after `now` comes before the plan. */
  lemma PlanIsEarliest(cheapest: Option<string>, now: int, cfg: Config, t: int)
    requires PlannedStartFor(cheapest, now, cfg).Some?
    requires now < t && OnTheHour(t, CheapestHour(cheapest, cfg.parseNumber).value)
    ensures PlannedStartFor(cheapest, now, cfg).value <= t
  {
    NextOccurrenceIsEarliest(now, CheapestHour(cheapest, cfg.parseNumber).value, t);
  }

  /** At 14:00 a cheapest hour of 10 is planned for 10:00 the next day. */
  lemma RollForwardExample(cfg: Config)
    requires cfg.parseNumber("10") == Some(10) && cfg.windowStart == cfg.windowEnd
    ensures PlannedStartFor(Some("10"), 14 * SecondsPerHour, cfg) == Some(SecondsPerDay + 10 * SecondsPerHour)
  {
  }

  /** An hour outside the window clears the plan, at any clock reading. */
  lemma OutsideWindowClearsPlan(cheapest: Option<string>, now: int, cfg: Config)
    requires CheapestHour(cheapest, cfg.parseNumber).Some?
    requires !WithinWindow(CheapestHour(cheapest, cfg.parseNumber).value, cfg.windowStart, cfg.windowEnd)
    ensures PlannedStartFor(cheapest, now, cfg) == None
  {
  }

  // ---------------------------------------------------------------------
  // Readiness

  /** The case of the status text does not matter. */
  lemma ReadyIgnoresStatusCase(status: string, readySubstring: string)
    ensures StatusIsReady(Some(Lower(status)), readySubstring) == StatusIsReady(Some(status), readySubstring)
  {
    StripLower(status);
    LowerIdempotent(Strip(status));
  }

  /** The case of the configured ready substring does not matter. */
  lemma ReadyIgnoresSubstringCase(status: string, readySubstring: string)
    ensures StatusIsReady(Some(status), Lower(readySubstring)) == StatusIsReady(Some(status), readySubstring)
  {
    LowerIdempotent(readySubstring);
  }

  /** Whitespace around the status text does not matter. */
  lemma ReadyIgnoresPadding(front: string, status: string, back: string, readySubstring: string)
    requires AllSpace(front) && AllSpace(back)
    ensures StatusIsReady(Some(front + status + back), readySubstring) == StatusIsReady(Some(status), readySubstring)
  {
    StripPadded(front, status, back);
  }

  /** A missing status entity is never ready. */
  lemma MissingStatusIsNeverReady(readySubstring: string)
    ensures !StatusIsReady(None, readySubstring)
  {
  }

  /** A status of "Unavailable" is never ready, whatever the substring. */
  lemma UnavailableIsNeverReady(readySubstring: string)
    ensures !StatusIsReady(Some("Unavailable"), readySubstring)
  {
    UnavailableLowered();
  }

  lemma UnavailableLowered()
    ensures Lower(Strip("Unavailable")) == "unavailable"
  {
    NoOuterSpace("Unavailable");
    LowerUnavailable();
  }

  lemma LowerUnavailable()
    ensures Lower("Unavailable") == "unavailable"
  {
  }

  /** A status of "UNKNOWN" is never ready, whatever the substring. */
  lemma UnknownIsNeverReady(readySubstring: string)
    ensures !StatusIsReady(Some("UNKNOWN"), readySubstring)
  {
    UnknownLowered();
  }

  lemma UnknownLowered()
    ensures Lower(Strip("UNKNOWN")) == "unknown"
  {
    NoOuterSpace("UNKNOWN");
    LowerUnknown();
  }

  lemma LowerUnknown()
    ensures Lower("UNKNOWN") == "unknown"
  {
  }

  /** A status of only whitespace is never ready, whatever the substring. */
  lemma BlankStatusIsNeverReady(blank: string, readySubstring: string)
    requires AllSpace(blank)
    ensures !StatusIsReady(Some(blank), readySubstring)
  {
    AllSpaceTrimStart(blank);
  }

  lemma NoOuterSpace(s: string)
    requires s != [] && !IsSpace(s[0]) && !IsSpace(s[|s| - 1])
    ensures Strip(s) == s
  {
  }

  /** An empty ready substring accepts every status that is not a placeholder. */
  lemma EmptySubstringAcceptsUsableStatus(status: string)
    requires !IsUnusableStatus(Lower(Strip(status)))
    ensures StatusIsReady(Some(status), "")
  {
    assert OccursAt(Lower(Strip(status)), Lower(""), 0);
  }

  // ---------------------------------------------------------------------
  // The minute tick

  /** Unarmed, a tick changes nothing and presses nothing. */
  lemma TickWhenDisarmed(r: Runtime, cfg: Config, now: int, cheapest: Option<string>,
                         ready: bool, press: PressOutcome)
    requires !r.armed
    ensures Tick(r, cfg, now, cheapest, ready, press) == r
    ensures !TickPresses(r, cfg, now, cheapest, ready)
  {
  }

  /**
   * Armed without a plan, a tick only recomputes the plan: a plan made at
   * `now` lies in a later minute, so the same tick never fires it.
   */
  lemma TickWhenArmedWithoutPlan(r: Runtime, cfg: Config, now: int, cheapest: Option<string>,
                                 ready: bool, press: PressOutcome)
    requires r.armed && r.plannedStart.None?
    ensures Tick(r, cfg, now, cheapest, ready, press) == Recompute(r, cfg, now, cheapest)
    ensures !TickPresses(r, cfg, now, cheapest, ready)
  {
    var p := PlannedStartFor(cheapest, now, cfg);
    if p.Some? {
      OnTheHourParts(p.value, CheapestHour(cheapest, cfg.parseNumber).value);
      LaterWholeMinuteHasLaterKey(now, p.value);
    }
  }

  /** A tick in another minute than the plan's changes nothing and presses nothing. */
  lemma TickOffMinute(r: Runtime, cfg: Config, now: int, cheapest: Option<string>,
                      ready: bool, press: PressOutcome)
    requires r.plannedStart.Some? && MinuteKey(now) != MinuteKey(r.plannedStart.value)
    ensures Tick(r, cfg, now, cheapest, ready, press) == r
    ensures !TickPresses(r, cfg, now, cheapest, ready)
  {
  }

  /**
   * A tick in the planned minute while armed records the attempt and keeps
   * the plan; not ready leaves it armed with "not_ready", a press that
   * returns disarms with "started", a press that raises stays armed with
   * "start_failed".
   */
  lemma TickOnPlannedMinute(r: Runtime, cfg: Config, now: int, cheapest: Option<string>,
                            ready: bool, press: PressOutcome)
    requires r.armed && r.plannedStart.Some? && MinuteKey(now) == MinuteKey(r.plannedStart.value)
    ensures var r' := Tick(r, cfg, now, cheapest, ready, press);
            && r'.plannedStart == r.plannedStart && r'.lastAttempt == Some(now)
            && (TickPresses(r, cfg, now, cheapest, ready) <==> ready)
            && (!ready ==> r'.lastResult == NotReady && r'.armed)
            && (ready && press == PressOk ==>
                  r'.lastResult == Started && !r'.armed)
            && (ready && press == PressFail ==>
                  r'.lastResult == StartFailed && r'.armed)
  {
  }

  /** The button is pressed exactly when armed, with a plan in this minute, and ready. */
  lemma PressesExactlyWhenDue(r: Runtime, cfg: Config, now: int, cheapest: Option<string>, ready: bool)
    ensures TickPresses(r, cfg, now, cheapest, ready) <==>
            r.armed && r.plannedStart.Some? && MinuteKey(now) == MinuteKey(r.plannedStart.value)
            && ready
  {
    if r.armed && r.plannedStart.None? {
      TickWhenArmedWithoutPlan(r, cfg, now, cheapest, ready, PressOk);
    }
  }

  /**
   * In a reachable state, only a tick inside the planned minute itself can
   * press; a tick before it or one minute or more after it (a missed tick)
   * leaves the state exactly as it was.
   */
  lemma FiresOnlyInPlannedMinute(r: Runtime, cfg: Config, now: int, cheapest: Option<string>,
                                 ready: bool, press: PressOutcome)
    requires Invariant(r, cfg) && r.armed && r.plannedStart.Some?
    ensures var p := r.plannedStart.value;
            && (TickPresses(r, cfg, now, cheapest, ready) <==>
                  p <= now < p + SecondsPerMinute && ready)
            && (!(p <= now < p + SecondsPerMinute) ==> Tick(r, cfg, now, cheapest, ready, press) == r)
  {
    var p := r.plannedStart.value;
    OnTheHourParts(p, HourOf(p));
    var k := MinuteKey(p);
    assert p == k * SecondsPerMinute;
    assert MinuteKey(now) == k <==> p <= now < p + SecondsPerMinute;
  }

  /**
   * A tick never looks at the window once a plan exists: a plan made under
   * one window fires under any other window just the same.
   */
  lemma TickIgnoresWindowOfExistingPlan(r: Runtime, cfg: Config, now: int, cheapest: Option<string>,
                                        ready: bool, press: PressOutcome, start: int, end: int)
    requires r.plannedStart.Some?
    ensures var cfg' := cfg.(windowStart := start, windowEnd := end);
            && TickPresses(r, cfg', now, cheapest, ready) == TickPresses(r, cfg, now, cheapest, ready)
            && Tick(r, cfg', now, cheapest, ready, press) == Tick(r, cfg, now, cheapest, ready, press)
  {
  }

  /** After a successful start no later tick presses again until the engine is re-armed. */
  lemma NoSecondPressAfterStart(r: Runtime, cfg: Config, now: int, cheapest: Option<string>, ready: bool,
                                later: int, cheapest': Option<string>, ready': bool)
    requires TickPresses(r, cfg, now, cheapest, ready)
    ensures !TickPresses(Tick(r, cfg, now, cheapest, ready, PressOk), cfg, later, cheapest', ready')
  {
  }

  // ---------------------------------------------------------------------
  // Arming

  /** Arming twice with the same signals gives the same state as arming once. */
  lemma RearmIsIdempotent(r: Runtime, cfg: Config, now: int, cheapest: Option<string>)
    ensures Arm(Arm(r, cfg, true, now, cheapest), cfg, true, now, cheapest) == Arm(r, cfg, true, now, cheapest)
  {
  }

  /** After disarming, a tick neither presses nor changes anything. */
  lemma DisarmSuppressesTick(r: Runtime, cfg: Config, now: int, cheapest: Option<string>,
                             later: int, cheapest': Option<string>, ready: bool, press: PressOutcome)
    ensures var d := Arm(r, cfg, false, now, cheapest);
            Tick(d, cfg, later, cheapest', ready, press) == d && !TickPresses(d, cfg, later, cheapest', ready)
  {
  }

  /** The initial state satisfies the invariant. */
  lemma InitialInvariant(cfg: Config)
    ensures Invariant(InitialRuntime, cfg)
  {
  }

  // ---------------------------------------------------------------------
  // Listeners

  /** Unsubscribing removes the first registration of the listener and keeps the rest in order. */
  lemma {:induction false} RemoveFirstAt(s: seq<Listener>, x: Listener)
    requires x in s
    ensures RemoveFirst(s, x) == s[..FirstIndex(s, x)] + s[FirstIndex(s, x) + 1..]
  {
    if s[0] != x {
      var j := FirstIndex(s[1..], x);
      assert FirstIndex(s, x) == j + 1;
      RemoveFirstAt(s[1..], x);
      assert RemoveFirst(s, x) == [s[0]] + (s[1..][..j] + s[1..][j + 1..]);
      assert s[..j + 1] == [s[0]] + s[1..][..j];
      assert s[j + 2..] == s[1..][j + 1..];
    } else {
      assert FirstIndex(s, x) == 0;
      assert s[..0] == [];
    }
  }

  /** Unsubscribing takes exactly one registration of the listener out of the list. */
  lemma {:induction false} RemoveFirstCount(s: seq<Listener>, x: Listener)
    requires x in s
    ensures multiset(RemoveFirst(s, x)) == multiset(s) - multiset{x}
  {
    assert s == [s[0]] + s[1..];
    if s[0] != x {
      RemoveFirstCount(s[1..], x);
    }
  }

  /** Calling the unsubscribe callback a second time does nothing when the listener was registered once. */
  lemma RemoveIsIdempotent(s: seq<Listener>, x: Listener)
    requires multiset(s)[x] <= 1
    ensures RemoveFirst(RemoveFirst(s, x), x) == RemoveFirst(s, x)
  {
    if x in s {
      RemoveFirstCount(s, x);
      assert multiset(RemoveFirst(s, x))[x] == 0;
    }
  }

  /** Unsubscribing right after subscribing a new listener restores the list. */
  lemma {:induction false} RemoveUndoesAdd(s: seq<Listener>, x: Listener)
    requires x !in s
    ensures RemoveFirst(s + [x], x) == s
  {
    if s != [] {
      assert (s + [x])[1..] == s[1..] + [x];
      RemoveUndoesAdd(s[1..], x);
    }
  }
}
