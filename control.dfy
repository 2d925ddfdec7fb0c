/**
  The control loop of `main`: every poll it classifies the hour as day or
  night. By day it rolls the ledger over once after a night, reads the
  inverter, and switches the boiler on when there is surplus solar power and
  off when power is drawn from the grid. By night it charges the boiler until
  the last two days' charge covers one day. When the loop ends, the boiler is
  switched off and the ledger written.

  The wall clock, the hour and the transport outcomes are parameters.
*/
module ControlLoop {
  import opened Wrappers
  import opened Energy
  import opened Boilers

  /** The first hour of the day. */
  const DAY_START_HOUR: int := 7

  /** The production, in watts, that must be exceeded before the boiler is switched on. */
  const PRODUCTION_THRESHOLD_W: int := 3500

  /** The export that must be exceeded to switch on a boiler that is not on. */
  const EXPORT_LIMIT_WHEN_OFF_W: int := 3500

  /** The export that must be exceeded to switch on a boiler that is already on. */
  const EXPORT_LIMIT_WHEN_ON_W: int := 500

  /** `is_night()`: before seven, or after `lastDayHour` (23 as deployed). */
  function IsNight(hour: int, lastDayHour: int): (r: bool)
    ensures 0 <= hour <= 23 && lastDayHour >= 23 ==> (r <==> hour < 7)
    ensures 0 <= hour <= 23 && 6 <= lastDayHour <= 23 ==> (r <==> hour < 7 || lastDayHour < hour)
  {
    hour < DAY_START_HOUR || hour > lastDayHour
  }

  function EnableExportLimit(isEnabled: bool): int {
    if isEnabled then EXPORT_LIMIT_WHEN_ON_W else EXPORT_LIMIT_WHEN_OFF_W
  }

  /** The day branch calls `enable()` exactly when this holds. */
  predicate ShouldEnable(isEnabled: bool, production: int, exported: int) {
    production > PRODUCTION_THRESHOLD_W && exported > EnableExportLimit(isEnabled)
  }

  /** The day branch calls `disable()` exactly when this holds. */
  predicate ShouldDisable(exported: int) {
    exported <= 0
  }

  /** The day branch with a reading: the enable check, then the independent disable check. */
  function Regulation(s: BoilerState, production: Option<int>, exported: Option<int>, now: int): BoilerState {
    if production.None? || exported.None? then s
    else
      var afterEnable :=
        if ShouldEnable(s.isEnabled, production.value, exported.value) then Enabled(s, now) else s;
      if ShouldDisable(exported.value) then Disabled(afterEnable, now) else afterEnable
  }

  /** The night branch: charge until the last two days cover one day. */
  function NightCharge(s: BoilerState, now: int): BoilerState {
    if IsBoilerChargedEnoughForOneDay(s) then Disabled(s, now) else Enabled(s, now)
  }

  /** The boiler after one loop iteration, given what the energy reader returns. */
  function StepState(s: BoilerState, wasNight: bool, night: bool, reading: Reading, now: int): BoilerState {
    if night then NightCharge(s, now)
    else Regulation(if wasNight then NewDay(s) else s, reading.production, reading.exported, now)
  }

  /** The day branch once the reading is taken (solarmanagement.py:234-253). */
  method Regulate(boiler: Boiler, production: Option<int>, exported: Option<int>, now: int)
    requires boiler.Valid()
    modifies boiler
    ensures boiler.Valid()
    ensures boiler.State() == Regulation(old(boiler.State()), production, exported, now)
    ensures boiler.rollovers == old(boiler.rollovers)
  {
    if production.None? || exported.None? {
      return;  // invalid reading, do nothing
    }
    var limit := if !boiler.isEnabled then EXPORT_LIMIT_WHEN_OFF_W else EXPORT_LIMIT_WHEN_ON_W;
    if production.value > PRODUCTION_THRESHOLD_W && exported.value > limit {
      var _ := boiler.Enable(now);
    }
    if exported.value <= 0 {
      var _ := boiler.Disable(now);
    }
  }

  /** The night branch (solarmanagement.py:259-267). */
  method ChargeOvernight(boiler: Boiler, now: int)
    requires boiler.Valid()
    modifies boiler
    ensures boiler.Valid()
    ensures boiler.State() == NightCharge(old(boiler.State()), now)
    ensures boiler.rollovers == old(boiler.rollovers)
  {
    if IsBoilerChargedEnoughForOneDay(boiler.State()) {
      var _ := boiler.Disable(now);
    } else {
      var _ := boiler.Enable(now);
    }
  }

  /**
    One iteration of the loop at `hour` and wall-clock time `now`; `transport`
    is what the inverter answers if it is read. Returns the new `was_night`
    and the reading taken (absent by night).
  */
  method Step(boiler: Boiler, wasNight: bool, hour: int, lastDayHour: int, transport: seq<Attempt>, now: int)
    returns (nowNight: bool, production: Option<int>, exported: Option<int>)
    requires boiler.Valid()
    requires |transport| >= MAX_READ_ATTEMPTS
    modifies boiler
    ensures boiler.Valid()
    ensures nowNight == IsNight(hour, lastDayHour)
    ensures nowNight ==> production.None? && exported.None?
    ensures !nowNight ==> production == ReadSpec(transport).production && exported == ReadSpec(transport).exported
    ensures boiler.State() == StepState(old(boiler.State()), wasNight, nowNight, ReadSpec(transport), now)
    ensures boiler.rollovers == old(boiler.rollovers) + (if wasNight && !nowNight then 1 else 0)
  {
    production, exported := None, None;
    nowNight := wasNight;
    if !IsNight(hour, lastDayHour) {
      if wasNight {
        boiler.SetNewDay();
        // the weather forecast is fetched here; it is advisory only
        nowNight := false;
      }
      var recoveries;
      production, exported, recoveries := Read(transport);
      Regulate(boiler, production, exported, now);
    } else {
      if !wasNight {
        nowNight := true;
      }
      ChargeOvernight(boiler, now);
    }
  }

  /** How the loop ended. */
  datatype StopReason = UserInterrupt | Fault

  /** The exit paths (solarmanagement.py:270-280): switch the boiler off, write the ledger, report how the loop ended. */
  method Shutdown(boiler: Boiler, reason: StopReason, now: int) returns (status: int)
    requires boiler.Valid()
    modifies boiler
    ensures boiler.Valid()
    ensures boiler.State() == Disabled(old(boiler.State()), now)
    ensures boiler.isDisabled && !boiler.isEnabled
    ensures boiler.relayCommands != [] && boiler.relayCommands[|boiler.relayCommands| - 1] == false
    ensures boiler.persisted == boiler.Counters()
    ensures boiler.rollovers == old(boiler.rollovers)
    ensures status == 0 <==> reason == UserInterrupt
    ensures status == 0 || status == 1
  {
    var _ := boiler.Disable(now);
    boiler.WriteChargeTimes();
    match reason
    case UserInterrupt =>
      status := 0;
    case Fault =>
      status := 1;
  }

  /** One poll of the loop: the hour, the wall-clock time and the transport's answers. */
  datatype Tick = Tick(hour: int, now: int, transport: seq<Attempt>)

  /** `was_night` after `ticks`, starting from `wasNight`. */
  function WasNightAfter(wasNight: bool, ticks: seq<Tick>, lastDayHour: int): bool {
    if ticks == [] then wasNight else IsNight(ticks[|ticks| - 1].hour, lastDayHour)
  }

  /** The number of night-to-day transitions in `ticks`, starting from `wasNight`. */
  function DayStarts(wasNight: bool, ticks: seq<Tick>, lastDayHour: int): nat
    decreases |ticks|
  {
    if ticks == [] then 0
    else
      var before := ticks[..|ticks| - 1];
      DayStarts(wasNight, before, lastDayHour)
      + if WasNightAfter(wasNight, before, lastDayHour) && !IsNight(ticks[|ticks| - 1].hour, lastDayHour) then 1 else 0
  }

  /** Every poll's transport answers all the attempts one read may make. */
  predicate Answered(ticks: seq<Tick>) {
    forall i :: 0 <= i < |ticks| ==> |ticks[i].transport| >= MAX_READ_ATTEMPTS
  }

  /** The boiler after the polls `ticks`, starting from `s` and `wasNight`: one `StepState` per poll. */
  function RunState(s: BoilerState, wasNight: bool, ticks: seq<Tick>, lastDayHour: int): BoilerState
    requires Answered(ticks)
    decreases |ticks|
  {
    if ticks == [] then s
    else
      var before := ticks[..|ticks| - 1];
      var tick := ticks[|ticks| - 1];
      StepState(RunState(s, wasNight, before, lastDayHour), WasNightAfter(wasNight, before, lastDayHour),
                IsNight(tick.hour, lastDayHour), ReadSpec(tick.transport), tick.now)
  }

  lemma DayStartsExtend(s: BoilerState, wasNight: bool, ticks: seq<Tick>, i: nat, lastDayHour: int)
    requires i < |ticks| && Answered(ticks)
    ensures WasNightAfter(wasNight, ticks[..i + 1], lastDayHour) == IsNight(ticks[i].hour, lastDayHour)
    ensures DayStarts(wasNight, ticks[..i + 1], lastDayHour)
            == DayStarts(wasNight, ticks[..i], lastDayHour)
               + if WasNightAfter(wasNight, ticks[..i], lastDayHour) && !IsNight(ticks[i].hour, lastDayHour) then 1 else 0
    ensures RunState(s, wasNight, ticks[..i + 1], lastDayHour)
            == StepState(RunState(s, wasNight, ticks[..i], lastDayHour), WasNightAfter(wasNight, ticks[..i], lastDayHour),
                         IsNight(ticks[i].hour, lastDayHour), ReadSpec(ticks[i].transport), ticks[i].now)
  {
    assert ticks[..i + 1][..i] == ticks[..i];
  }

  /**
    `main` from solarmanagement.py:199 on: classify the start hour, run the loop over
    `ticks`, then shut down for `reason` at time `stoppedAt`. The ledger rolls
    over exactly once per night-to-day transition.
  */
  method Run(boiler: Boiler, startHour: int, lastDayHour: int, ticks: seq<Tick>, reason: StopReason, stoppedAt: int)
    returns (status: int)
    requires boiler.Valid()
    requires Answered(ticks)
    modifies boiler
    ensures boiler.Valid()
    ensures boiler.isDisabled && !boiler.isEnabled
    ensures boiler.persisted == boiler.Counters()
    ensures boiler.State()
            == Disabled(RunState(old(boiler.State()), IsNight(startHour, lastDayHour), ticks, lastDayHour), stoppedAt)
    ensures boiler.rollovers == old(boiler.rollovers) + DayStarts(IsNight(startHour, lastDayHour), ticks, lastDayHour)
    ensures status == 0 <==> reason == UserInterrupt
    ensures status == 0 || status == 1
  {
    var wasNight := IsNight(startHour, lastDayHour);
    ghost var initiallyNight := wasNight;
    ghost var initial := boiler.State();
    var i := 0;
    while i < |ticks|
      invariant 0 <= i <= |ticks|
      invariant boiler.Valid()
      invariant wasNight == WasNightAfter(initiallyNight, ticks[..i], lastDayHour)
      invariant boiler.State() == RunState(initial, initiallyNight, ticks[..i], lastDayHour)
      invariant boiler.rollovers == old(boiler.rollovers) + DayStarts(initiallyNight, ticks[..i], lastDayHour)
    {
      var tick := ticks[i];
      DayStartsExtend(initial, initiallyNight, ticks, i, lastDayHour);
      var production, exported;
      wasNight, production, exported := Step(boiler, wasNight, tick.hour, lastDayHour, tick.transport, tick.now);
      i := i + 1;
    }
    assert ticks[..|ticks|] == ticks;
    status := Shutdown(boiler, reason, stoppedAt);
  }

  /** Every poll keeps the flags consistent, so a whole run does. */
  lemma {:induction false} RunKeepsConsistent(s: BoilerState, wasNight: bool, ticks: seq<Tick>, lastDayHour: int)
    requires Consistent(s) && Answered(ticks)
    ensures Consistent(RunState(s, wasNight, ticks, lastDayHour))
    decreases |ticks|
  {
    if ticks != [] {
      RunKeepsConsistent(s, wasNight, ticks[..|ticks| - 1], lastDayHour);
    }
  }

  /** The two day-branch checks never both fire in one iteration. */
  lemma DayChecksExclusive(isEnabled: bool, production: int, exported: int)
    ensures !(ShouldEnable(isEnabled, production, exported) && ShouldDisable(exported))
  {
  }

  /** Without a complete reading the day branch leaves the boiler as it is. */
  lemma InvalidReadingChangesNothing(s: BoilerState, production: Option<int>, exported: Option<int>, now: int)
    requires production.None? || exported.None?
    ensures Regulation(s, production, exported, now) == s
  {
  }

  /**
    With a reading, the day branch switches the boiler on on a surplus and
    off on grid import (whatever the production), and otherwise leaves it as it is.
  */
  lemma RegulationDecides(s: BoilerState, production: int, exported: int, now: int)
    requires Consistent(s)
    ensures var t := Regulation(s, Some(production), Some(exported), now);
            && (ShouldEnable(s.isEnabled, production, exported) ==> t == Enabled(s, now) && t.isEnabled)
            && (ShouldDisable(exported) ==> t == Disabled(s, now) && t.isDisabled && !t.isEnabled)
            && (!ShouldEnable(s.isEnabled, production, exported) && !ShouldDisable(exported) ==> t == s)
  {
  }

  /**
    The hysteresis: a surplus of 4000 W production and 4000 W export switches
    a boiler that is off on; afterwards an export of 1000 W, or of only 300 W,
    keeps it on, and an import of 200 W switches it off.
  */
  lemma HysteresisScenario(s: BoilerState, t0: int, t1: int, t2: int, t3: int)
    requires Consistent(s) && !s.isEnabled
    ensures var on := Regulation(s, Some(4000), Some(4000), t0);
            && on == Enabled(s, t0)
            && Regulation(on, Some(4000), Some(1000), t1) == on
            && Regulation(on, Some(4000), Some(300), t2) == on
            && Regulation(on, Some(4000), Some(-200), t3) == Disabled(on, t3)
  {
  }

  /** By night the boiler ends up on exactly when the last two days do not cover one day. */
  lemma NightChargeDecides(s: BoilerState, now: int)
    requires Consistent(s)
    ensures NightCharge(s, now).isEnabled <==> !IsBoilerChargedEnoughForOneDay(s)
    ensures NightCharge(s, now).isDisabled <==> IsBoilerChargedEnoughForOneDay(s)
  {
  }

  /** The day after a night starts from a rolled-over ledger: yesterday is capped at a full tank. */
  lemma FirstDayStepRollsOver(s: BoilerState, hour: int, lastDayHour: int, reading: Reading, now: int)
    requires !IsNight(hour, lastDayHour)
    ensures StepState(s, true, IsNight(hour, lastDayHour), reading, now).yesterday == Min(s.today, FULL_CHARGE_TIME_SEC)
    ensures StepState(s, false, IsNight(hour, lastDayHour), reading, now).yesterday == s.yesterday
  {
  }

  /**
    A run of day polls rolls the ledger over once if it follows a night, and
    never otherwise: no rollover happens in the middle of a day.
  */
  lemma {:induction false} DaytimeRollsOverAtMostOnce(wasNight: bool, ticks: seq<Tick>, lastDayHour: int)
    requires forall i :: 0 <= i < |ticks| ==> !IsNight(ticks[i].hour, lastDayHour)
    ensures DayStarts(wasNight, ticks, lastDayHour) == if wasNight && ticks != [] then 1 else 0
    decreases |ticks|
  {
    if ticks != [] {
      DaytimeRollsOverAtMostOnce(wasNight, ticks[..|ticks| - 1], lastDayHour);
    }
  }
}
