/**
  The boiler: a relay that is switched on and off, two flags that remember the
  last switch, and a ledger of how long the boiler was charged today and
  yesterday, persisted after every change.

  `BoilerState` is the value of a boiler's fields; the functions `Enabled`,
  `Disabled`, `NewDay` and `CounterReset` say what each operation makes of it,
  and the class `Boiler` performs the same updates in place.
*/
module Boilers {
  import opened Wrappers

  /** Seconds of charging that fill the tank: three hours. */
  const FULL_CHARGE_TIME_SEC: int := 3600 * 3

  /** Seconds of charging the household uses per day: half a full tank. */
  const USAGE_PER_DAY_SEC: int := FULL_CHARGE_TIME_SEC / 2

  /** The persisted counters, in seconds. */
  datatype Ledger = Ledger(today: int, yesterday: int)

  /** The counters written when no ledger file exists yet. */
  const DEFAULT_LEDGER: Ledger := Ledger(0, FULL_CHARGE_TIME_SEC)

  /**
    The fields of a boiler. `relay` lists the commands sent to the relay, in
    order (`true` = on); `startTime == 0` means the boiler was never enabled.
  */
  datatype BoilerState = BoilerState(
    isEnabled: bool,
    isDisabled: bool,
    startTime: int,
    stopTime: int,
    today: int,
    yesterday: int,
    relay: seq<bool>)

  function Min(a: int, b: int): int {
    if a <= b then a else b
  }

  /**
    The flags are never both set; both are clear exactly until the first
    switch, and afterwards the last relay command matches `isEnabled`.
  */
  predicate Consistent(s: BoilerState) {
    && !(s.isEnabled && s.isDisabled)
    && (s.relay == [] <==> !s.isEnabled && !s.isDisabled)
    && (s.relay != [] ==> s.relay[|s.relay| - 1] == s.isEnabled)
    && (s.relay == [] ==> s.startTime == 0 && s.stopTime == 0)
  }

  /** A boiler just built from the stored ledger, or from the defaults when none is stored. */
  function Initial(stored: Option<Ledger>): BoilerState {
    var ledger := stored.GetOr(DEFAULT_LEDGER);
    BoilerState(false, false, 0, 0, ledger.today, ledger.yesterday, [])
  }

  /** `enable()`: unless already enabled, switch the relay on and note the start time. */
  function Enabled(s: BoilerState, now: int): BoilerState {
    if s.isEnabled then s
    else s.(relay := s.relay + [true], startTime := now, isEnabled := true, isDisabled := false)
  }

  /** Charge time to book when the boiler is switched off at `now`. */
  function Elapsed(s: BoilerState, now: int): int {
    if s.startTime != 0 then now - s.startTime else 0
  }

  /** `disable()`: unless already disabled, book the on-time, switch the relay off. */
  function Disabled(s: BoilerState, now: int): BoilerState {
    if s.isDisabled then s
    else s.(stopTime := now, today := s.today + Elapsed(s, now),
            relay := s.relay + [false], isEnabled := false, isDisabled := true)
  }

  /** `set_new_day()`: today's charge, capped at a full tank, becomes yesterday's. */
  function NewDay(s: BoilerState): BoilerState {
    s.(yesterday := Min(s.today, FULL_CHARGE_TIME_SEC), today := 0)
  }

  /** `reset_counter()`. */
  function CounterReset(s: BoilerState): BoilerState {
    s.(today := 0)
  }

  predicate IsFullyCharged(s: BoilerState) {
    s.today > FULL_CHARGE_TIME_SEC
  }

  predicate IsChargedForOneDay(s: BoilerState) {
    s.today > USAGE_PER_DAY_SEC
  }

  function ChargeTimeOfLastTwoDays(s: BoilerState): int {
    s.today + s.yesterday
  }

  /** Hot water drains at most half a tank per day, so two days' charge must cover one day. */
  predicate IsBoilerChargedEnoughForOneDay(s: BoilerState) {
    ChargeTimeOfLastTwoDays(s) >= USAGE_PER_DAY_SEC
  }

  class Boiler {
    var isEnabled: bool
    var isDisabled: bool
    var startTime: int
    var stopTime: int
    var today: int
    var yesterday: int
    /** The commands sent to the relay so far (`true` = on). */
    var relayCommands: seq<bool>
    /** The ledger as last written to the ledger file. */
    ghost var persisted: Ledger
    /** How many times `SetNewDay` ran. */
    ghost var rollovers: nat

    function State(): BoilerState
      reads this
    {
      BoilerState(isEnabled, isDisabled, startTime, stopTime, today, yesterday, relayCommands)
    }

    function Counters(): Ledger
      reads this
    {
      Ledger(today, yesterday)
    }

    /** The flags are consistent and the ledger file holds the counters in memory. */
    ghost predicate Valid()
      reads this
    {
      Consistent(State()) && persisted == Counters()
    }

    /** Loads the stored ledger, or creates the ledger file with the defaults. */
    constructor (stored: Option<Ledger>)
      ensures Valid()
      ensures State() == Initial(stored)
      ensures rollovers == 0
    {
      var ledger := stored.GetOr(DEFAULT_LEDGER);
      today := ledger.today;
      yesterday := ledger.yesterday;
      isEnabled := false;
      isDisabled := false;
      startTime := 0;
      stopTime := 0;
      relayCommands := [];
      persisted := ledger;
      rollovers := 0;
    }

    /** `write_charge_times_to_tmp_file()`. */
    method WriteChargeTimes()
      modifies this`persisted
      ensures persisted == Counters()
    {
      persisted := Counters();
    }

    method Enable(now: int) returns (changed: bool)
      requires Valid()
      modifies this
      ensures Valid()
      ensures changed == !old(isEnabled)
      ensures State() == Enabled(old(State()), now)
      ensures rollovers == old(rollovers)
    {
      if !isEnabled {
        relayCommands := relayCommands + [true];
        startTime := now;
        isEnabled := true;
        isDisabled := false;
        return true;
      }
      return false;
    }

    method Disable(now: int) returns (changed: bool)
      requires Valid()
      modifies this
      ensures Valid()
      ensures changed == !old(isDisabled)
      ensures State() == Disabled(old(State()), now)
      ensures rollovers == old(rollovers)
    {
      if !isDisabled {
        stopTime := now;
        if startTime != 0 {
          today := today + (stopTime - startTime);
          WriteChargeTimes();
        }
        relayCommands := relayCommands + [false];
        isEnabled := false;
        isDisabled := true;
        return true;
      }
      return false;
    }

    method SetNewDay()
      requires Valid()
      modifies this
      ensures Valid()
      ensures State() == NewDay(old(State()))
      ensures rollovers == old(rollovers) + 1
    {
      yesterday := Min(today, FULL_CHARGE_TIME_SEC);
      today := 0;
      WriteChargeTimes();
      rollovers := rollovers + 1;
    }

    method ResetCounter()
      requires Valid()
      modifies this
      ensures Valid()
      ensures State() == CounterReset(old(State()))
      ensures rollovers == old(rollovers)
    {
      today := 0;
      WriteChargeTimes();
    }
  }

  /** `enable()` on an enabled boiler changes nothing. */
  lemma EnableIsIdempotent(s: BoilerState, first: int, second: int)
    ensures Enabled(Enabled(s, first), second) == Enabled(s, first)
  {
  }

  /** `disable()` on a disabled boiler changes nothing. */
  lemma DisableIsIdempotent(s: BoilerState, first: int, second: int)
    ensures Disabled(Disabled(s, first), second) == Disabled(s, first)
  {
  }

  /** `enable()` never touches the ledger; `disable()` touches only today's counter. */
  lemma SwitchingKeepsYesterday(s: BoilerState, now: int)
    ensures Enabled(s, now).today == s.today && Enabled(s, now).yesterday == s.yesterday
    ensures Disabled(s, now).yesterday == s.yesterday
  {
  }

  /** An enable at `on` followed by a disable at `off` books exactly `off - on` seconds. */
  lemma EnableThenDisableBooksElapsed(s: BoilerState, on: int, off: int)
    requires !s.isEnabled && on != 0
    ensures Disabled(Enabled(s, on), off).today == s.today + (off - on)
    ensures Disabled(Enabled(s, on), off).yesterday == s.yesterday
  {
  }

  /** A disable no earlier than the last enable books a non-negative charge time. */
  lemma DisableBooksNonNegative(s: BoilerState, now: int)
    requires now >= s.startTime
    ensures Disabled(s, now).today >= s.today
  {
  }

  /**
    The charge time comes from the wall clock, so a clock that steps back
    between an enable and a disable makes today's counter negative.
  */
  lemma ClockStepBackBooksNegative()
    ensures Disabled(Enabled(Initial(None), 100), 50).today < 0
  {
  }

  /** A disable before any enable books nothing. */
  lemma DisableBeforeStartBooksNothing(s: BoilerState, now: int)
    requires s.startTime == 0
    ensures Disabled(s, now).today == s.today
  {
  }

  /**
    The rollover caps yesterday at a full tank and clears today, so the morning
    after, the boiler counts as charged enough exactly when the day before
    charged at least one day's usage.
  */
  lemma NewDayCapsYesterday(s: BoilerState)
    ensures NewDay(s).yesterday <= FULL_CHARGE_TIME_SEC
    ensures NewDay(s).yesterday == s.today || (s.today > FULL_CHARGE_TIME_SEC && NewDay(s).yesterday == FULL_CHARGE_TIME_SEC)
    ensures NewDay(s).today == 0
    ensures IsBoilerChargedEnoughForOneDay(NewDay(s)) <==> s.today >= USAGE_PER_DAY_SEC
  {
  }

  /** A full tank is more than one day's usage. */
  lemma FullyChargedIsChargedForOneDay(s: BoilerState)
    ensures IsFullyCharged(s) ==> IsChargedForOneDay(s)
  {
  }

  /** One day's charge today is enough whenever yesterday's counter is not negative. */
  lemma ChargedForOneDayIsEnough(s: BoilerState)
    requires s.yesterday >= 0
    ensures IsChargedForOneDay(s) ==> IsBoilerChargedEnoughForOneDay(s)
  {
  }

  /** With no stored ledger, yesterday counts as a full tank, so no night charge is needed. */
  lemma DefaultLedgerIsEnough()
    ensures IsBoilerChargedEnoughForOneDay(Initial(None))
    ensures !IsChargedForOneDay(Initial(None))
  {
  }

  /** The boiler operations, for reasoning about any sequence of calls. */
  datatype Command = EnableAt(now: int) | DisableAt(now: int) | StartNewDay | ResetToday

  function Apply(s: BoilerState, c: Command): BoilerState {
    match c
    case EnableAt(now) => Enabled(s, now)
    case DisableAt(now) => Disabled(s, now)
    case StartNewDay => NewDay(s)
    case ResetToday => CounterReset(s)
  }

  function ApplyAll(s: BoilerState, cs: seq<Command>): BoilerState
    decreases |cs|
  {
    if cs == [] then s else ApplyAll(Apply(s, cs[0]), cs[1..])
  }

  /**
    Whatever sequence of operations runs, the flags are never both set, and
    once the relay has been switched exactly one of them is.
  */
  lemma {:induction false} CommandsKeepConsistent(s: BoilerState, cs: seq<Command>)
    requires Consistent(s)
    ensures Consistent(ApplyAll(s, cs))
    ensures var t := ApplyAll(s, cs); t.relay != [] ==> t.isEnabled != t.isDisabled
    decreases |cs|
  {
    if cs != [] {
      CommandsKeepConsistent(Apply(s, cs[0]), cs[1..]);
    }
  }

  /**
    Once yesterday's counter is within a full tank, it stays there, whatever
    sequence of operations follows.
  */
  lemma {:induction false} CommandsKeepYesterdayCapped(s: BoilerState, cs: seq<Command>)
    requires s.yesterday <= FULL_CHARGE_TIME_SEC
    ensures ApplyAll(s, cs).yesterday <= FULL_CHARGE_TIME_SEC
    decreases |cs|
  {
    if cs != [] {
      CommandsKeepYesterdayCapped(Apply(s, cs[0]), cs[1..]);
    }
  }

  /** The time a command reads from the wall clock; `clock` for those that read none. */
  function TimeOf(c: Command, clock: int): int {
    match c
    case EnableAt(now) => now
    case DisableAt(now) => now
    case StartNewDay => clock
    case ResetToday => clock
  }

  /** The commands read a wall clock that starts at `clock` and never steps back. */
  predicate ClockNeverStepsBack(clock: int, cs: seq<Command>)
    decreases |cs|
  {
    cs == [] || (TimeOf(cs[0], clock) >= clock && ClockNeverStepsBack(TimeOf(cs[0], clock), cs[1..]))
  }

  /**
    While the wall clock never steps back behind the last enable, both
    counters stay non-negative under any sequence of operations.
  */
  lemma {:induction false} CountersStayNonNegative(s: BoilerState, clock: int, cs: seq<Command>)
    requires s.startTime <= clock && s.today >= 0 && s.yesterday >= 0
    requires ClockNeverStepsBack(clock, cs)
    ensures ApplyAll(s, cs).today >= 0 && ApplyAll(s, cs).yesterday >= 0
    decreases |cs|
  {
    if cs != [] {
      var t := Apply(s, cs[0]);
      assert t.startTime <= TimeOf(cs[0], clock) && t.today >= 0 && t.yesterday >= 0;
      CountersStayNonNegative(t, TimeOf(cs[0], clock), cs[1..]);
    }
  }
}
