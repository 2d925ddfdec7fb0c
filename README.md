# Solar boiler manager, modelled in Dafny

This project models the controller of `solarmanagement.py`. The controller
polls a SolarEdge inverter and its grid meter for production and export
power. By day it switches a boiler relay on when there is surplus solar power
and off when the household draws from the grid. By night it charges the
boiler until the last two days' charge time covers one day. It keeps a ledger
of today's and yesterday's charge time, rolls that ledger over once every
morning, and writes it to a file after every change.

Four modules, one per component:

- `Wrappers` (`wrappers.dfy`): `Option`, standing in for Python's `None`.
- `Energy` (`energy.dfy`): `Energy.read`. The Modbus transport is a sequence
  of per-attempt outcomes (`Attempt`). `Decimal(prod).shift(prod_scale)` is
  modelled digit by digit, as Python's `decimal` module does it under the
  default 28-digit context. `ReadSpec` is what one call returns. The method
  `Read` runs the source's bounded loop and is proved equal to it.
- `Boilers` (`boilers.dfy`): the `Boiler` class. Its fields are the source's
  flags, start and stop times and counters. It also has `relayCommands` (the
  commands sent to the relay, in order) and two ghost fields. `persisted` is
  the ledger as last written to the file. `rollovers` counts calls of
  `SetNewDay`. `Valid()` says the flags are consistent and the file always
  holds the counters in memory. Each method's new state is given by a pure
  function of the old state (`Enabled`, `Disabled`, `NewDay`,
  `CounterReset`). The source's promises are lemmas about those functions.
- `ControlLoop` (`control.dfy`): `is_night`, the day and night branches of
  `main`'s loop, one iteration (`Step`), the exit paths (`Shutdown`) and a
  run over a finite list of polls (`Run`). The hour, the wall clock and the
  transport's answers are parameters. The night-end hour (`lastDayHour`, 23
  as deployed) is a parameter too.

The model follows the code where it differs from the intended design:

- A new boiler has both flags clear, not "disabled". Both flags stay clear
  until the first switch.
- After ten failed attempts, `read` returns the meter value of the last
  attempt whose meter read completed. It does not return `(None, None)`.

## Model

| member | source | states |
|---|---|---|
| `Energy.Shift` | solarmanagement.py:153 | A non-negative shift that keeps every digit multiplies by 10^places. A negative shift drops the low digits, so the result's magnitude is the mantissa's truncated toward zero. The sign is kept, and digits past the 28th are lost. |
| `Energy.ShiftKeepsPrecision` | solarmanagement.py:153 | A left shift never yields more than 28 digits: its magnitude stays below 10^28, whatever the coefficient. |
| `Energy.ShiftRoundTrip` | solarmanagement.py:153 | A left shift that loses no digit is undone by the right shift of the same amount. |
| `Energy.LastMeterReading` | solarmanagement.py:141-149 | It is absent exactly when every attempt was a connection fault. Otherwise it is the meter value of an attempt after which only connection faults followed. |
| `Energy.Read` | solarmanagement.py:139-171 | The loop returns exactly `ReadSpec`: the same production, export and number of `_try_recover` calls. |
| `Energy.ReadRecoversOncePerFailedAttempt` | solarmanagement.py:142-158 | At most ten recoveries happen, each after an attempt that did not complete. Production is present exactly when fewer than ten recoveries were needed, and then that attempt completed and export is present. |
| `Energy.ReadReturnsFirstComplete` | solarmanagement.py:142-158 | If attempt k is the first complete one among the ten, it returns the digit shift of that attempt's mantissa, that attempt's meter value, and k recoveries. |
| `Energy.ReadGivesUpAfterTenFailures` | solarmanagement.py:140-159 | If none of the ten attempts completes, production is absent, ten recoveries were made, and export is the last meter value read (absent if none). |
| `Boilers.Boiler.constructor` | solarmanagement.py:39-53 | It takes the counters from the stored ledger, or 0 and 10800 when there is none, and that ledger is on file. Both flags are clear, both times are 0, and no relay command has been sent. |
| `Boilers.Boiler.WriteChargeTimes` | solarmanagement.py:55-59 | The file holds the current counters. |
| `Boilers.Boiler.Enable` | solarmanagement.py:70-80 | The new state is `Enabled(old state, now)`. Returns true iff the boiler was not enabled. If so, it sends relay ON, sets start_time to now, sets is_enabled and clears is_disabled. Otherwise nothing changes. The counters and the file are untouched. |
| `Boilers.Boiler.Disable` | solarmanagement.py:82-95 | The new state is `Disabled(old state, now)`. Returns true iff the boiler was not disabled. If so, it sets stop_time to now, adds now − start_time to today only when start_time ≠ 0, sends relay OFF and flips the flags. The file matches the counters afterwards. Otherwise nothing changes. |
| `Boilers.Boiler.SetNewDay` | solarmanagement.py:97-102 | The new state is `NewDay(old state)`: yesterday becomes min(today, 10800) and today 0. It writes the file, and leaves flags, times and relay alone. |
| `Boilers.Boiler.ResetCounter` | solarmanagement.py:104-107 | The new state is `CounterReset(old state)`: today becomes 0 and yesterday is kept. It writes the file. |
| `Boilers.EnableIsIdempotent` | solarmanagement.py:70-80 | A second `enable()` changes nothing. |
| `Boilers.DisableIsIdempotent` | solarmanagement.py:82-95 | A second `disable()` changes nothing. |
| `Boilers.SwitchingKeepsYesterday` | solarmanagement.py:70-95 | `enable()` touches neither counter, and `disable()` never touches yesterday. |
| `Boilers.EnableThenDisableBooksElapsed` | solarmanagement.py:76-86 | An enable at time on ≠ 0, then a disable at time off, adds exactly off − on to today. |
| `Boilers.DisableBooksNonNegative` | solarmanagement.py:82-87 | A disable at a time no earlier than start_time never decreases today. |
| `Boilers.ClockStepBackBooksNegative` | solarmanagement.py:76-86 | An enable at 100 followed by a disable at 50 (a wall clock that stepped back) leaves today negative. |
| `Boilers.DisableBeforeStartBooksNothing` | solarmanagement.py:85-87 | A disable with start_time = 0 leaves today unchanged. |
| `Boilers.NewDayCapsYesterday` | solarmanagement.py:97-120 | After the rollover, yesterday ≤ 10800 (equal to today unless today was larger) and today is 0. The boiler then counts as charged enough iff the previous day charged at least 5400 s. |
| `Boilers.IsFullyCharged` | solarmanagement.py:109-110 | Today's charge exceeds 10800 s. |
| `Boilers.IsChargedForOneDay` | solarmanagement.py:112-113 | Today's charge exceeds 5400 s. |
| `Boilers.ChargeTimeOfLastTwoDays` | solarmanagement.py:115-116 | The sum of today's and yesterday's charge. |
| `Boilers.IsBoilerChargedEnoughForOneDay` | solarmanagement.py:118-120 | The last two days' charge is at least 5400 s. |
| `Boilers.FullyChargedIsChargedForOneDay` | solarmanagement.py:109-113 | `is_fully_charged` implies `is_charged_for_one_day`. |
| `Boilers.ChargedForOneDayIsEnough` | solarmanagement.py:112-120 | If yesterday ≥ 0, `is_charged_for_one_day` implies `is_boiler_charged_enough_for_one_day`. |
| `Boilers.DefaultLedgerIsEnough` | solarmanagement.py:43-48 | With the default ledger (today 0, yesterday 10800), the boiler is charged enough for one day, although today's charge is not. |
| `Boilers.CommandsKeepConsistent` | solarmanagement.py:50-107 | After any sequence of enable/disable/rollover/reset calls, the flags are never both set, and exactly one is set once the relay has been switched. |
| `Boilers.CommandsKeepYesterdayCapped` | solarmanagement.py:97-107 | Once yesterday ≤ 10800, it stays ≤ 10800 under any sequence of calls. |
| `Boilers.CountersStayNonNegative` | solarmanagement.py:69-107 | While the wall clock never steps back behind the last enable, today and yesterday stay ≥ 0 under any sequence of calls. |
| `ControlLoop.IsNight` | solarmanagement.py:178-180 | With the night-end hour 23, the night is exactly hours 0–6. With an earlier night-end hour h, the night is 0–6 and every hour after h. |
| `ControlLoop.Regulate` | solarmanagement.py:234-253 | The new state is `Regulation(old state, …)`. It leaves the boiler unchanged on an absent value. Otherwise it enables when prod > 3500 and export > (500 if enabled else 3500), then disables when export ≤ 0. |
| `ControlLoop.ChargeOvernight` | solarmanagement.py:259-267 | The new state is `NightCharge(old state, now)`: it disables if today + yesterday ≥ 5400 and enables otherwise. |
| `ControlLoop.Step` | solarmanagement.py:216-268 | The new state is `StepState(old state, …)` and the new was_night is `is_night()`. By day it rolls over first (exactly once, only after a night), then reads and regulates. By night it reads nothing and charges. |
| `ControlLoop.Shutdown` | solarmanagement.py:270-280 | It disables the boiler (relay OFF last) and writes the file. It returns 0 exactly on user interrupt and 1 otherwise. |
| `ControlLoop.Run` | solarmanagement.py:199-280 | The final state is the shutdown's `Disabled` applied to `RunState`, which applies `StepState` poll by poll with each poll's reading. The rollover count equals the number of night-to-day transitions, starting from the start hour's classification. At the end the boiler is disabled, the file matches, and the exit status is 0 iff the user stopped it. |
| `ControlLoop.RunKeepsConsistent` | solarmanagement.py:211-268 | After any run of polls the flags are never both set, and exactly one is set once the relay has been switched. |
| `ControlLoop.DayChecksExclusive` | solarmanagement.py:247-253 | The enable check and the disable check never both fire in one iteration. |
| `ControlLoop.InvalidReadingChangesNothing` | solarmanagement.py:234-235 | An absent production or export leaves the boiler state unchanged. |
| `ControlLoop.RegulationDecides` | solarmanagement.py:242-253 | By day, a surplus switches the boiler on, grid import (export ≤ 0) switches it off whatever the production, and otherwise it stays as it is. |
| `ControlLoop.HysteresisScenario` | solarmanagement.py:242-253 | From off, 4000 W production with 4000 W export switches on. After that, exports of 1000 W or 300 W keep it on, and an import of 200 W switches it off. |
| `ControlLoop.NightChargeDecides` | solarmanagement.py:259-267 | After a night iteration the boiler is on iff the last two days do not cover 5400 s, and off iff they do. |
| `ControlLoop.FirstDayStepRollsOver` | solarmanagement.py:217-229 | On the first day iteration after a night, yesterday becomes min(today, 10800). On later day iterations, yesterday is kept. |
| `ControlLoop.DaytimeRollsOverAtMostOnce` | solarmanagement.py:217-229 | A run of day polls has exactly one rollover if it follows a night and none otherwise. |

## Left out

- Modbus connection setup, the constructor's ten connect attempts (solarmanagement.py:126-137) and `__del__`: these are I/O. The transport is an oracle of per-attempt outcomes.
- `_try_recover`: its disconnect, sleep and reconnect are I/O, and its own failures are swallowed. The model only counts its calls.
- A meter answer without a `power` key raises a `KeyError` outside the handled exceptions. The model assumes the meter always reports power.
- `Decimal.shift` with a scale outside −28..28 raises `InvalidOperation`. The `Places` type excludes such scales.
- `time.time()` gives fractional seconds. The model uses whole seconds, and `USAGE_PER_DAY_SEC` (the float 5400.0 in the source) is the integer 5400, which compares the same.
- The ledger file is a ghost snapshot (`persisted`). The YAML format, its `version` key and a file with missing keys are not modelled.
- The charge time is a difference of wall-clock readings (solarmanagement.py:76, 84-86). If the clock steps back between an enable and a disable, today's counter goes negative (`ClockStepBackBooksNegative`). The counters are non-negative only while the clock never steps back (`CountersStayNonNegative`).
- Relay calls to the Shelly device always succeed in the model; they are appended to `relayCommands`. An actuator fault, which in the source propagates out of `enable()` or `disable()` halfway, is not modelled.
- Logging, logger setup (solarmanagement.py:184-197) and the raw-reading log with its rotation (solarmanagement.py:284-289) are output only.
- The weather forecast (srf_meteo.py, solarmanagement.py:201-209 and 221-227) is a no-op hook, since it never feeds a decision. One consequence is not modelled. A forecast failure at a day transition runs `except Exception as e` (solarmanagement.py:226), which rebinds and then unbinds the energy reader `e`. The next `e.read()` then raises, and the loop exits with status 1. In the model the loop keeps reading.
- `Run` executes a finite list of polls, then exits for a given reason. Where an interrupt or fault comes from is not modelled, and neither is `time.sleep`.
- The unused enums `SolarStatus` and `BoilerStatus` are dead code.
