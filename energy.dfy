/**
  The energy reader: one call polls the SolarEdge inverter and its grid meter
  for the current production and export power, retrying up to ten times and
  reconnecting after every failed attempt.

  The Modbus transport is not modelled; it is an oracle that gives, for each
  attempt in turn, what that attempt observed (an `Attempt`).
*/
module Energy {
  import opened Wrappers

  /** Attempts made by one `Read` before it gives up. */
  const MAX_READ_ATTEMPTS: nat := 10

  /** Digits of precision of Python's default decimal context. */
  const DECIMAL_PRECISION: int := 28

  /** 10^28: coefficients of the default context stay below it. */
  const DECIMAL_LIMIT: nat := 10_000_000_000_000_000_000_000_000_000

  /** Shift amounts `Decimal.shift` accepts under the default context. */
  type Places = p: int | -DECIMAL_PRECISION <= p <= DECIMAL_PRECISION

  /** What one read attempt observed. */
  datatype Attempt =
      /** The inverter or the meter read raised a connection fault. */
    | ConnectionFault
      /** Both reads completed, but the inverter data lacked `power_ac` or `power_ac_scale`. */
    | MissingKeys(meterPower: int)
      /** Both reads completed with the inverter's mantissa and scale present. */
    | Complete(powerAc: int, powerAcScale: Places, meterPower: int)

  /** What `Read` hands back: production and export power (absent = `None`) and how often it recovered. */
  datatype Reading = Reading(production: Option<int>, exported: Option<int>, recoveries: nat)

  function Pow10(n: nat): (r: nat)
    ensures r >= 1
  {
    if n == 0 then 1 else 10 * Pow10(n - 1)
  }

  /** `DECIMAL_LIMIT` is ten to the precision. */
  lemma DecimalLimitIsPow10()
    ensures Pow10(DECIMAL_PRECISION) == DECIMAL_LIMIT
  {
    assert Pow10(7) == 10_000_000;
    Pow10Add(7, 7);
    Pow10Add(14, 14);
  }

  lemma {:induction false} Pow10Add(a: nat, b: nat)
    ensures Pow10(a + b) == Pow10(a) * Pow10(b)
  {
    if a > 0 {
      Pow10Add(a - 1, b);
    }
  }

  function Abs(x: int): nat {
    if x < 0 then -x else x
  }

  /**
    `Decimal(coefficient).shift(places)`: the digits of the coefficient move
    left (zeros come in at the right, digits beyond the 28th are lost) or right
    (the low digits are dropped, which truncates toward zero). The sign is kept
    and the exponent stays 0, so the result is an integer.
  */
  function Shift(coefficient: int, places: Places): (r: int)
    ensures 0 <= places && Abs(coefficient) * Pow10(places) < DECIMAL_LIMIT
            ==> r == coefficient * Pow10(places)
    ensures 0 <= places ==> Abs(r) < DECIMAL_LIMIT
    ensures places < 0 && Abs(coefficient) < DECIMAL_LIMIT
            ==> Abs(r) * Pow10(-places) <= Abs(coefficient) < (Abs(r) + 1) * Pow10(-places)
    ensures coefficient >= 0 ==> r >= 0
    ensures coefficient <= 0 ==> r <= 0
  {
    // the coefficient is first cut to the context's precision
    var digits := Remainder(Abs(coefficient), DECIMAL_LIMIT);
    var factor := Pow10(Abs(places));
    var magnitude := if places >= 0 then AppendZeros(digits, factor, DECIMAL_LIMIT)
                     else Quotient(digits, factor);
    NoGrowthWithinLimit(Abs(coefficient), factor, DECIMAL_LIMIT);
    SignedProduct(coefficient, factor);
    WithSign(coefficient, magnitude)
  }

  /** `magnitude` with the sign of `coefficient`. */
  function WithSign(coefficient: int, magnitude: nat): (r: int)
    ensures Abs(r) == magnitude
    ensures coefficient >= 0 ==> r >= 0
    ensures coefficient < 0 ==> r <= 0
  {
    if coefficient < 0 then -(magnitude as int) else magnitude
  }

  lemma SignedProduct(x: int, p: nat)
    ensures WithSign(x, Abs(x) * p) == x * p
  {
    if x < 0 {
      assert x * p == -((-x) * p);
    }
  }

  /** `n % d`, which is `n` itself below `d`. */
  function Remainder(n: nat, d: nat): (m: nat)
    requires d >= 1
    ensures m < d
    ensures n < d ==> m == n
  {
    n % d
  }

  /** `n / d`: `n` with the low digits dropped when `d` is a power of ten. */
  function Quotient(n: nat, d: nat): (q: nat)
    requires d >= 1
    ensures q * d <= n < (q + 1) * d
  {
    var q, m := n / d, n % d;
    assert n == q * d + m && 0 <= m < d;
    assert (q + 1) * d == q * d + d;
    q
  }

  /** `digits * factor` cut below `limit`. */
  function AppendZeros(digits: nat, factor: nat, limit: nat): (m: nat)
    requires limit >= 1
    ensures m < limit
    ensures digits * factor < limit ==> m == digits * factor
  {
    (digits * factor) % limit
  }

  lemma NoGrowthWithinLimit(n: nat, factor: nat, limit: nat)
    requires factor >= 1
    ensures n * factor < limit ==> n < limit
  {
    assert n * 1 <= n * factor;
  }

  /** A left shift that loses no digit is undone by the right shift of the same amount. */
  lemma {:induction false} ShiftRoundTrip(coefficient: int, places: Places)
    requires 0 <= places
    requires Abs(coefficient) * Pow10(places) < DECIMAL_LIMIT
    ensures Shift(Shift(coefficient, places), -places) == coefficient
  {
    var p := Pow10(places);
    var shifted := Shift(coefficient, places);
    AbsOfProduct(coefficient, p);
    NoGrowthWithinLimit(Abs(coefficient), p, Abs(shifted) + 1);
    var back := Shift(shifted, -places);
    ScaledBoundsDetermine(Abs(back), Abs(coefficient), p);
  }

  /** A left shift keeps at most `DECIMAL_PRECISION` digits, whatever it is given. */
  lemma ShiftKeepsPrecision(coefficient: int, places: Places)
    requires 0 <= places
    ensures Abs(Shift(coefficient, places)) < Pow10(DECIMAL_PRECISION)
  {
    DecimalLimitIsPow10();
  }

  lemma AbsOfProduct(x: int, p: nat)
    ensures Abs(x * p) == Abs(x) * p
  {
    if x < 0 {
      assert x * p == -((-x) * p);
    }
  }

  lemma ScaledBoundsDetermine(a: nat, b: nat, p: nat)
    requires p >= 1
    requires a * p <= b * p < (a + 1) * p
    ensures a == b
  {
  }

  /** The meter value an attempt left in `export_w`, if its meter read completed. */
  function MeterReading(a: Attempt): Option<int> {
    match a
    case ConnectionFault => None
    case MissingKeys(w) => Some(w)
    case Complete(_, _, w) => Some(w)
  }

  /** The meter value of the last attempt whose meter read completed. */
  function LastMeterReading(attempts: seq<Attempt>): (r: Option<int>)
    ensures r.None? <==> forall k :: 0 <= k < |attempts| ==> attempts[k].ConnectionFault?
    ensures r.Some? ==> exists k :: 0 <= k < |attempts| && MeterReading(attempts[k]) == r
                           && forall j :: k < j < |attempts| ==> attempts[j].ConnectionFault?
  {
    if attempts == [] then None
    else
      var last := attempts[|attempts| - 1];
      if !last.ConnectionFault? then MeterReading(last)
      else LastMeterReading(attempts[..|attempts| - 1])
  }

  /**
    What `Read` returns once `attempt` attempts have failed (each followed by
    one recovery) and `exported` holds the meter value read so far.
  */
  function ReadFrom(transport: seq<Attempt>, attempt: nat, exported: Option<int>): Reading
    requires |transport| >= MAX_READ_ATTEMPTS && attempt <= MAX_READ_ATTEMPTS
    decreases MAX_READ_ATTEMPTS - attempt
  {
    if attempt == MAX_READ_ATTEMPTS then Reading(None, exported, attempt)
    else
      var outcome := transport[attempt];
      if outcome.Complete? then
        Reading(Some(Shift(outcome.powerAc, outcome.powerAcScale)), Some(outcome.meterPower), attempt)
      else
        // a connection fault keeps the meter value read so far
        ReadFrom(transport, attempt + 1, if outcome.MissingKeys? then Some(outcome.meterPower) else exported)
  }

  /** The reading one call of `Read` produces on `transport`. */
  function ReadSpec(transport: seq<Attempt>): Reading
    requires |transport| >= MAX_READ_ATTEMPTS
  {
    ReadFrom(transport, 0, None)
  }

  /**
    `Energy.read`: up to ten attempts; after a connection fault or missing
    inverter keys it recovers (disconnect, wait, reconnect — here only counted)
    and tries again; the first complete attempt is returned.
  */
  method Read(transport: seq<Attempt>) returns (production: Option<int>, exported: Option<int>, recoveries: nat)
    requires |transport| >= MAX_READ_ATTEMPTS
    ensures Reading(production, exported, recoveries) == ReadSpec(transport)
  {
    production, exported, recoveries := None, None, 0;
    for attempt := 0 to MAX_READ_ATTEMPTS
      invariant recoveries == attempt
      invariant production.None?
      invariant ReadFrom(transport, attempt, exported) == ReadSpec(transport)
    {
      var outcome := transport[attempt];
      if outcome.ConnectionFault? {
        recoveries := recoveries + 1;  // _try_recover()
        continue;
      }
      exported := Some(outcome.meterPower);
      if outcome.MissingKeys? {
        recoveries := recoveries + 1;  // _try_recover()
        continue;
      }
      production := Some(Shift(outcome.powerAc, outcome.powerAcScale));
      return;
    }
  }

  /**
    Every recovery follows a failed attempt, there are at most ten, and
    production is present exactly when an attempt completed.
  */
  lemma {:induction false} ReadRecoversOncePerFailedAttempt(transport: seq<Attempt>)
    requires |transport| >= MAX_READ_ATTEMPTS
    ensures var r := ReadSpec(transport);
            && r.recoveries <= MAX_READ_ATTEMPTS
            && (forall j :: 0 <= j < r.recoveries ==> !transport[j].Complete?)
            && (r.production.Some? <==> r.recoveries < MAX_READ_ATTEMPTS)
            && (r.production.Some? ==> transport[r.recoveries].Complete? && r.exported.Some?)
  {
    ReadFromRecovers(transport, 0, None);
  }

  lemma {:induction false} ReadFromRecovers(transport: seq<Attempt>, attempt: nat, exported: Option<int>)
    requires |transport| >= MAX_READ_ATTEMPTS && attempt <= MAX_READ_ATTEMPTS
    requires forall j :: 0 <= j < attempt ==> !transport[j].Complete?
    ensures var r := ReadFrom(transport, attempt, exported);
            && attempt <= r.recoveries <= MAX_READ_ATTEMPTS
            && (forall j :: 0 <= j < r.recoveries ==> !transport[j].Complete?)
            && (r.production.Some? <==> r.recoveries < MAX_READ_ATTEMPTS)
            && (r.production.Some? ==> transport[r.recoveries].Complete? && r.exported.Some?)
    decreases MAX_READ_ATTEMPTS - attempt
  {
    if attempt < MAX_READ_ATTEMPTS && !transport[attempt].Complete? {
      var next := if transport[attempt].MissingKeys? then Some(transport[attempt].meterPower) else exported;
      ReadFromRecovers(transport, attempt + 1, next);
    }
  }

  /** The first complete attempt among the ten is the one returned. */
  lemma {:induction false} ReadReturnsFirstComplete(transport: seq<Attempt>, k: nat)
    requires |transport| >= MAX_READ_ATTEMPTS && k < MAX_READ_ATTEMPTS
    requires transport[k].Complete?
    requires forall j :: 0 <= j < k ==> !transport[j].Complete?
    ensures ReadSpec(transport)
            == Reading(Some(Shift(transport[k].powerAc, transport[k].powerAcScale)), Some(transport[k].meterPower), k)
  {
    ReadFromReachesComplete(transport, 0, None, k);
  }

  lemma {:induction false} ReadFromReachesComplete(transport: seq<Attempt>, attempt: nat, exported: Option<int>, k: nat)
    requires |transport| >= MAX_READ_ATTEMPTS && attempt <= k < MAX_READ_ATTEMPTS
    requires transport[k].Complete?
    requires forall j :: attempt <= j < k ==> !transport[j].Complete?
    ensures ReadFrom(transport, attempt, exported)
            == Reading(Some(Shift(transport[k].powerAc, transport[k].powerAcScale)), Some(transport[k].meterPower), k)
    decreases k - attempt
  {
    if attempt < k {
      var next := if transport[attempt].MissingKeys? then Some(transport[attempt].meterPower) else exported;
      ReadFromReachesComplete(transport, attempt + 1, next, k);
    }
  }

  /**
    When none of the ten attempts completes, production is absent, ten
    recoveries were made, and exported is the meter value of the last attempt
    whose meter read completed (absent if there was none).
  */
  lemma {:induction false} ReadGivesUpAfterTenFailures(transport: seq<Attempt>)
    requires |transport| >= MAX_READ_ATTEMPTS
    requires forall j :: 0 <= j < MAX_READ_ATTEMPTS ==> !transport[j].Complete?
    ensures ReadSpec(transport)
            == Reading(None, LastMeterReading(transport[..MAX_READ_ATTEMPTS]), MAX_READ_ATTEMPTS)
  {
    assert transport[..0] == [];
    ReadFromGivesUp(transport, 0);
  }

  lemma {:induction false} ReadFromGivesUp(transport: seq<Attempt>, attempt: nat)
    requires |transport| >= MAX_READ_ATTEMPTS && attempt <= MAX_READ_ATTEMPTS
    requires forall j :: attempt <= j < MAX_READ_ATTEMPTS ==> !transport[j].Complete?
    ensures ReadFrom(transport, attempt, LastMeterReading(transport[..attempt]))
            == Reading(None, LastMeterReading(transport[..MAX_READ_ATTEMPTS]), MAX_READ_ATTEMPTS)
    decreases MAX_READ_ATTEMPTS - attempt
  {
    if attempt < MAX_READ_ATTEMPTS {
      assert transport[..attempt + 1][..attempt] == transport[..attempt];
      ReadFromGivesUp(transport, attempt + 1);
    }
  }
}
