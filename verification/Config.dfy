/** The worker's settings, read from the environment (sentinel-worker/internal/config/config.go).
    Durations are in nanoseconds, and every sum and product that the program computes in 64 bits
    goes through `Wrap`. */
module Config {
  import opened Schema

  const MIN_INT64: int := -0x8000_0000_0000_0000
  const MAX_INT64: int := 0x7fff_ffff_ffff_ffff
  const SECOND: int := 1_000_000_000
  const MINUTE: int := 60 * SECOND

  /** Two's complement wrap-around. */
  function Wrap(x: int): int {
    (x - MIN_INT64) % 0x1_0000_0000_0000_0000 + MIN_INT64
  }

  lemma WrapIsExact(x: int)
    ensures MIN_INT64 <= Wrap(x) <= MAX_INT64
    ensures Wrap(x) == x <==> MIN_INT64 <= x <= MAX_INT64
  {
  }

  /** A variable of the environment.  `Text(None)` is nonempty text that is not a decimal integer. */
  datatype Variable = Unset | Empty | Text(number: Option<int>)

  /** strconv.ParseInt and Atoi: numbers that do not fit in 64 bits are errors. */
  function Parse(v: Variable): Option<int> {
    if v.Text? && v.number.Some? && MIN_INT64 <= v.number.value <= MAX_INT64 then v.number else None
  }

  // ----- Durations: a wrong value falls back -----

  const MAX_DURATION_SECONDS: int := MAX_INT64 / SECOND

  function DurationEnv(v: Variable, fallbackSeconds: int): int {
    var parsed := Parse(v);
    if parsed.Some? && parsed.value > 0 && parsed.value <= MAX_DURATION_SECONDS
    then Wrap(parsed.value * SECOND)
    else Wrap(fallbackSeconds * SECOND)
  }

  /** The seconds that are accepted: a positive number whose nanoseconds fit in 64 bits. */
  ghost predicate Usable(v: Variable) {
    v.Text? && v.number.Some? && 0 < v.number.value && v.number.value * SECOND <= MAX_INT64
  }

  /** Exactly the positive durations that fit are used, exactly; every other text is the fallback. */
  lemma DurationEnvIsExact(v: Variable, fallbackSeconds: int)
    requires 0 < fallbackSeconds <= MAX_DURATION_SECONDS
    ensures DurationEnv(v, fallbackSeconds) ==
      (if Usable(v) then v.number.value * SECOND else fallbackSeconds * SECOND)
    ensures SECOND <= DurationEnv(v, fallbackSeconds) <= MAX_DURATION_SECONDS * SECOND
  {
    WrapIsExact(fallbackSeconds * SECOND);
    if v.Text? && v.number.Some? { WrapIsExact(v.number.value * SECOND); }
  }

  // ----- Bounded numbers: a wrong value is an error -----

  function BoundedPositiveEnv(v: Variable, fallback: int, maximum: int): Option<int> {
    if v == Unset then Some(fallback)
    else
      var parsed := Parse(v);
      if parsed.None? || parsed.value <= 0 || parsed.value > maximum then None else parsed
  }

  /** Set to a number in 1..maximum. */
  predicate InRange(v: Variable, maximum: int) {
    v.Text? && v.number.Some? && 1 <= v.number.value <= maximum
  }

  lemma BoundedPositiveEnvAccepts(v: Variable, fallback: int, maximum: int)
    requires 1 <= fallback <= maximum <= MAX_INT64
    ensures var r := BoundedPositiveEnv(v, fallback, maximum);
      && (r.Some? <==> v == Unset || InRange(v, maximum))
      && (r.Some? ==> 1 <= r.value <= maximum && r.value == if v == Unset then fallback else v.number.value)
  {
  }

  // ----- Load -----

  datatype Environment = Environment(
    concurrency: Variable, failureThreshold: Variable, demoResetMinutes: Variable, dbTimeout: Variable,
    healthDbTimeout: Variable, heartbeatMaxAge: Variable, checkDays: Variable, alertDays: Variable,
    uptimeHours: Variable, retentionMinutes: Variable, batchSize: Variable, retentionTimeout: Variable)

  datatype RetentionSettings = RetentionSettings(
    checkDays: int, alertDays: int, uptimeHours: int, minutes: int, batchSize: int, timeout: int)

  datatype Settings = Settings(
    concurrency: int, failureThreshold: int, demoResetMinutes: int, dbTimeout: int, healthDbTimeout: int,
    heartbeatMaxAge: int, retention: RetentionSettings)

  /** The budget the heartbeat age is derived from, as an unbounded integer. */
  function MinimumAge(dbTimeout: int): int { 4 * dbTimeout + 27 * SECOND }

  /** The largest deadline whose budget fits in 64 bits. */
  const MAX_DB_TIMEOUT: int := (MAX_INT64 - 27 * SECOND) / 4

  /** What the rest of the worker may take for granted. */
  ghost predicate ValidSettings(s: Settings) {
    && 1 <= s.concurrency <= 500 && 1 <= s.failureThreshold <= 100
    && 1 <= s.demoResetMinutes <= MAX_INT64
    && SECOND <= s.dbTimeout <= MAX_DB_TIMEOUT && SECOND <= s.healthDbTimeout <= MAX_INT64
    && MinimumAge(s.dbTimeout) <= s.heartbeatMaxAge < MAX_INT64
    && ValidRetentionSettings(s.retention)
  }

  ghost predicate ValidRetentionSettings(s: RetentionSettings) {
    && 1 <= s.checkDays <= 36500 && 1 <= s.alertDays <= 36500 && 1 <= s.uptimeHours <= 876000
    && s.uptimeHours <= s.checkDays * 24
    && 1 <= s.minutes <= 1440 && 1 <= s.batchSize <= 5000 && SECOND <= s.timeout <= 3600 * SECOND
  }

  ghost predicate Accepted(v: Variable, maximum: int) { v == Unset || InRange(v, maximum) }

  function ValueOr(v: Variable, fallback: int): int {
    if v.Text? && v.number.Some? then v.number.value else fallback
  }

  /** The environments the worker starts with. */
  ghost predicate Startable(env: Environment) {
    Accepted(env.concurrency, 500) && Accepted(env.failureThreshold, 100) && RetentionStartable(env)
  }

  ghost predicate RetentionStartable(env: Environment) {
    && Accepted(env.checkDays, 36500) && Accepted(env.alertDays, 36500) && Accepted(env.uptimeHours, 876000)
    && Accepted(env.retentionMinutes, 1440) && Accepted(env.batchSize, 5000) && Accepted(env.retentionTimeout, 3600)
    && ValueOr(env.uptimeHours, 24) <= ValueOr(env.checkDays, 30) * 24
  }

  ghost function UsableOr(v: Variable, fallback: int): int {
    if Usable(v) then v.number.value * SECOND else fallback
  }

  function Least(a: int, b: int): int { if a < b then a else b }
  function Greatest(a: int, b: int): int { if a < b then b else a }

  predicate IsPositive(v: Variable) { InRange(v, MAX_INT64) }

  /** `s` holds what the environment asks for, after the clamps. */
  ghost predicate Honours(s: Settings, env: Environment) {
    && s.concurrency == ValueOr(env.concurrency, 100) && s.failureThreshold == ValueOr(env.failureThreshold, 3)
    && s.dbTimeout == Least(UsableOr(env.dbTimeout, 10 * SECOND), MAX_DB_TIMEOUT)
    && s.heartbeatMaxAge == Greatest(UsableOr(env.heartbeatMaxAge, 0), MinimumAge(s.dbTimeout))
    && s.healthDbTimeout == UsableOr(env.healthDbTimeout, 5 * SECOND)
    && s.demoResetMinutes == (if IsPositive(env.demoResetMinutes) then env.demoResetMinutes.number.value else 60)
    && HonoursRetention(s.retention, env)
  }

  ghost predicate HonoursRetention(s: RetentionSettings, env: Environment) {
    && s.checkDays == ValueOr(env.checkDays, 30) && s.alertDays == ValueOr(env.alertDays, 90)
    && s.uptimeHours == ValueOr(env.uptimeHours, 24) && s.minutes == ValueOr(env.retentionMinutes, 60)
    && s.batchSize == ValueOr(env.batchSize, 500)
    && s.timeout == ValueOr(env.retentionTimeout, 5) * SECOND
  }

  /** The budget as computed, term by term. */
  function WrappedAge(dbTimeout: int): int {
    Wrap(Wrap(Wrap(Wrap(dbTimeout * 4) + Wrap(15 * SECOND)) + Wrap(2 * SECOND)) + Wrap(10 * SECOND))
  }

  /** The clamp is exact: the sum fits for every clamped deadline, and for none a nanosecond longer. */
  lemma WrappedAgeIsExact(dbTimeout: int)
    requires 0 <= dbTimeout <= MAX_INT64 / 4
    ensures WrappedAge(dbTimeout) == MinimumAge(dbTimeout) <==> dbTimeout <= MAX_DB_TIMEOUT
    ensures dbTimeout <= MAX_DB_TIMEOUT ==> MinimumAge(dbTimeout) < MAX_INT64
  {
    WrapIsExact(dbTimeout * 4);
    WrapIsExact(dbTimeout * 4 + 15 * SECOND);
    WrapIsExact(Wrap(dbTimeout * 4 + 15 * SECOND) + 2 * SECOND);
    WrapIsExact(Wrap(Wrap(dbTimeout * 4 + 15 * SECOND) + 2 * SECOND) + 10 * SECOND);
  }

  /** The two derived durations: nothing wraps, whatever the environment holds. */
  method HeartbeatBudget(env: Environment) returns (dbTimeout: int, heartbeatMaxAge: int)
    ensures dbTimeout == Least(UsableOr(env.dbTimeout, 10 * SECOND), MAX_DB_TIMEOUT) && SECOND <= dbTimeout
    ensures heartbeatMaxAge == Greatest(UsableOr(env.heartbeatMaxAge, 0), MinimumAge(dbTimeout))
    ensures heartbeatMaxAge < MAX_INT64
  {
    DurationEnvIsExact(env.dbTimeout, 10);
    dbTimeout := DurationEnv(env.dbTimeout, 10);
    var maxDbTimeout := Wrap(MAX_INT64 - Wrap(27 * SECOND)) / 4;
    assert maxDbTimeout == MAX_DB_TIMEOUT;
    if dbTimeout > maxDbTimeout {
      dbTimeout := maxDbTimeout;
    }
    var minimumAge := WrappedAge(dbTimeout);
    WrappedAgeIsExact(dbTimeout);
    DurationEnvIsExact(env.heartbeatMaxAge, minimumAge / SECOND);
    heartbeatMaxAge := DurationEnv(env.heartbeatMaxAge, minimumAge / SECOND);
    if heartbeatMaxAge < minimumAge {
      heartbeatMaxAge := minimumAge;
    }
  }

  method LoadRetention(env: Environment) returns (r: Option<RetentionSettings>)
    ensures r.Some? <==> RetentionStartable(env)
    ensures r.Some? ==> ValidRetentionSettings(r.value) && HonoursRetention(r.value, env)
  {
    var ages := LoadAges(env);
    if ages.None? { return None; }
    var (checkDays, alertDays, uptimeHours) := ages.value;
    var minutes := BoundedPositiveEnv(env.retentionMinutes, 60, 1440);
    if minutes.None? { return None; }
    var batchSize := BoundedPositiveEnv(env.batchSize, 500, 5000);
    if batchSize.None? { return None; }
    var timeout := BoundedPositiveEnv(env.retentionTimeout, 5, 3600);
    if timeout.None? { return None; }
    return Some(RetentionSettings(checkDays, alertDays, uptimeHours, minutes.value, batchSize.value,
                                  Wrap(timeout.value * SECOND)));
  }

  /** The kept days and the window, which has to fit in them. */
  method LoadAges(env: Environment) returns (r: Option<(int, int, int)>)
    ensures r.Some? <==>
      && Accepted(env.checkDays, 36500) && Accepted(env.alertDays, 36500) && Accepted(env.uptimeHours, 876000)
      && ValueOr(env.uptimeHours, 24) <= ValueOr(env.checkDays, 30) * 24
    ensures r.Some? ==>
      r.value == (ValueOr(env.checkDays, 30), ValueOr(env.alertDays, 90), ValueOr(env.uptimeHours, 24))
  {
    var checkDays := BoundedPositiveEnv(env.checkDays, 30, 36500);
    if checkDays.None? { return None; }
    var alertDays := BoundedPositiveEnv(env.alertDays, 90, 36500);
    if alertDays.None? { return None; }
    var uptimeHours := BoundedPositiveEnv(env.uptimeHours, 24, 876000);
    if uptimeHours.None? { return None; }
    WrapIsExact(checkDays.value * 24);
    if Wrap(checkDays.value * 24) < uptimeHours.value { return None; }
    return Some((checkDays.value, alertDays.value, uptimeHours.value));
  }

  /** Starts for exactly the startable environments, with valid settings that honour them. */
  method Load(env: Environment) returns (r: Option<Settings>)
    ensures r.Some? <==> Startable(env)
    ensures r.Some? ==> ValidSettings(r.value) && Honours(r.value, env)
  {
    var concurrency := BoundedPositiveEnv(env.concurrency, 100, 500);
    if concurrency.None? { return None; }
    var failureThreshold := BoundedPositiveEnv(env.failureThreshold, 3, 100);
    if failureThreshold.None? { return None; }
    var demoResetMinutes := 60;
    var parsed := Parse(env.demoResetMinutes);
    if parsed.Some? && parsed.value > 0 {
      demoResetMinutes := parsed.value;
    }
    var dbTimeout, heartbeatMaxAge := HeartbeatBudget(env);
    var retention := LoadRetention(env);
    if retention.None? { return None; }
    DurationEnvIsExact(env.healthDbTimeout, 5);
    return Some(Settings(concurrency.value, failureThreshold.value, demoResetMinutes, dbTimeout,
                         DurationEnv(env.healthDbTimeout, 5), heartbeatMaxAge, retention.value));
  }

  // ----- The demo reset interval -----

  const INVERSE: int := 3_749_353_613_647_811
  const COFACTOR: int := 12_195_172

  function ResetInterval(minutes: int): int {
    Wrap((if minutes <= 0 then 60 else minutes) * MINUTE)
  }

  /** The interval is what was asked for exactly when the minutes fit: `Load` lets larger values
      through, and the product then wraps. */
  lemma ResetIntervalFits(minutes: int)
    requires minutes <= MAX_INT64
    ensures ResetInterval(minutes) == (if minutes <= 0 then 60 else minutes) * MINUTE <==>
      minutes <= 153_722_867
  {
    WrapIsExact((if minutes <= 0 then 60 else minutes) * MINUTE);
  }

  /** What is left of a number in 64 bits, unsigned. */
  function LowBits(x: int): int { x % 0x1_0000_0000_0000_0000 }

  lemma PositiveWhenWrapped(x: int)
    ensures Wrap(x) > 0 <==> 0 < LowBits(x) < 0x8000_0000_0000_0000
  {
  }

  /** time.NewTicker panics unless its interval is positive.  Over all 64-bit values that is so
      exactly when the low 64 bits of the product are not zero and their top bit is not set. */
  lemma TickerStarts(minutes: int)
    ensures ResetInterval(minutes) > 0 <==>
      minutes <= 0 || 0 < LowBits(minutes * MINUTE) < 0x8000_0000_0000_0000
  {
    PositiveWhenWrapped((if minutes <= 0 then 60 else minutes) * MINUTE);
  }

  /** A minute is 29296875 * 2^11 nanoseconds, and the odd factor has an inverse modulo 2^53: the
      interval vanishes exactly for the multiples of 2^53 minutes. */
  lemma IntervalVanishes(minutes: int)
    requires 0 < minutes
    ensures ResetInterval(minutes) == 0 <==> minutes % 0x20_0000_0000_0000 == 0
  {
    if ResetInterval(minutes) == 0 {
      ZeroWhenWrapped(minutes * MINUTE);
      Inverse(minutes, minutes * MINUTE / 0x1_0000_0000_0000_0000);
    }
    Multiple(minutes / 0x20_0000_0000_0000);
  }

  lemma ZeroWhenWrapped(x: int)
    requires Wrap(x) == 0
    ensures x == x / 0x1_0000_0000_0000_0000 * 0x1_0000_0000_0000_0000
  {
  }

  lemma Multiple(k: nat)
    ensures k > 0 ==> ResetInterval(k * 0x20_0000_0000_0000) == 0
  {
    WrapMultiple(k * 29_296_875, k * 0x20_0000_0000_0000 * MINUTE);
  }

  lemma WrapMultiple(x: int, product: int)
    requires product == x * 0x1_0000_0000_0000_0000
    ensures Wrap(product) == 0
  {
  }

  lemma Inverse(minutes: int, q: int)
    requires 29_296_875 * minutes == q * 0x20_0000_0000_0000
    ensures minutes % 0x20_0000_0000_0000 == 0
  {
    assert INVERSE * 29_296_875 == COFACTOR * 0x20_0000_0000_0000 + 1;
    assert minutes == (INVERSE * q - COFACTOR * minutes) * 0x20_0000_0000_0000;
  }

  /** The three ways out of range: an interval of 26 seconds, a negative one and none. */
  lemma ResetIntervalWraps()
    ensures ResetInterval(307_445_735) == 26_290_448_384
    ensures ResetInterval(153_722_868) < 0 && ResetInterval(0x20_0000_0000_0000) == 0
  {
  }
}
