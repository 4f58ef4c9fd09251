/** The freshness hint on a monitor: a clock that is sampled now and then must tell the same as the
    real one (frontend/src/features/monitors/useMonitorFreshness.ts, frontend/src/lib/datetime.ts).
    Times are in milliseconds, frequencies in whole seconds. */
module Freshness {
  import opened Schema

  const MAX_CLOCK_UPDATE: int := 30_000

  /** `checkedAt` is None when the monitor was never checked or the date does not parse. */
  datatype Inputs = Inputs(checkedAt: Option<int>, frequency: int, enabled: bool)

  function AtLeast30(frequency: int): int { if frequency > 30 then frequency else 30 }

  /** Older than twice the frequency, which counts as 30 seconds at least. */
  predicate IsEngineStale(i: Inputs, now: int) {
    i.checkedAt.Some? && (now - i.checkedAt.value) as real / 1000.0 > (AtLeast30(i.frequency) * 2) as real
  }

  /** The first millisecond at which the engine is stale. */
  function AgeExpiry(i: Inputs): int
    requires i.checkedAt.Some?
  {
    i.checkedAt.value + AtLeast30(i.frequency) * 2_000 + 1
  }

  lemma StaleFromExpiry(i: Inputs, now: int)
    requires i.checkedAt.Some?
    ensures IsEngineStale(i, now) <==> AgeExpiry(i) <= now
    ensures AgeExpiry(i) == i.checkedAt.value + 2000 * (if i.frequency > 30 then i.frequency else 30) + 1
  {
    var age := now - i.checkedAt.value;
    assert age as real / 1000.0 > (AtLeast30(i.frequency) * 2) as real <==> age > AtLeast30(i.frequency) * 2000;
  }

  /** The flag shown when the clock reads `clock`. */
  predicate Flag(i: Inputs, clock: int) { i.enabled && IsEngineStale(i, clock) }

  /** An enabled hint becomes stale in this millisecond. */
  predicate Expires(i: Inputs, at: int) { i.enabled && i.checkedAt.Some? && at == AgeExpiry(i) }

  /** How long the timer waits that is set at `now`: until the expiry, if that comes first, and 30
      seconds otherwise. */
  function Delay(i: Inputs, now: int): (delay: int)
    ensures 0 < delay <= 30_000
    ensures delay < 30_000 ==> Expires(i, now + delay)
    ensures i.enabled && i.checkedAt.Some? && now < AgeExpiry(i) < now + 30_000 ==> now + delay == AgeExpiry(i)
  {
    if i.enabled && i.checkedAt.Some? && AgeExpiry(i) - now > 0
    then if AgeExpiry(i) - now < MAX_CLOCK_UPDATE then AgeExpiry(i) - now else MAX_CLOCK_UPDATE
    else MAX_CLOCK_UPDATE
  }

  /** The component: the sampled clock, and when the timer set last is due. */
  class Hook {
    var clock: int
    var due: int

    constructor (now: int)
      ensures clock == now
    {
      clock, due := now, now;
    }

    /** The effect: it runs after every render in which an input or the clock changed. */
    method Arm(i: Inputs, now: int)
      modifies this`due
      ensures due == now + Delay(i, now)
    {
      var remaining := if i.checkedAt.Some? then Some(AgeExpiry(i) - now) else None;
      var delay := MAX_CLOCK_UPDATE;
      if i.enabled && remaining.Some? && remaining.value > 0 && remaining.value < delay {
        delay := remaining.value;
      }
      due := now + delay;
    }

    /** The timer. */
    method Fire(now: int)
      modifies this`clock
      ensures clock == now
    {
      clock := now;
    }
  }

  // ----- One render -----

  /** From one render to the next: rendered at `from` with the clock's last sample, the effect run
      at `armed`, and the next render at `until`, when the timer fires or an input changes. */
  datatype Turn = Turn(i: Inputs, clock: int, from: int, armed: int, until: int)

  /** Timers are on time: nothing keeps a render past the due time. */
  predicate OnTime(t: Turn) {
    t.clock <= t.from <= t.armed < t.until <= t.armed + Delay(t.i, t.armed)
  }

  /** The hint expired after the clock was sampled, but before the timer was set. */
  predicate Missed(t: Turn) {
    t.i.enabled && t.i.checkedAt.Some? && t.clock < AgeExpiry(t.i) <= t.armed
  }

  ghost predicate Agrees(t: Turn, now: int) { Flag(t.i, t.clock) <==> Flag(t.i, now) }

  /** While a render stands, the flag tells the truth at every instant if and only if the expiry
      did not slip between the sample and the timer. */
  lemma TurnAgrees(t: Turn)
    requires OnTime(t)
    ensures (forall now :: t.from <= now < t.until ==> Agrees(t, now)) <==> !Missed(t)
  {
    if t.i.checkedAt.Some? {
      StaleFromExpiry(t.i, t.clock);
      forall now | t.from <= now < t.until
        ensures Agrees(t, now) <==> !(t.i.enabled && t.clock < AgeExpiry(t.i) <= now)
      {
        StaleFromExpiry(t.i, now);
      }
      if Missed(t) { assert t.from <= t.armed < t.until && !Agrees(t, t.armed); }
    }
  }

  /** The flag is only ever wrong in one direction, from the expiry to the end of the render. */
  lemma WrongMeansMissed(t: Turn, now: int)
    requires OnTime(t) && t.from <= now < t.until && !Agrees(t, now)
    ensures Missed(t) && !Flag(t.i, t.clock) && Flag(t.i, now)
    ensures AgeExpiry(t.i) <= now < t.armed + MAX_CLOCK_UPDATE
  {
    if t.i.checkedAt.Some? {
      StaleFromExpiry(t.i, t.clock);
      StaleFromExpiry(t.i, now);
    }
  }

  /** However late the timer fires: while nothing was missed, the flag is right until the time the
      timer was set for. */
  lemma LateTimersOnly(t: Turn, now: int)
    requires t.clock <= t.from <= t.armed < t.until && t.from <= now < t.until && !Agrees(t, now)
    ensures !Flag(t.i, t.clock) && (Missed(t) || t.armed + Delay(t.i, t.armed) <= now)
  {
    if t.i.checkedAt.Some? {
      StaleFromExpiry(t.i, t.clock);
      StaleFromExpiry(t.i, now);
    }
  }

  // ----- Runs -----

  /** The timer fired and sampled the clock, or an input changed and the old sample stays. */
  predicate Follows(t: Turn, t': Turn) {
    && t'.from == t.until
    && if t'.i == t.i then t'.clock == t'.from && t.until == t.armed + Delay(t.i, t.armed) else t'.clock == t.clock
  }

  /** The first render samples the clock; after that only the timer does. */
  ghost predicate IsRun(turns: seq<Turn>) {
    && (turns != [] ==> turns[0].clock == turns[0].from)
    && (forall k :: 0 <= k < |turns| ==> OnTime(turns[k]))
    && (forall k :: 0 < k < |turns| ==> Follows(turns[k - 1], turns[k]))
  }

  /** The turn that took the sample shown at turn k: the last one, up to k, before which no input changed. */
  function SampleTurn(turns: seq<Turn>, k: nat): (m: nat)
    requires k < |turns|
    ensures m <= k && (m == 0 || turns[m].i == turns[m - 1].i)
    ensures forall j :: m < j <= k ==> turns[j].i != turns[j - 1].i
  {
    if k == 0 || turns[k].i == turns[k - 1].i then k else SampleTurn(turns, k - 1)
  }

  lemma {:induction false} ShownSample(turns: seq<Turn>, k: nat)
    requires IsRun(turns) && k < |turns|
    ensures turns[k].clock == turns[SampleTurn(turns, k)].from
    ensures turns[SampleTurn(turns, k)].from <= turns[k].from
  {
    if k > 0 {
      assert Follows(turns[k - 1], turns[k]) && OnTime(turns[k - 1]);
      if turns[k].i != turns[k - 1].i { ShownSample(turns, k - 1); }
    }
  }

  /** The component driven through a run: it shows the clock of the last turn, with its timer set. */
  method Render(turns: seq<Turn>) returns (hook: Hook)
    requires IsRun(turns) && turns != []
    ensures fresh(hook)
    ensures var last := turns[|turns| - 1];
      hook.clock == last.clock && hook.due == last.armed + Delay(last.i, last.armed)
  {
    hook := new Hook(turns[0].from);
    hook.Arm(turns[0].i, turns[0].armed);
    for k := 1 to |turns|
      invariant fresh(hook) && hook.clock == turns[k - 1].clock
      invariant hook.due == turns[k - 1].armed + Delay(turns[k - 1].i, turns[k - 1].armed)
    {
      assert Follows(turns[k - 1], turns[k]);
      if turns[k].i == turns[k - 1].i {
        assert turns[k].from == hook.due;
        hook.Fire(hook.due);
      }
      hook.Arm(turns[k].i, turns[k].armed);
    }
  }

  /** The inputs of turn k expire after the last sample was taken and before the timer is set. */
  predicate Slips(turns: seq<Turn>, k: nat)
    requires k < |turns|
  {
    var i := turns[k].i;
    i.enabled && i.checkedAt.Some? && turns[SampleTurn(turns, k)].from < AgeExpiry(i) <= turns[k].armed
  }

  /** Over a whole run, whatever the inputs do: the flag is right at every instant if and only if
      no expiry falls between the last sample, which may be turns ago, and the timer. */
  lemma RunAgrees(turns: seq<Turn>)
    requires IsRun(turns)
    ensures (forall k, now :: 0 <= k < |turns| && turns[k].from <= now < turns[k].until ==> Agrees(turns[k], now))
      <==> (forall k :: 0 <= k < |turns| ==> !Slips(turns, k))
  {
    forall k | 0 <= k < |turns|
      ensures (forall now :: turns[k].from <= now < turns[k].until ==> Agrees(turns[k], now)) <==> !Slips(turns, k)
    {
      ShownSample(turns, k);
      TurnAgrees(turns[k]);
    }
  }

  /** An input change at turn k brings in inputs that have expired already, though not at the last sample. */
  predicate ArrivesExpired(turns: seq<Turn>, k: nat)
    requires k < |turns|
  {
    var i := turns[k].i;
    && k > 0 && i != turns[k - 1].i && i.enabled && i.checkedAt.Some?
    && turns[SampleTurn(turns, k - 1)].from < AgeExpiry(i) <= turns[k].from
  }

  /** When every effect runs in the millisecond of its render, all that can go wrong is an input
      change that arrives expired: the timer alone never misses. */
  lemma PromptEffectsAgree(turns: seq<Turn>)
    requires IsRun(turns) && forall k :: 0 <= k < |turns| ==> turns[k].armed == turns[k].from
    ensures (forall k, now :: 0 <= k < |turns| && turns[k].from <= now < turns[k].until ==> Agrees(turns[k], now))
      <==> (forall k :: 0 <= k < |turns| ==> !ArrivesExpired(turns, k))
  {
    RunAgrees(turns);
    forall k | 0 <= k < |turns| ensures Slips(turns, k) <==> ArrivesExpired(turns, k) {
      PromptTurn(turns, k);
    }
  }

  lemma PromptTurn(turns: seq<Turn>, k: nat)
    requires IsRun(turns) && k < |turns| && turns[k].armed == turns[k].from
    ensures Slips(turns, k) <==> ArrivesExpired(turns, k)
  {
    if k > 0 && turns[k].i != turns[k - 1].i { assert SampleTurn(turns, k) == SampleTurn(turns, k - 1); }
  }

  /** How long the turns from m up to k lasted, one after the other. */
  function Lasted(turns: seq<Turn>, m: nat, k: nat): int
    requires m <= k <= |turns|
  {
    if m == k then 0 else Lasted(turns, m, k - 1) + (turns[k - 1].until - turns[k - 1].from)
  }

  lemma {:induction false} LastedIs(turns: seq<Turn>, m: nat, k: nat)
    requires IsRun(turns) && m < k <= |turns|
    ensures Lasted(turns, m, k) == turns[k - 1].until - turns[m].from
  {
    if m < k - 1 {
      LastedIs(turns, m, k - 1);
      assert Follows(turns[k - 2], turns[k - 1]);
    }
  }

  /** At `now`, within the turn, the clock shown is `bound` behind at least. */
  ghost predicate Lags(t: Turn, now: int, bound: int) { t.from <= now < t.until && now - t.clock >= bound }

  /** The clock comes to lag by `bound` within a turn if and only if the turns since the one that
      sampled it, this one included, last longer.  One turn alone lasts no longer than the latency
      of its effect and 30 seconds: any lag beyond that takes input changes. */
  lemma LagReaches(turns: seq<Turn>, k: nat, bound: nat)
    requires IsRun(turns) && k < |turns|
    ensures var m := SampleTurn(turns, k);
      (exists now :: Lags(turns[k], now, bound)) <==> Lasted(turns, m, k + 1) > bound
    ensures Lasted(turns, k, k + 1) <= turns[k].armed - turns[k].from + MAX_CLOCK_UPDATE
  {
    SinceSample(turns, k);
    OneTurnLasts(turns, k);
    TurnLags(turns[k], bound);
  }

  lemma SinceSample(turns: seq<Turn>, k: nat)
    requires IsRun(turns) && k < |turns|
    ensures Lasted(turns, SampleTurn(turns, k), k + 1) == turns[k].until - turns[k].clock
  {
    ShownSample(turns, k);
    SinceTurn(turns, SampleTurn(turns, k), k);
  }

  lemma SinceTurn(turns: seq<Turn>, m: nat, k: nat)
    requires IsRun(turns) && m <= k < |turns|
    ensures Lasted(turns, m, k + 1) == turns[k].until - turns[m].from
  {
    LastedIs(turns, m, k + 1);
  }

  lemma OneTurnLasts(turns: seq<Turn>, k: nat)
    requires IsRun(turns) && k < |turns|
    ensures OnTime(turns[k]) && Lasted(turns, k, k + 1) <= turns[k].armed - turns[k].from + MAX_CLOCK_UPDATE
  {
    assert Lasted(turns, k, k) == 0;
  }

  lemma TurnLags(t: Turn, bound: nat)
    requires OnTime(t)
    ensures (exists now :: Lags(t, now, bound)) <==> t.until - t.clock > bound
  {
    if t.until - t.clock > bound { assert Lags(t, t.until - 1, bound); }
  }

  /** The clock shows the first sample for the whole run if and only if inputs change at every turn. */
  lemma NeverSampledAgain(turns: seq<Turn>)
    requires IsRun(turns) && turns != []
    ensures (forall k :: 0 <= k < |turns| ==> turns[k].clock == turns[0].from)
      <==> (forall k :: 0 < k < |turns| ==> turns[k].i != turns[k - 1].i)
  {
    forall k | 0 <= k < |turns| ensures turns[k].clock == turns[0].from <==> SampleTurn(turns, k) == 0 {
      ShownSample(turns, k);
      if SampleTurn(turns, k) > 0 { LaterTurn(turns, 0, SampleTurn(turns, k)); }
    }
    assert forall k :: 0 < k < |turns| && turns[k].i == turns[k - 1].i ==> SampleTurn(turns, k) == k;
  }

  lemma {:induction false} LaterTurn(turns: seq<Turn>, j: nat, k: nat)
    requires IsRun(turns) && j < k < |turns|
    ensures turns[j].until <= turns[k].from && turns[j].from < turns[k].from
  {
    assert Follows(turns[k - 1], turns[k]) && OnTime(turns[k - 1]);
    if j < k - 1 { LaterTurn(turns, j, k - 1); }
  }

  ghost predicate FixedInputs(turns: seq<Turn>, i: Inputs) {
    forall k :: 0 <= k < |turns| ==> turns[k].i == i
  }

  lemma {:induction false} ClocksGrow(turns: seq<Turn>, i: Inputs, j: nat, k: nat)
    requires IsRun(turns) && FixedInputs(turns, i) && j < k < |turns|
    ensures turns[j].until <= turns[k].clock
  {
    assert Follows(turns[k - 1], turns[k]);
    if j < k - 1 {
      ClocksGrow(turns, i, j, k - 1);
      assert OnTime(turns[k - 1]);
    }
  }

  /** With fixed inputs the expiry is missed at most once, and made good by the next sample, at
      most 30 seconds after the late effect. */
  lemma MissedAtMostOnce(turns: seq<Turn>, i: Inputs, j: nat, k: nat)
    requires IsRun(turns) && FixedInputs(turns, i) && j < |turns| && Missed(turns[j])
    requires k < |turns| && k != j
    ensures !Missed(turns[k])
    ensures j < k ==> Flag(i, turns[k].clock) && turns[j].until <= turns[j].armed + MAX_CLOCK_UPDATE
  {
    StaleFromExpiry(i, turns[k].clock);
    if j < k {
      ClocksGrow(turns, i, j, k);
      assert OnTime(turns[j]);
    } else {
      ClocksGrow(turns, i, k, j);
      assert OnTime(turns[k]);
    }
  }

  // ----- What goes wrong -----

  /** One millisecond between sample and effect is enough to show a stale monitor as fresh for 30 seconds. */
  lemma OneMillisecondMisses()
    ensures var t := Turn(Inputs(Some(0), 60, true), 120_000, 120_000, 120_001, 150_001);
      && OnTime(t) && Missed(t)
      && forall now :: 120_001 <= now < 150_001 ==> !Flag(t.i, t.clock) && Flag(t.i, now)
  {
    var i := Inputs(Some(0), 60, true);
    StaleFromExpiry(i, 120_000);
    assert AgeExpiry(i) == 120_001 && !Flag(i, 120_000);
    forall now | 120_001 <= now < 150_001 ensures Flag(i, now) {
      StaleFromExpiry(i, now);
    }
  }

  /** Inputs that change more often than the timer fires reset it every time: the clock then stands
      still for as long as they do. */
  function Standing(n: nat): seq<Turn> {
    seq(n, k requires 0 <= k => Turn(Inputs(Some(k * 20_000), 60, true), 0, k * 20_000, k * 20_000, (k + 1) * 20_000))
  }

  lemma ClockCanStandStill(n: nat)
    requires n > 0
    ensures IsRun(Standing(n)) && Standing(n)[n - 1].until - Standing(n)[n - 1].clock == n * 20_000
  {
    forall k | 0 <= k < n ensures OnTime(Standing(n)[k]) {
      var i := Inputs(Some(k * 20_000), 60, true);
      assert AgeExpiry(i) == k * 20_000 + 120_001;
    }
  }
}
