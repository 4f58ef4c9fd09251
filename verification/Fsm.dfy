/** The threshold state machine that turns raw probes into a monitor state and alerts
    (sentinel-worker/internal/worker/loop.go, evaluateFSM). */
module Fsm {
  import opened Schema

  datatype Evaluation = Evaluation(state: Option<State>, failures: int, alert: Option<AlertKind>)

  function EffectiveThreshold(threshold: int): nat {
    if threshold <= 0 then 3 else threshold
  }

  function EvaluateFsm(prior: Option<State>, previous: int, probe: State, threshold: int): Evaluation {
    if probe == Healthy then
      Evaluation(Some(Healthy), 0, if prior == Some(Unhealthy) then Some(Recovery) else None)
    else
      var next := (if previous < 0 then 0 else previous) + 1;
      if prior == Some(Unhealthy) then Evaluation(Some(Unhealthy), next, None)
      else if next >= EffectiveThreshold(threshold) then Evaluation(Some(Unhealthy), next, Some(Down))
      else Evaluation(prior, next, None)
  }

  /** Whatever the stored state, the counter and the threshold: an alert is exactly a change of being
      down.  A healthy probe recovers a monitor that is down, and nothing else does; a failing one
      brings down a monitor that is not, at the threshold, and otherwise keeps the state it finds. */
  lemma AlertIsTransition(prior: Option<State>, previous: int, probe: State, threshold: int)
    ensures var e := EvaluateFsm(prior, previous, probe, threshold);
      var limit := if threshold > 0 then threshold else 3;
      && (e.alert == Some(Down) <==> prior != Some(Unhealthy) && e.state == Some(Unhealthy))
      && (e.alert == Some(Recovery) <==> prior == Some(Unhealthy) && e.state != Some(Unhealthy))
      && e.failures == (if probe == Healthy then 0 else if previous > 0 then previous + 1 else 1)
      && (e.alert == Some(Recovery) <==> prior == Some(Unhealthy) && probe == Healthy)
      && (e.alert == Some(Down) <==> prior != Some(Unhealthy) && probe != Healthy && e.failures >= limit)
      && (probe == Healthy ==> e.state == Some(Healthy))
      && (probe != Healthy && (prior == Some(Unhealthy) || e.failures < limit) ==> e.state == prior)
  {
  }

  /** Down, Recovery, Down, ...: the k-th alert is of this kind. */
  predicate InTurn(kind: AlertKind, k: int) { kind == Down <==> k % 2 == 0 }

  // ----- Closed form of a whole probe history -----

  datatype Track = Track(state: Option<State>, failures: int, alerts: seq<AlertKind>)

  const NEW_TRACK := Track(None, 0, [])

  /** One more probe. */
  function Move(t: Track, probe: State, threshold: int): Track {
    var e := EvaluateFsm(t.state, t.failures, probe, threshold);
    Track(e.state, e.failures, if e.alert.Some? then t.alerts + [e.alert.value] else t.alerts)
  }

  /** A monitor's row and alerts after the given probes, all under one threshold. */
  function FoldFrom(start: Track, probes: seq<State>, threshold: int): Track {
    if probes == [] then start
    else Move(FoldFrom(start, probes[..|probes| - 1], threshold), probes[|probes| - 1], threshold)
  }

  /** Those of a new monitor. */
  function Fold(probes: seq<State>, threshold: int): Track { FoldFrom(NEW_TRACK, probes, threshold) }

  /** The length of the run of failing probes that ends the history. */
  function TrailingFailures(probes: seq<State>): (n: nat)
    ensures n <= |probes|
    ensures forall k :: |probes| - n <= k < |probes| ==> probes[k] != Healthy
    ensures n < |probes| ==> probes[|probes| - 1 - n] == Healthy
  {
    if probes == [] || probes[|probes| - 1] == Healthy then 0
    else TrailingFailures(probes[..|probes| - 1]) + 1
  }

  /** A maximal run of failures starts at `a` and is at least `t` long. */
  ghost predicate OutageAt(probes: seq<State>, a: nat, t: nat) {
    && a + t <= |probes|
    && (a == 0 || probes[a - 1] == Healthy)
    && forall k :: a <= k < a + t ==> probes[k] != Healthy
  }

  ghost function Outages(probes: seq<State>, t: nat): set<nat> {
    set a: nat | a <= |probes| && OutageAt(probes, a, t)
  }

  lemma OldOutageStays(probes: seq<State>, probe: State, a: nat, t: nat)
    requires a + t <= |probes| && t > 0
    ensures OutageAt(probes + [probe], a, t) <==> OutageAt(probes, a, t)
  {
    assert forall k :: 0 <= k < |probes| ==> (probes + [probe])[k] == probes[k];
  }

  /** A run that reaches the end starts an outage exactly when it is the trailing run, `t` long. */
  lemma NewOutage(probes: seq<State>, a: nat, t: nat)
    requires a + t == |probes| && t > 0
    ensures OutageAt(probes, a, t) <==> TrailingFailures(probes) == t
  {
    var n := TrailingFailures(probes);
    assert n < t ==> a <= |probes| - 1 - n < a + t;
    assert n > t ==> |probes| - n <= a - 1 < |probes|;
  }

  /** One more probe adds an outage exactly when it makes the trailing run `t` long. */
  lemma OutageGrows(probes: seq<State>, probe: State, a: nat, t: nat)
    requires t > 0
    ensures OutageAt(probes + [probe], a, t) <==>
      OutageAt(probes, a, t) || (TrailingFailures(probes + [probe]) == t && a == |probes| + 1 - t)
  {
    if a + t <= |probes| {
      OldOutageStays(probes, probe, a, t);
    } else if a + t == |probes| + 1 {
      NewOutage(probes + [probe], a, t);
    }
  }

  lemma OutagesGrow(probes: seq<State>, probe: State, t: nat)
    requires t > 0
    ensures |Outages(probes + [probe], t)| ==
      |Outages(probes, t)| + (if TrailingFailures(probes + [probe]) == t then 1 else 0)
  {
    forall a ensures a in Outages(probes + [probe], t) <==>
      a in Outages(probes, t) || (TrailingFailures(probes + [probe]) == t && a == |probes| + 1 - t)
    {
      OutageGrows(probes, probe, a, t);
    }
    if TrailingFailures(probes + [probe]) == t {
      OneMore(Outages(probes, t), Outages(probes + [probe], t), |probes| + 1 - t);
    } else {
      assert Outages(probes + [probe], t) == Outages(probes, t);
    }
  }

  lemma OneMore(few: set<nat>, more: set<nat>, x: nat)
    requires x !in few && forall a :: a in more <==> a in few || a == x
    ensures |more| == |few| + 1
  {
    assert more == few + {x};
  }

  predicate Alternating(alerts: seq<AlertKind>) {
    forall k :: 0 <= k < |alerts| ==> InTurn(alerts[k], k)
  }

  /** A track agrees with a trailing failure run, whether a healthy probe was seen, and the number of outages. */
  ghost predicate Summarizes(track: Track, run: nat, seenHealthy: bool, outages: nat, t: nat) {
    && track.failures == run
    && track.state == (if run >= t then Some(Unhealthy) else if seenHealthy then Some(Healthy) else None)
    && |track.alerts| == 2 * outages - (if run >= t then 1 else 0)
    && Alternating(track.alerts)
  }

  lemma AlternatingMore(alerts: seq<AlertKind>, kind: AlertKind)
    requires Alternating(alerts) && InTurn(kind, |alerts|)
    ensures Alternating(alerts + [kind])
  {
  }

  /** How many alerts one probe adds, as the run and the outages change. */
  lemma AlertStep(track: Track, run: nat, seenHealthy: bool, outages: nat, probe: State, threshold: int)
    requires Summarizes(track, run, seenHealthy, outages, EffectiveThreshold(threshold))
    ensures var e := EvaluateFsm(track.state, track.failures, probe, threshold);
      var t := EffectiveThreshold(threshold);
      if probe == Healthy then e == Evaluation(Some(Healthy), 0, if run >= t then Some(Recovery) else None)
      else
        && e.failures == run + 1
        && e.alert == (if run + 1 == t then Some(Down) else None)
        && e.state == (if run + 1 >= t then Some(Unhealthy) else if seenHealthy then Some(Healthy) else None)
  {
  }

  lemma SummaryStep(track: Track, run: nat, seenHealthy: bool, outages: nat, probe: State, threshold: int)
    requires Summarizes(track, run, seenHealthy, outages, EffectiveThreshold(threshold))
    ensures var t := EffectiveThreshold(threshold);
      var run' := if probe == Healthy then 0 else run + 1;
      Summarizes(Move(track, probe, threshold), run', seenHealthy || probe == Healthy,
                 outages + (if run' == t then 1 else 0), t)
  {
    AlertStep(track, run, seenHealthy, outages, probe, threshold);
    var n := |track.alerts|;
    if run >= EffectiveThreshold(threshold) {
      OddCount(n, outages);
      AlternatingMore(track.alerts, Recovery);
    } else {
      EvenCount(n, outages);
      AlternatingMore(track.alerts, Down);
    }
  }

  lemma OddCount(n: nat, outages: nat)
    requires n == 2 * outages - 1
    ensures n % 2 == 1
  {
  }

  lemma EvenCount(n: nat, outages: nat)
    requires n == 2 * outages
    ensures n % 2 == 0
  {
  }

  lemma HistoryStep(probes: seq<State>, probe: State, threshold: int)
    requires var t := EffectiveThreshold(threshold);
      Summarizes(Fold(probes, threshold), TrailingFailures(probes), Healthy in probes, |Outages(probes, t)|, t)
    ensures var t := EffectiveThreshold(threshold);
      var longer := probes + [probe];
      Summarizes(Fold(longer, threshold), TrailingFailures(longer), Healthy in longer, |Outages(longer, t)|, t)
  {
    var t := EffectiveThreshold(threshold);
    SummaryStep(Fold(probes, threshold), TrailingFailures(probes), Healthy in probes, |Outages(probes, t)|,
      probe, threshold);
    assert (probes + [probe])[..|probes|] == probes;
    OutagesGrow(probes, probe, t);
  }

  /** The whole history in closed form: the counter is the trailing failure run, the state
      depends on that run and on whether a healthy probe was ever seen, and the alerts
      alternate, one Down for each outage and one Recovery for each outage that is over. */
  lemma {:induction false} FsmClosedForm(probes: seq<State>, threshold: int)
    ensures var t := EffectiveThreshold(threshold);
      Summarizes(Fold(probes, threshold), TrailingFailures(probes), Healthy in probes, |Outages(probes, t)|, t)
  {
    if probes == [] {
      assert |Outages(probes, EffectiveThreshold(threshold))| == 0;
    } else {
      FsmClosedForm(probes[..|probes| - 1], threshold);
      HistoryStep(probes[..|probes| - 1], probes[|probes| - 1], threshold);
      assert probes[..|probes| - 1] + [probes[|probes| - 1]] == probes;
    }
  }

  /** Failing probes in a row: a monitor that is down stays so, without an alert; any other keeps its
      state until the counter reaches the threshold, where it goes down with one alert. */
  lemma {:induction false} FailuresInARow(start: Track, probes: seq<State>, threshold: int)
    requires probes != [] && forall k :: 0 <= k < |probes| ==> probes[k] != Healthy
    ensures var t := FoldFrom(start, probes, threshold);
      var limit := if threshold > 0 then threshold else 3;
      && t.failures == (if start.failures > 0 then start.failures else 0) + |probes|
      && (start.state == Some(Unhealthy) || t.failures < limit ==> t.state == start.state && t.alerts == start.alerts)
      && (start.state != Some(Unhealthy) && t.failures >= limit ==>
            t.state == Some(Unhealthy) && t.alerts == start.alerts + [Down])
  {
    var before, last := probes[..|probes| - 1], probes[|probes| - 1];
    if before == [] {
      assert FoldFrom(start, before, threshold) == start;
    } else {
      FailuresInARow(start, before, threshold);
    }
  }
}
