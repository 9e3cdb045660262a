/** The per-endpoint alert state machine of the worker (worker/worker.py,
    lines 94-137) as a pure function, and its behaviour over a stream of
    check results for one endpoint. Persisting its outcome is in `Worker`. */
module AlertMachine {
  import opened Common
  import opened Probe
  import opened Messages

  /** The alert state the worker reads: the running count of consecutive
      down results and whether an unresolved alert exists. */
  datatype AlertState = AlertState(failures: int, active: bool)

  /** Per-endpoint configuration. Neither threshold is validated anywhere,
      so any integer is possible. */
  datatype Thresholds = Thresholds(latencyMs: int, consecutiveFails: int)

  datatype AlertKind = DownAlert | LatencyAlert

  /** A raised alert: its kind, what its text says, and the latency for
      latency alerts. The text itself is `Render(message)`. */
  datatype Alert = Alert(kind: AlertKind, message: AlertMessage, value: Option<int>)

  /** What one check does to the state, and the alert it raises if any.
      Being an Option, at most one alert is raised per check. */
  datatype Outcome = Outcome(failures: int, active: bool, alert: Option<Alert>) {
    function State(): AlertState {
      AlertState(failures, active)
    }
  }

  /** A check result that ends an incident: up, with latency unknown or
      within the threshold. */
  predicate Recovers(r: CheckResult, t: Thresholds) {
    r.status == Up && (r.latencyMs.None? || r.latencyMs.value <= t.latencyMs)
  }

  predicate RaisesKind(o: Outcome, k: AlertKind) {
    o.alert.Some? && o.alert.value.kind == k
  }

  /** One step of the state machine. The two raise cases are evaluated one
      after the other, the latency case last, then the recovery case may
      switch the alert off again. */
  function Transition(s: AlertState, r: CheckResult, t: Thresholds): (o: Outcome)
    ensures o.failures == (if r.status == Down then s.failures + 1 else 0)
    ensures RaisesKind(o, DownAlert)
        <==> r.status == Down && s.failures + 1 >= t.consecutiveFails && !s.active
    ensures RaisesKind(o, LatencyAlert)
        <==> r.status == Up && r.latencyMs.Some? && r.latencyMs.value > t.latencyMs && !s.active
    ensures RaisesKind(o, DownAlert)
        ==> o.alert.value.value.None? && o.alert.value.message == DownFor(o.failures)
    ensures RaisesKind(o, LatencyAlert)
        ==> o.alert.value.value == r.latencyMs
            && o.alert.value.message == LatencyExceeded(r.latencyMs.value, t.latencyMs)
    ensures s.active ==> o.alert.None?
    ensures o.active <==> o.alert.Some? || (s.active && !Recovers(r, t))
  {
    var newFailures := if r.status == Down then s.failures + 1 else 0;
    var raiseDown := r.status == Down && newFailures >= t.consecutiveFails && !s.active;
    var raiseLatency :=
      r.status == Up && r.latencyMs.Some? && r.latencyMs.value > t.latencyMs && !s.active;
    var downAlert :=
      if raiseDown then Some(Alert(DownAlert, DownFor(newFailures), None)) else None;
    var alert :=
      if raiseLatency then
        Some(Alert(LatencyAlert, LatencyExceeded(r.latencyMs.value, t.latencyMs), r.latencyMs))
      else downAlert;
    var raisedActive := if raiseDown || raiseLatency then true else s.active;
    var active :=
      if s.active && r.status == Up
         && (r.latencyMs.None? || r.latencyMs.value <= t.latencyMs) && newFailures == 0
      then false
      else raisedActive;
    Outcome(newFailures, active, alert)
  }

  function AlertList(a: Option<Alert>): seq<Alert> {
    match a
    case None => []
    case Some(x) => [x]
  }

  /** Feeds check results to one endpoint in arrival order, starting from
      state `s`; yields the final state and the alerts raised, in order. */
  function Replay(s: AlertState, rs: seq<CheckResult>, t: Thresholds): (AlertState, seq<Alert>)
    decreases |rs|
  {
    if |rs| == 0 then (s, [])
    else
      var before := Replay(s, rs[..|rs| - 1], t);
      var o := Transition(before.0, rs[|rs| - 1], t);
      (o.State(), before.1 + AlertList(o.alert))
  }

  /** The number of `down` results at the end of `rs`, after its last `up`. */
  function TrailingDowns(rs: seq<CheckResult>): (n: nat)
    ensures n <= |rs|
  {
    if |rs| == 0 || rs[|rs| - 1].status != Down then 0 else 1 + TrailingDowns(rs[..|rs| - 1])
  }

  /** How many results of `rs`, replayed from `s`, clear an active alert:
      a recovering result that arrives while the alert is active. A
      recovering result while healthy ends no incident and is not counted. */
  function ClearCount(s: AlertState, rs: seq<CheckResult>, t: Thresholds): (n: nat)
    ensures n <= |rs|
    decreases |rs|
  {
    if |rs| == 0 then 0
    else
      var before := Replay(s, rs[..|rs| - 1], t).0;
      ClearCount(s, rs[..|rs| - 1], t) + (if before.active && Recovers(rs[|rs| - 1], t) then 1 else 0)
  }

  /** The failure counter is the number of trailing `down` results; only
      when every result was down does the starting count still show. */
  lemma {:induction false} FailuresCountTrailingDowns(s: AlertState, rs: seq<CheckResult>, t: Thresholds)
    ensures Replay(s, rs, t).0.failures
         == if TrailingDowns(rs) == |rs| then s.failures + |rs| else TrailingDowns(rs)
  {
    if |rs| > 0 {
      FailuresCountTrailingDowns(s, rs[..|rs| - 1], t);
    }
  }

  /** From a zero count (a fresh endpoint, or a missing count read as 0),
      the counter is exactly the number of trailing `down` results. */
  lemma {:induction false} FailuresFromZero(active: bool, rs: seq<CheckResult>, t: Thresholds)
    ensures Replay(AlertState(0, active), rs, t).0.failures == TrailingDowns(rs)
  {
    FailuresCountTrailingDowns(AlertState(0, active), rs, t);
  }

  /** `Replay` with a configuration per check: `ts[i]` is the thresholds
      in force when `rs[i]` is decided, since the owner may change them
      between two checks. */
  function ReplayUnder(s: AlertState, rs: seq<CheckResult>, ts: seq<Thresholds>): (AlertState, seq<Alert>)
    requires |ts| == |rs|
    decreases |rs|
  {
    if |rs| == 0 then (s, [])
    else
      var before := ReplayUnder(s, rs[..|rs| - 1], ts[..|rs| - 1]);
      var o := Transition(before.0, rs[|rs| - 1], ts[|rs| - 1]);
      (o.State(), before.1 + AlertList(o.alert))
  }

  /** Under one configuration throughout, `ReplayUnder` is `Replay`. */
  lemma {:induction false} ReplayUnderFixed(s: AlertState, rs: seq<CheckResult>, t: Thresholds)
    ensures ReplayUnder(s, rs, seq(|rs|, _ => t)) == Replay(s, rs, t)
  {
    if |rs| > 0 {
      ReplayUnderFixed(s, rs[..|rs| - 1], t);
      assert seq(|rs|, _ => t)[..|rs| - 1] == seq(|rs| - 1, _ => t);
    }
  }

  /** The counter never looks at the thresholds: whatever configurations
      are in force, it is the count `Replay` reaches under any fixed one. */
  lemma {:induction false} FailuresIgnoreThresholds(s: AlertState, rs: seq<CheckResult>, ts: seq<Thresholds>, t: Thresholds)
    requires |ts| == |rs|
    ensures ReplayUnder(s, rs, ts).0.failures == Replay(s, rs, t).0.failures
  {
    if |rs| > 0 {
      FailuresIgnoreThresholds(s, rs[..|rs| - 1], ts[..|rs| - 1], t);
    }
  }

  /** While an alert is active and no result recovers, the alert stays
      active and nothing further is raised, however many checks arrive. */
  lemma {:induction false} SilentWhileAlerting(s: AlertState, rs: seq<CheckResult>, t: Thresholds)
    requires s.active
    requires forall i :: 0 <= i < |rs| ==> !Recovers(rs[i], t)
    ensures Replay(s, rs, t).0.active
    ensures Replay(s, rs, t).1 == []
  {
    if |rs| > 0 {
      SilentWhileAlerting(s, rs[..|rs| - 1], t);
    }
  }

  /** One event per incident: incidents open with an alert and close with a
      clear, strictly alternating. The alerts raised plus one for ending
      healthy equal the clears plus one for starting healthy, so between
      two alerts there is always a clear. */
  lemma {:induction false} OneEventPerIncident(s: AlertState, rs: seq<CheckResult>, t: Thresholds)
    ensures |Replay(s, rs, t).1| + (if Replay(s, rs, t).0.active then 0 else 1)
         == ClearCount(s, rs, t) + (if s.active then 0 else 1)
  {
    if |rs| > 0 {
      OneEventPerIncident(s, rs[..|rs| - 1], t);
    }
  }

  /** A sustained outage from a healthy state that has not yet reached the
      threshold raises exactly one `down` alert, on the check that reaches it. */
  lemma {:induction false} SustainedOutageRaisesOnce(f: int, rs: seq<CheckResult>, t: Thresholds)
    requires f < t.consecutiveFails
    requires forall i :: 0 <= i < |rs| ==> rs[i].status == Down
    ensures Replay(AlertState(f, false), rs, t).0.failures == f + |rs|
    ensures Replay(AlertState(f, false), rs, t).0.active <==> f + |rs| >= t.consecutiveFails
    ensures |Replay(AlertState(f, false), rs, t).1| == if f + |rs| >= t.consecutiveFails then 1 else 0
    ensures forall a :: a in Replay(AlertState(f, false), rs, t).1 ==> a.kind == DownAlert
  {
    if |rs| > 0 {
      SustainedOutageRaisesOnce(f, rs[..|rs| - 1], t);
    }
  }

  /** Three `down` checks against a threshold of 3 raise one `down` alert,
      on the third check, and leave the counter at 3. */
  lemma ThreeDownsRaiseOnce(latencyThreshold: int)
    ensures var t := Thresholds(latencyThreshold, 3);
            var down := CheckResult(None, Down);
            && Replay(AlertState(0, false), [down, down], t).1 == []
            && Replay(AlertState(0, false), [down, down, down], t).0 == AlertState(3, true)
            && |Replay(AlertState(0, false), [down, down, down], t).1| == 1
            && Replay(AlertState(0, false), [down, down, down], t).1[0].kind == DownAlert
  {
    var t := Thresholds(latencyThreshold, 3);
    var down := CheckResult(None, Down);
    SustainedOutageRaisesOnce(0, [down, down], t);
    SustainedOutageRaisesOnce(0, [down, down, down], t);
    assert Replay(AlertState(0, false), [down, down, down], t).1[0]
        in Replay(AlertState(0, false), [down, down, down], t).1;
  }

  /** A single slow `up` check while healthy raises one latency alert whose
      value is the latency. */
  lemma SlowCheckRaisesLatency()
    ensures var o := Transition(AlertState(0, false), CheckResult(Some(250), Up), Thresholds(200, 3));
            o.alert.Some? && o.alert.value.kind == LatencyAlert && o.alert.value.value == Some(250) && o.active
  {
  }

  /** A fast `up` check clears an active alert and resets the counter,
      raising nothing. */
  lemma FastCheckClears()
    ensures Transition(AlertState(4, true), CheckResult(Some(50), Up), Thresholds(200, 3))
         == Outcome(0, false, None)
  {
  }
}
