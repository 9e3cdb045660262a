/** The life of one endpoint row across many transactions: each sweep
    records a check (worker/worker.py, lines 178-195), and between sweeps
    the owner may set a new alert configuration (backend/app/main.py,
    lines 679-712). The lemmas say what the stored alert state is after any
    such history. */
module History {
  import opened Common
  import opened Probe
  import opened AlertMachine
  import opened Storage
  import opened Worker
  import opened Api

  /** One transaction that touches the row: a sweep records `result` at
      time `at`, or the owner sets the thresholds to `config`. */
  datatype RowEvent = Checked(result: CheckResult, at: int) | Reconfigured(config: Thresholds)

  /** The stored row after the events `hs`, each applied to the row the
      previous one left. */
  function RecordHistory(row: Endpoint, hs: seq<RowEvent>): Endpoint
    decreases |hs|
  {
    if |hs| == 0 then row
    else
      var before := RecordHistory(row, hs[..|hs| - 1]);
      match hs[|hs| - 1]
      case Checked(r, at) => Persist(before, Decide(before, r), at)
      case Reconfigured(cfg) => SetThresholds(before, cfg)
  }

  /** The check results of `hs`, in order. */
  function Checks(hs: seq<RowEvent>): (rs: seq<CheckResult>)
    ensures |rs| <= |hs|
    decreases |hs|
  {
    if |hs| == 0 then []
    else
      match hs[|hs| - 1]
      case Checked(r, _) => Checks(hs[..|hs| - 1]) + [r]
      case Reconfigured(_) => Checks(hs[..|hs| - 1])
  }

  /** The configuration in force after `hs`: the last one set, or `t0`
      when none was. */
  function ConfigAfter(t0: Thresholds, hs: seq<RowEvent>): Thresholds
    decreases |hs|
  {
    if |hs| == 0 then t0
    else
      match hs[|hs| - 1]
      case Checked(_, _) => ConfigAfter(t0, hs[..|hs| - 1])
      case Reconfigured(cfg) => cfg
  }

  /** For each check of `hs`, the configuration in force when it was
      decided. */
  function ConfigsAtChecks(t0: Thresholds, hs: seq<RowEvent>): (ts: seq<Thresholds>)
    ensures |ts| == |Checks(hs)|
    decreases |hs|
  {
    if |hs| == 0 then []
    else
      match hs[|hs| - 1]
      case Checked(_, _) => ConfigsAtChecks(t0, hs[..|hs| - 1]) + [ConfigAfter(t0, hs[..|hs| - 1])]
      case Reconfigured(_) => ConfigsAtChecks(t0, hs[..|hs| - 1])
  }

  /** Whatever mix of checks and reconfigurations the row goes through, the
      stored alert state read back is the state the state machine reaches
      over the checks, each decided under the thresholds then in force, and
      the stored thresholds are the last ones the owner set. */
  lemma {:induction false} StoredStateFollowsReplay(row: Endpoint, hs: seq<RowEvent>)
    ensures ThresholdsOf(RecordHistory(row, hs)) == ConfigAfter(ThresholdsOf(row), hs)
    ensures PriorState(RecordHistory(row, hs))
         == ReplayUnder(PriorState(row), Checks(hs), ConfigsAtChecks(ThresholdsOf(row), hs)).0
  {
    if |hs| > 0 {
      var init := hs[..|hs| - 1];
      StoredStateFollowsReplay(row, init);
      if hs[|hs| - 1].Checked? {
        var rs := Checks(hs);
        var ts := ConfigsAtChecks(ThresholdsOf(row), hs);
        assert rs[..|rs| - 1] == Checks(init);
        assert ts[..|ts| - 1] == ConfigsAtChecks(ThresholdsOf(row), init);
      }
    }
  }

  /** For an endpoint whose stored count starts missing or zero, the stored
      count after any history with at least one check is the number of
      trailing `down` results, however the thresholds were changed. */
  lemma {:induction false} StoredCountIsTrailingDowns(row: Endpoint, hs: seq<RowEvent>)
    requires row.consecutiveFailures.None? || row.consecutiveFailures == Some(0)
    requires |Checks(hs)| > 0
    ensures RecordHistory(row, hs).consecutiveFailures == Some(TrailingDowns(Checks(hs)))
  {
    var init := hs[..|hs| - 1];
    if hs[|hs| - 1].Reconfigured? {
      StoredCountIsTrailingDowns(row, init);
    } else {
      StoredStateFollowsReplay(row, hs);
      var ts := ConfigsAtChecks(ThresholdsOf(row), hs);
      FailuresIgnoreThresholds(PriorState(row), Checks(hs), ts, ThresholdsOf(row));
      FailuresFromZero(PriorState(row).active, Checks(hs), ThresholdsOf(row));
    }
  }

  /** A sweep applies one `Checked` step, at the sweep's time, to every row. */
  lemma SweepRowIsRecordStep(db: Store, probes: seq<Observed>, now: int, i: int)
    requires Valid(db)
    requires |probes| == |db.endpoints|
    requires 0 <= i < |db.endpoints|
    ensures Sweep(db, probes, now).endpoints[i]
         == RecordHistory(db.endpoints[i], [Checked(ResultOf(probes[i]), now)])
  {
  }

  /** A successful alert-config update applies one `Reconfigured` step to
      the caller's row and leaves every other row as it was. */
  lemma AlertConfigRowIsRecordStep(db: Store, userId: int, endpointId: int, cfg: Thresholds, i: int)
    requires UpdateAlertConfig(db, userId, endpointId, cfg).Ok?
    requires 0 <= i < |db.endpoints|
    ensures UpdateAlertConfig(db, userId, endpointId, cfg).value.endpoints[i]
         == if db.endpoints[i].id == endpointId && db.endpoints[i].ownerId == userId
            then RecordHistory(db.endpoints[i], [Reconfigured(cfg)])
            else db.endpoints[i]
  {
  }

  /** Lowering the failure threshold mid-outage takes effect at the next
      check: two downs against a threshold of 5 raise nothing, and a third
      after the threshold drops to 2 raises the alert at that check's time. */
  lemma LoweredThresholdTakesEffect(row: Endpoint)
    requires row.consecutiveFailures.None? && row.alertActive.None?
    requires row.consecutiveFailThreshold == 5
    ensures var down := CheckResult(None, Down);
            var r := RecordHistory(row, [Checked(down, 1), Checked(down, 2),
                                         Reconfigured(Thresholds(row.latencyThresholdMs, 2)),
                                         Checked(down, 3)]);
            && r.consecutiveFailures == Some(3)
            && r.alertActive == Some(true)
            && r.lastAlertAt == Some(3)
  {
    var down := CheckResult(None, Down);
    var cfg := Thresholds(row.latencyThresholdMs, 2);
    var h1 := [Checked(down, 1)];
    var h2 := h1 + [Checked(down, 2)];
    var h3 := h2 + [Reconfigured(cfg)];
    var h4 := h3 + [Checked(down, 3)];
    assert h1[..0] == [] && h2[..1] == h1 && h3[..2] == h2 && h4[..3] == h3;
    assert Decide(row, down) == Outcome(1, false, None);
    assert RecordHistory(row, h1[..0]) == row;
    var r1 := RecordHistory(row, h1);
    assert r1 == Persist(row, Outcome(1, false, None), 1);
    assert Decide(r1, down) == Outcome(2, false, None);
    var r2 := RecordHistory(row, h2);
    assert r2 == Persist(r1, Outcome(2, false, None), 2);
    var r3 := RecordHistory(row, h3);
    assert r3 == SetThresholds(r2, cfg);
    assert ThresholdsOf(r3) == cfg && PriorState(r3) == AlertState(2, false);
    assert h4 == [Checked(down, 1), Checked(down, 2), Reconfigured(cfg), Checked(down, 3)];
  }
}
