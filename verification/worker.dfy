/** The scheduled worker: deciding and persisting one endpoint's alert state
    (worker/worker.py, lines 85-163), the per-endpoint body of a sweep and
    one iteration of the main loop (lines 166-202). */
module Worker {
  import opened Common
  import opened Probe
  import opened AlertMachine
  import opened Storage
  import opened Messages

  /** The state as the worker reads it: a missing failure count is 0 and a
      missing flag is false. */
  function PriorState(ep: Endpoint): (s: AlertState)
    ensures s.failures == (if ep.consecutiveFailures.Some? then ep.consecutiveFailures.value else 0)
    ensures s.active <==> ep.alertActive == Some(true)
  {
    AlertState(ep.consecutiveFailures.GetOr(0), ep.alertActive.GetOr(false))
  }

  function ThresholdsOf(ep: Endpoint): Thresholds {
    Thresholds(ep.latencyThresholdMs, ep.consecutiveFailThreshold)
  }

  /** The alert decision for endpoint row `ep` (as fetched) and result `r`. */
  function Decide(ep: Endpoint, r: CheckResult): Outcome {
    Transition(PriorState(ep), r, ThresholdsOf(ep))
  }

  /** The UPDATE of one endpoint row: the new count and flag are written,
      `lastAlertAt` becomes `now` when an alert was raised and keeps the
      stored value otherwise (a clear included); every other column stays. */
  function Persist(row: Endpoint, o: Outcome, now: int): (row': Endpoint)
    ensures row'.consecutiveFailures == Some(o.failures) && row'.alertActive == Some(o.active)
    ensures row'.lastAlertAt == Some(now) || row'.lastAlertAt == row.lastAlertAt
    ensures row'.lastAlertAt != row.lastAlertAt ==> o.alert.Some?
    ensures o.alert.Some? ==> row'.lastAlertAt == Some(now)
    ensures row'.(consecutiveFailures := row.consecutiveFailures,
                  alertActive := row.alertActive,
                  lastAlertAt := row.lastAlertAt) == row
  {
    row.(consecutiveFailures := Some(o.failures),
         alertActive := Some(o.active),
         lastAlertAt := if o.alert.Some? then Some(now) else row.lastAlertAt)
  }

  function AlertRows(id: int, a: Option<Alert>): (rows: seq<AlertRow>)
    ensures |rows| == (if a.Some? then 1 else 0)
    ensures a.Some? ==> rows[0] == AlertRow(id, a.value.kind, Render(a.value.message), a.value.value)
  {
    match a
    case None => []
    case Some(x) => [AlertRow(id, x.kind, Render(x.message), x.value)]
  }

  /** The UPDATE ... WHERE id = `id` of the alert-state columns. */
  function UpdateWhereId(rows: seq<Endpoint>, id: int, o: Outcome, now: int): (rows': seq<Endpoint>)
    ensures |rows'| == |rows|
    ensures forall i :: 0 <= i < |rows| ==>
      rows'[i] == if rows[i].id == id then Persist(rows[i], o, now) else rows[i]
  {
    seq(|rows|, i requires 0 <= i < |rows| =>
      if rows[i].id == id then Persist(rows[i], o, now) else rows[i])
  }

  /** `update_alert_state`: decide from the fetched row `ep`, update the
      stored row with that id, and append an alert row iff one was raised.
      Measurements are not touched and the alert log only grows. */
  function UpdateAlertState(db: Store, ep: Endpoint, r: CheckResult, now: int): (db': Store)
    ensures db'.measurements == db.measurements
    ensures db'.endpoints == UpdateWhereId(db.endpoints, ep.id, Decide(ep, r), now)
    ensures Decide(ep, r).alert.None? <==> db'.alerts == db.alerts
    ensures Decide(ep, r).alert.Some? ==>
      db'.alerts == db.alerts + [AlertRow(ep.id, Decide(ep, r).alert.value.kind,
                                          Render(Decide(ep, r).alert.value.message),
                                          Decide(ep, r).alert.value.value)]
    ensures Valid(db) ==> Valid(db')
  {
    var o := Decide(ep, r);
    Store(UpdateWhereId(db.endpoints, ep.id, o, now), db.measurements, db.alerts + AlertRows(ep.id, o.alert))
  }

  /** The text of a recorded alert row names what the alert was raised
      for: the failure count of a down alert, or the latency and threshold
      of a latency alert. */
  lemma StoredAlertTextNamesCause(db: Store, ep: Endpoint, r: CheckResult, now: int)
    requires Decide(ep, r).alert.Some?
    ensures Parse(UpdateAlertState(db, ep, r, now).alerts[|db.alerts|].message)
         == Some(Decide(ep, r).alert.value.message)
  {
    ParseRender(Decide(ep, r).alert.value.message);
  }

  /** What the network gave one probe: the response or failure, and the
      elapsed milliseconds. */
  datatype Observed = Observed(response: Response, elapsedMs: nat)

  function ResultOf(p: Observed): CheckResult {
    CheckEndpoint(p.response, p.elapsedMs)
  }

  /** The body of the sweep for one endpoint: probe, insert the
      measurement, then update the alert state. */
  function CheckAndRecord(db: Store, ep: Endpoint, p: Observed, now: int): (db': Store)
    ensures db'.measurements == db.measurements + [Measurement(ep.id, ResultOf(p).latencyMs, ResultOf(p).status)]
    ensures db'.endpoints == UpdateWhereId(db.endpoints, ep.id, Decide(ep, ResultOf(p)), now)
    ensures db'.alerts == db.alerts + AlertRows(ep.id, Decide(ep, ResultOf(p)).alert)
  {
    var r := ResultOf(p);
    UpdateAlertState(InsertMeasurement(db, Measurement(ep.id, r.latencyMs, r.status)), ep, r, now)
  }

  /** Processes the fetched rows `eps[k..]` in order. */
  function SweepFrom(db: Store, eps: seq<Endpoint>, probes: seq<Observed>, now: int, k: nat): Store
    requires |probes| == |eps| && k <= |eps|
    decreases |eps| - k
  {
    if k == |eps| then db
    else SweepFrom(CheckAndRecord(db, eps[k], probes[k], now), eps, probes, now, k + 1)
  }

  /** The measurements the first `k` endpoints of a sweep append, in order. */
  function SweepMeasurements(eps: seq<Endpoint>, probes: seq<Observed>, k: nat): seq<Measurement>
    requires |probes| == |eps| && k <= |eps|
  {
    if k == 0 then []
    else SweepMeasurements(eps, probes, k - 1)
         + [Measurement(eps[k - 1].id, ResultOf(probes[k - 1]).latencyMs, ResultOf(probes[k - 1]).status)]
  }

  /** A sweep's measurements, by position: the i-th is the i-th endpoint's. */
  lemma {:induction false} SweepMeasurementsByPosition(eps: seq<Endpoint>, probes: seq<Observed>, k: nat)
    requires |probes| == |eps| && k <= |eps|
    ensures |SweepMeasurements(eps, probes, k)| == k
    ensures forall i :: 0 <= i < k ==>
      SweepMeasurements(eps, probes, k)[i]
        == Measurement(eps[i].id, ResultOf(probes[i]).latencyMs, ResultOf(probes[i]).status)
  {
    if k > 0 {
      SweepMeasurementsByPosition(eps, probes, k - 1);
    }
  }

  /** The decision for each fetched row, taken from its fetched state. */
  function Decisions(eps: seq<Endpoint>, probes: seq<Observed>): (os: seq<Outcome>)
    requires |probes| == |eps|
    ensures |os| == |eps|
    ensures forall i :: 0 <= i < |eps| ==> os[i] == Decide(eps[i], ResultOf(probes[i]))
  {
    seq(|eps|, i requires 0 <= i < |eps| => Decide(eps[i], ResultOf(probes[i])))
  }

  /** The alert rows the first `k` endpoints of a sweep append, in order. */
  function SweepAlerts(eps: seq<Endpoint>, os: seq<Outcome>, k: nat): seq<AlertRow>
    requires |os| == |eps| && k <= |eps|
  {
    if k == 0 then []
    else SweepAlerts(eps, os, k - 1) + AlertRows(eps[k - 1].id, os[k - 1].alert)
  }

  /** The endpoints table after the first `k` fetched rows were persisted. */
  predicate RowsSwept(eps: seq<Endpoint>, os: seq<Outcome>, rows: seq<Endpoint>, now: int, k: nat)
    requires |os| == |eps| && k <= |eps|
  {
    && |rows| == |eps|
    && (forall i :: 0 <= i < k ==> rows[i] == Persist(eps[i], os[i], now))
    && (forall i :: k <= i < |eps| ==> rows[i] == eps[i])
  }

  lemma {:induction false} RowsStep(eps: seq<Endpoint>, os: seq<Outcome>, rows: seq<Endpoint>, now: int, k: nat)
    requires IdsAscending(eps) && |os| == |eps| && k < |eps|
    requires RowsSwept(eps, os, rows, now, k)
    ensures RowsSwept(eps, os, UpdateWhereId(rows, eps[k].id, os[k], now), now, k + 1)
  {
    var rows' := UpdateWhereId(rows, eps[k].id, os[k], now);
    forall i | 0 <= i < |eps|
      ensures rows'[i] == if i <= k then Persist(eps[i], os[i], now) else eps[i]
    {
      if i < k {
        assert rows[i].id == eps[i].id < eps[k].id;
      } else if i > k {
        assert rows[i].id == eps[i].id > eps[k].id;
      }
    }
  }

  /** The state of the store after the first `k` endpoints of a sweep
      starting from `db0`. */
  predicate SweptUpTo(db0: Store, db: Store, probes: seq<Observed>, now: int, k: nat)
    requires |probes| == |db0.endpoints| && k <= |db0.endpoints|
  {
    var eps := db0.endpoints;
    && RowsSwept(eps, Decisions(eps, probes), db.endpoints, now, k)
    && db.measurements == db0.measurements + SweepMeasurements(eps, probes, k)
    && db.alerts == db0.alerts + SweepAlerts(eps, Decisions(eps, probes), k)
  }

  lemma {:induction false} SweepStep(db0: Store, db: Store, probes: seq<Observed>, now: int, k: nat)
    requires Valid(db0) && |probes| == |db0.endpoints| && k < |db0.endpoints|
    requires SweptUpTo(db0, db, probes, now, k)
    ensures SweptUpTo(db0, CheckAndRecord(db, db0.endpoints[k], probes[k], now), probes, now, k + 1)
  {
    var eps := db0.endpoints;
    var os := Decisions(eps, probes);
    var next := CheckAndRecord(db, eps[k], probes[k], now);
    assert os[k] == Decide(eps[k], ResultOf(probes[k]));
    RowsStep(eps, os, db.endpoints, now, k);
    var r := ResultOf(probes[k]);
    AppendAssoc(db0.measurements, SweepMeasurements(eps, probes, k), [Measurement(eps[k].id, r.latencyMs, r.status)]);
    AppendAssoc(db0.alerts, SweepAlerts(eps, os, k), AlertRows(eps[k].id, os[k].alert));
  }

  lemma {:induction false} SweepFromEffect(db0: Store, db: Store, probes: seq<Observed>, now: int, k: nat)
    requires Valid(db0) && |probes| == |db0.endpoints| && k <= |db0.endpoints|
    requires SweptUpTo(db0, db, probes, now, k)
    ensures SweptUpTo(db0, SweepFrom(db, db0.endpoints, probes, now, k), probes, now, |db0.endpoints|)
    decreases |db0.endpoints| - k
  {
    if k < |db0.endpoints| {
      SweepStep(db0, db, probes, now, k);
      SweepFromEffect(db0, CheckAndRecord(db, db0.endpoints[k], probes[k], now), probes, now, k + 1);
    }
  }

  lemma {:induction false} SweepSummary(db: Store, probes: seq<Observed>, now: int)
    requires Valid(db)
    requires |probes| == |db.endpoints|
    ensures var db' := SweepFrom(db, db.endpoints, probes, now, 0);
      && db'.measurements == db.measurements + SweepMeasurements(db.endpoints, probes, |db.endpoints|)
      && RowsSwept(db.endpoints, Decisions(db.endpoints, probes), db'.endpoints, now, |db.endpoints|)
      && db'.alerts == db.alerts + SweepAlerts(db.endpoints, Decisions(db.endpoints, probes), |db.endpoints|)
  {
    assert db.measurements + [] == db.measurements;
    assert db.alerts + [] == db.alerts;
    SweepFromEffect(db, db, probes, now, 0);
  }

  /** Each endpoint's row after a sweep holds the decision taken from its
      fetched state. */
  lemma {:induction false} SweepRows(db: Store, probes: seq<Observed>, now: int)
    requires Valid(db)
    requires |probes| == |db.endpoints|
    ensures var rows := SweepFrom(db, db.endpoints, probes, now, 0).endpoints;
      && |rows| == |db.endpoints|
      && forall i :: 0 <= i < |db.endpoints| ==>
           rows[i] == Persist(db.endpoints[i], Decide(db.endpoints[i], ResultOf(probes[i])), now)
  {
    SweepSummary(db, probes, now);
    var os := Decisions(db.endpoints, probes);
    var rows := SweepFrom(db, db.endpoints, probes, now, 0).endpoints;
    forall i | 0 <= i < |db.endpoints|
      ensures rows[i] == Persist(db.endpoints[i], Decide(db.endpoints[i], ResultOf(probes[i])), now)
    {
      assert rows[i] == Persist(db.endpoints[i], os[i], now);
    }
  }

  /** A sweep appends exactly one measurement per endpoint, in id order. */
  lemma {:induction false} SweepMeasured(db: Store, probes: seq<Observed>, now: int)
    requires Valid(db)
    requires |probes| == |db.endpoints|
    ensures var ms := SweepFrom(db, db.endpoints, probes, now, 0).measurements;
      && |ms| == |db.measurements| + |db.endpoints|
      && ms[..|db.measurements|] == db.measurements
      && forall i :: 0 <= i < |db.endpoints| ==>
           ms[|db.measurements| + i]
             == Measurement(db.endpoints[i].id, ResultOf(probes[i]).latencyMs, ResultOf(probes[i]).status)
  {
    SweepSummary(db, probes, now);
    SweepMeasurementsByPosition(db.endpoints, probes, |db.endpoints|);
    AppendParts(db.measurements, SweepMeasurements(db.endpoints, probes, |db.endpoints|));
  }

  /** One sweep over the endpoints table, listed by id, with `probes[i]` what
      the network gave the i-th endpoint. Every endpoint gets exactly one
      measurement, in id order; its row gets the decision taken from its
      fetched state; the alert log grows by the raised alerts, in id order. */
  function Sweep(db: Store, probes: seq<Observed>, now: int): (db': Store)
    requires Valid(db)
    requires |probes| == |db.endpoints|
    ensures |db'.measurements| == |db.measurements| + |db.endpoints|
    ensures db'.measurements[..|db.measurements|] == db.measurements
    ensures forall i :: 0 <= i < |db.endpoints| ==>
      db'.measurements[|db.measurements| + i]
        == Measurement(db.endpoints[i].id, ResultOf(probes[i]).latencyMs, ResultOf(probes[i]).status)
    ensures |db'.endpoints| == |db.endpoints|
    ensures forall i :: 0 <= i < |db.endpoints| ==>
      db'.endpoints[i] == Persist(db.endpoints[i], Decide(db.endpoints[i], ResultOf(probes[i])), now)
    ensures db'.alerts == db.alerts + SweepAlerts(db.endpoints, Decisions(db.endpoints, probes), |db.endpoints|)
    ensures Valid(db')
  {
    SweepSummary(db, probes, now);
    SweepRows(db, probes, now);
    SweepMeasured(db, probes, now);
    SweepFrom(db, db.endpoints, probes, now, 0)
  }

  /** One iteration of the main loop. The whole sweep runs in one
      transaction that is committed once, at the end: an exception anywhere
      (reaching the store, any insert or update) discards every write of the
      sweep, including those for endpoints already processed. */
  function Tick(db: Store, probes: seq<Observed>, now: int, storeFailed: bool): (db': Store)
    requires Valid(db)
    requires |probes| == |db.endpoints|
    ensures storeFailed ==> db' == db
    ensures !storeFailed ==> db' == Sweep(db, probes, now)
    ensures !storeFailed ==> |db'.measurements| == |db.measurements| + |db.endpoints|
    ensures Valid(db')
  {
    if storeFailed then db else Sweep(db, probes, now)
  }
}
