/** The three tables the core reads and writes, as immutable values. The
    endpoints table is held in id order, as the worker lists it. */
module Storage {
  import opened Common
  import opened Probe
  import opened AlertMachine

  /** A row of the endpoints table: registry fields, alert configuration and
      the mutable alert state. Nullable columns are Options; `lastAlertAt` is
      a timestamp. */
  datatype Endpoint = Endpoint(
    id: int,
    ownerId: int,
    name: string,
    url: string,
    latencyThresholdMs: int,
    consecutiveFailThreshold: int,
    consecutiveFailures: Option<int>,
    alertActive: Option<bool>,
    lastAlertAt: Option<int>)

  datatype Measurement = Measurement(endpointId: int, latencyMs: Option<int>, status: Status)

  datatype AlertRow = AlertRow(endpointId: int, kind: AlertKind, message: string, value: Option<int>)

  datatype Store = Store(endpoints: seq<Endpoint>, measurements: seq<Measurement>, alerts: seq<AlertRow>)

  /** `id` is the key of the endpoints table and the table is listed by id. */
  predicate IdsAscending(rows: seq<Endpoint>) {
    forall i, j :: 0 <= i < j < |rows| ==> rows[i].id < rows[j].id
  }

  predicate Valid(db: Store) {
    IdsAscending(db.endpoints)
  }

  predicate HasEndpoint(db: Store, id: int) {
    exists i :: 0 <= i < |db.endpoints| && db.endpoints[i].id == id
  }

  /** The ownership test of the API: a row with this id belonging to this user. */
  predicate Owns(db: Store, id: int, userId: int) {
    exists i :: 0 <= i < |db.endpoints| && db.endpoints[i].id == id && db.endpoints[i].ownerId == userId
  }

  /** The UPDATE of an endpoint's alert configuration: the two threshold
      columns take the new values and every other column, the alert state
      included, stays. */
  function SetThresholds(row: Endpoint, cfg: Thresholds): (row': Endpoint)
    ensures row'.latencyThresholdMs == cfg.latencyMs
    ensures row'.consecutiveFailThreshold == cfg.consecutiveFails
    ensures row'.(latencyThresholdMs := row.latencyThresholdMs,
                  consecutiveFailThreshold := row.consecutiveFailThreshold) == row
  {
    row.(latencyThresholdMs := cfg.latencyMs, consecutiveFailThreshold := cfg.consecutiveFails)
  }

  /** Appends one measurement row; the other tables are untouched. */
  function InsertMeasurement(db: Store, m: Measurement): (db': Store)
    ensures db'.endpoints == db.endpoints && db'.alerts == db.alerts
    ensures |db'.measurements| == |db.measurements| + 1
    ensures db'.measurements[..|db.measurements|] == db.measurements
    ensures db'.measurements[|db.measurements|] == m
  {
    db.(measurements := db.measurements + [m])
  }
}
