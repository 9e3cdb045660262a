# Network health monitor: probing and alert state machine in Dafny

This project models the core of a network health monitor. A worker sweeps
the registered HTTP endpoints once per interval. It classifies each check
as `up` or `down` with an optional latency, and records a measurement. It
then advances a per-endpoint alert state machine: a `down` alert after
enough consecutive failures, a `latency` alert for a slow `up` check, and a
clear on a healthy check. A raised alert is recorded as an event row. The
model also covers the small pure parts of the HTTP API: measurement
validation, the field list of a partial endpoint update, the on-demand
measurement, and the counting behind the window statistics.

Modules:

- `Common`: `Option`, for nullable values.
- `Decimal`: Python's `str(int)` as used in f-strings, and a reader that
  recovers the integer from that text.
- `Messages`: the two alert texts, and a parser that recovers their
  parameters.
- `Probe`: the worker's status-code rule and the on-demand rule, where
  the response comes from the network and latency is an input.
- `AlertMachine`: `Transition`, a pure step function from prior state,
  check result and thresholds to new state and optional alert. `Replay`
  feeds it a series of results, and the lemmas state what that series
  produces.
- `Storage`: the endpoints, measurements and alerts tables as immutable
  values. The endpoints table is kept in id order.
- `Worker`: persisting a decision (update the row, append an alert iff one
  fired), the per-endpoint step, a sweep, and one main-loop iteration.
- `History`: the life of one endpoint row across sweeps and alert-config
  updates, and the stored state after any such history.
- `Api`: `add_measurement`, `update_endpoint`, `update_alert_config`,
  `manual_measure` and `get_endpoint_stats`, without routing,
  authentication or SQL.

Two facts about the code that shape the model:

- The worker commits once per sweep, after the last endpoint
  (worker/worker.py:195), so an exception anywhere in a sweep discards
  every write of that sweep. `Worker.Tick` models this all-or-nothing
  behaviour.
- `check_endpoint` treats codes below 200, as well as 4xx and 5xx codes,
  as `down` (worker/worker.py:38-41).

## Model

| member | source | states |
|---|---|---|
| Probe.CheckEndpoint | worker/worker.py:33-46 | up exactly for a received code in [200, 400); the latency is the elapsed time for any received response; a transport failure gives no latency and down; up always carries a latency |
| Probe.ManualMeasure | backend/app/main.py:486-493 | up exactly for a received code below 500; a failure gives no latency and down |
| Probe.ClassifiersDisagreeExactly | backend/app/main.py:488-493 | the worker rule and the on-demand rule differ exactly on received codes below 200 or in [400, 500), and there the worker says down while the manual trigger says up |
| Decimal.ReadShow | worker/worker.py:116 | the decimal text an f-string writes for an integer reads back as that integer, followed by exactly the text that came after it, provided that text is empty or does not start with a digit (true of both message suffixes) |
| Messages.ParseRender | worker/worker.py:116-129 | every alert text parses back to the failure count, or to the latency and threshold, it was written for |
| Messages.RenderInjective | worker/worker.py:116-129 | different alert parameters never give the same text |
| AlertMachine.Transition | worker/worker.py:94-137 | the counter becomes prior+1 on down and 0 otherwise; a down alert fires iff down, the new count reaches the threshold and no alert is active; a latency alert fires iff up with a latency above the threshold and no alert is active; a down alert has no value and its message is for the new count; a latency alert's value is the latency and its message is for that latency and the threshold; nothing fires while an alert is active; the alert ends up active iff one fired, or it was active and the result does not recover (up with no latency or latency within threshold) |
| AlertMachine.FailuresCountTrailingDowns | worker/worker.py:97-104 | after any series of results the counter is the number of trailing downs; only an all-down series still shows the starting count |
| AlertMachine.FailuresFromZero | worker/worker.py:97-104 | from a zero (or missing) count the counter is exactly the number of trailing downs |
| AlertMachine.FailuresIgnoreThresholds | worker/worker.py:97-104 | the failure counter never depends on the thresholds: under any configuration per check it equals the count reached under any fixed configuration |
| AlertMachine.ReplayUnderFixed | worker/worker.py:94-137 | replaying with a configuration per check, all of them the same, is replaying under that one configuration |
| AlertMachine.SilentWhileAlerting | worker/worker.py:113-137 | once an alert is active, no series of non-recovering results raises anything or clears the alert |
| AlertMachine.OneEventPerIncident | worker/worker.py:113-137 | alerts raised plus one for ending healthy equals the clears (recovering results while an alert is active) plus one for starting healthy, so alerts and clears alternate and there is exactly one alert per incident |
| AlertMachine.SustainedOutageRaisesOnce | worker/worker.py:101-118 | an all-down series from a healthy state below the threshold raises exactly one alert (a down alert) iff the count reaches the threshold, and the alert is then active |
| AlertMachine.ThreeDownsRaiseOnce | worker/worker.py:101-118 | with a threshold of 3, two downs raise nothing; three downs raise exactly one down alert and leave the count at 3 with the alert active |
| AlertMachine.SlowCheckRaisesLatency | worker/worker.py:121-131 | an up check at 250 ms against a 200 ms threshold while healthy raises a latency alert whose value is 250 |
| AlertMachine.FastCheckClears | worker/worker.py:134-137 | an up check at 50 ms against 200 ms while alerting with 4 failures clears the alert, resets the count and raises nothing |
| Storage.InsertMeasurement | worker/worker.py:71-82 | exactly one measurement is appended at the end; the endpoints and alerts tables are unchanged |
| Storage.SetThresholds | backend/app/main.py:689-691 | the row takes the new latency and failure thresholds and every other column, the alert state included, keeps its value |
| Worker.PriorState | worker/worker.py:97-98 | a missing failure count is read as 0, and the flag is true only when stored as true |
| Worker.Persist | worker/worker.py:139-153 | the row takes the new count and flag; last_alert_at becomes now when an alert fired and otherwise keeps its stored value, a clear included; no other column changes |
| Worker.UpdateAlertState | worker/worker.py:139-163 | only the row with the endpoint's id is updated; an alert row is appended iff an alert fired, and it carries the endpoint id, kind, text and value; measurements are untouched; id order is kept |
| Worker.StoredAlertTextNamesCause | worker/worker.py:156-163 | the text of a recorded alert row parses back to what the alert was raised for: the failure count, or the latency and threshold |
| Worker.CheckAndRecord | worker/worker.py:178-193 | one endpoint's step appends its measurement and then applies its alert decision |
| Worker.Sweep | worker/worker.py:170-195 | a sweep appends one measurement per endpoint in id order; it sets each row from the decision taken on that row's fetched state; it appends the raised alerts in id order; id order is kept |
| Worker.Tick | worker/worker.py:168-202 | a failed transaction leaves the store unchanged; otherwise the store is exactly the result of the full sweep, with one new measurement per endpoint, so the result is all or nothing |
| History.StoredStateFollowsReplay | worker/worker.py:139-153 | after any mix of sweeps and alert-config updates, the stored alert state read back is the state the state machine reaches over the checks, each decided under the thresholds in force at that time; the stored thresholds are the last ones the owner set (the worker never changes them) |
| History.StoredCountIsTrailingDowns | worker/worker.py:97-153 | for an endpoint whose stored count starts missing or 0, the stored count after any history with at least one check is the number of trailing downs, whatever threshold changes happened in between |
| History.SweepRowIsRecordStep | worker/worker.py:178-195 | a sweep changes each endpoint row exactly as one recorded check at the sweep's time |
| History.AlertConfigRowIsRecordStep | backend/app/main.py:687-712 | a successful alert-config update changes the caller's row exactly as one reconfiguration step and leaves every other row as it was |
| History.LoweredThresholdTakesEffect | worker/worker.py:101-118 | from a fresh row with a threshold of 5, two downs, then lowering the threshold to 2, then one more down leave the count at 3 and the alert active, raised at the last check's time |
| Api.ParseStatus | backend/app/main.py:382-383 | exactly the strings "up" and "down" are accepted |
| Api.AddMeasurement | backend/app/main.py:380-399 | an invalid status gives 400 whatever the store holds; an unknown endpoint gives 404; otherwise exactly one measurement with the given latency and status is appended and nothing else changes |
| Api.Assignments | backend/app/main.py:282-294 | the SET list holds only the given fields, name before url |
| Api.ApplyAssignments | backend/app/main.py:282-311 | applying the SET list changes exactly the given fields of the row |
| Api.UpdateEndpoint | backend/app/main.py:271-315 | a caller who does not own the endpoint gets 404 before any field check; an update with no fields gets 400; otherwise only that row's name and url change as given, and nothing else changes |
| Api.UpdateAlertConfig | backend/app/main.py:679-712 | a caller who does not own the endpoint gets 404 and nothing changes; otherwise only the owned row's two thresholds change, to the given values, and its alert state and every other row and table stay as they were |
| Api.RecordManualMeasure | backend/app/main.py:467-509 | a caller who does not own the endpoint gets 404; otherwise one measurement classified by the on-demand rule is appended, and the alert state and alert log are unchanged |
| Api.CountsAsUpSpellings | backend/app/main.py:613-616 | a row counts as up exactly when its status is "up" in any letter case; a null status never counts |
| Api.WindowStats | backend/app/main.py:603-626 | an empty window gives no uptime, no average and 0 checks; total checks is the number of rows; uptime is 100·up/total with up ≤ total, so it lies in [0, 100]; the average is absent iff no row has a latency, and otherwise it is the sum of the present latencies over their count |
| Api.UpCountIsUpRows | backend/app/main.py:612-616 | the up count is the number of row positions whose status counts as up |
| Api.AverageNumeratorSkipsNulls | backend/app/main.py:618-619 | the average's numerator is the row-by-row sum of latencies with nulls skipped |
| Api.AverageDenominatorCountsPresent | backend/app/main.py:618-619 | the average's denominator is the number of rows that have a latency |

## Left out

- Database access (connections, cursors, SQL text, commit) is not modelled. The three tables are values, and a transaction is one function from store to store.
- The HTTP request, its timeout and the timing clocks are not modelled. The response (or transport failure) and the elapsed milliseconds are inputs.
- `print` logging, the endless main loop and its sleep are not modelled. One iteration is `Worker.Tick`.
- Database defaults for `observed_at` and `created_at` are not modelled, because the schema is not part of this model. Row order in the append-only sequences stands for insertion order.
- The query behind the window statistics is not modelled: the ownership check and the `observed_at >= cutoff` filter from `utcnow()`. `Api.WindowStats` takes the window's rows as given.
- Float division and `round(..., 1)` in the statistics are not modelled. Uptime and average are exact ratios (numerator, denominator).
- `str.lower()` is modelled as ASCII lower-casing. For the comparison with "up" this is exact: only `U` and `P` lower-case to `u` and `p`, and no character lower-cases to a two-letter string that could form "up".
- Threshold columns are taken as non-null integers. A null threshold would make the worker's comparison raise, and that path is not modelled.
- `str(ep_update.url)` and pydantic URL/e-mail validation are not modelled. URLs are plain strings.
- The response body of `update_alert_config` (the RETURNING columns echoed back) is not modelled; `Api.UpdateAlertConfig` returns the new store.
- JWT, password hashing, CORS, FastAPI routing and the other registry endpoints are not modelled. They are authentication and CRUD plumbing outside the core.
- The frontend is not modelled. It is UI and fetch calls.
