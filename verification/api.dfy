/** The pure parts of the HTTP API (backend/app/main.py): measurement
    validation, the field list of a partial endpoint update, the on-demand
    measurement, and the counting behind the window statistics. Routing,
    authentication and SQL text are outside the model. */
module Api {
  import opened Common
  import opened Probe
  import opened Storage
  import opened AlertMachine

  datatype HttpError = HttpError(code: int, detail: string)

  datatype Result<+T> = Ok(value: T) | Err(error: HttpError)

  /* ---------- POST /api/measurements ---------- */

  /** The request body: latency is required here, unlike the worker's. */
  datatype NewMeasurement = NewMeasurement(endpointId: int, latencyMs: int, status: string)

  /** The accepted status strings, matched exactly (case matters). */
  function ParseStatus(s: string): (r: Option<Status>)
    ensures r == Some(Up) <==> s == "up"
    ensures r == Some(Down) <==> s == "down"
    ensures r.None? <==> s != "up" && s != "down"
  {
    if s == "up" then Some(Up) else if s == "down" then Some(Down) else None
  }

  /** `add_measurement`: a status other than "up" or "down" is refused with
      400 whatever the store holds; an unknown endpoint with 404; otherwise
      exactly one measurement is appended and nothing else changes. */
  function AddMeasurement(db: Store, m: NewMeasurement): (r: Result<Store>)
    ensures ParseStatus(m.status).None? ==> r == Err(HttpError(400, "status must be 'up' or 'down'"))
    ensures ParseStatus(m.status).Some? && !HasEndpoint(db, m.endpointId)
        ==> r == Err(HttpError(404, "endpoint not found"))
    ensures r.Ok? <==> (m.status == "up" || m.status == "down") && HasEndpoint(db, m.endpointId)
    ensures r.Ok? ==> r.value.endpoints == db.endpoints && r.value.alerts == db.alerts
    ensures r.Ok? ==>
      r.value.measurements
        == db.measurements + [Measurement(m.endpointId, Some(m.latencyMs), if m.status == "up" then Up else Down)]
  {
    match ParseStatus(m.status)
    case None => Err(HttpError(400, "status must be 'up' or 'down'"))
    case Some(st) =>
      if !HasEndpoint(db, m.endpointId) then Err(HttpError(404, "endpoint not found"))
      else Ok(InsertMeasurement(db, Measurement(m.endpointId, Some(m.latencyMs), st)))
  }

  /* ---------- PUT /api/endpoints/{id} ---------- */

  datatype EndpointUpdate = EndpointUpdate(name: Option<string>, url: Option<string>)

  /** One `column = value` entry of the SET list. */
  datatype Assignment = SetName(name: string) | SetUrl(url: string)

  /** The SET list: the name if given, then the url if given. */
  function Assignments(u: EndpointUpdate): (fields: seq<Assignment>)
    ensures |fields| == (if u.name.Some? then 1 else 0) + (if u.url.Some? then 1 else 0)
    ensures u.name.Some? ==> fields[0] == SetName(u.name.value)
    ensures u.url.Some? ==> fields[|fields| - 1] == SetUrl(u.url.value)
    ensures forall i :: 0 <= i < |fields| ==>
      (fields[i].SetName? && u.name == Some(fields[i].name)) || (fields[i].SetUrl? && u.url == Some(fields[i].url))
  {
    (if u.name.Some? then [SetName(u.name.value)] else [])
    + (if u.url.Some? then [SetUrl(u.url.value)] else [])
  }

  /** What the UPDATE does to a row with the given SET list. */
  function Apply(row: Endpoint, fields: seq<Assignment>): Endpoint
    decreases |fields|
  {
    if |fields| == 0 then row
    else
      var row' := match fields[0]
        case SetName(n) => row.(name := n)
        case SetUrl(v) => row.(url := v);
      Apply(row', fields[1..])
  }

  /** Applying the SET list changes exactly the fields that were given. */
  lemma ApplyAssignments(row: Endpoint, u: EndpointUpdate)
    ensures Apply(row, Assignments(u)) == row.(name := u.name.GetOr(row.name), url := u.url.GetOr(row.url))
  {
    var fields := Assignments(u);
    if u.name.Some? && u.url.Some? {
      var named := row.(name := u.name.value);
      assert fields == [SetName(u.name.value), SetUrl(u.url.value)];
      assert fields[1..] == [SetUrl(u.url.value)];
      assert Apply(row, fields) == Apply(named, [SetUrl(u.url.value)]);
      assert [SetUrl(u.url.value)][1..] == [];
      assert Apply(named, [SetUrl(u.url.value)]) == Apply(named.(url := u.url.value), []);
    } else if u.name.Some? || u.url.Some? {
      assert fields[1..] == [];
    }
  }

  /** `update_endpoint`: 404 unless the caller owns the endpoint, then 400
      if neither field was given, else the named fields of that row change. */
  function UpdateEndpoint(db: Store, userId: int, endpointId: int, u: EndpointUpdate): (r: Result<Store>)
    ensures !Owns(db, endpointId, userId) ==> r == Err(HttpError(404, "Endpoint not found"))
    ensures Owns(db, endpointId, userId) && u.name.None? && u.url.None?
        ==> r == Err(HttpError(400, "No fields to update"))
    ensures r.Ok? <==> Owns(db, endpointId, userId) && (u.name.Some? || u.url.Some?)
    ensures r.Ok? ==> r.value.measurements == db.measurements && r.value.alerts == db.alerts
    ensures r.Ok? ==> |r.value.endpoints| == |db.endpoints|
    ensures r.Ok? ==> forall i :: 0 <= i < |db.endpoints| ==>
      r.value.endpoints[i] == if db.endpoints[i].id == endpointId
        then db.endpoints[i].(name := u.name.GetOr(db.endpoints[i].name), url := u.url.GetOr(db.endpoints[i].url))
        else db.endpoints[i]
  {
    if !Owns(db, endpointId, userId) then Err(HttpError(404, "Endpoint not found"))
    else
      var fields := Assignments(u);
      if |fields| == 0 then Err(HttpError(400, "No fields to update"))
      else
        var rows := seq(|db.endpoints|, i requires 0 <= i < |db.endpoints| =>
          if db.endpoints[i].id == endpointId then Apply(db.endpoints[i], fields) else db.endpoints[i]);
        assert forall i :: 0 <= i < |db.endpoints| && db.endpoints[i].id == endpointId ==>
          rows[i] == db.endpoints[i].(name := u.name.GetOr(db.endpoints[i].name), url := u.url.GetOr(db.endpoints[i].url))
        by {
          forall i | 0 <= i < |db.endpoints| && db.endpoints[i].id == endpointId {
            ApplyAssignments(db.endpoints[i], u);
          }
        }
        Ok(db.(endpoints := rows))
  }

  /* ---------- PUT /api/endpoints/{id}/alert-config ---------- */

  /** `update_alert_config`: the UPDATE matches the row by id and owner, so
      a caller who does not own the endpoint gets 404 and nothing changes;
      otherwise that row's two thresholds are set and its alert state, like
      every other table, is left as it was. */
  function UpdateAlertConfig(db: Store, userId: int, endpointId: int, cfg: Thresholds): (r: Result<Store>)
    ensures !Owns(db, endpointId, userId) ==> r == Err(HttpError(404, "Endpoint not found"))
    ensures r.Ok? <==> Owns(db, endpointId, userId)
    ensures r.Ok? ==> r.value.measurements == db.measurements && r.value.alerts == db.alerts
    ensures r.Ok? ==> |r.value.endpoints| == |db.endpoints|
    ensures r.Ok? ==> forall i :: 0 <= i < |db.endpoints| ==>
      && r.value.endpoints[i].(latencyThresholdMs := db.endpoints[i].latencyThresholdMs,
                               consecutiveFailThreshold := db.endpoints[i].consecutiveFailThreshold)
           == db.endpoints[i]
      && (r.value.endpoints[i] != db.endpoints[i] ==>
            db.endpoints[i].id == endpointId && db.endpoints[i].ownerId == userId)
      && (db.endpoints[i].id == endpointId && db.endpoints[i].ownerId == userId ==>
            && r.value.endpoints[i].latencyThresholdMs == cfg.latencyMs
            && r.value.endpoints[i].consecutiveFailThreshold == cfg.consecutiveFails)
  {
    if !Owns(db, endpointId, userId) then Err(HttpError(404, "Endpoint not found"))
    else
      var rows := seq(|db.endpoints|, i requires 0 <= i < |db.endpoints| =>
        if db.endpoints[i].id == endpointId && db.endpoints[i].ownerId == userId
        then SetThresholds(db.endpoints[i], cfg)
        else db.endpoints[i]);
      Ok(db.(endpoints := rows))
  }

  /* ---------- POST /api/endpoints/{id}/measure ---------- */

  /** `manual_measure`: 404 unless the caller owns the endpoint; otherwise
      one measurement classified by the on-demand rule is appended. The
      alert state is not consulted or changed, so the state machine never
      sees on-demand checks. */
  function RecordManualMeasure(db: Store, userId: int, endpointId: int, resp: Response, elapsedMs: int)
    : (r: Result<Store>)
    ensures !Owns(db, endpointId, userId) ==> r == Err(HttpError(404, "Endpoint not found"))
    ensures r.Ok? <==> Owns(db, endpointId, userId)
    ensures r.Ok? ==> r.value.endpoints == db.endpoints && r.value.alerts == db.alerts
    ensures r.Ok? ==>
      r.value.measurements == db.measurements
        + [Measurement(endpointId, ManualMeasure(resp, elapsedMs).latencyMs, ManualMeasure(resp, elapsedMs).status)]
  {
    if !Owns(db, endpointId, userId) then Err(HttpError(404, "Endpoint not found"))
    else
      var c := ManualMeasure(resp, elapsedMs);
      Ok(InsertMeasurement(db, Measurement(endpointId, c.latencyMs, c.status)))
  }

  /* ---------- GET /api/endpoints/{id}/stats ---------- */

  /** A row of the window query; `status` is nullable text as stored. */
  datatype WindowRow = WindowRow(status: Option<string>, latencyMs: Option<int>)

  /** An exact quotient num/den, standing for the float the API rounds. */
  datatype Ratio = Ratio(num: int, den: int)

  datatype Stats = Stats(totalChecks: nat, uptimePercent: Option<Ratio>, avgLatencyMs: Option<Ratio>)

  function LowerChar(c: char): char {
    if 'A' <= c <= 'Z' then (c as int - 'A' as int + 'a' as int) as char else c
  }

  function LowerAscii(s: string): (r: string)
    ensures |r| == |s|
    ensures forall i :: 0 <= i < |s| ==> r[i] == LowerChar(s[i])
  {
    seq(|s|, i requires 0 <= i < |s| => LowerChar(s[i]))
  }

  /** A status counts as up when, with a missing status read as the empty
      string, its lower-cased text is "up". */
  predicate CountsAsUp(status: Option<string>) {
    LowerAscii(status.GetOr("")) == "up"
  }

  /** The spellings that count as up: "up" in any letter case, nothing else. */
  lemma CountsAsUpSpellings(status: Option<string>)
    ensures CountsAsUp(status)
        <==> (&& status.Some? && |status.value| == 2
              && (status.value[0] == 'u' || status.value[0] == 'U')
              && (status.value[1] == 'p' || status.value[1] == 'P'))
  {
    var s := status.GetOr("");
    if |s| == 2 && LowerAscii(s) == "up" {
      assert LowerChar(s[0]) == 'u' && LowerChar(s[1]) == 'p';
    }
    if status.Some? && |s| == 2 && (s[0] == 'u' || s[0] == 'U') && (s[1] == 'p' || s[1] == 'P') {
      assert LowerAscii(s) == [LowerChar(s[0]), LowerChar(s[1])];
    }
  }

  function UpCount(rows: seq<WindowRow>): (n: nat)
    ensures n <= |rows|
  {
    if |rows| == 0 then 0
    else UpCount(rows[..|rows| - 1]) + (if CountsAsUp(rows[|rows| - 1].status) then 1 else 0)
  }

  /** The non-null latencies, in row order. */
  function Latencies(rows: seq<WindowRow>): (ls: seq<int>)
    ensures |ls| <= |rows|
    ensures |ls| == 0 <==> forall i :: 0 <= i < |rows| ==> rows[i].latencyMs.None?
  {
    if |rows| == 0 then []
    else
      var last := rows[|rows| - 1];
      Latencies(rows[..|rows| - 1]) + (if last.latencyMs.Some? then [last.latencyMs.value] else [])
  }

  function Sum(xs: seq<int>): int {
    if |xs| == 0 then 0 else Sum(xs[..|xs| - 1]) + xs[|xs| - 1]
  }

  /** `get_endpoint_stats` after the query: an empty window has no uptime,
      no average and zero checks; otherwise uptime is up/total as a
      percentage in [0, 100] and the average is over non-null latencies only,
      absent when there are none. */
  function WindowStats(rows: seq<WindowRow>): (st: Stats)
    ensures |rows| == 0 ==> st == Stats(0, None, None)
    ensures st.totalChecks == |rows|
    ensures st.uptimePercent.None? <==> |rows| == 0
    ensures st.uptimePercent.Some? ==>
      && st.uptimePercent.value.den == |rows| > 0
      && 0 <= st.uptimePercent.value.num <= 100 * st.uptimePercent.value.den
      && st.uptimePercent.value.num == 100 * UpCount(rows)
    ensures st.avgLatencyMs.None? <==> forall i :: 0 <= i < |rows| ==> rows[i].latencyMs.None?
    ensures st.avgLatencyMs.Some? ==>
      st.avgLatencyMs.value == Ratio(Sum(Latencies(rows)), |Latencies(rows)|)
  {
    if |rows| == 0 then Stats(0, None, None)
    else
      var ls := Latencies(rows);
      Stats(|rows|,
            Some(Ratio(UpCount(rows) * 100, |rows|)),
            if |ls| > 0 then Some(Ratio(Sum(ls), |ls|)) else None)
  }

  /** The rows counted as up, by position: an independent description of
      `UpCount`. */
  lemma {:induction false} UpCountIsUpRows(rows: seq<WindowRow>)
    ensures UpCount(rows) == |set i | 0 <= i < |rows| && CountsAsUp(rows[i].status)|
  {
    if |rows| > 0 {
      var n := |rows| - 1;
      var front := rows[..n];
      UpCountIsUpRows(front);
      var before := set i | 0 <= i < n && CountsAsUp(front[i].status);
      var after := set i | 0 <= i < |rows| && CountsAsUp(rows[i].status);
      assert after == before + (if CountsAsUp(rows[n].status) then {n} else {});
    }
  }

  /** Summing the present latencies row by row, null counting as nothing. */
  function PresentSum(rows: seq<WindowRow>): int {
    if |rows| == 0 then 0
    else PresentSum(rows[..|rows| - 1]) + rows[|rows| - 1].latencyMs.GetOr(0)
  }

  lemma {:induction false} SumAppend(xs: seq<int>, ys: seq<int>)
    ensures Sum(xs + ys) == Sum(xs) + Sum(ys)
    decreases |ys|
  {
    if |ys| > 0 {
      assert (xs + ys)[..|xs + ys| - 1] == xs + ys[..|ys| - 1];
      SumAppend(xs, ys[..|ys| - 1]);
    } else {
      assert xs + ys == xs;
    }
  }

  /** The numerator of the average is the sum of the present latencies,
      nulls skipped. */
  lemma {:induction false} AverageNumeratorSkipsNulls(rows: seq<WindowRow>)
    ensures Sum(Latencies(rows)) == PresentSum(rows)
  {
    if |rows| > 0 {
      var n := |rows| - 1;
      AverageNumeratorSkipsNulls(rows[..n]);
      var last := if rows[n].latencyMs.Some? then [rows[n].latencyMs.value] else [];
      SumAppend(Latencies(rows[..n]), last);
      assert Sum(last) == rows[n].latencyMs.GetOr(0) by {
        if |last| == 1 { assert last[..0] == []; }
      }
    }
  }

  /** The denominator of the average counts the rows that have a latency. */
  lemma {:induction false} AverageDenominatorCountsPresent(rows: seq<WindowRow>)
    ensures |Latencies(rows)| == |set i | 0 <= i < |rows| && rows[i].latencyMs.Some?|
  {
    if |rows| > 0 {
      var n := |rows| - 1;
      var front := rows[..n];
      AverageDenominatorCountsPresent(front);
      var before := set i | 0 <= i < n && front[i].latencyMs.Some?;
      var after := set i | 0 <= i < |rows| && rows[i].latencyMs.Some?;
      assert after == before + (if rows[n].latencyMs.Some? then {n} else {});
    }
  }
}
