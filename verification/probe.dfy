/** Classification of one HTTP check into a status and a latency. The
    request itself, its timeout and the clock are outside the model: the
    caller supplies what the request produced and the elapsed milliseconds. */
module Probe {
  import opened Common

  datatype Status = Up | Down

  /** What an HTTP GET produced: a response carrying its status code, or an
      exception raised before any response (timeout, DNS failure, refused
      connection, TLS error, ...). */
  datatype Response = Received(code: int) | TransportError

  /** One classified check. An absent latency means the probe never completed. */
  datatype CheckResult = CheckResult(latencyMs: Option<int>, status: Status)

  /** The scheduled prober's rule: 2xx and 3xx are up, every other code is
      down, and a transport failure is down with no latency. */
  function CheckEndpoint(resp: Response, elapsedMs: nat): (r: CheckResult)
    ensures r.status == Up <==> resp.Received? && 200 <= resp.code < 400
    ensures resp.Received? ==> r.latencyMs == Some(elapsedMs)
    ensures resp.TransportError? ==> r == CheckResult(None, Down)
    ensures r.status == Up ==> r.latencyMs.Some?
  {
    match resp
    case Received(code) =>
      if 200 <= code < 400 then CheckResult(Some(elapsedMs), Up)
      else CheckResult(Some(elapsedMs), Down)
    case TransportError => CheckResult(None, Down)
  }

  /** The on-demand rule of the API: any received code below 500 is up.
      Its elapsed time comes from the wall clock and may be negative. */
  function ManualMeasure(resp: Response, elapsedMs: int): (r: CheckResult)
    ensures r.status == Up <==> resp.Received? && resp.code < 500
    ensures resp.Received? ==> r.latencyMs == Some(elapsedMs)
    ensures resp.TransportError? ==> r == CheckResult(None, Down)
  {
    match resp
    case Received(code) => CheckResult(Some(elapsedMs), if code < 500 then Up else Down)
    case TransportError => CheckResult(None, Down)
  }

  /** The two rules give different results exactly for informational (below
      200) and client-error (400-499) codes; there the worker says down and
      the manual trigger says up. */
  lemma ClassifiersDisagreeExactly(resp: Response, elapsedMs: nat)
    ensures CheckEndpoint(resp, elapsedMs) != ManualMeasure(resp, elapsedMs)
        <==> resp.Received? && (resp.code < 200 || 400 <= resp.code < 500)
    ensures CheckEndpoint(resp, elapsedMs) != ManualMeasure(resp, elapsedMs)
        ==> CheckEndpoint(resp, elapsedMs).status == Down && ManualMeasure(resp, elapsedMs).status == Up
  {
  }
}
