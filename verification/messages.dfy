/** The human-readable texts of the two alert kinds the worker records
    (worker/worker.py, lines 116 and 129), and a parser that recovers their
    parameters: a message names the failure count or the latency and
    threshold it was raised for. */
module Messages {
  import opened Common
  import opened Decimal

  datatype AlertMessage =
    | DownFor(failures: int)
    | LatencyExceeded(latencyMs: int, thresholdMs: int)

  const DownPrefix: string := "Endpoint is DOWN for "
  const DownSuffix: string := " consecutive checks"
  const LatencyPrefix: string := "Latency "
  const LatencyMiddle: string := " ms exceeded threshold "
  const LatencySuffix: string := " ms"

  function Render(m: AlertMessage): string {
    match m
    case DownFor(n) => DownPrefix + Show(n) + DownSuffix
    case LatencyExceeded(l, t) => LatencyPrefix + Show(l) + LatencyMiddle + Show(t) + LatencySuffix
  }

  function StripPrefix(p: string, s: string): (r: Option<string>)
    ensures r.Some? <==> |p| <= |s| && s[..|p|] == p
    ensures r.Some? ==> s == p + r.value
  {
    if |p| <= |s| && s[..|p|] == p then Some(s[|p|..]) else None
  }

  function Parse(s: string): Option<AlertMessage> {
    match StripPrefix(DownPrefix, s)
    case Some(tail) =>
      (match ReadInt(tail)
       case Some((n, rest)) => if rest == DownSuffix then Some(DownFor(n)) else None
       case None => None)
    case None =>
      (match StripPrefix(LatencyPrefix, s)
       case None => None
       case Some(tail) =>
         (match ReadInt(tail)
          case None => None
          case Some((l, rest)) =>
            (match StripPrefix(LatencyMiddle, rest)
             case None => None
             case Some(tail') =>
               (match ReadInt(tail')
                case None => None
                case Some((t, rest')) =>
                  if rest' == LatencySuffix then Some(LatencyExceeded(l, t)) else None))))
  }

  lemma StripPrefixOfConcat(p: string, r: string)
    ensures StripPrefix(p, p + r) == Some(r)
  {
    assert (p + r)[..|p|] == p;
    assert (p + r)[|p|..] == r;
  }

  lemma {:induction false} ParseRenderDown(n: int)
    ensures Parse(Render(DownFor(n))) == Some(DownFor(n))
  {
    assert Render(DownFor(n)) == DownPrefix + (Show(n) + DownSuffix);
    StripPrefixOfConcat(DownPrefix, Show(n) + DownSuffix);
    ReadShow(n, DownSuffix);
  }

  lemma {:induction false} ParseRenderLatency(l: int, t: int)
    ensures Parse(Render(LatencyExceeded(l, t))) == Some(LatencyExceeded(l, t))
  {
    var s := Render(LatencyExceeded(l, t));
    assert s[0] == 'L' && DownPrefix[0] == 'E';
    assert StripPrefix(DownPrefix, s).None?;
    var afterMiddle := Show(t) + LatencySuffix;
    var afterL := LatencyMiddle + afterMiddle;
    assert s == LatencyPrefix + (Show(l) + afterL);
    StripPrefixOfConcat(LatencyPrefix, Show(l) + afterL);
    ReadShow(l, afterL);
    StripPrefixOfConcat(LatencyMiddle, afterMiddle);
    ReadShow(t, LatencySuffix);
  }

  /** Every rendered message parses back to the parameters it was built from. */
  lemma {:induction false} ParseRender(m: AlertMessage)
    ensures Parse(Render(m)) == Some(m)
  {
    match m
    case DownFor(n) => ParseRenderDown(n);
    case LatencyExceeded(l, t) => ParseRenderLatency(l, t);
  }

  /** Distinct alert parameters never produce the same text. */
  lemma RenderInjective(a: AlertMessage, b: AlertMessage)
    ensures Render(a) == Render(b) ==> a == b
  {
    ParseRender(a);
    ParseRender(b);
  }
}
