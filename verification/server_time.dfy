/** Server clock synchronisation (lib/serverTime.ts). The two `Date.now()`
    readings around the request and the server's reply are parameters; the
    module variable holding the delta is threaded through as a value. */
module ServerTime {
  import opened Base

  /** The largest accepted distance between server and client clocks: one
      day in milliseconds. */
  const MaxDelta: int := 24 * 60 * 60 * 1000

  const FetchFailed := "Failed to fetch server time"
  const NotATimestamp := "Server did not respond with a timestamp"
  const MaxDeltaExceeded := "MAX_DELTA exceeded"

  /** What the fetch produced: the `ok` flag and the reply body as text. */
  datatype Reply = Reply(ok: bool, body: string)

  /** The regular expression `^\d{13}$`. */
  predicate IsTimestamp(s: string) {
    |s| == 13 && IsDigits(s)
  }

  /** `getServerTimeDelta`: the server time minus the midpoint of the two
      client readings, refused beyond one day either way. */
  function ServerTimeDelta(requestTime: int, reply: Reply, responseTime: int): (r: Result<real, string>)
    ensures !reply.ok ==> r == Err(FetchFailed)
    ensures reply.ok && !IsTimestamp(reply.body) ==> r == Err(NotATimestamp)
    ensures r.Ok? ==> reply.ok && IsTimestamp(reply.body)
    ensures r.Ok? ==> r.value == DecimalValue(reply.body) as real - (requestTime + responseTime) as real / 2.0
    ensures r.Ok? ==> -MaxDelta as real <= r.value <= MaxDelta as real
    ensures reply.ok && IsTimestamp(reply.body) ==>
      (r.Err? <==> Abs(DecimalValue(reply.body) as real - (requestTime + responseTime) as real / 2.0) > MaxDelta as real)
  {
    if !reply.ok then Err(FetchFailed)
    else if !IsTimestamp(reply.body) then Err(NotATimestamp)
    else
      var serverTime := DecimalValue(reply.body) as real;
      var clientTime := (requestTime + responseTime) as real / 2.0;
      var delta := serverTime - clientTime;
      if Abs(delta) > MaxDelta as real then Err(MaxDeltaExceeded) else Ok(delta)
  }

  function Abs(x: real): real {
    if x < 0.0 then -x else x
  }

  /** Every reply that passes the digit test denotes a time below 10^13 ms. */
  lemma TimestampBound(s: string)
    requires IsTimestamp(s)
    ensures DecimalValue(s) < 10_000_000_000_000
  {
    DecimalValueBound(s);
    assert Pow10(13) == 10_000_000_000_000;
  }

  /** The stored delta, when there is one, is at most a day either way. */
  predicate WithinADay(delta: Option<real>) {
    delta.Some? ==> -MaxDelta as real <= delta.value <= MaxDelta as real
  }

  /** The state after `synchronizeTime` and the error it rethrows, if any. */
  datatype SyncResult = SyncResult(delta: Option<real>, thrown: Option<string>)

  /** `synchronizeTime`: stores the delta on success; on failure keeps the
      previous one and rethrows only outside production. */
  function SynchronizeTime(previous: Option<real>, isProduction: bool,
                           requestTime: int, reply: Reply, responseTime: int): (r: SyncResult)
    ensures WithinADay(previous) ==> WithinADay(r.delta)
    ensures ServerTimeDelta(requestTime, reply, responseTime).Ok? ==>
      r == SyncResult(Some(ServerTimeDelta(requestTime, reply, responseTime).value), None)
    ensures ServerTimeDelta(requestTime, reply, responseTime).Err? ==> r.delta == previous
    ensures r.thrown.Some? <==> ServerTimeDelta(requestTime, reply, responseTime).Err? && !isProduction
  {
    match ServerTimeDelta(requestTime, reply, responseTime)
    case Ok(d) => SyncResult(Some(d), None)
    case Err(msg) => SyncResult(previous, if isProduction then None else Some(msg))
  }

  /** `getServerTime`: the local clock corrected by the last delta, or the
      local clock when no synchronisation has succeeded. */
  function GetServerTime(now: int, delta: Option<real>): (r: real)
    ensures delta.None? ==> r == now as real
    ensures delta.Some? ==> r - now as real == delta.value
  {
    now as real + delta.GetOr(0.0)
  }

  /** After a successful synchronisation the server time is the local clock
      shifted by at most a day. */
  lemma SynchronizedTimeIsClose(previous: Option<real>, isProduction: bool,
                                requestTime: int, reply: Reply, responseTime: int, now: int)
    requires ServerTimeDelta(requestTime, reply, responseTime).Ok?
    ensures var t := GetServerTime(now, SynchronizeTime(previous, isProduction, requestTime, reply, responseTime).delta);
            now as real - MaxDelta as real <= t <= now as real + MaxDelta as real
  {
  }
}
