/** The objects of sdk/proxyclient: the breaker with its fields, and the client
    whose calls drive it. Every method is specified by the breaker calls it
    makes, so the run theorems of BreakerModel apply to any history of calls.
 */
module ProxyClient {
  import opened BreakerModel
  import opened Sequences
  import W = Wrappers

  class Breaker {
    const cfg: Settings
    var phase: Phase
    var failures: int
    var firstFail: Time
    var openedAt: Time

    ghost function Abs(): State
      reads this
    {
      State(phase, failures, firstFail, openedAt)
    }

    constructor (threshold: int, window: Duration, cooldown: Duration)
      ensures cfg == Settings(threshold, window, cooldown)
      ensures Abs() == INITIAL
    {
      cfg := Settings(threshold, window, cooldown);
      phase, failures, firstFail, openedAt := Closed, 0, ZERO_TIME, ZERO_TIME;
    }

    method Allow(now: Time) returns (ok: bool)
      modifies this
      ensures ok == Grants(cfg, old(Abs()), now)
      ensures Abs() == Step(cfg, old(Abs()), Op.Allow(now))
    {
      match phase
      case Closed => return true;
      case Open =>
        if now - openedAt >= cfg.cooldown {
          phase := HalfOpen;
          return true;
        }
        return false;
      case HalfOpen => return false;
    }

    method Success(now: Time)
      modifies this
      ensures Abs() == Step(cfg, old(Abs()), Op.Success(now))
    {
      failures := 0;
      firstFail := ZERO_TIME;
      if phase != Closed {
        phase := Closed;
      }
    }

    method Failure(now: Time)
      modifies this
      ensures Abs() == Step(cfg, old(Abs()), Op.Failure(now))
    {
      match phase {
        case HalfOpen =>
          phase := Open;
          openedAt := now;
          return;
        case Open =>
          return;
        case Closed =>
      }
      if failures == 0 || now - firstFail > cfg.window {
        firstFail := now;
        failures := 1;
        return;
      }
      failures := failures + 1;
      if failures >= cfg.threshold {
        phase := Open;
        openedAt := now;
      }
    }
  }

  datatype Assignment = Assignment(proxyID: string, proxyHost: string, proxyAddress: string)

  /** What kind of HTTP client a call hands out. */
  datatype Route = Direct | Proxied(url: string)

  /** How a round trip through the proxy ended. */
  datatype Outcome = TransportError | Response(status: int, proxyHeader: string)

  const SECOND: Duration := 1_000_000_000
  const DEFAULT_ERRORS := 3
  const DEFAULT_WINDOW := 30 * SECOND
  const DEFAULT_COOLDOWN := 60 * SECOND

  predicate HasPrefix(s: string, prefix: string) {
    |prefix| <= |s| && s[..|prefix|] == prefix
  }

  function EnsureScheme(address: string): string {
    if HasPrefix(address, "http://") || HasPrefix(address, "https://") then address
    else "http://" + address
  }

  /** A bare address gets the plain scheme; one that names a scheme is left alone. */
  lemma SchemeSpelledOut(rest: string)
    ensures EnsureScheme("http://" + rest) == "http://" + rest
    ensures EnsureScheme("https://" + rest) == "https://" + rest
    ensures !("http://" <= rest) && !("https://" <= rest) ==> EnsureScheme(rest) == "http://" + rest
  {
    assert ("http://" + rest)[..7] == "http://" && ("https://" + rest)[..8] == "https://";
  }

  class Client {
    const br: Breaker
    var current: W.Option<Assignment>

    constructor (errors: int, window: Duration, cooldown: Duration)
      ensures fresh(br) && br.Abs() == INITIAL && current == W.None
      ensures br.cfg.threshold == if errors > 0 then errors else 3
      ensures br.cfg.window == if window > 0 then window else 30_000_000_000
      ensures br.cfg.cooldown == if cooldown > 0 then cooldown else 60_000_000_000
    {
      var b := new Breaker(
        if errors <= 0 then DEFAULT_ERRORS else errors,
        if window <= 0 then DEFAULT_WINDOW else window,
        if cooldown <= 0 then DEFAULT_COOLDOWN else cooldown);
      br := b;
      current := W.None;
    }

    /** What HTTPClient does behind a granted attempt. Other callers may have been at
        the breaker since. An address that does not parse is one failure; a missing
        assignment spends the attempt, and the breaker is not told how it ended.
        `parse` is the standard library's URL parser. */
    method PickRoute(parse: string -> W.Option<string>, failAt: Time) returns (route: Route)
      modifies br
      ensures current.None? || current.value.proxyAddress == "" ==> route == Direct && br.Abs() == old(br.Abs())
      ensures current.Some? && current.value.proxyAddress != "" ==>
                var url := parse(EnsureScheme(current.value.proxyAddress));
                if url.Some? then route == Proxied(url.value) && br.Abs() == old(br.Abs())
                else route == Direct && br.Abs() == Step(br.cfg, old(br.Abs()), Op.Failure(failAt))
    {
      if current.None? || current.value.proxyAddress == "" {
        return Direct;
      }
      var proxyURL := parse(EnsureScheme(current.value.proxyAddress));
      if proxyURL.None? {
        br.Failure(failAt);
        return Direct;
      }
      return Proxied(proxyURL.value);
    }

    /** One caller's run; `allowAt` and `failAt` are the clock readings inside the
        breaker. */
    method HTTPClient(useGlobalCache: bool, parse: string -> W.Option<string>, allowAt: Time, failAt: Time)
      returns (route: Route)
      modifies br
      ensures !useGlobalCache ==> route == Direct && br.Abs() == old(br.Abs())
      ensures useGlobalCache ==>
                var address := if current.None? then "" else current.value.proxyAddress;
                var url := parse(EnsureScheme(address));
                var allowed := Run(br.cfg, old(br.Abs()), [Op.Allow(allowAt)]);
                if !Grants(br.cfg, old(br.Abs()), allowAt) || address == "" then
                  route == Direct && br.Abs() == allowed
                else if url.Some? then route == Proxied(url.value) && br.Abs() == allowed
                else
                  && route == Direct
                  && br.Abs() == Run(br.cfg, old(br.Abs()), [Op.Allow(allowAt), Op.Failure(failAt)])
    {
      if !useGlobalCache {
        return Direct;
      }
      RunOfOne(br.cfg, br.Abs(), Op.Allow(allowAt));
      RunOfTwo(br.cfg, br.Abs(), Op.Allow(allowAt), Op.Failure(failAt));
      var ok := br.Allow(allowAt);
      if !ok {
        return Direct;
      }
      route := PickRoute(parse, failAt);
    }

    /** `fetched` is what the controlplane answered. */
    method RefreshOnce(fetched: W.Result<Assignment, string>, now: Time)
      modifies this, br
      ensures fetched.Failure? ==>
                current == old(current) &&
                br.Abs() == Step(br.cfg, old(br.Abs()), Op.Failure(now))
      ensures fetched.Success? ==>
                current == W.Some(fetched.value) &&
                br.Abs() == Step(br.cfg, old(br.Abs()), Op.Success(now))
    {
      if fetched.Failure? {
        br.Failure(now);
        return;
      }
      current := W.Some(fetched.value);
      br.Success(now);
    }

    method RoundTrip(outcome: Outcome, now: Time)
      modifies br
      ensures outcome.TransportError? ==> br.Abs() == Step(br.cfg, old(br.Abs()), Op.Failure(now))
      ensures outcome.Response? ==>
                br.Abs() == Step(br.cfg, old(br.Abs()),
                                 if outcome.status >= 500 && outcome.proxyHeader != "" then Op.Failure(now)
                                 else Op.Success(now))
    {
      if outcome.TransportError? {
        br.Failure(now);
        return;
      }
      if outcome.status >= 500 && outcome.proxyHeader != "" {
        br.Failure(now);
        return;
      }
      br.Success(now);
    }
  }

  lemma RunOfOne(cfg: Settings, s: State, op: Op)
    ensures Run(cfg, s, [op]) == Step(cfg, s, op)
  {
    assert Init([op]) == [];
  }

  lemma RunOfTwo(cfg: Settings, s: State, a: Op, b: Op)
    ensures Run(cfg, s, [a, b]) == Step(cfg, Step(cfg, s, a), b)
  {
    assert Init([a, b]) == [a];
    RunOfOne(cfg, s, a);
  }
}
