/** The circuit breaker of sdk/proxyclient/breaker.go as a timed state machine,
    and what it guarantees over whole runs.

    Times are nanoseconds read from one monotonic clock. The breaker reads the
    clock while holding its mutex, so the calls of any interleaving form one
    sequence of operations whose times never decrease.
 */
module BreakerModel {
  import opened Sequences

  type Time = int
  type Duration = int

  /** The zero time that `success` writes into the first-failure field. */
  const ZERO_TIME: Time := 0

  datatype Settings = Settings(threshold: int, window: Duration, cooldown: Duration)

  datatype Phase = Closed | Open | HalfOpen

  datatype State = State(phase: Phase, failures: int, firstFail: Time, openedAt: Time)

  const INITIAL := State(Closed, 0, ZERO_TIME, ZERO_TIME)

  /** One locked call on the breaker. */
  datatype Op = Allow(at: Time) | Success(at: Time) | Failure(at: Time)

  predicate Grants(cfg: Settings, s: State, now: Time) {
    s.phase.Closed? || (s.phase.Open? && now - s.openedAt >= cfg.cooldown)
  }

  function AfterAllow(cfg: Settings, s: State, now: Time): State {
    if s.phase.Open? && now - s.openedAt >= cfg.cooldown then s.(phase := HalfOpen) else s
  }

  function AfterSuccess(s: State): State {
    State(Closed, 0, ZERO_TIME, s.openedAt)
  }

  function AfterFailure(cfg: Settings, s: State, now: Time): State {
    match s.phase
    case HalfOpen => s.(phase := Open, openedAt := now)
    case Open => s
    case Closed =>
      if s.failures == 0 || now - s.firstFail > cfg.window then
        s.(failures := 1, firstFail := now)
      else if s.failures + 1 >= cfg.threshold then
        s.(failures := s.failures + 1, phase := Open, openedAt := now)
      else
        s.(failures := s.failures + 1)
  }

  function Step(cfg: Settings, s: State, op: Op): State {
    match op
    case Allow(now) => AfterAllow(cfg, s, now)
    case Success(_) => AfterSuccess(s)
    case Failure(now) => AfterFailure(cfg, s, now)
  }

  /** The state after a run of calls, oldest call first. */
  function Run(cfg: Settings, s: State, ops: seq<Op>): State {
    if ops == [] then s else Step(cfg, Run(cfg, s, Init(ops)), Last(ops))
  }

  ghost predicate Monotonic(ops: seq<Op>) {
    forall i, j :: 0 <= i < j < |ops| ==> ops[i].at <= ops[j].at
  }

  ghost predicate SuccessFree(ops: seq<Op>) {
    forall i :: 0 <= i < |ops| ==> !ops[i].Success?
  }

  function FailureCount(ops: seq<Op>): nat {
    if ops == [] then 0 else FailureCount(Init(ops)) + if Last(ops).Failure? then 1 else 0
  }

  /** The number of failures that open a closed breaker whose count is zero.
      The first failure returns before the comparison, so 1 behaves as 2. */
  function Trip(cfg: Settings): int {
    if cfg.threshold < 2 then 2 else cfg.threshold
  }

  /** Joining two runs end to end. */
  lemma {:induction false} RunConcat(cfg: Settings, s: State, a: seq<Op>, b: seq<Op>)
    ensures Run(cfg, s, a + b) == Run(cfg, Run(cfg, s, a), b)
    ensures FailureCount(a + b) == FailureCount(a) + FailureCount(b)
  {
    if b == [] {
      assert a + b == a;
    } else {
      assert Init(a + b) == a + Init(b);
      RunConcat(cfg, s, a, Init(b));
    }
  }

  // ---- The count tells the phase ------------------------------------------

  /** While closed the count is below the trip point; open or half-open it equals it. */
  ghost predicate CountFits(cfg: Settings, s: State) {
    if s.phase.Closed? then 0 <= s.failures < Trip(cfg) else s.failures == Trip(cfg)
  }

  lemma {:induction false} CountTellsPhase(cfg: Settings, s: State, ops: seq<Op>)
    requires CountFits(cfg, s)
    ensures CountFits(cfg, Run(cfg, s, ops))
  {
    if ops != [] {
      CountTellsPhase(cfg, s, Init(ops));
    }
  }

  // ---- The breaker opens only for cause -----------------------------------

  /** `h[i..]` starts with the failure that anchors the window, holds exactly
      `count` failures and no success, and every failure in it is within the
      window of that first one. */
  ghost predicate Cause(cfg: Settings, h: seq<Op>, i: nat, count: int) {
    && i < |h|
    && h[i].Failure?
    && SuccessFree(h[i..])
    && FailureCount(h[i..]) == count
    && forall j :: i <= j < |h| && h[j].Failure? ==> h[j].at - h[i].at <= cfg.window
  }

  /** A closed breaker with a positive count has a cause for that count in its history. */
  ghost predicate CountIsCaused(cfg: Settings, h: seq<Op>) {
    var s := Run(cfg, INITIAL, h);
    s.phase.Closed? && s.failures > 0 ==>
      exists i: nat :: Cause(cfg, h, i, s.failures) && h[i].at == s.firstFail
  }

  lemma CauseExtends(cfg: Settings, h: seq<Op>, op: Op, i: nat, count: int)
    requires Cause(cfg, h, i, count)
    requires !op.Success?
    requires op.Failure? ==> op.at - h[i].at <= cfg.window
    ensures Cause(cfg, h + [op], i, count + if op.Failure? then 1 else 0)
  {
    var h' := h + [op];
    assert h'[i..] == h[i..] + [op];
    assert Init(h'[i..]) == h[i..] && Last(h'[i..]) == op;
  }

  lemma CauseStarts(cfg: Settings, h: seq<Op>, op: Op)
    requires op.Failure? && cfg.window >= 0
    ensures Cause(cfg, h + [op], |h|, 1)
  {
    var h' := h + [op];
    assert h'[|h|..] == [op];
    assert Init([op]) == [] && FailureCount([op]) == 1;
  }

  lemma {:induction false} ClosedCountIsCaused(cfg: Settings, h: seq<Op>)
    requires cfg.window >= 0
    ensures CountIsCaused(cfg, h)
  {
    if h != [] {
      var (p, op) := (Init(h), Last(h));
      ClosedCountIsCaused(cfg, p);
      CountTellsPhase(cfg, INITIAL, p);
      var (s, s') := (Run(cfg, INITIAL, p), Run(cfg, INITIAL, h));
      assert h == p + [op];
      if s'.phase.Closed? && s'.failures > 0 {
        assert s.phase.Closed? && !op.Success?;
        if op.Failure? && s'.failures == 1 {
          CauseStarts(cfg, p, op);
          assert Cause(cfg, h, |p|, s'.failures) && h[|p|].at == s'.firstFail;
        } else {
          var i: nat :| Cause(cfg, p, i, s.failures) && p[i].at == s.firstFail;
          CauseExtends(cfg, p, op, i, s.failures);
          assert Cause(cfg, h, i, s'.failures) && h[i].at == s'.firstFail;
        }
      }
    }
  }

  /** Whenever a call takes a fresh breaker's history from closed to open, that
      call is a failure and it ends a stretch of exactly `Trip(cfg)` failures
      with no success between them, all within the window of the first. */
  lemma OpensOnlyForCause(cfg: Settings, h: seq<Op>, op: Op)
    requires cfg.window >= 0
    requires Run(cfg, INITIAL, h).phase.Closed?
    requires !Run(cfg, INITIAL, h + [op]).phase.Closed?
    ensures op.Failure? && Run(cfg, INITIAL, h + [op]).phase.Open?
    ensures exists i: nat :: Cause(cfg, h + [op], i, Trip(cfg))
  {
    var (s, h') := (Run(cfg, INITIAL, h), h + [op]);
    assert Init(h') == h && Last(h') == op;
    ClosedCountIsCaused(cfg, h);
    CountTellsPhase(cfg, INITIAL, h);
    CountTellsPhase(cfg, INITIAL, h');
    var i: nat :| Cause(cfg, h, i, s.failures) && h[i].at == s.firstFail;
    CauseExtends(cfg, h, op, i, s.failures);
    assert Cause(cfg, h', i, Trip(cfg));
  }

  // ---- How fast a closed breaker reacts -----------------------------------

  /** All failures of the run lie within one window of each other. */
  ghost predicate SpansWindow(cfg: Settings, ops: seq<Op>) {
    forall i, j :: 0 <= i < j < |ops| && ops[i].Failure? && ops[j].Failure? ==>
      ops[j].at - ops[i].at <= cfg.window
  }

  /** Where a still closed breaker stands after `n` failures of the run: either
      it has kept the anchor it started with, or it re-anchored at a failure of
      this very run, having missed at most Trip - 2 of them. */
  ghost predicate OnTrack(cfg: Settings, s: State, ops: seq<Op>) {
    var (r, n) := (Run(cfg, s, ops), FailureCount(ops));
    r.phase.Closed? ==>
      || (r.failures == s.failures + n && r.firstFail == s.firstFail && (n == 0 || s.failures > 0))
      || (r.failures >= 1 && r.failures >= n - (if s.failures == 0 then 0 else Trip(cfg) - 2)
          && exists i :: 0 <= i < |ops| && ops[i].Failure? && ops[i].at == r.firstFail)
  }

  lemma {:induction false} StaysOnTrack(cfg: Settings, s: State, ops: seq<Op>)
    requires s.phase.Closed? && CountFits(cfg, s)
    requires SuccessFree(ops) && SpansWindow(cfg, ops)
    ensures OnTrack(cfg, s, ops)
  {
    if ops != [] {
      var (p, op) := (Init(ops), Last(ops));
      StaysOnTrack(cfg, s, p);
      CountTellsPhase(cfg, s, p);
      var (r, r') := (Run(cfg, s, p), Run(cfg, s, ops));
      if r'.phase.Closed? {
        assert r.phase.Closed?;
        if i :| 0 <= i < |p| && p[i].Failure? && p[i].at == r.firstFail {
          assert ops[i].Failure? && ops[i].at == r.firstFail;
        }
        assert op.Failure? ==> ops[|ops| - 1].Failure?;
      }
    }
  }

  /** From any closed state the breaker can be in, 2T - 2 failures within one
      window and with no success between them leave it open right after the
      last one, whatever `allow` calls are interleaved. From a zero count, T do. */
  lemma ReactsWithinBound(cfg: Settings, s: State, ops: seq<Op>)
    requires s.phase.Closed? && CountFits(cfg, s)
    requires ops != [] && Last(ops).Failure?
    requires SuccessFree(ops) && SpansWindow(cfg, ops)
    requires FailureCount(ops) >= if s.failures == 0 then Trip(cfg) else 2 * Trip(cfg) - 2
    ensures Run(cfg, s, ops).phase.Open?
  {
    StaysOnTrack(cfg, s, ops);
    CountTellsPhase(cfg, s, ops);
    CountTellsPhase(cfg, s, Init(ops));
  }

  /** `n` failures at one instant. */
  function Burst(n: nat, at: Time): (ops: seq<Op>)
    ensures |ops| == n
    ensures forall i :: 0 <= i < n ==> ops[i] == Failure(at)
  {
    seq(n, _ => Failure(at))
  }

  /** A burst inside the window only raises the count, as long as it stays below the trip point. */
  lemma {:induction false} BurstCounts(cfg: Settings, s: State, n: nat, at: Time)
    requires s.phase.Closed? && s.failures >= 1
    requires at - s.firstFail <= cfg.window
    requires s.failures + n < Trip(cfg)
    ensures Run(cfg, s, Burst(n, at)) == s.(failures := s.failures + n)
    ensures FailureCount(Burst(n, at)) == n
  {
    if n > 0 {
      assert Init(Burst(n, at)) == Burst(n - 1, at);
      BurstCounts(cfg, s, n - 1, at);
    }
  }

  /** The bound is tight: one failure at time 0 makes the count one, T - 2 more
      come at the very end of its window, and the next one, a nanosecond later,
      re-anchors; another T - 2 then still leave the breaker closed. */
  function SlowRun(cfg: Settings): (ops: seq<Op>)
    ensures |ops| == 2 * Trip(cfg) - 3
    ensures forall i :: 0 <= i < |ops| ==>
              ops[i] == Failure(if i < Trip(cfg) - 2 then cfg.window else cfg.window + 1)
  {
    Burst(Trip(cfg) - 2, cfg.window)
    + [Failure(cfg.window + 1)]
    + Burst(Trip(cfg) - 2, cfg.window + 1)
  }

  lemma SlowRunStaysClosed(cfg: Settings, s: State)
    requires cfg.window >= 1 && s == State(Closed, 1, 0, ZERO_TIME)
    ensures FailureCount(SlowRun(cfg)) == 2 * Trip(cfg) - 3
    ensures Run(cfg, s, SlowRun(cfg)).phase.Closed?
  {
    var (n, w) := (Trip(cfg) - 2, cfg.window);
    SlowRunReanchors(cfg, s);
    BurstCounts(cfg, State(Closed, 1, w + 1, ZERO_TIME), n, w + 1);
    RunConcat(cfg, s, Burst(n, w) + [Failure(w + 1)], Burst(n, w + 1));
  }

  lemma SlowRunReanchors(cfg: Settings, s: State)
    requires cfg.window >= 1 && s == State(Closed, 1, 0, ZERO_TIME)
    ensures var a := Burst(Trip(cfg) - 2, cfg.window) + [Failure(cfg.window + 1)];
            Run(cfg, s, a) == State(Closed, 1, cfg.window + 1, ZERO_TIME) && FailureCount(a) == Trip(cfg) - 1
  {
    var (a, op) := (Burst(Trip(cfg) - 2, cfg.window), Failure(cfg.window + 1));
    BurstCounts(cfg, s, Trip(cfg) - 2, cfg.window);
    assert Init(a + [op]) == a && Last(a + [op]) == op;
  }

  lemma BoundIsTight(cfg: Settings)
    requires cfg.window >= 1
    ensures var s := Run(cfg, INITIAL, [Failure(0)]);
            var ops := SlowRun(cfg);
            && s.phase.Closed? && CountFits(cfg, s)
            && FailureCount(ops) == 2 * Trip(cfg) - 3
            && SuccessFree(ops) && Monotonic(ops) && SpansWindow(cfg, ops)
            && Run(cfg, s, ops).phase.Closed?
  {
    assert Init([Failure(0)]) == [] && Run(cfg, INITIAL, []) == INITIAL;
    SlowRunStaysClosed(cfg, Run(cfg, INITIAL, [Failure(0)]));
  }

  // ---- How often an open breaker lets a probe through ----------------------

  /** The granted `allow` calls of a run. */
  function GrantCount(cfg: Settings, s: State, ops: seq<Op>): nat {
    if ops == [] then 0
    else GrantCount(cfg, s, Init(ops)) +
         if Last(ops).Allow? && Grants(cfg, Run(cfg, s, Init(ops)), Last(ops).at) then 1 else 0
  }

  /** The run's calls come in time order, none before the breaker opened. */
  ghost predicate After(s: State, ops: seq<Op>) {
    Monotonic(ops) && forall i :: 0 <= i < |ops| ==> s.openedAt <= ops[i].at
  }

  /** The earliest time of the k-th grant: one cooldown after the one before. */
  function Due(cfg: Settings, s: State, k: nat): Time {
    if k == 0 then s.openedAt else Due(cfg, s, k - 1) + cfg.cooldown
  }

  lemma {:induction false} DueIsLinear(cfg: Settings, s: State, k: nat)
    ensures Due(cfg, s, k) == s.openedAt + k * cfg.cooldown
  {
    if k > 0 {
      DueIsLinear(cfg, s, k - 1);
      assert k * cfg.cooldown == (k - 1) * cfg.cooldown + cfg.cooldown;
    }
  }

  lemma {:induction false} GrantsAreSpaced(cfg: Settings, s: State, ops: seq<Op>)
    requires s.phase.Open? && SuccessFree(ops) && After(s, ops)
    ensures var (r, due) := (Run(cfg, s, ops), Due(cfg, s, GrantCount(cfg, s, ops)));
            && !r.phase.Closed?
            && (r.phase.Open? ==> r.openedAt >= due)
            && (r.phase.HalfOpen? ==> ops != [] && Last(ops).at >= due)
  {
    if ops != [] {
      GrantsAreSpaced(cfg, s, Init(ops));
    }
  }

  /** Probe rate bound. In a success-free stretch that starts open, the k-th
      granted attempt comes no earlier than openedAt + k * cooldown, under every
      interleaving of attempts and failures. */
  lemma ProbeRateBound(cfg: Settings, s: State, ops: seq<Op>)
    requires s.phase.Open? && SuccessFree(ops) && After(s, ops)
    requires ops != [] && Last(ops).Allow? && Grants(cfg, Run(cfg, s, Init(ops)), Last(ops).at)
    ensures Last(ops).at >= s.openedAt + GrantCount(cfg, s, ops) * cfg.cooldown
  {
    GrantsAreSpaced(cfg, s, ops);
    DueIsLinear(cfg, s, GrantCount(cfg, s, ops));
  }

  lemma {:induction false} GrantsFitElapsedTime(cfg: Settings, s: State, ops: seq<Op>)
    requires s.phase.Open? && SuccessFree(ops) && After(s, ops)
    requires ops != [] && cfg.cooldown > 0
    ensures Due(cfg, s, GrantCount(cfg, s, ops)) <= Last(ops).at
  {
    if Last(ops).Allow? && Grants(cfg, Run(cfg, s, Init(ops)), Last(ops).at) {
      GrantsAreSpaced(cfg, s, ops);
    } else if Init(ops) != [] {
      GrantsFitElapsedTime(cfg, s, Init(ops));
    }
  }

  /** The number of grants never exceeds elapsed time over cooldown, rounded down. */
  lemma GrantsPerCooldown(cfg: Settings, s: State, ops: seq<Op>)
    requires s.phase.Open? && SuccessFree(ops) && After(s, ops)
    requires ops != [] && cfg.cooldown > 0
    ensures GrantCount(cfg, s, ops) <= (Last(ops).at - s.openedAt) / cfg.cooldown
  {
    var k := GrantCount(cfg, s, ops);
    GrantsFitElapsedTime(cfg, s, ops);
    DueIsLinear(cfg, s, k);
    FloorBound(k, Last(ops).at - s.openedAt, cfg.cooldown);
  }

  lemma FloorBound(k: int, x: int, d: int)
    requires d > 0 && k * d <= x
    ensures k <= x / d
  {
    var (q, r) := (x / d, x % d);
    QuotientBound(k, q, r, d);
  }

  lemma QuotientBound(k: int, q: int, r: int, d: int)
    requires 0 <= r < d && k * d <= q * d + r
    ensures k <= q
  {
    assert k * d - q * d == (k - q) * d;
    if k > q {
      AtLeastOnce(k - q, d);
      assert false;
    }
  }

  lemma AtLeastOnce(n: int, d: int)
    requires n >= 1 && d > 0
    ensures n * d >= d
  {}

  /** A granted probe whose outcome is never reported keeps the proxy out of use
      for good: in half-open state no number of `allow` calls is granted. */
  lemma {:induction false} UnreportedProbeBlocks(cfg: Settings, s: State, ops: seq<Op>)
    requires s.phase.HalfOpen?
    requires forall i :: 0 <= i < |ops| ==> ops[i].Allow?
    ensures Run(cfg, s, ops) == s && GrantCount(cfg, s, ops) == 0
  {
    if ops != [] {
      UnreportedProbeBlocks(cfg, s, Init(ops));
    }
  }

  // ---- When a probe is granted ---------------------------------------------

  /** Failures and refused attempts leave an open breaker exactly as it is. */
  lemma {:induction false} OpenWaits(cfg: Settings, s: State, ops: seq<Op>)
    requires s.phase.Open? && SuccessFree(ops) && GrantCount(cfg, s, ops) == 0
    ensures Run(cfg, s, ops) == s
  {
    if ops != [] {
      OpenWaits(cfg, s, Init(ops));
    }
  }

  /** The converse of the spacing: whatever fails in the meantime, the first attempt
      once the cooldown is over is granted, and none before. */
  lemma ProbeIsDueIff(cfg: Settings, s: State, ops: seq<Op>, at: Time)
    requires s.phase.Open? && SuccessFree(ops) && GrantCount(cfg, s, ops) == 0
    ensures Grants(cfg, Run(cfg, s, ops), at) <==> at >= s.openedAt + cfg.cooldown
  {
    OpenWaits(cfg, s, ops);
  }

  /** A failed probe starts the next cooldown at its own time. */
  lemma ReprobeIsDueIff(cfg: Settings, s: State, failed: Time, ops: seq<Op>, at: Time)
    requires s.phase.HalfOpen? && SuccessFree(ops)
    requires GrantCount(cfg, Run(cfg, s, [Failure(failed)]), ops) == 0
    ensures Grants(cfg, Run(cfg, s, [Failure(failed)] + ops), at) <==> at >= failed + cfg.cooldown
  {
    RunConcat(cfg, s, [Failure(failed)], ops);
    assert Init([Failure(failed)]) == [];
    ProbeIsDueIff(cfg, Run(cfg, s, [Failure(failed)]), ops, at);
  }

  /** A breaker that has just opened starts its cooldown at the failure that opened it. */
  lemma FirstProbeIsDueIff(cfg: Settings, h: seq<Op>, op: Op, ops: seq<Op>, at: Time)
    requires cfg.window >= 0 && Run(cfg, INITIAL, h).phase.Closed? && !Run(cfg, INITIAL, h + [op]).phase.Closed?
    requires SuccessFree(ops) && GrantCount(cfg, Run(cfg, INITIAL, h + [op]), ops) == 0
    ensures Grants(cfg, Run(cfg, INITIAL, h + [op] + ops), at) <==> at >= op.at + cfg.cooldown
  {
    OpensOnlyForCause(cfg, h, op);
    assert Init(h + [op]) == h && Last(h + [op]) == op;
    RunConcat(cfg, INITIAL, h + [op], ops);
    ProbeIsDueIff(cfg, Run(cfg, INITIAL, h + [op]), ops, at);
  }

  /** A granted probe is the only one: until it is reported nothing else is granted,
      and its success closes the breaker with a zero count. */
  lemma ProbeThenSuccess(cfg: Settings, s: State, at: Time, ops: seq<Op>, done: Time)
    requires s.phase.Open? && Grants(cfg, s, at) && forall i :: 0 <= i < |ops| ==> ops[i].Allow?
    ensures var half := Run(cfg, s, [Allow(at)]);
            && GrantCount(cfg, half, ops) == 0
            && Run(cfg, half, ops + [Success(done)]).phase.Closed?
            && Run(cfg, half, ops + [Success(done)]).failures == 0
  {
    assert Init([Allow(at)]) == [] && Run(cfg, s, []) == s;
    UnreportedProbeBlocks(cfg, Run(cfg, s, [Allow(at)]), ops);
    assert Init(ops + [Success(done)]) == ops;
  }

  // ---- When a success cuts the cooldown ------------------------------------

  /** A run that starts open stays out of the closed state until a success, and never
      reopens before it first opened. */
  lemma {:induction false} OpenUntilSuccess(cfg: Settings, s: State, ops: seq<Op>)
    requires s.phase.Open? && After(s, ops)
    ensures var r := Run(cfg, s, ops);
            && r.openedAt >= s.openedAt
            && (r.phase.Closed? ==> exists i :: 0 <= i < |ops| && ops[i].Success?)
    decreases |ops|
  {
    if ops != [] {
      var (p, op) := (Init(ops), Last(ops));
      OpenUntilSuccess(cfg, s, p);
      if i :| 0 <= i < |p| && p[i].Success? {
        assert ops[i].Success?;
      }
      assert op.Success? ==> ops[|ops| - 1].Success?;
    }
  }

  /** The cooldown bounds above hold without successes only, and this is all that a
      success can do to them: in any run that starts open, an attempt within the
      first cooldown is granted if and only if the breaker is closed at that point,
      which takes an earlier success. */
  lemma EarlyGrantIff(cfg: Settings, s: State, ops: seq<Op>, at: Time)
    requires s.phase.Open? && After(s, ops) && at < s.openedAt + cfg.cooldown
    ensures Grants(cfg, Run(cfg, s, ops), at) <==> Run(cfg, s, ops).phase.Closed?
    ensures Grants(cfg, Run(cfg, s, ops), at) ==> exists i :: 0 <= i < |ops| && ops[i].Success?
  {
    OpenUntilSuccess(cfg, s, ops);
  }

  /** From a zero count, fewer failures than trip the breaker leave it closed. */
  lemma {:induction false} FewFailuresKeepClosed(cfg: Settings, s: State, ops: seq<Op>)
    requires s.phase.Closed? && s.failures == 0 && FailureCount(ops) < Trip(cfg)
    ensures var r := Run(cfg, s, ops); r.phase.Closed? && 0 <= r.failures <= FailureCount(ops)
    decreases |ops|
  {
    if ops != [] {
      FewFailuresKeepClosed(cfg, s, Init(ops));
    }
  }

  /** When a breaker opens, in plain numbers: failures that come after a zero count and
      within one window of each other open it when there are two of them and as many as
      the threshold says, whatever attempts lie between them. */
  lemma OpensIff(cfg: Settings, s: State, ops: seq<Op>)
    requires s.phase.Closed? && s.failures == 0
    requires ops != [] && Last(ops).Failure? && forall i :: 0 <= i < |ops| ==> !ops[i].Success?
    requires forall i, j :: 0 <= i < j < |ops| && ops[i].Failure? && ops[j].Failure? ==>
               ops[j].at - ops[i].at <= cfg.window
    ensures Run(cfg, s, ops).phase.Open? <==> FailureCount(ops) >= 2 && FailureCount(ops) >= cfg.threshold
    ensures Run(cfg, s, ops).phase.Closed? <==> FailureCount(ops) < 2 || FailureCount(ops) < cfg.threshold
  {
    if FailureCount(ops) < Trip(cfg) {
      FewFailuresKeepClosed(cfg, s, ops);
    } else {
      ReactsWithinBound(cfg, s, ops);
    }
  }

  /** A success reported at any point of a run, followed by fewer failures than trip
      the breaker, has every attempt granted from then on, cooldown or not. */
  lemma LateSuccessCutsCooldown(cfg: Settings, s: State, before: seq<Op>, at: Time, ops: seq<Op>, now: Time)
    requires FailureCount(ops) < Trip(cfg)
    ensures Grants(cfg, Run(cfg, s, before + [Success(at)] + ops), now)
  {
    var h := before + [Success(at)];
    RunConcat(cfg, s, h, ops);
    assert Init(h) == before && Last(h) == Success(at);
    FewFailuresKeepClosed(cfg, Run(cfg, s, h), ops);
  }
}
