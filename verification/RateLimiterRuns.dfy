/** Whole runs of one key of the rate limiter, at a fixed rate and burst: refinement of the ideal bucket,
    invisibility of pruning, and the throughput bound. */
module RateLimiterRuns {
  import opened Wrappers
  import opened RateLimiter

  datatype Call = Call(at: real, n: nat, update: bool)

  datatype Step = Ask(call: Call) | Prune(at: real) {
    function Time(): real {
      if Ask? then call.at else at
    }
  }

  predicate Ordered(steps: seq<Step>, since: real) {
    steps == [] || (since <= steps[0].Time() && Ordered(steps[1..], steps[0].Time()))
  }

  predicate OrderedCalls(calls: seq<Call>, since: real) {
    calls == [] || (since <= calls[0].at && OrderedCalls(calls[1..], calls[0].at))
  }

  // ----- The lazy limiter -----

  function NextBucket(bucket: Option<Bucket>, rate: real, burst: int, step: Step): Option<Bucket> {
    match step
    case Ask(call) =>
      if call.update then Some(Charge(bucket, rate, burst, call.n, call.at).bucket) else bucket
    case Prune(at) => PruneOne(bucket, at)
  }

  function BucketAfter(bucket: Option<Bucket>, rate: real, burst: int, steps: seq<Step>): Option<Bucket>
    decreases |steps|
  {
    if steps == [] then bucket else BucketAfter(NextBucket(bucket, rate, burst, steps[0]), rate, burst, steps[1..])
  }

  /** The answers given, one per call. */
  function Outcomes(bucket: Option<Bucket>, rate: real, burst: int, steps: seq<Step>): (outcomes: seq<Outcome>)
    ensures |outcomes| == |Calls(steps)|
    decreases |steps|
  {
    if steps == [] then []
    else
      var rest := Outcomes(NextBucket(bucket, rate, burst, steps[0]), rate, burst, steps[1..]);
      match steps[0]
      case Ask(call) => [Charge(bucket, rate, burst, call.n, call.at).outcome] + rest
      case Prune(_) => rest
  }

  function Calls(steps: seq<Step>): seq<Call> {
    if steps == [] then [] else (if steps[0].Ask? then [steps[0].call] else []) + Calls(steps[1..])
  }

  function WithoutPrunes(steps: seq<Step>): seq<Step> {
    if steps == [] then [] else (if steps[0].Ask? then [steps[0]] else []) + WithoutPrunes(steps[1..])
  }

  // ----- The ideal limiter -----

  /** Level right after a call that finds the bucket drained to `level`. */
  function IdealAfter(level: real, burst: int, call: Call): real {
    if call.update then IdealLevel(level, burst, call.n) else level
  }

  /** Answers of an ideal bucket that held `level` at time `since` and is never pruned. */
  function IdealOutcomes(level: real, since: real, rate: real, burst: int, calls: seq<Call>): (outcomes: seq<Outcome>)
    ensures |outcomes| == |calls|
    decreases |calls|
  {
    if calls == [] then []
    else
      var call := calls[0];
      var drained := Drain(level, rate, call.at - since);
      [IdealOutcome(drained, rate, burst, call.n, call.at)]
      + IdealOutcomes(IdealAfter(drained, burst, call), call.at, rate, burst, calls[1..])
  }

  lemma DrainTwice(level: real, rate: real, first: real, second: real)
    requires rate >= 0.0 && first >= 0.0 && second >= 0.0
    ensures Drain(Drain(level, rate, first), rate, second) == Drain(level, rate, first + second)
  {
    LeakAdds(first, second, rate);
  }

  /** Only waiting does not change what an ideal bucket will answer. */
  lemma IdealWaits(level: real, since: real, later: real, rate: real, burst: int, calls: seq<Call>)
    requires rate >= 0.0 && since <= later && OrderedCalls(calls, later)
    ensures IdealOutcomes(level, since, rate, burst, calls)
         == IdealOutcomes(Drain(level, rate, later - since), later, rate, burst, calls)
  {
    if calls != [] {
      DrainTwice(level, rate, later - since, calls[0].at - later);
      assert later - since + (calls[0].at - later) == calls[0].at - since;
    }
  }

  // ----- Refinement -----

  /** The stored entry, leaking at the run's rate, stands for an ideal bucket at `level`. */
  ghost predicate Tracks(bucket: Option<Bucket>, rate: real, now: real, level: real) {
    && Level(bucket, rate, now) == level
    && (bucket.Some? ==> bucket.value.rate == rate && bucket.value.start <= now)
  }

  lemma OrderedKeepsCalls(steps: seq<Step>, since: real)
    requires Ordered(steps, since)
    ensures OrderedCalls(Calls(steps), since)
    decreases |steps|
  {
    if steps != [] {
      OrderedKeepsCalls(steps[1..], steps[0].Time());
      if steps[0].Ask? {
        assert Calls(steps)[1..] == Calls(steps[1..]);
      } else {
        assert Calls(steps) == Calls(steps[1..]);
        OrderedEarlier(Calls(steps), steps[0].Time(), since);
      }
    }
  }

  lemma OrderedEarlier(calls: seq<Call>, since: real, earlier: real)
    requires OrderedCalls(calls, since) && earlier <= since
    ensures OrderedCalls(calls, earlier)
  {
  }

  lemma TracksStep(bucket: Option<Bucket>, level: real, since: real, rate: real, burst: int, step: Step)
    requires rate >= 0.0 && Tracks(bucket, rate, since, level) && since <= step.Time()
    ensures var drained := Drain(level, rate, step.Time() - since);
            && Level(bucket, rate, step.Time()) == drained
            && Tracks(NextBucket(bucket, rate, burst, step), rate, step.Time(),
                      if step.Ask? then IdealAfter(drained, burst, step.call) else drained)
  {
    LevelDrains(bucket, rate, since, step.Time());
    if step.Ask? {
      ChargeIsIdeal(bucket, rate, burst, step.call.n, step.call.at);
    }
  }

  /** The lazy limiter refines the ideal bucket: over any run of calls and prunes in time order, every verdict and
      every returned time is that of an ideal bucket that leaks continuously and is never pruned. */
  lemma {:induction false} LazyRunIsIdeal(bucket: Option<Bucket>, level: real, since: real, rate: real, burst: int,
                                          steps: seq<Step>)
    requires rate >= 0.0 && Tracks(bucket, rate, since, level) && Ordered(steps, since)
    ensures Outcomes(bucket, rate, burst, steps) == IdealOutcomes(level, since, rate, burst, Calls(steps))
    decreases |steps|
  {
    if steps == [] {
      return;
    }
    var step, rest := steps[0], steps[1..];
    var drained := Drain(level, rate, step.Time() - since);
    var next := NextBucket(bucket, rate, burst, step);
    TracksStep(bucket, level, since, rate, burst, step);
    match step
    case Ask(call) =>
      LazyRunIsIdeal(next, IdealAfter(drained, burst, call), call.at, rate, burst, rest);
      ChargeIsIdeal(bucket, rate, burst, call.n, call.at);
      assert Calls(steps)[0] == call && Calls(steps)[1..] == Calls(rest);
    case Prune(at) =>
      LazyRunIsIdeal(next, drained, at, rate, burst, rest);
      assert Calls(steps) == Calls(rest);
      OrderedKeepsCalls(rest, at);
      IdealWaits(level, since, at, rate, burst, Calls(rest));
  }

  lemma {:induction false} WithoutPrunesKeepsOrder(steps: seq<Step>, since: real)
    requires Ordered(steps, since)
    ensures Ordered(WithoutPrunes(steps), since) && Calls(WithoutPrunes(steps)) == Calls(steps)
    decreases |steps|
  {
    if steps != [] {
      WithoutPrunesKeepsOrder(steps[1..], steps[0].Time());
      var rest := WithoutPrunes(steps[1..]);
      if steps[0].Ask? {
        assert WithoutPrunes(steps)[1..] == rest;
      } else {
        assert WithoutPrunes(steps) == rest && Calls(steps) == Calls(steps[1..]);
      }
    }
  }

  /** Deleting the prune steps of a run changes no verdict and no returned time. */
  lemma PrunesAreInvisible(bucket: Option<Bucket>, since: real, rate: real, burst: int, steps: seq<Step>)
    requires rate >= 0.0 && Ordered(steps, since)
    requires bucket.Some? ==> bucket.value.rate == rate && bucket.value.start <= since
    ensures Outcomes(bucket, rate, burst, WithoutPrunes(steps)) == Outcomes(bucket, rate, burst, steps)
  {
    var level := Level(bucket, rate, since);
    WithoutPrunesKeepsOrder(steps, since);
    LazyRunIsIdeal(bucket, level, since, rate, burst, steps);
    LazyRunIsIdeal(bucket, level, since, rate, burst, WithoutPrunes(steps));
  }

  /** The level never leaves the range from empty to `burst`, whenever it is looked at after the run. */
  lemma {:induction false} LevelStaysInRange(bucket: Option<Bucket>, since: real, rate: real, burst: nat,
                                             steps: seq<Step>, now: real)
    requires rate >= 0.0 && Ordered(steps, since)
    requires bucket.Some? ==> bucket.value.rate == rate && bucket.value.start <= since
    requires Level(bucket, rate, since) <= burst as real
    requires now >= if steps == [] then since else steps[|steps| - 1].Time()
    ensures 0.0 <= Level(BucketAfter(bucket, rate, burst, steps), rate, now) <= burst as real
    decreases |steps|
  {
    if steps == [] {
      LevelDrains(bucket, rate, since, now);
    } else {
      var step := steps[0];
      TracksStep(bucket, Level(bucket, rate, since), since, rate, burst, step);
      LevelStaysInRange(NextBucket(bucket, rate, burst, step), step.Time(), rate, burst, steps[1..], now);
    }
  }

  // ----- Throughput -----

  /** Actions granted by the updating calls made within [from, to]. */
  function Granted(calls: seq<Call>, outcomes: seq<Outcome>, from: real, to: real): int
    requires |calls| == |outcomes|
  {
    if calls == [] then 0
    else
      (if calls[0].update && outcomes[0].allowed && from <= calls[0].at <= to then calls[0].n else 0)
      + Granted(calls[1..], outcomes[1..], from, to)
  }

  function Requested(calls: seq<Call>): int {
    if calls == [] then 0 else calls[0].n + Requested(calls[1..])
  }

  /** Where every call updates, is allowed and falls into the window, everything requested counts as granted. */
  lemma {:induction false} AllGranted(calls: seq<Call>, outcomes: seq<Outcome>, from: real, to: real)
    requires |calls| == |outcomes|
    requires forall i | 0 <= i < |calls| :: calls[i].update && outcomes[i].allowed && from <= calls[i].at <= to
    ensures Granted(calls, outcomes, from, to) == Requested(calls)
  {
    if calls != [] {
      AllGranted(calls[1..], outcomes[1..], from, to);
    }
  }

  lemma NothingGrantedAfter(calls: seq<Call>, outcomes: seq<Outcome>, since: real, from: real, to: real)
    requires |calls| == |outcomes| && OrderedCalls(calls, since) && to < since
    ensures Granted(calls, outcomes, from, to) == 0
  {
  }

  /** What an ideal bucket at `level` can still grant within the window, seen from time `since`. */
  ghost function Allowance(level: real, since: real, rate: real, burst: int, from: real, to: real): real {
    if since < from then burst as real + Leak(to - from, rate) else burst as real - level + Leak(to - since, rate)
  }

  /** Draining to the next call and granting `n` spends the allowance by at least `n`. */
  lemma AllowanceIsSpent(level: real, since: real, rate: real, burst: int, from: real, to: real,
                         at: real, n: real, left: real)
    requires rate >= 0.0 && since <= at <= to && from <= at && 0.0 <= n
    requires left == Drain(level, rate, at - since)
    ensures n + Allowance(left + n, at, rate, burst, from, to) <= Allowance(level, since, rate, burst, from, to)
  {
    if since < from {
      LeakAdds(to - at, at - from, rate);
    } else {
      var leaked := Leak(at - since, rate);
      assert left >= level - leaked;
      LeakAdds(to - at, at - since, rate);
    }
  }

  lemma {:induction false} IdealWindowBound(level: real, since: real, rate: real, burst: int, calls: seq<Call>,
                                            from: real, to: real)
    requires rate >= 0.0 && 0.0 <= level <= burst as real && OrderedCalls(calls, since) && since <= to && from <= to
    ensures Granted(calls, IdealOutcomes(level, since, rate, burst, calls), from, to) as real
            <= Allowance(level, since, rate, burst, from, to)
    decreases |calls|
  {
    if calls == [] {
      return;
    }
    var call := calls[0];
    if to < call.at {
      NothingGrantedAfter(calls, IdealOutcomes(level, since, rate, burst, calls), call.at, from, to);
      return;
    }
    var elapsed := call.at - since;
    var drained := Drain(level, rate, elapsed);
    var after := IdealAfter(drained, burst, call);
    IdealWindowBound(after, call.at, rate, burst, calls[1..], from, to);
    var outcomes := IdealOutcomes(level, since, rate, burst, calls);
    assert outcomes[1..] == IdealOutcomes(after, call.at, rate, burst, calls[1..]);
    if from <= call.at {
      AllowanceIsSpent(level, since, rate, burst, from, to, call.at, after - drained, drained);
    }
  }

  /** Throughput: in every window of time the updating calls grant at most `burst` actions plus what leaks
      away during the window, whatever level up to `burst` the run starts from. */
  lemma WindowBound(bucket: Option<Bucket>, rate: real, burst: nat, since: real, steps: seq<Step>, from: real, to: real)
    requires rate >= 0.0 && Ordered(steps, since) && from <= to
    requires bucket.Some? ==> bucket.value.rate == rate && bucket.value.start <= since
    requires Level(bucket, rate, since) <= burst as real
    ensures Granted(Calls(steps), Outcomes(bucket, rate, burst, steps), from, to) as real
            <= burst as real + Leak(to - from, rate)
  {
    OrderedKeepsCalls(steps, since);
    var calls, level := Calls(steps), Level(bucket, rate, since);
    if to < since {
      NothingGrantedAfter(calls, Outcomes(bucket, rate, burst, steps), since, from, to);
    } else {
      LazyRunIsIdeal(bucket, level, since, rate, burst, steps);
      IdealWindowBound(level, since, rate, burst, calls, from, to);
      LeakAdds(to - since, since - from, rate);
    }
  }
}
