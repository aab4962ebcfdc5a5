/** The leaky-bucket rate limiter of synapse/api/ratelimiting.py. Time and rates are real numbers. */
module RateLimiter {
  import opened Wrappers

  /** A tracked bucket: tokens added since `start`, when it was last empty, and its leak rate. */
  datatype Bucket = Bucket(count: real, start: real, rate: real)

  datatype Outcome = Outcome(allowed: bool, retryAt: real)

  /** The entry a call would store, and its answer. */
  datatype Charged = Charged(bucket: Bucket, outcome: Outcome)

  function Max(x: real, y: real): real {
    if x < y then y else x
  }

  /** Tokens leaked in a time at a rate. */
  function Leak(elapsed: real, rate: real): (tokens: real)
    ensures elapsed >= 0.0 && rate >= 0.0 ==> tokens >= 0.0
  {
    elapsed * rate
  }

  lemma LeakAdds(first: real, second: real, rate: real)
    ensures Leak(first + second, rate) == Leak(first, rate) + Leak(second, rate)
  {
  }

  lemma LeakOfRates(elapsed: real, rate: real, more: real)
    ensures Leak(elapsed, rate + more) == Leak(elapsed, rate) + Leak(elapsed, more)
  {
  }

  /** Tokens left at `now` when leaking at `rate`; negative once more has leaked than was added. */
  function Raw(bucket: Bucket, rate: real, now: real): real {
    bucket.count - Leak(now - bucket.start, rate)
  }

  /** The level of the ideal, continuously leaking bucket that an entry stands for. */
  function Level(bucket: Option<Bucket>, rate: real, now: real): real {
    if bucket.None? then 0.0 else Max(0.0, Raw(bucket.value, rate, now))
  }

  // ----- The ideal bucket -----

  /** What an ideal bucket at `level` answers. */
  function IdealOutcome(level: real, rate: real, burst: int, n: int, now: real): Outcome {
    var allowed := level + n as real <= burst as real;
    var after := if allowed then level + n as real else level;
    Outcome(allowed, if rate > 0.0 then Max(now, now + (after - burst as real + 1.0) / rate) else -1.0)
  }

  function IdealLevel(level: real, burst: int, n: int): real {
    if level + n as real <= burst as real then Max(0.0, level + n as real) else level
  }

  function Drain(level: real, rate: real, elapsed: real): real {
    Max(0.0, level - Leak(elapsed, rate))
  }

  /** Leaking lazily is leaking continuously. */
  lemma LevelDrains(bucket: Option<Bucket>, rate: real, now: real, later: real)
    requires rate >= 0.0 && now <= later
    ensures Level(bucket, rate, later) == Drain(Level(bucket, rate, now), rate, later - now)
  {
    if bucket.Some? {
      LeakAdds(now - bucket.value.start, later - now, rate);
    }
  }

  // ----- One call, as the source computes it -----

  /** What a call reads off an entry: the tokens still in the bucket, and the count and start to go on with. */
  datatype Meter = Meter(performed: real, count: real, start: real)

  /** An entry that has leaked below empty starts afresh. */
  function ReadMeter(bucket: Option<Bucket>, rate: real, now: real): Meter {
    var stored := if bucket.Some? then bucket.value else Bucket(0.0, now, 0.0);
    var leaked := Raw(stored, rate, now);
    if leaked < 0.0 then Meter(0.0, 0.0, now) else Meter(leaked, stored.count, stored.start)
  }

  predicate Fits(performed: real, burst: int, n: int) {
    !(performed > burst as real - n as real)
  }

  /** When one more action fits, never in the past; -1 for a bucket that does not leak. */
  function TimeAllowed(start: real, count: real, rate: real, burst: int, now: real): real {
    if rate > 0.0 then Max(now, start + (count - burst as real + 1.0) / rate) else -1.0
  }

  function Charge(bucket: Option<Bucket>, rate: real, burst: int, n: int, now: real): Charged {
    var meter := ReadMeter(bucket, rate, now);
    var allowed := Fits(meter.performed, burst, n);
    var count := if allowed then meter.count + n as real else meter.count;
    Charged(Bucket(count, meter.start, rate), Outcome(allowed, TimeAllowed(meter.start, count, rate, burst, now)))
  }

  lemma MeterReadsLevel(bucket: Option<Bucket>, rate: real, now: real)
    ensures var meter := ReadMeter(bucket, rate, now);
            && meter.performed == Level(bucket, rate, now)
            && meter.count == meter.performed + Leak(now - meter.start, rate)
  {
  }

  lemma QuotientIs(x: real, y: real, quotient: real)
    requires y > 0.0
    ensures quotient == x / y <==> Leak(quotient, y) == x
  {
    assert x / y * y == x;
    if Leak(quotient, y) == x {
      assert (quotient - x / y) * y == 0.0;
    }
  }

  lemma TimeFromLevel(start: real, count: real, level: real, rate: real, burst: int, now: real)
    requires count == level + Leak(now - start, rate) && rate > 0.0
    ensures start + (count - burst as real + 1.0) / rate == now + (level - burst as real + 1.0) / rate
  {
    var excess := level - burst as real + 1.0;
    var wait := excess / rate;
    LeakAdds(wait, now - start, rate);
    QuotientIs(excess, rate, wait);
    QuotientIs(excess + Leak(now - start, rate), rate, wait + (now - start));
  }

  lemma RawShift(count: real, start: real, rate: real, now: real, level: real, more: real)
    requires count == level + Leak(now - start, rate)
    ensures Raw(Bucket(count + more, start, rate), rate, now) == level + more
  {
  }

  /** The source's answer and stored entry are those of the ideal bucket, for every rate and cost. */
  lemma ChargeIsIdeal(bucket: Option<Bucket>, rate: real, burst: int, n: int, now: real)
    ensures var Charged(after, outcome) := Charge(bucket, rate, burst, n, now);
            var level := Level(bucket, rate, now);
            && outcome == IdealOutcome(level, rate, burst, n, now)
            && Level(Some(after), rate, now) == IdealLevel(level, burst, n)
  {
    var meter, level := ReadMeter(bucket, rate, now), Level(bucket, rate, now);
    var Charged(after, outcome) := Charge(bucket, rate, burst, n, now);
    MeterReadsLevel(bucket, rate, now);
    var left := if Fits(level, burst, n) then level + n as real else level;
    RawShift(meter.count, meter.start, rate, now, level, if Fits(level, burst, n) then n as real else 0.0);
    assert Raw(after, rate, now) == left;
    if rate > 0.0 {
      TimeFromLevel(after.start, after.count, left, rate, burst, now);
    }
  }

  // ----- Recording without asking -----

  function Record(bucket: Option<Bucket>, n: int, now: real): Bucket {
    var stored := if bucket.Some? then bucket.value else Bucket(0.0, now, 0.0);
    stored.(count := stored.count + n as real)
  }

  /** Recording adds to the ideal level exactly when the entry has not leaked below empty, or on a refund:
      otherwise part of the recorded amount pays for leakage the bucket never had. */
  lemma RecordAddsExactly(bucket: Option<Bucket>, rate: real, n: int, now: real)
    ensures Level(Some(Record(bucket, n, now)), rate, now) == Max(0.0, Level(bucket, rate, now) + n as real)
            <==> bucket.None? || Raw(bucket.value, rate, now) >= 0.0 || n <= 0
  {
    var stored := if bucket.Some? then bucket.value else Bucket(0.0, now, 0.0);
    assert Raw(Record(bucket, n, now), rate, now) == Raw(stored, rate, now) + n as real;
  }

  /** Five actions recorded on an entry that has been empty for five seconds leave no trace. */
  lemma RecordedActionsVanish()
    ensures var bucket := Some(Bucket(0.0, 0.0, 1.0));
            Level(bucket, 1.0, 5.0) == 0.0 && Level(Some(Record(bucket, 5, 5.0)), 1.0, 5.0) == 0.0
  {
  }

  // ----- Pruning -----

  function PruneOne(bucket: Option<Bucket>, now: real): Option<Bucket> {
    if bucket.Some? && Raw(bucket.value, bucket.value.rate, now) <= 0.0 then None else bucket
  }

  /** A call at `now` gets the same answer, refusal and returned time included, with and without the prune. */
  predicate Unnoticed(bucket: Bucket, pruned: real, rate: real, burst: int, n: int, now: real) {
    Charge(PruneOne(Some(bucket), pruned), rate, burst, n, now).outcome
    == Charge(Some(bucket), rate, burst, n, now).outcome
  }

  lemma SameLevelSameAnswer(bucket: Option<Bucket>, other: Option<Bucket>, rate: real, burst: int, n: int, now: real)
    requires Level(bucket, rate, now) == Level(other, rate, now)
    ensures Charge(bucket, rate, burst, n, now).outcome == Charge(other, rate, burst, n, now).outcome
  {
    ChargeIsIdeal(bucket, rate, burst, n, now);
    ChargeIsIdeal(other, rate, burst, n, now);
  }

  /** Asking for as many actions as fit into an empty bucket tells whether it is empty. */
  lemma FullRequestTells(bucket: Option<Bucket>, rate: real, burst: nat, now: real)
    ensures Charge(bucket, rate, burst, burst, now).outcome.allowed <==> Level(bucket, rate, now) <= 0.0
  {
    ChargeIsIdeal(bucket, rate, burst, burst, now);
  }

  /** A bucket that admits nothing still tells its level by the time it returns, if it leaks. */
  lemma RefusalTells(bucket: Option<Bucket>, rate: real, burst: int, now: real)
    requires burst < 0
    ensures var outcome := Charge(bucket, rate, burst, 0, now).outcome;
            && !outcome.allowed
            && (rate > 0.0 ==> Leak(outcome.retryAt - now, rate) == Level(bucket, rate, now) - burst as real + 1.0)
  {
    ChargeIsIdeal(bucket, rate, burst, 0, now);
    if rate > 0.0 {
      var excess := Level(bucket, rate, now) - burst as real + 1.0;
      QuotientIs(excess, rate, excess / rate);
      DrainedInTime(excess, rate, 0.0);
    }
  }

  /** Nothing is ever granted and no time is ever given. */
  predicate SaysNothing(rate: real, burst: int) {
    burst < 0 && rate <= 0.0
  }

  /** No request at `now` notices the prune exactly when the entry is kept, or is empty at the rate of the request, or
      all answers are the same anyway. */
  lemma PruneUnnoticedExactly(bucket: Bucket, pruned: real, rate: real, burst: int, now: real)
    ensures (forall n: nat :: Unnoticed(bucket, pruned, rate, burst, n, now))
       <==> Raw(bucket, bucket.rate, pruned) > 0.0 || Raw(bucket, rate, now) <= 0.0 || SaysNothing(rate, burst)
  {
    var left := PruneOne(Some(bucket), pruned);
    if Raw(bucket, bucket.rate, pruned) > 0.0 || Raw(bucket, rate, now) <= 0.0 {
      forall n: nat
        ensures Unnoticed(bucket, pruned, rate, burst, n, now)
      {
        SameLevelSameAnswer(left, Some(bucket), rate, burst, n, now);
      }
    } else if burst >= 0 {
      FullRequestTells(left, rate, burst, now);
      FullRequestTells(Some(bucket), rate, burst, now);
      assert !Unnoticed(bucket, pruned, rate, burst, burst, now);
    } else if rate > 0.0 {
      RefusalTells(left, rate, burst, now);
      RefusalTells(Some(bucket), rate, burst, now);
      assert !Unnoticed(bucket, pruned, rate, burst, 0, now);
    } else {
      forall n: nat
        ensures Unnoticed(bucket, pruned, rate, burst, n, now)
      {
        ChargeIsIdeal(left, rate, burst, n, now);
        ChargeIsIdeal(Some(bucket), rate, burst, n, now);
      }
    }
  }

  lemma RawFalls(bucket: Bucket, rate: real, now: real, later: real)
    requires rate >= 0.0 && now <= later
    ensures Raw(bucket, rate, later) <= Raw(bucket, rate, now)
  {
    LeakAdds(now - bucket.start, later - now, rate);
  }

  /** No request from the prune on ever notices it exactly when the entry is kept, or is empty at their rate by then, or
      all answers are the same anyway. */
  lemma PruneNeverNoticedExactly(bucket: Bucket, pruned: real, rate: real, burst: int)
    requires rate >= 0.0
    ensures (forall n: nat, now: real | pruned <= now :: Unnoticed(bucket, pruned, rate, burst, n, now))
       <==> Raw(bucket, bucket.rate, pruned) > 0.0 || Raw(bucket, rate, pruned) <= 0.0 || SaysNothing(rate, burst)
  {
    PruneUnnoticedExactly(bucket, pruned, rate, burst, pruned);
    if Raw(bucket, bucket.rate, pruned) > 0.0 || Raw(bucket, rate, pruned) <= 0.0 || SaysNothing(rate, burst) {
      forall n: nat, now: real | pruned <= now
        ensures Unnoticed(bucket, pruned, rate, burst, n, now)
      {
        RawFalls(bucket, rate, pruned, now);
        PruneUnnoticedExactly(bucket, pruned, rate, burst, now);
      }
    }
  }

  lemma FasterRawIsLess(bucket: Bucket, rate: real, now: real)
    requires bucket.rate <= rate && bucket.start <= now
    ensures Raw(bucket, rate, now) <= Raw(bucket, bucket.rate, now)
  {
    LeakOfRates(now - bucket.start, bucket.rate, rate - bucket.rate);
  }

  /** Calls that leak at least as fast as the entry's own rate never notice a prune. */
  lemma PruneUnnoticedByFasterRates(bucket: Bucket, pruned: real, rate: real, burst: int, n: nat, now: real)
    requires bucket.rate <= rate && 0.0 <= rate && bucket.start <= pruned <= now
    ensures Unnoticed(bucket, pruned, rate, burst, n, now)
  {
    FasterRawIsLess(bucket, rate, pruned);
    PruneNeverNoticedExactly(bucket, pruned, rate, burst);
  }

  /** A slower call can be granted actions that it would have been refused without the prune. */
  lemma PruneHelpsSlowerCalls()
    ensures var bucket := Bucket(10.0, 0.0, 10.0);
            && !Charge(Some(bucket), 1.0, 5, 1, 1.0).outcome.allowed
            && Charge(PruneOne(Some(bucket), 1.0), 1.0, 5, 1, 1.0).outcome.allowed
  {
  }

  // ----- The returned time -----

  lemma DrainedInTime(excess: real, rate: real, elapsed: real)
    requires rate > 0.0
    ensures excess <= Leak(elapsed, rate) <==> excess / rate <= elapsed
  {
    var quotient := excess / rate;
    assert quotient * rate == excess;
    if quotient <= elapsed {
      assert (elapsed - quotient) * rate >= 0.0;
    } else {
      assert (quotient - elapsed) * rate > 0.0;
    }
  }

  /** From when on a draining bucket has room for `m` actions, if it ever has. */
  lemma RoomFrom(level: real, rate: real, burst: int, m: nat, now: real, t: real)
    requires rate > 0.0 && level >= 0.0 && now <= t
    ensures Drain(level, rate, t - now) + m as real <= burst as real
       <==> m <= burst && t >= Max(now, now + (level - burst as real + m as real) / rate)
  {
    DrainedInTime(level - burst as real + m as real, rate, t - now);
    assert m <= burst <==> m as real <= burst as real;
  }

  /** After an updating call, `m` further actions are allowed exactly if they fit the burst count and enough time has
      passed for as many to leak as stand in the way. */
  lemma AllowedFrom(bucket: Option<Bucket>, rate: real, burst: int, n: nat, now: real, m: nat, t: real)
    requires rate > 0.0 && now <= t
    ensures var after := Charge(bucket, rate, burst, n, now).bucket;
            var level := Level(Some(after), rate, now);
            Charge(Some(after), rate, burst, m, t).outcome.allowed
            <==> m <= burst && t >= Max(now, now + (level - burst as real + m as real) / rate)
  {
    var after := Charge(bucket, rate, burst, n, now).bucket;
    var level := Level(Some(after), rate, now);
    ChargeIsIdeal(Some(after), rate, burst, m, t);
    LevelDrains(Some(after), rate, now, t);
    RoomFrom(level, rate, burst, m, now, t);
  }

  lemma ReturnedTime(bucket: Option<Bucket>, rate: real, burst: int, n: nat, now: real)
    requires rate > 0.0
    ensures var Charged(after, outcome) := Charge(bucket, rate, burst, n, now);
            var level := Level(Some(after), rate, now);
            && outcome.retryAt == Max(now, now + (level - burst as real + 1.0) / rate)
            && (!outcome.allowed ==> level + n as real > burst as real)
  {
    ChargeIsIdeal(bucket, rate, burst, n, now);
  }

  /** After an updating call, one more action is allowed from the returned time on and not before; with a burst count
      below one it never is. */
  lemma RetryTimeIsExact(bucket: Option<Bucket>, rate: real, burst: int, n: nat, now: real, t: real)
    requires rate > 0.0 && now <= t
    ensures var Charged(after, outcome) := Charge(bucket, rate, burst, n, now);
            && outcome.retryAt >= now
            && (Charge(Some(after), rate, burst, 1, t).outcome.allowed <==> burst >= 1 && t >= outcome.retryAt)
  {
    ReturnedTime(bucket, rate, burst, n, now);
    AllowedFrom(bucket, rate, burst, n, now, 1, t);
  }

  /** A bucket that does not leak gives no time to come back at. */
  lemma NoTimeWithoutLeak(bucket: Option<Bucket>, rate: real, burst: int, n: int, now: real)
    requires rate <= 0.0
    ensures Charge(bucket, rate, burst, n, now).outcome.retryAt == -1.0
  {
  }

  lemma QuotientOrder(x: real, y: real, rate: real)
    requires rate > 0.0
    ensures x <= y <==> x / rate <= y / rate
  {
    QuotientIs(y, rate, y / rate);
    DrainedInTime(x, rate, y / rate);
  }

  /** Repeating a refused request at the returned time succeeds exactly if it asks for at most one action and fits the
      burst count at all; for several actions the returned time is too early. */
  lemma RetryTimeIsForOneAction(bucket: Option<Bucket>, rate: real, burst: int, n: nat, now: real)
    requires rate > 0.0 && !Charge(bucket, rate, burst, n, now).outcome.allowed
    ensures var Charged(after, outcome) := Charge(bucket, rate, burst, n, now);
            Charge(Some(after), rate, burst, n, outcome.retryAt).outcome.allowed <==> n <= 1 && n <= burst
  {
    var Charged(after, outcome) := Charge(bucket, rate, burst, n, now);
    var excess := Level(Some(after), rate, now) - burst as real;
    ReturnedTime(bucket, rate, burst, n, now);
    AllowedFrom(bucket, rate, burst, n, now, n, outcome.retryAt);
    QuotientOrder(excess + n as real, excess + 1.0, rate);
    QuotientOrder(excess + n as real, 0.0, rate);
    assert 0.0 / rate == 0.0;
  }

  /** A refused request for two actions is refused again at the time it was told to come back. */
  lemma RetryTooEarlyForTwo()
    ensures var Charged(after, outcome) := Charge(Some(Bucket(2.0, 0.0, 1.0)), 1.0, 2, 2, 0.0);
            !outcome.allowed && !Charge(Some(after), 1.0, 2, 2, outcome.retryAt).outcome.allowed
  {
    FullBucketRefuses(Bucket(2.0, 0.0, 1.0), 1.0, 2, 2, 0.0);
    RetryTimeIsForOneAction(Some(Bucket(2.0, 0.0, 1.0)), 1.0, 2, 2, 0.0);
  }

  lemma FullBucketRefuses(bucket: Bucket, rate: real, burst: nat, n: nat, now: real)
    requires bucket.count == burst as real && bucket.start == now && n >= 1
    ensures !Charge(Some(bucket), rate, burst, n, now).outcome.allowed
  {
    ChargeIsIdeal(Some(bucket), rate, burst, n, now);
  }

  // ----- The limiter object -----

  class Ratelimiter<Key(==, !new)> {
    const rateHz: real
    const burstCount: int
    var actions: map<Key, Bucket>

    constructor (rateHz: real, burstCount: int)
      ensures this.rateHz == rateHz && this.burstCount == burstCount && actions == map[]
    {
      this.rateHz, this.burstCount, actions := rateHz, burstCount, map[];
    }

    function BucketOf(key: Key): Option<Bucket>
      reads this
    {
      if key in actions then Some(actions[key]) else None
    }

    method CanDoAction(key: Key, rateOverride: Option<real>, burstOverride: Option<int>, update: bool, n: int,
                       now: real)
      returns (outcome: Outcome)
      modifies this`actions
      ensures var rate := if rateOverride.Some? then rateOverride.value else rateHz;
              var burst := if burstOverride.Some? then burstOverride.value else burstCount;
              var Charged(after, answer) := Charge(old(BucketOf(key)), rate, burst, n, now);
              && outcome == answer
              && actions == if update then old(actions)[key := after] else old(actions)
    {
      var rate := if rateOverride.Some? then rateOverride.value else rateHz;
      var burst := if burstOverride.Some? then burstOverride.value else burstCount;

      var actionCount, timeStart := 0.0, now;
      if key in actions {
        actionCount, timeStart := actions[key].count, actions[key].start;
      }

      var timeDelta := now - timeStart;
      var performedCount := actionCount - Leak(timeDelta, rate);
      if performedCount < 0.0 {
        performedCount := 0.0;
        actionCount := 0.0;
        timeStart := now;
      }
      assert Meter(performedCount, actionCount, timeStart) == ReadMeter(old(BucketOf(key)), rate, now);

      var allowed;
      if performedCount > burst as real - n as real {
        allowed := false;
      } else {
        allowed := true;
        actionCount := actionCount + n as real;
      }

      if update {
        actions := actions[key := Bucket(actionCount, timeStart, rate)];
      }

      return Outcome(allowed, TimeAllowed(timeStart, actionCount, rate, burst, now));
    }

    method RecordAction(key: Key, n: int, now: real)
      modifies this`actions
      ensures actions == old(actions)[key := Record(old(BucketOf(key)), n, now)]
    {
      var stored := if key in actions then actions[key] else Bucket(0.0, now, 0.0);
      actions := actions[key := Bucket(stored.count + n as real, stored.start, stored.rate)];
    }

    /** Forgets the buckets that are empty at their own rate, and only those. */
    method PruneMessageCounts(now: real)
      modifies this`actions
      ensures forall key: Key :: BucketOf(key) == PruneOne(old(BucketOf(key)), now)
    {
      var keys := actions.Keys;
      ghost var before := actions;
      while keys != {}
        invariant keys <= before.Keys && actions.Keys <= before.Keys
        invariant forall key: Key | key !in keys ::
                    BucketOf(key) == PruneOne(if key in before then Some(before[key]) else None, now)
        invariant forall key <- keys :: key in actions && actions[key] == before[key]
        decreases |keys|
      {
        var key :| key in keys;
        var bucket := actions[key];
        var timeDelta := now - bucket.start;
        if !(bucket.count - Leak(timeDelta, bucket.rate) > 0.0) {
          actions := actions - {key};
        }
        keys := keys - {key};
      }
    }
  }
}
