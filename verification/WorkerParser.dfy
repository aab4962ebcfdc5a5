/** Turning the whole list of requested workers into named workers (docker/configure_workers_and_start.py). */
module WorkerParser {
  import opened Wrappers
  import opened WorkerNames

  // ----- What is asked for -----

  /** How many requests share the base name. */
  ghost function Sharing(requests: seq<Request>, base: string): nat {
    if requests == [] then 0
    else
      var last := requests[|requests| - 1];
      Sharing(requests[..|requests| - 1], base) + if last.base == base then 1 else 0
  }

  /** The worker's number among those sharing its base name. */
  ghost function NumberOf(requests: seq<Request>, i: nat): nat
    requires i < |requests|
  {
    Sharing(requests[..i + 1], requests[i].base)
  }

  ghost function NameOf(requests: seq<Request>, i: nat): string
    requires i < |requests|
  {
    WorkerName(requests[i].base, NumberOf(requests, i))
  }

  /** The two do not share an unshardable type, nor a base name with different types. */
  ghost predicate Compatible(r: Request, other: Request) {
    && (forall t <- r.types * other.types :: ShardingAllowed(t))
    && (r.base == other.base ==> r.types == other.types)
  }

  ghost predicate Acceptable(requests: seq<Request>) {
    && (forall r <- requests :: r.types <= WORKER_TYPES)
    && (forall i, j | 0 <= i < j < |requests| :: Compatible(requests[i], requests[j]))
  }

  ghost predicate WellFormed(texts: seq<string>) {
    forall text <- texts :: RequestOf(text).Some?
  }

  ghost function Requests(texts: seq<string>): seq<Request>
    requires WellFormed(texts)
  {
    seq(|texts|, i requires 0 <= i < |texts| => RequestOf(texts[i]).value)
  }

  /** The individual workers asked for, if every request is well-formed. */
  ghost function Wanted(requested: seq<string>): Option<seq<Request>> {
    var texts := Expansions(requested);
    if texts.Some? && WellFormed(texts.value) then Some(Requests(texts.value)) else None
  }

  // ----- Names -----

  ghost predicate SafeBases(requests: seq<Request>) {
    forall r <- requests :: EndsInNonDigit(r.base)
  }

  lemma SharingSnoc(requests: seq<Request>, last: Request, base: string)
    ensures Sharing(requests + [last], base) == Sharing(requests, base) + if last.base == base then 1 else 0
  {
    assert (requests + [last])[..|requests|] == requests;
  }

  lemma {:induction false} SharingGrows(requests: seq<Request>, i: nat, base: string)
    requires i <= |requests|
    ensures Sharing(requests[..i], base) <= Sharing(requests, base)
  {
    if i == |requests| {
      assert requests[..i] == requests;
    } else {
      SharingGrows(requests[..|requests| - 1], i, base);
      assert requests[..|requests| - 1][..i] == requests[..i];
    }
  }

  /** No two workers get the same name. */
  lemma NamesAreDistinct(requests: seq<Request>, i: nat, j: nat)
    requires SafeBases(requests) && i < j < |requests|
    ensures NameOf(requests, i) != NameOf(requests, j)
  {
    var base := requests[j].base;
    assert requests[..j + 1] == requests[..j] + [requests[j]];
    SharingSnoc(requests[..j], requests[j], base);
    SharingGrows(requests[..j], i + 1, base);
    assert requests[..j][..i + 1] == requests[..i + 1];
    if NameOf(requests, i) == NameOf(requests, j) {
      NameInjective(requests[i].base, NumberOf(requests, i), base, NumberOf(requests, j));
    }
  }

  lemma {:induction false} FirstOfName(requests: seq<Request>, base: string) returns (k: nat)
    requires Sharing(requests, base) > 0
    ensures k < |requests| && requests[k].base == base && NameOf(requests, k) == WorkerName(base, 1)
  {
    var n := |requests| - 1;
    if Sharing(requests[..n], base) > 0 {
      k := FirstOfName(requests[..n], base);
      assert requests[..n][..k + 1] == requests[..k + 1];
    } else {
      k := n;
      assert requests[..k + 1] == requests;
    }
  }

  ghost function Names(requests: seq<Request>): seq<string> {
    seq(|requests|, i requires 0 <= i < |requests| => NameOf(requests, i))
  }

  lemma NamesSnoc(requests: seq<Request>, last: Request)
    ensures Names(requests + [last]) == Names(requests) + [NameOf(requests + [last], |requests|)]
  {
    forall i | 0 <= i < |requests| ensures NameOf(requests + [last], i) == NameOf(requests, i) {
      assert (requests + [last])[..i + 1] == requests[..i + 1];
    }
  }

  /** The workers are the requests, one each, under the given names. */
  ghost predicate Named(workers: map<string, set<string>>, names: seq<string>, requests: seq<Request>) {
    && |workers| == |names| == |requests|
    && (forall i | 0 <= i < |names| :: names[i] in workers && workers[names[i]] == requests[i].types)
    && (forall name <- workers :: name in names)
  }

  lemma NamedSnoc(workers: map<string, set<string>>, names: seq<string>, requests: seq<Request>, name: string,
                  last: Request)
    requires Named(workers, names, requests) && name !in names
    ensures Named(workers[name := last.types], names + [name], requests + [last])
  {
  }

  // ----- Acceptability, one request at a time -----

  ghost predicate Seen(requests: seq<Request>, workerType: string) {
    exists r <- requests :: workerType in r.types
  }

  lemma AcceptablePrefix(requests: seq<Request>, i: nat)
    requires i <= |requests| && Acceptable(requests)
    ensures Acceptable(requests[..i])
  {
    assert forall r <- requests[..i] :: r in requests;
  }

  ghost predicate TypesFit(requests: seq<Request>, types: set<string>) {
    forall t <- types :: t in WORKER_TYPES && (Seen(requests, t) ==> ShardingAllowed(t))
  }

  lemma AcceptableSnoc(requests: seq<Request>, last: Request)
    requires Acceptable(requests)
    ensures Acceptable(requests + [last])
       <==> TypesFit(requests, last.types) && forall r <- requests :: r.base == last.base ==> r.types == last.types
  {
    var all := requests + [last];
    if Acceptable(all) {
      assert last in all;
      forall r <- requests ensures Compatible(r, last) {
        var i :| 0 <= i < |requests| && requests[i] == r;
        assert Compatible(all[i], all[|requests|]);
      }
      forall t <- last.types ensures Seen(requests, t) ==> ShardingAllowed(t) {
        if Seen(requests, t) {
          var r :| r in requests && t in r.types;
          assert Compatible(r, last) && t in r.types * last.types;
        }
      }
    }
  }

  // ----- The parser -----

  method CheckTypes(types: set<string>, shards: map<string, nat>) returns (fit: bool, more: map<string, nat>)
    ensures fit <==> forall t <- types :: t in WORKER_TYPES && (t in shards ==> ShardingAllowed(t))
    ensures fit ==> more.Keys == shards.Keys + types
  {
    more := shards;
    var left := types;
    while left != {}
      invariant left <= types && more.Keys == shards.Keys + (types - left)
      invariant forall t <- types - left :: t in WORKER_TYPES && (t in shards ==> ShardingAllowed(t))
    {
      var t :| t in left;
      if t !in WORKER_TYPES || (t in more && !ShardingAllowed(t)) {
        return false, more;
      }
      more := more[t := (if t in more then more[t] else 0) + 1];
      left := left - {t};
    }
    fit := true;
  }

  function Count(counter: map<string, nat>, key: string): nat {
    if key in counter then counter[key] else 0
  }

  ghost predicate BasesCounted(requests: seq<Request>, bases: map<string, nat>) {
    forall base: string :: Count(bases, base) == Sharing(requests, base)
  }

  ghost predicate ShardsCounted(requests: seq<Request>, shards: map<string, nat>) {
    forall t: string :: t in shards <==> Seen(requests, t)
  }

  /** The counters and the workers after these requests. */
  ghost predicate Tracks(requests: seq<Request>, bases: map<string, nat>, shards: map<string, nat>,
                         workers: map<string, set<string>>) {
    && Acceptable(requests) && SafeBases(requests)
    && BasesCounted(requests, bases) && ShardsCounted(requests, shards)
    && Named(workers, Names(requests), requests)
  }

  lemma NewNameIsNew(requests: seq<Request>, last: Request)
    requires SafeBases(requests + [last])
    ensures NameOf(requests + [last], |requests|) !in Names(requests)
  {
    var all := requests + [last];
    NamesSnoc(requests, last);
    forall i | 0 <= i < |requests| ensures Names(requests)[i] != NameOf(all, |requests|) {
      assert Names(all)[i] == NameOf(all, i);
      NamesAreDistinct(all, i, |requests|);
    }
  }

  /** The first worker of the base name stands for all of them. */
  lemma FirstStandsForAll(requests: seq<Request>, workers: map<string, set<string>>, base: string)
    requires Acceptable(requests) && Named(workers, Names(requests), requests) && Sharing(requests, base) > 0
    ensures WorkerName(base, 1) in workers
    ensures forall r <- requests | r.base == base :: r.types == workers[WorkerName(base, 1)]
  {
    var k := FirstOfName(requests, base);
    assert Names(requests)[k] == WorkerName(base, 1);
    forall r <- requests | r.base == base ensures r.types == requests[k].types {
      var i :| 0 <= i < |requests| && requests[i] == r;
      if i < k {
        assert Compatible(requests[i], requests[k]);
      } else if k < i {
        assert Compatible(requests[k], requests[i]);
      }
    }
  }

  lemma {:induction false} SharedByNone(requests: seq<Request>, base: string)
    requires Sharing(requests, base) == 0
    ensures forall r <- requests :: r.base != base
  {
    if requests != [] {
      var n := |requests| - 1;
      SharedByNone(requests[..n], base);
      assert requests == requests[..n] + [requests[n]];
    }
  }

  lemma BasesCountedSnoc(requests: seq<Request>, last: Request, bases: map<string, nat>)
    requires BasesCounted(requests, bases)
    ensures BasesCounted(requests + [last], bases[last.base := Count(bases, last.base) + 1])
  {
    forall base: string
      ensures Sharing(requests + [last], base) == Sharing(requests, base) + if last.base == base then 1 else 0
    {
      SharingSnoc(requests, last, base);
    }
  }

  lemma ShardsCountedSnoc(requests: seq<Request>, last: Request, shards: map<string, nat>, more: map<string, nat>)
    requires ShardsCounted(requests, shards) && more.Keys == shards.Keys + last.types
    ensures ShardsCounted(requests + [last], more)
  {
    assert forall r: Request :: r in requests + [last] <==> r in requests || r == last;
  }

  lemma NumberOfLast(requests: seq<Request>, last: Request)
    ensures NumberOf(requests + [last], |requests|) == Sharing(requests, last.base) + 1
  {
    var all := requests + [last];
    assert all[..|requests| + 1] == all && all[|requests|] == last;
    SharingSnoc(requests, last, last.base);
  }

  lemma NameOfLast(requests: seq<Request>, last: Request)
    ensures NameOf(requests + [last], |requests|) == WorkerName(last.base, Sharing(requests, last.base) + 1)
  {
    var all := requests + [last];
    NumberOfLast(requests, last);
    assert all[|requests|].base == last.base;
  }

  /** The next name is new and comes last. */
  ghost predicate NextName(requests: seq<Request>, last: Request, name: string) {
    Names(requests + [last]) == Names(requests) + [name] && name !in Names(requests)
  }

  lemma CountedNameIsNext(requests: seq<Request>, last: Request)
    requires SafeBases(requests + [last])
    ensures NextName(requests, last, WorkerName(last.base, Sharing(requests, last.base) + 1))
  {
    NewNameIsNew(requests, last);
    NamesSnoc(requests, last);
    NameOfLast(requests, last);
  }

  lemma TracksStep(requests: seq<Request>, last: Request, bases: map<string, nat>, shards: map<string, nat>,
                   workers: map<string, set<string>>, more: map<string, nat>, name: string)
    requires Tracks(requests, bases, shards, workers)
    requires Acceptable(requests + [last]) && SafeBases(requests + [last]) && NextName(requests, last, name)
    requires more.Keys == shards.Keys + last.types
    ensures Tracks(requests + [last], bases[last.base := Count(bases, last.base) + 1], more,
                   workers[name := last.types])
  {
    BasesCountedSnoc(requests, last, bases);
    ShardsCountedSnoc(requests, last, shards, more);
    NamedSnoc(workers, Names(requests), requests, name, last);
  }

  lemma NextIsTracked(requests: seq<Request>, last: Request, bases: map<string, nat>, shards: map<string, nat>,
                      workers: map<string, set<string>>, more: map<string, nat>)
    requires Tracks(requests, bases, shards, workers)
    requires Acceptable(requests + [last]) && EndsInNonDigit(last.base)
    requires more.Keys == shards.Keys + last.types
    ensures var number := Count(bases, last.base) + 1;
            Tracks(requests + [last], bases[last.base := number], more,
                   workers[WorkerName(last.base, number) := last.types])
  {
    assert SafeBases(requests + [last]);
    CountedNameIsNext(requests, last);
    TracksStep(requests, last, bases, shards, workers, more, WorkerName(last.base, Sharing(requests, last.base) + 1));
  }

  method AddWorker(ghost requests: seq<Request>, request: Request, bases: map<string, nat>, shards: map<string, nat>,
                   workers: map<string, set<string>>)
    returns (ok: bool, newBases: map<string, nat>, newShards: map<string, nat>, newWorkers: map<string, set<string>>)
    requires Tracks(requests, bases, shards, workers)
    requires request.types <= WORKER_TYPES ==> EndsInNonDigit(request.base)
    ensures ok <==> Acceptable(requests + [request])
    ensures ok ==> Tracks(requests + [request], newBases, newShards, newWorkers)
  {
    AcceptableSnoc(requests, request);
    newBases, newWorkers := bases, workers;
    ok, newShards := CheckTypes(request.types, shards);
    if !ok {
      return;
    }
    var number := Count(bases, request.base) + 1;
    var name := WorkerName(request.base, number);
    if number > 1 {
      FirstStandsForAll(requests, workers, request.base);
      if workers[WorkerName(request.base, 1)] != request.types {
        var first := FirstOfName(requests, request.base);
        return false, bases, shards, workers;
      }
    } else {
      SharedByNone(requests, request.base);
    }
    NextIsTracked(requests, request, bases, shards, workers, newShards);
    newBases, newWorkers := bases[request.base := number], workers[name := request.types];
  }

  ghost predicate Fine(texts: seq<string>) {
    WellFormed(texts) && Acceptable(Requests(texts))
  }

  lemma RequestsSnoc(texts: seq<string>, last: string)
    requires WellFormed(texts) && RequestOf(last).Some?
    ensures WellFormed(texts + [last])
    ensures Requests(texts + [last]) == Requests(texts) + [RequestOf(last).value]
  {
    var all := texts + [last];
    assert forall text <- all :: text in texts || text == last;
    assert forall i | 0 <= i < |texts| :: all[i] == texts[i];
  }

  lemma FinePrefix(texts: seq<string>, i: nat)
    requires i <= |texts| && Fine(texts)
    ensures Fine(texts[..i])
  {
    AcceptablePrefix(Requests(texts), i);
    assert Requests(texts)[..i] == Requests(texts[..i]);
  }

  ghost predicate Parsed(texts: seq<string>, bases: map<string, nat>, shards: map<string, nat>,
                         workers: map<string, set<string>>) {
    Fine(texts) && Tracks(Requests(texts), bases, shards, workers)
  }

  lemma NothingParsed()
    ensures Parsed([], map[], map[], map[])
  {
    assert Requests([]) == [] && Names([]) == [];
  }

  lemma TakeNext(texts: seq<string>, i: nat)
    requires i < |texts|
    ensures texts[..i + 1] == texts[..i] + [texts[i]]
    ensures Fine(texts) ==> Fine(texts[..i] + [texts[i]])
  {
    assert texts[..i + 1] == texts[..i] + [texts[i]];
    if Fine(texts) {
      FinePrefix(texts, i + 1);
    }
  }

  method AddText(ghost texts: seq<string>, text: string, bases: map<string, nat>, shards: map<string, nat>,
                 workers: map<string, set<string>>)
    returns (ok: bool, newBases: map<string, nat>, newShards: map<string, nat>, newWorkers: map<string, set<string>>)
    requires Parsed(texts, bases, shards, workers)
    ensures ok <==> Fine(texts + [text])
    ensures ok ==> Parsed(texts + [text], newBases, newShards, newWorkers)
  {
    var request := RequestOf(text);
    if request.None? {
      assert text in texts + [text];
      return false, bases, shards, workers;
    }
    if request.value.types <= WORKER_TYPES {
      BaseEndsInNonDigit(text);
    }
    RequestsSnoc(texts, text);
    ok, newBases, newShards, newWorkers := AddWorker(Requests(texts), request.value, bases, shards, workers);
  }

  method ParseTexts(texts: seq<string>) returns (parsed: Option<map<string, set<string>>>)
    ensures parsed.Some? <==> Fine(texts)
    ensures parsed.Some? ==> Named(parsed.value, Names(Requests(texts)), Requests(texts))
  {
    var bases: map<string, nat>, shards: map<string, nat>, workers: map<string, set<string>> := map[], map[], map[];
    NothingParsed();
    assert texts[..0] == [];
    for i := 0 to |texts|
      invariant Parsed(texts[..i], bases, shards, workers)
    {
      var ok;
      ok, bases, shards, workers := AddText(texts[..i], texts[i], bases, shards, workers);
      TakeNext(texts, i);
      if !ok {
        return None;
      }
    }
    assert texts[..|texts|] == texts;
    return Some(workers);
  }

  /** `parse_worker_types` succeeds exactly on acceptable requests, and then makes one worker for each, by name. */
  method ParseWorkerTypes(requested: seq<string>) returns (parsed: Option<map<string, set<string>>>)
    ensures parsed.Some? <==> Wanted(requested).Some? && Acceptable(Wanted(requested).value)
    ensures parsed.Some? ==> Named(parsed.value, Names(Wanted(requested).value), Wanted(requested).value)
  {
    var expanded := ApplyMultipliers(requested);
    if expanded.None? {
      return None;
    }
    parsed := ParseTexts(expanded.value);
  }
}
