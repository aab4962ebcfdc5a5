/** Parsing the requested workers (docker/configure_workers_and_start.py): multipliers, names and sharding. */
module WorkerNames {
  import opened Wrappers
  import opened Strings

  // ----- Strings -----

  predicate IsSpace(c: char) {
    c in {' ', '\t', '\n', '\r', '\U{0B}', '\U{0C}', '\U{1C}', '\U{1D}', '\U{1E}', '\U{1F}'}
  }

  predicate IsDigit(c: char) {
    '0' <= c <= '9'
  }

  function StripLeft(s: string): string {
    if s != "" && IsSpace(s[0]) then StripLeft(s[1..]) else s
  }

  function StripRight(s: string): string {
    if s != "" && IsSpace(s[|s| - 1]) then StripRight(s[..|s| - 1]) else s
  }

  function Strip(s: string): string {
    StripRight(StripLeft(s))
  }

  /** The stripped parts of `s` between occurrences of `c`; never empty. */
  function SplitAndStrip(s: string, c: char): (parts: seq<string>)
    ensures |parts| >= 1 && (|parts| == 1 <==> c !in s)
    decreases |s|
  {
    var i := Find(s, c, 0);
    if i == -1 then [Strip(s)]
    else [Strip(s[..i])] + SplitAndStrip(s[i + 1..], c)
  }

  /** Digits, with single underscores between them. */
  function ParseDigits(s: string, value: nat, afterDigit: bool): Option<nat> {
    if s == "" then if afterDigit then Some(value) else None
    else if IsDigit(s[0]) then ParseDigits(s[1..], 10 * value + (s[0] - '0') as nat, true)
    else if s[0] == '_' && afterDigit then ParseDigits(s[1..], value, false)
    else None
  }

  /** An optional sign and digits. */
  function ParseInt(s: string): Option<int> {
    if s != "" && s[0] == '-' then
      var digits := ParseDigits(s[1..], 0, false);
      if digits.Some? then
        var negated: int := 0 - digits.value;
        Some(negated)
      else None
    else
      var digits := ParseDigits(if s != "" && s[0] == '+' then s[1..] else s, 0, false);
      if digits.Some? then Some(digits.value) else None
  }

  // ----- Multipliers -----

  function Repeat(s: string, n: int): seq<string> {
    if n <= 0 then [] else seq(n, _ => s)
  }

  /** What one request expands to; a count that is not a number is an error, one below one asks for nothing. */
  function Expansion(request: string): Option<seq<string>> {
    if ':' in request then
      var i := Find(request, ':', 0);
      var count := ParseInt(Strip(request[i + 1..]));
      if count.Some? then Some(Repeat(Strip(request[..i]), count.value)) else None
    else Some([request])
  }

  function Expansions(requests: seq<string>): Option<seq<string>> {
    if requests == [] then Some([])
    else
      var before := Expansions(requests[..|requests| - 1]);
      var last := Expansion(requests[|requests| - 1]);
      if before.Some? && last.Some? then Some(before.value + last.value) else None
  }

  method AppendCopies(list: seq<string>, name: string, count: int) returns (longer: seq<string>)
    ensures longer == list + Repeat(name, count)
  {
    longer := list;
    var k := 0;
    while k < count
      invariant 0 <= k && (k <= count || k == 0)
      invariant longer == list + Repeat(name, k)
    {
      longer := longer + [name];
      k := k + 1;
    }
  }

  method ApplyMultipliers(requests: seq<string>) returns (expanded: Option<seq<string>>)
    ensures expanded == Expansions(requests)
  {
    var out: seq<string> := [];
    for i := 0 to |requests|
      invariant Expansions(requests[..i]) == Some(out)
    {
      assert requests[..i + 1][..i] == requests[..i];
      var request := requests[i];
      if ':' in request {
        var at := Find(request, ':', 0);
        var count := ParseInt(Strip(request[at + 1..]));
        if count.None? {
          ErrorSpreads(requests, i + 1);
          return None;
        }
        out := AppendCopies(out, Strip(request[..at]), count.value);
      } else {
        out := out + [request];
      }
    }
    assert requests[..|requests|] == requests;
    return Some(out);
  }

  lemma {:induction false} ErrorSpreads(requests: seq<string>, i: nat)
    requires i <= |requests| && Expansions(requests[..i]).None?
    ensures Expansions(requests).None?
    decreases |requests| - i
  {
    if i == |requests| {
      assert requests[..i] == requests;
    } else {
      assert requests[..i + 1][..i] == requests[..i];
      ErrorSpreads(requests, i + 1);
    }
  }

  // ----- One request -----

  datatype Request = Request(base: string, types: set<string>)

  const WORKER_TYPES: set<string> := {
    "pusher", "user_dir", "media_repository", "appservice", "federation_sender", "synchrotron", "client_reader",
    "federation_reader", "federation_inbound", "event_persister", "background_worker", "event_creator",
    "frontend_proxy", "account_data", "presence", "receipts", "to_device", "typing", "push_rules"
  }

  predicate ShardingAllowed(workerType: string) {
    workerType !in {"background_worker", "account_data", "presence", "receipts", "typing", "to_device"}
  }

  predicate NameChar(c: char) {
    'a' <= c <= 'z' || 'A' <= c <= 'Z' || IsDigit(c) || c == '_' || c == '+' || c == '-'
  }

  /** Letters, digits, `_`, `+` and `-`, not ending with a digit. */
  predicate ValidName(name: string) {
    name != "" && (forall c <- name :: NameChar(c)) && !IsDigit(name[|name| - 1])
  }

  predicate Before(a: string, b: string) {
    if b == "" then false
    else a == "" || a[0] < b[0] || (a[0] == b[0] && Before(a[1..], b[1..]))
  }

  function Insert(x: string, sorted: seq<string>): (longer: seq<string>)
    ensures longer != [] && forall y <- longer :: y == x || y in sorted
  {
    if sorted == [] then [x]
    else if x == sorted[0] then sorted
    else if Before(x, sorted[0]) then [x] + sorted
    else [sorted[0]] + Insert(x, sorted[1..])
  }

  /** The distinct parts, sorted. */
  function SortedUnique(parts: seq<string>): (sorted: seq<string>)
    ensures (sorted == [] <==> parts == []) && forall x <- sorted :: x in parts
  {
    if parts == [] then [] else Insert(parts[0], SortedUnique(parts[1..]))
  }

  function JoinPlus(parts: seq<string>): string
    requires parts != []
  {
    if |parts| == 1 then parts[0] else parts[0] + "+" + JoinPlus(parts[1..])
  }

  /** Name (given, or made from the types) and types of a request; `None` for too many `=` or a bad name. */
  function RequestOf(text: string): Option<Request> {
    var sides := SplitAndStrip(text, '=');
    if |sides| > 2 then None
    else if |sides| == 2 then
      if ValidName(sides[0]) then Some(Request(sides[0], set part <- SplitAndStrip(sides[1], '+'))) else None
    else
      var parts := SplitAndStrip(text, '+');
      Some(Request(JoinPlus(SortedUnique(parts)), set part <- parts))
  }

  // ----- Names are unique -----

  function Decimal(n: nat): (digits: string)
    ensures digits != "" && (|digits| == 1 <==> n < 10) && forall c <- digits :: IsDigit(c)
  {
    if n < 10 then [('0' as int + n) as char] else Decimal(n / 10) + [('0' as int + n % 10) as char]
  }

  lemma {:induction false} DecimalInjective(m: nat, n: nat)
    requires Decimal(m) == Decimal(n)
    ensures m == n
  {
    var s := Decimal(m);
    assert s[|s| - 1] == ('0' as int + m % 10) as char == ('0' as int + n % 10) as char;
    if m >= 10 {
      assert s[..|s| - 1] == Decimal(m / 10) == Decimal(n / 10);
      DecimalInjective(m / 10, n / 10);
    }
  }

  function WorkerName(base: string, number: nat): string {
    base + Decimal(number)
  }

  function TrailingDigits(s: string): nat {
    if s == "" || !IsDigit(s[|s| - 1]) then 0 else 1 + TrailingDigits(s[..|s| - 1])
  }

  predicate EndsInNonDigit(base: string) {
    base != "" && !IsDigit(base[|base| - 1])
  }

  lemma {:induction false} CounterIsTrailing(base: string, digits: string)
    requires EndsInNonDigit(base) && forall c <- digits :: IsDigit(c)
    ensures TrailingDigits(base + digits) == |digits|
    decreases |digits|
  {
    if digits == "" {
      assert base + digits == base;
    } else {
      var rest := digits[..|digits| - 1];
      CounterIsTrailing(base, rest);
      assert (base + digits)[..|base + digits| - 1] == base + rest;
      assert digits[|digits| - 1] in digits;
    }
  }

  /** A base name that does not end in a digit, followed by a counter, determines both. */
  lemma NameInjective(base: string, m: nat, other: string, n: nat)
    requires EndsInNonDigit(base) && EndsInNonDigit(other)
    requires WorkerName(base, m) == WorkerName(other, n)
    ensures base == other && m == n
  {
    CounterIsTrailing(base, Decimal(m));
    CounterIsTrailing(other, Decimal(n));
    var name := WorkerName(base, m);
    assert base == name[..|name| - |Decimal(m)|] == other;
    assert Decimal(m) == name[|base|..] == Decimal(n);
    DecimalInjective(m, n);
  }

  /** Made-up names are as safe as chosen ones once their types are known. */
  lemma {:induction false} JoinEndsLikeLast(parts: seq<string>)
    requires parts != [] && forall part <- parts :: EndsInNonDigit(part)
    ensures EndsInNonDigit(JoinPlus(parts))
  {
    if |parts| > 1 {
      JoinEndsLikeLast(parts[1..]);
    }
  }

  lemma KnownTypesEndInNonDigit(workerType: string)
    requires workerType in WORKER_TYPES
    ensures EndsInNonDigit(workerType)
  {
  }

  lemma BaseEndsInNonDigit(text: string)
    requires RequestOf(text).Some? && RequestOf(text).value.types <= WORKER_TYPES
    ensures EndsInNonDigit(RequestOf(text).value.base)
  {
    var sides := SplitAndStrip(text, '=');
    if |sides| == 1 {
      var sorted := SortedUnique(SplitAndStrip(text, '+'));
      forall part <- sorted ensures EndsInNonDigit(part) {
        assert part in RequestOf(text).value.types;
        KnownTypesEndInNonDigit(part);
      }
      JoinEndsLikeLast(sorted);
    }
  }
}
