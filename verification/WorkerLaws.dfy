/** What the request syntax promises: counts, splitting, and names made from the set of types alone. */
module WorkerLaws {
  import opened Wrappers
  import opened Strings
  import opened WorkerNames

  // ----- Stripping -----

  predicate Stripped(s: string) {
    s != "" ==> !IsSpace(s[0]) && !IsSpace(s[|s| - 1])
  }

  predicate AllSpaces(s: string) {
    forall c <- s :: IsSpace(c)
  }

  lemma {:induction false} StripRightSplits(s: string) returns (spaces: string)
    ensures s == StripRight(s) + spaces && AllSpaces(spaces)
    ensures StripRight(s) != "" ==> !IsSpace(StripRight(s)[|StripRight(s)| - 1])
  {
    if s != "" && IsSpace(s[|s| - 1]) {
      var more := StripRightSplits(s[..|s| - 1]);
      spaces := more + [s[|s| - 1]];
    } else {
      spaces := "";
    }
  }

  lemma {:induction false} StripLeftSplits(s: string) returns (spaces: string)
    ensures s == spaces + StripLeft(s) && AllSpaces(spaces)
    ensures StripLeft(s) != "" ==> !IsSpace(StripLeft(s)[0])
  {
    if s != "" && IsSpace(s[0]) {
      var more := StripLeftSplits(s[1..]);
      spaces := [s[0]] + more;
    } else {
      spaces := "";
    }
  }

  lemma StrippedStays(s: string)
    requires Stripped(s)
    ensures Strip(s) == s
  {
    assert StripLeft(s) == s;
  }

  lemma PutTogether(whole: string, before: string, rest: string, middle: string, after: string)
    requires whole == before + rest && rest == middle + after
    ensures whole == before + middle + after && (middle != "" ==> middle[0] == rest[0])
  {
  }

  /** Stripping takes spaces, and nothing else, off the ends until neither end is a space. */
  lemma StripStrips(s: string) returns (before: string, after: string)
    ensures s == before + Strip(s) + after && AllSpaces(before) && AllSpaces(after)
    ensures Stripped(Strip(s))
  {
    before := StripLeftSplits(s);
    after := StripRightSplits(StripLeft(s));
    PutTogether(s, before, StripLeft(s), Strip(s), after);
  }

  // ----- Splitting undoes joining -----

  lemma FindAtJoin(s: string, rest: string, c: char)
    requires c !in s
    ensures Find(s + [c] + rest, c, 0) == |s|
  {
    var joined := s + [c] + rest;
    assert joined[|s|] == c && joined[..|s|] == s;
  }

  lemma FindNowhere(s: string, c: char)
    requires c !in s
    ensures Find(s, c, 0) == -1
  {
  }

  lemma SplitAtFirst(head: string, rest: string, c: char)
    requires Stripped(head) && c !in head
    ensures SplitAndStrip(head, c) == [head]
    ensures SplitAndStrip(head + [c] + rest, c) == [head] + SplitAndStrip(rest, c)
  {
    StrippedStays(head);
    FindNowhere(head, c);
    FindAtJoin(head, rest, c);
    var joined := head + [c] + rest;
    assert joined[..|head|] == head && joined[|head| + 1..] == rest;
  }

  lemma {:induction false} SplitUndoesJoin(parts: seq<string>)
    requires parts != [] && forall part <- parts :: Stripped(part) && '+' !in part
    ensures SplitAndStrip(JoinPlus(parts), '+') == parts
  {
    if |parts| == 1 {
      SplitAtFirst(parts[0], "", '+');
    } else {
      var rest := JoinPlus(parts[1..]);
      SplitUndoesJoin(parts[1..]);
      SplitAtFirst(parts[0], rest, '+');
      assert JoinPlus(parts) == parts[0] + ['+'] + rest;
      assert parts == [parts[0]] + parts[1..];
    }
  }

  // ----- Counts -----

  lemma {:induction false} DigitsSnoc(s: string, value: nat, afterDigit: bool, c: char)
    requires (forall d <- s :: IsDigit(d)) && IsDigit(c) && (s == "" ==> afterDigit)
    ensures ParseDigits(s, value, afterDigit).Some?
    ensures ParseDigits(s + [c], value, afterDigit)
         == Some(10 * ParseDigits(s, value, afterDigit).value + (c - '0') as nat)
  {
    if s == "" {
      assert s + [c] == [c];
    } else {
      assert IsDigit(s[0]);
      assert (s + [c])[1..] == s[1..] + [c];
      DigitsSnoc(s[1..], 10 * value + (s[0] - '0') as nat, true, c);
    }
  }

  lemma {:induction false} DecimalParses(n: nat)
    ensures ParseDigits(Decimal(n), 0, false) == Some(n)
  {
    if n >= 10 {
      DecimalParses(n / 10);
      DigitsSnoc(Decimal(n / 10), 0, false, ('0' as int + n % 10) as char);
    }
  }

  lemma DecimalIsNumber(n: nat)
    ensures Stripped(Decimal(n)) && ParseInt(Decimal(n)) == Some(n)
  {
    var digits := Decimal(n);
    assert IsDigit(digits[0]) && IsDigit(digits[|digits| - 1]);
    DecimalParses(n);
  }

  lemma MinusDecimalIsNumber(n: nat)
    ensures Stripped("-" + Decimal(n)) && ParseInt("-" + Decimal(n)) == Some(0 - n)
  {
    var digits := Decimal(n);
    assert IsDigit(digits[|digits| - 1]);
    assert ("-" + digits)[1..] == digits;
    DecimalParses(n);
  }

  /** Spaces around name and count do not matter. */
  lemma ExpansionAt(name: string, count: string)
    requires ':' !in name
    ensures Expansion(name + ":" + count)
         == if ParseInt(Strip(count)).Some? then Some(Repeat(Strip(name), ParseInt(Strip(count)).value)) else None
  {
    var text := name + ":" + count;
    FindAtJoin(name, count, ':');
    assert text[|name|] == ':';
    assert text[..|name|] == name && text[|name| + 1..] == count;
  }

  /** A request with a count fails exactly if the count is not a number, and asks for nothing exactly if the count is
      zero or negative. */
  lemma CountErrorsExactly(name: string, count: string)
    requires ':' !in name
    ensures Expansion(name + ":" + count).None? <==> ParseInt(Strip(count)).None?
    ensures Expansion(name + ":" + count) == Some([])
       <==> ParseInt(Strip(count)).Some? && ParseInt(Strip(count)).value <= 0
  {
    ExpansionAt(name, count);
  }

  /** `name:n` asks for n workers; a negative count asks for none. */
  lemma CountsAreHonoured(name: string, n: nat)
    requires ':' !in name && Stripped(name)
    ensures var copies := Expansion(name + ":" + Decimal(n));
            copies.Some? && |copies.value| == n && forall copy <- copies.value :: copy == name
    ensures Expansion(name + ":" + ("-" + Decimal(n))) == Some([])
  {
    StrippedStays(name);
    DecimalIsNumber(n);
    StrippedStays(Decimal(n));
    ExpansionAt(name, Decimal(n));
    MinusDecimalIsNumber(n);
    StrippedStays("-" + Decimal(n));
    ExpansionAt(name, "-" + Decimal(n));
  }

  // ----- Made-up names depend on the set of types only -----

  lemma {:induction false} BeforeOrders(a: string, b: string)
    ensures a == b ==> !Before(a, b)
    ensures a != b ==> (Before(a, b) <==> !Before(b, a))
  {
    if a != "" && b != "" && a[0] == b[0] {
      BeforeOrders(a[1..], b[1..]);
      assert a == [a[0]] + a[1..] && b == [b[0]] + b[1..];
    }
  }

  lemma {:induction false} BeforeTransitive(a: string, b: string, c: string)
    requires Before(a, b) && Before(b, c)
    ensures Before(a, c)
  {
    if a != "" && a[0] == b[0] == c[0] {
      BeforeTransitive(a[1..], b[1..], c[1..]);
    }
  }

  ghost predicate Ascending(names: seq<string>) {
    forall i, j | 0 <= i < j < |names| :: Before(names[i], names[j])
  }

  lemma {:induction false} InsertSorts(x: string, sorted: seq<string>)
    requires Ascending(sorted)
    ensures Ascending(Insert(x, sorted))
    ensures forall y :: y in Insert(x, sorted) <==> y == x || y in sorted
  {
    if sorted != [] && x != sorted[0] {
      var head, rest := sorted[0], sorted[1..];
      assert sorted == [head] + rest;
      BeforeOrders(x, head);
      if Before(x, head) {
        forall y <- rest ensures Before(x, y) {
          BeforeTransitive(x, head, y);
        }
      } else {
        InsertSorts(x, rest);
        forall y <- Insert(x, rest) ensures Before(head, y) {
        }
      }
    }
  }

  lemma {:induction false} SortedUniqueSorts(parts: seq<string>)
    ensures Ascending(SortedUnique(parts))
    ensures forall y :: y in SortedUnique(parts) <==> y in parts
  {
    if parts != [] {
      SortedUniqueSorts(parts[1..]);
      InsertSorts(parts[0], SortedUnique(parts[1..]));
      assert parts == [parts[0]] + parts[1..];
    }
  }

  lemma SameEmptiness(a: seq<string>, b: seq<string>)
    requires forall y :: y in a <==> y in b
    ensures a == [] <==> b == []
  {
    if a != [] {
      assert a[0] in b;
    }
    if b != [] {
      assert b[0] in a;
    }
  }

  lemma {:induction false} AscendingIsUnique(a: seq<string>, b: seq<string>)
    requires Ascending(a) && Ascending(b) && forall y :: y in a <==> y in b
    ensures a == b
  {
    SameEmptiness(a, b);
    if a != [] {
      assert a[0] in b && b[0] in a;
      SameHead(a, b);
      RestOfAscending(a);
      RestOfAscending(b);
      AscendingIsUnique(a[1..], b[1..]);
      assert a == [a[0]] + a[1..] && b == [b[0]] + b[1..];
    }
  }

  lemma SameHead(a: seq<string>, b: seq<string>)
    requires a != [] && b != [] && Ascending(a) && Ascending(b) && a[0] in b && b[0] in a
    ensures a[0] == b[0]
  {
    BeforeOrders(a[0], b[0]);
  }

  lemma RestOfAscending(a: seq<string>)
    requires a != [] && Ascending(a)
    ensures Ascending(a[1..]) && forall y :: y in a[1..] <==> y in a && y != a[0]
  {
    BeforeOrders(a[0], a[0]);
    var rest := a[1..];
    assert a == [a[0]] + rest;
    forall y <- rest ensures y != a[0] {
      var i :| 0 <= i < |rest| && rest[i] == y;
      assert Before(a[0], a[i + 1]);
    }
  }

  /** Without a chosen name, equal type sets get equal names, however they were written. */
  lemma NameFromTypes(text: string, other: string)
    requires '=' !in text && '=' !in other
    requires RequestOf(text).Some? && RequestOf(other).Some?
    requires RequestOf(text).value.types == RequestOf(other).value.types
    ensures RequestOf(text).value.base == RequestOf(other).value.base
  {
    var a, b := SplitAndStrip(text, '+'), SplitAndStrip(other, '+');
    SortedUniqueSorts(a);
    SortedUniqueSorts(b);
    forall y ensures y in a <==> y in b {
      assert y in a <==> y in RequestOf(text).value.types;
      assert y in b <==> y in RequestOf(other).value.types;
    }
    AscendingIsUnique(SortedUnique(a), SortedUnique(b));
  }
}
