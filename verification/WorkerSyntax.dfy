/** The fine print of worker requests: spaces, numbers, names and their order, character by character. */
module WorkerSyntax {
  import opened Wrappers
  import opened WorkerNames
  import opened WorkerLaws
  import opened WorkerParser

  // ----- Characters -----

  /** Tab to carriage return, the four separators, and space. */
  lemma SpacesExactly(c: char)
    ensures IsSpace(c) <==> 9 <= c as int <= 13 || 28 <= c as int <= 32
  {
  }

  /** Letters, digits, `_`, `+` and `-`; the last one no digit. */
  lemma NamesExactly(name: string)
    ensures ValidName(name)
       <==> && name != ""
            && (forall c <- name ::
                  || 97 <= c as int <= 122 || 65 <= c as int <= 90 || 48 <= c as int <= 57
                  || c == '_' || c == '+' || c == '-')
            && !(48 <= name[|name| - 1] as int <= 57)
  {
  }

  // ----- Numbers -----

  predicate AllDigits(s: string) {
    forall c <- s :: IsDigit(c)
  }

  lemma {:induction false} DigitsParse(s: string, value: nat, afterDigit: bool)
    requires AllDigits(s) && (s == "" ==> afterDigit)
    ensures ParseDigits(s, value, afterDigit).Some?
    decreases |s|
  {
    if s != "" {
      assert IsDigit(s[0]);
      DigitsParse(s[1..], 10 * value + (s[0] - '0') as nat, true);
    }
  }

  /** An underscore between digits counts for nothing. */
  lemma {:induction false} UnderscoresAreIgnored(a: string, b: string, value: nat, afterDigit: bool)
    requires AllDigits(a) && AllDigits(b) && b != "" && (a == "" ==> afterDigit)
    ensures ParseDigits(a + "_" + b, value, afterDigit) == ParseDigits(a + b, value, afterDigit)
    decreases |a|
  {
    if a == "" {
      assert a + "_" + b == ['_'] + b && (['_'] + b)[1..] == b && a + b == b;
      assert IsDigit(b[0]);
    } else {
      assert IsDigit(a[0]);
      UnderscoresAreIgnored(a[1..], b, 10 * value + (a[0] - '0') as nat, true);
      assert (a + "_" + b)[1..] == a[1..] + "_" + b && (a + b)[1..] == a[1..] + b;
    }
  }

  /** Numbers are digits and underscores, and end with a digit. */
  lemma {:induction false} NumbersAreDigits(s: string, value: nat, afterDigit: bool)
    requires ParseDigits(s, value, afterDigit).Some?
    ensures forall c <- s :: IsDigit(c) || c == '_'
    ensures if s == "" then afterDigit else IsDigit(s[|s| - 1])
    ensures s != "" && !afterDigit ==> IsDigit(s[0])
    ensures forall i, j | 0 <= i < j < |s| && j == i + 1 :: !(s[i] == '_' && s[j] == '_')
    decreases |s|
  {
    if s != "" {
      var next := if IsDigit(s[0]) then 10 * value + (s[0] - '0') as nat else value;
      NumbersAreDigits(s[1..], next, IsDigit(s[0]));
      assert s == [s[0]] + s[1..];
      forall i, j | 0 <= i < j < |s| && j == i + 1
        ensures !(s[i] == '_' && s[j] == '_')
      {
        if i > 0 {
          assert s[i] == s[1..][i - 1] && s[j] == s[1..][j - 1];
        } else {
          assert s[j] == s[1..][0];
        }
      }
    }
  }

  /** A number is an optional sign and then digits with single underscores between them; the sign decides the sign. */
  lemma NumbersExactly(s: string)
    ensures ParseInt(s).Some? ==>
              var digits := if s != "" && (s[0] == '-' || s[0] == '+') then s[1..] else s;
              && digits != "" && IsDigit(digits[0]) && IsDigit(digits[|digits| - 1])
              && (forall c <- digits :: IsDigit(c) || c == '_')
              && (forall i, j | 0 <= i < j < |digits| && j == i + 1 :: !(digits[i] == '_' && digits[j] == '_'))
              && (if s[0] == '-' then ParseInt(s).value <= 0 else ParseInt(s).value >= 0)
    ensures AllDigits(s) && s != "" ==>
              && ParseInt(s).Some? && ParseInt("+" + s) == ParseInt(s)
              && ParseInt("-" + s).Some? && ParseInt("-" + s).value == -ParseInt(s).value
  {
    if ParseInt(s).Some? {
      var digits := if s != "" && (s[0] == '-' || s[0] == '+') then s[1..] else s;
      NumbersAreDigits(digits, 0, false);
    }
    if AllDigits(s) && s != "" {
      assert IsDigit(s[0]);
      DigitsParse(s, 0, false);
      assert ("+" + s)[1..] == s && ("-" + s)[1..] == s;
    }
  }

  // ----- Order -----

  /** Names are ordered by the first character in which they differ, and a beginning comes before the whole. */
  lemma {:induction false} OrderExactly(common: string, x: char, y: char, a: string, b: string)
    requires x != y
    ensures Before(common + [x] + a, common + [y] + b) <==> x < y
    ensures Before(common, common + [x] + a) && !Before(common + [x] + a, common)
    decreases |common|
  {
    if common != "" {
      OrderExactly(common[1..], x, y, a, b);
      assert (common + [x] + a)[1..] == common[1..] + [x] + a && (common + [y] + b)[1..] == common[1..] + [y] + b;
    }
  }

  // ----- Chosen names -----

  lemma {:induction false} JoinedIsPlain(parts: seq<string>)
    requires parts != [] && forall part <- parts :: Stripped(part) && '=' !in part
    ensures Stripped(JoinPlus(parts)) && '=' !in JoinPlus(parts)
  {
    if |parts| > 1 {
      JoinedIsPlain(parts[1..]);
      var first, rest := parts[0], JoinPlus(parts[1..]);
      assert first in parts;
      var joined := first + "+" + rest;
      assert joined[0] == if first == "" then '+' else first[0];
      assert joined[|joined| - 1] == if rest == "" then '+' else rest[|rest| - 1];
    }
  }

  /** `name=type+type` asks for one worker of that name with those types, if the name is a good one. */
  lemma ChosenNames(name: string, parts: seq<string>)
    requires parts != [] && forall part <- parts :: Stripped(part) && '+' !in part && '=' !in part
    requires Stripped(name) && '=' !in name
    ensures RequestOf(name + "=" + JoinPlus(parts))
         == if ValidName(name) then Some(Request(name, set part <- parts)) else None
  {
    var types := JoinPlus(parts);
    JoinedIsPlain(parts);
    SplitAtFirst(name, types, '=');
    SplitAtFirst(types, "", '=');
    SplitUndoesJoin(parts);
    assert SplitAndStrip(name + ['='] + types, '=') == [name, types];
    assert name + "=" + types == name + ['='] + types;
  }

  /** More than one `=` is an error. */
  lemma OneEqualsSign(name: string, middle: string, rest: string)
    requires Stripped(name) && '=' !in name && Stripped(middle) && '=' !in middle
    ensures RequestOf(name + ['='] + (middle + ['='] + rest)).None?
  {
    SplitAtFirst(name, middle + ['='] + rest, '=');
    SplitAtFirst(middle, rest, '=');
  }

  // ----- Which types there may be two of -----

  /** Two workers of one known type are fine, except for six types; an unknown type is never fine. */
  lemma TwoOfAKind(workerType: string)
    ensures Acceptable([Request(workerType, {workerType}), Request(workerType, {workerType})])
       <==> workerType in {"pusher", "user_dir", "media_repository", "appservice", "federation_sender", "synchrotron",
                           "client_reader", "federation_reader", "federation_inbound", "event_persister",
                           "event_creator", "frontend_proxy", "push_rules"}
    ensures Acceptable([Request(workerType, {workerType})])
       <==> || Acceptable([Request(workerType, {workerType}), Request(workerType, {workerType})])
            || workerType in {"background_worker", "account_data", "presence", "receipts", "to_device", "typing"}
  {
    var request := Request(workerType, {workerType});
    var two, one := [request, request], [request];
    assert request in two && request in one;
    assert Acceptable(two) <==> workerType in WORKER_TYPES && ShardingAllowed(workerType) by {
      assert workerType in request.types * request.types;
      if Acceptable(two) {
        assert Compatible(two[0], two[1]);
      }
    }
  }
}
