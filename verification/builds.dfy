/** cmd/component-monitor/junit-prober.go: ordering build identifiers, the window of builds to
    evaluate, and the build to fall back to. */
module Builds {
  import opened Base
  import opened Ordering

  // ---------------------------------------------------------------- the order of identifiers

  predicate IsDigit(c: char) {
    0x30 <= c as int <= 0x39
  }

  predicate AllDigits(s: string) {
    forall c | c in s :: IsDigit(c)
  }

  function DigitValue(c: char): (d: nat)
    requires IsDigit(c)
    ensures d <= 9
  {
    c as int - 0x30
  }

  function DecimalValue(s: string): nat
    requires AllDigits(s)
  {
    if s == "" then 0 else 10 * DecimalValue(s[..|s| - 1]) + DigitValue(s[|s| - 1])
  }

  /** `big.Int.SetString(s, 10)`: an optional sign and at least one digit. */
  function Parse(s: string): Option<int> {
    var signed := s != "" && (s[0] == '+' || s[0] == '-');
    var digits := if signed then s[1..] else s;
    if digits == "" || !AllDigits(digits) then
      None
    else
      var value: int := DecimalValue(digits);
      Some(if signed && s[0] == '-' then -value else value)
  }

  /** Which integers texts are: digits, with or without a sign. */
  lemma ParseExactly(digits: string)
    requires digits != "" && AllDigits(digits)
    ensures Parse(digits) == Parse("+" + digits) == Some(DecimalValue(digits) as int)
    ensures Parse("-" + digits) == Some(-(DecimalValue(digits) as int))
  {
    assert ("+" + digits)[1..] == digits && ("-" + digits)[1..] == digits;
    assert digits[0] in digits;
    hide DecimalValue;
  }

  lemma DecimalDigits(digits: string, c: char)
    requires AllDigits(digits) && '0' <= c <= '9'
    ensures AllDigits(digits + [c])
    ensures DecimalValue("") == 0
    ensures DecimalValue(digits + [c]) == 10 * DecimalValue(digits) + (c as int - '0' as int)
  {
    assert (digits + [c])[..|digits|] == digits;
  }

  /** `buildIDGreater`. */
  predicate Greater(a: string, b: string) {
    match (Parse(a), Parse(b))
    case (Some(x), Some(y)) => x > y
    case _ => StrLess(b, a)
  }

  /** Decimal without sign or leading zeros. */
  predicate Canonical(s: string) {
    s != "" && AllDigits(s) && (|s| > 1 ==> s[0] != '0')
  }

  lemma {:induction false} CanonicalValueUnique(a: string, b: string)
    requires Canonical(a) && Canonical(b) && DecimalValue(a) == DecimalValue(b)
    ensures a == b
  {
    var m, n := |a| - 1, |b| - 1;
    assert a[..m] + [a[m]] == a && b[..n] + [b[n]] == b;
    assert DecimalValue(a) == 10 * DecimalValue(a[..m]) + DigitValue(a[m]);
    assert DecimalValue(b) == 10 * DecimalValue(b[..n]) + DigitValue(b[n]);
    if m > 0 && n > 0 {
      CanonicalValueUnique(a[..m], b[..n]);
    } else if m > 0 {
      CanonicalPositive(a[..m]);
    } else if n > 0 {
      CanonicalPositive(b[..n]);
    }
  }

  lemma {:induction false} CanonicalPositive(s: string)
    requires s != "" && AllDigits(s) && s[0] != '0'
    ensures DecimalValue(s) > 0
  {
    if |s| > 1 {
      CanonicalPositive(s[..|s| - 1]);
    }
  }

  /** `t` is no integer, and as text it stands between two integers whose texts stand the wrong way round. */
  predicate Between(a: string, t: string, b: string) {
    && Parse(a).Some? && Parse(b).Some? && Parse(t).None?
    && Parse(a).value > Parse(b).value && StrLess(a, t) && StrLess(t, b)
  }

  /** What identifiers must avoid: two integers of one value, and an identifier between two integers. */
  predicate Comparable(ids: set<string>) {
    && (forall a, b | a in ids && b in ids && Parse(a).Some? && Parse(a) == Parse(b) :: a == b)
    && (forall a, t, b | a in ids && t in ids && b in ids :: !Between(a, t, b))
  }

  lemma GreaterTransitive(ids: set<string>, x: string, y: string, z: string)
    requires Comparable(ids) && x in ids && y in ids && z in ids
    requires Greater(x, y) && Greater(y, z)
    ensures Greater(x, z)
  {
    StrTrichotomy(x, y);
    StrTrichotomy(x, z);
    StrTrichotomy(y, z);
    if StrLess(z, y) && StrLess(y, x) {
      StrTransitive(z, y, x);
    }
    assert !Between(x, z, y) && !Between(z, y, x) && !Between(y, x, z);
  }

  /** The comparison is a strict total order of some identifiers exactly when they are comparable. */
  lemma GreaterOrdersExactly(s: seq<string>)
    ensures StrictOrder(Greater, s) <==> Comparable(Elements(s))
  {
    var ids := Elements(s);
    if Comparable(ids) {
      forall x, y | x in s && y in s ensures !Greater(x, x) && (x == y || Greater(x, y) || Greater(y, x)) {
        StrTrichotomy(x, y);
        StrTrichotomy(x, x);
      }
      forall x, y, z | x in s && y in s && z in s && Greater(x, y) && Greater(y, z) ensures Greater(x, z) {
        GreaterTransitive(ids, x, y, z);
      }
    }
    if StrictOrder(Greater, s) {
      forall a, t, b | a in ids && t in ids && b in ids ensures !Between(a, t, b) {
        assert Between(a, t, b) ==> Greater(a, b) && Greater(b, t) && Greater(t, a);
      }
    }
  }

  lemma GreaterOrders(ids: set<string>, s: seq<string>)
    requires Comparable(ids) && forall x | x in s :: x in ids
    ensures StrictOrder(Greater, s)
  {
    GreaterOrdersExactly(s);
  }

  /** Canonical decimal identifiers are comparable, and so are identifiers without any integer. */
  lemma CanonicalComparable(ids: set<string>)
    requires (forall a | a in ids :: Canonical(a)) || (forall a | a in ids :: Parse(a).None?)
    ensures Comparable(ids)
  {
    if forall a | a in ids :: Canonical(a) {
      forall a | a in ids ensures Parse(a) == Some(DecimalValue(a)) {
        assert a[0] in a;
      }
      forall a, b | a in ids && b in ids && Parse(a) == Parse(b) ensures a == b {
        CanonicalValueUnique(a, b);
      }
    }
  }

  /** Both can happen: a cycle, and two identifiers left unordered. */
  lemma GreaterIsNoOrder()
    ensures Greater("10", "9") && Greater("9", "1a") && Greater("1a", "10")
    ensures !Greater("7", "07") && !Greater("07", "7")
  {
    assert DecimalValue("1") == 1 && DecimalValue("0") == 0;
    assert "10"[..1] == "1" && "07"[..1] == "0";
    assert DecimalValue("10") == 10 && DecimalValue("9") == 9 && DecimalValue("07") == 7 && DecimalValue("7") == 7;
    assert "1a"[1] in "1a";
    assert Parse("1a").None?;
  }

  /** Two different identifiers are left unordered exactly when both are integers of one value. */
  lemma Unordered(a: string, b: string)
    requires a != b
    ensures !Greater(a, b) && !Greater(b, a) <==> Parse(a).Some? && Parse(a) == Parse(b)
  {
    StrTrichotomy(a, b);
  }

  // ---------------------------------------------------------------- listing and sorting

  function Candidates(latest: string, listing: seq<string>): set<string> {
    Elements(listing) + {latest}
  }

  /** The keys of a Go map, in whatever order it yields them. */
  method KeysInSomeOrder(keys: set<string>) returns (all: seq<string>)
    ensures Elements(all) == keys && Distinct(all)
  {
    all := [];
    var pending := keys;
    while pending != {}
      invariant pending <= keys && Elements(all) == keys - pending && Distinct(all)
      decreases pending
    {
      var id :| id in pending;
      assert id !in Elements(all);
      ElementsSnoc(all, id);
      pending := pending - {id};
      all := all + [id];
    }
  }

  /** The part that `resolveBuildIDsToEvaluate` and `findPreviousBuildID` share: the listing and one
      more identifier, without duplicates, newest first. */
  method SortedCandidates(latest: string, listing: seq<string>) returns (all: seq<string>)
    ensures Elements(all) == Candidates(latest, listing) && Distinct(all)
    ensures Comparable(Candidates(latest, listing)) ==> Ascending(all, Greater)
  {
    var seen := {latest};
    for i := 0 to |listing|
      invariant seen == Candidates(latest, listing[..i])
    {
      assert listing[..i + 1] == listing[..i] + [listing[i]];
      seen := seen + {listing[i]};
    }
    assert listing[..|listing|] == listing;
    var unsorted := KeysInSomeOrder(seen);
    all := SortSlice(unsorted, Greater);
    SameElementsSame(all, unsorted);
    if Comparable(seen) {
      assert forall x | x in unsorted :: x in Elements(unsorted);
      GreaterOrders(seen, unsorted);
    }
  }

  lemma SameElementsSame<T>(a: seq<T>, b: seq<T>)
    requires SameElements(a, b) && |a| == |b| && Distinct(b)
    ensures Elements(a) == Elements(b) && Distinct(a)
  {
    assert Elements(a) == Elements(b);
    ElementCount(b);
    ElementCount(a);
  }

  lemma {:induction false} ElementCount<T>(s: seq<T>)
    ensures |Elements(s)| <= |s|
    ensures |Elements(s)| == |s| <==> Distinct(s)
  {
    if s != [] {
      var init, last := s[..|s| - 1], s[|s| - 1];
      ElementCount(init);
      ElementsSnoc(init, last);
      assert s == init + [last];
      if last in init {
        assert Elements(s) == Elements(init);
        var i :| 0 <= i < |init| && init[i] == last;
        assert s[i] == s[|s| - 1];
      } else {
        assert Distinct(init) <==> Distinct(s) by {
          assert forall i | 0 <= i < |init| :: s[i] == init[i] && s[i] in init;
        }
      }
    }
  }

  // ---------------------------------------------------------------- the window

  /** Whether a build's finished.json is there: read, answered with 404, or not to be told. */
  datatype Finish = Finished | Unfinished | Unreadable

  function FinishedOf(ids: set<string>, finish: string -> Finish): set<string> {
    set id | id in ids && finish(id) == Finished
  }

  predicate Newest(id: string, ids: set<string>) {
    id in ids && forall x | x in ids :: x == id || Greater(id, x)
  }

  /** The `n` largest identifiers of the pool, largest first. */
  predicate Window(r: seq<string>, pool: set<string>, n: int) {
    && Ascending(r, Greater)
    && Elements(r) <= pool
    && |r| == (if |pool| < n then |pool| else n)
    && forall x, y | x in pool && x !in r && y in r :: Greater(y, x)
  }

  /** When a history can be evaluated: every candidate's finished.json could be looked up, only the
      newest candidate may be unfinished, and some candidate is finished. */
  predicate Resolvable(ids: set<string>, finish: string -> Finish) {
    && (forall id | id in ids :: finish(id) != Unreadable)
    && (forall id | id in ids && finish(id) == Unfinished :: Newest(id, ids))
    && FinishedOf(ids, finish) != {}
  }

  /** `resolveBuildIDsToEvaluate`. */
  method ResolveBuildIds(historyRuns: int, latest: string, listing: Option<seq<string>>, finish: string -> Finish)
    returns (r: Option<seq<string>>)
    ensures historyRuns <= 1 ==> r == Some([latest])
    ensures historyRuns > 1 && r.Some? ==>
              && listing.Some?
              && r.value != [] && |r.value| <= historyRuns && Distinct(r.value)
              && Elements(r.value) <= FinishedOf(Candidates(latest, listing.value), finish)
    ensures historyRuns > 1 && r.Some? && Comparable(Candidates(latest, listing.value)) ==>
              forall id | id == latest || id in listing.value ::
                && finish(id) != Unreadable
                && (finish(id) == Unfinished ==>
                      forall x | x == latest || x in listing.value :: x == id || Greater(id, x))
    ensures historyRuns > 1 && listing.Some? && Comparable(Candidates(latest, listing.value)) ==>
              && (r.Some? <==> Resolvable(Candidates(latest, listing.value), finish))
              && (r.Some? ==> Window(r.value, FinishedOf(Candidates(latest, listing.value), finish), historyRuns))
  {
    if historyRuns <= 1 {
      return Some([latest]);
    }
    if listing.None? {
      return None;
    }
    var all := SortedCandidates(latest, listing.value);
    var finished := FinishedBuilds(all, finish);
    if finished.None? || |finished.value| == 0 {
      if Ascending(all, Greater) {
        Unresolvable(all, finish, finished);
      }
      return None;
    }
    r := Some(if |finished.value| < historyRuns then finished.value else finished.value[..historyRuns]);
    KeptFinished(all, finish);
    assert forall x | x in r.value :: x in finished.value && x in Elements(finished.value);
    if Ascending(all, Greater) {
      ResolvedIsWindow(all, finish, historyRuns);
    }
  }

  /** The finished builds come first to last unless one cannot be told, or one that is not in front is
      unfinished. */
  predicate HeadOnlyUnfinished(all: seq<string>, finish: string -> Finish) {
    forall j | 0 <= j < |all| :: finish(all[j]) == Finished || (j == 0 && finish(all[j]) == Unfinished)
  }

  /** The loop of `resolveBuildIDsToEvaluate`. */
  method FinishedBuilds(all: seq<string>, finish: string -> Finish) returns (r: Option<seq<string>>)
    ensures r.Some? <==> HeadOnlyUnfinished(all, finish)
    ensures r.Some? ==> r.value == Kept(all, finish)
  {
    var finished: seq<string> := [];
    for i := 0 to |all|
      invariant finished == Kept(all[..i], finish)
      invariant HeadOnlyUnfinished(all[..i], finish)
    {
      assert all[..i + 1][..i] == all[..i];
      match finish(all[i]) {
        case Unreadable =>
          return None;
        case Finished =>
          finished := finished + [all[i]];
        case Unfinished =>
          if i > 0 {
            return None;
          }
      }
    }
    assert all[..|all|] == all;
    r := Some(finished);
  }

  lemma Unresolvable(all: seq<string>, finish: string -> Finish, finished: Option<seq<string>>)
    requires Ascending(all, Greater)
    requires finished.Some? <==> HeadOnlyUnfinished(all, finish)
    requires finished.Some? ==> finished.value == Kept(all, finish) == []
    ensures !Resolvable(Elements(all), finish)
  {
    KeptFinished(all, finish);
    if finished.None? {
      var j :| 0 <= j < |all| && finish(all[j]) != Finished && !(j == 0 && finish(all[j]) == Unfinished);
      var ids := Elements(all);
      assert all[j] in ids && all[0] in ids;
      if j > 0 {
        NeverBoth(all[0], all[j]);
      }
    }
  }

  lemma NeverBoth(x: string, y: string)
    ensures !(Greater(x, y) && Greater(y, x)) && !Greater(x, x)
  {
    StrTrichotomy(x, y);
    StrTrichotomy(x, x);
  }

  function Kept(all: seq<string>, finish: string -> Finish): seq<string> {
    if all == [] then
      []
    else
      var last := all[|all| - 1];
      Kept(all[..|all| - 1], finish) + if finish(last) == Finished then [last] else []
  }

  lemma {:induction false} KeptMembers(all: seq<string>, finish: string -> Finish)
    ensures forall x :: x in Kept(all, finish) <==> x in all && finish(x) == Finished
  {
    if all != [] {
      var init, last := all[..|all| - 1], all[|all| - 1];
      KeptMembers(init, finish);
      assert all == init + [last];
    }
  }

  lemma {:induction false} KeptOrdered(all: seq<string>, finish: string -> Finish)
    ensures Distinct(all) ==> Distinct(Kept(all, finish))
    ensures Ascending(all, Greater) ==> Ascending(Kept(all, finish), Greater)
  {
    if all != [] {
      var init, last := all[..|all| - 1], all[|all| - 1];
      KeptOrdered(init, finish);
      KeptMembers(init, finish);
      var kept := Kept(init, finish);
      forall i | 0 <= i < |kept|
        ensures Distinct(all) ==> kept[i] != last
        ensures Ascending(all, Greater) ==> Greater(kept[i], last)
      {
        assert kept[i] in init;
        var k :| 0 <= k < |init| && init[k] == kept[i];
        assert all[k] == kept[i];
      }
      hide Greater;
    }
  }

  lemma KeptFinished(all: seq<string>, finish: string -> Finish)
    ensures Elements(Kept(all, finish)) == FinishedOf(Elements(all), finish)
    ensures Distinct(all) ==> Distinct(Kept(all, finish))
    ensures Ascending(all, Greater) ==> Ascending(Kept(all, finish), Greater)
  {
    KeptMembers(all, finish);
    KeptOrdered(all, finish);
    hide Distinct, Ascending;
  }

  lemma ResolvedIsWindow(all: seq<string>, finish: string -> Finish, n: int)
    requires n > 1 && Distinct(all) && Ascending(all, Greater)
    requires HeadOnlyUnfinished(all, finish) && Kept(all, finish) != []
    ensures Resolvable(Elements(all), finish)
    ensures var finished := Kept(all, finish);
            Window(if |finished| < n then finished else finished[..n], FinishedOf(Elements(all), finish), n)
  {
    KeptFinished(all, finish);
    var finished := Kept(all, finish);
    ElementCount(finished);
    assert finished[..|finished|] == finished;
    PrefixIsWindow(finished, if |finished| < n then |finished| else n);
  }

  lemma PrefixIsWindow(s: seq<string>, n: nat)
    requires n <= |s| && Ascending(s, Greater) && |Elements(s)| == |s|
    ensures Window(s[..n], Elements(s), n)
  {
    forall x, y | x in Elements(s) && x !in s[..n] && y in s[..n] ensures Greater(y, x) {
      assert s == s[..n] + s[n..];
      var i :| 0 <= i < |s| - n && s[n..][i] == x;
      var j :| 0 <= j < n && s[j] == y;
      assert Greater(s[j], s[n + i]);
    }
  }

  /** There is one window, so the iteration order of the maps cannot be seen in it. */
  lemma WindowUnique(a: seq<string>, b: seq<string>, pool: set<string>, n: int)
    requires Comparable(pool) && Window(a, pool, n) && Window(b, pool, n)
    ensures a == b
  {
    WindowCount(a, pool, n);
    WindowCount(b, pool, n);
    WindowIncluded(a, b, pool, n);
    WindowIncluded(b, a, pool, n);
    AscendingUnique(a, b, Greater);
  }

  lemma WindowCount(a: seq<string>, pool: set<string>, n: int)
    requires Comparable(pool) && Window(a, pool, n)
    ensures StrictOrder(Greater, a) && |Elements(a)| == |a|
  {
    assert forall x | x in a :: x in Elements(a);
    GreaterOrders(pool, a);
    ElementCount(a);
  }

  lemma WindowIncluded(a: seq<string>, b: seq<string>, pool: set<string>, n: int)
    requires Comparable(pool) && Window(a, pool, n) && Window(b, pool, n)
    requires |Elements(a)| == |Elements(b)|
    ensures forall x | x in a :: x in b
  {
    forall x | x in a ensures x in b {
      assert x in Elements(a);
      if x !in b {
        MissingElement(Elements(a), Elements(b), x);
        var y :| y in Elements(b) && y !in Elements(a);
        NeverBoth(x, y);
      }
    }
  }

  lemma MissingElement<T>(a: set<T>, b: set<T>, x: T)
    requires |a| == |b| && x in a && x !in b
    ensures exists y :: y in b && y !in a
  {
    if b <= a {
      assert b <= a - {x};
      SubsetCount(b, a - {x});
    }
  }

  // ---------------------------------------------------------------- the fallback

  /** The greatest identifier below `current`. */
  predicate Predecessor(p: string, current: string, ids: set<string>) {
    p in ids && Greater(current, p) && forall x | x in ids && Greater(current, x) :: x == p || Greater(p, x)
  }

  /** `findPreviousBuildID`. */
  method FindPreviousBuildId(current: string, listing: Option<seq<string>>) returns (r: Option<string>)
    ensures r.Some? ==> listing.Some? && r.value in listing.value && r.value != current
    ensures listing.Some? && Comparable(Candidates(current, listing.value)) ==>
              && (r.Some? <==> exists x :: x in listing.value && Greater(current, x))
              && (r.Some? ==> Predecessor(r.value, current, Candidates(current, listing.value)))
  {
    if listing.None? {
      return None;
    }
    var all := SortedCandidates(current, listing.value);
    assert current in Elements(all);
    for i := 0 to |all|
      invariant forall j | 0 <= j < i :: all[j] != current || j + 1 == |all|
    {
      assert all[i] in Elements(all);
      if all[i] == current && i + 1 < |all| {
        assert all[i + 1] in Elements(all);
        if Ascending(all, Greater) {
          NextIsPredecessor(all, i);
        }
        return Some(all[i + 1]);
      }
    }
    assert all[|all| - 1] == current;
    if Ascending(all, Greater) {
      LastHasNone(all);
      assert forall x | x in listing.value :: x in Elements(all);
    }
    r := None;
  }

  lemma NextIsPredecessor(all: seq<string>, i: nat)
    requires Ascending(all, Greater) && i + 1 < |all|
    ensures Predecessor(all[i + 1], all[i], Elements(all))
  {
    forall x | x in Elements(all) && Greater(all[i], x) ensures x == all[i + 1] || Greater(all[i + 1], x) {
      var k :| 0 <= k < |all| && all[k] == x;
      NeverBoth(x, all[i]);
      hide Greater;
    }
  }

  lemma LastHasNone(all: seq<string>)
    requires all != [] && Ascending(all, Greater)
    ensures forall x | x in Elements(all) :: !Greater(all[|all| - 1], x)
  {
    forall x | x in Elements(all) ensures !Greater(all[|all| - 1], x) {
      var k :| 0 <= k < |all| && all[k] == x;
      assert all[|all| - 1] in Elements(all);
      NeverBoth(x, all[|all| - 1]);
    }
  }

  /** Filtering the unfinished latest build out of the history always leaves a build, even if that
      build has been finished since. */
  lemma HistoryIsLeft(builds: seq<string>, previous: string, unfinished: string, listing: seq<string>,
                      finish: string -> Finish, n: int)
    requires n > 1 && Greater(unfinished, previous)
    requires Resolvable(Candidates(previous, listing), finish)
    requires Window(builds, FinishedOf(Candidates(previous, listing), finish), n)
    ensures exists b :: b in builds && b != unfinished
  {
    var ids := Candidates(previous, listing);
    var pool := FinishedOf(ids, finish);
    ElementCount(builds);
    assert builds != [];
    if builds[0] == unfinished {
      assert unfinished in Elements(builds);
      NeverBoth(unfinished, previous);
      assert previous in pool && unfinished in pool;
      SubsetCount({previous, unfinished}, pool);
      assert Greater(builds[0], builds[1]);
      NeverBoth(unfinished, unfinished);
      assert builds[1] in builds;
    } else {
      assert builds[0] in builds;
    }
  }
}
