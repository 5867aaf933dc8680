/** cmd/component-monitor/junit-prober.go: failing tests of a build and its failure signature. */
module Signatures {
  import opened Ordering
  import opened Text
  import opened Builds

  datatype TestCase = TestCase(name: string, failure: bool, error: bool)

  datatype Suite = Suite(tests: int, cases: seq<TestCase>)

  /** A build's aggregate: its total test count and its failing names. */
  datatype Stats = Stats(total: int, failed: seq<string>)

  function TotalTests(suites: seq<Suite>): int {
    if suites == [] then 0 else TotalTests(suites[..|suites| - 1]) + suites[|suites| - 1].tests
  }

  /** The declared counts add up over the suites. */
  lemma TotalTestsAdds(suites: seq<Suite>, s: Suite)
    ensures TotalTests([]) == 0
    ensures TotalTests(suites + [s]) == TotalTests(suites) + s.tests
  {
    assert (suites + [s])[..|suites|] == suites;
  }

  predicate Fails(c: TestCase, name: string) {
    (c.failure || c.error) && c.name == name != ""
  }

  function FailingIn(cases: seq<TestCase>): set<string> {
    set c | c in cases && Fails(c, c.name) :: c.name
  }

  function FailingNames(suites: seq<Suite>): set<string> {
    set s, n | s in suites && n in FailingIn(s.cases) :: n
  }

  predicate IsLeast(names: set<string>, n: string) {
    n in names && forall x | x in names :: x == n || StrLess(n, x)
  }

  lemma HasLeast(names: set<string>)
    requires names != {}
    ensures exists n :: IsLeast(names, n)
  {
    var a :| a in names;
    var rest := names - {a};
    assert forall x | x in names :: x == a || x in rest;
    if rest == {} {
      assert IsLeast(names, a);
    } else {
      HasLeast(rest);
      var n :| IsLeast(rest, n);
      StrTrichotomy(a, n);
      forall x | x in rest && StrLess(a, n) ensures StrLess(a, x) {
        if x != n {
          StrTransitive(a, n, x);
        }
      }
      assert IsLeast(names, if StrLess(a, n) then a else n);
    }
  }

  /** The names of a set in ascending order. */
  ghost function Alphabetical(names: set<string>): (r: seq<string>)
    ensures Elements(r) == names
    ensures Ascending(r, StrLess)
  {
    if names == {} then
      []
    else
      HasLeast(names);
      var n :| IsLeast(names, n);
      var rest := Alphabetical(names - {n});
      assert forall x :: x in rest <==> x in Elements(rest);
      assert forall x :: x in [n] + rest <==> x == n || x in rest;
      [n] + rest
  }

  lemma AlphabeticalUnique(r: seq<string>)
    requires Ascending(r, StrLess)
    ensures Alphabetical(Elements(r)) == r
  {
    var other := Alphabetical(Elements(r));
    StringOrder(r);
    assert forall x | x in r :: x in Elements(r);
    assert forall x | x in other :: x in Elements(other);
    AscendingUnique(r, other, StrLess);
  }

  lemma StringOrder(s: seq<string>)
    ensures StrictOrder(StrLess, s)
  {
    forall x, y | x in s && y in s ensures !StrLess(x, x) && (x == y || StrLess(x, y) || StrLess(y, x)) {
      StrTrichotomy(x, y);
    }
    forall x, y, z | x in s && y in s && z in s && StrLess(x, y) && StrLess(y, z) ensures StrLess(x, z) {
      StrTransitive(x, y, z);
    }
  }

  ghost function StatsOf(suites: seq<Suite>): Stats {
    Stats(TotalTests(suites), Alphabetical(FailingNames(suites)))
  }

  /** `aggregateJunitFromSuites`: the sum of the declared test counts, and each failing name once, in
      order, however the map yields them. */
  method Aggregate(suites: seq<Suite>) returns (total: int, failed: seq<string>)
    ensures Stats(total, failed) == StatsOf(suites)
  {
    total := 0;
    var seen: set<string> := {};
    for i := 0 to |suites|
      invariant total == TotalTests(suites[..i])
      invariant seen == FailingNames(suites[..i])
    {
      assert suites[..i + 1] == suites[..i] + [suites[i]];
      var cases := suites[i].cases;
      total := total + suites[i].tests;
      ghost var before := seen;
      for j := 0 to |cases|
        invariant seen == before + FailingIn(cases[..j])
      {
        assert cases[..j + 1] == cases[..j] + [cases[j]];
        if !cases[j].failure && !cases[j].error {
          continue;
        }
        if cases[j].name != "" {
          seen := seen + {cases[j].name};
        }
      }
      assert cases[..|cases|] == cases;
    }
    assert suites[..|suites|] == suites;
    var unsorted := KeysInSomeOrder(seen);
    failed := SortSlice(unsorted, StrLess);
    SameElementsSame(failed, unsorted);
    StringOrder(unsorted);
    AlphabeticalUnique(failed);
  }

  // ---------------------------------------------------------------- signatures

  predicate CommaFree(names: seq<string>) {
    forall n | n in names :: ',' !in n
  }

  lemma {:induction false} CommaFreeSplit(n: string)
    requires ',' !in n
    ensures Split(n, ',') == [n]
  {
    if n != "" {
      assert n[0] in n && n == [n[0]] + n[1..];
      CommaFreeSplit(n[1..]);
    }
  }

  lemma {:induction false} CommaFreePieces(names: seq<string>)
    requires CommaFree(names)
    ensures Pieces(names, ',') == names
  {
    if names != [] {
      assert names[0] in names;
      CommaFreeSplit(names[0]);
      CommaFreePieces(names[1..]);
    }
  }

  const ZERO_TESTS := "zero_tests"
  const FAILED_PREFIX := "failed:"

  /** `junitUnhealthy`. */
  predicate Unhealthy(st: Stats) {
    st.total == 0 || st.failed != []
  }

  /** `junitFailureSignature`. */
  function Signature(st: Stats): string {
    if st.total == 0 then ZERO_TESTS
    else if st.failed == [] then ""
    else FAILED_PREFIX + Join(st.failed, ',')
  }

  lemma SignatureShape(st: Stats)
    requires Unhealthy(st)
    ensures Signature(st) != ""
    ensures st.total == 0 <==> Signature(st) == ZERO_TESTS
  {
    assert FAILED_PREFIX[0] == 'f' && ZERO_TESTS[0] == 'z';
  }

  /** What a failed run is about: no tests at all, or a set of failing names. */
  datatype Cause = NoTests | Failing(names: set<string>)

  function CauseOf(st: Stats): Cause {
    if st.total == 0 then NoTests else Failing(Elements(st.failed))
  }

  /** Two failed runs have one signature exactly when both have no tests, or both have some and their
      failing names have the same pieces between commas. */
  lemma SameSignature(a: Stats, b: Stats)
    requires Unhealthy(a) && Unhealthy(b)
    ensures Signature(a) == Signature(b) <==>
            (a.total == 0 <==> b.total == 0) && (a.total != 0 ==> Pieces(a.failed, ',') == Pieces(b.failed, ','))
  {
    SignatureShape(a);
    SignatureShape(b);
    if a.total != 0 && b.total != 0 {
      JoinInjective(a.failed, b.failed, ',');
      var n := |FAILED_PREFIX|;
      assert Signature(a)[n..] == Join(a.failed, ',') && Signature(b)[n..] == Join(b.failed, ',');
    }
  }

  predicate Plain(st: Stats) {
    Ascending(st.failed, StrLess) && CommaFree(st.failed)
  }

  /** Without commas in names that is the same cause. */
  lemma SameCause(a: Stats, b: Stats)
    requires Unhealthy(a) && Unhealthy(b) && Plain(a) && Plain(b)
    ensures Signature(a) == Signature(b) <==> CauseOf(a) == CauseOf(b)
  {
    SameSignature(a, b);
    CommaFreePieces(a.failed);
    CommaFreePieces(b.failed);
    AlphabeticalUnique(a.failed);
    AlphabeticalUnique(b.failed);
  }

  /** With one, different failures can be counted as the same. */
  lemma CommaConfuses()
    ensures var a, b := Stats(2, ["a", "b"]), Stats(2, ["a,b"]);
            && Ascending(a.failed, StrLess) && Ascending(b.failed, StrLess)
            && Signature(a) == Signature(b) && CauseOf(a) != CauseOf(b)
  {
    var a, b := ["a", "b"], ["a,b"];
    assert a[1..] == ["b"];
    assert Join(a, ',') == "a" + [','] + "b" == "a,b" == Join(b, ',');
    assert "a" in Elements(a) && |b[0]| == 3;
    assert "a" !in Elements(b);
  }

  /** The two forms of a signature. */
  lemma SignatureText()
    ensures Signature(Stats(0, ["a"])) == "zero_tests"
    ensures Signature(Stats(2, ["a", "b"])) == "failed:a,b"
  {
    assert ["a", "b"][1..] == ["b"];
    assert Join(["a", "b"], ',') == "a" + [','] + "b" == "a,b";
  }
}
