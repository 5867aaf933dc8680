/** cmd/component-monitor/junit-prober.go and main.go: the verdict of the JUnit prober. */
module JUnit {
  import opened Base
  import opened Models
  import opened Ordering
  import opened Store
  import opened Audit
  import opened Report
  import opened Merge
  import opened EndToEnd
  import opened Builds
  import opened Signatures

  // ---------------------------------------------------------------- settings

  datatype Settings = Settings(historyRuns: int, threshold: int, maxAge: int)

  /** The history part of the check on a JUnit monitor in `loadAndValidateConfig`. */
  method ValidateHistory(historyRuns: int, threshold: int) returns (ok: bool)
    ensures ok <==> historyRuns >= 0 && (historyRuns > 1 ==> 1 <= threshold <= historyRuns)
  {
    var runs := historyRuns;
    if runs < 0 {
      return false;
    }
    if runs <= 0 {
      runs := 1;
    }
    if runs > 1 {
      if threshold < 1 {
        return false;
      }
      if threshold > runs {
        return false;
      }
    }
    ok := true;
  }

  /** `NewJUnitProber`; accepted monitors get 1 <= threshold <= historyRuns. */
  function NewSettings(historyRuns: int, threshold: int, maxAge: int): (s: Settings)
    ensures historyRuns >= 0 && (historyRuns > 1 ==> 1 <= threshold <= historyRuns) ==>
              1 <= s.threshold <= s.historyRuns
    ensures s.historyRuns == (if historyRuns > 1 then historyRuns else 1) && s.maxAge == maxAge
    ensures s.threshold == if historyRuns > 1 then threshold else 1
  {
    var runs := if historyRuns < 1 then 1 else historyRuns;
    Settings(runs, if runs == 1 then 1 else threshold, maxAge)
  }

  // ---------------------------------------------------------------- counting

  /** Why a run is reported; the prose of the reason is left to the reader. */
  datatype Finding =
    | Stale(build: string)
    | ZeroTests(build: string)
    | FailedTests(build: string, failed: seq<string>, total: int)
    | Pattern(signature: string, count: nat, runs: nat)

  datatype Verdict = Errored | Healthy | Bad(finding: Finding)

  /** The number of failed runs with this signature. */
  function Count(runs: seq<Stats>, sig: string): nat {
    if runs == [] then
      0
    else
      var last := runs[|runs| - 1];
      Count(runs[..|runs| - 1], sig) + if Unhealthy(last) && Signature(last) == sig then 1 else 0
  }

  /** The number of failed runs with this cause. */
  ghost function SharedBy(runs: seq<Stats>, cause: Cause): nat {
    if runs == [] then
      0
    else
      var last := runs[|runs| - 1];
      SharedBy(runs[..|runs| - 1], cause) + if Unhealthy(last) && CauseOf(last) == cause then 1 else 0
  }

  /** The largest group, and of several the one whose signature sorts first. */
  ghost predicate Top(runs: seq<Stats>, sig: string, n: nat) {
    && Count(runs, sig) == n
    && forall s :: Count(runs, s) <= n && (Count(runs, s) == n ==> s == sig || StrLess(sig, s))
  }

  lemma TopUnique(runs: seq<Stats>, a: string, m: nat, b: string, n: nat)
    requires Top(runs, a, m) && Top(runs, b, n)
    ensures a == b && m == n
  {
    StrTrichotomy(a, b);
  }

  /** Enough runs share one signature. */
  ghost predicate Reaches(runs: seq<Stats>, threshold: int) {
    exists sig :: Count(runs, sig) >= threshold
  }

  lemma TopDecides(runs: seq<Stats>, sig: string, n: nat, threshold: int)
    requires Top(runs, sig, n)
    ensures n >= threshold <==> Reaches(runs, threshold)
  {
    if n >= threshold {
      assert Count(runs, sig) >= threshold;
    }
  }

  /** `counts` holds the positive counts, all under non-empty signatures. */
  ghost predicate Tallies(counts: map<string, nat>, runs: seq<Stats>) {
    && (forall s :: Count(runs, s) == if s in counts then counts[s] else 0)
    && (forall s | s in counts :: s != "" && counts[s] > 0)
  }

  lemma TallyMore(counts: map<string, nat>, runs: seq<Stats>, st: Stats)
    requires Tallies(counts, runs)
    ensures var sig := Signature(st);
            Tallies(if Unhealthy(st) then counts[sig := (if sig in counts then counts[sig] else 0) + 1] else counts,
                    runs + [st])
  {
    assert (runs + [st])[..|runs|] == runs;
    if Unhealthy(st) {
      SignatureShape(st);
    }
    hide Signature;
  }

  lemma EmptyIsLeast(s: string)
    ensures s == "" || StrLess("", s)
  {
  }

  /** The loop over the map of counts, in whatever order it yields the signatures. */
  method HighestCount(counts: map<string, nat>, ghost runs: seq<Stats>) returns (sig: string, n: nat)
    requires Tallies(counts, runs)
    ensures Top(runs, sig, n)
  {
    sig, n := "", 0;
    var pending := counts.Keys;
    while pending != {}
      invariant pending <= counts.Keys
      invariant sig == "" <==> n == 0
      invariant n > 0 ==> sig in counts && counts[sig] == n
      invariant forall s | s in counts && s !in pending ::
                  counts[s] <= n && (counts[s] == n ==> s == sig || StrLess(sig, s))
      decreases pending
    {
      var s :| s in pending;
      StrTrichotomy(s, sig);
      forall x | x in counts && x !in pending && StrLess(s, sig) && counts[x] == n ensures x == sig ==> StrLess(s, x)
        ensures x != sig ==> StrLess(s, x)
      {
        if x != sig {
          StrTransitive(s, sig, x);
        }
      }
      if counts[s] > n {
        n, sig := counts[s], s;
      } else if counts[s] == n && n > 0 && (sig == "" || StrLess(s, sig)) {
        sig := s;
      }
      pending := pending - {s};
    }
    forall s ensures Count(runs, s) <= n && (Count(runs, s) == n ==> s == sig || StrLess(sig, s)) {
      EmptyIsLeast(s);
    }
  }

  // ---------------------------------------------------------------- the history rule

  type JUnitFiles = string -> Option<seq<Suite>>

  ghost function RunsOf(builds: seq<string>, junit: JUnitFiles): seq<Stats>
    requires forall b | b in builds :: junit(b).Some?
  {
    seq(|builds|, i requires 0 <= i < |builds| => assert builds[i] in builds; StatsOf(junit(builds[i]).value))
  }

  /** The history part of `Probe`. */
  method EvaluateHistory(builds: seq<string>, junit: JUnitFiles, threshold: int) returns (v: Verdict)
    ensures v == Errored <==> exists b :: b in builds && junit(b).None?
    ensures v == Errored || v == Healthy || (v.Bad? && v.finding.Pattern?)
    ensures v != Errored ==>
              var runs := RunsOf(builds, junit);
              && (v.Bad? <==> Reaches(runs, threshold))
              && (v.Bad? ==> Top(runs, v.finding.signature, v.finding.count) && v.finding.runs == |builds|)
  {
    var counts: map<string, nat> := map[];
    ghost var runs: seq<Stats> := [];
    for i := 0 to |builds|
      invariant |runs| == i
      invariant forall j | 0 <= j < i :: junit(builds[j]).Some? && runs[j] == StatsOf(junit(builds[j]).value)
      invariant Tallies(counts, runs)
    {
      hide Tallies;
      match junit(builds[i]) {
        case None =>
          assert builds[i] in builds;
          return Errored;
        case Some(suites) =>
          var total, failed := Aggregate(suites);
          var st := Stats(total, failed);
          TallyMore(counts, runs, st);
          runs := runs + [st];
          if Unhealthy(st) {
            var sig := Signature(st);
            counts := counts[sig := (if sig in counts then counts[sig] else 0) + 1];
          }
      }
    }
    assert forall b | b in builds :: junit(b).Some?;
    assert runs == RunsOf(builds, junit);
    var sig, n := HighestCount(counts, runs);
    TopDecides(runs, sig, n, threshold);
    hide Count, Top;
    if n < threshold {
      return Healthy;
    }
    v := Bad(Pattern(sig, n, |builds|));
  }

  lemma {:induction false} CountsAgree(runs: seq<Stats>, st: Stats)
    requires Unhealthy(st) && Plain(st) && forall r | r in runs :: Plain(r)
    ensures Count(runs, Signature(st)) == SharedBy(runs, CauseOf(st))
  {
    if runs != [] {
      var init, last := runs[..|runs| - 1], runs[|runs| - 1];
      assert last in runs && forall r | r in init :: r in runs;
      CountsAgree(init, st);
      if Unhealthy(last) {
        SameCause(last, st);
      }
    }
  }

  lemma {:induction false} CountedRun(runs: seq<Stats>, sig: string) returns (st: Stats)
    requires Count(runs, sig) > 0
    ensures st in runs && Unhealthy(st) && Signature(st) == sig
  {
    var last := runs[|runs| - 1];
    if Unhealthy(last) && Signature(last) == sig {
      st := last;
    } else {
      st := CountedRun(runs[..|runs| - 1], sig);
    }
  }

  lemma {:induction false} CausedRun(runs: seq<Stats>, cause: Cause) returns (st: Stats)
    requires SharedBy(runs, cause) > 0
    ensures st in runs && Unhealthy(st) && CauseOf(st) == cause
  {
    var last := runs[|runs| - 1];
    if Unhealthy(last) && CauseOf(last) == cause {
      st := last;
    } else {
      st := CausedRun(runs[..|runs| - 1], cause);
    }
  }

  /** The history rule: enough runs have one signature exactly when enough runs fail with the same set
      of tests, or enough run no tests at all. */
  lemma HistoryRule(runs: seq<Stats>, threshold: int)
    requires threshold >= 1 && forall r | r in runs :: Plain(r)
    ensures Reaches(runs, threshold) <==> (exists cause :: SharedBy(runs, cause) >= threshold)
  {
    if sig :| Count(runs, sig) >= threshold {
      var st := CountedRun(runs, sig);
      CountsAgree(runs, st);
      assert SharedBy(runs, CauseOf(st)) >= threshold;
    }
    if cause :| SharedBy(runs, cause) >= threshold {
      var st := CausedRun(runs, cause);
      CountsAgree(runs, st);
      assert Count(runs, Signature(st)) >= threshold;
    }
  }

  /** The reported group is the cause of exactly the runs it counts. */
  lemma ReportedCause(runs: seq<Stats>, sig: string, n: nat)
    requires Top(runs, sig, n) && n >= 1 && forall r | r in runs :: Plain(r)
    ensures exists cause :: SharedBy(runs, cause) == n && forall other :: SharedBy(runs, other) <= n
  {
    var st := CountedRun(runs, sig);
    CountsAgree(runs, st);
    forall other ensures SharedBy(runs, other) <= n {
      if SharedBy(runs, other) > 0 {
        var r := CausedRun(runs, other);
        CountsAgree(runs, r);
      }
    }
    assert SharedBy(runs, CauseOf(st)) == n;
  }

  /** Suites whose names have no commas give plain statistics. */
  lemma PlainRuns(suites: seq<Suite>)
    requires forall n | n in FailingNames(suites) :: ',' !in n
    ensures Plain(StatsOf(suites))
  {
    var names := Alphabetical(FailingNames(suites));
    assert forall n | n in names :: n in Elements(names);
  }

  // ---------------------------------------------------------------- a single run

  /** Some test case with a name has a failure or an error. */
  predicate SomeFails(suites: seq<Suite>) {
    exists s, c :: s in suites && c in s.cases && (c.failure || c.error) && c.name != ""
  }

  lemma FailedExactly(suites: seq<Suite>)
    ensures StatsOf(suites).failed != [] <==> SomeFails(suites)
    ensures Elements(StatsOf(suites).failed) == FailingNames(suites)
    ensures FailingNames(suites) != {} <==> SomeFails(suites)
  {
    var names := FailingNames(suites);
    if s, c :| s in suites && c in s.cases && (c.failure || c.error) && c.name != "" {
      assert c.name in FailingIn(s.cases);
      assert c.name in names;
    }
    if n :| n in names {
      var s :| s in suites && n in FailingIn(s.cases);
      var c :| c in s.cases && Signatures.Fails(c, n);
    }
    assert Alphabetical(names) != [] ==> Alphabetical(names)[0] in Elements(Alphabetical(names));
  }

  /** `makeStatusFromAggregates`, behind `probeJunitForBuildID`. */
  method EvaluateSingle(build: string, junit: JUnitFiles) returns (v: Verdict)
    ensures v == Errored <==> junit(build).None?
    ensures v.Bad? <==> junit(build).Some? && (TotalTests(junit(build).value) == 0 || SomeFails(junit(build).value))
    ensures v != Errored ==>
              var st := StatsOf(junit(build).value);
              && (v == Healthy <==> !Unhealthy(st))
              && (v.Bad? ==>
                    v.finding == if st.total == 0 then ZeroTests(build) else FailedTests(build, st.failed, st.total))
  {
    match junit(build) {
      case None =>
        v := Errored;
      case Some(suites) =>
        var total, failed := Aggregate(suites);
        FailedExactly(suites);
        if total == 0 {
          v := Bad(ZeroTests(build));
        } else if |failed| == 0 {
          v := Healthy;
        } else {
          v := Bad(FailedTests(build, failed, total));
        }
    }
  }

  /** The single-build path agrees with the history rule for one run and threshold one. */
  lemma SingleAgrees(st: Stats)
    ensures Unhealthy(st) <==> Reaches([st], 1)
  {
    assert [st][..0] == [];
    if Unhealthy(st) {
      assert Count([st], Signature(st)) >= 1;
    }
    if sig :| Count([st], sig) >= 1 {
      var r := CountedRun([st], sig);
    }
  }

  // ---------------------------------------------------------------- the whole probe

  /** What the network answers during one probe. `age` is the time since a build's start, `None` if its
      started.json is missing, unreadable or without a positive timestamp. The listing and the latest
      build's finished.json are fetched twice and may have changed in between. */
  datatype World = World(
    latestFile: Option<string>,
    age: string -> Option<int>,
    latestFinish: Finish,
    listing: Option<seq<string>>,
    historyListing: Option<seq<string>>,
    finish: string -> Finish,
    junit: JUnitFiles)

  /** The build taken as the latest: the latest one, or the one before it while that is unfinished. */
  predicate Fallback(w: World, latest: string, base: string) {
    match w.latestFinish
    case Finished => base == latest
    case Unreadable => false
    case Unfinished =>
      && w.listing.Some? && base in w.listing.value && base != latest
      && (Comparable(Candidates(latest, w.listing.value)) ==>
            Predecessor(base, latest, Candidates(latest, w.listing.value)))
  }

  function Without(builds: seq<string>, build: string): seq<string> {
    if builds == [] then
      []
    else
      var last := builds[|builds| - 1];
      Without(builds[..|builds| - 1], build) + if last == build then [] else [last]
  }

  lemma {:induction false} WithoutMembers(builds: seq<string>, build: string)
    ensures forall b :: b in Without(builds, build) <==> b in builds && b != build
    ensures |Without(builds, build)| <= |builds|
  {
    if builds != [] {
      var init, last := builds[..|builds| - 1], builds[|builds| - 1];
      assert builds == init + [last];
      WithoutMembers(init, build);
    }
  }

  /** The builds that are judged: the base alone, or the newest finished ones without an unfinished latest. */
  ghost predicate Chosen(s: Settings, w: World, latest: string, base: string, builds: seq<string>) {
    if s.historyRuns == 1 then
      builds == [base]
    else
      && w.historyListing.Some?
      && var ids := Candidates(base, w.historyListing.value);
      && |builds| <= s.historyRuns
      && (forall b | b in builds :: b in FinishedOf(ids, w.finish))
      && (Comparable(ids) ==>
            && Resolvable(ids, w.finish)
            && exists window ::
                 && Window(window, FinishedOf(ids, w.finish), s.historyRuns)
                 && builds == if w.latestFinish == Unfinished then Without(window, latest) else window)
  }

  /** How the chosen builds are judged. */
  ghost predicate Judged(s: Settings, w: World, builds: seq<string>, v: Verdict) {
    && (forall b | b in builds :: w.junit(b).Some?)
    && var runs := RunsOf(builds, w.junit);
       if s.historyRuns == 1 then
         && |builds| == 1
         && (v.Bad? <==> Unhealthy(runs[0]))
         && (v.Bad? ==> v.finding == if runs[0].total == 0 then ZeroTests(builds[0])
                                     else FailedTests(builds[0], runs[0].failed, runs[0].total))
       else
         && (v.Bad? <==> Reaches(runs, s.threshold))
         && (v.Bad? ==>
               && v.finding.Pattern? && v.finding.runs == |builds|
               && Top(runs, v.finding.signature, v.finding.count))
  }

  /** The rule, as the probe applies it: the judged builds are found bad exactly when enough of them fail
      with the same set of tests, or enough of them run no tests. */
  lemma ProbeRule(s: Settings, w: World, builds: seq<string>, v: Verdict)
    requires Judged(s, w, builds, v) && s.threshold >= 1 && (s.historyRuns == 1 ==> s.threshold == 1)
    requires forall b, n | b in builds && n in FailingNames(w.junit(b).value) :: ',' !in n
    ensures v.Bad? <==> exists cause :: SharedBy(RunsOf(builds, w.junit), cause) >= s.threshold
  {
    var runs := RunsOf(builds, w.junit);
    forall r | r in runs ensures Plain(r) {
      var i :| 0 <= i < |runs| && runs[i] == r;
      assert builds[i] in builds;
      PlainRuns(w.junit(builds[i]).value);
    }
    hide Plain;
    HistoryRule(runs, s.threshold);
    if s.historyRuns == 1 {
      assert runs == [runs[0]];
      SingleAgrees(runs[0]);
    }
  }

  // ---------------------------------------------------------------- the rule on builds

  /** The positions of builds whose run declares no tests. */
  function EmptyRuns(builds: seq<string>, junit: JUnitFiles): set<nat>
    requires forall b | b in builds :: junit(b).Some?
  {
    set i | 0 <= i < |builds| && TotalTests(junit(builds[i]).value) == 0
  }

  /** The positions of builds with tests whose failing names are exactly these. */
  function RunsFailing(builds: seq<string>, junit: JUnitFiles, names: set<string>): set<nat>
    requires forall b | b in builds :: junit(b).Some?
  {
    set i | && 0 <= i < |builds| && TotalTests(junit(builds[i]).value) != 0
            && FailingNames(junit(builds[i]).value) == names
  }

  lemma {:induction false} SharedPositions(runs: seq<Stats>, cause: Cause)
    ensures SharedBy(runs, cause) == |set i | 0 <= i < |runs| && Unhealthy(runs[i]) && CauseOf(runs[i]) == cause|
  {
    var positions := set i | 0 <= i < |runs| && Unhealthy(runs[i]) && CauseOf(runs[i]) == cause;
    if runs != [] {
      var n := |runs| - 1;
      var init := runs[..n];
      SharedPositions(init, cause);
      var before := set i | 0 <= i < |init| && Unhealthy(init[i]) && CauseOf(init[i]) == cause;
      if Unhealthy(runs[n]) && CauseOf(runs[n]) == cause {
        assert positions == before + {n};
      } else {
        assert positions == before;
      }
    }
  }

  lemma SharedEmpty(builds: seq<string>, junit: JUnitFiles)
    requires forall b | b in builds :: junit(b).Some?
    ensures SharedBy(RunsOf(builds, junit), NoTests) == |EmptyRuns(builds, junit)|
  {
    var runs := RunsOf(builds, junit);
    SharedPositions(runs, NoTests);
    assert (set i | 0 <= i < |runs| && Unhealthy(runs[i]) && CauseOf(runs[i]) == NoTests) == EmptyRuns(builds, junit);
  }

  lemma SharedFailing(builds: seq<string>, junit: JUnitFiles, names: set<string>)
    requires forall b | b in builds :: junit(b).Some?
    ensures SharedBy(RunsOf(builds, junit), Failing(names))
         == if names == {} then 0 else |RunsFailing(builds, junit, names)|
  {
    var runs := RunsOf(builds, junit);
    SharedPositions(runs, Failing(names));
    var positions := set i | 0 <= i < |runs| && Unhealthy(runs[i]) && CauseOf(runs[i]) == Failing(names);
    hide SharedBy, TotalTests, FailingNames, Alphabetical, SomeFails;
    forall i | 0 <= i < |runs|
      ensures i in positions <==> names != {} && i in RunsFailing(builds, junit, names)
    {
      var suites := junit(builds[i]).value;
      assert builds[i] in builds && runs[i] == StatsOf(suites);
      FailedExactly(suites);
      assert runs[i].failed != [] ==> runs[i].failed[0] in Elements(runs[i].failed);
    }
    assert positions == if names == {} then {} else RunsFailing(builds, junit, names);
  }

  /** The rule in terms of the files alone, for names without commas: the judged builds are bad exactly if enough
      of them declare no tests, or enough of those that do fail in one and the same set of tests. */
  lemma BadExactly(s: Settings, w: World, builds: seq<string>, v: Verdict)
    requires Judged(s, w, builds, v) && s.threshold >= 1 && (s.historyRuns == 1 ==> s.threshold == 1)
    requires forall b, n | b in builds && n in FailingNames(w.junit(b).value) :: ',' !in n
    ensures v.Bad? <==>
            || |EmptyRuns(builds, w.junit)| >= s.threshold
            || exists names :: names != {} && |RunsFailing(builds, w.junit, names)| >= s.threshold
  {
    var runs := RunsOf(builds, w.junit);
    ProbeRule(s, w, builds, v);
    SharedEmpty(builds, w.junit);
    hide Judged, SharedBy, RunsOf, EmptyRuns, RunsFailing;
    if cause :| SharedBy(runs, cause) >= s.threshold {
      if cause.Failing? {
        SharedFailing(builds, w.junit, cause.names);
      }
    }
    if names :| names != {} && |RunsFailing(builds, w.junit, names)| >= s.threshold {
      SharedFailing(builds, w.junit, names);
      assert SharedBy(runs, Failing(names)) >= s.threshold;
    }
    if |EmptyRuns(builds, w.junit)| >= s.threshold {
      assert SharedBy(runs, NoTests) >= s.threshold;
    }
  }

  predicate TooOld(s: Settings, w: World, build: string) {
    w.age(build).Some? && w.age(build).value > s.maxAge
  }

  predicate Fresh(s: Settings, w: World, build: string) {
    w.age(build).Some? && !TooOld(s, w, build)
  }

  /** What the probe goes by. */
  function Latest(w: World): string {
    if w.latestFile.Some? then TrimSpace(w.latestFile.value) else ""
  }

  /** A verdict reached by a stale build or by judging the chosen builds. */
  ghost predicate Explains(s: Settings, w: World, v: Verdict) {
    var latest := Latest(w);
    && latest != ""
    && if v.Bad? && v.finding.Stale? then
         var build := v.finding.build;
         TooOld(s, w, build) && (build == latest || (Fresh(s, w, latest) && Fallback(w, latest, build)))
       else
         && Fresh(s, w, latest)
         && exists base, builds ::
              && Fallback(w, latest, base) && Fresh(s, w, base)
              && Chosen(s, w, latest, base, builds) && Judged(s, w, builds, v)
  }

  /** The latest build is unfinished, and no build before it can be found. */
  ghost predicate NoFallback(w: World, latest: string) {
    && w.latestFinish == Unfinished
    && (|| w.listing.None?
        || !Comparable(Candidates(latest, w.listing.value))
        || !exists x :: x in w.listing.value && Greater(latest, x))
  }

  /** No builds can be chosen: the listing fails, a build's completion cannot be told, a build that is not
      the newest is unfinished, or none is finished. */
  ghost predicate NothingChosen(s: Settings, w: World, base: string) {
    && s.historyRuns > 1
    && (|| w.historyListing.None?
        || !Comparable(Candidates(base, w.historyListing.value))
        || !Resolvable(Candidates(base, w.historyListing.value), w.finish))
  }

  /** Where an error comes from: a build that is missing or cannot be read on the way to the verdict. */
  ghost predicate Fails(s: Settings, w: World) {
    var latest := Latest(w);
    || latest == ""
    || w.age(latest).None?
    || (&& Fresh(s, w, latest)
        && (|| w.latestFinish == Unreadable
            || NoFallback(w, latest)
            || exists base :: Fallback(w, latest, base) && FailsAt(s, w, latest, base)))
  }

  ghost predicate FailsAt(s: Settings, w: World, latest: string, base: string) {
    || w.age(base).None?
    || (&& Fresh(s, w, base)
        && (|| NothingChosen(s, w, base)
            || exists builds :: Chosen(s, w, latest, base, builds) && exists b :: b in builds && w.junit(b).None?))
  }

  /** How a probe of this world may end. */
  ghost predicate Ends(s: Settings, w: World, v: Verdict) {
    if v == Errored then Fails(s, w) else Explains(s, w, v)
  }

  /** `checkBuildStaleness`: `None` if the build is fresh. */
  method CheckStaleness(s: Settings, w: World, build: string) returns (v: Option<Verdict>)
    ensures v == if w.age(build).None? then Some(Errored)
                 else if TooOld(s, w, build) then Some(Bad(Stale(build)))
                 else None
  {
    match w.age(build) {
      case None =>
        v := Some(Errored);
      case Some(age) =>
        v := if age > s.maxAge then Some(Bad(Stale(build))) else None;
    }
  }

  /** The filtering of `builds` in place. */
  method Exclude(builds: seq<string>, build: string) returns (filtered: seq<string>)
    ensures filtered == Without(builds, build)
  {
    filtered := [];
    for i := 0 to |builds|
      invariant filtered == Without(builds[..i], build)
    {
      assert builds[..i + 1][..i] == builds[..i];
      if builds[i] != build {
        filtered := filtered + [builds[i]];
      }
    }
    assert builds[..|builds|] == builds;
  }

  /** `Probe`: one result, in any case. */
  method Probe(s: Settings, w: World) returns (v: Verdict)
    requires s.historyRuns >= 1
    ensures Ends(s, w, v)
  {
    hide TrimSpace, Fallback, NoFallback, FailsAt, Chosen, Judged, Predecessor, Comparable, Greater;
    var latest := Latest(w);
    if latest == "" {
      return Errored;
    }
    var stale := CheckStaleness(s, w, latest);
    if stale.Some? {
      return stale.value;
    }
    match w.latestFinish {
      case Unreadable =>
        return Errored;
      case Finished =>
        assert Fallback(w, latest, latest) by { FinishedIsBase(w, latest); }
        v := Evaluate(s, w, latest, latest);
      case Unfinished =>
        var previous := FindPreviousBuildId(latest, w.listing);
        PreviousIsBase(w, latest, previous);
        if previous.None? {
          return Errored;
        }
        stale := CheckStaleness(s, w, previous.value);
        if stale.Some? {
          UnknownAge(s, w, latest, previous.value);
          return stale.value;
        }
        v := Evaluate(s, w, latest, previous.value);
    }
  }

  lemma UnknownAge(s: Settings, w: World, latest: string, base: string)
    ensures w.age(base).None? ==> FailsAt(s, w, latest, base)
  {
  }

  lemma FinishedIsBase(w: World, latest: string)
    requires w.latestFinish == Finished
    ensures Fallback(w, latest, latest)
  {
  }

  lemma PreviousIsBase(w: World, latest: string, r: Option<string>)
    requires w.latestFinish == Unfinished
    requires r.Some? ==> w.listing.Some? && r.value in w.listing.value && r.value != latest
    requires w.listing.Some? && Comparable(Candidates(latest, w.listing.value)) ==>
               && (r.Some? <==> exists x :: x in w.listing.value && Greater(latest, x))
               && (r.Some? ==> Predecessor(r.value, latest, Candidates(latest, w.listing.value)))
    ensures if r.Some? then Fallback(w, latest, r.value) else NoFallback(w, latest)
  {
    hide Predecessor, Comparable, Greater;
  }

  /** The part of `Probe` that chooses and judges the builds. */
  method Evaluate(s: Settings, w: World, latest: string, base: string) returns (v: Verdict)
    requires s.historyRuns >= 1 && Fallback(w, latest, base) && Fresh(s, w, base)
    ensures v == Errored ==> FailsAt(s, w, latest, base)
    ensures v != Errored ==> !(v.Bad? && v.finding.Stale?)
    ensures v != Errored ==> exists builds :: Chosen(s, w, latest, base, builds) && Judged(s, w, builds, v)
  {
    hide Resolvable, Window, Comparable, Judged, FinishedOf, Fallback, StatsOf, Chosen;
    var resolved := ResolveBuildIds(s.historyRuns, base, w.historyListing, w.finish);
    if resolved.None? {
      assert NothingChosen(s, w, base);
      return Errored;
    }
    var builds := resolved.value;
    if w.latestFinish == Unfinished {
      builds := Exclude(builds, latest);
      WithoutMembers(resolved.value, latest);
    }
    ChosenBuilds(s, w, latest, base, resolved.value, builds);
    v := Judge(s, w, builds);
  }

  /** The last part of `Probe`. */
  method Judge(s: Settings, w: World, builds: seq<string>) returns (v: Verdict)
    requires s.historyRuns == 1 ==> |builds| == 1
    ensures v != Errored ==> Judged(s, w, builds, v) && !(v.Bad? && v.finding.Stale?)
    ensures v == Errored ==> exists b :: b in builds && w.junit(b).None?
  {
    if s.historyRuns == 1 {
      v := EvaluateSingle(builds[0], w.junit);
      assert builds[0] in builds;
    } else {
      v := EvaluateHistory(builds, w.junit, s.threshold);
    }
  }

  /** The identifiers that get sorted are comparable. */
  ghost predicate Sortable(s: Settings, w: World) {
    var latest := Latest(w);
    && (w.latestFinish == Unfinished && w.listing.Some? ==> Comparable(Candidates(latest, w.listing.value)))
    && (s.historyRuns > 1 && w.historyListing.Some? ==>
          forall base | Fallback(w, latest, base) :: Comparable(Candidates(base, w.historyListing.value)))
  }

  lemma FallbackUnique(s: Settings, w: World, a: string, b: string)
    requires Sortable(s, w) && Fallback(w, Latest(w), a) && Fallback(w, Latest(w), b)
    ensures a == b
  {
    NeverBoth(a, b);
  }

  lemma ChosenUnique(s: Settings, w: World, base: string, a: seq<string>, b: seq<string>)
    requires s.historyRuns >= 1 && Sortable(s, w) && Fallback(w, Latest(w), base)
    requires Chosen(s, w, Latest(w), base, a) && Chosen(s, w, Latest(w), base, b)
    ensures a == b
  {
    if s.historyRuns > 1 {
      var latest, pool := Latest(w), FinishedOf(Candidates(base, w.historyListing.value), w.finish);
      var x :| Window(x, pool, s.historyRuns) && a == if w.latestFinish == Unfinished then Without(x, latest) else x;
      var y :| Window(y, pool, s.historyRuns) && b == if w.latestFinish == Unfinished then Without(y, latest) else y;
      PoolComparable(Candidates(base, w.historyListing.value), w.finish);
      WindowUnique(x, y, pool, s.historyRuns);
    }
  }

  lemma PoolComparable(ids: set<string>, finish: string -> Finish)
    requires Comparable(ids)
    ensures Comparable(FinishedOf(ids, finish))
  {
  }

  lemma JudgedUnique(s: Settings, w: World, builds: seq<string>, a: Verdict, b: Verdict)
    requires s.historyRuns >= 1 && a != Errored && b != Errored
    requires Judged(s, w, builds, a) && Judged(s, w, builds, b)
    ensures a == b
  {
    if a.Bad? && b.Bad? && s.historyRuns > 1 {
      TopUnique(RunsOf(builds, w.junit), a.finding.signature, a.finding.count, b.finding.signature, b.finding.count);
    }
  }

  lemma FallbackFound(s: Settings, w: World, base: string)
    requires Sortable(s, w) && Fallback(w, Latest(w), base)
    ensures !NoFallback(w, Latest(w)) && w.latestFinish != Unreadable
  {
  }

  lemma BuildsFound(s: Settings, w: World, base: string, builds: seq<string>)
    requires s.historyRuns >= 1 && Sortable(s, w) && Fallback(w, Latest(w), base)
    requires Chosen(s, w, Latest(w), base, builds)
    ensures !NothingChosen(s, w, base)
  {
  }

  lemma StaleNoError(s: Settings, w: World, v: Verdict)
    requires Sortable(s, w) && Explains(s, w, v) && v.Bad? && v.finding.Stale?
    ensures !Fails(s, w)
  {
    hide Fallback, Chosen, Judged, NoFallback, NothingChosen, Sortable, TrimSpace;
    if Fresh(s, w, Latest(w)) {
      FallbackFound(s, w, v.finding.build);
      forall base | Fallback(w, Latest(w), base) ensures !FailsAt(s, w, Latest(w), base) {
        FallbackUnique(s, w, base, v.finding.build);
      }
    }
  }

  lemma NoFailureAt(s: Settings, w: World, base: string, builds: seq<string>)
    requires s.historyRuns >= 1 && Sortable(s, w) && Fallback(w, Latest(w), base) && Fresh(s, w, base)
    requires Chosen(s, w, Latest(w), base, builds) && forall b | b in builds :: w.junit(b).Some?
    ensures !FailsAt(s, w, Latest(w), base)
  {
    BuildsFound(s, w, base, builds);
    hide Fallback, Chosen, NothingChosen, Sortable, Latest;
    if more, b :| Chosen(s, w, Latest(w), base, more) && b in more && w.junit(b).None? {
      ChosenUnique(s, w, base, more, builds);
    }
  }

  lemma JudgedNoError(s: Settings, w: World, base: string, builds: seq<string>, v: Verdict)
    requires s.historyRuns >= 1 && Sortable(s, w) && Latest(w) != "" && Fresh(s, w, Latest(w))
    requires Fallback(w, Latest(w), base) && Fresh(s, w, base)
    requires Chosen(s, w, Latest(w), base, builds) && Judged(s, w, builds, v)
    ensures !Fails(s, w)
  {
    FallbackFound(s, w, base);
    NoFailureAt(s, w, base, builds);
    hide Fallback, Chosen, Judged, NoFallback, FailsAt, Sortable, Latest;
    if other :| Fallback(w, Latest(w), other) && FailsAt(s, w, Latest(w), other) {
      FallbackUnique(s, w, other, base);
    }
  }

  /** What a verdict that is not about a stale build rests on. */
  lemma Grounds(s: Settings, w: World, v: Verdict) returns (base: string, builds: seq<string>)
    requires Explains(s, w, v) && !(v.Bad? && v.finding.Stale?)
    ensures Latest(w) != "" && Fresh(s, w, Latest(w))
    ensures Fallback(w, Latest(w), base) && Fresh(s, w, base)
    ensures Chosen(s, w, Latest(w), base, builds) && Judged(s, w, builds, v)
  {
    base, builds :| && Fallback(w, Latest(w), base) && Fresh(s, w, base)
                    && Chosen(s, w, Latest(w), base, builds) && Judged(s, w, builds, v);
  }

  /** On comparable identifiers an error is reported exactly when something fails on the way. */
  lemma ErrorExactly(s: Settings, w: World, v: Verdict)
    requires s.historyRuns >= 1 && Sortable(s, w) && Ends(s, w, v)
    ensures v == Errored <==> Fails(s, w)
  {
    hide Fails, Explains, Sortable;
    if v != Errored {
      if v.Bad? && v.finding.Stale? {
        StaleNoError(s, w, v);
      } else {
        var base, builds := Grounds(s, w, v);
        JudgedNoError(s, w, base, builds, v);
      }
    }
  }

  lemma StaleBuild(s: Settings, w: World, v: Verdict)
    requires Explains(s, w, v) && v.Bad? && v.finding.Stale?
    ensures TooOld(s, w, v.finding.build)
    ensures v.finding.build == Latest(w) || (Fresh(s, w, Latest(w)) && Fallback(w, Latest(w), v.finding.build))
  {
  }

  lemma ExplainsUnique(s: Settings, w: World, a: Verdict, b: Verdict)
    requires s.historyRuns >= 1 && Sortable(s, w) && a != Errored && b != Errored
    requires Explains(s, w, a) && Explains(s, w, b)
    ensures a == b
  {
    hide Explains, Sortable, Fallback, Chosen, Judged, Latest;
    if a.Bad? && a.finding.Stale? {
      StaleBuild(s, w, a);
      if b.Bad? && b.finding.Stale? {
        StaleBuild(s, w, b);
        if a.finding.build != Latest(w) && b.finding.build != Latest(w) {
          FallbackUnique(s, w, a.finding.build, b.finding.build);
        }
      } else {
        StaleOrJudged(s, w, a, b);
      }
    } else if b.Bad? && b.finding.Stale? {
      StaleOrJudged(s, w, b, a);
    } else {
      var base, builds := Grounds(s, w, a);
      var base', builds' := Grounds(s, w, b);
      FallbackUnique(s, w, base, base');
      ChosenUnique(s, w, base, builds, builds');
      JudgedUnique(s, w, builds, a, b);
    }
  }

  /** A world with a stale build has no other verdict. */
  lemma StaleOrJudged(s: Settings, w: World, a: Verdict, b: Verdict)
    requires Sortable(s, w) && Explains(s, w, a) && a.Bad? && a.finding.Stale?
    ensures Explains(s, w, b) ==> b.Bad? && b.finding.Stale?
  {
    hide Explains, Sortable, Fallback, Chosen, Judged, Latest;
    if Explains(s, w, b) && !(b.Bad? && b.finding.Stale?) {
      StaleBuild(s, w, a);
      var base, builds := Grounds(s, w, b);
      if a.finding.build != Latest(w) {
        FallbackUnique(s, w, a.finding.build, base);
      }
    }
  }

  /** One world has one verdict: neither map order nor the sorting algorithm can be seen in it. */
  lemma VerdictUnique(s: Settings, w: World, a: Verdict, b: Verdict)
    requires s.historyRuns >= 1 && Sortable(s, w)
    ensures Ends(s, w, a) && Ends(s, w, b) ==> a == b
  {
    hide Fails, Explains, Sortable;
    if Ends(s, w, a) && Ends(s, w, b) {
      ErrorExactly(s, w, a);
      ErrorExactly(s, w, b);
      if a != Errored && b != Errored {
        ExplainsUnique(s, w, a, b);
      }
    }
  }

  lemma ChosenBuilds(s: Settings, w: World, latest: string, base: string, window: seq<string>, builds: seq<string>)
    requires s.historyRuns >= 1 && Fallback(w, latest, base)
    requires builds == if w.latestFinish == Unfinished then Without(window, latest) else window
    requires s.historyRuns <= 1 ==> window == [base]
    requires s.historyRuns > 1 ==>
               && w.historyListing.Some?
               && |window| <= s.historyRuns
               && Elements(window) <= FinishedOf(Candidates(base, w.historyListing.value), w.finish)
               && (Comparable(Candidates(base, w.historyListing.value)) ==>
                     && Resolvable(Candidates(base, w.historyListing.value), w.finish)
                     && Window(window, FinishedOf(Candidates(base, w.historyListing.value), w.finish), s.historyRuns))
    ensures Chosen(s, w, latest, base, builds)
  {
    WithoutMembers(window, latest);
    if s.historyRuns == 1 {
      assert window[..0] == [];
    } else {
      assert forall b | b in window :: b in Elements(window);
    }
  }

  /** A history is never judged on no builds at all, even though the unfinished latest build is taken
      out of it and may have been finished in the meantime. */
  lemma HistoryNeverEmpty(s: Settings, w: World, latest: string, base: string, builds: seq<string>)
    requires s.historyRuns >= 1 && Fallback(w, latest, base) && Chosen(s, w, latest, base, builds)
    requires s.historyRuns > 1 ==> Comparable(Candidates(base, w.historyListing.value))
    requires w.latestFinish == Unfinished ==> Comparable(Candidates(latest, w.listing.value))
    ensures builds != []
  {
    if s.historyRuns > 1 {
      var listing := w.historyListing.value;
      var ids := Candidates(base, listing);
      var window :| Window(window, FinishedOf(ids, w.finish), s.historyRuns)
        && builds == if w.latestFinish == Unfinished then Without(window, latest) else window;
      if w.latestFinish == Unfinished {
        HistoryIsLeft(window, base, latest, listing, w.finish, s.historyRuns);
        WithoutMembers(window, latest);
      }
    }
  }

  /** Not so on other identifiers. Let "7" be the unfinished latest build and "07" listed: neither is greater, so
      either order is sorted. If the first sort puts "7" first and the second "07", "07" is the base, passes
      as the unfinished newest, and the history is "7", which is taken out. */
  lemma EmptyHistory(finish: string -> Finish)
    requires finish("07") == Unfinished && finish("7") == Finished
    ensures !Greater("7", "07") && !Greater("07", "7") && !Comparable({"7", "07"})
    ensures HeadOnlyUnfinished(["07", "7"], finish)
    ensures Without(Kept(["07", "7"], finish), "7") == []
  {
    hide Greater, Comparable, Kept;
    GreaterIsNoOrder();
    assert |"7"| != |"07"|;
    UnorderedPair({"7", "07"}, "7", "07");
    SecondKept("07", "7", finish);
  }

  lemma UnorderedPair(ids: set<string>, a: string, b: string)
    requires a in ids && b in ids && a != b && !Greater(a, b) && !Greater(b, a)
    ensures !Comparable(ids)
  {
    Unordered(a, b);
    hide Greater, Between;
  }

  lemma SecondKept(a: string, b: string, finish: string -> Finish)
    requires finish(a) == Unfinished && finish(b) == Finished
    ensures Kept([a, b], finish) == [b] && Without([b], b) == []
  {
    assert [a, b][..1] == [a] && [a][..0] == [] && [b][..0] == [];
    assert Kept([a], finish) == [];
  }

  // ---------------------------------------------------------------- what decides

  /** A latest build older than the limit decides alone, and only such a one does. */
  lemma StaleLatest(s: Settings, w: World, v: Verdict)
    requires Ends(s, w, v) && Latest(w) != ""
    ensures v == Bad(Stale(Latest(w))) <==> w.age(Latest(w)).Some? && w.age(Latest(w)).value > s.maxAge
  {
    hide TrimSpace, Chosen, Judged, Fallback;
  }

  /** With one history run and a finished, fresh latest build, that build's file decides. */
  lemma LatestDecides(s: Settings, w: World, v: Verdict)
    requires Ends(s, w, v) && s.historyRuns == 1 && Latest(w) != "" && w.latestFinish == Finished
    requires w.age(Latest(w)).Some? && w.age(Latest(w)).value <= s.maxAge && w.junit(Latest(w)).Some?
    ensures v != Errored
    ensures var suites := w.junit(Latest(w)).value;
            v.Bad? <==> TotalTests(suites) == 0 || SomeFails(suites)
  {
    BaseDecides(s, w, v, Latest(w));
  }

  /** While it is unfinished, the greatest listed build below it decides instead, if that is fresh. */
  lemma PreviousDecides(s: Settings, w: World, v: Verdict, previous: string)
    requires Ends(s, w, v) && s.historyRuns == 1 && Latest(w) != "" && w.latestFinish == Unfinished
    requires w.age(Latest(w)).Some? && w.age(Latest(w)).value <= s.maxAge
    requires w.listing.Some? && Comparable(Elements(w.listing.value) + {Latest(w)})
    requires previous in w.listing.value && Greater(Latest(w), previous)
    requires forall x | x in w.listing.value && Greater(Latest(w), x) :: x == previous || Greater(previous, x)
    requires w.age(previous).Some? && w.age(previous).value <= s.maxAge && w.junit(previous).Some?
    ensures v != Errored
    ensures var suites := w.junit(previous).value;
            v.Bad? <==> TotalTests(suites) == 0 || SomeFails(suites)
  {
    NeverBoth(Latest(w), Latest(w));
    BaseDecides(s, w, v, previous);
  }

  lemma BaseDecides(s: Settings, w: World, v: Verdict, base: string)
    requires Ends(s, w, v) && s.historyRuns == 1 && Sortable(s, w)
    requires Latest(w) != "" && Fresh(s, w, Latest(w)) && Fallback(w, Latest(w), base) && Fresh(s, w, base)
    requires w.junit(base).Some?
    ensures v != Errored
    ensures v.Bad? <==> TotalTests(w.junit(base).value) == 0 || SomeFails(w.junit(base).value)
  {
    ErrorExactly(s, w, v);
    NoFailureAt(s, w, base, [base]);
    FallbackFound(s, w, base);
    hide Chosen, Fallback, Sortable, FailsAt, NoFallback, TrimSpace, Latest, Explains;
    forall other | Fallback(w, Latest(w), other) ensures !FailsAt(s, w, Latest(w), other) {
      FallbackUnique(s, w, base, other);
    }
    if v.Bad? && v.finding.Stale? {
      StaleBuild(s, w, v);
      if v.finding.build != Latest(w) {
        FallbackUnique(s, w, base, v.finding.build);
      }
    } else {
      var base', builds := Grounds(s, w, v);
      FallbackUnique(s, w, base, base');
      OneBuild(s, w, builds, base, v);
    }
  }

  lemma OneBuild(s: Settings, w: World, builds: seq<string>, base: string, v: Verdict)
    requires s.historyRuns == 1 && Chosen(s, w, Latest(w), base, builds) && Judged(s, w, builds, v)
    ensures v.Bad? <==> TotalTests(w.junit(base).value) == 0 || SomeFails(w.junit(base).value)
  {
    FailedExactly(w.junit(base).value);
    hide TrimSpace, StatsOf;
    assert RunsOf(builds, w.junit)[0] == StatsOf(w.junit(base).value);
    StatsTotal(w.junit(base).value);
  }

  lemma StatsTotal(suites: seq<Suite>)
    ensures StatsOf(suites).total == TotalTests(suites)
  {
  }

  // ---------------------------------------------------------------- reporting

  /** The probe's result; `NewJUnitProber` replaces a missing severity by Degraded. */
  function ToResult(key: Key, severity: Severity, check: string, text: string, v: Verdict): ProbeResult {
    match v
    case Errored => ProbeResult(ReportStatus(key.0, key.1, StatusOther(""), []), true)
    case Healthy => ProbeResult(ReportStatus(key.0, key.1, StatusHealthy, []), false)
    case Bad(_) =>
      var status := ToStatus(if severity == SeverityOther("") then SeverityDegraded else severity);
      ProbeResult(ReportStatus(key.0, key.1, status, [Reason(CheckJUnit, check, text)]), false)
  }

  /** What the orchestrator receives: an error exactly for an error, and otherwise healthy or the configured
      severity, degraded by default, with one reason. */
  lemma ResultTells(key: Key, severity: Severity, check: string, text: string, v: Verdict)
    ensures var r := ToResult(key, severity, check, text, v);
            && About(r, key)
            && (r.errored <==> v == Errored)
            && (v == Healthy ==> r.report.status == StatusHealthy)
            && (v.Bad? ==>
                  && |r.report.reasons| == 1
                  && (severity == SeverityDown <==> r.report.status == StatusDown)
                  && (severity in {SeverityDegraded, SeverityOther("")} <==> r.report.status == StatusDegraded)
                  && (severity == SeverityCapacityExhausted <==> r.report.status == StatusCapacityExhausted)
                  && (severity == SeveritySuspected <==> r.report.status == StatusSuspected))
  {
  }

  /** A bad history is an open outage: whatever else the cycle found, once its merged report has been
      processed the monitor has an outage open for the job's sub-component. */
  lemma BadIsOpen(db: Db, monitor: string, results: seq<ProbeResult>, merged: seq<ReportStatus>, readings: seq<Reading>,
                  key: Key, severity: Severity, check: string, text: string, v: Verdict)
    requires Inv(db) && monitor != ""
    requires IsReport(results, merged) && |readings| == |merged| && AllHandled(merged, readings)
    requires v.Bad? && (IsValidSeverity(severity) || severity == SeverityOther(""))
    requires ToResult(key, severity, check, text, v) in results
    ensures Reported(db, Processed(db, monitor, merged, readings, 0).0, key, monitor, Verdicts(Group(results, key)))
  {
    hide Inv, IsReport, AllHandled, Reported, Processed, Group, Verdicts;
    UnhealthyIsOpen(db, monitor, results, merged, readings, ToResult(key, severity, check, text, v));
  }
}
