/** cmd/component-monitor/probe-orchestrator.go: merging one cycle's probe results into a report. */
module Merge {
  import opened Base
  import opened Models
  import opened Ordering
  import opened Report

  /** A probe's verdict on one sub-component, or its failure to reach one. */
  datatype ProbeResult = ProbeResult(report: ReportStatus, errored: bool)

  type Key = (string, string)

  function KeyOf(st: ReportStatus): Key {
    (st.component, st.subComponent)
  }

  function Keys(results: seq<ProbeResult>): set<Key> {
    set r | r in results :: KeyOf(r.report)
  }

  /** The results for one sub-component, in arrival order. */
  function Group(results: seq<ProbeResult>, key: Key): seq<ProbeResult> {
    if results == [] then
      []
    else
      var last := results[|results| - 1];
      Group(results[..|results| - 1], key) + if KeyOf(last.report) == key then [last] else []
  }

  function Verdicts(group: seq<ProbeResult>): seq<ReportStatus> {
    if group == [] then
      []
    else
      var last := group[|group| - 1];
      Verdicts(group[..|group| - 1]) + if last.errored then [] else [last.report]
  }

  predicate AnyErrored(group: seq<ProbeResult>) {
    exists r :: r in group && r.errored
  }

  predicate AllHealthy(verdicts: seq<ReportStatus>) {
    forall st | st in verdicts :: st.status == StatusHealthy
  }

  function FailedReasons(verdicts: seq<ReportStatus>): seq<Reason> {
    if verdicts == [] then
      []
    else
      var last := verdicts[|verdicts| - 1];
      FailedReasons(verdicts[..|verdicts| - 1]) + if last.status == StatusHealthy then [] else last.reasons
  }

  /** `worst` is the most critical status among the verdicts, healthy if none names a severity. */
  predicate MostCritical(verdicts: seq<ReportStatus>, worst: Status) {
    && (forall st | st in verdicts :: StatusLevel(st.status) <= StatusLevel(worst))
    && (worst == StatusHealthy || (StatusLevel(worst) > 0 && exists st :: st in verdicts && st.status == worst))
  }

  predicate Reached(verdicts: seq<ReportStatus>, status: Status) {
    exists st :: st in verdicts && st.status == status
  }

  /** The same with the statuses by name, the worst first. */
  predicate WorstReached(verdicts: seq<ReportStatus>, worst: Status) {
    && (worst == StatusDown <==> Reached(verdicts, StatusDown))
    && (worst == StatusDegraded <==> !Reached(verdicts, StatusDown) && Reached(verdicts, StatusDegraded))
    && (worst == StatusCapacityExhausted <==>
          && !Reached(verdicts, StatusDown) && !Reached(verdicts, StatusDegraded)
          && Reached(verdicts, StatusCapacityExhausted))
    && (worst == StatusSuspected <==>
          && !Reached(verdicts, StatusDown) && !Reached(verdicts, StatusDegraded)
          && !Reached(verdicts, StatusCapacityExhausted) && Reached(verdicts, StatusSuspected))
    && worst in {StatusDown, StatusDegraded, StatusCapacityExhausted, StatusSuspected, StatusHealthy}
  }

  lemma MostCriticalNamed(verdicts: seq<ReportStatus>, worst: Status)
    requires MostCritical(verdicts, worst)
    ensures WorstReached(verdicts, worst)
  {
  }

  /** A sub-component is omitted if no probe reached a verdict, or some probe failed and the others
      found it healthy. */
  predicate Omitted(group: seq<ProbeResult>) {
    Verdicts(group) == [] || (AnyErrored(group) && AllHealthy(Verdicts(group)))
  }

  /** The entry that stands for a group: most critical status, and the reasons of all unhealthy
      verdicts in arrival order. */
  predicate Represents(entry: ReportStatus, group: seq<ProbeResult>) {
    && MostCritical(Verdicts(group), entry.status)
    && entry.reasons == if entry.status == StatusHealthy then [] else FailedReasons(Verdicts(group))
  }

  predicate ReportLess(a: ReportStatus, b: ReportStatus) {
    if a.component != b.component then StrLess(a.component, b.component) else StrLess(a.subComponent, b.subComponent)
  }

  predicate DistinctKeys(entries: seq<ReportStatus>) {
    forall i, j | 0 <= i < j < |entries| :: KeyOf(entries[i]) != KeyOf(entries[j])
  }

  /** One entry for each sub-component of `keys` that is not omitted, and nothing else. */
  predicate Covers(results: seq<ProbeResult>, keys: set<Key>, entries: seq<ReportStatus>) {
    && DistinctKeys(entries)
    && (forall st | st in entries ::
          KeyOf(st) in keys && !Omitted(Group(results, KeyOf(st))) && Represents(st, Group(results, KeyOf(st))))
    && (forall key | key in keys && !Omitted(Group(results, key)) :: exists st :: st in entries && KeyOf(st) == key)
  }

  /** The report of a cycle: strictly sorted by slugs, and covering the sub-components probed. */
  predicate IsReport(results: seq<ProbeResult>, merged: seq<ReportStatus>) {
    Ascending(merged, ReportLess) && Covers(results, Keys(results), merged)
  }

  /** First loop of `mergeStatusesForSubComponent`. */
  method SplitGroup(group: seq<ProbeResult>) returns (hasError: bool, verdicts: seq<ReportStatus>)
    ensures hasError <==> AnyErrored(group)
    ensures verdicts == Verdicts(group)
  {
    hasError, verdicts := false, [];
    for i := 0 to |group|
      invariant hasError <==> exists k :: 0 <= k < i && group[k].errored
      invariant verdicts == Verdicts(group[..i])
    {
      assert group[..i + 1][..i] == group[..i];
      if group[i].errored {
        hasError := true;
      } else {
        verdicts := verdicts + [group[i].report];
      }
    }
    assert group[..|group|] == group;
  }

  /** Its last loop: the reasons of unhealthy verdicts and the most critical status. */
  method Summarise(verdicts: seq<ReportStatus>) returns (failedReasons: seq<Reason>, worst: Status)
    ensures failedReasons == FailedReasons(verdicts)
    ensures MostCritical(verdicts, worst) && WorstReached(verdicts, worst)
  {
    hide WorstReached;
    failedReasons, worst := [], StatusHealthy;
    for i := 0 to |verdicts|
      invariant failedReasons == FailedReasons(verdicts[..i])
      invariant MostCritical(verdicts[..i], worst)
    {
      ghost var seen := verdicts[..i];
      assert verdicts[..i + 1] == seen + [verdicts[i]];
      if verdicts[i].status != StatusHealthy {
        failedReasons := failedReasons + verdicts[i].reasons;
      }
      if StatusLevel(verdicts[i].status) > StatusLevel(worst) {
        worst := verdicts[i].status;
        assert verdicts[i] in verdicts[..i + 1];
      } else if worst != StatusHealthy {
        ghost var st :| st in seen && st.status == worst;
        assert st in verdicts[..i + 1];
      }
    }
    assert verdicts[..|verdicts|] == verdicts;
    MostCriticalNamed(verdicts, worst);
  }

  /** `mergeStatusesForSubComponent`. */
  method MergeGroup(key: Key, group: seq<ProbeResult>) returns (entry: Option<ReportStatus>)
    ensures entry.None? <==> Omitted(group)
    ensures entry.Some? ==> KeyOf(entry.value) == key && Represents(entry.value, group)
  {
    var hasError, verdicts := SplitGroup(group);
    if hasError {
      var allHealthy := true;
      for i := 0 to |verdicts|
        invariant forall k | 0 <= k < i :: verdicts[k].status == StatusHealthy
        invariant allHealthy
      {
        if verdicts[i].status != StatusHealthy {
          allHealthy := false;
          assert verdicts[i] in verdicts;
          break;
        }
      }
      assert allHealthy <==> AllHealthy(verdicts);
      if allHealthy {
        return None;
      }
    }
    if |verdicts| == 0 {
      return None;
    }
    var failedReasons, worst := Summarise(verdicts);
    entry := Some(ReportStatus(key.0, key.1, worst, if worst == StatusHealthy then [] else failedReasons));
  }

  lemma ReportOrder(reports: seq<ReportStatus>)
    requires DistinctKeys(reports)
    ensures StrictOrder(ReportLess, reports) && Distinct(reports)
  {
    forall x, y | x in reports && y in reports
      ensures !ReportLess(x, x) && (x == y || ReportLess(x, y) || ReportLess(y, x))
    {
      StrTrichotomy(x.component, y.component);
      StrTrichotomy(x.subComponent, y.subComponent);
      StrTrichotomy(x.subComponent, x.subComponent);
    }
    forall x, y, z | x in reports && y in reports && z in reports && ReportLess(x, y) && ReportLess(y, z)
      ensures ReportLess(x, z)
    {
      ReportLessTransitive(x, y, z);
    }
  }

  lemma ReportLessTransitive(x: ReportStatus, y: ReportStatus, z: ReportStatus)
    requires ReportLess(x, y) && ReportLess(y, z)
    ensures ReportLess(x, z)
  {
    StrTrichotomy(x.component, y.component);
    if x.component != y.component && y.component != z.component {
      StrTransitive(x.component, y.component, z.component);
      StrTrichotomy(x.component, z.component);
    } else if x.component == y.component == z.component {
      StrTransitive(x.subComponent, y.subComponent, z.subComponent);
    }
  }

  /** `mergeStatuses`: group into a map, merge the groups in whatever order the map yields them,
      sort. */
  method MergeStatuses(results: seq<ProbeResult>) returns (merged: seq<ReportStatus>)
    ensures IsReport(results, merged)
  {
    var grouped: map<Key, seq<ProbeResult>> := map[];
    for i := 0 to |results|
      invariant grouped.Keys == Keys(results[..i])
      invariant forall key | key in grouped :: grouped[key] == Group(results[..i], key)
    {
      assert results[..i + 1] == results[..i] + [results[i]];
      var key := KeyOf(results[i].report);
      NoGroup(results[..i], key);
      grouped := grouped[key := (if key in grouped then grouped[key] else []) + [results[i]]];
    }
    assert results[..|results|] == results;
    var unsorted := MergeGroups(results, grouped);
    ReportOrder(unsorted);
    merged := SortSlice(unsorted, ReportLess);
    SortedCovers(results, unsorted, merged);
  }

  lemma SortedCovers(results: seq<ProbeResult>, unsorted: seq<ReportStatus>, merged: seq<ReportStatus>)
    requires Covers(results, Keys(results), unsorted)
    requires SameElements(merged, unsorted) && Ascending(merged, ReportLess)
    ensures IsReport(results, merged)
  {
    forall i, j | 0 <= i < j < |merged| ensures KeyOf(merged[i]) != KeyOf(merged[j]) {
      StrTrichotomy(merged[i].component, merged[j].component);
      StrTrichotomy(merged[i].subComponent, merged[j].subComponent);
    }
    hide Omitted, Represents, Group;
  }

  lemma {:induction false} NoGroup(results: seq<ProbeResult>, key: Key)
    ensures key !in Keys(results) ==> Group(results, key) == []
  {
    if results != [] {
      var init, last := results[..|results| - 1], results[|results| - 1];
      assert last in results;
      assert forall r | r in init :: r in results;
      NoGroup(init, key);
    }
  }

  lemma CoversMore(results: seq<ProbeResult>, keys: set<Key>, entries: seq<ReportStatus>, key: Key,
                   entry: Option<ReportStatus>)
    requires Covers(results, keys, entries) && key !in keys
    requires entry.None? <==> Omitted(Group(results, key))
    requires entry.Some? ==> KeyOf(entry.value) == key && Represents(entry.value, Group(results, key))
    ensures Covers(results, keys + {key}, if entry.None? then entries else entries + [entry.value])
  {
    hide Omitted, Represents, Group;
    if entry.Some? {
      var more := entries + [entry.value];
      assert entry.value in more && forall st | st in entries :: st in more;
      assert forall st | st in more :: st in entries || st == entry.value;
      forall k | k in keys + {key} && !Omitted(Group(results, k)) ensures exists st :: st in more && KeyOf(st) == k {
        if k != key {
          var st :| st in entries && KeyOf(st) == k;
          assert st in more;
        }
      }
    }
  }

  /** The loop over the map, taking its keys in arbitrary order. */
  method MergeGroups(ghost results: seq<ProbeResult>, grouped: map<Key, seq<ProbeResult>>)
    returns (unsorted: seq<ReportStatus>)
    requires forall key | key in grouped :: grouped[key] == Group(results, key)
    ensures Covers(results, grouped.Keys, unsorted)
  {
    unsorted := [];
    var pending := grouped.Keys;
    while pending != {}
      invariant pending <= grouped.Keys
      invariant Covers(results, grouped.Keys - pending, unsorted)
      decreases pending
    {
      hide Covers;
      var key :| key in pending;
      var entry := MergeGroup(key, grouped[key]);
      CoversMore(results, grouped.Keys - pending, unsorted, key, entry);
      pending := pending - {key};
      assert grouped.Keys - pending == grouped.Keys - (pending + {key}) + {key};
      if entry.Some? {
        unsorted := unsorted + [entry.value];
      }
    }
    assert grouped.Keys - pending == grouped.Keys;
  }

  lemma MostCriticalUnique(verdicts: seq<ReportStatus>, a: Status, b: Status)
    requires MostCritical(verdicts, a) && MostCritical(verdicts, b)
    ensures a == b
  {
  }

  /** A cycle has one report: neither the iteration order of the map nor the sorting algorithm can
      be seen in it. Two cycles whose groups agree, such as one whose results arrive reordered
      across sub-components, have the same report. */
  lemma ReportUnique(results: seq<ProbeResult>, results': seq<ProbeResult>, a: seq<ReportStatus>, b: seq<ReportStatus>)
    requires IsReport(results, a) && IsReport(results', b)
    requires Keys(results) == Keys(results')
    requires forall key | key in Keys(results) :: Group(results, key) == Group(results', key)
    ensures a == b
  {
    ContainedIn(results, results', a, b);
    ContainedIn(results', results, b, a);
    ReportOrder(a);
    AscendingUnique(a, b, ReportLess);
  }

  lemma ContainedIn(results: seq<ProbeResult>, results': seq<ProbeResult>, a: seq<ReportStatus>, b: seq<ReportStatus>)
    requires IsReport(results, a) && IsReport(results', b)
    requires Keys(results) == Keys(results')
    requires forall key | key in Keys(results) :: Group(results, key) == Group(results', key)
    ensures forall st | st in a :: st in b
  {
    forall st | st in a ensures st in b {
      var other :| other in b && KeyOf(other) == KeyOf(st);
      MostCriticalUnique(Verdicts(Group(results, KeyOf(st))), st.status, other.status);
    }
  }

  // ---------------------------------------------------------------- the report in terms of the results

  predicate About(r: ProbeResult, key: Key) {
    r.report.component == key.0 && r.report.subComponent == key.1
  }

  /** Some probe reached this status for the sub-component. */
  predicate Said(results: seq<ProbeResult>, key: Key, status: Status) {
    exists r :: r in results && About(r, key) && !r.errored && r.report.status == status
  }

  lemma {:induction false} GroupMembers(results: seq<ProbeResult>, key: Key)
    ensures forall r :: r in Group(results, key) <==> r in results && About(r, key)
  {
    if results != [] {
      GroupMembers(results[..|results| - 1], key);
      assert results == results[..|results| - 1] + [results[|results| - 1]];
    }
  }

  lemma {:induction false} VerdictMembers(group: seq<ProbeResult>)
    ensures forall st :: st in Verdicts(group) <==> exists r :: r in group && !r.errored && r.report == st
  {
    if group != [] {
      var init, last := group[..|group| - 1], group[|group| - 1];
      assert group == init + [last];
      VerdictMembers(init);
      forall st | st in Verdicts(group) ensures exists r :: r in group && !r.errored && r.report == st {
        if st in Verdicts(init) {
          var r :| r in init && !r.errored && r.report == st;
          assert r in group;
        } else {
          assert last in group;
        }
      }
    }
  }

  lemma KeyVerdicts(results: seq<ProbeResult>, key: Key, st: ReportStatus)
    ensures st in Verdicts(Group(results, key)) <==>
            exists r :: r in results && About(r, key) && !r.errored && r.report == st
  {
    GroupMembers(results, key);
    VerdictMembers(Group(results, key));
    hide Group, Verdicts;
    if st in Verdicts(Group(results, key)) {
      var r :| r in Group(results, key) && !r.errored && r.report == st;
      assert r in results;
    }
  }

  /** When a sub-component is left out of the report: if no probe reached a verdict on it, or if one failed
      and all verdicts are healthy. */
  lemma OmittedExactly(results: seq<ProbeResult>, key: Key)
    ensures !Omitted(Group(results, key)) <==>
            && (exists st :: Said(results, key, st))
            && ((forall r | r in results && About(r, key) :: !r.errored)
                || (exists st :: Said(results, key, st) && st != StatusHealthy))
  {
    GroupMembers(results, key);
    VerdictMembers(Group(results, key));
    var verdicts := Verdicts(Group(results, key));
    hide Group, Verdicts;
    forall st | st in verdicts ensures Said(results, key, st.status) {
      KeyVerdicts(results, key, st);
    }
    forall status | Said(results, key, status) ensures exists st :: st in verdicts && st.status == status {
      var r :| r in results && About(r, key) && !r.errored && r.report.status == status;
      KeyVerdicts(results, key, r.report);
    }
    assert verdicts != [] ==> verdicts[0] in verdicts;
  }

  /** Which sub-components a report has an entry for. */
  lemma EntryExactly(results: seq<ProbeResult>, merged: seq<ReportStatus>, key: Key)
    requires IsReport(results, merged)
    ensures (exists entry :: entry in merged && (entry.component, entry.subComponent) == key) <==>
            && (exists st :: Said(results, key, st))
            && ((forall r | r in results && About(r, key) :: !r.errored)
                || (exists st :: Said(results, key, st) && st != StatusHealthy))
  {
    OmittedExactly(results, key);
    if st :| Said(results, key, st) {
      var r :| r in results && About(r, key) && !r.errored && r.report.status == st;
      assert KeyOf(r.report) in Keys(results);
    }
    hide Omitted, Group, Represents;
  }

  /** Which status it has: the worst that some probe reached. */
  predicate WorstSaid(results: seq<ProbeResult>, key: Key, status: Status) {
    && (status == StatusDown <==> Said(results, key, StatusDown))
    && (status == StatusDegraded <==> !Said(results, key, StatusDown) && Said(results, key, StatusDegraded))
    && (status == StatusCapacityExhausted <==>
          && !Said(results, key, StatusDown) && !Said(results, key, StatusDegraded)
          && Said(results, key, StatusCapacityExhausted))
    && (status == StatusSuspected <==>
          && !Said(results, key, StatusDown) && !Said(results, key, StatusDegraded)
          && !Said(results, key, StatusCapacityExhausted) && Said(results, key, StatusSuspected))
    && (status in {StatusDown, StatusDegraded, StatusCapacityExhausted, StatusSuspected, StatusHealthy})
  }

  lemma EntryStatus(results: seq<ProbeResult>, merged: seq<ReportStatus>, entry: ReportStatus)
    requires IsReport(results, merged) && entry in merged
    ensures WorstSaid(results, (entry.component, entry.subComponent), entry.status)
  {
    var key := (entry.component, entry.subComponent);
    var verdicts := Verdicts(Group(results, key));
    assert KeyOf(entry) == key && MostCritical(verdicts, entry.status);
    hide IsReport, Group, Verdicts, Said, Reached, MostCritical;
    MostCriticalNamed(verdicts, entry.status);
    SaidVerdict(results, key, StatusDown);
    SaidVerdict(results, key, StatusDegraded);
    SaidVerdict(results, key, StatusCapacityExhausted);
    SaidVerdict(results, key, StatusSuspected);
  }

  lemma SaidVerdict(results: seq<ProbeResult>, key: Key, status: Status)
    ensures Said(results, key, status) <==> Reached(Verdicts(Group(results, key)), status)
  {
    hide Group, Verdicts;
    if Said(results, key, status) {
      var r :| r in results && About(r, key) && !r.errored && r.report.status == status;
      KeyVerdicts(results, key, r.report);
    }
    if st :| st in Verdicts(Group(results, key)) && st.status == status {
      KeyVerdicts(results, key, st);
    }
  }

  /** The reasons a report gives for a sub-component it does not find healthy. */
  function ReasonsFor(results: seq<ProbeResult>, key: Key): seq<Reason> {
    FailedReasons(Verdicts(Group(results, key)))
  }

  lemma EntryReasons(results: seq<ProbeResult>, merged: seq<ReportStatus>, entry: ReportStatus)
    requires IsReport(results, merged) && entry in merged
    ensures var key := (entry.component, entry.subComponent);
            entry.reasons == if entry.status == StatusHealthy then [] else ReasonsFor(results, key)
  {
  }

  lemma GroupAppend(results: seq<ProbeResult>, r: ProbeResult, key: Key)
    ensures Group(results + [r], key) == if About(r, key) then Group(results, key) + [r] else Group(results, key)
  {
    assert (results + [r])[..|results|] == results;
  }

  lemma VerdictsAppend(group: seq<ProbeResult>, r: ProbeResult)
    ensures Verdicts(group + [r]) == if r.errored then Verdicts(group) else Verdicts(group) + [r.report]
  {
    assert (group + [r])[..|group|] == group;
  }

  lemma ReasonsAppend(verdicts: seq<ReportStatus>, st: ReportStatus)
    ensures FailedReasons(verdicts + [st]) ==
            FailedReasons(verdicts) + if st.status == StatusHealthy then [] else st.reasons
  {
    assert (verdicts + [st])[..|verdicts|] == verdicts;
  }

  /** They are the reasons of the unhealthy verdicts in the order in which the results arrived. */
  lemma ReasonsInOrder(results: seq<ProbeResult>, r: ProbeResult, key: Key)
    ensures ReasonsFor([], key) == []
    ensures ReasonsFor(results + [r], key) ==
            if About(r, key) && !r.errored && r.report.status != StatusHealthy
            then ReasonsFor(results, key) + r.report.reasons
            else ReasonsFor(results, key)
  {
    GroupAppend(results, r, key);
    VerdictsAppend(Group(results, key), r);
    ReasonsAppend(Verdicts(Group(results, key)), r.report);
    assert Verdicts(Group([], key)) == [];
    hide Group, Verdicts;
  }

  /** Entries are in the order of their component's slug and, within one, of their own. */
  lemma EntryOrder(results: seq<ProbeResult>, merged: seq<ReportStatus>, i: nat, j: nat)
    requires IsReport(results, merged) && i < j < |merged|
    ensures || StrLess(merged[i].component, merged[j].component)
            || (merged[i].component == merged[j].component && StrLess(merged[i].subComponent, merged[j].subComponent))
  {
  }
}
