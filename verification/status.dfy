/** cmd/dashboard/handlers.go: the status of a component and of its sub-components. */
module ComponentStatus {
  import opened Base
  import opened Models
  import opened Ordering
  import opened Configuration
  import opened Store
  import opened Audit

  predicate Confirmed(o: Outage) {
    o.confirmedAt.Some?
  }

  /** The result set of `GetActiveOutagesForComponent`. */
  function ActiveRows(db: Db, c: string, now: Time): set<Outage> {
    set id | id in db.rows && db.rows[id].component == c && ActiveAt(db.rows[id], now) :: db.rows[id]
  }

  /** Those of one sub-component, the result set of `GetActiveOutagesForSubComponent`. */
  function Of(outages: set<Outage>, slug: string): set<Outage> {
    set o | o in outages && o.subComponent == slug
  }

  /** The severity of a most critical confirmed outage, suspected if none is confirmed, healthy if
      there is none at all. */
  predicate Determines(outages: set<Outage>, status: Status) {
    if outages == {} then
      status == StatusHealthy
    else if exists o :: o in outages && Confirmed(o) then
      exists o ::
        && o in outages && Confirmed(o) && status == ToStatus(o.severity)
        && forall x | x in outages && Confirmed(x) :: SeverityLevel(x.severity) <= SeverityLevel(o.severity)
    else
      status == StatusSuspected
  }

  /** Some outage of this severity is confirmed. */
  predicate SomeConfirmed(outages: set<Outage>, severity: Severity) {
    exists o :: o in outages && o.confirmedAt.Some? && o.severity == severity
  }

  /** The same with the severities by name, the worst first. */
  predicate WorstConfirmed(outages: set<Outage>, status: Status) {
    && (status == StatusDown <==> SomeConfirmed(outages, SeverityDown))
    && (status == StatusDegraded <==> !SomeConfirmed(outages, SeverityDown) && SomeConfirmed(outages, SeverityDegraded))
    && (status == StatusCapacityExhausted <==>
          && !SomeConfirmed(outages, SeverityDown) && !SomeConfirmed(outages, SeverityDegraded)
          && SomeConfirmed(outages, SeverityCapacityExhausted))
    && (status == StatusSuspected <==>
          && !SomeConfirmed(outages, SeverityDown) && !SomeConfirmed(outages, SeverityDegraded)
          && !SomeConfirmed(outages, SeverityCapacityExhausted) && outages != {}
          && (SomeConfirmed(outages, SeveritySuspected) || forall o | o in outages :: o.confirmedAt.None?))
    && (status == StatusHealthy <==> outages == {})
  }

  lemma DeterminesWorst(outages: set<Outage>, status: Status)
    requires Determines(outages, status)
    ensures WorstConfirmed(outages, status)
  {
  }

  /** `determineStatusFromSeverity`. */
  method DetermineStatus(outages: seq<Outage>) returns (status: Status)
    ensures Determines(Elements(outages), status) && WorstConfirmed(Elements(outages), status)
  {
    hide WorstConfirmed;
    forall s | Determines(Elements(outages), s) ensures WorstConfirmed(Elements(outages), s) {
      DeterminesWorst(Elements(outages), s);
    }
    if |outages| == 0 {
      return StatusHealthy;
    }
    var confirmed: seq<Outage> := [];
    var hasUnconfirmed := false;
    for i := 0 to |outages|
      invariant forall o :: o in confirmed <==> o in outages[..i] && Confirmed(o)
      invariant hasUnconfirmed <==> exists o :: o in outages[..i] && !Confirmed(o)
    {
      assert outages[..i + 1] == outages[..i] + [outages[i]];
      if outages[i].confirmedAt.Some? {
        confirmed := confirmed + [outages[i]];
      } else {
        hasUnconfirmed := true;
        assert outages[i] in outages[..i + 1];
      }
    }
    assert outages[..|outages|] == outages && outages[0] in Elements(outages);
    assert Confirmed(outages[0]) ==> outages[0] in confirmed;
    if |confirmed| > 0 {
      var worst := confirmed[0].severity;
      var level := SeverityLevel(worst);
      for i := 0 to |confirmed|
        invariant level == SeverityLevel(worst)
        invariant exists o :: o in confirmed && o.severity == worst
        invariant forall k | 0 <= k < i :: SeverityLevel(confirmed[k].severity) <= level
      {
        if SeverityLevel(confirmed[i].severity) > level {
          level, worst := SeverityLevel(confirmed[i].severity), confirmed[i].severity;
          assert confirmed[i] in confirmed;
        }
      }
      ghost var o :| o in confirmed && o.severity == worst;
      assert o in Elements(outages);
      return ToStatus(worst);
    }
    if hasUnconfirmed {
      return StatusSuspected;
    }
    assert false;
  }

  function SubNames(outages: set<Outage>): set<string> {
    set o | o in outages :: o.subComponent
  }

  /** What a component's page shows for these active outages. */
  predicate Shows(component: Component, outages: set<Outage>, status: Status) {
    if outages == {} then status == StatusHealthy
    else if |SubNames(outages)| < |component.subs| then status == StatusPartial
    else Determines(outages, status)
  }

  /** `getComponentStatus`, on the rows of its query in the order they came. */
  method GetComponentStatus(component: Component, outages: seq<Outage>) returns (status: Status)
    ensures Shows(component, Elements(outages), status)
    ensures status != StatusPartial ==> WorstConfirmed(Elements(outages), status)
  {
    hide WorstConfirmed;
    var names: set<string> := {};
    for i := 0 to |outages|
      invariant names == SubNames(Elements(outages[..i]))
    {
      assert outages[..i + 1] == outages[..i] + [outages[i]];
      assert Elements(outages[..i + 1]) == Elements(outages[..i]) + {outages[i]};
      names := names + {outages[i].subComponent};
    }
    assert outages[..|outages|] == outages;
    if |outages| == 0 {
      status := StatusHealthy;
      DeterminesWorst(Elements(outages), status);
    } else {
      assert outages[0] in Elements(outages);
      if |names| < |component.subs| {
        status := StatusPartial;
      } else {
        status := DetermineStatus(outages);
      }
    }
  }

  /** The status part of `GetSubComponentStatusJSON`. */
  method GetSubComponentStatus(outages: seq<Outage>) returns (status: Status)
    ensures Determines(Elements(outages), status) && WorstConfirmed(Elements(outages), status)
  {
    status := StatusHealthy;
    if |outages| > 0 {
      status := DetermineStatus(outages);
    } else {
      DeterminesWorst(Elements(outages), status);
    }
  }

  /** The order of the rows does not matter, nor which of several equally critical ones comes first. */
  lemma DeterminesUnique(outages: set<Outage>, a: Status, b: Status)
    requires Determines(outages, a) && Determines(outages, b)
    ensures a == b
  {
  }

  /** Once an outage is confirmed, unconfirmed ones never change the result. */
  lemma UnconfirmedIrrelevant(outages: set<Outage>, others: set<Outage>, status: Status)
    requires exists o :: o in outages && Confirmed(o)
    requires forall o | Confirmed(o) :: o in outages <==> o in others
    ensures Determines(outages, status) <==> Determines(others, status)
  {
  }

  /** On the page of a component they can: exactly when they change whether the outages name fewer
      sub-components than are configured, and so whether partial is shown. */
  lemma UnconfirmedOnPage(component: Component, outages: set<Outage>, others: set<Outage>, a: Status, b: Status)
    requires exists o :: o in outages && Confirmed(o)
    requires forall o | Confirmed(o) :: o in outages <==> o in others
    requires Shows(component, outages, a) && Shows(component, others, b)
    ensures a == b <==>
            (|SubNames(outages)| < |component.subs| <==> |SubNames(others)| < |component.subs|)
  {
    var o :| o in outages && Confirmed(o);
    assert o in others;
    ConfirmedNotPartial(outages, a);
    ConfirmedNotPartial(others, b);
    if Determines(outages, a) && Determines(others, b) {
      UnconfirmedIrrelevant(outages, others, a);
      DeterminesUnique(others, a, b);
    }
    hide Determines;
  }

  lemma ConfirmedNotPartial(outages: set<Outage>, status: Status)
    ensures Determines(outages, status) ==> status != StatusPartial
  {
  }

  // ---------------------------------------------------------------- composition

  function Slugs(component: Component): set<string> {
    set sub | sub in component.subs :: sub.slug
  }

  predicate DistinctSlugs(component: Component) {
    forall i, j | 0 <= i < j < |component.subs| :: component.subs[i].slug != component.subs[j].slug
  }

  function SlugsUpTo(component: Component, n: nat): set<string>
    requires n <= |component.subs|
  {
    set i | 0 <= i < n :: component.subs[i].slug
  }

  lemma {:induction false} SlugCount(component: Component, n: nat)
    requires DistinctSlugs(component) && n <= |component.subs|
    ensures |SlugsUpTo(component, n)| == n
  {
    if n > 0 {
      SlugCount(component, n - 1);
      var slug := component.subs[n - 1].slug;
      assert slug !in SlugsUpTo(component, n - 1);
      assert SlugsUpTo(component, n) == SlugsUpTo(component, n - 1) + {slug};
      hide DistinctSlugs, SlugsUpTo;
    }
  }

  lemma SlugsCounted(component: Component)
    requires DistinctSlugs(component)
    ensures |Slugs(component)| == |component.subs|
  {
    SlugCount(component, |component.subs|);
    assert Slugs(component) == SlugsUpTo(component, |component.subs|);
  }

  predicate AllValid(outages: set<Outage>) {
    forall o | o in outages :: IsValidSeverity(o.severity)
  }

  /** When partial is shown: fewer names than configured sub-components, counting the configured ones
      that are hit and those that are no longer configured alike. */
  lemma PartialExactly(component: Component, outages: set<Outage>, status: Status)
    requires Shows(component, outages, status) && DistinctSlugs(component)
    ensures var hit, stale := SubNames(outages) * Slugs(component), SubNames(outages) - Slugs(component);
            status == StatusPartial <==> outages != {} && |hit| + |stale| < |component.subs|
  {
    var names := SubNames(outages);
    assert names == names * Slugs(component) + (names - Slugs(component));
    assert |names| == |names * Slugs(component)| + |names - Slugs(component)|;
  }

  /** So partial means "some but not all configured sub-components have an active outage" except in two
      cases, both with outages of sub-components that are no longer configured: they alone are active and
      fewer than the configured ones, or they make up for configured ones that are not hit. */
  lemma StaleNamesMislead(component: Component, outages: set<Outage>, status: Status)
    requires Shows(component, outages, status) && DistinctSlugs(component)
    ensures var n := |component.subs|;
            var hit, stale := |SubNames(outages) * Slugs(component)|, |SubNames(outages) - Slugs(component)|;
            (status == StatusPartial <==> 0 < hit < n)
            <==> !((hit == 0 && 0 < stale < n) || (0 < hit < n <= hit + stale))
  {
    PartialExactly(component, outages, status);
    SlugsCounted(component);
    var names := SubNames(outages);
    Bounded(names * Slugs(component), Slugs(component));
    if outages != {} {
      var o :| o in outages;
      assert o.subComponent in names;
      assert o.subComponent in names * Slugs(component) || o.subComponent in names - Slugs(component);
    } else {
      assert names == {};
    }
  }

  lemma Bounded(a: set<string>, b: set<string>)
    requires a <= b
    ensures |a| <= |b|
    ensures |a| == |b| ==> a == b
    ensures |a| < |b| ==> b - a != {}
  {
    assert b == a + (b - a);
    assert |b| == |a| + |b - a|;
  }

  /** Composition. When outages name only configured sub-components, the page of the component is the
      summary of the pages of its sub-components: healthy if all are, partial if some but not all have an
      active outage, and otherwise the most severe of their statuses. */
  lemma StatusComposes(db: Db, component: Component, now: Time, status: Status, statuses: seq<Status>)
    requires Inv(db) && DistinctSlugs(component) && |statuses| == |component.subs|
    requires var outages := ActiveRows(db, component.slug, now);
             SubNames(outages) <= Slugs(component) && Shows(component, outages, status)
    requires forall i | 0 <= i < |statuses| ::
               Determines(Of(ActiveRows(db, component.slug, now), component.subs[i].slug), statuses[i])
    ensures status == StatusHealthy <==> forall i | 0 <= i < |statuses| :: statuses[i] == StatusHealthy
    ensures status == StatusPartial <==>
              && (exists i :: 0 <= i < |statuses| && statuses[i] != StatusHealthy)
              && (exists i :: 0 <= i < |statuses| && statuses[i] == StatusHealthy)
    ensures status != StatusHealthy && status != StatusPartial ==>
              && MostSevere(statuses, status)
              && forall i | 0 <= i < |statuses| :: StatusLevel(statuses[i]) <= StatusLevel(status)
  {
    var outages := ActiveRows(db, component.slug, now);
    RowsAreValid(db, component.slug, now);
    hide Inv, ActiveRows, Determines, AllValid, StatusLevel, MostSevere, SubNames, Slugs, Of, DistinctSlugs;
    SummaryComposes(component, outages, status, statuses);
    if status != StatusHealthy && status != StatusPartial {
      DeterminedLevel(outages, status);
      MostSevereNamed(statuses, status);
    }
  }

  lemma DeterminedLevel(outages: set<Outage>, status: Status)
    requires AllValid(outages) && Determines(outages, status) && status != StatusHealthy
    ensures StatusLevel(status) > 0
  {
  }

  /** The worst of the statuses, by names. */
  predicate MostSevere(statuses: seq<Status>, status: Status) {
    && status in statuses
    && (status == StatusDown <==> StatusDown in statuses)
    && (status == StatusDegraded <==> StatusDown !in statuses && StatusDegraded in statuses)
    && (status == StatusCapacityExhausted <==>
          StatusDown !in statuses && StatusDegraded !in statuses && StatusCapacityExhausted in statuses)
    && (status == StatusSuspected <==>
          forall s | s in statuses :: s !in {StatusDown, StatusDegraded, StatusCapacityExhausted})
  }

  lemma MostSevereNamed(statuses: seq<Status>, status: Status)
    requires status in statuses && StatusLevel(status) > 0
    requires forall i | 0 <= i < |statuses| :: StatusLevel(statuses[i]) <= StatusLevel(status)
    ensures MostSevere(statuses, status)
  {
  }

  /** A component's page is healthy exactly if every outage of it has an end that is not in the future. */
  lemma HealthyPage(db: Db, component: Component, now: Time, status: Status)
    requires Inv(db) && Shows(component, ActiveRows(db, component.slug, now), status)
    ensures status == StatusHealthy <==>
            forall id | id in db.rows && db.rows[id].component == component.slug ::
              db.rows[id].end.Some? && db.rows[id].end.value <= now
  {
    var outages := ActiveRows(db, component.slug, now);
    if id :| id in db.rows && db.rows[id].component == component.slug
             && (db.rows[id].end.None? || db.rows[id].end.value > now) {
      assert db.rows[id] in outages;
    }
    hide Inv;
    if outages != {} && Determines(outages, status) {
      RowsAreValid(db, component.slug, now);
      DeterminesWorst(outages, status);
    }
    hide Determines;
  }

  lemma RowsAreValid(db: Db, c: string, now: Time)
    requires Inv(db)
    ensures AllValid(ActiveRows(db, c, now))
  {
  }

  lemma SummaryComposes(component: Component, outages: set<Outage>, status: Status, statuses: seq<Status>)
    requires DistinctSlugs(component) && |statuses| == |component.subs|
    requires AllValid(outages) && SubNames(outages) <= Slugs(component) && Shows(component, outages, status)
    requires forall i | 0 <= i < |statuses| :: Determines(Of(outages, component.subs[i].slug), statuses[i])
    ensures status == StatusHealthy <==> forall i | 0 <= i < |statuses| :: statuses[i] == StatusHealthy
    ensures status == StatusPartial <==>
              && (exists i :: 0 <= i < |statuses| && statuses[i] != StatusHealthy)
              && (exists i :: 0 <= i < |statuses| && statuses[i] == StatusHealthy)
    ensures status != StatusHealthy && status != StatusPartial ==>
              && status in statuses
              && forall i | 0 <= i < |statuses| :: StatusLevel(statuses[i]) <= StatusLevel(status)
  {
    hide Determines, AllValid, StatusLevel, Of, DistinctSlugs;
    var names := SubNames(outages);
    SlugsCounted(component);
    Bounded(names, Slugs(component));
    forall i | 0 <= i < |statuses| ensures statuses[i] == StatusHealthy <==> component.subs[i].slug !in names {
      HealthyMeansNone(outages, component.subs[i].slug, statuses[i]);
    }
    if outages == {} {
      assert forall i | 0 <= i < |statuses| :: component.subs[i].slug !in names;
    } else {
      var o :| o in outages;
      assert o.subComponent in Slugs(component);
      var i :| 0 <= i < |statuses| && component.subs[i].slug == o.subComponent;
      assert statuses[i] != StatusHealthy;
      if |names| < |component.subs| {
        var slug :| slug in Slugs(component) - names;
        var j :| 0 <= j < |statuses| && component.subs[j].slug == slug;
        assert statuses[j] == StatusHealthy;
      } else {
        assert names == Slugs(component);
        WorstComposes(component, outages, status, statuses);
      }
    }
  }

  lemma HealthyMeansNone(outages: set<Outage>, slug: string, status: Status)
    requires AllValid(outages) && Determines(Of(outages, slug), status)
    ensures status == StatusHealthy <==> slug !in SubNames(outages)
    ensures status != StatusPartial
  {
    if slug in SubNames(outages) {
      var o :| o in outages && o.subComponent == slug;
      assert o in Of(outages, slug);
    }
  }

  lemma WorstComposes(component: Component, outages: set<Outage>, status: Status, statuses: seq<Status>)
    requires |statuses| == |component.subs| && outages != {} && AllValid(outages)
    requires SubNames(outages) == Slugs(component) && Determines(outages, status)
    requires forall i | 0 <= i < |statuses| :: Determines(Of(outages, component.subs[i].slug), statuses[i])
    ensures status != StatusHealthy && status != StatusPartial
    ensures status in statuses
    ensures forall i | 0 <= i < |statuses| ::
              statuses[i] != StatusHealthy && StatusLevel(statuses[i]) <= StatusLevel(status)
  {
    forall i | 0 <= i < |statuses|
      ensures statuses[i] != StatusHealthy && StatusLevel(statuses[i]) <= StatusLevel(status)
    {
      assert component.subs[i] in component.subs && component.subs[i].slug in Slugs(component);
      PartIsBelow(outages, component.subs[i].slug, status, statuses[i]);
    }
    var o := Witness(outages, status);
    assert o.subComponent in Slugs(component);
    var i :| 0 <= i < |statuses| && component.subs[i].slug == o.subComponent;
    PartReaches(outages, o, status, statuses[i]);
  }

  /** An outage that gives the set its status. */
  lemma Witness(outages: set<Outage>, status: Status) returns (o: Outage)
    requires outages != {} && Determines(outages, status)
    ensures o in outages
    ensures Confirmed(o) ==> status == ToStatus(o.severity)
    ensures Confirmed(o) ==>
               forall x | x in outages && Confirmed(x) :: SeverityLevel(x.severity) <= SeverityLevel(o.severity)
    ensures !Confirmed(o) ==> status == StatusSuspected && forall x | x in outages :: !Confirmed(x)
  {
    if exists o :: o in outages && Confirmed(o) {
      o :| o in outages && Confirmed(o) && status == ToStatus(o.severity)
        && forall x | x in outages && Confirmed(x) :: SeverityLevel(x.severity) <= SeverityLevel(o.severity);
    } else {
      o :| o in outages;
    }
  }

  lemma PartIsBelow(outages: set<Outage>, slug: string, status: Status, part: Status)
    requires AllValid(outages) && slug in SubNames(outages)
    requires Determines(outages, status) && Determines(Of(outages, slug), part)
    ensures part != StatusHealthy && StatusLevel(part) <= StatusLevel(status)
  {
    HealthyMeansNone(outages, slug, part);
    var o := Witness(outages, status);
    var p := Witness(Of(outages, slug), part);
    assert p in outages && o in outages;
  }

  lemma PartReaches(outages: set<Outage>, o: Outage, status: Status, part: Status)
    requires o in outages && AllValid(outages)
    requires Confirmed(o) ==> status == ToStatus(o.severity)
    requires Confirmed(o) ==>
               forall x | x in outages && Confirmed(x) :: SeverityLevel(x.severity) <= SeverityLevel(o.severity)
    requires !Confirmed(o) ==> status == StatusSuspected && forall x | x in outages :: !Confirmed(x)
    requires Determines(Of(outages, o.subComponent), part)
    ensures part == status
  {
    assert o in Of(outages, o.subComponent);
    var p := Witness(Of(outages, o.subComponent), part);
    assert p in outages;
  }

  // ---------------------------------------------------------------- examples

  function Sub(slug: string): SubComponent {
    SubComponent(slug, None, false)
  }

  const TWO_SUBS: Component := Component("c", [Sub("a"), Sub("b")], [])

  function Active(slug: string, severity: Severity, confirmedAt: Option<Time>): Outage {
    Outage("c", slug, severity, SECOND, None, "x", "x", "x", confirmedAt, None, SECOND)
  }

  /** A confirmed degradation of one of two sub-components is shown as partial; an unconfirmed outage of the
      other one turns that into degraded. */
  lemma UnconfirmedExample()
    ensures var confirmed, unconfirmed := Active("a", SeverityDegraded, Some(SECOND)), Active("b", SeverityDown, None);
            && Shows(TWO_SUBS, {confirmed}, StatusPartial)
            && Shows(TWO_SUBS, {confirmed, unconfirmed}, StatusDegraded)
  {
    var confirmed, unconfirmed := Active("a", SeverityDegraded, Some(SECOND)), Active("b", SeverityDown, None);
    assert SubNames({confirmed}) == {"a"};
    TwoNames(confirmed, unconfirmed);
    assert confirmed in {confirmed, unconfirmed} && Confirmed(confirmed);
    assert Determines({confirmed, unconfirmed}, StatusDegraded);
  }

  lemma TwoNames(x: Outage, y: Outage)
    requires x.subComponent != y.subComponent
    ensures SubNames({x, y}) == {x.subComponent, y.subComponent} && |SubNames({x, y})| == 2
  {
    assert x in {x, y} && y in {x, y};
    assert SubNames({x, y}) == {x.subComponent, y.subComponent};
  }

  /** Partial with no configured sub-component hit, and no longer partial with only one of two hit. */
  lemma StaleExample()
    ensures var stale, hit := Active("old", SeverityDown, Some(SECOND)), Active("a", SeverityDown, Some(SECOND));
            && Shows(TWO_SUBS, {stale}, StatusPartial) && SubNames({stale}) * Slugs(TWO_SUBS) == {}
            && Shows(TWO_SUBS, {stale, hit}, StatusDown) && SubNames({stale, hit}) * Slugs(TWO_SUBS) == {"a"}
  {
    var stale, hit := Active("old", SeverityDown, Some(SECOND)), Active("a", SeverityDown, Some(SECOND));
    assert |"old"| == 3 && |"a"| == |"b"| == 1;
    TwoSlugs();
    assert SubNames({stale}) == {"old"};
    TwoNames(stale, hit);
    assert hit in {stale, hit} && Confirmed(hit);
    assert Determines({stale, hit}, StatusDown);
  }

  lemma TwoSlugs()
    ensures Slugs(TWO_SUBS) == {"a", "b"}
  {
    assert TWO_SUBS.subs[0] in TWO_SUBS.subs && TWO_SUBS.subs[1] in TWO_SUBS.subs;
  }
}
