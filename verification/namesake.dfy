/** cmd/dashboard/absent_report.go: a monitor that goes by the checker's own name, "dashboard". The checker
    looks for outages of its source but writes them under its name, so the two can add up. */
module Namesake {
  import opened Base
  import opened Models
  import opened Configuration
  import opened Store
  import opened Audit
  import opened Effects
  import opened Report
  import opened Absent
  import opened Runs
  import opened Sample
  import opened Deduplication
  import opened Deadline
  import opened EndToEnd

  /** The visit opens an absent-report outage. */
  predicate Opening(db: Db, t: Target, env: Env) {
    && Late(db, t, env)
    && AbsentOpen(db, t.component, t.sub.slug) == {}
    && !env.pingFails && !env.queryFails && !Hits(env.writeFault, 2)
  }

  /** An opening visit adds its row, under every key the row has; any other adds nothing. */
  lemma VisitAdds(db: Db, t: Target, env: Env, c: string, s: string, src: Source)
    requires RowsOk(db) && env.now != 0
    ensures var before, after := Open(db, c, s, src), Open(CheckedOne(db, t, env), c, s, src);
            var matches := At(t, c, s) && From(AbsentOutage(t.component, t.sub, env.now), src);
            if Opening(db, t, env) then
              after == before + if matches then {db.nextId} else {}
            else
              after <= before
  {
    hide Resolved, QueryOpen, RowsOk, Open, Overdue, Blank, Created;
    if Scheduled(t) {
      var own := DiscoveredFrom(ABSENT_SOURCE);
      var o := AbsentOutage(t.component, t.sub, env.now);
      AbsentIsText();
      QueryLoads(db, t.component, t.sub.slug, own, env.order);
      ResolvedShrinks(db, t.component, t.sub.slug, own, t.sub.monitoring.value.monitor, env, c, s, src);
      CreatedOpens(db, o, [], ABSENT_CREATOR, env.now, env.writeFault, c, s, src);
      CreatedSucceeds(db, o, env);
    }
  }

  lemma CreatedSucceeds(db: Db, o: Outage, env: Env)
    requires Valid(o)
    ensures var (after, id) := Created(db, o, [], ABSENT_CREATOR, env.now, env.writeFault);
            id.Some? <==> !Hits(env.writeFault, 2)
  {
  }

  lemma FreshId(db: Db, c: string, s: string, src: Source)
    requires RowsOk(db)
    ensures db.nextId !in Open(db, c, s, src)
  {
  }

  /** Exactly when a visit leaves more outages open under a key than one and than there were: under the
      checker's own name, when it opens an outage beside one that is open under that name. */
  lemma VisitExceeds(db: Db, t: Target, env: Env, c: string, s: string, src: Source)
    requires RowsOk(db) && env.now != 0
    ensures OpenCount(CheckedOne(db, t, env), c, s, src) > AtLeastOne(OpenCount(db, c, s, src)) <==>
            && src == CreatedBy(ABSENT_CREATOR) && At(t, c, s)
            && OpenCount(db, c, s, src) >= 1
            && Opening(db, t, env)
  {
    VisitAdds(db, t, env, c, s, src);
    FreshId(db, c, s, src);
    var before, after := Open(db, c, s, src), Open(CheckedOne(db, t, env), c, s, src);
    hide CheckedOne, Open, RowsOk, Late;
    if after <= before {
      SubsetCount(after, before);
    }
    if src.DiscoveredFrom? && src.name == ABSENT_SOURCE && At(t, c, s) && Opening(db, t, env) {
      assert before == {};
    }
  }

  /** Such a state is two events away: a report under that name opens an outage, and once the monitor has
      been silent beyond the threshold, a visit opens the second. */
  lemma NamesakeDuplicates(db: Db, st: ReportStatus, r: Reading, t: Target, env: Env)
    requires Inv(db) && Handled(st, r) && Creates(db, st, ABSENT_CREATOR)
    requires AbsentOpen(db, st.component, st.subComponent) == {}
    requires At(t, st.component, st.subComponent) && Scheduled(t)
    requires NoFaults(env) && env.now > r.env.now + 3 * Frequency(t) && env.now != 0
    ensures var reported := ProcessedOne(db, ABSENT_CREATOR, st, r).0;
            && OpenCount(reported, st.component, st.subComponent, CreatedBy(ABSENT_CREATOR)) == 1
            && OpenCount(CheckedOne(reported, t, env), st.component, st.subComponent, CreatedBy(ABSENT_CREATOR)) == 2
  {
    hide ProcessedOne, CheckedOne, Inv, RowsOk, Outcome, Confined, Handled, Creates, Open;
    var c, s, own := st.component, st.subComponent, CreatedBy(ABSENT_CREATOR);
    var reported := ProcessedOne(db, ABSENT_CREATOR, st, r).0;
    InvRows(db);
    OneStep(db, ABSENT_CREATOR, st, r);
    InvRows(reported);
    ReportedOpen(db, st, r);
    assert Opening(reported, t, env);
    hide Opening;
    VisitAdds(reported, t, env, c, s, own);
    FreshId(reported, c, s, own);
  }

  lemma ReportedOpen(db: Db, st: ReportStatus, r: Reading)
    requires RowsOk(db) && Handled(st, r) && Creates(db, st, ABSENT_CREATOR)
    ensures var (c, s, reported) := (st.component, st.subComponent, ProcessedOne(db, ABSENT_CREATOR, st, r).0);
            && Open(reported, c, s, CreatedBy(ABSENT_CREATOR)) == {db.nextId}
            && AbsentOpen(reported, c, s) == AbsentOpen(db, c, s)
            && (c, s) in reported.pings && reported.pings[(c, s)] == r.env.now
  {
    ProcessedOneCases(db, ABSENT_CREATOR, st, r);
    var pinged := AfterPing(db, st, r);
    var sub := Lookup(r.cfg, st.component, st.subComponent).value;
    var row := NewRow(st, r, ABSENT_CREATOR, sub);
    hide ProcessedOne;
    assert pinged.rows == db.rows && pinged.nextId == db.nextId;
    assert row.component == st.component && row.subComponent == st.subComponent && OpenEnded(row)
        && row.createdBy == ABSENT_CREATOR && row.discoveredFrom == COMPONENT_MONITOR;
    hide NewRow, Lookup, Stamped;
  }

  // ---------------------------------------------------------------- a run from the empty database

  lemma Reportable(r: Reading)
    requires r == Reading(CONFIG, Calm(SECOND))
    ensures MayReport(CONFIG, "account", ABSENT_CREATOR, DOWN)
    ensures Handled(DOWN, r) && Creates(EMPTY, DOWN, ABSENT_CREATOR) && AbsentOpen(EMPTY, "c", "s") == {}
  {
    Configured();
    assert CONFIG.components[0].accounts[0] == "account";
  }

  lemma RunOfTwo(db: Db, a: Event, b: Event)
    ensures Run(db, [a, b]) == Step(Step(db, a), b)
  {
    hide Step;
    assert [a, b][..1] == [a] && [a][..0] == [];
    assert Run(db, [a]) == Step(db, a);
  }

  lemma OneReport(db: Db, cfg: Config, account: string, monitor: string, st: ReportStatus, r: Reading)
    requires MayReport(cfg, account, monitor, st) && monitor != ""
    ensures Step(db, MonitorReport(cfg, account, monitor, [st], [r])) == ProcessedOne(db, monitor, st, r).0
  {
    hide MayReport, ProcessedOne;
    var next := ProcessedOne(db, monitor, st, r).0;
    assert Processed(next, monitor, [st], [r], 1) == (next, true);
    assert Accepted(cfg, account, monitor, [st]);
  }

  lemma OneCheck(db: Db, cfg: Config, t: Target, env: Env)
    requires Targets(cfg.components) == [t]
    ensures Step(db, AbsentCheck(cfg, [env])) == CheckedOne(db, t, env)
  {
    hide CheckedOne, Targets;
    assert Checked(CheckedOne(db, t, env), [t], [env], 1) == CheckedOne(db, t, env);
  }

  /** The two steps as events of a run. */
  lemma NamesakeEvents(db: Db, cfg: Config, account: string, st: ReportStatus, r: Reading, t: Target, env: Env)
    requires Inv(db) && Handled(st, r) && Creates(db, st, ABSENT_CREATOR)
    requires AbsentOpen(db, st.component, st.subComponent) == {}
    requires At(t, st.component, st.subComponent) && Scheduled(t)
    requires NoFaults(env) && env.now > r.env.now + 3 * Frequency(t) && env.now != 0
    requires MayReport(cfg, account, ABSENT_CREATOR, st) && Targets(cfg.components) == [t]
    ensures var report, check := MonitorReport(cfg, account, ABSENT_CREATOR, [st], [r]), AbsentCheck(cfg, [env]);
            OpenCount(Run(db, [report, check]), st.component, st.subComponent, CreatedBy(ABSENT_CREATOR)) == 2
  {
    hide Handled, Creates, Inv, MayReport, ProcessedOne, CheckedOne, Step, Run, AbsentOpen, OpenCount, Targets;
    NamesakeDuplicates(db, st, r, t, env);
    OneReport(db, cfg, account, ABSENT_CREATOR, st, r);
    OneCheck(ProcessedOne(db, ABSENT_CREATOR, st, r).0, cfg, t, env);
    RunOfTwo(db, MonitorReport(cfg, account, ABSENT_CREATOR, [st], [r]), AbsentCheck(cfg, [env]));
  }

  /** From the empty database: one accepted report under the checker's name, and one check four
      frequencies later. */
  lemma NamesakeRun()
    ensures |Targets(CONFIG.components)| == 1
    ensures var report := MonitorReport(CONFIG, "account", ABSENT_CREATOR, [DOWN], [Reading(CONFIG, Calm(SECOND))]);
            var check := AbsentCheck(CONFIG, [Calm(SECOND + 4 * FREQUENCY)]);
            OpenCount(Run(EMPTY, [report, check]), "c", "s", CreatedBy(ABSENT_CREATOR)) == 2
  {
    Configured();
    Reportable(Reading(CONFIG, Calm(SECOND)));
    EmptyInv();
    hide Handled, Creates, Inv, MayReport, Run, AbsentOpen, OpenCount, Targets;
    NamesakeEvents(EMPTY, CONFIG, "account", DOWN, Reading(CONFIG, Calm(SECOND)), Target("c", SUB),
                   Calm(SECOND + 4 * FREQUENCY));
  }
}
