/** cmd/dashboard/component_monitoring_report.go: two report requests for one sub-component that overlap.
    The query and the creation of a request are not one transaction. */
module Overlap {
  import opened Base
  import opened Models
  import opened Configuration
  import opened Store
  import opened Audit
  import opened Effects
  import opened Report
  import opened Merge
  import opened Deduplication
  import opened EndToEnd
  import opened Sample

  /** Both requests look before either of them acts. */
  function Interleaved(db: Db, monitor: string, first: ReportStatus, second: ReportStatus, r1: Reading, r2: Reading): Db
    requires Handled(first, r1) && Handled(second, r2)
  {
    var (once, found1) := Looked(db, monitor, first, r1);
    var (twice, found2) := Looked(once, monitor, second, r2);
    Acted(Acted(twice, monitor, first, r1, found1.value).0, monitor, second, r2, found2.value).0
  }

  lemma LookedFinds(db: Db, monitor: string, st: ReportStatus, r: Reading)
    requires Handled(st, r)
    ensures var (looked, found) := Looked(db, monitor, st, r);
            && found.Some?
            && (found.value == [] <==> OpenBy(db, KeyOf(st), monitor) == {})
            && looked == AfterPing(db, st, r)
            && OpenBy(looked, KeyOf(st), monitor) == OpenBy(db, KeyOf(st), monitor)
            && (RowsOk(db) ==> RowsOk(looked))
  {
    var pinged := AfterPing(db, st, r);
    PingedConfined(db, KeyOf(st), r.env.now, monitor);
    QueryLoads(pinged, st.component, st.subComponent, CreatedBy(monitor), r.env.order);
    hide QueryOpen, Open, RowsOk, Lookup, Confined, Pinged;
  }

  /** Auto-resolve never opens an outage, even by rows that are out of date. */
  lemma {:induction false} ResolvedOnlyEnds(db: Db, found: seq<Found>, user: string, env: Env,
                                            key: Key, monitor: string)
    ensures OpenBy(Resolved(db, found, user, env), key, monitor) <= OpenBy(db, key, monitor)
    decreases |found|
  {
    if found != [] {
      var id, row := found[0].id, found[0].row.(end := Some(env.now));
      UpdatedOnlyEnds(db, id, row, user, env, key, monitor);
      hide Updated, Open;
      ResolvedOnlyEnds(Updated(db, id, row, user, env.now, FaultOf(env, id)).0, found[1..], user, env, key, monitor);
    }
  }

  lemma UpdatedOnlyEnds(db: Db, id: nat, row: Outage, user: string, env: Env, key: Key, monitor: string)
    requires row.end.Some?
    ensures OpenBy(Updated(db, id, row, user, env.now, FaultOf(env, id)).0, key, monitor) <= OpenBy(db, key, monitor)
  {
    hide Valid;
  }

  /** The status would create an outage when it has found these. */
  predicate Inserts(st: ReportStatus, active: seq<Found>) {
    st.status != StatusHealthy && StatusLevel(st.status) > 0 && active == [] && st.reasons != []
  }

  lemma ActedOpens(db: Db, monitor: string, st: ReportStatus, r: Reading, active: seq<Found>)
    requires Handled(st, r) && monitor != "" && RowsOk(db)
    ensures var after := Acted(db, monitor, st, r, active).0;
            if Inserts(st, active) then
              && OpenBy(after, KeyOf(st), monitor) == OpenBy(db, KeyOf(st), monitor) + {db.nextId}
              && after.nextId == db.nextId + 1
              && RowsOk(after)
            else
              OpenBy(after, KeyOf(st), monitor) <= OpenBy(db, KeyOf(st), monitor)
  {
    ResolvedOnlyEnds(db, active, monitor, r.env, KeyOf(st), monitor);
    hide Resolved, RowsOk, Open, Lookup, Blank, Stamped;
    DetectedIsText();
    var sub := Lookup(r.cfg, st.component, st.subComponent).value;
    var o := MonitorOutage(st, monitor, r.env.now, sub.requiresConfirmation);
    if Inserts(st, active) {
      assert Valid(o);
      hide Valid;
      CreatedOpens(db, o, st.reasons, monitor, r.env.now, r.env.writeFault,
                   st.component, st.subComponent, CreatedBy(monitor));
      CreatedRowsOk(db, o, st.reasons, monitor, r.env.now, r.env.writeFault);
    }
  }

  /** An act adds at most one open outage, and none unless it creates. */
  lemma ActedAdds(db: Db, monitor: string, st: ReportStatus, r: Reading, active: seq<Found>)
    requires Handled(st, r)
    ensures var after := Acted(db, monitor, st, r, active).0;
            OpenBy(after, KeyOf(st), monitor)
            <= OpenBy(db, KeyOf(st), monitor) + if Inserts(st, active) then {db.nextId} else {}
  {
    ResolvedOnlyEnds(db, active, monitor, r.env, KeyOf(st), monitor);
    hide Resolved, Lookup, Valid, Stamped;
  }

  /** Why whole requests are serialised: of two requests that overlap, exactly those that both report the
      sub-component unhealthy with a reason while nothing is open leave more than one outage open, or
      more than there were; they leave two. */
  lemma OverlappingReportsDuplicate(db: Db, monitor: string, first: ReportStatus, second: ReportStatus,
                                    r1: Reading, r2: Reading)
    requires RowsOk(db) && monitor != "" && Handled(first, r1) && Handled(second, r2)
    requires KeyOf(first) == KeyOf(second)
    ensures var before := |OpenBy(db, KeyOf(first), monitor)|;
            var after := |OpenBy(Interleaved(db, monitor, first, second, r1, r2), KeyOf(first), monitor)|;
            && (after > AtLeastOne(before) <==> Creates(db, first, monitor) && Creates(db, second, monitor))
            && (after > AtLeastOne(before) ==> after == 2)
  {
    var key := KeyOf(first);
    hide Looked, Acted, RowsOk, Open, Lookup, NoFaults;
    LookedFinds(db, monitor, first, r1);
    var (once, found1) := Looked(db, monitor, first, r1);
    LookedFinds(once, monitor, second, r2);
    var (twice, found2) := Looked(once, monitor, second, r2);
    ActedOpens(twice, monitor, first, r1, found1.value);
    var acted := Acted(twice, monitor, first, r1, found1.value).0;
    ActedAdds(acted, monitor, second, r2, found2.value);
    var after := OpenBy(Acted(acted, monitor, second, r2, found2.value).0, key, monitor);
    var before := OpenBy(db, key, monitor);
    if Inserts(first, found1.value) && Inserts(second, found2.value) {
      ActedOpens(acted, monitor, second, r2, found2.value);
      assert after == {twice.nextId, twice.nextId + 1};
    } else if Inserts(first, found1.value) || Inserts(second, found2.value) {
      var id := if Inserts(first, found1.value) then twice.nextId else acted.nextId;
      SubsetCount(after, {id});
    } else {
      SubsetCount(after, before);
    }
  }

  /** Two such requests on the empty database. */
  lemma OverlapExample(monitor: string)
    requires monitor != ""
    ensures var r := Reading(CONFIG, Calm(SECOND));
            Handled(DOWN, r) && |OpenBy(Interleaved(EMPTY, monitor, DOWN, DOWN, r, r), ("c", "s"), monitor)| == 2
  {
    var r := Reading(CONFIG, Calm(SECOND));
    Configured();
    assert Handled(DOWN, r) && Creates(EMPTY, DOWN, monitor) && KeyOf(DOWN) == ("c", "s");
    assert OpenBy(EMPTY, KeyOf(DOWN), monitor) == {};
    hide Handled, Creates, OpenBy, Interleaved;
    OverlappingReportsDuplicate(EMPTY, monitor, DOWN, DOWN, r, r);
  }
}
