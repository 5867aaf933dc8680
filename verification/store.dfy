/** The database behind pkg/outage and pkg/repositories: tables, queries, and the three audited
    transactions that write outages. Functions on `Db` values say what each transaction does;
    `OutageStore` performs it step by step, rolling back where the original's transaction does. */
module Store {
  import opened Base
  import opened Models

  datatype Operation = Create | Update | Delete

  /** The JSON document an audit hook stores: the row with its preloaded reasons. */
  datatype Snapshot = Snapshot(row: Outage, reasons: seq<Reason>)

  datatype AuditEntry = AuditEntry(op: Operation, id: nat, user: string,
                                   before: Option<Snapshot>, after: Option<Snapshot>)

  /** Tables as values. `rows` holds the rows that are not soft-deleted; identifiers come from a
      sequence that only grows. */
  datatype Db = Db(rows: map<nat, Outage>,
                   reasons: map<nat, seq<Reason>>, pings: map<(string, string), Time>, audit: seq<AuditEntry>,
                   nextId: nat)

  const EMPTY: Db := Db(map[], map[], map[], [], 1)

  /** A database error injected at the given statement of a transaction; `None` is no error. */
  type Fault = Option<nat>

  predicate Hits(f: Fault, statements: nat) {
    f.Some? && f.value < statements
  }

  // ---------------------------------------------------------------- queries

  /** The two provenance columns the deduplicating queries select on. */
  datatype Source = CreatedBy(name: string) | DiscoveredFrom(name: string)

  predicate From(o: Outage, src: Source) {
    match src
    case CreatedBy(name) => o.createdBy == name
    case DiscoveredFrom(name) => o.discoveredFrom == name
  }

  predicate OpenRow(o: Outage, c: string, s: string, src: Source) {
    o.component == c && o.subComponent == s && OpenEnded(o) && From(o, src)
  }

  /** The result set of `GetActiveOutagesCreatedBy` and `GetActiveOutagesDiscoveredFrom`. */
  function Open(db: Db, c: string, s: string, src: Source): set<nat> {
    set id | id in db.rows && OpenRow(db.rows[id], c, s, src)
  }

  function ReasonsOf(db: Db, id: nat): seq<Reason> {
    if id in db.reasons then db.reasons[id] else []
  }

  /** `GetOutageByID` matches the identifier and both slugs. */
  predicate Located(db: Db, id: nat, c: string, s: string) {
    id in db.rows && db.rows[id].component == c && db.rows[id].subComponent == s
  }

  datatype Found = Found(id: nat, row: Outage)

  predicate IsMinimum(s: set<nat>, m: nat) {
    m in s && forall x | x in s :: m <= x
  }

  lemma HasMinimum(s: set<nat>)
    requires s != {}
    ensures exists m :: IsMinimum(s, m)
  {
    var a :| a in s;
    var rest := s - {a};
    assert forall x | x in s :: x == a || x in rest;
    if rest == {} {
      assert IsMinimum(s, a);
    } else {
      HasMinimum(rest);
      var m :| IsMinimum(rest, m);
      assert IsMinimum(s, if a < m then a else m);
    }
  }

  /** The rows of a result set in the order the database happens to return them: first as `order`
      lists them, then ascending. Every order of `s` is the listing of some `order`. */
  function Listing(s: set<nat>, order: seq<nat>): (ids: seq<nat>)
    ensures forall id :: id in ids <==> id in s
    ensures forall i, j | 0 <= i < j < |ids| :: ids[i] != ids[j]
    decreases s, |order|
  {
    if s == {} then
      []
    else if order == [] then
      HasMinimum(s);
      var m :| IsMinimum(s, m);
      [m] + Listing(s - {m}, [])
    else if order[0] in s then
      [order[0]] + Listing(s - {order[0]}, order[1..])
    else
      Listing(s, order[1..])
  }

  function Fetched(db: Db, ids: seq<nat>): (found: seq<Found>)
    requires forall id | id in ids :: id in db.rows
    ensures |found| == |ids|
    ensures forall i | 0 <= i < |ids| :: found[i] == Found(ids[i], db.rows[ids[i]])
  {
    if ids == [] then [] else [Found(ids[0], db.rows[ids[0]])] + Fetched(db, ids[1..])
  }

  function QueryOpen(db: Db, c: string, s: string, src: Source, order: seq<nat>): seq<Found> {
    Fetched(db, Listing(Open(db, c, s, src), order))
  }

  // ---------------------------------------------------------------- transactions

  /** The row a write leaves in the table: whole seconds and a fresh `updated_at`. */
  function Stamped(o: Outage, now: Time): Outage {
    Rounded(o).(updatedAt := now)
  }

  /** A committed creation: the row, its CREATE entry, and the reasons. The entry is written
      before any reason exists. */
  function Inserted(db: Db, row: Outage, reasons: seq<Reason>, user: string): Db {
    var entry := AuditEntry(Create, db.nextId, user, None, Some(Snapshot(row, [])));
    Db(db.rows[db.nextId := row], db.reasons[db.nextId := reasons], db.pings, db.audit + [entry], db.nextId + 1)
  }

  /** A committed update: every column saved, and an UPDATE entry. */
  function Saved(db: Db, id: nat, row: Outage, user: string): Db
    requires id in db.rows
  {
    var reasons := ReasonsOf(db, id);
    var entry := AuditEntry(Update, id, user, Some(Snapshot(db.rows[id], reasons)), Some(Snapshot(row, reasons)));
    db.(rows := db.rows[id := row], audit := db.audit + [entry])
  }

  /** A committed soft delete and its DELETE entry. */
  function Removed(db: Db, id: nat, user: string): Db
    requires id in db.rows
  {
    var entry := AuditEntry(Delete, id, user, Some(Snapshot(db.rows[id], ReasonsOf(db, id))), None);
    db.(rows := db.rows - {id}, audit := db.audit + [entry])
  }

  /** `DBOutageManager.CreateOutage`: a failed transaction leaves nothing but a consumed identifier. */
  function Created(db: Db, o: Outage, reasons: seq<Reason>, user: string, now: Time, fault: Fault): (Db, Option<nat>) {
    if !Valid(o) then
      (db, None)
    else if Hits(fault, 2 + |reasons|) then
      (db.(nextId := db.nextId + 1), None)
    else
      (Inserted(db, Stamped(o, now), reasons, user), Some(db.nextId))
  }

  /** `DBOutageManager.UpdateOutage`. */
  function Updated(db: Db, id: nat, o: Outage, user: string, now: Time, fault: Fault): (Db, bool) {
    if !Valid(o) || !Located(db, id, o.component, o.subComponent) || Hits(fault, 4) then
      (db, false)
    else
      (Saved(db, id, Stamped(o, now), user), true)
  }

  /** `DBOutageManager.DeleteOutage`. */
  function Deleted(db: Db, id: nat, user: string, fault: Fault): (Db, bool) {
    if id !in db.rows || Hits(fault, 3) then
      (db, false)
    else
      (Removed(db, id, user), true)
  }

  /** A creation is all or nothing: without an error before its last statement the row, the CREATE entry and
      every reason are there, otherwise the tables are as before. */
  lemma AtomicCreation(db: Db, o: Outage, reasons: seq<Reason>, user: string, now: Time, fault: Fault)
    ensures var (after, id) := Created(db, o, reasons, user, now, fault);
            && after.pings == db.pings
            && if Valid(o) && (fault == None || fault.value >= 2 + |reasons|) then
                 var row := Rounded(o).(updatedAt := now);
                 && id == Some(db.nextId) && after.nextId == db.nextId + 1
                 && after.rows == db.rows[db.nextId := row] && after.reasons == db.reasons[db.nextId := reasons]
                 && after.audit == db.audit + [AuditEntry(Create, db.nextId, user, None, Some(Snapshot(row, [])))]
               else
                 id == None && after.rows == db.rows && after.reasons == db.reasons && after.audit == db.audit
  {
  }

  /** So is an update: without an error the row is replaced and the UPDATE entry shows both versions. */
  lemma AtomicUpdate(db: Db, id: nat, o: Outage, user: string, now: Time, fault: Fault)
    ensures var (after, ok) := Updated(db, id, o, user, now, fault);
            && (ok <==> Valid(o) && Located(db, id, o.component, o.subComponent) && (fault == None || fault.value >= 4))
            && (!ok ==> after == db)
            && (ok ==>
                  var row, reasons := Rounded(o).(updatedAt := now), ReasonsOf(db, id);
                  && after.rows == db.rows[id := row]
                  && after.reasons == db.reasons && after.pings == db.pings && after.nextId == db.nextId
                  && after.audit == db.audit + [AuditEntry(Update, id, user, Some(Snapshot(db.rows[id], reasons)),
                                                           Some(Snapshot(row, reasons)))])
  {
  }

  /** And a delete: without an error the row is gone and the DELETE entry shows it. */
  lemma AtomicDelete(db: Db, id: nat, user: string, fault: Fault)
    ensures var (after, ok) := Deleted(db, id, user, fault);
            && (ok <==> id in db.rows && (fault == None || fault.value >= 3))
            && (!ok ==> after == db)
            && (ok ==>
                  && after.rows == db.rows - {id}
                  && after.reasons == db.reasons && after.pings == db.pings && after.nextId == db.nextId
                  && after.audit == db.audit + [AuditEntry(Delete, id, user,
                                                           Some(Snapshot(db.rows[id], ReasonsOf(db, id))), None)])
  {
  }

  /** `UpsertComponentReportPing`. */
  function Pinged(db: Db, c: string, s: string, now: Time): Db {
    db.(pings := db.pings[(c, s) := now])
  }

  /** What the clock and the database contribute while one sub-component is handled: the instant
      read, which calls fail, and the order in which rows come back. */
  datatype Env = Env(now: Time, pingFails: bool, queryFails: bool, order: seq<nat>,
                     updateFaults: map<nat, nat>, writeFault: Fault)

  function FaultOf(env: Env, id: nat): Fault {
    if id in env.updateFaults then Some(env.updateFaults[id]) else None
  }

  predicate NoFaults(env: Env) {
    !env.pingFails && !env.queryFails && env.updateFaults == map[] && env.writeFault == None
  }

  /** Ends each found outage at `now`; an update that fails leaves its row alone. */
  function Resolved(db: Db, found: seq<Found>, user: string, env: Env): Db
    decreases |found|
  {
    if found == [] then
      db
    else
      var id := found[0].id;
      var next := Updated(db, id, found[0].row.(end := Some(env.now)), user, env.now, FaultOf(env, id)).0;
      Resolved(next, found[1..], user, env)
  }

  class OutageStore {
    var rows: map<nat, Outage>
    var reasons: map<nat, seq<Reason>>
    var pings: map<(string, string), Time>
    var audit: seq<AuditEntry>
    var nextId: nat

    function Contents(): Db
      reads this
    {
      Db(rows, reasons, pings, audit, nextId)
    }

    constructor ()
      ensures Contents() == EMPTY
    {
      rows, reasons, pings, audit, nextId := map[], map[], map[], [], 1;
    }

    /** Restores the tables a transaction may have written. */
    method Rollback(before: Db)
      modifies this
      ensures Contents() == before.(nextId := old(nextId))
    {
      rows, reasons, pings, audit := before.rows, before.reasons, before.pings, before.audit;
    }

    method CreateOutage(o: Outage, newReasons: seq<Reason>, user: string, now: Time, fault: Fault)
      returns (created: Option<nat>)
      modifies this
      ensures (Contents(), created) == Created(old(Contents()), o, newReasons, user, now, fault)
    {
      var valid := Validate(o);
      if !valid {
        return None;
      }
      var before := Contents();
      var id := nextId;
      nextId := nextId + 1;
      if Hits(fault, 1) {
        return None;
      }
      // Insert and AfterCreate hook.
      rows := rows[id := Stamped(o, now)];
      reasons := reasons[id := []];
      if Hits(fault, 2) {
        Rollback(before);
        return None;
      }
      audit := audit + [AuditEntry(Create, id, user, None, Some(Snapshot(rows[id], reasons[id])))];
      var i := 0;
      while i < |newReasons|
        invariant i <= |newReasons|
        invariant !Hits(fault, 2 + i)
        invariant nextId == id + 1
        invariant reasons == before.reasons[id := newReasons[..i]]
        invariant Contents() == Inserted(before, Stamped(o, now), newReasons[..i], user)
      {
        if Hits(fault, 3 + i) {
          Rollback(before);
          return None;
        }
        assert newReasons[..i] + [newReasons[i]] == newReasons[..i + 1];
        reasons := reasons[id := reasons[id] + [newReasons[i]]];
        i := i + 1;
      }
      assert newReasons[..i] == newReasons;
      created := Some(id);
    }

    method UpdateOutage(id: nat, o: Outage, user: string, now: Time, fault: Fault) returns (ok: bool)
      modifies this
      ensures (Contents(), ok) == Updated(old(Contents()), id, o, user, now, fault)
    {
      ok := false;
      var valid := Validate(o);
      if !valid || !Located(Contents(), id, o.component, o.subComponent) || Hits(fault, 2) {
        return;
      }
      var before := Contents();
      // BeforeUpdate hook, save, AfterUpdate hook.
      var stored := Snapshot(rows[id], ReasonsOf(before, id));
      rows := rows[id := Stamped(o, now)];
      if Hits(fault, 3) {
        Rollback(before);
        return;
      }
      audit := audit + [AuditEntry(Update, id, user, Some(stored), Some(Snapshot(rows[id], stored.reasons)))];
      if Hits(fault, 4) {
        Rollback(before);
        return;
      }
      ok := true;
    }

    method DeleteOutage(id: nat, user: string, fault: Fault) returns (ok: bool)
      modifies this
      ensures (Contents(), ok) == Deleted(old(Contents()), id, user, fault)
    {
      ok := false;
      if id !in rows || Hits(fault, 1) {
        return;
      }
      var before := Contents();
      var stored := Snapshot(rows[id], ReasonsOf(before, id));
      rows := rows - {id};
      if Hits(fault, 2) {
        Rollback(before);
        return;
      }
      audit := audit + [AuditEntry(Delete, id, user, Some(stored), None)];
      if Hits(fault, 3) {
        Rollback(before);
        return;
      }
      ok := true;
    }

    method UpsertPing(c: string, s: string, now: Time)
      modifies `pings
      ensures Contents() == Pinged(old(Contents()), c, s, now)
    {
      pings := pings[(c, s) := now];
    }

    /** The auto-resolve loop of the report processor and of the absent-report checker. */
    method ResolveAll(active: seq<Found>, user: string, env: Env)
      modifies this
      ensures Contents() == Resolved(old(Contents()), active, user, env)
    {
      var i := 0;
      while i < |active|
        invariant i <= |active|
        invariant Resolved(Contents(), active[i..], user, env) == Resolved(old(Contents()), active, user, env)
      {
        var id := active[i].id;
        var row := active[i].row.(end := Some(env.now));
        var _ := UpdateOutage(id, row, user, env.now, FaultOf(env, id));
        assert active[i..][1..] == active[i + 1..];
        i := i + 1;
      }
    }
  }
}
