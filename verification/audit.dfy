/** The audit log written by the `before`/`after` hooks: it is a complete history of the outage
    table. This module states the invariant that ties log and tables together and proves that
    every transaction keeps it. */
module Audit {
  import opened Base
  import opened Models
  import opened Store

  function Apply(table: map<nat, Outage>, e: AuditEntry): map<nat, Outage> {
    match e.after
    case None => table - {e.id}
    case Some(s) => table[e.id := s.row]
  }

  /** The table obtained by folding a log over the empty table. */
  function Replay(log: seq<AuditEntry>): map<nat, Outage> {
    if log == [] then map[] else Apply(Replay(log[..|log| - 1]), log[|log| - 1])
  }

  /** An entry fits a history: a CREATE names a fresh outage, an UPDATE or DELETE carries as Old
      the row that the history ends in. */
  predicate Fits(history: seq<AuditEntry>, e: AuditEntry) {
    var table := Replay(history);
    match e.op
    case Create => e.before.None? && e.after.Some? && forall x | x in history :: x.id != e.id
    case Update => e.before.Some? && e.after.Some? && e.id in table && table[e.id] == e.before.value.row
    case Delete => e.before.Some? && e.after.None? && e.id in table && table[e.id] == e.before.value.row
  }

  predicate LogOk(log: seq<AuditEntry>) {
    log == [] || (LogOk(log[..|log| - 1]) && Fits(log[..|log| - 1], log[|log| - 1]))
  }

  /** Every column except the start time passes `Validate`, and all times are whole seconds. */
  predicate StoredRow(o: Outage) {
    && WholeSeconds(o)
    && IsValidSeverity(o.severity)
    && !Blank(o.description)
    && o.discoveredFrom != ""
    && o.createdBy != ""
  }

  predicate EntryReasons(db: Db, e: AuditEntry) {
    && (e.before.Some? ==> e.before.value.reasons == ReasonsOf(db, e.id))
    && (e.after.Some? ==> e.after.value.reasons == if e.op == Create then [] else ReasonsOf(db, e.id))
  }

  predicate RowsOk(db: Db) {
    && 1 <= db.nextId
    && (forall id | id in db.rows :: id < db.nextId && StoredRow(db.rows[id]))
    && (forall id | id in db.reasons :: id < db.nextId)
  }

  predicate EntriesOk(db: Db) {
    forall e | e in db.audit :: e.id < db.nextId && EntryReasons(db, e)
  }

  /** The log is a well-formed history and its replay is the table. */
  predicate Complete(db: Db) {
    Replay(db.audit) == db.rows && LogOk(db.audit)
  }

  predicate Inv(db: Db) {
    RowsOk(db) && EntriesOk(db) && Complete(db)
  }

  /** The log only grows, identifiers are never reused, rows keep their identity, and reasons are
      never rewritten. */
  predicate Grows(a: Db, b: Db) {
    && a.audit <= b.audit
    && a.nextId <= b.nextId
    && (forall id | id in a.rows && id in b.rows :: SameIdentity(a.rows[id], b.rows[id]))
    && (forall id | id in b.rows && id !in a.rows :: a.nextId <= id)
    && (forall id | id in a.reasons :: id in b.reasons && b.reasons[id] == a.reasons[id])
  }

  /** What holds between any two states of a run, in this order. */
  predicate Evolves(a: Db, b: Db) {
    Inv(a) ==> Inv(b) && Grows(a, b)
  }

  lemma EvolvesReflexive(db: Db)
    ensures Evolves(db, db)
  {
  }

  lemma EvolvesTransitive(a: Db, b: Db, c: Db)
    requires Evolves(a, b) && Evolves(b, c)
    ensures Evolves(a, c)
  {
  }

  lemma InvRows(db: Db)
    requires Inv(db)
    ensures RowsOk(db)
  {
  }

  lemma EvolvesInv(a: Db, b: Db)
    requires Inv(a) && Evolves(a, b)
    ensures Inv(b)
  {
  }

  lemma Appended(a: Db, b: Db, e: AuditEntry)
    requires Complete(a)
    requires b.audit == a.audit + [e] && b.rows == Apply(a.rows, e) && Fits(a.audit, e)
    ensures Complete(b)
  {
    assert b.audit[..|a.audit|] == a.audit;
  }

  /** One more entry, with reasons of earlier outages untouched. */
  lemma EntryAdded(a: Db, b: Db, e: AuditEntry)
    requires EntriesOk(a)
    requires b.audit == a.audit + [e] && a.nextId <= b.nextId
    requires e.id < b.nextId && EntryReasons(b, e)
    requires forall id | 0 <= id < a.nextId :: ReasonsOf(a, id) == ReasonsOf(b, id)
    ensures EntriesOk(b)
  {
    forall x | x in b.audit ensures x.id < b.nextId && EntryReasons(b, x) {
      assert x in a.audit || x == e;
      if x in a.audit {
        assert EntryReasons(a, x);
      }
    }
  }

  lemma EntriesKept(a: Db, b: Db)
    requires EntriesOk(a)
    requires b.audit == a.audit && b.reasons == a.reasons && a.nextId <= b.nextId
    ensures EntriesOk(b)
  {
    assert forall e | e in a.audit :: EntryReasons(a, e) ==> EntryReasons(b, e);
  }

  lemma InsertedEvolves(db: Db, row: Outage, reasons: seq<Reason>, user: string)
    requires StoredRow(row)
    ensures Evolves(db, Inserted(db, row, reasons, user))
  {
    if Inv(db) {
      var after := Inserted(db, row, reasons, user);
      var e := AuditEntry(Create, db.nextId, user, None, Some(Snapshot(row, [])));
      Appended(db, after, e);
      EntryAdded(db, after, e);
    }
  }

  lemma SavedGrows(db: Db, id: nat, row: Outage, user: string)
    requires RowsOk(db) && id in db.rows && SameIdentity(db.rows[id], row) && StoredRow(row)
    ensures RowsOk(Saved(db, id, row, user)) && Grows(db, Saved(db, id, row, user))
  {
    hide StoredRow;
  }

  lemma SavedEvolves(db: Db, id: nat, row: Outage, user: string)
    requires id in db.rows && SameIdentity(db.rows[id], row) && StoredRow(row)
    ensures Evolves(db, Saved(db, id, row, user))
  {
    if Inv(db) {
      SavedGrows(db, id, row, user);
      hide RowsOk, Grows, StoredRow, SameIdentity, LogOk;
      var after := Saved(db, id, row, user);
      var e := after.audit[|db.audit|];
      Appended(db, after, e);
      EntryAdded(db, after, e);
    }
  }

  lemma RemovedEvolves(db: Db, id: nat, user: string)
    requires id in db.rows
    ensures Evolves(db, Removed(db, id, user))
  {
    if Inv(db) {
      var after := Removed(db, id, user);
      var e := after.audit[|db.audit|];
      Appended(db, after, e);
      EntryAdded(db, after, e);
    }
  }

  lemma CreatedEvolves(db: Db, o: Outage, reasons: seq<Reason>, user: string, now: Time, fault: Fault)
    ensures Evolves(db, Created(db, o, reasons, user, now, fault).0)
  {
    var (after, created) := Created(db, o, reasons, user, now, fault);
    if created.Some? {
      RoundedIdempotent(o);
      InsertedEvolves(db, Stamped(o, now), reasons, user);
    } else if Inv(db) {
      EntriesKept(db, after);
    }
  }

  lemma CreatedRowsOk(db: Db, o: Outage, reasons: seq<Reason>, user: string, now: Time, fault: Fault)
    requires RowsOk(db)
    ensures RowsOk(Created(db, o, reasons, user, now, fault).0)
  {
    RoundedIdempotent(o);
  }

  lemma UpdatedEvolves(db: Db, id: nat, o: Outage, user: string, now: Time, fault: Fault)
    requires id in db.rows ==> SameIdentity(db.rows[id], o)
    ensures Evolves(db, Updated(db, id, o, user, now, fault).0)
  {
    if Updated(db, id, o, user, now, fault).1 {
      RoundedIdempotent(o);
      SavedEvolves(db, id, Stamped(o, now), user);
    }
  }

  lemma DeletedEvolves(db: Db, id: nat, user: string, fault: Fault)
    ensures Evolves(db, Deleted(db, id, user, fault).0)
  {
    if Deleted(db, id, user, fault).1 {
      RemovedEvolves(db, id, user);
    }
  }

  lemma PingedEvolves(db: Db, c: string, s: string, now: Time)
    ensures Evolves(db, Pinged(db, c, s, now))
  {
    var after := Pinged(db, c, s, now);
    if Inv(db) {
      EntriesKept(db, after);
    }
  }

  // ---------------------------------------------------------------- one outage's entries

  function Trail(log: seq<AuditEntry>, id: nat): seq<AuditEntry> {
    if log == [] then
      []
    else
      var last := log[|log| - 1];
      Trail(log[..|log| - 1], id) + if last.id == id then [last] else []
  }

  predicate Linked(x: AuditEntry, y: AuditEntry) {
    x.after.Some? && y.before.Some? && y.before.value.row == x.after.value.row
  }

  /** CREATE UPDATE* DELETE?, each entry's Old being the previous entry's New. */
  predicate Chained(trail: seq<AuditEntry>) {
    && (forall i | 0 <= i < |trail| :: trail[i].op == Create <==> i == 0)
    && (forall i | 0 <= i < |trail| :: trail[i].after.None? <==> trail[i].op == Delete)
    && (forall i | 0 < i < |trail| :: Linked(trail[i - 1], trail[i]))
  }

  lemma {:induction false} TrailMembers(log: seq<AuditEntry>, id: nat)
    ensures forall x :: x in Trail(log, id) <==> x in log && x.id == id
  {
    if log != [] {
      TrailMembers(log[..|log| - 1], id);
      assert log == log[..|log| - 1] + [log[|log| - 1]];
    }
  }

  /** The last entry of an outage decides whether, and as what, it is in the table. */
  predicate EndsIn(trail: seq<AuditEntry>, table: map<nat, Outage>, id: nat) {
    && (id in table <==> trail != [] && trail[|trail| - 1].after.Some?)
    && (id in table ==> trail[|trail| - 1].after.value.row == table[id])
  }

  lemma ChainExtended(trail: seq<AuditEntry>, e: AuditEntry)
    requires Chained(trail)
    requires e.op == Create <==> trail == []
    requires e.after.None? <==> e.op == Delete
    requires trail != [] ==> Linked(trail[|trail| - 1], e)
    ensures Chained(trail + [e])
  {
  }

  lemma {:induction false} TrailEnds(log: seq<AuditEntry>, id: nat)
    requires LogOk(log)
    ensures EndsIn(Trail(log, id), Replay(log), id)
  {
    if log != [] {
      TrailEnds(log[..|log| - 1], id);
    }
  }

  lemma {:induction false} TrailChained(log: seq<AuditEntry>, id: nat)
    requires LogOk(log)
    ensures Chained(Trail(log, id))
  {
    if log != [] {
      var history, last := log[..|log| - 1], log[|log| - 1];
      var trail := Trail(history, id);
      TrailChained(history, id);
      if last.id == id {
        TrailEnds(history, id);
        TrailMembers(history, id);
        assert trail != [] ==> trail[0] in trail;
        ChainExtended(trail, last);
      }
    }
  }

  /** Where consecutive documents of one outage differ as a whole: only after a CREATE whose
      outage has reasons, because the CREATE hook runs before they are inserted. */
  lemma OldEqualsPreviousNew(db: Db, id: nat, i: nat)
    requires Inv(db)
    requires i + 1 < |Trail(db.audit, id)|
    ensures var trail := Trail(db.audit, id);
            trail[i + 1].before == trail[i].after <==> trail[i].op != Create || ReasonsOf(db, id) == []
  {
    TrailChained(db.audit, id);
    TrailMembers(db.audit, id);
    var trail := Trail(db.audit, id);
    assert EntryReasons(db, trail[i]) && EntryReasons(db, trail[i + 1]);
    assert Linked(trail[i + 1 - 1], trail[i + 1]);
  }

  lemma TrailOfOwn(log: seq<AuditEntry>, e: AuditEntry)
    ensures Trail(log + [e], e.id) == Trail(log, e.id) + [e]
  {
    assert (log + [e])[..|log|] == log;
  }

  /** The first update of an outage that was created with a reason. */
  lemma CreateHidesReasons(row: Outage, reason: Reason, user: string)
    requires StoredRow(row)
    ensures var db := Saved(Inserted(EMPTY, row, [reason], user), 1, row, user);
            var trail := Trail(db.audit, 1);
            Inv(db) && |trail| == 2 && trail[1].before != trail[0].after
  {
    var created := Inserted(EMPTY, row, [reason], user);
    var db := Saved(created, 1, row, user);
    InsertedEvolves(EMPTY, row, [reason], user);
    SavedEvolves(created, 1, row, user);
    assert Inv(EMPTY);
    TrailOfOwn([], created.audit[0]);
    TrailOfOwn(created.audit, db.audit[1]);
    hide Inv, Evolves, StoredRow;
  }
}
