/** cmd/dashboard/handlers.go: the requests by which people create, patch and delete outages.
    Requests reach these handlers already authorised. */
module Users {
  import opened Base
  import opened Models
  import opened Configuration
  import opened Store

  /** `UpsertOutageRequest`. `end` is `None` for an absent field, which a JSON null is too, and `Some(None)` for an end
      time that is given as not valid, which clears the end. */
  datatype UpsertRequest = UpsertRequest(
    severity: Option<Severity>,
    start: Option<Time>,
    end: Option<Option<Time>>,
    description: Option<string>,
    discoveredFrom: Option<string>,
    confirmed: Option<bool>,
    triageNotes: Option<string>)

  datatype Response = Done | BadRequest | NotFound | ServerError | Aborted

  function GetOr<T>(o: Option<T>, default: T): T {
    match o
    case None => default
    case Some(v) => v
  }

  /** The row `CreateOutageJSON` builds; a requested end time is ignored. */
  function UserOutage(c: string, s: string, user: string, req: UpsertRequest, requiresConfirmation: bool,
                      now: Time): Outage
    requires req.start.Some?
  {
    Outage(c, s, GetOr(req.severity, SeverityOther("")), req.start.value, None, TrimSpace(GetOr(req.description, "")),
           GetOr(req.discoveredFrom, ""), user,
           if GetOr(req.confirmed, false) || !requiresConfirmation then Some(now) else None, req.triageNotes, 0)
  }

  /** `CreateOutageJSON`; a request without a start time aborts on the nil dereference. */
  function UserCreated(db: Db, cfg: Config, c: string, s: string, user: string, req: UpsertRequest, env: Env)
    : (Db, Response)
  {
    var sub := Lookup(cfg, c, s);
    if sub.None? then
      (db, NotFound)
    else if req.start.None? then
      (db, Aborted)
    else
      var o := UserOutage(c, s, user, req, sub.value.requiresConfirmation, env.now);
      if !Valid(o) then
        (db, BadRequest)
      else
        var (next, id) := Created(db, o, [], user, env.now, env.writeFault);
        (next, if id.Some? then Done else ServerError)
  }

  /** The row after the field assignments of `UpdateOutageJSON`. */
  function Patched(row: Outage, req: UpsertRequest, now: Time): Outage {
    row.(severity := GetOr(req.severity, row.severity),
         start := GetOr(req.start, row.start),
         end := GetOr(req.end, row.end),
         description := if req.description.Some? then TrimSpace(req.description.value) else row.description,
         confirmedAt := match req.confirmed
                        case None => row.confirmedAt
                        case Some(true) => if row.confirmedAt.Some? then row.confirmedAt else Some(now)
                        case Some(false) => None,
         triageNotes := if req.triageNotes.Some? then req.triageNotes else row.triageNotes)
  }

  /** `UpdateOutageJSON`. */
  function UserPatched(db: Db, cfg: Config, c: string, s: string, id: nat, user: string, req: UpsertRequest, env: Env)
    : (Db, Response)
  {
    if Lookup(cfg, c, s).None? then
      (db, NotFound)
    else if env.queryFails then
      (db, ServerError)
    else if !Located(db, id, c, s) then
      (db, NotFound)
    else
      var row := Patched(db.rows[id], req, env.now);
      if !IsValidSeverity(GetOr(req.severity, SeverityDown)) || !Valid(row) then
        (db, BadRequest)
      else
        var (next, ok) := Updated(db, id, row, user, env.now, env.writeFault);
        (next, if ok then Done else ServerError)
  }

  /** `DeleteOutage`. */
  function UserDeleted(db: Db, cfg: Config, c: string, s: string, id: nat, user: string, env: Env): (Db, Response) {
    if Lookup(cfg, c, s).None? then
      (db, NotFound)
    else if env.queryFails then
      (db, ServerError)
    else if !Located(db, id, c, s) then
      (db, NotFound)
    else
      var (next, ok) := Deleted(db, id, user, env.writeFault);
      (next, if ok then Done else ServerError)
  }

  class Handlers {
    const store: OutageStore

    constructor (store: OutageStore)
      ensures this.store == store
    {
      this.store := store;
    }

    method CreateOutage(cfg: Config, c: string, s: string, user: string, req: UpsertRequest, env: Env)
      returns (response: Response)
      modifies store
      ensures (store.Contents(), response) == UserCreated(old(store.Contents()), cfg, c, s, user, req, env)
    {
      var sub := Lookup(cfg, c, s);
      if sub == None {
        return NotFound;
      }
      if req.start.None? {
        return Aborted;
      }
      var o := UserOutage(c, s, user, req, sub.value.requiresConfirmation, env.now);
      var valid := Validate(o);
      if !valid {
        return BadRequest;
      }
      var id := store.CreateOutage(o, [], user, env.now, env.writeFault);
      response := if id.Some? then Done else ServerError;
    }

    method UpdateOutage(cfg: Config, c: string, s: string, id: nat, user: string, req: UpsertRequest, env: Env)
      returns (response: Response)
      modifies store
      ensures (store.Contents(), response) == UserPatched(old(store.Contents()), cfg, c, s, id, user, req, env)
    {
      var sub := Lookup(cfg, c, s);
      if sub == None {
        return NotFound;
      }
      if env.queryFails {
        return ServerError;
      }
      if !Located(store.Contents(), id, c, s) {
        return NotFound;
      }
      var outage, acceptable := ApplyPatch(store.rows[id], req, env.now);
      if !acceptable {
        return BadRequest;
      }
      var valid := Validate(outage);
      if !valid {
        return BadRequest;
      }
      var ok := store.UpdateOutage(id, outage, user, env.now, env.writeFault);
      response := if ok then Done else ServerError;
    }

    /** The field assignments of `UpdateOutageJSON`, which give up on an invalid severity. */
    method ApplyPatch(row: Outage, req: UpsertRequest, now: Time) returns (outage: Outage, acceptable: bool)
      ensures acceptable <==> IsValidSeverity(GetOr(req.severity, SeverityDown))
      ensures acceptable ==> outage == Patched(row, req, now)
    {
      assert IsValidSeverity(SeverityDown);
      hide TrimSpace, IsValidSeverity;
      outage, acceptable := row, true;
      if req.severity.Some? {
        if !IsValidSeverity(req.severity.value) {
          return outage, false;
        }
        outage := outage.(severity := req.severity.value);
      }
      assert outage == row.(severity := GetOr(req.severity, row.severity));
      if req.start.Some? && req.start.value != outage.start {
        outage := outage.(start := req.start.value);
      }
      if req.end.Some? && req.end.value != outage.end {
        outage := outage.(end := req.end.value);
      }
      ghost var dated := outage;
      assert dated == row.(severity := GetOr(req.severity, row.severity), start := GetOr(req.start, row.start),
                           end := GetOr(req.end, row.end));
      if req.description.Some? {
        outage := outage.(description := TrimSpace(req.description.value));
      }
      if req.confirmed.Some? {
        if req.confirmed.value && outage.confirmedAt.None? {
          outage := outage.(confirmedAt := Some(now));
        } else if !req.confirmed.value && outage.confirmedAt.Some? {
          outage := outage.(confirmedAt := None);
        }
      }
      if req.triageNotes.Some? {
        outage := outage.(triageNotes := req.triageNotes);
      }
    }

    method DeleteOutage(cfg: Config, c: string, s: string, id: nat, user: string, env: Env) returns (response: Response)
      modifies store
      ensures (store.Contents(), response) == UserDeleted(old(store.Contents()), cfg, c, s, id, user, env)
    {
      var sub := Lookup(cfg, c, s);
      if sub == None {
        return NotFound;
      }
      if env.queryFails {
        return ServerError;
      }
      if !Located(store.Contents(), id, c, s) {
        return NotFound;
      }
      var ok := store.DeleteOutage(id, user, env.writeFault);
      response := if ok then Done else ServerError;
    }
  }

  lemma PatchedTwice(row: Outage, req: UpsertRequest, t1: Time, t2: Time)
    requires WholeSeconds(row)
    ensures var once := Stamped(Patched(row, req, t1), t1);
            && Stamped(Patched(once, req, t2), t2) == once.(updatedAt := t2)
            && (Valid(Patched(row, req, t1)) ==> Valid(Patched(once, req, t2)))
  {
    var patched := Patched(row, req, t1);
    RoundedIdempotent(patched);
    assert Patched(Stamped(patched, t1), req, t2) ==
           Stamped(patched, t1).(start := GetOr(req.start, row.start), end := GetOr(req.end, row.end));
  }

  /** Sending a patch twice: same answer, and the second one changes nothing but `updated_at`. In
      particular the truncated times and the first confirmation time stay. */
  lemma PatchIdempotent(db: Db, cfg: Config, c: string, s: string, id: nat, user: string, req: UpsertRequest,
                        first: Env, second: Env)
    requires Located(db, id, c, s) ==> WholeSeconds(db.rows[id])
    requires NoFaults(first) && NoFaults(second)
    ensures var (once, answer1) := UserPatched(db, cfg, c, s, id, user, req, first);
            var (twice, answer2) := UserPatched(once, cfg, c, s, id, user, req, second);
            && answer1 == answer2
            && (answer1 != Done ==> once == twice == db)
            && (answer1 == Done ==>
                  && id in once.rows
                  && twice.rows == once.rows[id := once.rows[id].(updatedAt := second.now)])
  {
    if Located(db, id, c, s) {
      PatchedTwice(db.rows[id], req, first.now, second.now);
    }
    hide Patched, Valid, IsValidSeverity, Lookup, TruncateOption, Truncate;
  }

  predicate Known(severity: Severity) {
    severity in {SeverityDown, SeverityDegraded, SeveritySuspected, SeverityCapacityExhausted}
  }

  lemma TrimmedBlank(s: string)
    ensures Blank(TrimSpace(s)) <==> Blank(s)
  {
    TrimSpaceBlank(s);
    TrimSpaceBlank(TrimSpace(s));
    TrimSpaceIdempotent(s);
  }

  /** Every answer to a creation, by what the request says. */
  lemma CreateAnswers(db: Db, cfg: Config, c: string, s: string, user: string, req: UpsertRequest, env: Env)
    ensures var answer := UserCreated(db, cfg, c, s, user, req, env).1;
            answer == if Lookup(cfg, c, s).None? then NotFound
                      else if req.start.None? then Aborted
                      else if && req.severity.Some? && Known(req.severity.value) && req.start.value != 0
                              && req.description.Some? && !Blank(req.description.value)
                              && req.discoveredFrom.Some? && req.discoveredFrom.value != "" && user != ""
                      then if env.writeFault.Some? && env.writeFault.value < 2 then ServerError else Done
                      else BadRequest
    ensures UserCreated(db, cfg, c, s, user, req, env).1 != Done ==>
              var after := UserCreated(db, cfg, c, s, user, req, env).0;
              after.rows == db.rows && after.reasons == db.reasons && after.pings == db.pings && after.audit == db.audit
  {
    hide Lookup, Blank, TrimSpace;
    TrimmedBlank(GetOr(req.description, ""));
    if req.description.None? {
      EmptyIsBlank();
    }
  }

  /** Every answer to a patch. A stored row names a source and a creator and has a known severity and a text. */
  lemma PatchAnswers(db: Db, cfg: Config, c: string, s: string, id: nat, user: string, req: UpsertRequest, env: Env)
    requires Located(db, id, c, s) ==>
               var row := db.rows[id];
               Known(row.severity) && !Blank(row.description) && row.discoveredFrom != "" && row.createdBy != ""
    ensures var (after, answer) := UserPatched(db, cfg, c, s, id, user, req, env);
            && answer == (if Lookup(cfg, c, s).None? then NotFound
                          else if env.queryFails then ServerError
                          else if !(id in db.rows && db.rows[id].component == c && db.rows[id].subComponent == s)
                          then NotFound
                          else if && (req.severity.Some? ==> Known(req.severity.value))
                                  && GetOr(req.start, db.rows[id].start) != 0
                                  && (req.description.Some? ==> !Blank(req.description.value))
                          then if env.writeFault.Some? && env.writeFault.value < 4 then ServerError else Done
                          else BadRequest)
            && (answer != Done ==> after == db)
  {
    hide Lookup, Blank, TrimSpace;
    if req.description.Some? {
      TrimmedBlank(req.description.value);
    }
  }

  /** Every answer to a delete, and what it does: on Done the row is gone, the log has one more entry, which
      names the person and shows the row, and nothing else changed; otherwise nothing did. */
  lemma DeleteEffect(db: Db, cfg: Config, c: string, s: string, id: nat, user: string, env: Env)
    ensures var (after, answer) := UserDeleted(db, cfg, c, s, id, user, env);
            && answer == (if Lookup(cfg, c, s).None? then NotFound
                          else if env.queryFails then ServerError
                          else if !(id in db.rows && db.rows[id].component == c && db.rows[id].subComponent == s)
                          then NotFound
                          else if env.writeFault.Some? && env.writeFault.value < 3 then ServerError else Done)
            && (answer != Done ==> after == db)
            && (answer == Done ==>
                  && after.rows == db.rows - {id}
                  && after.reasons == db.reasons && after.pings == db.pings && after.nextId == db.nextId
                  && after.audit == db.audit + [AuditEntry(Delete, id, user,
                                                           Some(Snapshot(db.rows[id], ReasonsOf(db, id))), None)])
  {
    hide Lookup;
  }

  /** What an accepted creation leaves in the table: one open-ended row more, whatever end the request
      names, without reasons, confirmed at once unless the sub-component asks for confirmation and
      the request does not confirm it. */
  lemma CreateEffect(db: Db, cfg: Config, c: string, s: string, user: string, req: UpsertRequest, env: Env)
    requires UserCreated(db, cfg, c, s, user, req, env).1 == Done
    ensures var after, sub := UserCreated(db, cfg, c, s, user, req, env).0, Lookup(cfg, c, s);
            sub.Some? && db.nextId in after.rows && var y := after.rows[db.nextId];
            && after.rows == db.rows[db.nextId := y] && after.pings == db.pings
            && after.nextId == db.nextId + 1 && ReasonsOf(after, db.nextId) == []
            && Located(after, db.nextId, c, s) && y.createdBy == user
            && Some(y.severity) == req.severity && Some(y.discoveredFrom) == req.discoveredFrom
            && req.start.Some? && y.start == Truncate(req.start.value) && y.end == None
            && req.description.Some? && y.description == TrimSpace(req.description.value)
            && y.confirmedAt == (if sub.value.requiresConfirmation && req.confirmed != Some(true) then None
                                 else Some(Truncate(env.now)))
            && y.triageNotes == req.triageNotes && y.updatedAt == env.now
  {
    hide TrimSpace, Lookup;
    TrimSpaceBlank(GetOr(req.description, ""));
    if req.description.None? {
      EmptyIsBlank();
    }
    hide Blank;
  }

  lemma EmptyIsBlank()
    ensures Blank(TrimSpace(""))
  {
  }

  /** A column keeps its value unless the request names it. */
  predicate Follows<T(==)>(requested: Option<T>, before: T, after: T) {
    after == if requested.Some? then requested.value else before
  }

  /** What an accepted patch leaves in the table: one row changed, in the columns the request names and
      no others, times cut to whole seconds; confirming keeps the first confirmation time. */
  lemma PatchEffect(db: Db, cfg: Config, c: string, s: string, id: nat, user: string, req: UpsertRequest, env: Env)
    requires Located(db, id, c, s) ==> WholeSeconds(db.rows[id])
    requires UserPatched(db, cfg, c, s, id, user, req, env).1 == Done
    ensures var after := UserPatched(db, cfg, c, s, id, user, req, env).0;
            Located(db, id, c, s) && id in after.rows && var x, y := db.rows[id], after.rows[id];
            && after.rows == db.rows[id := y] && after.pings == db.pings && after.reasons == db.reasons
            && SameIdentity(x, y) && WholeSeconds(y) && y.updatedAt == env.now
            && Follows(req.severity, x.severity, y.severity)
            && Follows(if req.start.Some? then Some(Truncate(req.start.value)) else None, x.start, y.start)
            && Follows(if req.end.Some? then Some(TruncateOption(req.end.value)) else None, x.end, y.end)
            && Follows(if req.description.Some? then Some(TrimSpace(req.description.value)) else None,
                       x.description, y.description)
            && (y.triageNotes == if req.triageNotes.Some? then req.triageNotes else x.triageNotes)
            && (req.confirmed == Some(false) ==> y.confirmedAt == None)
            && (req.confirmed == Some(true) ==>
                  y.confirmedAt == if x.confirmedAt.Some? then x.confirmedAt else Some(Truncate(env.now)))
            && (req.confirmed == None ==> y.confirmedAt == x.confirmedAt)
  {
    hide TrimSpace, Blank, Lookup;
    RoundedIdempotent(Patched(db.rows[id], req, env.now));
  }
}
