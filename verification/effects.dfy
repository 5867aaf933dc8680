/** What the compound operations do to the outage table, row by row. */
module Effects {
  import opened Base
  import opened Models
  import opened Store

  function IdsOf(found: seq<Found>): set<nat> {
    if found == [] then {} else {found[0].id} + IdsOf(found[1..])
  }

  /** `found` was loaded from this very table, each row once. */
  predicate Loaded(db: Db, found: seq<Found>) {
    found == [] ||
    (var Found(id, row) := found[0];
     id in db.rows && db.rows[id] == row && id !in IdsOf(found[1..]) && Loaded(db, found[1..]))
  }

  /** The update that would end this row goes through: the row validates and no statement fails. */
  predicate Endable(row: Outage, id: nat, env: Env) {
    Valid(row) && !Hits(FaultOf(env, id), 4)
  }

  function EndedAt(row: Outage, now: Time): Outage {
    Stamped(row.(end := Some(now)), now)
  }

  /** `b` is `a` with the endable rows of `ids` ended. */
  predicate EndsRows(a: Db, b: Db, ids: set<nat>, env: Env) {
    && b.rows.Keys == a.rows.Keys
    && b.pings == a.pings
    && b.nextId == a.nextId
    && forall id | id in a.rows ::
         b.rows[id] == if id in ids && Endable(a.rows[id], id, env) then EndedAt(a.rows[id], env.now) else a.rows[id]
  }

  lemma EndsCompose(a: Db, b: Db, c: Db, id: nat, ids: set<nat>, env: Env)
    requires EndsRows(a, b, {id}, env) && EndsRows(b, c, ids, env) && id !in ids
    ensures EndsRows(a, c, {id} + ids, env)
  {
  }

  lemma {:induction false} StillLoaded(a: Db, b: Db, found: seq<Found>)
    requires Loaded(a, found)
    requires forall id | id in IdsOf(found) && id in a.rows :: id in b.rows && b.rows[id] == a.rows[id]
    ensures Loaded(b, found)
  {
    if found != [] {
      StillLoaded(a, b, found[1..]);
    }
  }

  lemma EndedOne(db: Db, id: nat, user: string, env: Env)
    requires id in db.rows
    ensures var after := Updated(db, id, db.rows[id].(end := Some(env.now)), user, env.now, FaultOf(env, id)).0;
            EndsRows(db, after, {id}, env)
  {
  }

  lemma {:induction false} ResolvedRows(db: Db, found: seq<Found>, user: string, env: Env)
    requires Loaded(db, found)
    ensures EndsRows(db, Resolved(db, found, user, env), IdsOf(found), env)
    decreases |found|
  {
    if found != [] {
      var Found(id, row) := found[0];
      var next := Updated(db, id, row.(end := Some(env.now)), user, env.now, FaultOf(env, id)).0;
      EndedOne(db, id, user, env);
      hide Updated;
      assert EndsRows(db, next, {id}, env);
      StillLoaded(db, next, found[1..]);
      hide EndsRows;
      ResolvedRows(next, found[1..], user, env);
      EndsCompose(db, next, Resolved(db, found, user, env), id, IdsOf(found[1..]), env);
    }
  }

  lemma {:induction false} FetchedLoaded(db: Db, ids: seq<nat>)
    requires forall id | id in ids :: id in db.rows
    requires forall i, j | 0 <= i < j < |ids| :: ids[i] != ids[j]
    ensures Loaded(db, Fetched(db, ids))
    ensures forall id: nat :: id in IdsOf(Fetched(db, ids)) <==> id in ids
  {
    if ids != [] {
      FetchedLoaded(db, ids[1..]);
      assert ids == [ids[0]] + ids[1..];
      assert Fetched(db, ids)[1..] == Fetched(db, ids[1..]);
    }
  }

  lemma QueryLoads(db: Db, c: string, s: string, src: Source, order: seq<nat>)
    ensures Loaded(db, QueryOpen(db, c, s, src, order))
    ensures IdsOf(QueryOpen(db, c, s, src, order)) == Open(db, c, s, src)
    ensures QueryOpen(db, c, s, src, order) == [] <==> Open(db, c, s, src) == {}
  {
    FetchedLoaded(db, Listing(Open(db, c, s, src), order));
  }

  /** Auto-resolve, row by row; the order in which the rows come back does not matter. */
  lemma ResolvedOpen(db: Db, c: string, s: string, src: Source, user: string, env: Env)
    ensures EndsRows(db, Resolved(db, QueryOpen(db, c, s, src, env.order), user, env), Open(db, c, s, src), env)
  {
    QueryLoads(db, c, s, src, env.order);
    ResolvedRows(db, QueryOpen(db, c, s, src, env.order), user, env);
  }

  /** Every order in which a database may return the rows of a result set is covered. */
  lemma {:induction false} ListingFollowsOrder(s: set<nat>, order: seq<nat>)
    requires forall id :: id in s <==> id in order
    requires forall i, j | 0 <= i < j < |order| :: order[i] != order[j]
    ensures Listing(s, order) == order
  {
    if order == [] {
      assert s == {};
    } else {
      assert order == [order[0]] + order[1..];
      ListingFollowsOrder(s - {order[0]}, order[1..]);
    }
  }
}
