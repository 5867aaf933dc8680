/** cmd/dashboard/absent_report.go: outages for sub-components whose monitor fell silent. */
module Absent {
  import opened Base
  import opened Models
  import opened Configuration
  import opened Store

  const ABSENT_SOURCE := "absent-monitored-component-report"
  const ABSENT_CREATOR := "dashboard"
  const ABSENT_DESCRIPTION := "Component-monitor has not reported status within expected time. "

  /** A sub-component the checker visits, under its component's slug. */
  datatype Target = Target(component: string, sub: SubComponent)

  function SubTargets(component: string, subs: seq<SubComponent>): (targets: seq<Target>)
    ensures |targets| == |subs|
    ensures forall i | 0 <= i < |subs| :: targets[i] == Target(component, subs[i])
  {
    seq(|subs|, i requires 0 <= i < |subs| => Target(component, subs[i]))
  }

  /** All configured sub-components in the order of the two nested loops. */
  function Targets(components: seq<Component>): seq<Target> {
    if components == [] then
      []
    else
      var last := components[|components| - 1];
      Targets(components[..|components| - 1]) + SubTargets(last.slug, last.subs)
  }

  /** Where the targets of component `i` begin. */
  function Offset(components: seq<Component>, i: nat): nat
    requires i <= |components|
  {
    |Targets(components[..i])|
  }

  lemma TargetsSnoc(components: seq<Component>)
    requires components != []
    ensures var last := components[|components| - 1];
            Targets(components) == Targets(components[..|components| - 1]) + SubTargets(last.slug, last.subs)
  {
  }

  lemma {:induction false} TargetsOfComponent(components: seq<Component>, i: nat)
    requires i < |components|
    ensures Offset(components, i + 1) == Offset(components, i) + |components[i].subs| <= |Targets(components)|
    ensures forall j | 0 <= j < |components[i].subs| ::
              Targets(components)[Offset(components, i) + j] == Target(components[i].slug, components[i].subs[j])
  {
    hide Targets;
    var shorter := components[..|components| - 1];
    TargetsSnoc(components);
    if i < |shorter| {
      assert shorter[..i] == components[..i] && shorter[..i + 1] == components[..i + 1];
      TargetsOfComponent(shorter, i);
    } else {
      assert components[..i + 1] == components && components[..i] == shorter;
    }
  }

  /** `3 * frequency` has passed since the last ping, or there has been none. */
  predicate Overdue(db: Db, c: string, s: string, frequency: int, now: Time) {
    (c, s) !in db.pings || now - db.pings[(c, s)] > 3 * frequency
  }

  function AbsentOutage(c: string, sub: SubComponent, now: Time): Outage {
    Outage(c, sub.slug, SeverityDown, now, None, ABSENT_DESCRIPTION, ABSENT_SOURCE, ABSENT_CREATOR,
           if sub.requiresConfirmation then None else Some(now), None, 0)
  }

  lemma AbsentIsText()
    ensures !Blank(ABSENT_DESCRIPTION)
  {
    var n := |ABSENT_DESCRIPTION|;
    assert ABSENT_DESCRIPTION[n - 2] == '.' && ABSENT_DESCRIPTION[n - 2] in ABSENT_DESCRIPTION;
  }

  /** Effect of visiting one sub-component. */
  function CheckedOne(db: Db, t: Target, env: Env): Db {
    var c, s := t.component, t.sub.slug;
    if t.sub.monitoring.None? || t.sub.monitoring.value.frequency.None? || env.pingFails || env.queryFails then
      db
    else
      var monitoring := t.sub.monitoring.value;
      var active := QueryOpen(db, c, s, DiscoveredFrom(ABSENT_SOURCE), env.order);
      if !Overdue(db, c, s, monitoring.frequency.value, env.now) then
        if monitoring.autoResolve then Resolved(db, active, monitoring.monitor, env) else db
      else if active != [] then
        db
      else
        Created(db, AbsentOutage(c, t.sub, env.now), [], ABSENT_CREATOR, env.now, env.writeFault).0
  }

  function Checked(db: Db, targets: seq<Target>, envs: seq<Env>, k: nat): Db
    requires |envs| == |targets| && k <= |targets|
    decreases |targets| - k
  {
    if k == |targets| then db else Checked(CheckedOne(db, targets[k], envs[k]), targets, envs, k + 1)
  }

  class AbsentReportChecker {
    const store: OutageStore

    constructor (store: OutageStore)
      ensures this.store == store
    {
      this.store := store;
    }

    /** `checkForAbsentReports`: every configured sub-component in turn, whatever happened to the
        ones before it. */
    method CheckForAbsentReports(cfg: Config, envs: seq<Env>)
      requires |envs| == |Targets(cfg.components)|
      modifies store
      ensures store.Contents() == Checked(old(store.Contents()), Targets(cfg.components), envs, 0)
    {
      ghost var start, targets := store.Contents(), Targets(cfg.components);
      assert cfg.components[..|cfg.components|] == cfg.components;
      var k := 0;
      for i := 0 to |cfg.components|
        invariant k == Offset(cfg.components, i)
        invariant k <= |targets|
        invariant Checked(store.Contents(), targets, envs, k) == Checked(start, targets, envs, 0)
      {
        TargetsOfComponent(cfg.components, i);
        CheckComponent(cfg.components[i], targets, envs, k);
        k := k + |cfg.components[i].subs|;
      }
    }

    /** The inner loop, over the sub-components of one component. */
    method CheckComponent(component: Component, ghost targets: seq<Target>, envs: seq<Env>, k: nat)
      requires |envs| == |targets| && k + |component.subs| <= |targets|
      requires forall j | 0 <= j < |component.subs| :: targets[k + j] == Target(component.slug, component.subs[j])
      modifies store
      ensures Checked(store.Contents(), targets, envs, k + |component.subs|)
           == Checked(old(store.Contents()), targets, envs, k)
    {
      ghost var start := store.Contents();
      for j := 0 to |component.subs|
        invariant Checked(store.Contents(), targets, envs, k + j) == Checked(start, targets, envs, k)
      {
        CheckSubComponent(component.slug, component.subs[j], envs[k + j]);
      }
    }

    /** The body of the inner loop; the original's `continue` returns here. */
    method CheckSubComponent(c: string, sub: SubComponent, env: Env)
      modifies store
      ensures store.Contents() == CheckedOne(old(store.Contents()), Target(c, sub), env)
    {
      if sub.monitoring.None? || sub.monitoring.value.frequency.None? {
        return;
      }
      var threshold := 3 * sub.monitoring.value.frequency.value;
      if env.pingFails {
        return;
      }
      var now := env.now;
      var componentInOutage := false;
      if (c, sub.slug) !in store.pings {
        componentInOutage := true;
      } else if now - store.pings[(c, sub.slug)] > threshold {
        componentInOutage := true;
      }
      if env.queryFails {
        return;
      }
      var active := QueryOpen(store.Contents(), c, sub.slug, DiscoveredFrom(ABSENT_SOURCE), env.order);
      if !componentInOutage {
        if sub.monitoring.value.autoResolve && |active| > 0 {
          store.ResolveAll(active, sub.monitoring.value.monitor, env);
        }
        return;
      }
      if |active| > 0 {
        return;
      }
      var o := AbsentOutage(c, sub, now);
      var valid := Validate(o);
      if !valid {
        return;
      }
      var _ := store.CreateOutage(o, [], ABSENT_CREATOR, now, env.writeFault);
    }
  }
}
