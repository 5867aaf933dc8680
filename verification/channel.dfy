/** cmd/component-monitor/probe-orchestrator.go: the unbuffered channel between probers and the
    orchestrator's cycle. Goroutines that have reached their send wait in the channel; an action is one
    step of a goroutine or of the orchestrator, and changes nothing where it is not enabled. */
module ResultChannel {
  import opened Models
  import opened Report
  import opened Merge

  /** A goroutine's result, and the number of cycles completed when it reached its send. */
  datatype Item = Item(sender: nat, result: ProbeResult, offered: nat)

  datatype End = Complete | TimedOut | Cancelled

  datatype Cycle = Cycle(results: seq<Item>, end: End)

  datatype Phase = Draining | Collecting(results: seq<Item>) | Reporting | Exited

  /** `probers` goroutines start per cycle, numbered consecutively over all cycles. Those of the probers in
      `selective` give up a send when the context is cancelled, as the systemd prober does; the
      others do not. */
  datatype State = State(
    probers: nat,
    selective: set<nat>,
    phase: Phase,
    cancelled: bool,
    started: nat,
    running: set<nat>,
    waiting: seq<Item>,
    attempted: seq<Item>,
    discarded: seq<Item>,
    abandoned: seq<Item>,
    cycles: seq<Cycle>)

  function Start(probers: nat, selective: set<nat>): State {
    State(probers, selective, Draining, false, 0, {}, [], [], [], [], [])
  }

  datatype Action =
    | Offer(g: nat, result: ProbeResult)
    | Quit(g: nat)        // ends without a result
    | Abandon(i: nat)
    | Cancel
    | Discard(i: nat)
    | StartProbes
    | Receive(i: nat)
    | Timeout
    | NoticeCancel
    | NextCycle

  function RemoveAt<T>(s: seq<T>, i: nat): seq<T>
    requires i < |s|
  {
    s[..i] + s[i + 1..]
  }

  function Closed(s: State, results: seq<Item>, end: End): State {
    s.(phase := Reporting, cycles := s.cycles + [Cycle(results, end)])
  }

  /** The goroutines one cycle starts. */
  function Batch(first: nat, n: nat): (gs: set<nat>)
    ensures forall g :: g in gs <==> first <= g < first + n
  {
    if n == 0 then {} else Batch(first, n - 1) + {first + n - 1}
  }

  function Next(s: State, a: Action): State {
    match a
    case Offer(g, result) =>
      if g in s.running then
        var item := Item(g, result, |s.cycles|);
        s.(running := s.running - {g}, waiting := s.waiting + [item], attempted := s.attempted + [item])
      else s
    case Quit(g) =>
      s.(running := s.running - {g})
    case Abandon(i) =>
      if s.cancelled && i < |s.waiting| && s.probers > 0 && s.waiting[i].sender % s.probers in s.selective then
        s.(waiting := RemoveAt(s.waiting, i), abandoned := s.abandoned + [s.waiting[i]])
      else s
    case Cancel =>
      s.(cancelled := true)
    case Discard(i) =>
      if s.phase.Draining? && i < |s.waiting| then
        s.(waiting := RemoveAt(s.waiting, i), discarded := s.discarded + [s.waiting[i]])
      else s
    case StartProbes =>
      // Draining takes its default branch only when no goroutine waits.
      if s.phase.Draining? && s.waiting == [] then
        var next := s.(running := s.running + Batch(s.started, s.probers), started := s.started + s.probers);
        if s.probers == 0 then Closed(next, [], Complete) else next.(phase := Collecting([]))
      else s
    case Receive(i) =>
      if s.phase.Collecting? && i < |s.waiting| then
        var next := s.(waiting := RemoveAt(s.waiting, i));
        var results := s.phase.results + [s.waiting[i]];
        if |results| == s.probers then Closed(next, results, Complete) else next.(phase := Collecting(results))
      else s
    case Timeout =>
      if s.phase.Collecting? then Closed(s, s.phase.results, TimedOut) else s
    case NoticeCancel =>
      if s.phase.Collecting? && s.cancelled then Closed(s, s.phase.results, Cancelled) else s
    case NextCycle =>
      if s.phase.Reporting? then s.(phase := if s.cancelled then Exited else Draining) else s
  }

  function Run(s: State, actions: seq<Action>): State {
    if actions == [] then s else Next(Run(s, actions[..|actions| - 1]), actions[|actions| - 1])
  }

  // ---------------------------------------------------------------- conservation

  function InCycles(cycles: seq<Cycle>): seq<Item> {
    if cycles == [] then [] else InCycles(cycles[..|cycles| - 1]) + cycles[|cycles| - 1].results
  }

  /** All items the orchestrator has collected, in all cycles. */
  function Collected(s: State): seq<Item> {
    InCycles(s.cycles) + if s.phase.Collecting? then s.phase.results else []
  }

  predicate Conserved(s: State) {
    multiset(s.attempted) == multiset(Collected(s)) + multiset(s.discarded) + multiset(s.abandoned)
        + multiset(s.waiting)
  }

  predicate Once(s: State) {
    && (forall g | g in s.running :: g < s.started)
    && (forall i | 0 <= i < |s.attempted| :: s.attempted[i].sender < s.started && s.attempted[i].sender !in s.running)
    && (forall i, j | 0 <= i < j < |s.attempted| :: s.attempted[i].sender != s.attempted[j].sender)
  }

  /** What a completed cycle may look like. */
  predicate CycleOk(c: Cycle, k: nat, probers: nat) {
    && |c.results| <= probers
    && (c.end == Complete ==> |c.results| == probers)
    && (forall i | 0 <= i < |c.results| :: c.results[i].offered == k)
  }

  predicate Cycles(s: State) {
    && (forall k | 0 <= k < |s.cycles| :: CycleOk(s.cycles[k], k, s.probers))
    && (s.phase.Collecting? ==>
          && |s.phase.results| < s.probers
          && (forall i | 0 <= i < |s.phase.results| :: s.phase.results[i].offered == |s.cycles|)
          && (forall i | 0 <= i < |s.waiting| :: s.waiting[i].offered == |s.cycles|))
  }

  lemma Removed<T>(s: seq<T>, i: nat)
    requires i < |s|
    ensures multiset(s) == multiset(RemoveAt(s, i)) + multiset{s[i]}
  {
    assert s == s[..i] + ([s[i]] + s[i + 1..]);
  }

  lemma ClosedCollected(s: State, results: seq<Item>, end: End)
    ensures Collected(Closed(s, results, end)) == InCycles(s.cycles) + results
  {
    assert (s.cycles + [Cycle(results, end)])[..|s.cycles|] == s.cycles;
  }

  lemma ReceiveConserved(s: State, i: nat)
    requires Conserved(s)
    ensures Conserved(Next(s, Receive(i)))
  {
    hide InCycles;
    if s.phase.Collecting? && i < |s.waiting| {
      var results := s.phase.results + [s.waiting[i]];
      Removed(s.waiting, i);
      ClosedCollected(s.(waiting := RemoveAt(s.waiting, i)), results, Complete);
      assert InCycles(s.cycles) + results == Collected(s) + [s.waiting[i]];
    }
  }

  lemma CloseConserved(s: State, a: Action)
    requires Conserved(s) && (a.Timeout? || a.NoticeCancel? || a.StartProbes?)
    ensures Conserved(Next(s, a))
  {
    hide InCycles;
    if s.phase.Collecting? {
      ClosedCollected(s, s.phase.results, TimedOut);
      ClosedCollected(s, s.phase.results, Cancelled);
    } else {
      var batch := Batch(s.started, s.probers);
      ClosedCollected(s.(running := s.running + batch, started := s.started + s.probers), [], Complete);
    }
  }

  lemma AbandonConserved(s: State, i: nat)
    requires Conserved(s)
    ensures Conserved(Next(s, Abandon(i)))
  {
    hide InCycles;
    if Next(s, Abandon(i)) != s {
      Removed(s.waiting, i);
      hide RemoveAt;
    }
  }

  lemma DiscardConserved(s: State, i: nat)
    requires Conserved(s)
    ensures Conserved(Next(s, Discard(i)))
  {
    hide InCycles;
    if Next(s, Discard(i)) != s {
      Removed(s.waiting, i);
      hide RemoveAt;
    }
  }

  lemma OfferConserved(s: State, a: Action)
    requires Conserved(s) && (a.Offer? || a.Quit? || a.Cancel? || a.NextCycle?)
    ensures Conserved(Next(s, a))
  {
    hide InCycles;
  }

  lemma NextConserved(s: State, a: Action)
    requires Conserved(s)
    ensures Conserved(Next(s, a))
  {
    hide Next, Conserved;
    match a
    case Receive(i) => ReceiveConserved(s, i);
    case Abandon(i) => AbandonConserved(s, i);
    case Discard(i) => DiscardConserved(s, i);
    case Timeout => CloseConserved(s, a);
    case NoticeCancel => CloseConserved(s, a);
    case StartProbes => CloseConserved(s, a);
    case _ => OfferConserved(s, a);
  }

  lemma NextOnce(s: State, a: Action)
    requires Once(s)
    ensures Once(Next(s, a))
  {
  }

  lemma NextCycles(s: State, a: Action)
    requires Cycles(s)
    ensures Cycles(Next(s, a))
  {
  }

  lemma {:induction false} RunInv(probers: nat, selective: set<nat>, actions: seq<Action>)
    ensures var s := Run(Start(probers, selective), actions);
            Conserved(s) && Once(s) && Cycles(s) && s.probers == probers
  {
    hide Next, Conserved, Once, Cycles;
    if actions == [] {
      StartOk(probers, selective);
    } else {
      var s, a := Run(Start(probers, selective), actions[..|actions| - 1]), actions[|actions| - 1];
      RunInv(probers, selective, actions[..|actions| - 1]);
      NextConserved(s, a);
      NextOnce(s, a);
      NextCycles(s, a);
      SameProbers(s, a);
    }
  }

  lemma StartOk(probers: nat, selective: set<nat>)
    ensures var s := Start(probers, selective);
            Conserved(s) && Once(s) && Cycles(s)
  {
  }

  lemma SameProbers(s: State, a: Action)
    ensures Next(s, a).probers == s.probers
  {
  }

  /** Over every interleaving of goroutines, cycles, timeouts and cancellation: each goroutine sends at
      most once, and what was sent is exactly what was collected, discarded by a drain, abandoned on
      cancellation, or still waits; no item is in two of these. */
  lemma ResultsConserved(probers: nat, selective: set<nat>, actions: seq<Action>)
    ensures var s := Run(Start(probers, selective), actions);
            && multiset(s.attempted) == multiset(Collected(s)) + multiset(s.discarded) + multiset(s.abandoned)
                + multiset(s.waiting)
            && (forall item | item in s.attempted :: multiset(s.attempted)[item] == 1)
            && (forall i, j | 0 <= i < j < |s.attempted| :: s.attempted[i].sender != s.attempted[j].sender)
  {
    RunInv(probers, selective, actions);
    var s := Run(Start(probers, selective), actions);
    DistinctCount(s.attempted);
  }

  lemma {:induction false} DistinctCount(items: seq<Item>)
    requires forall i, j | 0 <= i < j < |items| :: items[i].sender != items[j].sender
    ensures forall item | item in items :: multiset(items)[item] == 1
  {
    if items != [] {
      var init, last := items[..|items| - 1], items[|items| - 1];
      assert items == init + [last];
      DistinctCount(init);
      assert last !in init;
      assert last !in multiset(init);
    }
  }

  /** A cycle never collects more results than there are probers, and fewer only after a timeout or a
      cancellation; and whatever it collects reached its send during that cycle. */
  lemma CyclesBounded(probers: nat, selective: set<nat>, actions: seq<Action>, k: nat)
    requires k < |Run(Start(probers, selective), actions).cycles|
    ensures var c := Run(Start(probers, selective), actions).cycles[k];
            && |c.results| <= probers
            && (|c.results| < probers ==> c.end == TimedOut || c.end == Cancelled)
            && (forall i | 0 <= i < |c.results| :: c.results[i].offered == k)
  {
    RunInv(probers, selective, actions);
    var s := Run(Start(probers, selective), actions);
    assert CycleOk(s.cycles[k], k, s.probers);
  }

  // ---------------------------------------------------------------- cancellation

  /** Nothing is abandoned, no cycle is cut short as cancelled, and the loop does not end, before the context is
      cancelled; and only selective probers abandon. */
  predicate CancelledFirst(s: State) {
    && (!s.cancelled ==>
          s.abandoned == [] && !s.phase.Exited? && forall k | 0 <= k < |s.cycles| :: !s.cycles[k].end.Cancelled?)
    && (forall item | item in s.abandoned :: Selective(item, s.probers, s.selective))
  }

  predicate Selective(item: Item, probers: nat, selective: set<nat>) {
    probers > 0 && item.sender % probers in selective
  }

  lemma NothingBeforeCancel(probers: nat, selective: set<nat>, actions: seq<Action>)
    ensures var s := Run(Start(probers, selective), actions);
            && (Cancel !in actions ==>
                  && s.abandoned == [] && s.phase != Exited
                  && forall k | 0 <= k < |s.cycles| :: s.cycles[k].end != Cancelled)
            && (forall item | item in s.abandoned :: probers > 0 && item.sender % probers in selective)
  {
    CancelInv(probers, selective, actions);
    hide Run;
  }

  lemma NextCancelledFirst(s: State, a: Action)
    requires CancelledFirst(s)
    ensures CancelledFirst(Next(s, a))
    ensures Next(s, a).cancelled <==> s.cancelled || a == Cancel
    ensures Next(s, a).probers == s.probers && Next(s, a).selective == s.selective
  {
    hide RemoveAt, Selective, Batch;
    var n := Next(s, a);
    if a.Abandon? {
      if n != s {
        AbandonedSelective(s, a.i);
        hide Next;
      }
    } else {
      CyclesCancelled(s, a);
      assert n.abandoned == s.abandoned;
      hide Next;
    }
  }

  lemma CyclesCancelled(s: State, a: Action)
    requires !a.Abandon?
    ensures var n := Next(s, a);
            && (!n.cancelled && !s.phase.Exited? ==> !n.phase.Exited?)
            && (n.cycles == s.cycles || (exists c :: n.cycles == s.cycles + [c] && (c.end.Cancelled? ==> s.cancelled)))
  {
    hide RemoveAt, Batch;
    var n := Next(s, a);
    if n.cycles != s.cycles {
      assert n.cycles == s.cycles + [n.cycles[|s.cycles|]];
    }
  }

  lemma AbandonedSelective(s: State, i: nat)
    requires Next(s, Abandon(i)) != s
    ensures var n := Next(s, Abandon(i));
            && i < |s.waiting| && s.cancelled && n.cancelled && n.probers == s.probers && n.selective == s.selective
            && Selective(s.waiting[i], s.probers, s.selective) && n.abandoned == s.abandoned + [s.waiting[i]]
  {
  }

  /** Cycles that may still be completed after a cancellation. */
  function Remaining(s: State): nat {
    if s.phase.Draining? || s.phase.Collecting? then 1 else 0
  }

  lemma NextRemaining(s: State, a: Action)
    requires s.cancelled
    ensures var n := Next(s, a); n.cancelled && |n.cycles| + Remaining(n) <= |s.cycles| + Remaining(s)
  {
    hide RemoveAt, Batch;
  }

  /** Once the context is cancelled at most the cycle under way is completed. */
  lemma {:induction false} AtMostOneMore(s: State, actions: seq<Action>)
    requires s.cancelled
    ensures var n := Run(s, actions);
            n.cancelled && |n.cycles| + Remaining(n) <= |s.cycles| + Remaining(s)
    ensures |Run(s, actions).cycles| <= |s.cycles| + 1
  {
    hide Next, Remaining;
    if actions != [] {
      AtMostOneMore(s, actions[..|actions| - 1]);
      NextRemaining(Run(s, actions[..|actions| - 1]), actions[|actions| - 1]);
    }
    assert Remaining(s) <= 1 by { OneRemains(s); }
  }

  lemma OneRemains(s: State)
    ensures Remaining(s) <= 1
  {
  }

  lemma {:induction false} CancelInv(probers: nat, selective: set<nat>, actions: seq<Action>)
    ensures var s := Run(Start(probers, selective), actions);
            && CancelledFirst(s) && s.probers == probers && s.selective == selective
            && (s.cancelled <==> Cancel in actions)
  {
    hide Next, CancelledFirst;
    if actions == [] {
      assert CancelledFirst(Start(probers, selective)) by { StartCancelledFirst(probers, selective); }
    } else {
      var init, last := actions[..|actions| - 1], actions[|actions| - 1];
      assert actions == init + [last];
      CancelInv(probers, selective, init);
      NextCancelledFirst(Run(Start(probers, selective), init), last);
    }
  }

  lemma StartCancelledFirst(probers: nat, selective: set<nat>)
    ensures CancelledFirst(Start(probers, selective))
  {
  }

  // ---------------------------------------------------------------- late results

  lemma RunTwo(s: State, a: Action, b: Action)
    ensures Run(s, [a, b]) == Next(Next(s, a), b)
  {
    assert [a, b][..1] == [a] && [a][..0] == [];
    hide Next;
    assert Run(s, [a]) == Next(s, a);
  }

  lemma RunThree(s: State, a: Action, b: Action, c: Action)
    ensures Run(s, [a, b, c]) == Next(Next(Next(s, a), b), c)
  {
    assert [a, b, c][..2] == [a, b];
    hide Next;
    RunTwo(s, a, b);
  }

  /** Since `s`, a result of a goroutine started before `s` has been collected. */
  predicate LateSince(s: State, n: State) {
    exists item :: item in Collected(n) && item !in Collected(s) && item.sender < s.started
  }

  /** Since `s`, only goroutines started after `s` have run, waited or been collected. */
  predicate OnlyNew(s: State, n: State) {
    && (forall g | g in n.running :: s.started <= g)
    && s.started <= n.started
    && (forall i | 0 <= i < |n.waiting| :: s.started <= n.waiting[i].sender)
    && (forall item | item in Collected(n) :: item in Collected(s) || s.started <= item.sender)
  }

  /** A step collects at most one item, a waiting one. */
  lemma NextCollected(n: State, a: Action)
    ensures forall item | item in Collected(Next(n, a)) :: item in Collected(n) || item in n.waiting
  {
    hide InCycles;
    match a
    case Receive(i) =>
      if n.phase.Collecting? && i < |n.waiting| {
        ClosedCollected(n.(waiting := RemoveAt(n.waiting, i)), n.phase.results + [n.waiting[i]], Complete);
      }
    case StartProbes =>
      var batch := Batch(n.started, n.probers);
      ClosedCollected(n.(running := n.running + batch, started := n.started + n.probers), [], Complete);
    case Timeout =>
      if n.phase.Collecting? {
        ClosedCollected(n, n.phase.results, TimedOut);
      }
    case NoticeCancel =>
      if n.phase.Collecting? {
        ClosedCollected(n, n.phase.results, Cancelled);
      }
    case _ =>
  }

  lemma NextOnlyNew(s: State, n: State, a: Action)
    requires OnlyNew(s, n)
    ensures OnlyNew(s, Next(n, a))
  {
    NextCollected(n, a);
    hide Collected;
  }

  lemma {:induction false} RunOnlyNew(s: State, n: State, actions: seq<Action>)
    requires OnlyNew(s, n)
    ensures OnlyNew(s, Run(n, actions))
  {
    hide Next, OnlyNew;
    if actions != [] {
      RunOnlyNew(s, n, actions[..|actions| - 1]);
      NextOnlyNew(s, Run(n, actions[..|actions| - 1]), actions[|actions| - 1]);
    }
  }

  /** Two steps by which a goroutine that is still running gets its result into the next cycle. */
  lemma LateCollected(s: State, g: nat, r: ProbeResult)
    requires s.phase == Draining && s.waiting == [] && s.probers > 0 && Once(s) && Accounted(s)
    requires g in s.running
    ensures LateSince(s, Run(Next(s, StartProbes), [Offer(g, r), Receive(0)]))
  {
    var item := Item(g, r, |s.cycles|);
    var started := Next(s, StartProbes);
    var offered := Next(started, Offer(g, r));
    assert offered.waiting == [item] && offered.phase == Collecting([]) && offered.probers > 0;
    RunTwo(started, Offer(g, r), Receive(0));
    hide Run, InCycles;
    ReceivedOnly(offered, item);
    hide Next, Collected;
  }

  lemma ReceivedOnly(s: State, item: Item)
    requires s.waiting == [item] && s.phase == Collecting([]) && s.probers > 0
    ensures item in Collected(Next(s, Receive(0)))
  {
    hide InCycles;
    ClosedCollected(s.(waiting := []), [item], Complete);
    var all := InCycles(s.cycles) + [item];
    assert RemoveAt(s.waiting, 0) == [] && [] + [item] == [item];
    assert all[|all| - 1] == item;
  }

  /** Whatever was collected was sent. */
  predicate Accounted(s: State) {
    forall item | item in Collected(s) :: item in s.attempted
  }

  /** Some run of the cycle that starts now, or of later ones, collects a late result. */
  ghost predicate CanBeLate(s: State) {
    exists actions :: LateSince(s, Run(Next(s, StartProbes), actions))
  }

  /** Exactly when a cycle, or one after it, can collect a result of an earlier cycle's probe: when such
      a probe is still running as the drain before the cycle ends. */
  lemma LateResult(s: State)
    requires s.phase == Draining && s.waiting == [] && s.probers > 0 && Once(s) && Accounted(s)
    ensures CanBeLate(s) <==> s.running != {}
  {
    if g :| g in s.running {
      var r := ProbeResult(ReportStatus("", "", StatusHealthy, []), false);
      LateCollected(s, g, r);
      var actions := [Offer(g, r), Receive(0)];
      assert LateSince(s, Run(Next(s, StartProbes), actions));
    } else {
      ClosedCollected(s, [], Complete);
      assert OnlyNew(s, Next(s, StartProbes));
      forall actions ensures !LateSince(s, Run(Next(s, StartProbes), actions)) {
        RunOnlyNew(s, Next(s, StartProbes), actions);
      }
    }
  }

  /** Both happen in runs: every drain of a run satisfies the hypotheses, and one cycle that times out
      leaves its probes running. */
  lemma DrainReached(probers: nat, selective: set<nat>, actions: seq<Action>)
    ensures var s := Run(Start(probers, selective), actions);
            Once(s) && Accounted(s) && s.probers == probers
    ensures var s := Run(Start(2, {}), [StartProbes, Timeout, NextCycle]);
            s.phase == Draining && s.waiting == [] && s.running == {0, 1} && s.started == 2
  {
    RunInv(probers, selective, actions);
    var s := Run(Start(probers, selective), actions);
    forall item | item in Collected(s) ensures item in s.attempted {
      assert item in multiset(Collected(s));
      assert item in multiset(s.attempted);
    }
    StillRunning();
  }

  lemma StillRunning()
    ensures var s := Run(Start(2, {}), [StartProbes, Timeout, NextCycle]);
            s.phase == Draining && s.waiting == [] && s.running == {0, 1} && s.started == 2
  {
    var s := Start(2, {});
    hide Run, Next, Batch;
    RunThree(s, StartProbes, Timeout, NextCycle);
    FirstCycle();
    var collecting := Next(s, StartProbes);
    TimedOutCycle(collecting);
  }

  lemma FirstCycle()
    ensures Next(Start(2, {}), StartProbes) == Start(2, {}).(running := {0, 1}, started := 2, phase := Collecting([]))
  {
    assert Batch(0, 2) == {0, 1};
  }

  lemma TimedOutCycle(s: State)
    requires s.phase.Collecting? && !s.cancelled
    ensures var n := Next(Next(s, Timeout), NextCycle);
            n.phase == Draining && n.waiting == s.waiting && n.running == s.running && n.started == s.started
  {
  }

  // ---------------------------------------------------------------- the loop of a cycle

  /** What the `select` of one iteration takes. */
  datatype Choice = Received(result: ProbeResult) | ContextDone | TimeoutFired

  /** `collectProbeResults`, where `choice(k)` is taken when `k` results have been collected. */
  method CollectProbeResults(probers: nat, choice: nat -> Choice) returns (results: seq<ProbeResult>)
    ensures |results| <= probers
    ensures forall k | 0 <= k < |results| :: choice(k) == Received(results[k])
    ensures |results| < probers <==> exists k: nat :: k < probers && !choice(k).Received?
  {
    var probesCompleted := 0;
    results := [];
    while probesCompleted < probers
      invariant |results| == probesCompleted <= probers
      invariant forall k | 0 <= k < probesCompleted :: choice(k) == Received(results[k])
    {
      match choice(probesCompleted) {
        case Received(result) =>
          results := results + [result];
          probesCompleted := probesCompleted + 1;
        case ContextDone =>
          return;
        case TimeoutFired =>
          return;
      }
    }
  }
}
