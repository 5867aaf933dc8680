/** pkg/config/manager.go and cmd/component-monitor/main.go: hot reload of a configuration file, and
    the monitor that restarts its orchestrator on every change. Polls come one after the other. */
module Reload {
  import opened Base

  type Content = seq<bv8>

  /** What the manager is given: the digest it compares, never the empty string, and the load
      function, `None` for a file it rejects. */
  datatype Loader<!T> = Loader(hash: Content -> string, load: Content -> Option<T>)

  ghost predicate Injective<T>(l: Loader<T>) {
    && (forall a, b | l.hash(a) == l.hash(b) :: a == b)
    && (forall a :: l.hash(a) != "")
  }

  /** A poll reads the file twice, once to hash it and once to load it; `None` for a failed read. */
  datatype Reads = Reads(hashed: Option<Content>, loaded: Option<Content>)

  datatype Call<T> = Call(callback: nat, config: T)

  /** The manager's fields, and the history of callback invocations. */
  datatype ManagerState<T> = ManagerState(config: T, lastHash: string, callbacks: seq<nat>, calls: seq<Call<T>>)

  function CallAll<T>(callbacks: seq<nat>, config: T): (calls: seq<Call<T>>)
    ensures |calls| == |callbacks|
    ensures forall i | 0 <= i < |callbacks| :: calls[i] == Call(callbacks[i], config)
  {
    seq(|callbacks|, i requires 0 <= i < |callbacks| => Call(callbacks[i], config))
  }

  function LoadFrom<T>(l: Loader<T>, read: Option<Content>): Option<T> {
    match read
    case None => None
    case Some(content) => l.load(content)
  }

  predicate Accepts<T>(s: ManagerState<T>, l: Loader<T>, r: Reads) {
    r.hashed.Some? && l.hash(r.hashed.value) != s.lastHash && LoadFrom(l, r.loaded).Some?
  }

  /** `reloadIfChanged`. */
  function Polled<T>(s: ManagerState<T>, l: Loader<T>, r: Reads): ManagerState<T> {
    if !Accepts(s, l, r) then
      s
    else
      var config := LoadFrom(l, r.loaded).value;
      ManagerState(config, l.hash(r.hashed.value), s.callbacks, s.calls + CallAll(s.callbacks, config))
  }

  class Manager<T> {
    const loader: Loader<T>
    var config: T
    var lastHash: string
    var callbacks: seq<nat>
    var calls: seq<Call<T>>

    function State(): ManagerState<T>
      reads this
    {
      ManagerState(config, lastHash, callbacks, calls)
    }

    /** `NewManager` after a successful first load; the digest comes from a second read. */
    constructor (loader: Loader<T>, config: T, read: Option<Content>)
      ensures this.loader == loader
      ensures State() == ManagerState(config, if read.Some? then loader.hash(read.value) else "", [], [])
    {
      this.loader, this.config, callbacks, calls := loader, config, [], [];
      lastHash := if read.Some? then loader.hash(read.value) else "";
    }

    method ReloadIfChanged(r: Reads)
      modifies this
      ensures State() == Polled(old(State()), loader, r)
    {
      if r.hashed.None? {
        return;
      }
      var newHash := loader.hash(r.hashed.value);
      if newHash == lastHash {
        return;
      }
      var newConfig := LoadFrom(loader, r.loaded);
      if newConfig.None? {
        return;
      }
      config := newConfig.value;
      lastHash := newHash;
      var copied := callbacks;
      ghost var before := calls;
      for i := 0 to |copied|
        invariant calls == before + CallAll(copied, config)[..i]
        invariant config == newConfig.value && lastHash == newHash && callbacks == copied
      {
        calls := calls + [Call(copied[i], config)];
      }
      assert CallAll(copied, config)[..|copied|] == CallAll(copied, config);
    }

    method OnUpdate(callback: nat)
      modifies `callbacks
      ensures State() == old(State()).(callbacks := old(callbacks) + [callback])
    {
      callbacks := callbacks + [callback];
    }
  }

  // ---------------------------------------------------------------- runs

  datatype Event = Poll(file: Reads) | Register(callback: nat)

  function Step<T>(s: ManagerState<T>, l: Loader<T>, e: Event): ManagerState<T> {
    match e
    case Poll(file) => Polled(s, l, file)
    case Register(callback) => s.(callbacks := s.callbacks + [callback])
  }

  function Run<T>(s: ManagerState<T>, l: Loader<T>, events: seq<Event>): ManagerState<T> {
    if events == [] then s else Step(Run(s, l, events[..|events| - 1]), l, events[|events| - 1])
  }

  /** The file is not replaced between the two reads of a poll. */
  predicate Stable(e: Event) {
    e.Poll? ==> e.file.hashed == e.file.loaded
  }

  /** In terms of contents alone: a readable file that differs from the last accepted one and loads
      becomes the accepted one. Nothing is accepted yet, `None`, while the digest of the initial file is
      unknown. */
  predicate Changes<T>(l: Loader<T>, accepted: Option<Content>, e: Event) {
    e.Poll? && e.file.loaded.Some? && e.file.loaded != accepted && l.load(e.file.loaded.value).Some?
  }

  function LastAccepted<T>(l: Loader<T>, first: Option<Content>, events: seq<Event>): Option<Content> {
    if events == [] then
      first
    else
      var accepted := LastAccepted(l, first, events[..|events| - 1]);
      var e := events[|events| - 1];
      if Changes(l, accepted, e) then e.file.loaded else accepted
  }

  /** The callbacks registered so far, in order. */
  function Registered(events: seq<Event>): seq<nat> {
    if events == [] then
      []
    else
      var e := events[|events| - 1];
      Registered(events[..|events| - 1]) + if e.Register? then [e.callback] else []
  }

  /** One round of calls per accepted change, to the callbacks registered before it. */
  function Rounds<T>(l: Loader<T>, first: Option<Content>, events: seq<Event>): seq<Call<T>> {
    if events == [] then
      []
    else
      var earlier, e := events[..|events| - 1], events[|events| - 1];
      Rounds(l, first, earlier)
      + if Changes(l, LastAccepted(l, first, earlier), e) then
          CallAll(Registered(earlier), l.load(e.file.loaded.value).value)
        else
          []
  }

  /** The state of a manager that goes by this content. */
  predicate Follows<T(==)>(s: ManagerState<T>, l: Loader<T>, content: Content) {
    l.load(content) == Some(s.config) && s.lastHash == l.hash(content)
  }

  /** It goes by the accepted content, or has its initial configuration and no digest. */
  predicate Stands<T(==)>(s: ManagerState<T>, l: Loader<T>, accepted: Option<Content>, initial: T) {
    match accepted
    case Some(content) => Follows(s, l, content)
    case None => s.config == initial && s.lastHash == ""
  }

  /** Over every run of file changes, polls and registrations in which the file is stable within a poll:
      the configuration is the load of the last accepted content, and every callback registered at an
      acceptance runs once for it, in registration order, with that configuration. A manager that could
      not read its file a second time accepts the first loadable file, even an unchanged one. */
  lemma {:induction false} ReloadFollowsFile<T>(s: ManagerState<T>, l: Loader<T>, first: Option<Content>,
                                                events: seq<Event>)
    requires Injective(l) && Stands(s, l, first, s.config) && s.callbacks == [] && s.calls == []
    requires forall e | e in events :: Stable(e)
    ensures var n := Run(s, l, events);
            && Stands(n, l, LastAccepted(l, first, events), s.config)
            && n.callbacks == Registered(events)
            && n.calls == Rounds(l, first, events)
  {
    if events != [] {
      var earlier, e := events[..|events| - 1], events[|events| - 1];
      assert e in events && forall x | x in earlier :: x in events;
      ReloadFollowsFile(s, l, first, earlier);
      var now := Run(s, l, earlier);
      if e.Poll? && e.file.hashed.Some? {
        assert l.hash(e.file.hashed.value) == now.lastHash <==> e.file.hashed == LastAccepted(l, first, earlier);
      }
    }
  }

  /** However often a file is rejected, nothing changes, so a later poll is as if it had been the first. */
  lemma {:induction false} FailureRetried<T>(s: ManagerState<T>, l: Loader<T>, rejected: seq<Event>, later: Reads)
    requires forall e | e in rejected :: e.Poll? && LoadFrom(l, e.file.loaded).None?
    ensures Run(s, l, rejected) == s
    ensures Run(s, l, rejected + [Poll(later)]) == Polled(s, l, later)
  {
    assert (rejected + [Poll(later)])[..|rejected|] == rejected;
    if rejected != [] {
      var earlier, e := rejected[..|rejected| - 1], rejected[|rejected| - 1];
      assert e in rejected && forall x | x in earlier :: x in rejected;
      FailureRetried(s, l, earlier, e.file);
    }
  }

  /** When the file is replaced between the two reads: exactly when a manager that goes by some content
      stops doing so, because it remembers the digest of one file and runs another. */
  lemma TornReads<T>(s: ManagerState<T>, l: Loader<T>, content: Content, r: Reads)
    requires Injective(l) && Follows(s, l, content)
    ensures (exists c :: Follows(Polled(s, l, r), l, c))
       <==> !(Accepts(s, l, r) && LoadFrom(l, r.hashed) != LoadFrom(l, r.loaded))
  {
    var n := Polled(s, l, r);
    if Accepts(s, l, r) {
      if LoadFrom(l, r.hashed) == LoadFrom(l, r.loaded) {
        assert Follows(n, l, r.hashed.value);
      }
    } else {
      assert Follows(n, l, content);
    }
  }

  /** A loader that takes every file as it is, under a digest that tells all files apart. */
  function Verbatim(): Loader<Content> {
    Loader((c: Content) => "h" + seq(|c|, i requires 0 <= i < |c| => c[i] as char), (c: Content) => Some(c))
  }

  /** A manager of the empty file, and a poll that hashes one file and loads another. */
  lemma TornExample()
    ensures var l := Verbatim();
            var s := ManagerState([], l.hash([]), [], []);
            Follows(s, l, []) && !exists c :: Follows(Polled(s, l, Reads(Some([1]), Some([2]))), l, c)
  {
    var l := Verbatim();
    var s := ManagerState([], l.hash([]), [], []);
    assert |l.hash([1])| == 2 && |l.hash([])| == 1;
    assert l.hash([1])[1] == 1 as char && l.hash([2])[1] == 2 as char;
    var n := Polled(s, l, Reads(Some([1]), Some([2])));
    assert n.config == [2] && n.lastHash == l.hash([1]);
  }

  /** Whatever happened before, a later poll of a stable, loadable file puts the manager right, except
      when the file is back to what was hashed before and something else was loaded. */
  lemma StablePollSettles<T>(s: ManagerState<T>, l: Loader<T>, content: Content)
    requires l.load(content).Some?
    ensures Follows(Polled(s, l, Reads(Some(content), Some(content))), l, content)
       <==> l.hash(content) != s.lastHash || l.load(content) == Some(s.config)
  {
  }

  // ---------------------------------------------------------------- the component monitor

  datatype Orchestrator<T> = Orchestrator(config: T, cancelled: bool)

  /** `orchestratorCancel` cancels orchestrator `current`; `stopped` is the cancellation of the parent
      context, which cancels every orchestrator, also one started later. */
  datatype MonitorState<T> = MonitorState(orchestrators: seq<Orchestrator<T>>, current: nat, stopped: bool)

  function Launched<T>(config: T, stopped: bool): MonitorState<T> {
    MonitorState([Orchestrator(config, stopped)], 0, stopped)
  }

  /** The swap: a new orchestrator first, then the old one is cancelled; a failed start changes nothing. */
  function Swapped<T>(m: MonitorState<T>, config: T, starts: bool): MonitorState<T>
    requires m.current < |m.orchestrators|
  {
    if !starts then
      m
    else
      var cancelled := m.orchestrators[m.current].(cancelled := true);
      var started := Orchestrator(config, m.stopped);
      MonitorState(m.orchestrators[m.current := cancelled] + [started], |m.orchestrators|, m.stopped)
  }

  function AllCancelled<T>(orchestrators: seq<Orchestrator<T>>): (r: seq<Orchestrator<T>>)
    ensures |r| == |orchestrators|
    ensures forall i | 0 <= i < |r| :: r[i] == Orchestrator(orchestrators[i].config, true)
  {
    seq(|orchestrators|, i requires 0 <= i < |orchestrators| => Orchestrator(orchestrators[i].config, true))
  }

  /** The interrupt. */
  function Stopped<T>(m: MonitorState<T>): MonitorState<T> {
    MonitorState(AllCancelled(m.orchestrators), m.current, true)
  }

  class Monitor<T> {
    var orchestrators: seq<Orchestrator<T>>
    var current: nat
    var stopped: bool

    function State(): MonitorState<T>
      reads this
    {
      MonitorState(orchestrators, current, stopped)
    }

    constructor (config: T, stopped: bool)
      ensures State() == Launched(config, stopped)
    {
      orchestrators, current, this.stopped := [Orchestrator(config, stopped)], 0, stopped;
    }

    /** The closure `startOrchestrator`; `starts` says whether `startOrchestratorWithConfig` succeeds. */
    method StartOrchestrator(config: T, starts: bool)
      requires current < |orchestrators|
      modifies this
      ensures State() == Swapped(old(State()), config, starts)
    {
      if !starts {
        return;
      }
      var newest := |orchestrators|;
      orchestrators := orchestrators + [Orchestrator(config, stopped)];
      orchestrators := orchestrators[current := orchestrators[current].(cancelled := true)];
      current := newest;
    }
  }

  /** Until the interrupt exactly one orchestrator is uncancelled, the current one; after it, none is. */
  predicate Single<T>(m: MonitorState<T>) {
    && m.current < |m.orchestrators|
    && forall i | 0 <= i < |m.orchestrators| :: !m.orchestrators[i].cancelled <==> i == m.current && !m.stopped
  }

  /** The manager, the monitor once it is launched, whether its callback is registered, and whether the
      process has been interrupted. */
  datatype Process<T> = Process(manager: ManagerState<T>, monitor: Option<MonitorState<T>>,
                                listening: bool, stopped: bool)

  /** The watcher polls from the start; main launches, then registers; the interrupt can come at any time,
      and a poll that is under way then still ends. `starts` tells whether an orchestrator can be started
      at that moment. */
  datatype ProcessEvent = Watch(file: Reads, starts: bool) | Launch | Listen | Interrupt

  predicate Healthy<T>(p: Process<T>) {
    && (p.listening ==> p.monitor.Some?)
    && (p.monitor.Some? ==> Single(p.monitor.value) && p.monitor.value.stopped == p.stopped)
  }

  function ProcessStep<T>(p: Process<T>, l: Loader<T>, e: ProcessEvent): (n: Process<T>)
    requires Healthy(p)
    ensures Healthy(n)
  {
    match e
    case Watch(file, starts) =>
      var next := Polled(p.manager, l, file);
      // The callback runs right after the acceptance and reads the configuration again.
      if p.listening && Accepts(p.manager, l, file) then
        SwapKeepsSingle(p.monitor.value, next.config, starts);
        p.(manager := next, monitor := Some(Swapped(p.monitor.value, next.config, starts)))
      else
        p.(manager := next)
    case Launch =>
      if p.monitor.Some? then p else p.(monitor := Some(Launched(p.manager.config, p.stopped)))
    case Listen =>
      if p.monitor.None? then p else p.(listening := true)
    case Interrupt =>
      p.(monitor := if p.monitor.Some? then Some(Stopped(p.monitor.value)) else None, stopped := true)
  }

  lemma SwapKeepsSingle<T>(m: MonitorState<T>, config: T, starts: bool)
    requires Single(m)
    ensures Single(Swapped(m, config, starts)) && Swapped(m, config, starts).stopped == m.stopped
  {
  }

  /** After any run of the process, once it is launched, exactly one orchestrator is uncancelled until the
      interrupt, the current one, and none from then on. */
  function ProcessRun<T>(p: Process<T>, l: Loader<T>, events: seq<ProcessEvent>): (n: Process<T>)
    requires Healthy(p)
    ensures Healthy(n)
    ensures n.stopped <==> p.stopped || Interrupt in events
  {
    if events == [] then
      p
    else
      var before := ProcessRun(p, l, events[..|events| - 1]);
      assert events == events[..|events| - 1] + [events[|events| - 1]];
      ProcessStep(before, l, events[|events| - 1])
  }

  /** The configuration of the current orchestrator. */
  function RunningConfig<T>(p: Process<T>): T
    requires Healthy(p) && p.monitor.Some?
  {
    p.monitor.value.orchestrators[p.monitor.value.current].config
  }

  /** The process is up to date: what runs is what the manager holds. */
  predicate InStep<T(==)>(p: Process<T>)
    requires Healthy(p)
  {
    p.monitor.Some? ==> RunningConfig(p) == p.manager.config
  }

  /** A change that does not reach the orchestrator: accepted before the callback is registered, or
      while no orchestrator can be started. */
  predicate Missed<T>(p: Process<T>, l: Loader<T>, e: ProcessEvent) {
    e.Watch? && Accepts(p.manager, l, e.file) && (!p.listening || !e.starts)
  }

  /** Between two changes that reach it, what runs stays. */
  lemma KeepsRunning<T>(p: Process<T>, l: Loader<T>, e: ProcessEvent)
    requires Healthy(p) && p.monitor.Some?
    requires !(e.Watch? && p.listening && Accepts(p.manager, l, e.file) && e.starts)
    ensures ProcessStep(p, l, e).monitor.Some? && RunningConfig(ProcessStep(p, l, e)) == RunningConfig(p)
    ensures e.Watch? && Accepts(p.manager, l, e.file) ==> Missed(p, l, e)
  {
  }

  lemma StartsRunning<T>(p: Process<T>, l: Loader<T>, e: ProcessEvent)
    requires Healthy(p) && ProcessStep(p, l, e).monitor.Some?
    requires p.monitor.None? || (e.Watch? && p.listening && Accepts(p.manager, l, e.file) && e.starts)
    ensures RunningConfig(ProcessStep(p, l, e)) == ProcessStep(p, l, e).manager.config
  {
  }

  /** The running orchestrator has the configuration of some moment since its launch, and every change
      accepted since that moment was missed. */
  lemma {:induction false} RunningSince<T>(p: Process<T>, l: Loader<T>, events: seq<ProcessEvent>) returns (i: nat)
    requires Healthy(p) && p.monitor.None? && ProcessRun(p, l, events).monitor.Some?
    ensures i <= |events| && ProcessRun(p, l, events[..i]).monitor.Some?
    ensures RunningConfig(ProcessRun(p, l, events)) == ProcessRun(p, l, events[..i]).manager.config
    ensures forall j | i <= j < |events| && events[j].Watch?
                       && Accepts(ProcessRun(p, l, events[..j]).manager, l, events[j].file) ::
              Missed(ProcessRun(p, l, events[..j]), l, events[j])
  {
    hide ProcessStep, Missed, Accepts;
    var n := |events| - 1;
    var before, e := ProcessRun(p, l, events[..n]), events[n];
    assert events[..n + 1] == events;
    if before.monitor.None? || (e.Watch? && before.listening && Accepts(before.manager, l, e.file) && e.starts) {
      i := |events|;
      StartsRunning(before, l, e);
    } else {
      KeepsRunning(before, l, e);
      i := RunningSince(p, l, events[..n]);
      assert events[..n][..i] == events[..i];
      forall j | i <= j < |events| && events[j].Watch?
                 && Accepts(ProcessRun(p, l, events[..j]).manager, l, events[j].file)
        ensures Missed(ProcessRun(p, l, events[..j]), l, events[j])
      {
        if j < n {
          assert events[..n][..j] == events[..j];
        }
      }
    }
  }

  lemma NotLaunched<T>(p: Process<T>)
    requires Healthy(p) && p.monitor.None?
    ensures InStep(p)
  {
  }

  /** Exactly when a step takes the process out of step: a change is missed, and it is another configuration
      than the running one. */
  lemma LeavesStep<T>(p: Process<T>, l: Loader<T>, e: ProcessEvent)
    requires Healthy(p) && p.monitor.Some? && InStep(p)
    ensures InStep(ProcessStep(p, l, e)) <==>
            !(Missed(p, l, e) && LoadFrom(l, e.file.loaded) != Some(RunningConfig(p)))
  {
  }

  /** Exactly when a step brings it back: a change is accepted that reaches the orchestrator, or that goes
      back to the running configuration. */
  lemma ReturnsToStep<T>(p: Process<T>, l: Loader<T>, e: ProcessEvent)
    requires Healthy(p) && p.monitor.Some? && !InStep(p)
    ensures InStep(ProcessStep(p, l, e)) <==>
            && e.Watch? && Accepts(p.manager, l, e.file)
            && ((p.listening && e.starts) || LoadFrom(l, e.file.loaded) == Some(RunningConfig(p)))
  {
  }

  /** A launch starts in step. */
  lemma LaunchInStep<T>(p: Process<T>, l: Loader<T>, e: ProcessEvent)
    requires Healthy(p) && p.monitor.None?
    ensures InStep(ProcessStep(p, l, e))
  {
  }

  /** So what runs is what the manager holds, unless a change was missed. */
  lemma {:induction false} InStepUnlessMissed<T>(p: Process<T>, l: Loader<T>, events: seq<ProcessEvent>)
    requires Healthy(p) && p.monitor.None?
    requires forall j | 0 <= j < |events| && ProcessRun(p, l, events[..j]).monitor.Some? ::
               !Missed(ProcessRun(p, l, events[..j]), l, events[j])
    ensures InStep(ProcessRun(p, l, events))
  {
    hide ProcessStep, Missed, InStep;
    assert InStep(p) by { NotLaunched(p); }
    if events != [] {
      var n := |events| - 1;
      forall j | 0 <= j < n && ProcessRun(p, l, events[..n][..j]).monitor.Some?
        ensures !Missed(ProcessRun(p, l, events[..n][..j]), l, events[..n][j])
      {
        assert events[..n][..j] == events[..j];
      }
      InStepUnlessMissed(p, l, events[..n]);
      var before := ProcessRun(p, l, events[..n]);
      if before.monitor.None? {
        LaunchInStep(before, l, events[n]);
      } else {
        LeavesStep(before, l, events[n]);
      }
    }
  }

  /** A change accepted between the launch and the registration is missed: the monitor goes on with the
      old configuration until the file changes again. */
  lemma UpdateMissed<T>(p: Process<T>, l: Loader<T>, file: Reads, starts: bool)
    requires Healthy(p) && p.monitor.None?
    requires Accepts(p.manager, l, file) && LoadFrom(l, file.loaded) != Some(p.manager.config)
    ensures var n := ProcessStep(ProcessStep(ProcessStep(p, l, Launch), l, Watch(file, starts)), l, Listen);
            n.listening && !InStep(n)
  {
  }
}
