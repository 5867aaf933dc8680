/** cmd/dashboard/external_page_handler.go: the page cache under concurrent calls of Get. Every thread
    is a program counter; an action is one atomic step of one thread, or the passing of time. An action
    that is not enabled, such as taking a lock that is held, changes nothing. */
module PageCache {
  import opened Base

  type Body = seq<bv8>

  datatype Result = Served(body: Body) | Failed

  /** Where a call of `Get` stands. `since` is the number of stores made when it was called. */
  datatype Phase =
    | Calling(since: nat)
    | Checking(since: nat)               // holds the read lock
    | Upgrading(since: nat)
    | Rechecking(since: nat)             // holds the write lock, as do the next three
    | Fetching(since: nat)
    | Storing(since: nat, fetched: Body)
    | Stamping(since: nat)
    | Returned(since: nat, result: Result)

  datatype Stored = Stored(at: Time, body: Body)

  /** The cache's fields, its lock, its threads, the clock, and the history of fetches and stores. */
  datatype State = State(
    content: Body,
    fetchedAt: Time,
    readers: set<nat>,
    writer: Option<nat>,
    threads: map<nat, Phase>,
    now: Time,
    fetched: seq<Body>,
    stores: seq<Stored>)

  function Start(now: Time): State {
    State([], 0, {}, None, map[], now, [], [])
  }

  datatype Action =
    | Tick(elapsed: nat)
    | Call(t: nat)
    | LockRead(t: nat)
    | Check(t: nat)
    | LockWrite(t: nat)
    | Recheck(t: nat)
    | Fetch(t: nat, answer: Option<Body>) // the source's answer, `None` for a failed fetch
    | StoreContent(t: nat)
    | Stamp(t: nat)

  predicate Fresh(s: State, ttl: int) {
    s.content != [] && s.now - s.fetchedAt < ttl
  }

  function Moved(s: State, t: nat, phase: Phase): State {
    s.(threads := s.threads[t := phase])
  }

  function Next(s: State, a: Action, ttl: int): State {
    match a
    case Tick(elapsed) =>
      s.(now := s.now + elapsed)
    case Call(t) =>
      if t in s.threads && !s.threads[t].Returned? then s else Moved(s, t, Calling(|s.stores|))
    case LockRead(t) =>
      if t in s.threads && s.threads[t].Calling? && s.writer.None? then
        Moved(s, t, Checking(s.threads[t].since)).(readers := s.readers + {t})
      else s
    case Check(t) =>
      if t in s.threads && s.threads[t].Checking? then
        var since := s.threads[t].since;
        Moved(s, t, if Fresh(s, ttl) then Returned(since, Served(s.content)) else Upgrading(since))
          .(readers := s.readers - {t})
      else s
    case LockWrite(t) =>
      if t in s.threads && s.threads[t].Upgrading? && s.writer.None? && s.readers == {} then
        Moved(s, t, Rechecking(s.threads[t].since)).(writer := Some(t))
      else s
    case Recheck(t) =>
      if t in s.threads && s.threads[t].Rechecking? then
        var since := s.threads[t].since;
        if Fresh(s, ttl) then Moved(s, t, Returned(since, Served(s.content))).(writer := None)
        else Moved(s, t, Fetching(since))
      else s
    case Fetch(t, answer) =>
      if t in s.threads && s.threads[t].Fetching? then
        var since := s.threads[t].since;
        match answer
        case Some(body) => Moved(s, t, Storing(since, body)).(fetched := s.fetched + [body])
        case None =>
          Moved(s, t, Returned(since, if s.content != [] then Served(s.content) else Failed)).(writer := None)
      else s
    case StoreContent(t) =>
      if t in s.threads && s.threads[t].Storing? then
        Moved(s, t, Stamping(s.threads[t].since)).(content := s.threads[t].fetched)
      else s
    case Stamp(t) =>
      if t in s.threads && s.threads[t].Stamping? then
        Moved(s, t, Returned(s.threads[t].since, Served(s.content)))
          .(fetchedAt := s.now, stores := s.stores + [Stored(s.now, s.content)], writer := None)
      else s
  }

  function Run(s: State, actions: seq<Action>, ttl: int): State {
    if actions == [] then s else Next(Run(s, actions[..|actions| - 1], ttl), actions[|actions| - 1], ttl)
  }

  // ---------------------------------------------------------------- invariant

  predicate Holds(phase: Phase) {
    phase.Rechecking? || phase.Fetching? || phase.Storing? || phase.Stamping?
  }

  predicate Locked(s: State) {
    && (forall t | t in s.threads :: Holds(s.threads[t]) <==> s.writer == Some(t))
    && s.readers == (set t | t in s.threads && s.threads[t].Checking?)
    && (s.writer.Some? ==> s.writer.value in s.threads && s.readers == {})
  }

  /** The writer is between the two assignments of a store. */
  predicate MidStore(s: State) {
    s.writer.Some? && s.writer.value in s.threads && s.threads[s.writer.value].Stamping?
  }

  /** Otherwise the fields are those of the last store. */
  predicate Cached(s: State) {
    if MidStore(s) then
      s.content in s.fetched
    else if s.stores == [] then
      s.content == []
    else
      var last := s.stores[|s.stores| - 1];
      s.content == last.body && s.fetchedAt == last.at
  }

  /** A store made now or later keeps its distance from the last one. */
  predicate Due(s: State, ttl: int) {
    s.stores != [] && s.stores[|s.stores| - 1].body != [] ==> s.now >= s.stores[|s.stores| - 1].at + ttl
  }

  /** The writer has found the cache stale for the second time. */
  predicate Committed(s: State) {
    s.writer.Some? && s.writer.value in s.threads && !s.threads[s.writer.value].Rechecking?
  }

  predicate Spaced(stores: seq<Stored>, ttl: int) {
    forall i | 0 < i < |stores| && stores[i - 1].body != [] :: stores[i].at >= stores[i - 1].at + ttl
  }

  /** Stores are spaced, and a committed writer may store. */
  predicate Timely(s: State, ttl: int) {
    Spaced(s.stores, ttl) && (Committed(s) ==> Due(s, ttl))
  }

  predicate Recorded(s: State) {
    && (forall i | 0 <= i < |s.stores| :: s.stores[i].body in s.fetched)
    && (s.stores != [] ==> s.stores[|s.stores| - 1].at <= s.now)
    && (forall t | t in s.threads && s.threads[t].Storing? :: s.threads[t].fetched in s.fetched)
  }

  /** The body was stored, and the last store before the call began is not younger. */
  predicate Current(s: State, since: nat, body: Body) {
    exists k :: 0 <= k < |s.stores| && since <= k + 1 && s.stores[k].body == body
  }

  predicate Answered(s: State) {
    forall t | t in s.threads ::
      && s.threads[t].since <= |s.stores|
      && (s.threads[t].Returned? && s.threads[t].result.Served? ==>
            Current(s, s.threads[t].since, s.threads[t].result.body))
  }

  predicate Inv(s: State, ttl: int) {
    && Locked(s) && Cached(s) && Recorded(s) && Answered(s)
    && Timely(s, ttl)
  }

  lemma StartInv(now: Time, ttl: int)
    ensures Inv(Start(now), ttl)
  {
  }

  lemma NextLocked(s: State, a: Action, ttl: int)
    requires Locked(s)
    ensures Locked(Next(s, a, ttl))
  {
    hide Fresh;
  }

  lemma NextCached(s: State, a: Action, ttl: int)
    requires Inv(s, ttl)
    ensures Cached(Next(s, a, ttl))
  {
    hide Answered, Current, Spaced, Due;
  }

  lemma StampRecorded(s: State, t: nat, ttl: int)
    requires Locked(s) && Cached(s) && Recorded(s)
    ensures Recorded(Next(s, Stamp(t), ttl))
  {
  }

  lemma FetchRecorded(s: State, t: nat, answer: Option<Body>, ttl: int)
    requires Recorded(s)
    ensures Recorded(Next(s, Fetch(t, answer), ttl))
  {
    assert s.fetched <= Next(s, Fetch(t, answer), ttl).fetched;
  }

  lemma OtherRecorded(s: State, a: Action, ttl: int)
    requires Recorded(s) && !a.Stamp? && !a.Fetch?
    ensures Recorded(Next(s, a, ttl))
  {
    hide Fresh;
  }

  lemma NextRecorded(s: State, a: Action, ttl: int)
    requires Inv(s, ttl)
    ensures Recorded(Next(s, a, ttl))
  {
    hide Next, Recorded, Locked, Cached, Answered;
    match a
    case Stamp(t) => StampRecorded(s, t, ttl);
    case Fetch(t, answer) => FetchRecorded(s, t, answer, ttl);
    case _ => OtherRecorded(s, a, ttl);
  }

  /** Whoever looks at the fields under a lock sees the last store. */
  lemma SeenIsLast(s: State, t: nat)
    requires Locked(s) && Cached(s) && s.content != []
    requires t in s.threads && (s.threads[t].Checking? || s.threads[t].Rechecking? || s.threads[t].Fetching?)
    ensures s.stores != [] && s.content == s.stores[|s.stores| - 1].body && s.fetchedAt == s.stores[|s.stores| - 1].at
  {
    if s.threads[t].Checking? {
      assert t in s.readers;
    }
  }

  lemma CurrentKept(s: State, n: State, since: nat, body: Body)
    requires Current(s, since, body) && s.stores <= n.stores
    ensures Current(n, since, body)
  {
    var k :| 0 <= k < |s.stores| && since <= k + 1 && s.stores[k].body == body;
    assert n.stores[k].body == body;
  }

  lemma LastIsCurrent(s: State, since: nat)
    requires s.stores != [] && since <= |s.stores|
    ensures Current(s, since, s.stores[|s.stores| - 1].body)
  {
  }

  /** How a thread comes to have an answer. */
  lemma Answering(s: State, a: Action, ttl: int, t: nat)
    ensures var n := Next(s, a, ttl);
            && s.stores <= n.stores
            && (t in n.threads && !(t in s.threads && n.threads[t] == s.threads[t]) && n.threads[t].Returned? ==>
                  && t in s.threads && n.threads[t].since == s.threads[t].since
                  && if s.threads[t].Stamping? then
                       n.threads[t].result == Served(s.content) && n.stores == s.stores + [Stored(s.now, s.content)]
                     else
                       && (s.threads[t].Checking? || s.threads[t].Rechecking? || s.threads[t].Fetching?)
                       && n.stores == s.stores
                       && (|| n.threads[t].result == Failed
                           || (n.threads[t].result == Served(s.content) && s.content != [])))
            && (t in n.threads ==>
                  || n.threads[t].since <= |s.stores|
                  || (t in s.threads && n.threads[t].since == s.threads[t].since))
  {
  }

  lemma AnsweredOne(s: State, a: Action, ttl: int, t: nat)
    requires Inv(s, ttl) && t in Next(s, a, ttl).threads
    ensures var n := Next(s, a, ttl);
            && n.threads[t].since <= |n.stores|
            && (n.threads[t].Returned? && n.threads[t].result.Served? ==>
                  Current(n, n.threads[t].since, n.threads[t].result.body))
  {
    var n := Next(s, a, ttl);
    Answering(s, a, ttl, t);
    hide Next, Current, Spaced, Due, Recorded, MidStore;
    if n.threads[t].Returned? && n.threads[t].result.Served? {
      var body := n.threads[t].result.body;
      if t in s.threads && s.threads[t] == n.threads[t] {
        CurrentKept(s, n, n.threads[t].since, body);
      } else if s.threads[t].Stamping? {
        LastIsCurrent(n, n.threads[t].since);
      } else {
        SeenIsLast(s, t);
        LastIsCurrent(s, n.threads[t].since);
        CurrentKept(s, n, n.threads[t].since, body);
      }
    }
  }

  lemma NextAnswered(s: State, a: Action, ttl: int)
    requires Inv(s, ttl)
    ensures Answered(Next(s, a, ttl))
  {
    var n := Next(s, a, ttl);
    hide Next, Inv, Current;
    forall t | t in n.threads
      ensures n.threads[t].since <= |n.stores|
      ensures n.threads[t].Returned? && n.threads[t].result.Served? ==>
                Current(n, n.threads[t].since, n.threads[t].result.body)
    {
      AnsweredOne(s, a, ttl, t);
    }
  }

  lemma RecheckTimely(s: State, t: nat, ttl: int)
    requires Locked(s) && Cached(s) && Recorded(s) && Timely(s, ttl)
    ensures Timely(Next(s, Recheck(t), ttl), ttl)
  {
    if s.content != [] && t in s.threads && s.threads[t].Rechecking? {
      SeenIsLast(s, t);
    }
  }

  lemma StampTimely(s: State, t: nat, ttl: int)
    requires Locked(s) && Recorded(s) && Timely(s, ttl)
    ensures Timely(Next(s, Stamp(t), ttl), ttl)
  {
  }

  lemma OtherTimely(s: State, a: Action, ttl: int)
    requires Locked(s) && Timely(s, ttl) && !a.Recheck? && !a.Stamp?
    ensures Timely(Next(s, a, ttl), ttl)
  {
    hide Fresh, Spaced;
  }

  lemma NextTimely(s: State, a: Action, ttl: int)
    requires Inv(s, ttl)
    ensures Timely(Next(s, a, ttl), ttl)
  {
    hide Next, Timely, Locked, Cached, Recorded, Answered;
    match a
    case Recheck(t) => RecheckTimely(s, t, ttl);
    case Stamp(t) => StampTimely(s, t, ttl);
    case _ => OtherTimely(s, a, ttl);
  }

  lemma {:induction false} RunInv(now: Time, actions: seq<Action>, ttl: int)
    ensures Inv(Run(Start(now), actions, ttl), ttl)
  {
    hide Next;
    if actions == [] {
      StartInv(now, ttl);
    } else {
      var s, a := Run(Start(now), actions[..|actions| - 1], ttl), actions[|actions| - 1];
      RunInv(now, actions[..|actions| - 1], ttl);
      NextLocked(s, a, ttl);
      NextCached(s, a, ttl);
      NextRecorded(s, a, ttl);
      NextAnswered(s, a, ttl);
      NextTimely(s, a, ttl);
    }
  }

  // ---------------------------------------------------------------- what callers may rely on

  /** After any interleaving: a store follows a non-empty one no sooner than the time to live; fetches
      exclude each other; and what a call returned was fetched successfully and is at least as recent as
      the last store before the call. */
  lemma CacheGuarantees(now: Time, actions: seq<Action>, ttl: int)
    ensures var s := Run(Start(now), actions, ttl);
            && Spaced(s.stores, ttl)
            && (forall t, u | t in s.threads && u in s.threads && Holds(s.threads[t]) && Holds(s.threads[u]) :: t == u)
            && (forall t | t in s.threads && s.threads[t].Returned? && s.threads[t].result.Served? ::
                  && s.threads[t].result.body in s.fetched
                  && Current(s, s.threads[t].since, s.threads[t].result.body))
  {
    RunInv(now, actions, ttl);
    var s := Run(Start(now), actions, ttl);
    hide Run, Spaced, Due, MidStore;
    forall t | t in s.threads && s.threads[t].Returned? && s.threads[t].result.Served?
      ensures s.threads[t].result.body in s.fetched
    {
      var k :| 0 <= k < |s.stores| && s.threads[t].since <= k + 1 && s.stores[k].body == s.threads[t].result.body;
    }
  }

  /** A call starts to fail exactly when its own fetch fails while nothing non-empty is cached. */
  lemma FailureStep(s: State, a: Action, ttl: int, t: nat)
    requires t in s.threads && !s.threads[t].Returned?
    ensures var n := Next(s, a, ttl);
            n.threads[t].Returned? && n.threads[t].result == Failed
            <==> a == Fetch(t, None) && s.threads[t].Fetching? && s.content == []
  {
  }

  lemma AnswerKept(s: State, a: Action, ttl: int, t: nat)
    requires t in Next(s, a, ttl).threads && Next(s, a, ttl).threads[t].Returned?
    ensures t in s.threads
    ensures s.threads[t].Returned? ==> s.threads[t] == Next(s, a, ttl).threads[t]
  {
  }

  /** So every failed call of a run goes back to a fetch of its own that failed when the last store, if
      any, had stored an empty page. */
  lemma {:induction false} FailureExplained(now: Time, actions: seq<Action>, ttl: int, t: nat) returns (i: nat)
    requires var s := Run(Start(now), actions, ttl);
             t in s.threads && s.threads[t].Returned? && s.threads[t].result == Failed
    ensures i < |actions| && actions[i] == Fetch(t, None)
    ensures var s := Run(Start(now), actions[..i], ttl);
            && t in s.threads && s.threads[t].Fetching?
            && (s.stores == [] || s.stores[|s.stores| - 1].body == [])
  {
    hide Next;
    var n := |actions| - 1;
    var s := Run(Start(now), actions[..n], ttl);
    AnswerKept(s, actions[n], ttl, t);
    if s.threads[t].Returned? {
      i := FailureExplained(now, actions[..n], ttl, t);
      assert actions[..n][..i] == actions[..i];
    } else {
      i := n;
      FailureStep(s, actions[n], ttl, t);
      RunInv(now, actions[..n], ttl);
      LockedFields(s, ttl, t);
    }
  }

  lemma LockedFields(s: State, ttl: int, t: nat)
    requires Inv(s, ttl) && t in s.threads && s.threads[t].Fetching? && s.content == []
    ensures s.stores == [] || s.stores[|s.stores| - 1].body == []
  {
  }

  /** The call is answered by the last store: its own, or one younger than the time to live at the call's
      check, or, if its own fetch failed, one of any age. */
  predicate AnsweredBy(s: State, a: Action, ttl: int, t: nat, body: Body) {
    var n := Next(s, a, ttl);
    && n.stores != []
    && var last := n.stores[|n.stores| - 1];
    && last.body == body
    && (|| (a == Stamp(t) && last.at == s.now)
        || ((a == Check(t) || a == Recheck(t)) && s.now - last.at < ttl)
        || a == Fetch(t, None))
  }

  lemma AnswerStep(s: State, a: Action, ttl: int, t: nat)
    requires Inv(s, ttl) && t in s.threads && !s.threads[t].Returned?
    ensures var n := Next(s, a, ttl);
            n.threads[t].Returned? && n.threads[t].result.Served? ==> AnsweredBy(s, a, ttl, t, n.threads[t].result.body)
  {
    hide Answered, Recorded, Timely;
    var n := Next(s, a, ttl);
    if n.threads[t].Returned? && n.threads[t].result.Served? && !a.Stamp? {
      Answering(s, a, ttl, t);
      SeenIsLast(s, t);
      hide Locked, Cached;
    }
  }

  /** What bounds the age of an answer: every answered call of a run goes back to a step of its own at which the
      body was the last one stored, and younger than the time to live unless the call's fetch had failed. */
  lemma {:induction false} AnswerExplained(now: Time, actions: seq<Action>, ttl: int, t: nat) returns (i: nat)
    requires var s := Run(Start(now), actions, ttl);
             t in s.threads && s.threads[t].Returned? && s.threads[t].result.Served?
    ensures i < |actions|
    ensures AnsweredBy(Run(Start(now), actions[..i], ttl), actions[i], ttl, t,
                       Run(Start(now), actions, ttl).threads[t].result.body)
  {
    hide Next, AnsweredBy;
    var n := |actions| - 1;
    var s := Run(Start(now), actions[..n], ttl);
    AnswerKept(s, actions[n], ttl, t);
    if s.threads[t].Returned? {
      i := AnswerExplained(now, actions[..n], ttl, t);
      assert actions[..n][..i] == actions[..i];
    } else {
      i := n;
      RunInv(now, actions[..n], ttl);
      AnswerStep(s, actions[n], ttl, t);
    }
  }

  // ---------------------------------------------------------------- the code of Get

  /** What one call meets: the clock at its two checks and at its store, and the source's answer. */
  datatype Circumstances = Circumstances(first: Time, second: Time, answer: Option<Body>, third: Time)

  /** Fields and result after a call that no other disturbs. */
  function Got(content: Body, fetchedAt: Time, ttl: int, e: Circumstances): (Body, Time, Result) {
    if content != [] && (e.first - fetchedAt < ttl || e.second - fetchedAt < ttl) then
      (content, fetchedAt, Served(content))
    else
      match e.answer
      case Some(body) => (body, e.third, Served(body))
      case None => (content, fetchedAt, if content != [] then Served(content) else Failed)
  }

  class ExternalPageCache {
    const ttl: int
    var content: Body
    var fetchedAt: Time

    constructor (ttl: int)
      ensures this.ttl == ttl && content == [] && fetchedAt == 0
    {
      this.ttl, content, fetchedAt := ttl, [], 0;
    }

    method Get(e: Circumstances) returns (r: Result)
      modifies this
      ensures (content, fetchedAt, r) == Got(old(content), old(fetchedAt), ttl, e)
    {
      if |content| > 0 && e.first - fetchedAt < ttl {
        return Served(content);
      }
      if |content| > 0 && e.second - fetchedAt < ttl {
        return Served(content);
      }
      if e.answer.None? {
        if |content| > 0 {
          return Served(content);
        }
        return Failed;
      }
      content := e.answer.value;
      fetchedAt := e.third;
      r := Served(content);
    }
  }

  /** The actions of one call without any other in between; those that no longer apply do nothing. */
  function Looking(s: State, t: nat, ttl: int): State {
    Next(Next(Next(s, Call(t), ttl), LockRead(t), ttl), Check(t), ttl)
  }

  function LookingAgain(s: State, t: nat, elapsed: nat, ttl: int): State {
    Next(Next(Next(s, LockWrite(t), ttl), Tick(elapsed), ttl), Recheck(t), ttl)
  }

  function Refreshing(s: State, t: nat, answer: Option<Body>, elapsed: nat, ttl: int): State {
    Next(Next(Next(Next(s, Fetch(t, answer), ttl), Tick(elapsed), ttl), StoreContent(t), ttl), Stamp(t), ttl)
  }

  predicate Unlocked(s: State) {
    s.writer.None? && s.readers == {}
  }

  /** The thread is where `phase` says, with the fields as they were. */
  predicate Stands(s: State, n: State, t: nat, phase: Phase) {
    t in n.threads && n.threads[t] == phase && n.content == s.content && n.fetchedAt == s.fetchedAt
  }

  lemma LookingAlone(s: State, t: nat, ttl: int)
    requires Unlocked(s) && (t in s.threads ==> s.threads[t].Returned?)
    ensures var n, since := Looking(s, t, ttl), |s.stores|;
            && Stands(s, n, t, if Fresh(s, ttl) then Returned(since, Served(s.content)) else Upgrading(since))
            && Unlocked(n) && n.now == s.now
  {
    var called := Next(Next(s, Call(t), ttl), LockRead(t), ttl);
    assert called.threads[t] == Checking(|s.stores|) && called.readers - {t} == {};
  }

  lemma LookingAgainAlone(s: State, t: nat, elapsed: nat, ttl: int)
    requires Unlocked(s) && t in s.threads && (s.threads[t].Upgrading? || s.threads[t].Returned?)
    ensures var n, phase := LookingAgain(s, t, elapsed, ttl), s.threads[t];
            && n.now == s.now + elapsed
            && if phase.Returned? then
                 Stands(s, n, t, phase) && Unlocked(n)
               else if Fresh(s.(now := n.now), ttl) then
                 Stands(s, n, t, Returned(phase.since, Served(s.content))) && Unlocked(n)
               else
                 Stands(s, n, t, Fetching(phase.since)) && n.readers == {} && n.writer == Some(t)
  {
  }

  lemma RefreshingAlone(s: State, t: nat, answer: Option<Body>, elapsed: nat, ttl: int)
    requires t in s.threads && s.readers == {}
    requires (s.threads[t].Returned? && s.writer.None?) || (s.threads[t].Fetching? && s.writer == Some(t))
    ensures var n, phase := Refreshing(s, t, answer, elapsed, ttl), s.threads[t];
            && Unlocked(n) && t in n.threads
            && if phase.Returned? then
                 Stands(s, n, t, phase)
               else if answer.None? then
                 Stands(s, n, t, Returned(phase.since, if s.content != [] then Served(s.content) else Failed))
               else
                 && n.threads[t] == Returned(phase.since, Served(answer.value))
                 && n.content == answer.value && n.fetchedAt == s.now + elapsed
  {
  }

  /** The steps of the machine, taken by one thread in a row, are the code of `Get`. */
  lemma AloneIsGet(s: State, t: nat, e: Circumstances, ttl: int)
    requires s.now == e.first <= e.second <= e.third
    requires Unlocked(s) && (t in s.threads ==> s.threads[t].Returned?)
    ensures var looked := LookingAgain(Looking(s, t, ttl), t, e.second - e.first, ttl);
            var n := Refreshing(looked, t, e.answer, e.third - e.second, ttl);
            && Unlocked(n) && t in n.threads && n.threads[t].Returned?
            && (n.content, n.fetchedAt, n.threads[t].result) == Got(s.content, s.fetchedAt, ttl, e)
  {
    hide Next, Looking, LookingAgain, Refreshing;
    LookingAlone(s, t, ttl);
    var looked := Looking(s, t, ttl);
    LookingAgainAlone(looked, t, e.second - e.first, ttl);
    RefreshingAlone(LookingAgain(looked, t, e.second - e.first, ttl), t, e.answer, e.third - e.second, ttl);
  }
}
