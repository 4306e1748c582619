/** How many requests can slip into a cooldown: the crawl of Scheduler, with the requests that its goroutines
    make through the shared limiter (internal/fetcher/github.go, doRequestWithHeaders).

    A goroutine makes one request at a time: the dispatcher while it fetches a page, a worker while it
    fetches its repository. */
module Herd {
  import opened RateLimiter
  import opened Scheduler

  // Between requests, let through by Wait, or waiting for the answer.
  datatype Request = Idle | Passed(resource: string) | Awaiting(resource: string)

  datatype Who = TheDispatcher | TheWorker(i: nat)

  datatype Crowd = Crowd(now: Instant, states: States, run: State, dispatcher: Request, workers: seq<Request>)

  datatype Event =
    | Tick(to: Instant)
    | Pass(who: Who, resource: string)
    | Send(who: Who, resource: string)
    | Drop(who: Who)                               // the request could not be built
    | Receive(who: Who)
    | Cooldown(resource: string, until: Instant)
    | Advance(a: Action)

  function Start(now: Instant): Crowd { Crowd(now, NEW_STATES, Init(), Idle, []) }

  function RequestOf(s: Crowd, who: Who): Request {
    match who
    case TheDispatcher => s.dispatcher
    case TheWorker(i) => if i < |s.workers| then s.workers[i] else Idle
  }

  function SetRequest(s: Crowd, who: Who, q: Request): Crowd {
    match who
    case TheDispatcher => s.(dispatcher := q)
    case TheWorker(i) => if i < |s.workers| then s.(workers := s.workers[i := q]) else s
  }

  predicate Fetches(s: Crowd, who: Who) {
    match who
    case TheDispatcher => s.run.pc.FetchPage?
    case TheWorker(i) => i < |s.run.workers| && s.run.workers[i].phase.Fetching?
  }

  predicate InCooldown(s: Crowd, r: string) { s.now < Lookup(s.states, r).blockedUntil }

  // A fetch ends only when its request has ended.
  predicate Settled(s: Crowd, a: Action) {
    match a
    case Work(i, FetchOk) => RequestOf(s, TheWorker(i)).Idle?
    case Work(i, FetchErr(_)) => RequestOf(s, TheWorker(i)).Idle?
    case Dispatch(PageArrives) => s.dispatcher.Idle?
    case Dispatch(PageFails(_)) => s.dispatcher.Idle?
    case _ => true
  }

  predicate Possible(c: Crawl, s: Crowd, e: Event) {
    match e
    case Tick(to) => s.now <= to
    case Pass(who, r) => Fetches(s, who) && RequestOf(s, who).Idle? && !InCooldown(s, r)
    case Send(who, r) => RequestOf(s, who) == Passed(r)
    case Drop(who) => RequestOf(s, who).Passed?
    case Receive(who) => RequestOf(s, who).Awaiting?
    case Cooldown(_, _) => true
    case Advance(a) => Enabled(c, s.run, a) && Settled(s, a)
  }

  function Next(c: Crawl, s: Crowd, e: Event): Crowd
    requires Possible(c, s, e)
  {
    match e
    case Tick(to) => s.(now := to)
    case Pass(who, r) => SetRequest(s, who, Passed(r))
    case Send(who, r) => SetRequest(s, who, Awaiting(r))
    case Drop(who) => SetRequest(s, who, Idle)
    case Receive(who) => SetRequest(s, who, Idle)
    case Cooldown(r, until) => s.(states := Apply(s.states, Call(r, until, s.now)))
    case Advance(a) =>
      s.(run := Step(c, s.run, a),
         workers := if a == Dispatch(SpawnWorker) then s.workers + [Idle] else s.workers)
  }

  predicate History(c: Crawl, s: Crowd, events: seq<Event>, s': Crowd)
    decreases |events|
  {
    if events == [] then s' == s
    else Possible(c, s, events[0]) && History(c, Next(c, s, events[0]), events[1..], s')
  }

  // Every event but the last state falls into a cooldown of r, extended or not.
  predicate Cooling(c: Crawl, s: Crowd, events: seq<Event>, r: string)
    decreases |events|
  {
    events == [] || (InCooldown(s, r) && Possible(c, s, events[0]) && Cooling(c, Next(c, s, events[0]), events[1..], r))
  }

  // Requests sent on r by one goroutine, and by all of them.
  function SentBy(events: seq<Event>, r: string, who: Who): nat {
    if events == [] then 0 else Bit(events[0] == Send(who, r)) + SentBy(events[1..], r, who)
  }

  function Sent(events: seq<Event>, r: string): nat {
    if events == [] then 0 else Bit(events[0].Send? && events[0].resource == r) + Sent(events[1..], r)
  }

  // The goroutines that Wait has let through on r.
  function CountPassed(requests: seq<Request>, r: string): nat {
    if requests == [] then 0 else Bit(requests[0] == Passed(r)) + CountPassed(requests[1..], r)
  }

  function AllPassed(s: Crowd, r: string): nat {
    CountPassed(s.workers, r) + Bit(s.dispatcher == Passed(r))
  }

  // ---- requests belong to fetching goroutines --------------------------------------------------------

  predicate Owned(dispatcher: Request, workers: seq<Request>, run: State) {
    && |workers| == |run.workers|
    && (!dispatcher.Idle? ==> run.pc.FetchPage?)
    && (forall i | 0 <= i < |workers| && !workers[i].Idle? :: run.workers[i].phase.Fetching?)
  }

  ghost predicate CrowdInv(c: Crawl, s: Crowd) {
    Inv(c, s.run) && Owned(s.dispatcher, s.workers, s.run)
  }

  lemma OwnedWorkerStep(s: Crowd, i: nat, w: WorkerAction)
    requires Owned(s.dispatcher, s.workers, s.run) && WorkerEnabled(s.run, i, w) && Settled(s, Work(i, w))
    ensures Owned(s.dispatcher, s.workers, WorkerStep(s.run, i, w))
  {
    WorkerStepPool(s.run, i, w);
    assert s.workers[i].Idle?;
    hide WorkerStep;
  }

  lemma OwnedDispatcherStep(c: Crawl, s: Crowd, d: DispatcherAction)
    requires Owned(s.dispatcher, s.workers, s.run) && DispatcherEnabled(c, s.run, d) && Settled(s, Dispatch(d))
    ensures Owned(s.dispatcher, if d.SpawnWorker? then s.workers + [Idle] else s.workers, DispatcherStep(c, s.run, d))
  {
    hide PageAt;
    if !d.SpawnWorker? {
      DispatcherKeepsPool(c, s.run, d);
    }
  }

  lemma OwnedSet(s: Crowd, who: Who, q: Request)
    requires Owned(s.dispatcher, s.workers, s.run) && (q.Idle? || Fetches(s, who))
    ensures var s' := SetRequest(s, who, q); Owned(s'.dispatcher, s'.workers, s'.run)
  {
  }

  lemma OwnedAdvance(c: Crawl, s: Crowd, a: Action)
    requires Owned(s.dispatcher, s.workers, s.run) && Possible(c, s, Advance(a))
    ensures var s' := Next(c, s, Advance(a)); Owned(s'.dispatcher, s'.workers, s'.run)
  {
    hide WorkerStep, DispatcherStep, WorkerEnabled, DispatcherEnabled, Settled;
    match a
    case Work(i, w) => OwnedWorkerStep(s, i, w);
    case Dispatch(d) => OwnedDispatcherStep(c, s, d);
    case _ =>
  }

  lemma CrowdInvNext(c: Crawl, s: Crowd, e: Event)
    requires CrowdInv(c, s) && Possible(c, s, e)
    ensures CrowdInv(c, Next(c, s, e))
  {
    hide Inv, Step, Enabled, Lookup;
    match e
    case Pass(who, r) => OwnedSet(s, who, Passed(r));
    case Send(who, r) => OwnedSet(s, who, Awaiting(r));
    case Drop(who) => OwnedSet(s, who, Idle);
    case Receive(who) => OwnedSet(s, who, Idle);
    case Advance(a) =>
      InvStep(c, s.run, a);
      OwnedAdvance(c, s, a);
    case _ =>
  }

  lemma {:induction false} CrowdInvHistory(c: Crawl, s: Crowd, events: seq<Event>, s': Crowd)
    requires CrowdInv(c, s) && History(c, s, events, s')
    ensures CrowdInv(c, s')
    decreases |events|
  {
    if events != [] {
      CrowdInvNext(c, s, events[0]);
      hide CrowdInv, Next;
      CrowdInvHistory(c, Next(c, s, events[0]), events[1..], s');
    }
  }

  // A goroutine that has been let through is a worker with a slot, or the dispatcher.
  lemma {:induction false} PassedHoldSlots(requests: seq<Request>, ws: seq<Worker>, r: string)
    requires |requests| == |ws|
    requires forall i | 0 <= i < |ws| && !requests[i].Idle? :: ws[i].phase.Fetching?
    ensures CountPassed(requests, r) <= |Select(ws, Holding)|
    decreases |ws|
  {
    if ws != [] {
      assert forall i | 0 <= i < |ws[1..]| :: ws[1..][i] == ws[i + 1] && requests[1..][i] == requests[i + 1];
      PassedHoldSlots(requests[1..], ws[1..], r);
    }
  }

  lemma PassedBound(c: Crawl, s: Crowd, r: string)
    requires CrowdInv(c, s)
    ensures AllPassed(s, r) <= c.cfg.parallelism + 1
  {
    PassedHoldSlots(s.workers, s.run.workers, r);
    hide Select, CountPassed, Progress, Store;
  }

  // ---- the bound ---------------------------------------------------------------------------------------

  lemma {:induction false} CountPassedUpdate(requests: seq<Request>, i: nat, q: Request, r: string)
    requires i < |requests|
    ensures CountPassed(requests[i := q], r) + Bit(requests[i] == Passed(r))
         == CountPassed(requests, r) + Bit(q == Passed(r))
  {
    if i == 0 {
      assert requests[i := q][1..] == requests[1..];
    } else {
      assert requests[i := q][1..] == requests[1..][i - 1 := q];
      CountPassedUpdate(requests[1..], i - 1, q, r);
    }
  }

  lemma {:induction false} CountPassedSnoc(requests: seq<Request>, r: string)
    ensures CountPassed(requests + [Idle], r) == CountPassed(requests, r)
  {
    if requests != [] {
      assert (requests + [Idle])[1..] == requests[1..] + [Idle];
      CountPassedSnoc(requests[1..], r);
    } else {
      assert ([] + [Idle])[1..] == [];
    }
  }

  lemma SetRequestCounts(s: Crowd, who: Who, q: Request, r: string)
    requires who.TheWorker? ==> who.i < |s.workers|
    ensures AllPassed(SetRequest(s, who, q), r) + Bit(RequestOf(s, who) == Passed(r))
         == AllPassed(s, r) + Bit(q == Passed(r))
  {
    if who.TheWorker? {
      CountPassedUpdate(s.workers, who.i, q, r);
    }
  }

  // During a cooldown each request sent uses up a goroutine that has been let through.
  lemma SentUsesUp(c: Crawl, s: Crowd, e: Event, r: string)
    requires Possible(c, s, e) && InCooldown(s, r) && |s.workers| == |s.run.workers|
    ensures Bit(e.Send? && e.resource == r) + AllPassed(Next(c, s, e), r) <= AllPassed(s, r)
  {
    hide CountPassed, Step, Enabled, Lookup;
    match e
    case Pass(who, p) => SetRequestCounts(s, who, Passed(p), r);
    case Send(who, p) => SetRequestCounts(s, who, Awaiting(p), r);
    case Drop(who) => SetRequestCounts(s, who, Idle, r);
    case Receive(who) => SetRequestCounts(s, who, Idle, r);
    case Advance(a) => CountPassedSnoc(s.workers, r);
    case _ =>
  }

  lemma {:induction false} SentAtMostPassed(c: Crawl, s: Crowd, events: seq<Event>, s': Crowd, r: string)
    requires CrowdInv(c, s) && History(c, s, events, s') && Cooling(c, s, events, r)
    ensures Sent(events, r) + AllPassed(s', r) <= AllPassed(s, r)
    decreases |events|
  {
    if events != [] {
      SentUsesUp(c, s, events[0], r);
      CrowdInvNext(c, s, events[0]);
      hide Next, Possible, InCooldown, AllPassed;
      SentAtMostPassed(c, Next(c, s, events[0]), events[1..], s', r);
    }
  }

  /** From any reachable state on, for as long as a resource stays in cooldown, the requests sent on it are
      at most the goroutines that Wait had let through before, and never more than Parallelism + 1, however
      many workers end and are replaced meanwhile. */
  lemma HerdBound(c: Crawl, now: Instant, before: seq<Event>, s: Crowd, events: seq<Event>, s': Crowd, r: string)
    requires History(c, Start(now), before, s) && History(c, s, events, s') && Cooling(c, s, events, r)
    ensures Sent(events, r) + AllPassed(s', r) <= AllPassed(s, r) <= c.cfg.parallelism + 1
  {
    InvInit(c);
    hide Inv;
    CrowdInvHistory(c, Start(now), before, s);
    PassedBound(c, s, r);
    SentAtMostPassed(c, s, events, s', r);
  }

  /** Goroutine by goroutine: one request if Wait had let it through before the cooldown, else none; a
      worker that starts during the cooldown sends none. */
  lemma {:induction false} OneRequestEach(c: Crawl, s: Crowd, events: seq<Event>, r: string, who: Who)
    requires Cooling(c, s, events, r)
    ensures SentBy(events, r, who) <= (if RequestOf(s, who) == Passed(r) then 1 else 0)
    decreases |events|
  {
    if events != [] {
      hide Step, Enabled, Lookup;
      OneRequestEach(c, Next(c, s, events[0]), events[1..], r, who);
    }
  }

  // Time and deadlines only move forward.
  lemma NextMonotone(c: Crawl, s: Crowd, e: Event, r: string)
    requires Possible(c, s, e)
    ensures s.now <= Next(c, s, e).now
    ensures Lookup(s.states, r).blockedUntil <= Lookup(Next(c, s, e).states, r).blockedUntil
  {
    hide Step, Enabled;
  }

  lemma {:induction false} HistoryMonotone(c: Crawl, s: Crowd, events: seq<Event>, s': Crowd, r: string)
    requires History(c, s, events, s')
    ensures s.now <= s'.now
    ensures Lookup(s.states, r).blockedUntil <= Lookup(s'.states, r).blockedUntil
    decreases |events|
  {
    if events != [] {
      NextMonotone(c, s, events[0], r);
      hide Next, Possible;
      HistoryMonotone(c, Next(c, s, events[0]), events[1..], s', r);
    }
  }

  /** A resource stays in cooldown at least up to the deadline it has. */
  lemma {:induction false} CooldownLasts(c: Crawl, s: Crowd, events: seq<Event>, s': Crowd, r: string)
    requires History(c, s, events, s') && s'.now < Lookup(s.states, r).blockedUntil
    ensures Cooling(c, s, events, r)
    decreases |events|
  {
    if events != [] {
      NextMonotone(c, s, events[0], r);
      HistoryMonotone(c, s, events, s', r);
      hide Next, Possible, Lookup;
      CooldownLasts(c, Next(c, s, events[0]), events[1..], s', r);
    }
  }

  // ---- the bound is reached -----------------------------------------------------------------------------

  lemma HistoryCons(c: Crawl, s: Crowd, e: Event, events: seq<Event>, s': Crowd)
    requires Possible(c, s, e) && History(c, Next(c, s, e), events, s')
    ensures History(c, s, [e] + events, s')
  {
    assert ([e] + events)[1..] == events;
  }

  lemma {:induction false} HistoryAppend(c: Crawl, s: Crowd, a: seq<Event>, s': Crowd, b: seq<Event>, s'': Crowd)
    requires History(c, s, a, s') && History(c, s', b, s'')
    ensures History(c, s, a + b, s'')
    decreases |a|
  {
    hide Next, Possible;
    if a == [] {
      assert a + b == b;
    } else {
      assert (a + b)[1..] == a[1..] + b;
      HistoryAppend(c, Next(c, s, a[0]), a[1..], s', b, s'');
    }
  }

  lemma {:induction false} SomePassed(requests: seq<Request>, r: string)
    ensures CountPassed(requests, r) > 0 <==> exists i | 0 <= i < |requests| :: requests[i] == Passed(r)
  {
    if requests != [] {
      SomePassed(requests[1..], r);
      assert forall i | 0 <= i < |requests[1..]| :: requests[1..][i] == requests[i + 1];
      assert forall i | 1 <= i < |requests| :: requests[i] == requests[1..][i - 1];
    }
  }

  /** Nothing but the limiter holds a goroutine back: one that fetches may ask for any resource that is not in
      cooldown, and one that has been let through may send or give up. */
  lemma GoroutinesMayMove(c: Crawl, s: Crowd, who: Who, r: string)
    ensures Fetches(s, who) && RequestOf(s, who).Idle? && s.now >= Lookup(s.states, r).blockedUntil ==>
      Possible(c, s, Pass(who, r))
    ensures RequestOf(s, who) == Passed(r) ==> Possible(c, s, Send(who, r)) && Possible(c, s, Drop(who))
    ensures RequestOf(s, who) == Awaiting(r) ==> Possible(c, s, Receive(who))
  {
  }

  /** In every state all goroutines that have been let through can still send, cooldown or not. */
  lemma {:induction false} HerdBoundIsTight(c: Crawl, s: Crowd, r: string) returns (events: seq<Event>, s': Crowd)
    ensures History(c, s, events, s') && s'.now == s.now && Sent(events, r) == AllPassed(s, r)
    decreases AllPassed(s, r)
  {
    hide CountPassed;
    if AllPassed(s, r) == 0 {
      events, s' := [], s;
    } else {
      SomePassed(s.workers, r);
      var who: Who;
      if s.dispatcher == Passed(r) {
        who := TheDispatcher;
      } else {
        var i :| 0 <= i < |s.workers| && s.workers[i] == Passed(r);
        who := TheWorker(i);
      }
      SetRequestCounts(s, who, Awaiting(r), r);
      var rest;
      rest, s' := HerdBoundIsTight(c, SetRequest(s, who, Awaiting(r)), r);
      HistoryCons(c, s, Send(who, r), rest, s');
      events := [Send(who, r)] + rest;
      assert events[1..] == rest;
    }
  }

  const REPO := Repo("", false)

  // n slots, one page of n repositories.
  function Wide(n: nat): Crawl { Crawl(Config(false, 0, false, n), [seq(n, _ => REPO)]) }

  // k of them have been dispatched, and every worker is fetching.
  function Filled(k: nat, pc: Pc): State {
    Init().(pc := pc, sem := k, workers := seq(k, _ => Worker(REPO, Fetching)))
  }

  lemma DispatchOne(n: nat, k: nat) returns (acts: seq<Action>)
    requires k < n
    ensures Run(Wide(n), Filled(k, RepoHead(1, k)), acts, Filled(k + 1, RepoHead(1, k + 1)))
  {
    var c, done := Wide(n), Filled(k + 1, RepoHead(1, k + 1));
    assert DispatcherStep(c, Filled(k, Spawn(1, k)).(sem := k + 1), SpawnWorker) == done by {
      assert seq(k, _ => Worker(REPO, Fetching)) + [Worker(REPO, Fetching)] == seq(k + 1, _ => Worker(REPO, Fetching));
    }
    RunCons(c, Filled(k, Spawn(1, k)).(sem := k + 1), Dispatch(SpawnWorker), [], done);
    acts := [Dispatch(SpawnWorker)] + [];
    RunCons(c, Filled(k, AcquireSlot(1, k)), Dispatch(TakeSlot), acts, done);
    acts := [Dispatch(TakeSlot)] + acts;
    RunCons(c, Filled(k, RepoHead(1, k)), Dispatch(RepoCheck), acts, done);
    acts := [Dispatch(RepoCheck)] + acts;
  }

  lemma {:induction false} FillPool(n: nat, k: nat) returns (acts: seq<Action>)
    requires 1 <= n && k <= n
    ensures Run(Wide(n), Init(), acts, Filled(k, RepoHead(1, k)))
    decreases k
  {
    var c := Wide(n);
    if k == 0 {
      assert Filled(0, RepoHead(1, 0)) == Init().(pc := RepoHead(1, 0));
      RunSnoc(c, Init(), [], Init(), Dispatch(LoopCheck));
      RunSnoc(c, Init(), [] + [Dispatch(LoopCheck)], Init().(pc := FetchPage(1)), Dispatch(PageArrives));
      acts := [] + [Dispatch(LoopCheck)] + [Dispatch(PageArrives)];
    } else {
      var most := FillPool(n, k - 1);
      var last := DispatchOne(n, k - 1);
      hide Run, Filled;
      RunAppend(c, Init(), most, Filled(k - 1, RepoHead(1, k - 1)), last, Filled(k, RepoHead(1, k)));
      acts := most + last;
    }
  }

  // Every slot is taken by a fetching worker, and the dispatcher fetches the next page.
  lemma FullPool(n: nat) returns (acts: seq<Action>)
    requires 1 <= n
    ensures Run(Wide(n), Init(), acts, Filled(n, FetchPage(2)))
  {
    var c := Wide(n);
    acts := FillPool(n, n);
    RunSnoc(c, Init(), acts, Filled(n, RepoHead(1, n)), Dispatch(RepoCheck));
    acts := acts + [Dispatch(RepoCheck)];
    RunSnoc(c, Init(), acts, Filled(n, LoopHead(2)), Dispatch(LoopCheck));
    acts := acts + [Dispatch(LoopCheck)];
  }

  function Silent(now: Instant, run: State): Crowd {
    Crowd(now, NEW_STATES, run, Idle, seq(|run.workers|, _ => Idle))
  }

  // A run of the scheduler alone is a history in which nobody makes a request.
  lemma {:induction false} Lift(c: Crawl, now: Instant, run: State, acts: seq<Action>, run': State)
    returns (events: seq<Event>)
    requires Run(c, run, acts, run')
    ensures History(c, Silent(now, run), events, Silent(now, run'))
    decreases |acts|
  {
    if acts == [] {
      events := [];
    } else {
      var s := Silent(now, run);
      var rest := Lift(c, now, Step(c, run, acts[0]), acts[1..], run');
      LiftStep(c, now, run, acts[0]);
      hide Step, Silent;
      HistoryCons(c, s, Advance(acts[0]), rest, Silent(now, run'));
      events := [Advance(acts[0])] + rest;
    }
  }

  lemma LiftStep(c: Crawl, now: Instant, run: State, a: Action)
    requires Enabled(c, run, a)
    ensures Possible(c, Silent(now, run), Advance(a))
    ensures Next(c, Silent(now, run), Advance(a)) == Silent(now, Step(c, run, a))
  {
    var run' := Step(c, run, a);
    match a
    case Work(i, w) => WorkerStepPool(run, i, w);
    case Dispatch(d) =>
      if d.SpawnWorker? {
        assert seq(|run.workers|, _ => Idle) + [Idle] == seq(|run'.workers|, _ => Idle);
      } else {
        DispatcherKeepsPool(c, run, d);
      }
    case _ =>
  }

  // Wait lets the first k workers through.
  lemma {:induction false} PassWorkers(c: Crawl, s: Crowd, r: string, k: nat) returns (events: seq<Event>)
    requires k <= |s.workers| == |s.run.workers| && !InCooldown(s, r)
    requires forall i | 0 <= i < |s.workers| :: s.run.workers[i].phase.Fetching?
    requires forall i | 0 <= i < |s.workers| :: s.workers[i] == if i < k then Idle else Passed(r)
    ensures History(c, s, events, s.(workers := seq(|s.workers|, _ => Passed(r))))
    decreases k
  {
    var all := seq(|s.workers|, _ => Passed(r));
    if k == 0 {
      assert s.workers == all;
      events := [];
    } else {
      var s1 := SetRequest(s, TheWorker(k - 1), Passed(r));
      var rest := PassWorkers(c, s1, r, k - 1);
      HistoryCons(c, s, Pass(TheWorker(k - 1), r), rest, s.(workers := all));
      events := [Pass(TheWorker(k - 1), r)] + rest;
    }
  }

  lemma {:induction false} CountAllPassed(n: nat, r: string)
    ensures CountPassed(seq(n, _ => Passed(r)), r) == n
  {
    if n > 0 {
      assert seq(n, _ => Passed(r))[1..] == seq(n - 1, _ => Passed(r));
      CountAllPassed(n - 1, r);
    }
  }

  // A reachable state at the start of a cooldown in which n workers and the dispatcher have been let through.
  lemma CrowdGathers(n: nat, r: string) returns (events: seq<Event>, s: Crowd)
    requires 1 <= n
    ensures History(Wide(n), Start(0), events, s) && InCooldown(s, r) && AllPassed(s, r) == n + 1
  {
    var c := Wide(n);
    var acts := FullPool(n);
    var s0 := Silent(0, Filled(n, FetchPage(2)));
    var fill := Lift(c, 0, Init(), acts, Filled(n, FetchPage(2)));
    assert Start(0) == Silent(0, Init());
    var pass := PassWorkers(c, s0, r, n);
    var s1 := s0.(workers := seq(n, _ => Passed(r)));
    var s2 := s1.(dispatcher := Passed(r));
    s := s2.(states := Apply(s2.states, Call(r, 1, 0)));
    CountAllPassed(n, r);
    hide Wide, Silent, Filled, Run, CountPassed;
    HistoryCons(c, s2, Cooldown(r, 1), [], s);
    HistoryCons(c, s1, Pass(TheDispatcher, r), [Cooldown(r, 1)] + [], s);
    var last := [Pass(TheDispatcher, r)] + ([Cooldown(r, 1)] + []);
    HistoryAppend(c, s0, pass, s1, last, s);
    HistoryAppend(c, Start(0), fill, s0, pass + last, s);
    events := fill + (pass + last);
  }

  /** Parallelism + 1 is the best bound: with any number of slots some crawl reaches a cooldown into which
      that many requests are sent. */
  lemma HerdBoundIsReached(n: nat, r: string)
    returns (before: seq<Event>, s: Crowd, events: seq<Event>, s': Crowd)
    requires 1 <= n
    ensures History(Wide(n), Start(0), before, s) && History(Wide(n), s, events, s') && Cooling(Wide(n), s, events, r)
    ensures InCooldown(s, r) && Sent(events, r) == Wide(n).cfg.parallelism + 1
  {
    before, s := CrowdGathers(n, r);
    hide History, AllPassed, Sent;
    events, s' := HerdBoundIsTight(Wide(n), s, r);
    CooldownLasts(Wide(n), s, events, s', r);
  }
}
