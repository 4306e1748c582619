/** The crawl scheduler `App.Run` (internal/runner/app.go): one dispatcher, a bounded
    worker pool, an errgroup and two cancellation signals.

    Every atomic action of a goroutine is one labelled step; `Run` relates a state to each state
    that some interleaving of such steps reaches. Fetches, imports and signals are the
    environment: their results are the labels' arguments. */
module Scheduler {
  import opened Options

  // What a context's Err() reports once it is done.
  datatype CtxErr = Canceled | DeadlineExceeded

  datatype Repo = Repo(fullName: string, archived: bool)

  datatype Config = Config(debug: bool, maxDebugRepos: int, skipArchived: bool, parallelism: nat)

  // The configuration and what the organisation's repository listing answers, page by page.
  // Pages after the last one are empty; an empty page may also stand in the middle.
  datatype Crawl = Crawl(cfg: Config, pages: seq<seq<Repo>>)

  datatype Outcome = Imported | ImportFailed | Skipped | Interrupted

  // A worker holds its semaphore slot until it is Released; it leaves the errgroup at Finished.
  datatype Phase =
    | Fetching
    | Importing
    | Releasing(outcome: Outcome)
    | Released(outcome: Outcome)
    | Finished(outcome: Outcome)

  datatype Worker = Worker(repo: Repo, phase: Phase)

  datatype Result = Nil | PageError | SlotError(err: CtxErr) | ImportError(worker: nat)

  // The dispatcher's program counter; pages are numbered from 1, positions from 0.
  datatype Pc =
    | LoopHead(page: nat)
    | FetchPage(page: nat)
    | RepoHead(page: nat, pos: nat)
    | CheckLimit(page: nat, pos: nat)
    | AcquireSlot(page: nat, pos: nat)
    | Spawn(page: nat, pos: nat)
    | Join
    | Returned(result: Result)

  datatype State = State(
    pc: Pc,
    debugCount: int,
    sem: nat,
    workers: seq<Worker>,       // in dispatch order
    repoIndex: nat,
    skipped: nat,
    graceful: bool,
    shutdown: Option<CtxErr>,   // shutdownCtx
    group: Option<CtxErr>,      // groupCtx: done by processingCtx or by the first group error
    groupErr: Option<nat>,      // the worker whose error the errgroup kept
    written: multiset<Repo>)    // what the writer has stored

  datatype DispatcherAction =
    | LoopCheck | PageArrives | PageFails(canceled: bool) | RepoCheck | LimitCheck
    | TakeSlot | SlotShutdown | SlotGroup | SpawnWorker | JoinWorkers

  datatype WorkerAction =
    | FetchOk | FetchErr(interrupted: bool) | ImportDone(ok: bool) | ReleaseSlot | Finish

  datatype Action =
    | Dispatch(d: DispatcherAction)
    | Work(i: nat, w: WorkerAction)
    | ShutdownSignal(err: CtxErr)
    | CancelProcessing(err: CtxErr)

  // ---- the step relation -------------------------------------------------------------------

  function PageAt(c: Crawl, page: nat): seq<Repo> {
    if 1 <= page <= |c.pages| then c.pages[page - 1] else []
  }

  function Init(): State {
    State(LoopHead(1), 0, 0, [], 0, 0, false, None, None, None, multiset{})
  }

  predicate AtRepo(c: Crawl, page: nat, pos: nat) {
    pos < |PageAt(c, page)|
  }

  predicate DispatcherEnabled(c: Crawl, s: State, d: DispatcherAction) {
    match d
    case LoopCheck => s.pc.LoopHead?
    case PageArrives => s.pc.FetchPage?
    case PageFails(_) => s.pc.FetchPage?
    case RepoCheck => s.pc.RepoHead?
    case LimitCheck => s.pc.CheckLimit?
    case TakeSlot => s.pc.AcquireSlot? && s.sem < c.cfg.parallelism
    case SlotShutdown => s.pc.AcquireSlot? && s.shutdown.Some?
    case SlotGroup => s.pc.AcquireSlot? && s.group.Some?
    case SpawnWorker => s.pc.Spawn? && AtRepo(c, s.pc.page, s.pc.pos)
    case JoinWorkers => s.pc.Join? && forall i | 0 <= i < |s.workers| :: s.workers[i].phase.Finished?
  }

  predicate WorkerEnabled(s: State, i: nat, w: WorkerAction) {
    i < |s.workers| &&
    match w
    case FetchOk => s.workers[i].phase.Fetching?
    case FetchErr(_) => s.workers[i].phase.Fetching?
    case ImportDone(_) => s.workers[i].phase.Importing?
    case ReleaseSlot => s.workers[i].phase.Releasing? && s.sem > 0
    case Finish => s.workers[i].phase.Released?
  }

  predicate Enabled(c: Crawl, s: State, a: Action) {
    match a
    case Dispatch(d) => DispatcherEnabled(c, s, d)
    case Work(i, w) => WorkerEnabled(s, i, w)
    case ShutdownSignal(_) => s.shutdown.None?
    case CancelProcessing(_) => s.group.None?
  }

  function SetPhase(s: State, i: nat, p: Phase): State
    requires i < |s.workers|
  {
    s.(workers := s.workers[i := s.workers[i].(phase := p)])
  }

  // Leaving the page loop because of the shutdown signal.
  function StopGracefully(s: State): State {
    s.(graceful := true, pc := Join)
  }

  // acquireWorkerSlot returned err: undo the debug reservation, then stop or give up.
  function SlotFailed(c: Crawl, s: State, err: CtxErr): State {
    var s' := if c.cfg.debug then s.(debugCount := s.debugCount - 1) else s;
    if err == Canceled && s.shutdown.Some? then StopGracefully(s')
    else s'.(pc := Returned(SlotError(err)))
  }

  function RepoStep(c: Crawl, s: State, page: nat, pos: nat): State {
    if pos >= |PageAt(c, page)| then s.(pc := LoopHead(page + 1))
    else if s.shutdown.Some? then StopGracefully(s)
    else if c.cfg.skipArchived && PageAt(c, page)[pos].archived then s.(pc := RepoHead(page, pos + 1))
    else if c.cfg.debug then s.(debugCount := s.debugCount + 1, pc := CheckLimit(page, pos))
    else s.(pc := AcquireSlot(page, pos))
  }

  function FinishWorker(s: State, i: nat): State
    requires i < |s.workers| && s.workers[i].phase.Released?
  {
    var o := s.workers[i].phase.outcome;
    var s' := SetPhase(s, i, Finished(o));
    if o.ImportFailed? && s.groupErr.None? then
      s'.(groupErr := Some(i), group := if s.group.None? then Some(Canceled) else s.group)
    else s'
  }

  function DispatcherStep(c: Crawl, s: State, d: DispatcherAction): State
    requires DispatcherEnabled(c, s, d)
  {
    match d
    case LoopCheck =>
      if s.shutdown.Some? then StopGracefully(s) else s.(pc := FetchPage(s.pc.page))
    case PageArrives =>
      if PageAt(c, s.pc.page) == [] then s.(pc := Join) else s.(pc := RepoHead(s.pc.page, 0))
    case PageFails(canceled) =>
      if canceled && s.shutdown.Some? then StopGracefully(s) else s.(pc := Returned(PageError))
    case RepoCheck => RepoStep(c, s, s.pc.page, s.pc.pos)
    case LimitCheck =>
      if s.debugCount > c.cfg.maxDebugRepos then s.(debugCount := s.debugCount - 1, pc := Join)
      else s.(pc := AcquireSlot(s.pc.page, s.pc.pos))
    case TakeSlot => s.(sem := s.sem + 1, pc := Spawn(s.pc.page, s.pc.pos))
    case SlotShutdown => SlotFailed(c, s, s.shutdown.value)
    case SlotGroup => SlotFailed(c, s, s.group.value)
    case SpawnWorker =>
      s.(workers := s.workers + [Worker(PageAt(c, s.pc.page)[s.pc.pos], Fetching)],
         pc := RepoHead(s.pc.page, s.pc.pos + 1))
    case JoinWorkers =>
      s.(pc := Returned(if s.groupErr.Some? then ImportError(s.groupErr.value) else Nil))
  }

  function WorkerStep(s: State, i: nat, w: WorkerAction): State
    requires WorkerEnabled(s, i, w)
  {
    match w
    case FetchOk => SetPhase(s, i, Importing).(repoIndex := s.repoIndex + 1)
    case FetchErr(interrupted) =>
      if interrupted && s.shutdown.Some? then SetPhase(s, i, Releasing(Interrupted)).(graceful := true)
      else SetPhase(s, i, Releasing(Skipped)).(skipped := s.skipped + 1)
    case ImportDone(ok) =>
      if ok then SetPhase(s, i, Releasing(Imported)).(written := s.written + multiset{s.workers[i].repo})
      else SetPhase(s, i, Releasing(ImportFailed))
    case ReleaseSlot =>
      SetPhase(s, i, Released(s.workers[i].phase.outcome)).(sem := s.sem - 1)
    case Finish => FinishWorker(s, i)
  }

  function Step(c: Crawl, s: State, a: Action): State
    requires Enabled(c, s, a)
  {
    match a
    case Dispatch(d) => DispatcherStep(c, s, d)
    case Work(i, w) => WorkerStep(s, i, w)
    case ShutdownSignal(err) => s.(shutdown := Some(err))
    case CancelProcessing(err) => s.(group := Some(err))
  }

  // `s'` is reached from `s` by the actions `acts`, in that order.
  predicate Run(c: Crawl, s: State, acts: seq<Action>, s': State)
    decreases |acts|
  {
    if acts == [] then s' == s
    else Enabled(c, s, acts[0]) && Run(c, Step(c, s, acts[0]), acts[1..], s')
  }

  // ---- the sequential specification ----------------------------------------------------------

  // The repositories of the pages before the first empty one.
  function Listed(pages: seq<seq<Repo>>): seq<Repo> {
    if pages == [] || pages[0] == [] then [] else pages[0] + Listed(pages[1..])
  }

  predicate IsWanted(cfg: Config, r: Repo) {
    !(cfg.skipArchived && r.archived)
  }

  function Wanted(cfg: Config, rs: seq<Repo>): seq<Repo> {
    if rs == [] then []
    else (if IsWanted(cfg, rs[0]) then [rs[0]] else []) + Wanted(cfg, rs[1..])
  }

  function Limit(cfg: Config): nat {
    if cfg.maxDebugRepos < 0 then 0 else cfg.maxDebugRepos
  }

  // Flatten the pages, drop archived repositories, take the debug limit.
  function Plan(c: Crawl): seq<Repo> {
    var all := Wanted(c.cfg, Listed(c.pages));
    if c.cfg.debug && Limit(c.cfg) < |all| then all[..Limit(c.cfg)] else all
  }

  // What has been dispatched so far.
  function Dispatched(ws: seq<Worker>): seq<Repo> {
    seq(|ws|, i requires 0 <= i < |ws| => ws[i].repo)
  }

  // ---- dispatch order ------------------------------------------------------------------------

  // The listing from page `page` on.
  function Tail(c: Crawl, page: nat): seq<seq<Repo>> {
    if 1 <= page <= |c.pages| + 1 then c.pages[page - 1..] else []
  }

  // What the dispatcher has still to look at when it stands at position pos of page `page`.
  function Rest(c: Crawl, page: nat, pos: nat): seq<Repo> {
    (if pos <= |PageAt(c, page)| then PageAt(c, page)[pos..] else []) + Listed(Tail(c, page + 1))
  }

  predicate Reserved(pc: Pc) {
    pc.CheckLimit? || pc.AcquireSlot? || pc.Spawn?
  }

  // Having dispatched `done`, the dispatcher has still `todo` of the listing to look at.
  ghost predicate OnTrack(c: Crawl, done: seq<Repo>, todo: seq<Repo>) {
    done + Wanted(c.cfg, todo) == Wanted(c.cfg, Listed(c.pages))
  }

  ghost predicate Position(c: Crawl, s: State) {
    var done := Dispatched(s.workers);
    match s.pc
    case LoopHead(page) => 1 <= page <= |c.pages| + 1 && OnTrack(c, done, Listed(Tail(c, page)))
    case FetchPage(page) => 1 <= page <= |c.pages| + 1 && OnTrack(c, done, Listed(Tail(c, page)))
    case RepoHead(page, pos) =>
      1 <= page <= |c.pages| && pos <= |PageAt(c, page)| && OnTrack(c, done, Rest(c, page, pos))
    case Join => done <= Plan(c) && (s.graceful || done == Plan(c))
    case Returned(r) => done <= Plan(c) && (r.Nil? || r.ImportError? ==> s.graceful || done == Plan(c))
    case _ =>
      1 <= s.pc.page <= |c.pages| && s.pc.pos < |PageAt(c, s.pc.page)|
      && IsWanted(c.cfg, PageAt(c, s.pc.page)[s.pc.pos])
      && OnTrack(c, done, Rest(c, s.pc.page, s.pc.pos))
  }

  ghost predicate Reservation(c: Crawl, s: State) {
    && s.debugCount == (if c.cfg.debug then |s.workers| + (if Reserved(s.pc) then 1 else 0) else 0)
    && (s.pc.CheckLimit? ==> c.cfg.debug)
    && (c.cfg.debug ==> |s.workers| <= Limit(c.cfg))
    && (c.cfg.debug && (s.pc.AcquireSlot? || s.pc.Spawn?) ==> |s.workers| < Limit(c.cfg))
  }

  ghost predicate Progress(c: Crawl, s: State) {
    Position(c, s) && Reservation(c, s)
  }

  // A dispatched prefix that fits the limit is a prefix of the plan, and all of it when nothing is
  // left or the limit is reached.
  lemma PrefixOfPlan(c: Crawl, done: seq<Repo>, todo: seq<Repo>)
    requires OnTrack(c, done, todo)
    requires c.cfg.debug ==> |done| <= Limit(c.cfg)
    ensures done <= Plan(c)
    ensures todo == [] || (c.cfg.debug && |done| == Limit(c.cfg)) ==> done == Plan(c)
  {
    var all := done + Wanted(c.cfg, todo);
    assert all[..|done|] == done;
  }

  lemma PassRepo(c: Crawl, done: seq<Repo>, page: nat, pos: nat)
    requires 1 <= page <= |c.pages| && pos < |PageAt(c, page)| && OnTrack(c, done, Rest(c, page, pos))
    ensures var r := PageAt(c, page)[pos];
      OnTrack(c, if IsWanted(c.cfg, r) then done + [r] else done, Rest(c, page, pos + 1))
  {
    var r, rest := PageAt(c, page)[pos], Rest(c, page, pos + 1);
    assert Rest(c, page, pos) == [r] + rest by {
      assert PageAt(c, page)[pos..] == [r] + PageAt(c, page)[pos + 1..];
    }
    assert Wanted(c.cfg, [r] + rest)
        == (if IsWanted(c.cfg, r) then [r] else []) + Wanted(c.cfg, rest) by {
      assert ([r] + rest)[1..] == rest;
    }
    hide Wanted, Rest;
    if IsWanted(c.cfg, r) {
      assert done + ([r] + Wanted(c.cfg, rest)) == done + [r] + Wanted(c.cfg, rest);
    } else {
      assert [] + Wanted(c.cfg, rest) == Wanted(c.cfg, rest);
    }
  }

  lemma ProgressSlotFailed(c: Crawl, s: State, err: CtxErr)
    requires Progress(c, s) && s.pc.AcquireSlot?
    ensures Progress(c, SlotFailed(c, s, err))
  {
    PrefixOfPlan(c, Dispatched(s.workers), Rest(c, s.pc.page, s.pc.pos));
    hide OnTrack, Plan, Rest, Dispatched;
  }

  lemma ProgressLimit(c: Crawl, s: State)
    requires Progress(c, s) && s.pc.CheckLimit?
    ensures Progress(c, DispatcherStep(c, s, LimitCheck))
  {
    if s.debugCount > c.cfg.maxDebugRepos {
      PrefixOfPlan(c, Dispatched(s.workers), Rest(c, s.pc.page, s.pc.pos));
    }
    hide OnTrack, Plan, Rest, Dispatched;
  }

  lemma ProgressSpawn(c: Crawl, s: State)
    requires Progress(c, s) && DispatcherEnabled(c, s, SpawnWorker)
    ensures Progress(c, DispatcherStep(c, s, SpawnWorker))
  {
    hide OnTrack, Rest, Plan;
    PassRepo(c, Dispatched(s.workers), s.pc.page, s.pc.pos);
    assert Dispatched(DispatcherStep(c, s, SpawnWorker).workers)
        == Dispatched(s.workers) + [PageAt(c, s.pc.page)[s.pc.pos]];
  }

  lemma ProgressOnPage(c: Crawl, s: State, d: DispatcherAction)
    requires Progress(c, s) && DispatcherEnabled(c, s, d)
    requires d.LoopCheck? || d.PageArrives? || d.PageFails?
    ensures Progress(c, DispatcherStep(c, s, d))
  {
    var page := s.pc.page;
    PrefixOfPlan(c, Dispatched(s.workers), Listed(Tail(c, page)));
    if d.PageArrives? {
      ListedTail(c, page);
    }
    hide OnTrack, Plan, Listed, Rest, Dispatched;
  }

  lemma ListedTail(c: Crawl, page: nat)
    requires 1 <= page <= |c.pages| + 1
    ensures Listed(Tail(c, page)) == if PageAt(c, page) == [] then [] else Rest(c, page, 0)
  {
    if page <= |c.pages| {
      assert Tail(c, page)[1..] == Tail(c, page + 1);
    }
  }

  lemma ProgressAtRepo(c: Crawl, s: State)
    requires Progress(c, s) && s.pc.RepoHead?
    ensures Progress(c, DispatcherStep(c, s, RepoCheck))
  {
    hide OnTrack, Listed, Plan;
    var page, pos := s.pc.page, s.pc.pos;
    if pos >= |PageAt(c, page)| {
      assert Rest(c, page, pos) == Listed(Tail(c, page + 1));
    } else if s.shutdown.Some? {
      PrefixOfPlan(c, Dispatched(s.workers), Rest(c, page, pos));
      assert DispatcherStep(c, s, RepoCheck) == StopGracefully(s);
    } else {
      hide Rest;
      PassRepo(c, Dispatched(s.workers), page, pos);
    }
  }

  // A worker step changes the phase of worker i and none of the dispatcher's variables.
  lemma WorkerStepPool(s: State, i: nat, w: WorkerAction)
    requires WorkerEnabled(s, i, w)
    ensures var s' := WorkerStep(s, i, w);
      && |s'.workers| == |s.workers| && s'.pc == s.pc && s'.debugCount == s.debugCount
      && (s.graceful ==> s'.graceful) && s'.shutdown == s.shutdown
      && s'.workers == s.workers[i := s.workers[i].(phase := s'.workers[i].phase)]
      && Dispatched(s'.workers) == Dispatched(s.workers)
  {
  }

  lemma ProgressWorker(c: Crawl, s: State, i: nat, w: WorkerAction)
    requires Progress(c, s) && WorkerEnabled(s, i, w)
    ensures Progress(c, WorkerStep(s, i, w))
  {
    hide WorkerStep, Dispatched, OnTrack, Listed, Plan, Rest;
    WorkerStepPool(s, i, w);
  }

  lemma ProgressDispatcher(c: Crawl, s: State, d: DispatcherAction)
    requires Progress(c, s) && DispatcherEnabled(c, s, d)
    ensures Progress(c, DispatcherStep(c, s, d))
  {
    hide OnTrack, Plan, Rest, Dispatched;
    match d
    case LoopCheck | PageArrives | PageFails(_) => ProgressOnPage(c, s, d);
    case RepoCheck => ProgressAtRepo(c, s);
    case LimitCheck => ProgressLimit(c, s);
    case TakeSlot =>
    case SlotShutdown => ProgressSlotFailed(c, s, s.shutdown.value);
    case SlotGroup => ProgressSlotFailed(c, s, s.group.value);
    case SpawnWorker => ProgressSpawn(c, s);
    case JoinWorkers =>
  }

  lemma ProgressStep(c: Crawl, s: State, a: Action)
    requires Progress(c, s) && Enabled(c, s, a)
    ensures Progress(c, Step(c, s, a))
  {
    match a
    case Dispatch(d) => ProgressDispatcher(c, s, d);
    case Work(i, w) => ProgressWorker(c, s, i, w);
    case _ =>
  }

  // ---- the worker ledger ---------------------------------------------------------------------

  // The repositories of the workers in phase p, counted with repetitions.
  ghost function Select(ws: seq<Worker>, p: Phase -> bool): multiset<Repo> {
    if ws == [] then multiset{} else One(ws[0], p) + Select(ws[1..], p)
  }

  ghost function One(w: Worker, p: Phase -> bool): multiset<Repo> {
    if p(w.phase) then multiset{w.repo} else multiset{}
  }

  predicate InFlight(p: Phase) { p.Fetching? || p.Importing? }
  predicate Holding(p: Phase) { p.Fetching? || p.Importing? || p.Releasing? }
  predicate Ended(p: Phase, o: Outcome) { !InFlight(p) && p.outcome == o }
  predicate IsImported(p: Phase) { Ended(p, Imported) }
  predicate IsFailed(p: Phase) { Ended(p, ImportFailed) }
  predicate IsSkipped(p: Phase) { Ended(p, Skipped) }
  predicate IsInterrupted(p: Phase) { Ended(p, Interrupted) }
  predicate WasFetched(p: Phase) { p.Importing? || IsImported(p) || IsFailed(p) }

  lemma AddToBoth(h: multiset<Repo>, a: multiset<Repo>, x: multiset<Repo>, b: multiset<Repo>, y: multiset<Repo>)
    requires a + x == b + y
    ensures (h + a) + x == (h + b) + y
  {
    assert (h + a) + x == h + (a + x);
    assert (h + b) + y == h + (b + y);
  }

  lemma SelectCons(w: Worker, ws: seq<Worker>, p: Phase -> bool)
    ensures Select([w] + ws, p) == One(w, p) + Select(ws, p)
  {
    assert ([w] + ws)[1..] == ws;
  }

  lemma {:induction false} SelectUpdate(ws: seq<Worker>, i: nat, w: Worker, p: Phase -> bool)
    requires i < |ws|
    ensures Select(ws[i := w], p) + One(ws[i], p) == Select(ws, p) + One(w, p)
  {
    hide Select, One;
    var v, rest := ws[0], ws[1..];
    assert ws == [v] + rest;
    SelectCons(v, rest, p);
    if i == 0 {
      assert ws[i := w] == [w] + rest;
      SelectCons(w, rest, p);
      AddSwap(One(w, p), Select(rest, p), One(v, p));
    } else {
      assert ws[i := w] == [v] + rest[i - 1 := w];
      SelectCons(v, rest[i - 1 := w], p);
      SelectUpdate(rest, i - 1, w, p);
      AddToBoth(One(v, p), Select(rest[i - 1 := w], p), One(ws[i], p), Select(rest, p), One(w, p));
    }
  }

  lemma AddSwap(a: multiset<Repo>, b: multiset<Repo>, c: multiset<Repo>)
    ensures (a + b) + c == (c + b) + a
  {
  }

  lemma {:induction false} SelectAppend(ws: seq<Worker>, w: Worker, p: Phase -> bool)
    ensures Select(ws + [w], p) == Select(ws, p) + One(w, p)
  {
    if ws == [] {
      assert ws + [w] == [w] && [w][1..] == [];
    } else {
      assert (ws + [w])[1..] == ws[1..] + [w];
      SelectAppend(ws[1..], w, p);
    }
  }

  lemma {:induction false} SelectNone(ws: seq<Worker>, p: Phase -> bool)
    ensures Select(ws, p) == multiset{} <==> forall i | 0 <= i < |ws| :: !p(ws[i].phase)
  {
    if ws != [] {
      SelectNone(ws[1..], p);
      assert forall i | 1 <= i < |ws| :: ws[i] == ws[1..][i - 1];
    }
  }

  ghost function Classes(ws: seq<Worker>): multiset<Repo> {
    Select(ws, InFlight) + Select(ws, IsImported) + Select(ws, IsFailed)
    + Select(ws, IsSkipped) + Select(ws, IsInterrupted)
  }

  lemma OneClass(w: Worker)
    ensures multiset{w.repo} == One(w, InFlight) + One(w, IsImported) + One(w, IsFailed)
              + One(w, IsSkipped) + One(w, IsInterrupted)
  {
    match w.phase
    case Fetching =>
    case Importing =>
    case _ => match w.phase.outcome { case _ => }
  }

  // Every worker is in exactly one of the five classes.
  lemma {:induction false} SelectPartition(ws: seq<Worker>)
    ensures multiset(Dispatched(ws)) == Classes(ws)
  {
    if ws != [] {
      var w, r := ws[0], ws[1..];
      SelectPartition(r);
      OneClass(w);
      assert Dispatched(ws) == [w.repo] + Dispatched(r);
      assert Classes(ws) == multiset{w.repo} + Classes(r) by { ClassesCons(ws); }
    } else {
      assert Dispatched(ws) == [];
    }
  }

  lemma ClassesCons(ws: seq<Worker>)
    requires ws != []
    ensures Classes(ws) == multiset{ws[0].repo} + Classes(ws[1..])
  {
    OneClass(ws[0]);
  }

  ghost predicate Counts(s: State) {
    && s.sem == |Select(s.workers, Holding)| + (if s.pc.Spawn? then 1 else 0)
    && s.repoIndex == |Select(s.workers, WasFetched)|
    && s.skipped == |Select(s.workers, IsSkipped)|
  }

  ghost predicate Store(s: State) {
    s.written == Select(s.workers, IsImported)
  }

  // What the flags and the group error say about the workers.
  ghost predicate Flags(c: Crawl, s: State) {
    && s.sem <= c.cfg.parallelism
    && (s.graceful ==> s.shutdown.Some?)
    && (forall i | 0 <= i < |s.workers| && IsInterrupted(s.workers[i].phase) :: s.graceful)
    && (forall i | 0 <= i < |s.workers| && s.workers[i].phase == Finished(ImportFailed) ::
          s.groupErr.Some? && s.group.Some?)
    && (s.groupErr.Some? ==> s.groupErr.value < |s.workers|
                             && s.workers[s.groupErr.value].phase == Finished(ImportFailed))
    && (s.pc.Returned? && (s.pc.result.Nil? || s.pc.result.ImportError?) ==>
          && (forall i | 0 <= i < |s.workers| :: s.workers[i].phase.Finished?)
          && s.pc.result == (if s.groupErr.Some? then ImportError(s.groupErr.value) else Nil))
    && (s.pc.Returned? && s.pc.result.SlotError? ==> Refused(s, s.pc.result.err))
  }

  // Why acquireWorkerSlot ended the run with err: shutdown cut off by a deadline, or the group's context.
  predicate Refused(s: State, err: CtxErr) {
    s.group == Some(err) || (err.DeadlineExceeded? && s.shutdown == Some(err))
  }

  function Bit(b: bool): nat { if b then 1 else 0 }

  lemma CountUpdate(ws: seq<Worker>, i: nat, q: Phase, p: Phase -> bool)
    requires i < |ws|
    ensures |Select(ws[i := ws[i].(phase := q)], p)| + Bit(p(ws[i].phase)) == |Select(ws, p)| + Bit(p(q))
  {
    var w := ws[i].(phase := q);
    SelectUpdate(ws, i, w, p);
    hide Select;
    assert |Select(ws[i := w], p) + One(ws[i], p)| == |Select(ws[i := w], p)| + |One(ws[i], p)|;
    assert |Select(ws, p) + One(w, p)| == |Select(ws, p)| + |One(w, p)|;
  }

  // What the writer has gained when worker w moves to phase q.
  ghost function Gained(w: Worker, q: Phase): multiset<Repo> {
    if IsImported(q) && !IsImported(w.phase) then multiset{w.repo} else multiset{}
  }

  lemma ImportedUpdate(ws: seq<Worker>, i: nat, q: Phase)
    requires i < |ws| && (IsImported(ws[i].phase) ==> IsImported(q))
    ensures Select(ws, IsImported) + Gained(ws[i], q) == Select(ws[i := ws[i].(phase := q)], IsImported)
  {
    var a, b := Select(ws[i := ws[i].(phase := q)], IsImported), Select(ws, IsImported);
    SelectUpdate(ws, i, ws[i].(phase := q), IsImported);
    hide Select;
    if IsImported(ws[i].phase) {
      CancelOne(a, b, ws[i].repo);
    }
  }

  lemma CancelOne(a: multiset<Repo>, b: multiset<Repo>, r: Repo)
    requires a + multiset{r} == b + multiset{r}
    ensures a == b
  {
    assert a == a + multiset{r} - multiset{r};
    assert b == b + multiset{r} - multiset{r};
  }

  lemma SelectSpawn(s: State, w: Worker)
    requires w.phase == Fetching
    ensures |Select(s.workers + [w], Holding)| == |Select(s.workers, Holding)| + 1
    ensures Select(s.workers + [w], WasFetched) == Select(s.workers, WasFetched)
    ensures Select(s.workers + [w], IsSkipped) == Select(s.workers, IsSkipped)
    ensures Select(s.workers + [w], IsImported) == Select(s.workers, IsImported)
  {
    SelectAppend(s.workers, w, Holding);
    SelectAppend(s.workers, w, WasFetched);
    SelectAppend(s.workers, w, IsSkipped);
    SelectAppend(s.workers, w, IsImported);
  }

  lemma CountsWorker(s: State, i: nat, w: WorkerAction)
    requires Counts(s) && WorkerEnabled(s, i, w)
    ensures Counts(WorkerStep(s, i, w))
  {
    hide Select;
    WorkerStepPool(s, i, w);
    var q := WorkerStep(s, i, w).workers[i].phase;
    CountUpdate(s.workers, i, q, Holding);
    CountUpdate(s.workers, i, q, WasFetched);
    CountUpdate(s.workers, i, q, IsSkipped);
  }

  lemma WorkerStepStore(s: State, i: nat, w: WorkerAction)
    requires WorkerEnabled(s, i, w)
    ensures WorkerStep(s, i, w).written
         == s.written + Gained(s.workers[i], WorkerStep(s, i, w).workers[i].phase)
    ensures IsImported(s.workers[i].phase) ==> IsImported(WorkerStep(s, i, w).workers[i].phase)
  {
    hide Dispatched;
    assert s.written == s.written + multiset{};
    match w
    case ImportDone(ok) =>
    case _ =>
  }

  lemma StoreWorker(s: State, i: nat, w: WorkerAction)
    requires Store(s) && WorkerEnabled(s, i, w)
    ensures Store(WorkerStep(s, i, w))
  {
    WorkerStepPool(s, i, w);
    WorkerStepStore(s, i, w);
    hide Select, Gained, WorkerStep, Dispatched;
    ImportedUpdate(s.workers, i, WorkerStep(s, i, w).workers[i].phase);
  }

  lemma LedgerSpawn(c: Crawl, s: State)
    requires Counts(s) && Store(s) && DispatcherEnabled(c, s, SpawnWorker)
    ensures var s' := DispatcherStep(c, s, SpawnWorker); Counts(s') && Store(s')
  {
    hide Select;
    SelectSpawn(s, Worker(PageAt(c, s.pc.page)[s.pc.pos], Fetching));
  }

  lemma DispatcherKeepsPool(c: Crawl, s: State, d: DispatcherAction)
    requires DispatcherEnabled(c, s, d) && !d.SpawnWorker?
    ensures var s' := DispatcherStep(c, s, d);
      && s'.workers == s.workers && s'.repoIndex == s.repoIndex && s'.skipped == s.skipped
      && s'.written == s.written
      && s'.sem - Bit(s'.pc.Spawn?) == s.sem - Bit(s.pc.Spawn?)
  {
    hide PageAt;
  }

  lemma LedgerDispatcher(c: Crawl, s: State, d: DispatcherAction)
    requires Counts(s) && Store(s) && DispatcherEnabled(c, s, d)
    ensures Counts(DispatcherStep(c, s, d)) && Store(DispatcherStep(c, s, d))
  {
    hide Select, DispatcherStep;
    if d.SpawnWorker? {
      LedgerSpawn(c, s);
    } else {
      DispatcherKeepsPool(c, s, d);
    }
  }

  lemma FlagsWorker(c: Crawl, s: State, i: nat, w: WorkerAction)
    requires Flags(c, s) && WorkerEnabled(s, i, w)
    ensures Flags(c, WorkerStep(s, i, w))
  {
    var s' := WorkerStep(s, i, w);
    assert forall j | 0 <= j < |s.workers| && j != i :: s'.workers[j] == s.workers[j];
  }

  lemma FlagsDispatcher(c: Crawl, s: State, d: DispatcherAction)
    requires Flags(c, s) && DispatcherEnabled(c, s, d)
    ensures Flags(c, DispatcherStep(c, s, d))
  {
    if d.SpawnWorker? {
      FlagsSpawn(c, s);
    } else {
      hide PageAt;
      DispatcherKeepsPool(c, s, d);
    }
  }

  lemma FlagsSpawn(c: Crawl, s: State)
    requires Flags(c, s) && DispatcherEnabled(c, s, SpawnWorker)
    ensures Flags(c, DispatcherStep(c, s, SpawnWorker))
  {
    hide PageAt;
    var s' := DispatcherStep(c, s, SpawnWorker);
    assert forall j | 0 <= j < |s.workers| :: s'.workers[j] == s.workers[j];
  }

  // ---- whole runs ----------------------------------------------------------------------------

  ghost predicate Inv(c: Crawl, s: State) {
    Progress(c, s) && Counts(s) && Store(s) && Flags(c, s)
  }

  lemma InvInit(c: Crawl)
    ensures Inv(c, Init())
  {
    assert Dispatched([]) == [];
    assert Tail(c, 1) == c.pages;
  }

  lemma InvStep(c: Crawl, s: State, a: Action)
    requires Inv(c, s) && Enabled(c, s, a)
    ensures Inv(c, Step(c, s, a))
  {
    hide WorkerStep, DispatcherStep, Progress, Select;
    ProgressStep(c, s, a);
    match a
    case Dispatch(d) =>
      hide Counts, Store, Flags;
      LedgerDispatcher(c, s, d);
      FlagsDispatcher(c, s, d);
    case Work(i, w) =>
      hide Counts, Store, Flags;
      CountsWorker(s, i, w);
      StoreWorker(s, i, w);
      FlagsWorker(c, s, i, w);
    case _ =>
  }

  lemma {:induction false} InvRun(c: Crawl, s: State, acts: seq<Action>, s': State)
    requires Inv(c, s) && Run(c, s, acts, s')
    ensures Inv(c, s')
    decreases |acts|
  {
    if acts != [] {
      InvStep(c, s, acts[0]);
      hide Inv, Step;
      InvRun(c, Step(c, s, acts[0]), acts[1..], s');
    }
  }

  /** In every interleaving the dispatched sequence is a prefix of the plan. */
  lemma DispatchFollowsPlan(c: Crawl, acts: seq<Action>, s: State)
    requires Run(c, Init(), acts, s)
    ensures Dispatched(s.workers) <= Plan(c)
  {
    InvInit(c);
    InvRun(c, Init(), acts, s);
    hide OnTrack, Listed, Plan, Dispatched, Select;
    if s.pc.LoopHead? || s.pc.FetchPage? {
      PrefixOfPlan(c, Dispatched(s.workers), Listed(Tail(c, s.pc.page)));
    } else if !(s.pc.Join? || s.pc.Returned?) {
      PrefixOfPlan(c, Dispatched(s.workers), Rest(c, s.pc.page, s.pc.pos));
    }
  }

  // ---- results of Run --------------------------------------------------------------------------

  lemma InvReached(c: Crawl, acts: seq<Action>, s: State)
    requires Run(c, Init(), acts, s)
    ensures Inv(c, s)
  {
    InvInit(c);
    InvRun(c, Init(), acts, s);
  }

  /** In every reachable state each dispatched repository is in flight, imported, failed, skipped or
      interrupted, once; the counters and the semaphore agree with that, and the debug reservations
      with what was dispatched. */
  lemma Conservation(c: Crawl, acts: seq<Action>, s: State)
    requires Run(c, Init(), acts, s)
    ensures multiset(Dispatched(s.workers))
         == Select(s.workers, InFlight) + s.written + Select(s.workers, IsFailed)
            + Select(s.workers, IsSkipped) + Select(s.workers, IsInterrupted)
    ensures s.skipped == |Select(s.workers, IsSkipped)|
    ensures s.sem == |Select(s.workers, Holding)| + (if s.pc.Spawn? then 1 else 0) <= c.cfg.parallelism
    ensures s.debugCount == (if c.cfg.debug then |s.workers| + (if Reserved(s.pc) then 1 else 0) else 0)
    ensures c.cfg.debug ==> |s.workers| <= Limit(c.cfg)
  {
    InvReached(c, acts, s);
    SelectPartition(s.workers);
  }

  /** When Run returns nil, with or without shutdown, every worker has finished, every slot is free,
      nothing failed, and the repositories counted in repoIndex are exactly those stored. */
  lemma NilMeansJoined(c: Crawl, acts: seq<Action>, s: State)
    requires Run(c, Init(), acts, s) && s.pc == Returned(Nil)
    ensures forall i | 0 <= i < |s.workers| :: s.workers[i].phase.Finished? && !IsFailed(s.workers[i].phase)
    ensures s.sem == 0 && s.repoIndex == |s.written|
    ensures multiset(Dispatched(s.workers))
         == s.written + Select(s.workers, IsSkipped) + Select(s.workers, IsInterrupted)
  {
    InvReached(c, acts, s);
    hide Select, Progress, Dispatched;
    assert forall i | 0 <= i < |s.workers| :: !IsFailed(s.workers[i].phase);
    FinishedPool(s.workers);
  }

  lemma FinishedPool(ws: seq<Worker>)
    requires forall i | 0 <= i < |ws| :: ws[i].phase.Finished? && !IsFailed(ws[i].phase)
    ensures Select(ws, Holding) == multiset{}
    ensures |Select(ws, WasFetched)| == |Select(ws, IsImported)|
    ensures multiset(Dispatched(ws)) == Select(ws, IsImported) + Select(ws, IsSkipped) + Select(ws, IsInterrupted)
  {
    hide Select, Dispatched;
    SelectNone(ws, Holding);
    SelectNone(ws, InFlight);
    SelectNone(ws, IsFailed);
    FetchedSplit(ws);
    SelectPartition(ws);
  }

  lemma {:induction false} FetchedSplit(ws: seq<Worker>)
    requires forall i | 0 <= i < |ws| :: ws[i].phase.Finished?
    ensures |Select(ws, WasFetched)| == |Select(ws, IsImported)| + |Select(ws, IsFailed)|
  {
    if ws != [] {
      assert forall i | 0 <= i < |ws[1..]| :: ws[1..][i] == ws[i + 1];
      FetchedSplit(ws[1..]);
    }
  }

  /** A clean run, one that returns nil with gracefulShutdown unset, has dispatched exactly the plan,
      and has stored each planned repository or counted it as skipped, once and never both. */
  lemma CleanRunIsComplete(c: Crawl, acts: seq<Action>, s: State)
    requires Run(c, Init(), acts, s) && s.pc == Returned(Nil) && !s.graceful
    ensures Dispatched(s.workers) == Plan(c)
    ensures multiset(Plan(c)) == s.written + Select(s.workers, IsSkipped)
    ensures s.repoIndex == |s.written| && s.skipped == |Select(s.workers, IsSkipped)|
    ensures s.repoIndex + s.skipped == |Plan(c)|
  {
    hide Select, Plan, Dispatched, Counts, Store, OnTrack;
    InvReached(c, acts, s);
    NilMeansJoined(c, acts, s);
    SelectNone(s.workers, IsInterrupted);
    Conservation(c, acts, s);
    assert multiset(Plan(c)) == s.written + Select(s.workers, IsSkipped);
    assert |multiset(Plan(c))| == |s.written| + |Select(s.workers, IsSkipped)|;
  }

  /** One failed import makes every interleaving return an error. */
  lemma FailedImportIsReported(c: Crawl, acts: seq<Action>, s: State, i: nat)
    requires Run(c, Init(), acts, s) && s.pc.Returned?
    requires i < |s.workers| && IsFailed(s.workers[i].phase)
    ensures s.pc.result != Nil
    ensures s.pc.result.ImportError? ==>
      var k := s.pc.result.worker; k < |s.workers| && IsFailed(s.workers[k].phase)
  {
    InvReached(c, acts, s);
  }

  // ---- how Run returns ---------------------------------------------------------------------------

  // Some worker is still in the errgroup.
  predicate Unfinished(s: State) {
    exists i | 0 <= i < |s.workers| :: !s.workers[i].phase.Finished?
  }

  // A cancelled request or a refused slot is excused when shutdown was requested.
  predicate Excused(s: State, err: CtxErr) { err.Canceled? && s.shutdown.Some? }

  // The step gives up at once: a page request or a slot acquisition failed without that excuse.
  predicate Abandons(s: State, a: Action) {
    match a
    case Dispatch(PageFails(canceled)) => !(canceled && s.shutdown.Some?)
    case Dispatch(SlotShutdown) => s.shutdown.Some? && !Excused(s, s.shutdown.value)
    case Dispatch(SlotGroup) => s.group.Some? && !Excused(s, s.group.value)
    case _ => false
  }

  // What a returning step makes of the state before it.
  predicate Causes(s: State, a: Action, result: Result) {
    match result
    case Nil => a == Dispatch(JoinWorkers) && s.groupErr.None?
    case ImportError(i) => a == Dispatch(JoinWorkers) && s.groupErr == Some(i)
    case PageError => a.Dispatch? && a.d.PageFails? && Abandons(s, a)
    case SlotError(err) =>
      && Abandons(s, a)
      && (|| (a == Dispatch(SlotShutdown) && s.shutdown == Some(err))
          || (a == Dispatch(SlotGroup) && s.group == Some(err)))
  }

  lemma ReturningSteps(c: Crawl, s: State, a: Action)
    requires Enabled(c, s, a) && !s.pc.Returned?
    ensures Step(c, s, a).pc.Returned? <==> a == Dispatch(JoinWorkers) || Abandons(s, a)
    ensures Step(c, s, a).pc.Returned? ==>
      Unfinished(Step(c, s, a)) == Unfinished(s) && Causes(s, a, Step(c, s, a).pc.result)
  {
    if a.Work? {
      WorkerStepPool(s, a.i, a.w);
      hide WorkerStep;
    }
    hide Dispatched, PageAt;
  }

  // Run has returned by step k of the run, taken in state mid.
  ghost predicate ReturnedBy(c: Crawl, s: State, acts: seq<Action>, s': State, k: nat, mid: State) {
    && k < |acts| && Run(c, s, acts[..k], mid) && !mid.pc.Returned?
    && Enabled(c, mid, acts[k]) && Step(c, mid, acts[k]).pc == s'.pc
    && Run(c, Step(c, mid, acts[k]), acts[k + 1..], s')
  }

  lemma {:induction false} ReturnStays(c: Crawl, s: State, acts: seq<Action>, s': State)
    requires Run(c, s, acts, s') && s.pc.Returned?
    ensures s'.pc == s.pc
    decreases |acts|
  {
    if acts != [] {
      assert Step(c, s, acts[0]).pc == s.pc by {
        if acts[0].Work? {
          WorkerStepPool(s, acts[0].i, acts[0].w);
        }
      }
      hide Step;
      ReturnStays(c, Step(c, s, acts[0]), acts[1..], s');
    }
  }

  lemma {:induction false} ReturningStep(c: Crawl, s: State, acts: seq<Action>, s': State) returns (k: nat, mid: State)
    requires Run(c, s, acts, s') && !s.pc.Returned? && s'.pc.Returned?
    ensures ReturnedBy(c, s, acts, s', k, mid)
    decreases |acts|
  {
    hide Step;
    var a, s1, rest := acts[0], Step(c, s, acts[0]), acts[1..];
    if s1.pc.Returned? {
      ReturnStays(c, s1, rest, s');
      k, mid := 0, s;
      assert acts[..0] == [];
    } else {
      k, mid := ReturningStep(c, s1, rest, s');
      RunCons(c, s, a, rest[..k], mid);
      assert [a] + rest[..k] == acts[..k + 1] && rest[k] == acts[k + 1] && rest[k + 1..] == acts[k + 2..];
      k := k + 1;
    }
  }

  /** Every result has its cause, in every interleaving: the step that returned it, and what its guard
      saw. A finished failed import has cancelled the group, and from then on the dispatcher may be
      refused a slot. */
  lemma ResultsHaveCauses(c: Crawl, acts: seq<Action>, s: State)
    requires Run(c, Init(), acts, s)
    ensures forall i | 0 <= i < |s.workers| && s.workers[i].phase == Finished(ImportFailed) ::
      s.groupErr.Some? && s.group.Some?
    ensures s.pc.Returned? ==>
      exists k: nat, mid :: ReturnedBy(c, Init(), acts, s, k, mid) && Causes(mid, acts[k], s.pc.result)
    ensures s.pc.Returned? ==>
      match s.pc.result
      case Nil => s.groupErr.None? && !Unfinished(s)
      case ImportError(k) => k < |s.workers| && s.workers[k].phase == Finished(ImportFailed) && !Unfinished(s)
      case SlotError(err) => Refused(s, err)
      case PageError => true
  {
    InvReached(c, acts, s);
    hide Progress, Counts, Store;
    if s.pc.Returned? {
      var k, mid := ReturningStep(c, Init(), acts, s);
      ReturningSteps(c, mid, acts[k]);
    }
  }

  /** Run returns with a worker unfinished if and only if the returning step abandons the run, by an
      unexcused page or slot failure, while a worker is unfinished; otherwise it is the join. */
  lemma ReturnLeavesWorkers(c: Crawl, acts: seq<Action>, s: State) returns (k: nat, mid: State)
    requires Run(c, Init(), acts, s) && s.pc.Returned?
    ensures ReturnedBy(c, Init(), acts, s, k, mid)
    ensures Unfinished(Step(c, mid, acts[k])) <==> Abandons(mid, acts[k]) && Unfinished(mid)
    ensures !Abandons(mid, acts[k]) ==> acts[k] == Dispatch(JoinWorkers)
  {
    k, mid := ReturningStep(c, Init(), acts, s);
    ReturningSteps(c, mid, acts[k]);
  }

  // The next step may return and leave a worker unfinished.
  ghost predicate MayLeaveWorkers(c: Crawl, s: State) {
    exists a :: Enabled(c, s, a) && Step(c, s, a).pc.Returned? && Unfinished(Step(c, s, a))
  }

  /** State by state: a return may leave a worker unfinished if and only if there is one and the dispatcher
      is requesting a page, or is waiting for a slot with shutdown cut off by a deadline or the group done
      without the excuse of shutdown. */
  lemma MayLeaveWorkersExactly(c: Crawl, s: State)
    requires !s.pc.Returned?
    ensures MayLeaveWorkers(c, s)
      <==> Unfinished(s)
           && (s.pc.FetchPage?
               || (s.pc.AcquireSlot? && s.shutdown == Some(DeadlineExceeded))
               || (s.pc.AcquireSlot? && s.group.Some? && !Excused(s, s.group.value)))
  {
    hide Step, Unfinished;
    if MayLeaveWorkers(c, s) {
      var a :| Enabled(c, s, a) && Step(c, s, a).pc.Returned? && Unfinished(Step(c, s, a));
      ReturningSteps(c, s, a);
      assert a == Dispatch(JoinWorkers) ==> !Unfinished(s) by { JoinNeedsFinished(c, s); }
    }
    var a := if s.pc.FetchPage? then Dispatch(PageFails(false))
             else if s.shutdown == Some(DeadlineExceeded) then Dispatch(SlotShutdown) else Dispatch(SlotGroup);
    if Unfinished(s) && Enabled(c, s, a) && Abandons(s, a) {
      ReturningSteps(c, s, a);
    }
  }

  lemma JoinNeedsFinished(c: Crawl, s: State)
    ensures Enabled(c, s, Dispatch(JoinWorkers)) ==> !Unfinished(s)
  {
  }

  // ---- graceful shutdown -------------------------------------------------------------------------

  // The dispatcher has passed its shutdown check for a repository, and the debug limit lets it through.
  predicate MayDispatch(c: Crawl, s: State) {
    s.pc.AcquireSlot? || s.pc.Spawn? || (s.pc.CheckLimit? && s.debugCount <= c.cfg.maxDebugRepos)
  }

  lemma {:induction false} BudgetRun(c: Crawl, s: State, acts: seq<Action>, s': State)
    requires s.shutdown.Some? && Run(c, s, acts, s')
    ensures s'.shutdown.Some?
    ensures |s'.workers| + Bit(MayDispatch(c, s')) <= |s.workers| + Bit(MayDispatch(c, s))
    decreases |acts|
  {
    if acts != [] {
      BudgetStep(c, s, acts[0]);
      hide Step;
      BudgetRun(c, Step(c, s, acts[0]), acts[1..], s');
    }
  }

  lemma BudgetStep(c: Crawl, s: State, a: Action)
    requires s.shutdown.Some? && Enabled(c, s, a)
    ensures var s' := Step(c, s, a);
      s'.shutdown.Some? && |s'.workers| + Bit(MayDispatch(c, s')) <= |s.workers| + Bit(MayDispatch(c, s))
  {
    if a.Work? {
      WorkerStepPool(s, a.i, a.w);
      hide WorkerStep;
    }
    hide Dispatched;
  }

  /** After the shutdown signal at most one more repository is ever dispatched, and none unless the
      dispatcher had already passed its checks for that repository. */
  lemma ShutdownStopsDispatch(c: Crawl, before: seq<Action>, s: State, after: seq<Action>, s': State)
    requires Run(c, Init(), before, s) && s.shutdown.Some? && Run(c, s, after, s')
    ensures |s'.workers| <= |s.workers| + (if MayDispatch(c, s) then 1 else 0)
    ensures Dispatched(s.workers) <= Dispatched(s'.workers) <= Plan(c)
  {
    BudgetRun(c, s, after, s');
    InvReached(c, before, s);
    GrowsRun(c, s, after, s');
    RunAppend(c, Init(), before, s, after, s');
    DispatchFollowsPlan(c, before + after, s');
  }

  lemma RunSnoc(c: Crawl, s: State, acts: seq<Action>, s': State, a: Action)
    requires Run(c, s, acts, s') && Enabled(c, s', a)
    ensures Run(c, s, acts + [a], Step(c, s', a))
  {
    assert Run(c, s', [a], Step(c, s', a)) by {
      assert [a][1..] == [];
    }
    RunAppend(c, s, acts, s', [a], Step(c, s', a));
  }

  // Some run from s dispatches another repository.
  ghost predicate CanDispatchMore(c: Crawl, s: State) {
    exists acts, s' :: Run(c, s, acts, s') && |s'.workers| > |s.workers|
  }

  lemma RunCons(c: Crawl, s: State, a: Action, acts: seq<Action>, s': State)
    requires Enabled(c, s, a) && Run(c, Step(c, s, a), acts, s')
    ensures Run(c, s, [a] + acts, s')
  {
    assert ([a] + acts)[1..] == acts;
  }

  // Workers alone can free a slot while the dispatcher waits for one.
  lemma {:induction false} FreeSlot(c: Crawl, s: State) returns (acts: seq<Action>, s': State)
    requires Inv(c, s) && c.cfg.parallelism >= 1 && s.pc.AcquireSlot?
    ensures Run(c, s, acts, s') && Inv(c, s') && s'.pc == s.pc
    ensures s'.sem < c.cfg.parallelism && |s'.workers| == |s.workers|
    decreases PoolRank(s.workers)
  {
    hide Select, Progress, Store, Step;
    if s.sem < c.cfg.parallelism {
      acts, s' := [], s;
    } else {
      SelectNone(s.workers, Holding);
      var i :| 0 <= i < |s.workers| && Holding(s.workers[i].phase);
      var w := WorkerCanMove(c, s, i);
      var s1 := Step(c, s, Work(i, w));
      InvStep(c, s, Work(i, w));
      WorkerStepFacts(c, s, i, w);
      hide Inv;
      var rest;
      rest, s' := FreeSlot(c, s1);
      acts := [Work(i, w)] + rest;
      RunCons(c, s, Work(i, w), rest, s');
    }
  }

  lemma WorkerStepFacts(c: Crawl, s: State, i: nat, w: WorkerAction)
    requires WorkerEnabled(s, i, w)
    ensures var s' := Step(c, s, Work(i, w));
      s'.pc == s.pc && |s'.workers| == |s.workers| && PoolRank(s'.workers) < PoolRank(s.workers)
  {
    WorkerStepPool(s, i, w);
    PoolRankUpdate(s.workers, i, WorkerStep(s, i, w).workers[i]);
    hide PoolRank;
  }

  lemma TakeAndSpawn(c: Crawl, s: State) returns (acts: seq<Action>, s': State)
    requires s.pc.AcquireSlot? && s.sem < c.cfg.parallelism && AtRepo(c, s.pc.page, s.pc.pos)
    ensures Run(c, s, acts, s') && |s'.workers| == |s.workers| + 1
  {
    hide PageAt;
    var s1 := DispatcherStep(c, s, TakeSlot);
    assert AtRepo(c, s1.pc.page, s1.pc.pos);
    s' := DispatcherStep(c, s1, SpawnWorker);
    assert Run(c, s1, [Dispatch(SpawnWorker)], s') by {
      assert [Dispatch(SpawnWorker)][1..] == [];
    }
    RunCons(c, s, Dispatch(TakeSlot), [Dispatch(SpawnWorker)], s');
    acts := [Dispatch(TakeSlot)] + [Dispatch(SpawnWorker)];
  }

  lemma DispatchFromSlot(c: Crawl, s: State) returns (acts: seq<Action>, s': State)
    requires Inv(c, s) && c.cfg.parallelism >= 1 && s.pc.AcquireSlot?
    ensures Run(c, s, acts, s') && |s'.workers| == |s.workers| + 1
  {
    var free, s1 := FreeSlot(c, s);
    PositionInRange(c, s1);
    hide Inv, Run;
    var last;
    last, s' := TakeAndSpawn(c, s1);
    RunAppend(c, s, free, s1, last, s');
    acts := free + last;
  }

  // A dispatcher that has passed its checks can dispatch, shutdown or not.
  lemma DispatchOneMore(c: Crawl, s: State) returns (acts: seq<Action>, s': State)
    requires Inv(c, s) && c.cfg.parallelism >= 1 && MayDispatch(c, s)
    ensures Run(c, s, acts, s') && |s'.workers| == |s.workers| + 1
  {
    if s.pc.AcquireSlot? {
      acts, s' := DispatchFromSlot(c, s);
    } else if s.pc.CheckLimit? {
      var s1 := Step(c, s, Dispatch(LimitCheck));
      InvStep(c, s, Dispatch(LimitCheck));
      var rest;
      rest, s' := DispatchFromSlot(c, s1);
      acts := [Dispatch(LimitCheck)] + rest;
      RunCons(c, s, Dispatch(LimitCheck), rest, s');
    } else {
      PositionInRange(c, s);
      hide Inv;
      s' := Step(c, s, Dispatch(SpawnWorker));
      RunSnoc(c, s, [], s, Dispatch(SpawnWorker));
      acts := [] + [Dispatch(SpawnWorker)];
    }
  }

  /** In every reachable state after the shutdown signal, one more repository can be dispatched if and only
      if the dispatcher has passed its checks for one: it waits for a slot, holds one, or stands before a
      debug check that will let it through. */
  lemma ShutdownLastDispatch(c: Crawl, before: seq<Action>, s: State)
    requires Run(c, Init(), before, s) && s.shutdown.Some? && c.cfg.parallelism >= 1
    ensures CanDispatchMore(c, s) <==> MayDispatch(c, s)
  {
    if MayDispatch(c, s) {
      InvReached(c, before, s);
      var acts, s' := DispatchOneMore(c, s);
    }
    if CanDispatchMore(c, s) {
      var acts, s' :| Run(c, s, acts, s') && |s'.workers| > |s.workers|;
      BudgetRun(c, s, acts, s');
    }
  }

  lemma {:induction false} RunAppend(c: Crawl, s: State, a: seq<Action>, s': State, b: seq<Action>, s'': State)
    requires Run(c, s, a, s') && Run(c, s', b, s'')
    ensures Run(c, s, a + b, s'')
    decreases |a|
  {
    hide Step;
    if a == [] {
      assert a + b == b;
    } else {
      assert (a + b)[1..] == a[1..] + b;
      RunAppend(c, Step(c, s, a[0]), a[1..], s', b, s'');
    }
  }

  // Steps the dispatcher may still take once shutdown has been requested.
  function ShutdownRank(pc: Pc): nat {
    match pc
    case Returned(_) => 0
    case Join => 1
    case LoopHead(_) => 2
    case RepoHead(_, _) => 3
    case FetchPage(_) => 4
    case Spawn(_, _) => 4
    case AcquireSlot(_, _) => 5
    case CheckLimit(_, _) => 6
  }

  function DispatcherSteps(acts: seq<Action>): nat {
    if acts == [] then 0 else Bit(acts[0].Dispatch?) + DispatcherSteps(acts[1..])
  }

  lemma ShutdownRankStep(c: Crawl, s: State, a: Action)
    requires s.shutdown.Some? && Enabled(c, s, a)
    ensures Step(c, s, a).shutdown.Some?
    ensures ShutdownRank(Step(c, s, a).pc) + Bit(a.Dispatch?) <= ShutdownRank(s.pc)
  {
    if a.Work? {
      WorkerStepPool(s, a.i, a.w);
      hide WorkerStep;
    }
    hide Dispatched;
  }

  /** After the shutdown signal the dispatcher itself takes at most six more steps, however many pages and
      repositories are left. */
  lemma {:induction false} ShutdownIsPrompt(c: Crawl, s: State, acts: seq<Action>, s': State)
    requires s.shutdown.Some? && Run(c, s, acts, s')
    ensures DispatcherSteps(acts) + ShutdownRank(s'.pc) <= ShutdownRank(s.pc) <= 6
    decreases |acts|
  {
    if acts != [] {
      ShutdownRankStep(c, s, acts[0]);
      hide Step;
      ShutdownIsPrompt(c, Step(c, s, acts[0]), acts[1..], s');
    }
  }

  lemma {:induction false} GrowsRun(c: Crawl, s: State, acts: seq<Action>, s': State)
    requires Run(c, s, acts, s')
    ensures Dispatched(s.workers) <= Dispatched(s'.workers)
    decreases |acts|
  {
    if acts != [] {
      GrowsStep(c, s, acts[0]);
      hide Step, Dispatched;
      GrowsRun(c, Step(c, s, acts[0]), acts[1..], s');
    }
  }

  lemma GrowsStep(c: Crawl, s: State, a: Action)
    requires Enabled(c, s, a)
    ensures Dispatched(s.workers) <= Dispatched(Step(c, s, a).workers)
  {
    if a.Work? {
      WorkerStepPool(s, a.i, a.w);
    }
  }

  // ---- calm runs ---------------------------------------------------------------------------------------

  // Nothing fails but fetches, and pages only because shutdown cancelled their request.
  predicate Calm(s: State, a: Action) {
    match a
    case Dispatch(PageFails(canceled)) => canceled && s.shutdown.Some?
    case Work(_, ImportDone(ok)) => ok
    case ShutdownSignal(err) => err.Canceled?
    case CancelProcessing(_) => false
    case _ => true
  }

  predicate CalmRun(c: Crawl, s: State, acts: seq<Action>, s': State)
    decreases |acts|
  {
    if acts == [] then s' == s
    else Enabled(c, s, acts[0]) && Calm(s, acts[0]) && CalmRun(c, Step(c, s, acts[0]), acts[1..], s')
  }

  ghost predicate Quiet(s: State) {
    && s.group.None? && s.groupErr.None? && s.shutdown != Some(DeadlineExceeded)
    && (forall i | 0 <= i < |s.workers| :: !IsFailed(s.workers[i].phase))
    && (s.pc.Returned? ==> s.pc.result.Nil?)
  }

  lemma QuietDispatcher(c: Crawl, s: State, d: DispatcherAction)
    requires Quiet(s) && DispatcherEnabled(c, s, d) && Calm(s, Dispatch(d))
    ensures Quiet(DispatcherStep(c, s, d))
  {
    hide PageAt;
    var s' := DispatcherStep(c, s, d);
    assert forall j | 0 <= j < |s.workers| :: s'.workers[j] == s.workers[j];
  }

  lemma QuietWorker(s: State, i: nat, w: WorkerAction)
    requires Quiet(s) && WorkerEnabled(s, i, w) && Calm(s, Work(i, w))
    ensures Quiet(WorkerStep(s, i, w))
  {
    var s' := WorkerStep(s, i, w);
    assert forall j | 0 <= j < |s.workers| && j != i :: s'.workers[j] == s.workers[j];
  }

  lemma QuietStep(c: Crawl, s: State, a: Action)
    requires Quiet(s) && Enabled(c, s, a) && Calm(s, a)
    ensures Quiet(Step(c, s, a))
  {
    hide DispatcherStep, WorkerStep;
    match a
    case Dispatch(d) => QuietDispatcher(c, s, d);
    case Work(i, w) => QuietWorker(s, i, w);
    case _ =>
  }

  lemma {:induction false} QuietRun(c: Crawl, s: State, acts: seq<Action>, s': State)
    requires Quiet(s) && CalmRun(c, s, acts, s')
    ensures Quiet(s')
    decreases |acts|
  {
    if acts != [] {
      QuietStep(c, s, acts[0]);
      hide Step, Quiet;
      QuietRun(c, Step(c, s, acts[0]), acts[1..], s');
    }
  }

  /** A calm run that returns returns nil, wherever the shutdown signal falls: shutdown by itself is never
      reported as an error. */
  lemma CalmRunReturnsNil(c: Crawl, acts: seq<Action>, s: State)
    requires CalmRun(c, Init(), acts, s) && s.pc.Returned?
    ensures s.pc.result == Nil
  {
    QuietRun(c, Init(), acts, s);
  }

  // ---- deadlock freedom and termination ------------------------------------------------------------

  predicate IsSignal(a: Action) { a.ShutdownSignal? || a.CancelProcessing? }

  lemma WorkerCanMove(c: Crawl, s: State, i: nat) returns (w: WorkerAction)
    requires Inv(c, s) && i < |s.workers| && !s.workers[i].phase.Finished?
    ensures WorkerEnabled(s, i, w)
  {
    SelectNone(s.workers, Holding);
    match s.workers[i].phase
    case Fetching => w := FetchOk;
    case Importing => w := ImportDone(true);
    case Releasing(_) => w := ReleaseSlot;
    case Released(_) => w := Finish;
  }

  /** With at least one slot, no reachable state before the return is stuck: some step of the program
      itself, not a signal, is enabled. */
  lemma DeadlockFree(c: Crawl, acts: seq<Action>, s: State) returns (a: Action)
    requires c.cfg.parallelism >= 1 && Run(c, Init(), acts, s) && !s.pc.Returned?
    ensures Enabled(c, s, a) && !IsSignal(a)
  {
    hide Select, Position, Store;
    InvReached(c, acts, s);
    if s.pc.AcquireSlot? {
      if s.sem < c.cfg.parallelism {
        a := Dispatch(TakeSlot);
      } else {
        SelectNone(s.workers, Holding);
        var i :| 0 <= i < |s.workers| && Holding(s.workers[i].phase);
        var w := WorkerCanMove(c, s, i);
        a := Work(i, w);
      }
    } else if i :| s.pc.Join? && 0 <= i < |s.workers| && !s.workers[i].phase.Finished? {
      var w := WorkerCanMove(c, s, i);
      a := Work(i, w);
    } else {
      a := DispatcherCanMove(c, s);
    }
  }

  lemma DispatcherCanMove(c: Crawl, s: State) returns (a: Action)
    requires Position(c, s) && !s.pc.Returned? && !s.pc.AcquireSlot?
    requires s.pc.Join? ==> forall i | 0 <= i < |s.workers| :: s.workers[i].phase.Finished?
    ensures Enabled(c, s, a) && !IsSignal(a)
  {
    hide Plan, OnTrack, Listed, Rest, Dispatched;
    match s.pc
    case LoopHead(_) => a := Dispatch(LoopCheck);
    case FetchPage(_) => a := Dispatch(PageArrives);
    case RepoHead(_, _) => a := Dispatch(RepoCheck);
    case CheckLimit(_, _) => a := Dispatch(LimitCheck);
    case Spawn(_, _) => a := Dispatch(SpawnWorker);
    case Join => a := Dispatch(JoinWorkers);
  }

  // Steps left for a worker, for the pages still to come, for the dispatcher, and for the signals.
  function PhaseRank(p: Phase): nat {
    match p
    case Fetching => 4
    case Importing => 3
    case Releasing(_) => 2
    case Released(_) => 1
    case Finished(_) => 0
  }

  function PoolRank(ws: seq<Worker>): nat {
    if ws == [] then 0 else PhaseRank(ws[0].phase) + PoolRank(ws[1..])
  }

  function PagesRank(pages: seq<seq<Repo>>): nat {
    if pages == [] then 3 else 8 * |pages[0]| + 4 + PagesRank(pages[1..])
  }

  function ReposLeft(c: Crawl, page: nat, pos: nat): nat {
    if pos <= |PageAt(c, page)| then |PageAt(c, page)| - pos else 0
  }

  function PcRank(c: Crawl, pc: Pc): int {
    match pc
    case LoopHead(page) => PagesRank(Tail(c, page))
    case FetchPage(page) => PagesRank(Tail(c, page)) - 1
    case RepoHead(page, pos) => 8 * ReposLeft(c, page, pos) + 1 + PagesRank(Tail(c, page + 1))
    case CheckLimit(page, pos) => 8 * ReposLeft(c, page, pos) + PagesRank(Tail(c, page + 1))
    case AcquireSlot(page, pos) => 8 * ReposLeft(c, page, pos) - 1 + PagesRank(Tail(c, page + 1))
    case Spawn(page, pos) => 8 * ReposLeft(c, page, pos) - 2 + PagesRank(Tail(c, page + 1))
    case Join => 1
    case Returned(_) => 0
  }

  function Measure(c: Crawl, s: State): int {
    PcRank(c, s.pc) + PoolRank(s.workers) + Bit(s.shutdown.None?) + Bit(s.group.None?)
  }

  lemma {:induction false} PoolRankUpdate(ws: seq<Worker>, i: nat, w: Worker)
    requires i < |ws|
    ensures PoolRank(ws[i := w]) == PoolRank(ws) - PhaseRank(ws[i].phase) + PhaseRank(w.phase)
  {
    if i == 0 {
      assert ws[i := w][1..] == ws[1..];
    } else {
      assert ws[i := w][1..] == ws[1..][i - 1 := w];
      PoolRankUpdate(ws[1..], i - 1, w);
    }
  }

  lemma {:induction false} PoolRankAppend(ws: seq<Worker>, w: Worker)
    ensures PoolRank(ws + [w]) == PoolRank(ws) + PhaseRank(w.phase)
  {
    if ws == [] {
      assert ws + [w] == [w] && [w][1..] == [];
    } else {
      assert (ws + [w])[1..] == ws[1..] + [w];
      PoolRankAppend(ws[1..], w);
    }
  }

  // The page bounds that Position keeps for every program counter.
  ghost predicate InRange(c: Crawl, pc: Pc) {
    match pc
    case LoopHead(page) => 1 <= page <= |c.pages| + 1
    case FetchPage(page) => 1 <= page <= |c.pages| + 1
    case RepoHead(page, pos) => 1 <= page <= |c.pages| && pos <= |PageAt(c, page)|
    case Join => true
    case Returned(_) => true
    case _ => 1 <= pc.page <= |c.pages| && pc.pos < |PageAt(c, pc.page)|
  }

  lemma PositionInRange(c: Crawl, s: State)
    requires Position(c, s)
    ensures InRange(c, s.pc)
  {
    hide OnTrack, Listed, Plan, Rest, Dispatched;
  }

  lemma PcRankPage(c: Crawl, page: nat)
    requires 1 <= page <= |c.pages|
    ensures PagesRank(Tail(c, page)) == 8 * |PageAt(c, page)| + 4 + PagesRank(Tail(c, page + 1))
  {
    assert Tail(c, page)[1..] == Tail(c, page + 1);
  }

  lemma PcRankNonNegative(c: Crawl, pc: Pc)
    requires InRange(c, pc)
    ensures PcRank(c, pc) >= 0 && (pc.LoopHead? || pc.FetchPage? ==> PcRank(c, pc) >= 2)
  {
  }

  lemma PcRankDispatcher(c: Crawl, s: State, d: DispatcherAction)
    requires InRange(c, s.pc) && DispatcherEnabled(c, s, d)
    ensures PcRank(c, DispatcherStep(c, s, d).pc) + (if d.SpawnWorker? then 4 else 0) < PcRank(c, s.pc)
  {
    hide PagesRank, Tail;
    if d.RepoCheck? {
      PcRankRepo(c, s);
    } else if d.SpawnWorker? {
      assert ReposLeft(c, s.pc.page, s.pc.pos) == ReposLeft(c, s.pc.page, s.pc.pos + 1) + 1;
    } else if d.PageArrives? && s.pc.page <= |c.pages| {
      PcRankPage(c, s.pc.page);
      PcRankNonNegative(c, s.pc);
    } else {
      PcRankNonNegative(c, s.pc);
    }
  }

  lemma PcRankRepo(c: Crawl, s: State)
    requires s.pc.RepoHead? && InRange(c, s.pc)
    ensures PcRank(c, RepoStep(c, s, s.pc.page, s.pc.pos).pc) < PcRank(c, s.pc)
  {
    hide PagesRank, Tail;
    assert PagesRank(Tail(c, s.pc.page + 1)) >= 0;
  }

  lemma DispatcherKeepsSignals(c: Crawl, s: State, d: DispatcherAction)
    requires DispatcherEnabled(c, s, d)
    ensures DispatcherStep(c, s, d).shutdown == s.shutdown && DispatcherStep(c, s, d).group == s.group
  {
    hide PageAt;
  }

  lemma MeasureDispatcher(c: Crawl, s: State, d: DispatcherAction)
    requires InRange(c, s.pc) && DispatcherEnabled(c, s, d)
    ensures Measure(c, DispatcherStep(c, s, d)) < Measure(c, s)
  {
    PcRankDispatcher(c, s, d);
    DispatcherKeepsSignals(c, s, d);
    if d.SpawnWorker? {
      PoolRankAppend(s.workers, Worker(PageAt(c, s.pc.page)[s.pc.pos], Fetching));
      hide PcRank, PoolRank, PageAt;
    } else {
      DispatcherKeepsPool(c, s, d);
      hide DispatcherStep, PcRank, PoolRank;
    }
  }

  lemma MeasureWorker(c: Crawl, s: State, i: nat, w: WorkerAction)
    requires WorkerEnabled(s, i, w)
    ensures Measure(c, WorkerStep(s, i, w)) < Measure(c, s)
  {
    WorkerStepPool(s, i, w);
    PoolRankUpdate(s.workers, i, WorkerStep(s, i, w).workers[i]);
    hide PcRank, PoolRank;
  }

  lemma MeasureStep(c: Crawl, s: State, a: Action)
    requires Progress(c, s) && Enabled(c, s, a)
    ensures Measure(c, Step(c, s, a)) < Measure(c, s)
  {
    PositionInRange(c, s);
    match a
    case Dispatch(d) => MeasureDispatcher(c, s, d);
    case Work(i, w) => MeasureWorker(c, s, i, w);
    case _ =>
  }

  lemma MeasureNonNegative(c: Crawl, s: State)
    requires Progress(c, s)
    ensures Measure(c, s) >= 0
  {
    PositionInRange(c, s);
    PcRankNonNegative(c, s.pc);
  }

  lemma {:induction false} MeasureRun(c: Crawl, s: State, acts: seq<Action>, s': State)
    requires Inv(c, s) && Run(c, s, acts, s')
    ensures |acts| + Measure(c, s') <= Measure(c, s)
    ensures 0 <= Measure(c, s')
    decreases |acts|
  {
    if acts != [] {
      MeasureStep(c, s, acts[0]);
      InvStep(c, s, acts[0]);
      hide Step, Inv, Measure;
      MeasureRun(c, Step(c, s, acts[0]), acts[1..], s');
    } else {
      MeasureNonNegative(c, s);
    }
  }

  function TotalRepos(pages: seq<seq<Repo>>): nat {
    if pages == [] then 0 else |pages[0]| + TotalRepos(pages[1..])
  }

  lemma {:induction false} PagesRankIs(pages: seq<seq<Repo>>)
    ensures PagesRank(pages) == 8 * TotalRepos(pages) + 4 * |pages| + 3
  {
    if pages != [] {
      PagesRankIs(pages[1..]);
    }
  }

  /** Every run is finite: it takes at most eight steps per repository, four per page and five more,
      so with DeadlockFree every run that goes on as long as it can ends with Run's return. */
  lemma Terminates(c: Crawl, acts: seq<Action>, s: State)
    requires Run(c, Init(), acts, s)
    ensures |acts| <= 8 * TotalRepos(c.pages) + 4 * |c.pages| + 5
  {
    InvInit(c);
    MeasureRun(c, Init(), acts, s);
    PagesRankIs(c.pages);
    assert Tail(c, 1) == c.pages;
    assert Measure(c, Init()) == PagesRank(c.pages) + 2;
  }

  // ---- two interleavings worth knowing ---------------------------------------------------------------

  // One repository, one slot: the run up to the select that acquires the slot.
  function OneRepo(r: Repo): Crawl { Crawl(Config(false, 10, true, 1), [[r]]) }

  function AtSelect(): State { Init().(pc := AcquireSlot(1, 0)) }

  lemma RunToSelect(r: Repo) returns (acts: seq<Action>)
    requires !r.archived
    ensures Run(OneRepo(r), Init(), acts, AtSelect())
  {
    var c := OneRepo(r);
    RunSnoc(c, Init(), [], Init(), Dispatch(LoopCheck));
    RunSnoc(c, Init(), [] + [Dispatch(LoopCheck)], Init().(pc := FetchPage(1)), Dispatch(PageArrives));
    acts := [] + [Dispatch(LoopCheck)] + [Dispatch(PageArrives)];
    RunSnoc(c, Init(), acts, Init().(pc := RepoHead(1, 0)), Dispatch(RepoCheck));
    acts := acts + [Dispatch(RepoCheck)];
  }

  /** An instance of ShutdownLastDispatch: the select may take a free slot although shutdown has been
      requested. */
  lemma SelectMayTakeSlot(r: Repo) returns (before: seq<Action>, s: State, after: seq<Action>, s': State)
    requires !r.archived
    ensures Run(OneRepo(r), Init(), before, s) && s.shutdown.Some? && s.workers == []
    ensures Run(OneRepo(r), s, after, s') && |s'.workers| == 1
  {
    var c := OneRepo(r);
    before := RunToSelect(r);
    RunSnoc(c, Init(), before, AtSelect(), ShutdownSignal(Canceled));
    before := before + [ShutdownSignal(Canceled)];
    s := AtSelect().(shutdown := Some(Canceled));
    RunSnoc(c, s, [], s, Dispatch(TakeSlot));
    s' := s.(sem := 1, pc := Spawn(1, 0));
    RunSnoc(c, s, [] + [Dispatch(TakeSlot)], s', Dispatch(SpawnWorker));
    after := [] + [Dispatch(TakeSlot)] + [Dispatch(SpawnWorker)];
    s' := DispatcherStep(c, s', SpawnWorker);
  }

  /** An instance of ReturnLeavesWorkers: a failed page fetch returns while a repository is still being
      fetched. */
  lemma EarlyReturnLeavesWorkers(r: Repo) returns (acts: seq<Action>, s: State)
    requires !r.archived
    ensures Run(OneRepo(r), Init(), acts, s) && s.pc == Returned(PageError)
    ensures s.workers == [Worker(r, Fetching)]
  {
    var c := OneRepo(r);
    acts := RunToSelect(r);
    RunSnoc(c, Init(), acts, AtSelect(), Dispatch(TakeSlot));
    s := AtSelect().(sem := 1, pc := Spawn(1, 0));
    acts := acts + [Dispatch(TakeSlot)];
    RunSnoc(c, Init(), acts, s, Dispatch(SpawnWorker));
    s := DispatcherStep(c, s, SpawnWorker);
    assert s.workers == [Worker(r, Fetching)] && s.pc == RepoHead(1, 1);
    acts := acts + [Dispatch(SpawnWorker)];
    RunSnoc(c, Init(), acts, s, Dispatch(RepoCheck));
    acts := acts + [Dispatch(RepoCheck)];
    RunSnoc(c, Init(), acts, s.(pc := LoopHead(2)), Dispatch(LoopCheck));
    acts := acts + [Dispatch(LoopCheck)];
    RunSnoc(c, Init(), acts, s.(pc := FetchPage(2)), Dispatch(PageFails(false)));
    acts := acts + [Dispatch(PageFails(false))];
    s := s.(pc := Returned(PageError));
  }
}
