/** What the steps of a run, read off its labels, make of each worker and of the counters
    (internal/runner/app.go). */
module RunHistory {
  import opened Options
  import opened Scheduler

  // The shutdown signal came before step k.
  predicate SignalBefore(acts: seq<Action>, k: nat) {
    exists j | 0 <= j < |acts| && j < k :: acts[j].ShutdownSignal?
  }

  // Step k is worker i's failed fetch, interrupted while it waited, after the shutdown signal.
  predicate InterruptedAt(acts: seq<Action>, i: nat, k: nat) {
    k < |acts| && acts[k] == Work(i, FetchErr(true)) && SignalBefore(acts, k)
  }

  // Step k is any other failed fetch.
  predicate IsSkip(acts: seq<Action>, k: nat) {
    k < |acts| && acts[k].Work? && acts[k].w.FetchErr? && !(acts[k].w.interrupted && SignalBefore(acts, k))
  }

  predicate SkippedAt(acts: seq<Action>, i: nat, k: nat) {
    IsSkip(acts, k) && acts[k].i == i
  }

  predicate EverInterrupted(acts: seq<Action>, i: nat) {
    exists k | 0 <= k < |acts| :: InterruptedAt(acts, i, k)
  }

  predicate EverSkipped(acts: seq<Action>, i: nat) {
    exists k | 0 <= k < |acts| :: SkippedAt(acts, i, k)
  }

  // What has happened to worker i is what its phase says.
  ghost predicate Tells(acts: seq<Action>, i: nat, p: Phase) {
    && (Work(i, FetchOk) in acts <==> WasFetched(p))
    && (Work(i, ImportDone(true)) in acts <==> IsImported(p))
    && (Work(i, ImportDone(false)) in acts <==> IsFailed(p))
    && (EverSkipped(acts, i) <==> IsSkipped(p))
    && (EverInterrupted(acts, i) <==> IsInterrupted(p))
    && (Work(i, ReleaseSlot) in acts <==> p.Released? || p.Finished?)
    && (Work(i, Finish) in acts <==> p.Finished?)
  }

  // How many fetches were skipped, and how many succeeded.
  function SkipSteps(acts: seq<Action>): nat {
    if acts == [] then 0 else var n := |acts| - 1; SkipSteps(acts[..n]) + Bit(IsSkip(acts, n))
  }

  function FetchSteps(acts: seq<Action>): nat {
    if acts == [] then 0
    else var n := |acts| - 1; FetchSteps(acts[..n]) + Bit(acts[n].Work? && acts[n].w.FetchOk?)
  }

  // Step k takes a worker whose import failed out of the errgroup.
  predicate FailureAt(acts: seq<Action>, k: nat) {
    k < |acts| && acts[k].Work? && acts[k].w.Finish? && Work(acts[k].i, ImportDone(false)) in acts[..k]
  }

  predicate FirstFailureAt(acts: seq<Action>, k: nat) {
    FailureAt(acts, k) && forall j | 0 <= j < k :: !FailureAt(acts, j)
  }

  // ---- the last step ----------------------------------------------------------------------------------------

  lemma {:induction false} RunLast(c: Crawl, s: State, acts: seq<Action>, a: Action, s': State) returns (mid: State)
    requires Run(c, s, acts + [a], s')
    ensures Run(c, s, acts, mid) && Enabled(c, mid, a) && s' == Step(c, mid, a)
    decreases |acts|
  {
    hide Step, Enabled;
    if acts == [] {
      mid := s;
      assert (acts + [a])[0] == a && (acts + [a])[1..] == [];
    } else {
      assert (acts + [a])[0] == acts[0] && (acts + [a])[1..] == acts[1..] + [a];
      mid := RunLast(c, Step(c, s, acts[0]), acts[1..], a, s');
    }
  }

  lemma SignalSnoc(acts: seq<Action>, a: Action, k: nat)
    ensures k <= |acts| ==> SignalBefore(acts + [a], k) == SignalBefore(acts, k)
    ensures SignalBefore(acts + [a], |acts| + 1) <==> SignalBefore(acts, |acts|) || a.ShutdownSignal?
  {
    var all := acts + [a];
    assert all[|acts|] == a;
    assert forall j | 0 <= j < |acts| :: all[j] == acts[j];
  }

  lemma EverSnoc(acts: seq<Action>, a: Action, i: nat)
    ensures EverSkipped(acts + [a], i) <==> EverSkipped(acts, i) || SkippedAt(acts + [a], i, |acts|)
    ensures EverInterrupted(acts + [a], i) <==> EverInterrupted(acts, i) || InterruptedAt(acts + [a], i, |acts|)
  {
    var all := acts + [a];
    forall k: nat | k < |acts|
      ensures SkippedAt(all, i, k) == SkippedAt(acts, i, k) && InterruptedAt(all, i, k) == InterruptedAt(acts, i, k)
    {
      SignalSnoc(acts, a, k);
    }
    hide SkippedAt, InterruptedAt;
    if k :| 0 <= k < |acts| && SkippedAt(acts, i, k) {
      assert SkippedAt(all, i, k);
    }
    if k :| 0 <= k < |acts| && InterruptedAt(acts, i, k) {
      assert InterruptedAt(all, i, k);
    }
  }

  // ---- the theorem -----------------------------------------------------------------------------------------

  // Only steps of workers that have been dispatched occur.
  ghost predicate Known(acts: seq<Action>, s: State) {
    && (s.shutdown.Some? <==> SignalBefore(acts, |acts|))
    && (forall a | a in acts && a.Work? :: a.i < |s.workers|)
  }

  lemma KnownStep(c: Crawl, acts: seq<Action>, s: State, a: Action)
    requires Known(acts, s) && Enabled(c, s, a)
    ensures Known(acts + [a], Step(c, s, a))
  {
    SignalSnoc(acts, a, |acts|);
    assert |acts + [a]| == |acts| + 1;
    match a
    case Work(i, w) =>
      WorkerStepPool(s, i, w);
      hide WorkerStep;
    case Dispatch(d) =>
      DispatcherKeepsSignals(c, s, d);
      DispatcherPool(c, s, d);
      hide DispatcherStep;
    case _ =>
  }

  lemma DispatcherPool(c: Crawl, s: State, d: DispatcherAction)
    requires DispatcherEnabled(c, s, d)
    ensures var ws := DispatcherStep(c, s, d).workers;
      if d.SpawnWorker?
      then |ws| == |s.workers| + 1 && ws[..|s.workers|] == s.workers && ws[|s.workers|].phase == Fetching
      else ws == s.workers
  {
    hide PageAt;
    if !d.SpawnWorker? {
      DispatcherKeepsPool(c, s, d);
    }
  }

  // A step that is not worker i's own tells nothing new about it.
  lemma TellsOther(acts: seq<Action>, i: nat, p: Phase, a: Action)
    requires Tells(acts, i, p) && !(a.Work? && a.i == i)
    ensures Tells(acts + [a], i, p)
  {
    EverSnoc(acts, a, i);
    assert (acts + [a])[|acts|] == a;
    hide EverSkipped, EverInterrupted;
  }

  // The phase that worker i's step leads to.
  lemma OwnPhase(s: State, i: nat, w: WorkerAction)
    requires WorkerEnabled(s, i, w)
    ensures var p, q := s.workers[i].phase, WorkerStep(s, i, w).workers[i].phase;
      match w
      case FetchOk => p == Fetching && q == Importing
      case FetchErr(interrupted) =>
        p == Fetching && q == Releasing(if interrupted && s.shutdown.Some? then Interrupted else Skipped)
      case ImportDone(ok) => p == Importing && q == Releasing(if ok then Imported else ImportFailed)
      case ReleaseSlot => p.Releasing? && q == Released(p.outcome)
      case Finish => p.Released? && q == Finished(p.outcome)
  {
  }

  lemma TellsOwn(acts: seq<Action>, s: State, i: nat, w: WorkerAction)
    requires Known(acts, s) && WorkerEnabled(s, i, w) && Tells(acts, i, s.workers[i].phase)
    ensures Tells(acts + [Work(i, w)], i, WorkerStep(s, i, w).workers[i].phase)
  {
    var a := Work(i, w);
    EverSnoc(acts, a, i);
    SignalSnoc(acts, a, |acts|);
    OwnPhase(s, i, w);
    assert (acts + [a])[|acts|] == a;
    hide EverSkipped, EverInterrupted, SignalBefore, WorkerStep;
  }

  lemma NewWorkerTells(acts: seq<Action>, s: State, i: nat)
    requires Known(acts, s) && i >= |s.workers|
    ensures Tells(acts, i, Fetching)
  {
  }

  lemma TellsStep(c: Crawl, acts: seq<Action>, s: State, a: Action, i: nat)
    requires Known(acts, s) && Enabled(c, s, a) && i < |Step(c, s, a).workers|
    requires i < |s.workers| ==> Tells(acts, i, s.workers[i].phase)
    ensures Tells(acts + [a], i, Step(c, s, a).workers[i].phase)
  {
    hide Tells;
    match a
    case Work(j, w) =>
      WorkerStepPool(s, j, w);
      if i == j {
        TellsOwn(acts, s, i, w);
      } else {
        TellsOther(acts, i, s.workers[i].phase, a);
      }
      hide WorkerStep;
    case Dispatch(d) =>
      DispatcherPool(c, s, d);
      hide DispatcherStep;
      if i < |s.workers| {
        TellsOther(acts, i, s.workers[i].phase, a);
      } else {
        NewWorkerTells(acts, s, i);
        TellsOther(acts, i, Fetching, a);
      }
    case _ => TellsOther(acts, i, s.workers[i].phase, a);
  }

  lemma {:induction false} StepsTell(c: Crawl, acts: seq<Action>, s: State)
    requires Run(c, Init(), acts, s)
    ensures Known(acts, s)
    ensures forall i | 0 <= i < |s.workers| :: Tells(acts, i, s.workers[i].phase)
    decreases |acts|
  {
    if acts != [] {
      var n := |acts| - 1;
      var init, a := acts[..n], acts[n];
      assert acts == init + [a];
      var mid := RunLast(c, Init(), init, a, s);
      StepsTell(c, init, mid);
      KnownStep(c, init, mid, a);
      hide Step, Tells, Known, Run;
      forall i | 0 <= i < |s.workers| ensures Tells(acts, i, s.workers[i].phase) {
        TellsStep(c, init, mid, a, i);
      }
    }
  }

  /** For every run, read off its steps alone: a worker is interrupted if and only if its fetch failed by an
      interrupted wait after the shutdown signal; any other failed fetch makes it skipped; and it is fetched,
      imported, failed, released and finished exactly by the steps that say so. */
  lemma StepsTellPhases(c: Crawl, acts: seq<Action>, s: State, i: nat)
    requires Run(c, Init(), acts, s) && i < |s.workers|
    ensures var p := s.workers[i].phase;
      && (IsInterrupted(p) <==> exists k | 0 <= k < |acts| :: InterruptedAt(acts, i, k))
      && (IsSkipped(p) <==> exists k | 0 <= k < |acts| :: SkippedAt(acts, i, k))
      && (WasFetched(p) <==> Work(i, FetchOk) in acts)
      && (IsImported(p) <==> Work(i, ImportDone(true)) in acts)
      && (IsFailed(p) <==> Work(i, ImportDone(false)) in acts)
      && (p.Released? || p.Finished? <==> Work(i, ReleaseSlot) in acts)
      && (p.Finished? <==> Work(i, Finish) in acts)
  {
    StepsTell(c, acts, s);
  }

  lemma CountersStep(c: Crawl, acts: seq<Action>, s: State, a: Action)
    requires Known(acts, s) && Enabled(c, s, a)
    ensures var s' := Step(c, s, a);
      && s'.skipped == s.skipped + Bit(IsSkip(acts + [a], |acts|))
      && s'.repoIndex == s.repoIndex + Bit(a.Work? && a.w.FetchOk?)
  {
    SignalSnoc(acts, a, |acts|);
    assert (acts + [a])[|acts|] == a;
    hide SignalBefore;
    match a
    case Dispatch(d) => DispatcherCounters(c, s, d);
    case _ =>
  }

  lemma DispatcherCounters(c: Crawl, s: State, d: DispatcherAction)
    requires DispatcherEnabled(c, s, d)
    ensures var s' := DispatcherStep(c, s, d);
      s'.skipped == s.skipped && s'.repoIndex == s.repoIndex && s'.groupErr == s.groupErr
  {
    hide PageAt;
  }

  /** The two counters that a run reports are the number of skipping steps and of successful fetches. */
  lemma {:induction false} StepsTellCounters(c: Crawl, acts: seq<Action>, s: State)
    requires Run(c, Init(), acts, s)
    ensures s.skipped == SkipSteps(acts) && s.repoIndex == FetchSteps(acts)
    decreases |acts|
  {
    if acts != [] {
      var n := |acts| - 1;
      var init, a := acts[..n], acts[n];
      assert acts == init + [a];
      var mid := RunLast(c, Init(), init, a, s);
      StepsTellCounters(c, init, mid);
      StepsTell(c, init, mid);
      hide Step, Run, Tells, Known, IsSkip;
      CountersStep(c, init, mid, a);
    }
  }

  lemma FailureSnoc(acts: seq<Action>, a: Action, k: nat)
    requires k < |acts|
    ensures FailureAt(acts + [a], k) == FailureAt(acts, k)
  {
    assert (acts + [a])[..k] == acts[..k];
  }

  lemma GroupErrStep(c: Crawl, acts: seq<Action>, s: State, a: Action)
    requires Known(acts, s) && Enabled(c, s, a)
    requires a.Work? ==> Tells(acts, a.i, s.workers[a.i].phase)
    ensures Step(c, s, a).groupErr
         == if s.groupErr.None? && FailureAt(acts + [a], |acts|) then Some(a.i) else s.groupErr
  {
    assert (acts + [a])[|acts|] == a && (acts + [a])[..|acts|] == acts;
    hide EverSkipped, EverInterrupted, SignalBefore;
    match a
    case Dispatch(d) => DispatcherCounters(c, s, d);
    case _ =>
  }

  /** The error that the errgroup keeps, and Run returns, is that of the first worker to leave with a failed
      import; there is none if and only if no worker left so. */
  lemma {:induction false} FirstErrorIsKept(c: Crawl, acts: seq<Action>, s: State)
    requires Run(c, Init(), acts, s)
    ensures s.groupErr.None? <==> forall k | 0 <= k < |acts| :: !FailureAt(acts, k)
    ensures s.groupErr.Some? ==>
      exists k: nat | k < |acts| :: FirstFailureAt(acts, k) && acts[k].Work? && acts[k].i == s.groupErr.value
    decreases |acts|
  {
    if acts != [] {
      var n := |acts| - 1;
      var init, a := acts[..n], acts[n];
      assert acts == init + [a];
      var mid := RunLast(c, Init(), init, a, s);
      FirstErrorIsKept(c, init, mid);
      StepsTell(c, init, mid);
      hide Run;
      GroupErrStep(c, init, mid, a);
      hide Step, Tells, Known, FailureAt;
      forall k: nat | k < n ensures FailureAt(acts, k) == FailureAt(init, k) {
        FailureSnoc(init, a, k);
      }
      if mid.groupErr.Some? {
        var k: nat :| k < n && FirstFailureAt(init, k) && init[k].Work? && init[k].i == mid.groupErr.value;
        assert FirstFailureAt(acts, k) && acts[k] == init[k];
      } else if FailureAt(acts, n) {
        assert FirstFailureAt(acts, n);
        assert acts[n].Work? by { FailureIsWork(acts, n); }
      }
    }
  }

  lemma FailureIsWork(acts: seq<Action>, k: nat)
    requires FailureAt(acts, k)
    ensures acts[k].Work?
  {
  }

  /** The environment may give any answer at any time: a page may come or fail, a fetch and an import may
      succeed or fail, in each way, and a signal may come once. */
  lemma AnyAnswer(c: Crawl, s: State, i: nat, interrupted: bool, ok: bool, err: CtxErr)
    requires i < |s.workers|
    ensures s.pc.FetchPage? ==>
      Enabled(c, s, Dispatch(PageArrives)) && Enabled(c, s, Dispatch(PageFails(ok)))
    ensures s.workers[i].phase.Fetching? ==>
      Enabled(c, s, Work(i, FetchOk)) && Enabled(c, s, Work(i, FetchErr(interrupted)))
    ensures s.workers[i].phase.Importing? ==> Enabled(c, s, Work(i, ImportDone(ok)))
    ensures s.shutdown.None? ==> Enabled(c, s, ShutdownSignal(err))
    ensures s.group.None? ==> Enabled(c, s, CancelProcessing(err))
  {
  }
}
