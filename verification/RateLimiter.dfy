/** The shared rate limiter `ResourceRateLimiter` (internal/fetcher/ratelimit.go).

    Time is counted in ticks since the zero time, so 0 is `time.Time{}` and a fresh state is not in
    cooldown. A method takes as arguments the clock values it reads. */
module RateLimiter {

  type Instant = nat

  const CORE := "core"
  const GRAPHQL := "graphql"

  datatype RateState = RateState(blockedUntil: Instant, hits: nat, extensions: nat, waits: nat, totalWait: int)

  datatype BlockResult = BlockResult(started: bool, extended: bool, remaining: int, blockedUntil: Instant)

  datatype Stats = Stats(hits: nat, extensions: nat, waits: nat, totalWait: int)

  const FRESH := RateState(0, 0, 0, 0, 0)

  const NOTHING := BlockResult(false, false, 0, 0)

  type States = map<string, RateState>

  const NEW_STATES: States := map[CORE := FRESH, GRAPHQL := FRESH]

  function Lookup(states: States, resource: string): RateState {
    if resource in states then states[resource] else FRESH
  }

  function Max(a: int, b: int): int { if a < b then b else a }

  // ---- one cooldown ------------------------------------------------------------------------------

  predicate Starts(st: RateState, until: Instant, now: Instant) {
    st.blockedUntil <= now < until
  }

  predicate Extends(st: RateState, until: Instant, now: Instant) {
    now < st.blockedUntil < until
  }

  // The state after a request to block until `until`, made at `now`.
  function Block(st: RateState, until: Instant, now: Instant): RateState {
    var st1 := if until > st.blockedUntil
               then st.(blockedUntil := until, totalWait := st.totalWait + until - Max(now, st.blockedUntil))
               else st;
    st1.(hits := if Starts(st, until, now) then st.hits + 1 else st.hits,
         extensions := if Extends(st, until, now) then st.extensions + 1 else st.extensions)
  }

  // Somebody's call of BlockUntil.
  datatype Call = Call(resource: string, until: Instant, now: Instant)

  function Apply(states: States, call: Call): States {
    if call.until == 0 then states
    else states[call.resource := Block(Lookup(states, call.resource), call.until, call.now)]
  }

  function ApplyAll(states: States, calls: seq<Call>): States
    decreases |calls|
  {
    if calls == [] then states else ApplyAll(Apply(states, calls[0]), calls[1..])
  }

  // What other goroutines do, and how this goroutine's timer behaves, while it sleeps: the timer
  // fires `late` ticks after it is due, or the sleep is interrupted.
  datatype Sleep = Slept(late: nat, calls: seq<Call>) | Interrupted(calls: seq<Call>)

  datatype WaitResult = Ready(at: Instant) | Failed | Asleep

  datatype WaitRun = WaitRun(result: WaitResult, states: States, sleeps: nat, calls: seq<Call>)

  function CountWait(states: States, resource: string): States {
    var st := Lookup(states, resource);
    states[resource := st.(waits := st.waits + 1)]
  }

  // The run of Wait: how it ended, the final states, how often it slept, and the calls that other
  // goroutines made meanwhile.
  function WaitFrom(states: States, resource: string, now: Instant, script: seq<Sleep>): WaitRun
    decreases |script|
  {
    var st := Lookup(states, resource);
    if st.blockedUntil <= now then WaitRun(Ready(now), states[resource := st], 0, [])
    else
      var states1 := CountWait(states, resource);
      if script == [] then WaitRun(Asleep, states1, 1, [])
      else match script[0]
        case Interrupted(calls) => WaitRun(Failed, ApplyAll(states1, calls), 1, calls)
        case Slept(late, calls) =>
          var rest := WaitFrom(ApplyAll(states1, calls), resource, st.blockedUntil + late, script[1..]);
          rest.(sleeps := rest.sleeps + 1, calls := calls + rest.calls)
  }

  class ResourceRateLimiter {
    var states: map<string, RateState>

    constructor ()
      ensures states == NEW_STATES
    {
      states := NEW_STATES;
    }

    method State(resource: string) returns (st: RateState)
      modifies this
      ensures st == Lookup(old(states), resource)
      ensures states == old(states)[resource := st]
    {
      if resource !in states {
        states := states[resource := FRESH];
      }
      st := states[resource];
    }

    // `later` is the second clock reading, for the remaining cooldown.
    method BlockUntil(resource: string, until: Instant, now: Instant, later: Instant) returns (result: BlockResult)
      modifies this
      ensures states == Apply(old(states), Call(resource, until, now))
      ensures until == 0 ==> result == NOTHING
      ensures until != 0 ==>
        var st := Lookup(old(states), resource);
        && result.started == Starts(st, until, now)
        && result.extended == Extends(st, until, now)
        && result.blockedUntil == Max(st.blockedUntil, until)
        && result.remaining == Max(0, Max(st.blockedUntil, until) - later)
    {
      if until == 0 {
        return NOTHING;
      }
      var state := State(resource);
      var prevUntil := state.blockedUntil;
      result := NOTHING.(started := !(prevUntil > now) && until > now);
      if until > prevUntil {
        var start := now;
        if prevUntil > start {
          start := prevUntil;
        }
        state := state.(blockedUntil := until, totalWait := state.totalWait + (until - start));
        result := result.(extended := prevUntil > now);
      }
      if result.started {
        state := state.(hits := state.hits + 1);
      }
      if result.extended {
        state := state.(extensions := state.extensions + 1);
      }
      states := states[resource := state];
      result := result.(remaining := state.blockedUntil - later);
      if result.remaining < 0 {
        result := result.(remaining := 0);
      }
      result := result.(blockedUntil := state.blockedUntil);
    }

    // `before` is read outside the lock, `now` and `later` inside it.
    method BlockFor(resource: string, wait: int, before: Instant, now: Instant, later: Instant)
      returns (result: BlockResult)
      requires before <= now <= later
      modifies this
      ensures wait <= 0 ==> result == NOTHING && states == old(states)
      ensures wait > 0 ==>
        && states == Apply(old(states), Call(resource, before + wait, now))
        && Lookup(states, resource).blockedUntil >= before + wait
        && result.blockedUntil == Lookup(states, resource).blockedUntil
    {
      if wait <= 0 {
        return NOTHING;
      }
      result := BlockUntil(resource, before + wait, now, later);
    }

    method Wait(resource: string, start: Instant, script: seq<Sleep>) returns (result: WaitResult, ghost run: WaitRun)
      modifies this
      ensures run == WaitFrom(old(states), resource, start, script)
      ensures result == run.result && states == run.states
    {
      hide ApplyAll;
      var now: Instant := start;
      var k := 0;
      ghost var sleeps, seen := 0, [];
      ghost var all := WaitFrom(states, resource, start, script);
      while true
        invariant 0 <= k <= |script|
        invariant var rest := WaitFrom(states, resource, now, script[k..]);
          all == WaitRun(rest.result, rest.states, sleeps + rest.sleeps, seen + rest.calls)
        decreases |script| - k
      {
        ghost var before := states;
        var state := State(resource);
        var wait := state.blockedUntil - now;
        if wait <= 0 {
          assert seen + [] == seen;
          return Ready(now), all;
        }
        states := states[resource := state.(waits := state.waits + 1)];
        assert states == CountWait(before, resource);
        if k == |script| {
          assert seen + [] == seen;
          return Asleep, all;
        }
        states := ApplyAll(states, script[k].calls);
        if script[k].Interrupted? {
          return Failed, all;
        }
        assert script[k..][1..] == script[k + 1..];
        ghost var rest := WaitFrom(states, resource, state.blockedUntil + script[k].late, script[k + 1..]);
        assert seen + (script[k].calls + rest.calls) == (seen + script[k].calls) + rest.calls;
        sleeps, seen := sleeps + 1, seen + script[k].calls;
        now := now + wait + script[k].late;
        k := k + 1;
      }
    }

    method GetStats() returns (stats: map<string, Stats>)
      ensures stats.Keys == states.Keys
      ensures forall r | r in states ::
        stats[r] == Stats(states[r].hits, states[r].extensions, states[r].waits, states[r].totalWait)
    {
      stats := map[];
      var todo := states.Keys;
      while todo != {}
        invariant todo <= states.Keys && stats.Keys == states.Keys - todo
        invariant forall r | r in stats ::
          stats[r] == Stats(states[r].hits, states[r].extensions, states[r].waits, states[r].totalWait)
        decreases |todo|
      {
        var r :| r in todo;
        var st := states[r];
        stats := stats[r := Stats(st.hits, st.extensions, st.waits, st.totalWait)];
        todo := todo - {r};
      }
    }

    method Reset()
      modifies this
      ensures states == NEW_STATES
    {
      states := NEW_STATES;
    }
  }

  // ---- the counters' meaning -----------------------------------------------------------------------

  // A resource's state after a sequence of calls, from fresh.
  function After(calls: seq<Call>): RateState {
    if calls == [] then FRESH
    else var last := calls[|calls| - 1]; Block(After(calls[..|calls| - 1]), last.until, last.now)
  }

  // The calls were made in order by a clock that does not run backwards.
  predicate Clocked(calls: seq<Call>) {
    forall i, j | 0 <= i < j < |calls| :: calls[i].now <= calls[j].now
  }

  predicate Within(a: nat, t: nat, b: nat) { a <= t < b }

  function Ticks(a: nat, b: nat): set<nat> {
    set t: nat | t < b && Within(a, t, b)
  }

  // The ticks [t, t+1) in the union of the cooldowns [now, until).
  function Covered(calls: seq<Call>): set<nat> {
    if calls == [] then {}
    else var n := |calls| - 1; Covered(calls[..n]) + Ticks(calls[n].now, calls[n].until)
  }

  // The open cooldown intervals' union contains the instant t.
  predicate Interior(calls: seq<Call>, t: nat) {
    exists i | 0 <= i < |calls| :: calls[i].now < t < calls[i].until
  }

  // Left ends of the connected components of the open intervals' union: one per component.
  ghost function WindowStarts(calls: seq<Call>): set<nat> {
    set t | t in Covered(calls) && !Interior(calls, t)
  }

  // The calls that moved the deadline to a later instant in their own future.
  ghost function Moves(calls: seq<Call>): set<nat> {
    set i | 0 <= i < |calls| && MovesDeadline(calls, i)
  }

  predicate MovesDeadline(calls: seq<Call>, i: nat)
    requires i < |calls|
  {
    calls[i].now < calls[i].until && forall j | 0 <= j < i :: calls[j].until < calls[i].until
  }

  // A call whose deadline had passed when the lock was taken, and was still the latest so far,
  // takes its lateness off the accumulated wait.
  ghost predicate IsStale(calls: seq<Call>, i: nat)
    requires i < |calls|
  {
    0 < calls[i].until < calls[i].now && forall j | 0 <= j < i :: calls[j].until < calls[i].until
  }

  ghost function Overshoot(calls: seq<Call>): nat {
    if calls == [] then 0
    else
      var n := |calls| - 1;
      Overshoot(calls[..n]) + if IsStale(calls, n) then calls[n].now - calls[n].until else 0
  }

  lemma {:induction false} TicksSize(a: nat, b: nat)
    ensures |Ticks(a, b)| == if a <= b then b - a else 0
    decreases b
  {
    if a < b {
      TicksSize(a, b - 1);
      forall t: nat ensures t in Ticks(a, b) <==> t in Ticks(a, b - 1) || t == b - 1 {
        assert Within(a, t, b) <==> Within(a, t, b - 1) || t == b - 1;
      }
      assert Ticks(a, b) == Ticks(a, b - 1) + {b - 1};
    } else {
      assert Ticks(a, b) == {};
    }
  }

  lemma {:induction false} LatestDeadline(calls: seq<Call>)
    ensures forall i | 0 <= i < |calls| :: calls[i].until <= After(calls).blockedUntil
    ensures After(calls).blockedUntil == 0 || exists i | 0 <= i < |calls| :: calls[i].until == After(calls).blockedUntil
  {
    if calls != [] {
      var n := |calls| - 1;
      var init := calls[..n];
      LatestDeadline(init);
      if After(calls).blockedUntil != After(init).blockedUntil {
        assert calls[n].until == After(calls).blockedUntil;
      } else if After(init).blockedUntil != 0 {
        var i :| 0 <= i < n && init[i].until == After(init).blockedUntil;
        assert calls[i].until == After(calls).blockedUntil;
      }
    }
  }

  lemma {:induction false} CoveredMeaning(calls: seq<Call>, t: nat)
    ensures t in Covered(calls) <==> exists i | 0 <= i < |calls| :: calls[i].now <= t < calls[i].until
  {
    if calls != [] {
      var n := |calls| - 1;
      CoveredMeaning(calls[..n], t);
      assert forall i | 0 <= i < n :: calls[..n][i] == calls[i];
      assert t in Ticks(calls[n].now, calls[n].until) <==> Within(calls[n].now, t, calls[n].until);
    }
  }

  // From the last call's instant on, exactly the ticks before the deadline are covered.
  lemma CoveredAhead(calls: seq<Call>, now: nat, t: nat)
    requires forall i | 0 <= i < |calls| :: calls[i].now <= now
    ensures t in Covered(calls) ==> t < After(calls).blockedUntil
    ensures now <= t < After(calls).blockedUntil ==> t in Covered(calls)
    ensures now < t < After(calls).blockedUntil ==> Interior(calls, t)
  {
    LatestDeadline(calls);
    CoveredMeaning(calls, t);
  }

  // How many ticks the last call adds to the union.
  lemma CoveredGrowth(calls: seq<Call>)
    requires calls != [] && Clocked(calls)
    ensures var n := |calls| - 1; var b := After(calls[..n]).blockedUntil;
      |Covered(calls)| == |Covered(calls[..n])| + Max(0, calls[n].until - Max(calls[n].now, b))
  {
    var n := |calls| - 1;
    var old_, last := calls[..n], calls[n];
    var b := After(old_).blockedUntil;
    forall t: nat ensures t in Covered(old_) ==> t < b
                  ensures last.now <= t < b ==> t in Covered(old_) {
      CoveredAhead(old_, last.now, t);
    }
    TicksBeyond(Covered(old_), b, last.now, last.until);
  }

  lemma TicksBeyond(c: set<nat>, b: nat, now: nat, until: nat)
    requires forall t | t in c :: t < b
    requires forall t: nat | now <= t < b :: t in c
    ensures |c + Ticks(now, until)| == |c| + Max(0, until - Max(now, b))
  {
    var from := Max(now, b);
    forall t: nat ensures t in Ticks(now, until) <==> Within(now, t, until)
                  ensures t in Ticks(from, until) <==> Within(from, t, until) {
    }
    assert c + Ticks(now, until) == c + Ticks(from, until);
    assert c !! Ticks(from, until);
    TicksSize(from, until);
  }

  lemma WindowStartsGrowth(calls: seq<Call>)
    requires calls != [] && Clocked(calls)
    ensures var n := |calls| - 1;
      var started := Starts(After(calls[..n]), calls[n].until, calls[n].now);
      && WindowStarts(calls) == WindowStarts(calls[..n]) + (if started then {calls[n].now} else {})
      && (started ==> calls[n].now !in WindowStarts(calls[..n]))
  {
    var n := |calls| - 1;
    var old_, last := calls[..n], calls[n];
    forall t: nat ensures Interior(calls, t) <==> Interior(old_, t) || last.now < t < last.until {
      if Interior(calls, t) {
        var i :| 0 <= i < |calls| && calls[i].now < t < calls[i].until;
        if i < n { assert old_[i] == calls[i]; }
      }
      if Interior(old_, t) {
        var i :| 0 <= i < n && old_[i].now < t < old_[i].until;
        assert calls[i].now < t < calls[i].until;
      }
    }
    LatestDeadline(old_);
    CoveredAhead(old_, last.now, last.now);
    forall t: nat
      ensures t in WindowStarts(calls)
        <==> t in WindowStarts(old_) || (t == last.now && Starts(After(old_), last.until, last.now))
    {
      CoveredAhead(old_, last.now, t);
      assert t in Ticks(last.now, last.until) <==> Within(last.now, t, last.until);
    }
  }

  lemma MovesGrowth(calls: seq<Call>)
    requires calls != []
    ensures var n := |calls| - 1;
      Moves(calls) == Moves(calls[..n]) + (if MovesDeadline(calls, n) then {n} else {})
  {
    var n := |calls| - 1;
    forall i | 0 <= i < n ensures MovesDeadline(calls, i) == MovesDeadline(calls[..n], i) {
      assert forall j | 0 <= j <= i :: calls[..n][j] == calls[j];
    }
  }

  // A call moves the deadline exactly when it starts a window or extends one.
  lemma MoveIsStartOrExtension(calls: seq<Call>)
    requires calls != []
    ensures var n := |calls| - 1; var st := After(calls[..n]);
      && MovesDeadline(calls, n)
         == (Starts(st, calls[n].until, calls[n].now) || Extends(st, calls[n].until, calls[n].now))
      && (IsStale(calls, n) <==> st.blockedUntil < calls[n].until < calls[n].now)
  {
    var n := |calls| - 1;
    var old_, st := calls[..n], After(calls[..n]);
    LatestDeadline(old_);
    assert forall j | 0 <= j < n :: old_[j] == calls[j];
    if st.blockedUntil != 0 {
      var i :| 0 <= i < n && old_[i].until == st.blockedUntil;
      assert calls[i].until == st.blockedUntil;
    }
  }

  lemma {:induction false} TotalWaitMeaning(calls: seq<Call>)
    requires Clocked(calls)
    ensures After(calls).totalWait + Overshoot(calls) == |Covered(calls)|
  {
    if calls != [] {
      TotalWaitMeaning(calls[..|calls| - 1]);
      CoveredGrowth(calls);
      MoveIsStartOrExtension(calls);
      hide Covered, IsStale;
    }
  }

  lemma {:induction false} HitsMeaning(calls: seq<Call>)
    requires Clocked(calls)
    ensures After(calls).hits == |WindowStarts(calls)|
  {
    if calls == [] {
      assert WindowStarts(calls) == {};
    } else {
      HitsMeaning(calls[..|calls| - 1]);
      WindowStartsGrowth(calls);
      hide WindowStarts;
    }
  }

  lemma {:induction false} MovesMeaning(calls: seq<Call>)
    ensures After(calls).hits + After(calls).extensions == |Moves(calls)|
    ensures After(calls).waits == 0
  {
    if calls == [] {
      assert Moves(calls) == {};
    } else {
      var n := |calls| - 1;
      MovesMeaning(calls[..n]);
      MovesGrowth(calls);
      MoveIsStartOrExtension(calls);
      assert n !in Moves(calls[..n]);
      hide Moves, MovesDeadline, IsStale;
    }
  }

  /** Interval-union accounting, for every sequence of calls whose clock does not run backwards:
      the total wait is the number of ticks in the union of the cooldowns, less what stale calls took
      off; hits counts the connected components of the union of the open intervals; hits and
      extensions together count the calls that moved the deadline. */
  lemma Accounting(calls: seq<Call>)
    requires Clocked(calls)
    ensures After(calls).totalWait + Overshoot(calls) == |Covered(calls)|
    ensures After(calls).hits == |WindowStarts(calls)|
    ensures After(calls).hits + After(calls).extensions == |Moves(calls)|
  {
    TotalWaitMeaning(calls);
    HitsMeaning(calls);
    MovesMeaning(calls);
  }

  /** The total wait is the measure of the union exactly when no call is stale; BlockFor's callers
      can make a stale call only by waiting for the lock longer than the cooldown they ask for. */
  lemma TotalWaitExact(calls: seq<Call>)
    requires Clocked(calls)
    ensures After(calls).totalWait == |Covered(calls)|
      <==> forall i | 0 <= i < |calls| :: !IsStale(calls, i)
  {
    Accounting(calls);
    OvershootZero(calls);
  }

  lemma {:induction false} OvershootZero(calls: seq<Call>)
    ensures Overshoot(calls) == 0 <==> forall i | 0 <= i < |calls| :: !IsStale(calls, i)
  {
    if calls != [] {
      var n := |calls| - 1;
      OvershootZero(calls[..n]);
      forall i | 0 <= i < n ensures IsStale(calls, i) == IsStale(calls[..n], i) {
        assert forall j | 0 <= j <= i :: calls[..n][j] == calls[j];
      }
    }
  }

  /** Without that, the total wait can shrink: a deadline of 5 requested at instant 9. */
  lemma StaleCallShrinksTotal()
    ensures Block(FRESH, 5, 9).totalWait < FRESH.totalWait
  {
  }

  // The calls made on one resource.
  function Only(calls: seq<Call>, resource: string): seq<Call> {
    if calls == [] then []
    else
      var n := |calls| - 1;
      Only(calls[..n], resource) + if calls[n].resource == resource then [calls[n]] else []
  }

  lemma {:induction false} OnlyClocked(calls: seq<Call>, resource: string)
    requires Clocked(calls)
    ensures Clocked(Only(calls, resource))
    ensures forall i | 0 <= i < |Only(calls, resource)| :: Only(calls, resource)[i] in calls
  {
    if calls != [] {
      var n := |calls| - 1;
      OnlyClocked(calls[..n], resource);
      var init := Only(calls[..n], resource);
      forall i | 0 <= i < |init| ensures init[i] in calls && init[i].now <= calls[n].now {
        assert init[i] in calls[..n];
      }
    }
  }

  /** The limiter shared by all goroutines keeps, for each resource, the state that the calls on that
      resource alone would make; so Accounting speaks of every resource of a limiter. */
  lemma {:induction false} LimiterState(calls: seq<Call>, resource: string)
    ensures Lookup(ApplyAll(NEW_STATES, calls), resource) == After(Only(calls, resource))
  {
    if calls != [] {
      var n := |calls| - 1;
      LimiterState(calls[..n], resource);
      assert calls == calls[..n] + [calls[n]];
      ApplyAllAppend(NEW_STATES, resource, calls[..n], [calls[n]]);
      var before := ApplyAll(NEW_STATES, calls[..n]);
      assert ApplyAll(before, [calls[n]]) == Apply(before, calls[n]) by {
        assert [calls[n]][1..] == [];
      }
      if calls[n].resource == resource {
        var init := Only(calls[..n], resource);
        assert (init + [calls[n]])[..|init|] == init;
      } else {
        assert Only(calls, resource) == Only(calls[..n], resource);
      }
    } else {
      assert ApplyAll(NEW_STATES, calls) == NEW_STATES;
    }
  }

  // ---- Wait ----------------------------------------------------------------------------------------

  // How often the calls move the resource's deadline forward.
  function Advances(states: States, resource: string, calls: seq<Call>): nat
    decreases |calls|
  {
    if calls == [] then 0
    else
      var next := Apply(states, calls[0]);
      (if Lookup(states, resource).blockedUntil < Lookup(next, resource).blockedUntil then 1 else 0)
      + Advances(next, resource, calls[1..])
  }

  // Adding to the wait counter of a resource commutes with other goroutines' calls.
  function AddWaits(states: States, resource: string, n: nat): States {
    var st := Lookup(states, resource);
    states[resource := st.(waits := st.waits + n)]
  }

  lemma {:induction false} CallsKeepWaits(states: States, resource: string, n: nat, calls: seq<Call>)
    ensures ApplyAll(AddWaits(states, resource, n), calls)
         == AddWaits(ApplyAll(states, calls), resource, n)
    ensures Advances(AddWaits(states, resource, n), resource, calls) == Advances(states, resource, calls)
    decreases |calls|
  {
    if calls != [] {
      assert Apply(AddWaits(states, resource, n), calls[0]) == AddWaits(Apply(states, calls[0]), resource, n);
      CallsKeepWaits(Apply(states, calls[0]), resource, n, calls[1..]);
    }
  }

  lemma {:induction false} ApplyAllAppend(states: States, resource: string, a: seq<Call>, b: seq<Call>)
    ensures ApplyAll(states, a + b) == ApplyAll(ApplyAll(states, a), b)
    ensures Advances(states, resource, a + b)
         == Advances(states, resource, a) + Advances(ApplyAll(states, a), resource, b)
    decreases |a|
  {
    if a == [] {
      assert a + b == b;
    } else {
      assert (a + b)[1..] == a[1..] + b;
      ApplyAllAppend(Apply(states, a[0]), resource, a[1..], b);
    }
  }

  // Deadlines only move forward.
  lemma {:induction false} DeadlineGrows(states: States, resource: string, calls: seq<Call>)
    ensures Lookup(states, resource).blockedUntil <= Lookup(ApplyAll(states, calls), resource).blockedUntil
    ensures Advances(states, resource, calls) == 0 ==>
      Lookup(states, resource).blockedUntil == Lookup(ApplyAll(states, calls), resource).blockedUntil
    decreases |calls|
  {
    if calls != [] {
      DeadlineGrows(Apply(states, calls[0]), resource, calls[1..]);
    }
  }

  lemma AddWaitsTwice(states: States, resource: string, n: nat)
    ensures AddWaits(AddWaits(states, resource, 1), resource, n) == AddWaits(states, resource, n + 1)
    ensures Lookup(AddWaits(states, resource, n), resource).blockedUntil == Lookup(states, resource).blockedUntil
  {
  }

  // One sleep of Wait, seen from the run that starts after it.
  lemma WaitUnfold(states: States, resource: string, now: Instant, script: seq<Sleep>)
    requires now < Lookup(states, resource).blockedUntil && script != [] && script[0].Slept?
    ensures var rest := WaitFrom(AddWaits(ApplyAll(states, script[0].calls), resource, 1), resource,
                                 Lookup(states, resource).blockedUntil + script[0].late, script[1..]);
      WaitFrom(states, resource, now, script)
        == WaitRun(rest.result, rest.states, rest.sleeps + 1, script[0].calls + rest.calls)
  {
    assert CountWait(states, resource) == AddWaits(states, resource, 1);
    CallsKeepWaits(states, resource, 1, script[0].calls);
  }

  /** Wait returns nil only at an instant not before the deadline; besides what other goroutines'
      calls did, it has only counted its own sleeps on its own resource; and it slept at most once,
      plus once for every advance of the deadline meanwhile. */
  lemma {:induction false} WaitContract(states: States, resource: string, now: Instant, script: seq<Sleep>)
    ensures var w := WaitFrom(states, resource, now, script);
      && (w.result.Ready? ==> now <= w.result.at && Lookup(w.states, resource).blockedUntil <= w.result.at)
      && w.states == AddWaits(ApplyAll(states, w.calls), resource, w.sleeps)
      && w.sleeps <= 1 + Advances(states, resource, w.calls)
      && (w.sleeps > 0 <==> now < Lookup(states, resource).blockedUntil)
    decreases |script|
  {
    var st := Lookup(states, resource);
    if st.blockedUntil <= now || script == [] || script[0].Interrupted? {
      assert CountWait(states, resource) == AddWaits(states, resource, 1);
      if script != [] {
        CallsKeepWaits(states, resource, 1, script[0].calls);
      }
    } else {
      var calls, then_ := script[0].calls, st.blockedUntil + script[0].late;
      var mid := ApplyAll(states, calls);
      var rest := WaitFrom(AddWaits(mid, resource, 1), resource, then_, script[1..]);
      WaitUnfold(states, resource, now, script);
      WaitContract(AddWaits(mid, resource, 1), resource, then_, script[1..]);
      hide WaitFrom, ApplyAll, Advances, AddWaits;
      CallsKeepWaits(mid, resource, 1, rest.calls);
      ApplyAllAppend(states, resource, calls, rest.calls);
      AddWaitsTwice(ApplyAll(mid, rest.calls), resource, rest.sleeps);
      AddWaitsTwice(mid, resource, 1);
      DeadlineGrows(states, resource, calls);
    }
  }

  /** In particular Wait leaves every other resource as the other goroutines' calls left it. */
  lemma WaitKeepsOthers(states: States, resource: string, now: Instant, script: seq<Sleep>, other: string)
    requires other != resource
    ensures var w := WaitFrom(states, resource, now, script);
      Lookup(w.states, other) == Lookup(ApplyAll(states, w.calls), other)
  {
    WaitContract(states, resource, now, script);
  }

  // The calls made during these sleeps.
  function CallsDuring(script: seq<Sleep>): seq<Call> {
    if script == [] then [] else script[0].calls + CallsDuring(script[1..])
  }

  // The deadline that a state of the limiter holds for the resource.
  function Deadline(states: States, resource: string): Instant { Lookup(states, resource).blockedUntil }

  // When the n-th sleep ends: its lateness after the deadline that was seen when it began.
  function WakesAt(states: States, resource: string, script: seq<Sleep>, n: nat): Instant
    requires n < |script| && script[n].Slept?
  {
    Deadline(ApplyAll(states, CallsDuring(script[..n])), resource) + script[n].late
  }

  lemma CallsDuringFirst(script: seq<Sleep>, n: nat)
    requires script != [] && n <= |script| - 1
    ensures CallsDuring(script[..n + 1]) == script[0].calls + CallsDuring(script[1..][..n])
  {
    assert script[..n + 1][0] == script[0] && script[..n + 1][1..] == script[1..][..n];
  }

  // One sleep earlier, and with its own wait counted, the later sleeps end when they did.
  lemma WakesLater(states: States, resource: string, script: seq<Sleep>, n: nat)
    requires 1 <= n < |script| && script[n].Slept?
    ensures var mid := AddWaits(ApplyAll(states, script[0].calls), resource, 1);
      WakesAt(mid, resource, script[1..], n - 1) == WakesAt(states, resource, script, n)
  {
    hide ApplyAll, Advances, CallsDuring;
    var calls, later := script[0].calls, CallsDuring(script[1..][..n - 1]);
    CallsDuringFirst(script, n - 1);
    CallsKeepWaits(ApplyAll(states, calls), resource, 1, later);
    ApplyAllAppend(states, resource, calls, later);
  }

  /** Wait ends no later than it must: it is ready at once, or its lateness after the last deadline it saw; it
      fails only when a sleep is interrupted; and it has slept through exactly the sleeps before. */
  lemma {:induction false} WaitEnds(states: States, resource: string, now: Instant, script: seq<Sleep>)
    ensures var w := WaitFrom(states, resource, now, script); var n := w.sleeps;
      match w.result
      case Ready(at) =>
        && n <= |script| && w.calls == CallsDuring(script[..n]) && (forall i | 0 <= i < n :: script[i].Slept?)
        && at == if n == 0 then now else WakesAt(states, resource, script, n - 1)
      case Failed =>
        && 1 <= n <= |script| && w.calls == CallsDuring(script[..n]) && script[n - 1].Interrupted?
        && forall i | 0 <= i < n - 1 :: script[i].Slept?
      case Asleep =>
        n == |script| + 1 && w.calls == CallsDuring(script) && forall i | 0 <= i < |script| :: script[i].Slept?
    decreases |script|
  {
    var st := Lookup(states, resource);
    if st.blockedUntil <= now || script == [] {
    } else if script[0].Interrupted? {
      CallsDuringFirst(script, 0);
      assert script[1..][..0] == [];
      assert script[0].calls + [] == script[0].calls;
    } else {
      var mid, then_ := AddWaits(ApplyAll(states, script[0].calls), resource, 1), st.blockedUntil + script[0].late;
      WaitUnfold(states, resource, now, script);
      WaitEnds(mid, resource, then_, script[1..]);
      hide WaitFrom, AddWaits;
      var rest := WaitFrom(mid, resource, then_, script[1..]);
      assert forall i | 1 <= i < |script| :: script[i] == script[1..][i - 1];
      if !rest.result.Asleep? {
        CallsDuringFirst(script, rest.sleeps);
      }
      if rest.result.Ready? {
        if rest.sleeps == 0 {
          assert script[..0] == [];
        } else {
          WakesLater(states, resource, script, rest.sleeps);
        }
      }
      hide ApplyAll, Lookup, WakesAt, CallsDuring;
    }
  }
}
