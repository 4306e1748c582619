/** The retry policy of the fetcher (internal/fetcher/github.go): `doRequestWithHeaders`, the loop of
    `FetchRepoGraphQL`, and the durations they wait.

    Durations are int64 nanoseconds. What the network, the timers and the contexts do is a script, one
    turn for each pass of the request loop. */
module Retry {
  import opened Options

  const MAX_ATTEMPTS := 3
  const SECOND := 1_000_000_000
  const MAX_INT64 := 0x7fff_ffff_ffff_ffff
  const TWO_64 := 0x1_0000_0000_0000_0000

  // ---- int64 durations -----------------------------------------------------------------------------

  function Wrap64(x: int): int { (x + MAX_INT64 + 1) % TWO_64 - MAX_INT64 - 1 }

  function Clamp64(x: int): int {
    if x > MAX_INT64 then MAX_INT64 else if x < -MAX_INT64 - 1 then -MAX_INT64 - 1 else x
  }

  predicate IsInt64(x: int) { -MAX_INT64 - 1 <= x <= MAX_INT64 }

  function Pow2(n: nat): nat { if n == 0 then 1 else 2 * Pow2(n - 1) }

  // time.Duration(1<<uint(attempt-1)) * time.Second: a shift by 64 or more, which is also what an
  // attempt below 1 makes of it, gives 0.
  function RetryBackoff(attempt: int): int {
    if 0 <= attempt - 1 < 64 then Wrap64(Wrap64(Pow2(attempt - 1)) * SECOND) else 0
  }

  // ---- header fields -------------------------------------------------------------------------------

  predicate IsDigit(c: char) { '0' <= c <= '9' }

  predicate AllDigits(s: string) { forall i | 0 <= i < |s| :: IsDigit(s[i]) }

  function Digits(s: string): int
    requires AllDigits(s)
  {
    if s == [] then 0 else 10 * Digits(s[..|s| - 1]) + (s[|s| - 1] as int - '0' as int)
  }

  // strconv.Atoi and ParseInt(s, 10, 64)
  function ParseInt(s: string): Option<int> {
    var sign := if s != [] && s[0] == '-' then -1 else 1;
    var body := if s != [] && (s[0] == '-' || s[0] == '+') then s[1..] else s;
    if body == [] || !AllDigits(body) then None
    else
      var v := sign * Digits(body);
      if IsInt64(v) then Some(v) else None
  }

  // date is what http.ParseTime makes of the field: the time until that date, when it is one.
  datatype Headers = Headers(retryAfter: string, date: Option<int>, remaining: string, reset: string)

  function RetryAfterWait(retryAfter: string, date: Option<int>): Option<int> {
    if retryAfter == "" then None
    else match ParseInt(retryAfter)
      case Some(seconds) =>
        var wait := Wrap64(seconds * SECOND);
        if wait > 0 then Some(wait) else None
      case None => if date.Some? && date.value > 0 then date else None
  }

  // time.Until(time.Unix(ts, 0)) + time.Second, with the clock at `now` nanoseconds.
  function ResetWait(ts: int, now: int): int {
    Wrap64(Clamp64(ts * SECOND - now) + SECOND)
  }

  function RateLimitWait(h: Headers, status: int, now: int): Option<int> {
    if status < 400 then None
    else
      var retryAfter := RetryAfterWait(h.retryAfter, h.date);
      if retryAfter.Some? then retryAfter
      else if h.remaining != "0" then None
      else match ParseInt(h.reset)
        case None => None
        case Some(ts) => if ResetWait(ts, now) <= 0 then None else Some(ResetWait(ts, now))
  }

  function GraphQLRateLimitWait(h: Headers, attempt: int, now: int): int {
    var retryAfter := RetryAfterWait(h.retryAfter, h.date);
    if retryAfter.Some? then retryAfter.value
    else match ParseInt(h.reset)
      case Some(ts) => if ResetWait(ts, now) > 0 then ResetWait(ts, now) else RetryBackoff(attempt)
      case None => RetryBackoff(attempt)
  }

  // ---- one request -----------------------------------------------------------------------------------

  // What a GraphQL body that decoded without error holds.
  datatype Body = RateLimitErrors | OtherErrors | NoData | Data

  datatype Reply =
    | NetworkError
    | Response(status: int, headers: Headers, now: int, decodes: bool, body: Body)

  // One pass of the request loop; a flag says that the step it names fails.
  datatype Turn = Turn(ctxDone: bool, waitFails: bool, requestFails: bool, reply: Reply, sleepFails: bool)

  datatype Failure =
    | ContextDone | WaitFailed | BadRequest | NetworkFailed | ServerFailed(status: int)
    | Rejected(status: int) | SleepInterrupted | DecodeFailed

  datatype Outcome = Success(reply: Reply) | NotAvailable | Failed(failure: Failure) | Pending

  // calls: requests counted; backoff: time slept between attempts; cooldowns: the waits handed to
  // BlockFor; used: passes of the loop.
  datatype Trace = Trace(outcome: Outcome, calls: nat, backoff: int, cooldowns: seq<int>, used: nat)

  type Attempt = n: int | 1 <= n <= MAX_ATTEMPTS witness 1

  predicate IsLimited(reply: Reply) {
    reply.Response? && RateLimitWait(reply.headers, reply.status, reply.now).Some?
  }

  // A reply the policy retries.
  predicate IsTransient(reply: Reply, allow404: bool) {
    reply.NetworkError? || (!IsLimited(reply) && !(allow404 && reply.status == 404) && reply.status >= 500)
  }

  predicate Sends(turn: Turn) { !turn.ctxDone && !turn.waitFails }

  // A pass whose request went out and was rate-limited.
  predicate LimitedPass(turn: Turn) { !EndsEarly(turn) && IsLimited(turn.reply) }

  // A pass that ends the request, whatever the attempt number.
  predicate EndsEarly(turn: Turn) { turn.ctxDone || turn.waitFails || turn.requestFails }

  function EarlyFailure(turn: Turn): Failure
    requires EndsEarly(turn)
  {
    if turn.ctxDone then ContextDone else if turn.waitFails then WaitFailed else BadRequest
  }

  function GiveUp(reply: Reply): Failure {
    if reply.NetworkError? then NetworkFailed else ServerFailed(reply.status)
  }

  // What a reply that is neither rate-limited nor transient means.
  function Answer(reply: Reply, allow404: bool): Outcome
    requires reply.Response?
  {
    if allow404 && reply.status == 404 then NotAvailable
    else if reply.status < 200 || reply.status >= 300 then Failed(Rejected(reply.status))
    else if reply.decodes then Success(reply)
    else Failed(DecodeFailed)
  }

  // The run of doRequestWithHeaders from the pass that makes attempt `attempt`.
  function RequestFrom(turns: seq<Turn>, attempt: Attempt, allow404: bool): Trace
    decreases |turns|
  {
    if turns == [] then Trace(Pending, 0, 0, [], 0)
    else
      var t := turns[0];
      if EndsEarly(t) then Trace(Failed(EarlyFailure(t)), if Sends(t) then 1 else 0, 0, [], 1)
      else if IsLimited(t.reply) then
        var rest := RequestFrom(turns[1..], 1, allow404);
        var wait := RateLimitWait(t.reply.headers, t.reply.status, t.reply.now).value;
        Trace(rest.outcome, rest.calls + 1, rest.backoff, [wait] + rest.cooldowns, rest.used + 1)
      else if !IsTransient(t.reply, allow404) then Trace(Answer(t.reply, allow404), 1, 0, [], 1)
      else if attempt >= MAX_ATTEMPTS then Trace(Failed(GiveUp(t.reply)), 1, 0, [], 1)
      else if t.sleepFails then Trace(Failed(SleepInterrupted), 1, RetryBackoff(attempt), [], 1)
      else
        var rest := RequestFrom(turns[1..], attempt + 1, allow404);
        Trace(rest.outcome, rest.calls + 1, RetryBackoff(attempt) + rest.backoff, rest.cooldowns, rest.used + 1)
  }

  // The run `rest` after what has happened already.
  function Prepend(calls: nat, backoff: int, cooldowns: seq<int>, used: nat, rest: Trace): Trace {
    Trace(rest.outcome, calls + rest.calls, backoff + rest.backoff, cooldowns + rest.cooldowns, used + rest.used)
  }

  lemma PrependPass(calls: nat, backoff: int, cooldowns: seq<int>, used: nat, slept: int, waits: seq<int>, rest: Trace)
    ensures Prepend(calls, backoff, cooldowns, used, Prepend(1, slept, waits, 1, rest))
         == Prepend(calls + 1, backoff + slept, cooldowns + waits, used + 1, rest)
  {
    AppendAssoc(cooldowns, waits, rest.cooldowns);
  }

  lemma AppendAssoc(a: seq<int>, b: seq<int>, c: seq<int>)
    ensures a + (b + c) == (a + b) + c
  {
  }

  // A rate-limited pass starts over with the first attempt.
  lemma LimitedStep(turns: seq<Turn>, attempt: Attempt, allow404: bool)
    requires turns != [] && LimitedPass(turns[0])
    ensures var h := turns[0].reply;
      RequestFrom(turns, attempt, allow404)
        == Prepend(1, 0, [RateLimitWait(h.headers, h.status, h.now).value], 1, RequestFrom(turns[1..], 1, allow404))
  {
  }

  predicate Retried(turn: Turn, attempt: Attempt, allow404: bool) {
    !EndsEarly(turn) && IsTransient(turn.reply, allow404) && attempt < MAX_ATTEMPTS && !turn.sleepFails
  }

  // A transient pass that is retried goes on with the next attempt.
  lemma RetriedStep(turns: seq<Turn>, attempt: Attempt, allow404: bool)
    requires turns != [] && Retried(turns[0], attempt, allow404)
    ensures RequestFrom(turns, attempt, allow404)
         == Prepend(1, RetryBackoff(attempt), [], 1, RequestFrom(turns[1..], attempt + 1, allow404))
  {
    hide RateLimitWait, RetryBackoff;
  }

  // How a pass that is neither rate-limited nor retried ends the request.
  function LastOutcome(turn: Turn, attempt: Attempt, allow404: bool): Outcome
    requires !LimitedPass(turn) && !Retried(turn, attempt, allow404)
  {
    if EndsEarly(turn) then Failed(EarlyFailure(turn))
    else if !IsTransient(turn.reply, allow404) then Answer(turn.reply, allow404)
    else if attempt >= MAX_ATTEMPTS then Failed(GiveUp(turn.reply))
    else Failed(SleepInterrupted)
  }

  lemma LastStep(turns: seq<Turn>, attempt: Attempt, allow404: bool)
    requires turns != [] && !LimitedPass(turns[0]) && !Retried(turns[0], attempt, allow404)
    ensures RequestFrom(turns, attempt, allow404)
         == Trace(LastOutcome(turns[0], attempt, allow404), if Sends(turns[0]) then 1 else 0,
                  if !EndsEarly(turns[0]) && IsTransient(turns[0].reply, allow404) && attempt < MAX_ATTEMPTS
                  then RetryBackoff(attempt) else 0, [], 1)
  {
    hide RateLimitWait, RetryBackoff;
  }

  // What one pass makes of the run so far.
  lemma Advance(turns: seq<Turn>, attempt: Attempt, allow404: bool,
                calls: nat, backoff: int, cooldowns: seq<int>, used: nat)
    requires turns != []
    ensures var t := turns[0];
      var all := Prepend(calls, backoff, cooldowns, used, RequestFrom(turns, attempt, allow404));
      if LimitedPass(t) then
        var wait := RateLimitWait(t.reply.headers, t.reply.status, t.reply.now).value;
        all == Prepend(calls + 1, backoff, cooldowns + [wait], used + 1, RequestFrom(turns[1..], 1, allow404))
      else if Retried(t, attempt, allow404) then
        all == Prepend(calls + 1, backoff + RetryBackoff(attempt), cooldowns, used + 1,
                       RequestFrom(turns[1..], attempt + 1, allow404))
      else
        var slept := !EndsEarly(t) && IsTransient(t.reply, allow404) && attempt < MAX_ATTEMPTS;
        all == Trace(LastOutcome(t, attempt, allow404), calls + (if Sends(t) then 1 else 0),
                     backoff + (if slept then RetryBackoff(attempt) else 0), cooldowns, used + 1)
  {
    hide RequestFrom, RateLimitWait, RetryBackoff, IsTransient;
    var t := turns[0];
    if LimitedPass(t) {
      LimitedStep(turns, attempt, allow404);
      var wait := RateLimitWait(t.reply.headers, t.reply.status, t.reply.now).value;
      PrependPass(calls, backoff, cooldowns, used, 0, [wait], RequestFrom(turns[1..], 1, allow404));
    } else if Retried(t, attempt, allow404) {
      RetriedStep(turns, attempt, allow404);
      PrependPass(calls, backoff, cooldowns, used, RetryBackoff(attempt), [],
                  RequestFrom(turns[1..], attempt + 1, allow404));
    } else {
      LastStep(turns, attempt, allow404);
    }
  }

  method DoRequest(turns: seq<Turn>, allow404: bool) returns (trace: Trace)
    ensures trace == RequestFrom(turns, 1, allow404)
  {
    hide RequestFrom, RateLimitWait, RetryBackoff;
    var calls, backoff, cooldowns, used := 0, 0, [], 0;
    var attempt := 1;
    while used < |turns|
      invariant used <= |turns| && 1 <= attempt <= MAX_ATTEMPTS
      invariant RequestFrom(turns, 1, allow404)
             == Prepend(calls, backoff, cooldowns, used, RequestFrom(turns[used..], attempt, allow404))
      decreases |turns| - used
    {
      var t := turns[used];
      ghost var now := turns[used..];
      ghost var rest := turns[used + 1..];
      assert now[0] == t && now[1..] == rest;
      Advance(now, attempt, allow404, calls, backoff, cooldowns, used);
      used := used + 1;
      if t.ctxDone {
        return Trace(Failed(ContextDone), calls, backoff, cooldowns, used);
      }
      if t.waitFails {
        return Trace(Failed(WaitFailed), calls, backoff, cooldowns, used);
      }
      calls := calls + 1;
      if t.requestFails {
        return Trace(Failed(BadRequest), calls, backoff, cooldowns, used);
      }
      if t.reply.NetworkError? {
        if attempt >= MAX_ATTEMPTS {
          return Trace(Failed(NetworkFailed), calls, backoff, cooldowns, used);
        }
        backoff := backoff + RetryBackoff(attempt);
        if t.sleepFails {
          return Trace(Failed(SleepInterrupted), calls, backoff, cooldowns, used);
        }
        attempt := attempt + 1;
        continue;
      }
      var wait := RateLimitWait(t.reply.headers, t.reply.status, t.reply.now);
      if wait.Some? {
        cooldowns := cooldowns + [wait.value];
        attempt := 0;
        attempt := attempt + 1;
        continue;
      }
      if allow404 && t.reply.status == 404 {
        return Trace(NotAvailable, calls, backoff, cooldowns, used);
      }
      if t.reply.status >= 500 {
        if attempt >= MAX_ATTEMPTS {
          return Trace(Failed(ServerFailed(t.reply.status)), calls, backoff, cooldowns, used);
        }
        backoff := backoff + RetryBackoff(attempt);
        if t.sleepFails {
          return Trace(Failed(SleepInterrupted), calls, backoff, cooldowns, used);
        }
        attempt := attempt + 1;
        continue;
      }
      if t.reply.status < 200 || t.reply.status >= 300 {
        return Trace(Failed(Rejected(t.reply.status)), calls, backoff, cooldowns, used);
      }
      return Trace(if t.reply.decodes then Success(t.reply) else Failed(DecodeFailed), calls, backoff, cooldowns, used);
    }
    assert turns[used..] == [];
    EmptyRequest(attempt, allow404);
    trace := Trace(Pending, calls, backoff, cooldowns, used);
  }

  lemma EmptyRequest(attempt: Attempt, allow404: bool)
    ensures RequestFrom([], attempt, allow404) == Trace(Pending, 0, 0, [], 0)
  {
  }

  // ---- bounds over all response traces ---------------------------------------------------------------

  // The backoff still to come from attempt `attempt` on.
  function BackoffLeft(attempt: Attempt): int {
    (Pow2(MAX_ATTEMPTS - 1) - Pow2(attempt - 1)) * SECOND
  }

  lemma BackoffSteps(attempt: Attempt)
    ensures BackoffLeft(attempt) >= 0
    ensures attempt < MAX_ATTEMPTS ==>
      RetryBackoff(attempt) > 0 && RetryBackoff(attempt) + BackoffLeft(attempt + 1) == BackoffLeft(attempt)
  {
    assert Pow2(0) == 1 && Pow2(1) == 2 && Pow2(2) == 4;
  }

  function Count(turns: seq<Turn>, p: Turn -> bool): nat {
    if turns == [] then 0 else (if p(turns[0]) then 1 else 0) + Count(turns[1..], p)
  }

  lemma {:induction false} CountAppend(a: seq<Turn>, b: seq<Turn>, p: Turn -> bool)
    ensures Count(a + b, p) == Count(a, p) + Count(b, p)
    decreases |a|
  {
    if a == [] {
      assert a + b == b;
    } else {
      assert (a + b)[1..] == a[1..] + b;
      CountAppend(a[1..], b, p);
    }
  }

  // The first n passes are the first one and n - 1 of the others.
  lemma CountFirst(turns: seq<Turn>, n: nat, p: Turn -> bool)
    requires turns != [] && n <= |turns| - 1
    ensures Count(turns[..n + 1], p) == (if p(turns[0]) then 1 else 0) + Count(turns[1..][..n], p)
  {
    assert turns[..n + 1][0] == turns[0] && turns[..n + 1][1..] == turns[1..][..n];
  }

  /** The passes that a request uses hold exactly as many rate-limited replies as waits were handed to the
      limiter, and each wait is positive. */
  lemma {:induction false} CooldownsCountReplies(turns: seq<Turn>, attempt: Attempt, allow404: bool)
    ensures var w := RequestFrom(turns, attempt, allow404);
      && w.used <= |turns|
      && |w.cooldowns| == Count(turns[..w.used], LimitedPass)
      && (forall i | 0 <= i < |w.cooldowns| :: w.cooldowns[i] > 0)
    decreases |turns|
  {
    hide RateLimitWait, RetryBackoff, RequestFrom;
    if turns == [] {
      EmptyRequest(attempt, allow404);
    } else if LimitedPass(turns[0]) {
      var h := turns[0].reply;
      LimitedStep(turns, attempt, allow404);
      LimitedWaitPositive(h.headers, h.status, h.now);
      CooldownsCountReplies(turns[1..], 1, allow404);
      CountFirst(turns, RequestFrom(turns[1..], 1, allow404).used, LimitedPass);
    } else if Retried(turns[0], attempt, allow404) {
      RetriedStep(turns, attempt, allow404);
      CooldownsCountReplies(turns[1..], attempt + 1, allow404);
      CountFirst(turns, RequestFrom(turns[1..], attempt + 1, allow404).used, LimitedPass);
    } else {
      LastStep(turns, attempt, allow404);
      CountFirst(turns, 0, LimitedPass);
      assert turns[1..][..0] == [];
    }
  }

  /** For every response trace: the calls and the backoff are bounded by the number of rate-limited replies
      in it. */
  lemma RequestBounds(turns: seq<Turn>, attempt: Attempt, allow404: bool)
    ensures var w := RequestFrom(turns, attempt, allow404);
      && w.calls <= w.used <= |turns|
      && w.calls <= MAX_ATTEMPTS - attempt + 1 + MAX_ATTEMPTS * Count(turns[..w.used], LimitedPass)
      && 0 <= w.backoff <= BackoffLeft(attempt) + Count(turns[..w.used], LimitedPass) * BackoffLeft(1)
  {
    hide RequestFrom, BackoffLeft;
    CooldownBounds(turns, attempt, allow404);
    CooldownsCountReplies(turns, attempt, allow404);
  }

  lemma {:induction false} CooldownBounds(turns: seq<Turn>, attempt: Attempt, allow404: bool)
    ensures var w := RequestFrom(turns, attempt, allow404);
      && w.calls <= MAX_ATTEMPTS - attempt + 1 + MAX_ATTEMPTS * |w.cooldowns|
      && 0 <= w.backoff <= BackoffLeft(attempt) + |w.cooldowns| * BackoffLeft(1)
      && w.calls <= w.used <= |turns|
    decreases |turns|
  {
    hide RequestFrom, RateLimitWait, RetryBackoff, BackoffLeft, IsTransient;
    BackoffSteps(attempt);
    if attempt < MAX_ATTEMPTS {
      BackoffSteps(attempt + 1);
    }
    if turns == [] {
      EmptyRequest(attempt, allow404);
    } else if LimitedPass(turns[0]) {
      LimitedStep(turns, attempt, allow404);
      CooldownBounds(turns[1..], 1, allow404);
    } else if Retried(turns[0], attempt, allow404) {
      RetriedStep(turns, attempt, allow404);
      CooldownBounds(turns[1..], attempt + 1, allow404);
    } else {
      LastStep(turns, attempt, allow404);
    }
  }

  lemma LimitedWaitPositive(h: Headers, status: int, now: int)
    ensures RateLimitWait(h, status, now).Some? ==> RateLimitWait(h, status, now).value > 0
  {
  }

  /** A whole request whose trace holds R rate-limited replies makes at most MaxAttempts * (R + 1) calls and
      backs off for at most (R + 1) * (2^(MaxAttempts-1) - 1) seconds. */
  lemma RetryBound(turns: seq<Turn>, allow404: bool)
    ensures var w := RequestFrom(turns, 1, allow404);
      w.used <= |turns| &&
      var r := Count(turns[..w.used], LimitedPass);
      && w.calls <= MAX_ATTEMPTS * (r + 1)
      && w.backoff <= (r + 1) * (Pow2(MAX_ATTEMPTS - 1) - 1) * SECOND
  {
    hide RequestFrom;
    RequestBounds(turns, 1, allow404);
  }

  /** The outcome depends only on the replies after the last rate-limited one: a request that is still
      going when it meets one goes on as a new request would. */
  lemma {:induction false} RateLimitResets(before: seq<Turn>, limited: Turn, after: seq<Turn>,
                                         attempt: Attempt, allow404: bool)
    requires !EndsEarly(limited) && IsLimited(limited.reply)
    requires RequestFrom(before, attempt, allow404).outcome.Pending?
    ensures var w := RequestFrom(before + [limited] + after, attempt, allow404);
      && w.outcome == RequestFrom(after, 1, allow404).outcome
      && w.used == |before| + 1 + RequestFrom(after, 1, allow404).used
    decreases |before|
  {
    var all := before + [limited] + after;
    if before == [] {
      assert all[1..] == after;
    } else {
      assert all[1..] == before[1..] + [limited] + after;
      var t := before[0];
      RateLimitResets(before[1..], limited, after, if IsLimited(t.reply) then 1 else attempt + 1, allow404);
    }
  }

  predicate TransientTurn(turn: Turn, allow404: bool) {
    !EndsEarly(turn) && IsTransient(turn.reply, allow404)
  }

  /** The policy gives up on transient errors exactly after MaxAttempts of them in a row: the last
      passes are all transient, and no longer such streak was let through before. */
  lemma {:induction false} GivesUpAfterStreak(turns: seq<Turn>, attempt: Attempt, allow404: bool)
    requires var o := RequestFrom(turns, attempt, allow404).outcome;
      o.Failed? && (o.failure.NetworkFailed? || o.failure.ServerFailed?)
    ensures var n := RequestFrom(turns, attempt, allow404).used;
      && n <= |turns|
      && (n == MAX_ATTEMPTS - attempt + 1 || n > MAX_ATTEMPTS)
      && forall i | 0 <= i < n && n - MAX_ATTEMPTS <= i :: TransientTurn(turns[i], allow404)
    decreases |turns|
  {
    var t := turns[0];
    var n := RequestFrom(turns, attempt, allow404).used;
    if IsLimited(t.reply) {
      GivesUpAfterStreak(turns[1..], 1, allow404);
      assert forall i | 1 <= i < n :: turns[i] == turns[1..][i - 1];
    } else if attempt < MAX_ATTEMPTS {
      GivesUpAfterStreak(turns[1..], attempt + 1, allow404);
      assert forall i | 1 <= i < n :: turns[i] == turns[1..][i - 1];
    }
  }

  /** Conversely a request survives fewer than MaxAttempts transient errors in a row: while it goes on,
      some pass of any MaxAttempts consecutive ones was not transient. */
  lemma {:induction false} SurvivesShortStreaks(turns: seq<Turn>, attempt: Attempt, allow404: bool, i: nat)
    requires RequestFrom(turns, attempt, allow404).outcome.Pending? && i + MAX_ATTEMPTS <= |turns|
    ensures exists j | i <= j < i + MAX_ATTEMPTS :: !TransientTurn(turns[j], allow404)
    decreases |turns|
  {
    var t := turns[0];
    var next: Attempt := if IsLimited(t.reply) then 1 else attempt + 1;
    if i > 0 {
      SurvivesShortStreaks(turns[1..], next, allow404, i - 1);
      var j :| i - 1 <= j < i - 1 + MAX_ATTEMPTS && !TransientTurn(turns[1..][j], allow404);
      assert turns[1..][j] == turns[j + 1];
    } else if forall j | 0 <= j < MAX_ATTEMPTS :: TransientTurn(turns[j], allow404) {
      StreakEnds(turns, attempt, allow404);
    }
  }

  lemma {:induction false} StreakEnds(turns: seq<Turn>, attempt: Attempt, allow404: bool)
    requires MAX_ATTEMPTS - attempt < |turns|
    requires forall j | 0 <= j <= MAX_ATTEMPTS - attempt :: TransientTurn(turns[j], allow404)
    ensures !RequestFrom(turns, attempt, allow404).outcome.Pending?
    decreases MAX_ATTEMPTS - attempt
  {
    assert TransientTurn(turns[0], allow404);
    if attempt < MAX_ATTEMPTS {
      assert forall j | 0 <= j < |turns[1..]| :: turns[1..][j] == turns[j + 1];
      StreakEnds(turns[1..], attempt + 1, allow404);
    }
  }

  // ---- the GraphQL loop --------------------------------------------------------------------------------

  datatype Fetched = Entry | RequestError(failure: Failure) | GraphQLErrors | NoRepository | StillFetching

  // waits: what was handed to BlockFor; used: passes of the request loop.
  datatype FetchTrace = FetchTrace(result: Fetched, calls: nat, waits: seq<int>, used: nat)

  lemma {:induction false} RequestOutcome(turns: seq<Turn>, attempt: Attempt, allow404: bool)
    ensures var w := RequestFrom(turns, attempt, allow404);
      && w.used <= |turns| && (w.outcome.Pending? ==> w.used == |turns|)
      && (w.outcome.Success? ==> w.used > 0 && w.outcome.reply == turns[w.used - 1].reply
                                 && w.outcome.reply.Response? && 200 <= w.outcome.reply.status < 300
                                 && w.outcome.reply.decodes)
      && (w.outcome.NotAvailable? ==> allow404)
    decreases |turns|
  {
    hide RateLimitWait, RetryBackoff;
    if turns != [] && !EndsEarly(turns[0]) {
      RequestOutcome(turns[1..], 1, allow404);
      if attempt < MAX_ATTEMPTS {
        RequestOutcome(turns[1..], attempt + 1, allow404);
      }
    }
  }

  // How a request that ended without a rate-limited body ends the fetch.
  function FetchResult(o: Outcome): Fetched {
    match o
    case Pending => StillFetching
    case Failed(f) => RequestError(f)
    case NotAvailable => NoRepository
    case Success(reply) =>
      if reply.NetworkError? || reply.body.NoData? then NoRepository
      else if reply.body.OtherErrors? then GraphQLErrors
      else Entry
  }

  // The run of FetchRepoGraphQL's loop from its pass number `attempt`.
  function FetchFrom(turns: seq<Turn>, attempt: nat): FetchTrace
    decreases |turns|
  {
    var w := RequestFrom(turns, 1, false);
    RequestOutcome(turns, 1, false);
    if w.outcome.Success? && w.outcome.reply.body.RateLimitErrors? then
      var reply := w.outcome.reply;
      var rest := FetchFrom(turns[w.used..], attempt + 1);
      var wait := GraphQLRateLimitWait(reply.headers, attempt, reply.now);
      FetchTrace(rest.result, w.calls + rest.calls, w.cooldowns + [wait] + rest.waits, w.used + rest.used)
    else FetchTrace(FetchResult(w.outcome), w.calls, w.cooldowns, w.used)
  }

  method FetchRepoGraphQL(turns: seq<Turn>) returns (trace: FetchTrace)
    ensures trace == FetchFrom(turns, 1)
  {
    hide RequestFrom, GraphQLRateLimitWait;
    var calls: nat, waits, used: nat := 0, [], 0;
    var rest := turns;
    var rateLimitAttempt: nat := 1;
    ghost var all := FetchFrom(turns, 1);
    while true
      invariant rateLimitAttempt >= 1
      invariant var todo := FetchFrom(rest, rateLimitAttempt);
        all == FetchTrace(todo.result, calls + todo.calls, waits + todo.waits, used + todo.used)
      decreases |rest|
    {
      var w := DoRequest(rest, false);
      RequestOutcome(rest, 1, false);
      calls, used := calls + w.calls, used + w.used;
      if !w.outcome.Success? {
        return FetchTrace(FetchResult(w.outcome), calls, waits + w.cooldowns, used);
      }
      var reply := w.outcome.reply;
      if reply.body.RateLimitErrors? {
        var wait := GraphQLRateLimitWait(reply.headers, rateLimitAttempt, reply.now);
        AppendAssoc(waits, w.cooldowns + [wait], FetchFrom(rest[w.used..], rateLimitAttempt + 1).waits);
        AppendAssoc(waits, w.cooldowns, [wait]);
        waits := waits + w.cooldowns + [wait];
        rest := rest[w.used..];
        rateLimitAttempt := rateLimitAttempt + 1;
        continue;
      }
      return FetchTrace(FetchResult(w.outcome), calls, waits + w.cooldowns, used);
    }
  }

  // A pass that ends its request with a decoded body of rate-limit errors.
  predicate LimitedBody(turn: Turn) {
    !EndsEarly(turn) && !IsLimited(turn.reply) && Answers(turn.reply, RateLimitErrors)
  }

  // Only the last pass of a request can hold such a body.
  lemma {:induction false} BodiesOfRequest(turns: seq<Turn>, attempt: Attempt)
    ensures var w := RequestFrom(turns, attempt, false);
      w.used <= |turns| && Count(turns[..w.used], LimitedBody)
        == if w.outcome.Success? && w.outcome.reply.Response? && w.outcome.reply.body.RateLimitErrors? then 1 else 0
    decreases |turns|
  {
    hide RateLimitWait, RetryBackoff, RequestFrom;
    if turns == [] {
      EmptyRequest(attempt, false);
    } else if LimitedPass(turns[0]) {
      LimitedStep(turns, attempt, false);
      BodiesOfRequest(turns[1..], 1);
      CountFirst(turns, RequestFrom(turns[1..], 1, false).used, LimitedBody);
    } else if Retried(turns[0], attempt, false) {
      RetriedStep(turns, attempt, false);
      BodiesOfRequest(turns[1..], attempt + 1);
      CountFirst(turns, RequestFrom(turns[1..], attempt + 1, false).used, LimitedBody);
    } else {
      LastStep(turns, attempt, false);
      CountFirst(turns, 0, LimitedBody);
      assert turns[1..][..0] == [];
    }
  }

  lemma CountSplit(turns: seq<Turn>, m: nat, n: nat, p: Turn -> bool)
    requires m + n <= |turns|
    ensures Count(turns[..m + n], p) == Count(turns[..m], p) + Count(turns[m..][..n], p)
  {
    assert turns[..m + n] == turns[..m] + turns[m..][..n];
    CountAppend(turns[..m], turns[m..][..n], p);
  }

  /** A fetch whose trace holds R rate-limited replies and G rate-limited GraphQL bodies makes at most
      MaxAttempts * (R + G + 1) calls, and hands exactly R + G waits to BlockFor. */
  lemma {:induction false} FetchBound(turns: seq<Turn>, attempt: nat)
    ensures var w := FetchFrom(turns, attempt);
      w.used <= |turns| &&
      var limits := Count(turns[..w.used], LimitedPass) + Count(turns[..w.used], LimitedBody);
      w.calls <= MAX_ATTEMPTS * (limits + 1) && |w.waits| == limits
    decreases |turns|
  {
    hide RequestFrom, Count, GraphQLRateLimitWait;
    var w := RequestFrom(turns, 1, false);
    RequestOutcome(turns, 1, false);
    RequestBounds(turns, 1, false);
    CooldownsCountReplies(turns, 1, false);
    BodiesOfRequest(turns, 1);
    if w.outcome.Success? && w.outcome.reply.body.RateLimitErrors? {
      FetchBound(turns[w.used..], attempt + 1);
      var n := FetchFrom(turns[w.used..], attempt + 1).used;
      CountSplit(turns, w.used, n, LimitedPass);
      CountSplit(turns, w.used, n, LimitedBody);
    }
  }

  // A reply that lets the fetch end with this kind of body.
  predicate Answers(reply: Reply, body: Body) {
    reply.Response? && 200 <= reply.status < 300 && reply.decodes && reply.body == body
  }

  // No reply tells when to try again.
  predicate Unhinted(h: Headers) {
    h.retryAfter == "" && h.reset == ""
  }

  lemma {:induction false} UnhintedRequest(turns: seq<Turn>, attempt: Attempt, allow404: bool)
    requires forall i | 0 <= i < |turns| && turns[i].reply.Response? :: Unhinted(turns[i].reply.headers)
    ensures RequestFrom(turns, attempt, allow404).cooldowns == []
    decreases |turns|
  {
    hide RetryBackoff;
    if turns != [] {
      UnhintedRequest(turns[1..], 1, allow404);
      if attempt < MAX_ATTEMPTS {
        UnhintedRequest(turns[1..], attempt + 1, allow404);
      }
    }
  }

  // These are the backoffs of successive attempts.
  predicate Backoffs(cooldowns: seq<int>, attempt: nat) {
    forall i | 0 <= i < |cooldowns| :: cooldowns[i] == RetryBackoff(attempt + i)
  }

  lemma BackoffsCons(tail: seq<int>, attempt: nat)
    requires Backoffs(tail, attempt + 1)
    ensures Backoffs([] + [RetryBackoff(attempt)] + tail, attempt)
  {
    hide RetryBackoff;
    var all := [] + [RetryBackoff(attempt)] + tail;
    forall i | 0 <= i < |all| ensures all[i] == RetryBackoff(attempt + i) {
      if i > 0 {
        assert tail[i - 1] == RetryBackoff(attempt + 1 + (i - 1));
      }
    }
  }

  /** Without hints from the server the waits for rate-limited bodies are the backoffs of successive
      attempts: one second, two, four and so on, as far as BackoffExact goes. */
  lemma {:induction false} FallbackDoubles(turns: seq<Turn>, attempt: nat)
    requires forall i | 0 <= i < |turns| && turns[i].reply.Response? :: Unhinted(turns[i].reply.headers)
    ensures Backoffs(FetchFrom(turns, attempt).waits, attempt)
    decreases |turns|
  {
    hide RequestFrom, RetryBackoff, Backoffs;
    var w := RequestFrom(turns, 1, false);
    RequestOutcome(turns, 1, false);
    UnhintedRequest(turns, 1, false);
    if w.outcome.Success? && w.outcome.reply.body.RateLimitErrors? {
      FallbackDoubles(turns[w.used..], attempt + 1);
      BackoffsCons(FetchFrom(turns[w.used..], attempt + 1).waits, attempt);
    } else {
      NoBackoffs(attempt);
    }
  }

  lemma NoBackoffs(attempt: nat)
    ensures Backoffs([], attempt)
  {
  }

  // ---- durations -----------------------------------------------------------------------------------------

  lemma {:induction false} Pow2Monotone(m: nat, n: nat)
    requires m <= n
    ensures Pow2(m) <= Pow2(n)
    decreases n
  {
    if m < n {
      Pow2Monotone(m, n - 1);
    }
  }

  lemma {:induction false} Pow2Add(m: nat, n: nat)
    ensures Pow2(m + n) == Pow2(m) * Pow2(n)
  {
    if m > 0 {
      Pow2Add(m - 1, n);
      assert Pow2(m + n) == 2 * Pow2(m - 1 + n) && Pow2(m) == 2 * Pow2(m - 1);
      hide Pow2;
    }
  }

  lemma Pow2Values()
    ensures Pow2(33) == 8589934592 && Pow2(34) == 17179869184
    ensures Pow2(55) == 36028797018963968 && Pow2(62) == 4611686018427387904 && Pow2(63) == TWO_64 / 2
  {
    assert Pow2(11) == 2048;
    Pow2Add(11, 11);
    Pow2Add(11, 22);
    Pow2Add(22, 33);
    assert Pow2(7) == 128;
    Pow2Add(7, 55);
  }

  lemma WrapFits(x: int)
    ensures IsInt64(Wrap64(x))
    ensures IsInt64(x) ==> Wrap64(x) == x
  {
  }

  /** The fallback backoff of attempt n is 2^(n-1) seconds, exactly for attempts 1 to 34; from 35 on
      int64 nanoseconds cannot hold it. */
  lemma BackoffExact(attempt: nat)
    requires attempt >= 1
    ensures RetryBackoff(attempt) == Pow2(attempt - 1) * SECOND <==> attempt <= 34
    ensures attempt <= 34 ==> RetryBackoff(attempt) > 0
  {
    Pow2Values();
    var p := Pow2(attempt - 1);
    if attempt <= 34 {
      Pow2Monotone(attempt - 1, 33);
      Pow2Monotone(0, attempt - 1);
    } else {
      Pow2Monotone(34, attempt - 1);
    }
    hide Pow2, Wrap64;
    WrapFits(p);
    WrapFits(p * SECOND);
    WrapFits(Wrap64(p) * SECOND);
  }

  /** From attempt 56 on the fallback backoff is 0: an endless GraphQL rate limit without hints is then
      retried without any cooldown. */
  lemma BackoffVanishes(attempt: nat)
    requires attempt >= 56
    ensures RetryBackoff(attempt) == 0
  {
    if attempt - 1 < 64 {
      ShiftedSecond(attempt - 1);
    }
  }

  lemma ShiftedSecond(n: nat)
    requires 55 <= n < 64
    ensures Wrap64(Wrap64(Pow2(n)) * SECOND) == 0
  {
    Pow2Values();
    var k := Pow2(n - 55) * 1953125;
    assert Pow2(n) * SECOND == k * TWO_64 by {
      Pow2Add(55, n - 55);
    }
    if n == 63 {
      hide Pow2;
      assert Wrap64(Pow2(63)) == Pow2(63) - TWO_64;
      hide Wrap64;
      assert Wrap64(Pow2(63)) * SECOND == (k - SECOND) * TWO_64;
      WrapMultiple(k - SECOND);
    } else {
      Pow2Monotone(n, 62);
      hide Pow2, Wrap64;
      WrapFits(Pow2(n));
      WrapMultiple(k);
    }
  }

  lemma WrapMultiple(k: int)
    ensures Wrap64(k * TWO_64) == 0
  {
  }

  // From one attempt to the next the backoff doubles, modulo 2^64.
  lemma BackoffDoubles(attempt: nat)
    requires 1 <= attempt < 63
    ensures var b, b' := RetryBackoff(attempt), RetryBackoff(attempt + 1);
      IsInt64(b') && (b' == 2 * b || b' == 2 * b - TWO_64 || b' == 2 * b + TWO_64)
  {
    Pow2Values();
    Pow2Monotone(attempt, 62);
    Pow2Monotone(attempt - 1, 62);
    var p := Pow2(attempt - 1);
    assert Pow2(attempt) == 2 * p;
    hide Pow2;
    WrapFits(p);
    WrapFits(2 * p);
    WrapFits(p * SECOND);
    WrapTwice(p * SECOND);
    WrapNear(2 * Wrap64(p * SECOND));
  }

  lemma WrapNear(x: int)
    requires -2 * MAX_INT64 - 2 <= x <= 2 * MAX_INT64
    ensures var w := Wrap64(x); IsInt64(w) && (w == x || w == x - TWO_64 || w == x + TWO_64)
  {
  }

  lemma WrapTwice(x: int)
    ensures Wrap64(2 * Wrap64(x)) == Wrap64(2 * x)
  {
    var k := (x + MAX_INT64 + 1) / TWO_64;
    assert Wrap64(x) == x - k * TWO_64;
    assert 2 * Wrap64(x) + MAX_INT64 + 1 == (2 * x + MAX_INT64 + 1) + (-2 * k) * TWO_64;
    ModShift(2 * x + MAX_INT64 + 1, -2 * k);
  }

  lemma ModShift(x: int, k: int)
    ensures (x + k * TWO_64) % TWO_64 == x % TWO_64
  {
  }

  lemma Backoffs35To45()
    ensures RetryBackoff(35) < 0 && RetryBackoff(36) < 0 && RetryBackoff(37) < 0 && RetryBackoff(38) > 0
    ensures RetryBackoff(39) < 0 && RetryBackoff(40) < 0 && RetryBackoff(41) < 0 && RetryBackoff(42) > 0
    ensures RetryBackoff(43) > 0 && RetryBackoff(44) < 0 && RetryBackoff(45) == -6007801902912241664
  {
    BackoffExact(34);
    Pow2Values();
    hide RetryBackoff, Pow2;
    BackoffDoubles(34); BackoffDoubles(35); BackoffDoubles(36); BackoffDoubles(37);
    BackoffDoubles(38); BackoffDoubles(39); BackoffDoubles(40); BackoffDoubles(41);
    BackoffDoubles(42); BackoffDoubles(43); BackoffDoubles(44);
  }

  lemma Backoffs46To55()
    ensures RetryBackoff(46) > 0 && RetryBackoff(47) < 0 && RetryBackoff(48) > 0 && RetryBackoff(49) < 0
    ensures RetryBackoff(50) < 0 && RetryBackoff(51) > 0 && RetryBackoff(52) > 0 && RetryBackoff(53) < 0
    ensures RetryBackoff(54) > 0 && RetryBackoff(55) < 0
  {
    Backoffs35To45();
    hide RetryBackoff, Pow2;
    BackoffDoubles(45); BackoffDoubles(46); BackoffDoubles(47); BackoffDoubles(48); BackoffDoubles(49);
    BackoffDoubles(50); BackoffDoubles(51); BackoffDoubles(52); BackoffDoubles(53); BackoffDoubles(54);
  }

  /** BlockFor heeds the fallback backoff, being positive, exactly for these attempts; for the other ones it
      sets no cooldown. */
  lemma BackoffPositive(attempt: nat)
    requires attempt >= 1
    ensures RetryBackoff(attempt) > 0 <==> attempt <= 34 || attempt in {38, 42, 43, 46, 48, 51, 52, 54}
  {
    hide RetryBackoff;
    if attempt <= 34 {
      BackoffExact(attempt);
    } else if attempt >= 56 {
      BackoffVanishes(attempt);
    } else if attempt <= 45 {
      Backoffs35To45();
    } else {
      Backoffs46To55();
    }
  }

  // ---- Retry-After in delay-seconds ------------------------------------------------------------------------

  function Decimal(n: nat): string {
    if n < 10 then [('0' as int + n) as char] else Decimal(n / 10) + [('0' as int + n % 10) as char]
  }

  lemma {:induction false} DecimalDigits(n: nat)
    ensures Decimal(n) != [] && AllDigits(Decimal(n))
    ensures Digits(Decimal(n)) == n
  {
    if n >= 10 {
      DecimalDigits(n / 10);
      assert Decimal(n)[..|Decimal(n)| - 1] == Decimal(n / 10);
    }
  }

  lemma ParseDecimal(n: nat)
    ensures ParseInt(Decimal(n)) == if n <= MAX_INT64 then Some(n) else None
  {
    DecimalDigits(n);
    assert IsDigit(Decimal(n)[0]);
  }

  /** A Retry-After in delay-seconds (section 10.2.3 of RFC 9110) is honoured exactly for 1 to
      9223372036 seconds; beyond that int64 nanoseconds overflow. */
  lemma RetryAfterExact(seconds: nat)
    ensures RetryAfterWait(Decimal(seconds), None) == Some(seconds * SECOND) <==> 1 <= seconds <= 9223372036
  {
    ParseDecimal(seconds);
    DecimalDigits(seconds);
  }

  /** Whatever the headers say, a rate-limited reply sets a positive cooldown of at most 2^63 - 1
      nanoseconds, and only an error status can be rate-limited. */
  lemma CooldownInRange(h: Headers, status: int, now: int)
    requires h.date.Some? ==> IsInt64(h.date.value)
    ensures RateLimitWait(h, status, now).Some? ==>
      status >= 400 && 0 < RateLimitWait(h, status, now).value <= MAX_INT64
  {
  }
}
