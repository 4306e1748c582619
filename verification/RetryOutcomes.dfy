/** When a reply is rate-limited, for how long, and how a request and a fetch end, read off the header fields
    and the turns (internal/fetcher/github.go). */
module RetryOutcomes {
  import opened Options
  import opened Retry

  // ---- header fields ----------------------------------------------------------------------------------------

  // s is a decimal numeral of n, perhaps with leading zeros.
  predicate Unsigned(s: string, n: int) {
    s != "" && AllDigits(s) && Digits(s) == n
  }

  // s is an int64 in decimal, perhaps with a sign.
  predicate Denotes(s: string, n: int) {
    IsInt64(n) && s != ""
    && if s[0] == '-' then Unsigned(s[1..], -n) else if s[0] == '+' then Unsigned(s[1..], n) else Unsigned(s, n)
  }

  lemma ParseIntExactly(s: string, n: int)
    ensures ParseInt(s) == Some(n) <==> Denotes(s, n)
  {
  }

  lemma DecimalDenotes(n: nat)
    requires n <= MAX_INT64
    ensures Denotes(Decimal(n), n)
  {
    ParseDecimal(n);
    ParseIntExactly(Decimal(n), n);
  }

  // Retry-After tells to wait: a number of seconds, or a date, that comes to a positive time.
  ghost predicate TellsWait(h: Headers, wait: int) {
    && wait > 0
    && ((exists n :: Denotes(h.retryAfter, n) && wait == Wrap64(n * SECOND))
        || (h.retryAfter != "" && h.date == Some(wait) && forall n :: !Denotes(h.retryAfter, n)))
  }

  // The reset time, and a second more, is ahead.
  ghost predicate TellsReset(h: Headers, now: int, wait: int) {
    0 < wait <= MAX_INT64 && exists ts :: Denotes(h.reset, ts) && wait == ts * SECOND - now + SECOND
  }

  lemma RetryAfterExactly(h: Headers, wait: int)
    ensures RetryAfterWait(h.retryAfter, h.date) == Some(wait) <==> TellsWait(h, wait)
  {
    forall n ensures ParseInt(h.retryAfter) == Some(n) <==> Denotes(h.retryAfter, n) {
      ParseIntExactly(h.retryAfter, n);
    }
    hide Denotes, ParseInt, Wrap64;
    match ParseInt(h.retryAfter)
    case Some(n) =>
      assert Denotes(h.retryAfter, n);
      assert h.retryAfter != "" by { ParseIntOfNothing(); }
    case None =>
  }

  lemma ParseIntOfNothing()
    ensures ParseInt("") == None
  {
  }

  lemma ResetInRange(ts: int, now: int)
    ensures var sum := ts * SECOND - now + SECOND;
      if 0 < sum <= MAX_INT64 then ResetWait(ts, now) == sum else ResetWait(ts, now) <= 0
  {
  }

  lemma ResetExactly(h: Headers, now: int, wait: int)
    ensures TellsReset(h, now, wait)
      <==> ParseInt(h.reset).Some? && wait > 0 && ResetWait(ParseInt(h.reset).value, now) == wait
  {
    forall n ensures ParseInt(h.reset) == Some(n) <==> Denotes(h.reset, n) {
      ParseIntExactly(h.reset, n);
    }
    hide Denotes, ParseInt;
    forall ts ensures var sum := ts * SECOND - now + SECOND;
      if 0 < sum <= MAX_INT64 then ResetWait(ts, now) == sum else ResetWait(ts, now) <= 0
    {
      ResetInRange(ts, now);
    }
    hide ResetWait;
    if ParseInt(h.reset).Some? {
      var ts := ParseInt(h.reset).value;
      assert Denotes(h.reset, ts);
    }
  }

  ghost predicate Limits(h: Headers, status: int, now: int, wait: int) {
    && status >= 400
    && (|| TellsWait(h, wait)
        || ((forall w :: !TellsWait(h, w)) && h.remaining == "0" && TellsReset(h, now, wait)))
  }

  /** A reply is rate-limited, with this wait, if and only if it has an error status and either Retry-After
      tells to wait so long, or Retry-After tells nothing, no quota remains, and the reset lies so far ahead. */
  lemma RateLimitedExactly(h: Headers, status: int, now: int, wait: int)
    ensures RateLimitWait(h, status, now) == Some(wait) <==> Limits(h, status, now, wait)
  {
    forall w ensures RetryAfterWait(h.retryAfter, h.date) == Some(w) <==> TellsWait(h, w) {
      RetryAfterExactly(h, w);
    }
    ResetExactly(h, now, wait);
    hide RetryAfterWait, TellsWait, TellsReset, ParseInt, ResetWait;
    if RetryAfterWait(h.retryAfter, h.date).Some? {
      assert TellsWait(h, RetryAfterWait(h.retryAfter, h.date).value);
    }
  }

  /** The wait after a rate-limited body: what Retry-After tells, or else what the reset tells, whether or not
      quota remains, or else the backoff of the attempt. */
  lemma GraphQLWaitExactly(h: Headers, attempt: int, now: int)
    ensures var wait := GraphQLRateLimitWait(h, attempt, now);
      || TellsWait(h, wait)
      || ((forall w :: !TellsWait(h, w))
          && (TellsReset(h, now, wait)
              || ((forall w :: !TellsReset(h, now, w)) && wait == RetryBackoff(attempt))))
  {
    forall w ensures RetryAfterWait(h.retryAfter, h.date) == Some(w) <==> TellsWait(h, w) {
      RetryAfterExactly(h, w);
    }
    forall w ensures TellsReset(h, now, w)
      <==> ParseInt(h.reset).Some? && w > 0 && ResetWait(ParseInt(h.reset).value, now) == w
    {
      ResetExactly(h, now, w);
    }
    hide RetryAfterWait, TellsWait, TellsReset, ParseInt, ResetWait, RetryBackoff;
  }

  /** For a reset time written in decimal the wait is the time until it and a second. */
  lemma ResetOfDecimal(h: Headers, ts: nat, now: int)
    requires ts <= MAX_INT64 && h.reset == Decimal(ts)
    ensures forall wait :: TellsReset(h, now, wait) <==> wait == ts * SECOND - now + SECOND && 0 < wait <= MAX_INT64
  {
    DecimalDenotes(ts);
    forall n | Denotes(h.reset, n) ensures n == ts {
      ParseIntExactly(h.reset, n);
      ParseIntExactly(h.reset, ts);
    }
    hide Denotes;
  }

  // ---- how a request ends --------------------------------------------------------------------------------

  // The request went out, and this reply came, which is no rate limit.
  ghost predicate Replied(turn: Turn) {
    && !turn.ctxDone && !turn.waitFails && !turn.requestFails && turn.reply.Response?
    && forall wait :: !Limits(turn.reply.headers, turn.reply.status, turn.reply.now, wait)
  }

  ghost predicate NoReply(turn: Turn) {
    !turn.ctxDone && !turn.waitFails && !turn.requestFails && turn.reply.NetworkError?
  }

  // What the last turn of a request says about its outcome.
  ghost predicate Verdict(turn: Turn, allow404: bool, o: Outcome) {
    match o
    case Success(reply) => Replied(turn) && reply == turn.reply && 200 <= reply.status < 300 && reply.decodes
    case NotAvailable => Replied(turn) && allow404 && turn.reply.status == 404
    case Pending => false
    case Failed(ContextDone) => turn.ctxDone
    case Failed(WaitFailed) => !turn.ctxDone && turn.waitFails
    case Failed(BadRequest) => !turn.ctxDone && !turn.waitFails && turn.requestFails
    case Failed(NetworkFailed) => NoReply(turn)
    case Failed(ServerFailed(status)) => Replied(turn) && status == turn.reply.status >= 500
    case Failed(SleepInterrupted) => turn.sleepFails && (NoReply(turn) || (Replied(turn) && turn.reply.status >= 500))
    case Failed(Rejected(status)) =>
      Replied(turn) && status == turn.reply.status < 500 && !(200 <= status < 300) && !(allow404 && status == 404)
    case Failed(DecodeFailed) => Replied(turn) && 200 <= turn.reply.status < 300 && !turn.reply.decodes
  }

  // A turn after which a request may go on: a rate limit, or a transient error and the sleep after it.
  ghost predicate GoesOn(turn: Turn) {
    && !turn.ctxDone && !turn.waitFails && !turn.requestFails
    && ((turn.reply.Response? && !Replied(turn))
        || (!turn.sleepFails && (NoReply(turn) || (Replied(turn) && turn.reply.status >= 500))))
  }

  lemma RepliedIs(turn: Turn)
    ensures Replied(turn) <==> !EndsEarly(turn) && turn.reply.Response? && !IsLimited(turn.reply)
  {
    if turn.reply.Response? {
      var reply := turn.reply;
      forall wait
        ensures RateLimitWait(reply.headers, reply.status, reply.now) == Some(wait)
           <==> Limits(reply.headers, reply.status, reply.now, wait)
      {
        RateLimitedExactly(reply.headers, reply.status, reply.now, wait);
      }
      hide RateLimitWait, Limits;
      if IsLimited(reply) {
        var limit := RateLimitWait(reply.headers, reply.status, reply.now);
        assert limit == Some(limit.value);
      }
    }
  }

  lemma LastVerdict(turn: Turn, attempt: Attempt, allow404: bool)
    requires !LimitedPass(turn) && !Retried(turn, attempt, allow404)
    ensures Verdict(turn, allow404, LastOutcome(turn, attempt, allow404))
  {
    RepliedIs(turn);
    hide Replied, IsLimited;
  }

  lemma GoingOn(turn: Turn, attempt: Attempt, allow404: bool)
    requires LimitedPass(turn) || Retried(turn, attempt, allow404)
    ensures GoesOn(turn)
  {
    RepliedIs(turn);
    hide Replied, RateLimitWait;
  }

  /** Every request ends by its last turn, whose reply decides the outcome, and goes on before it: a decoded
      2xx reply succeeds, a 404 where it is allowed is "not available", a server or network error fails after
      its retries, any other reply is rejected. A request without outcome has only turns that go on. */
  lemma {:induction false} RequestEnds(turns: seq<Turn>, attempt: Attempt, allow404: bool)
    ensures var w := RequestFrom(turns, attempt, allow404);
      && w.used <= |turns|
      && (forall i | 0 <= i < w.used - 1 :: GoesOn(turns[i]))
      && (w.outcome.Pending? ==> w.used == |turns| && forall i | 0 <= i < |turns| :: GoesOn(turns[i]))
      && (!w.outcome.Pending? ==> w.used > 0 && Verdict(turns[w.used - 1], allow404, w.outcome))
    decreases |turns|
  {
    hide RequestFrom, IsTransient, IsLimited, Verdict, GoesOn, LastOutcome, RetryBackoff;
    if turns == [] {
      EmptyRequest(attempt, allow404);
    } else if LimitedPass(turns[0]) {
      LimitedStep(turns, attempt, allow404);
      GoingOn(turns[0], attempt, allow404);
      RequestEnds(turns[1..], 1, allow404);
      assert forall i | 1 <= i < |turns| :: turns[i] == turns[1..][i - 1];
    } else if Retried(turns[0], attempt, allow404) {
      RetriedStep(turns, attempt, allow404);
      GoingOn(turns[0], attempt, allow404);
      RequestEnds(turns[1..], attempt + 1, allow404);
      assert forall i | 1 <= i < |turns| :: turns[i] == turns[1..][i - 1];
    } else {
      LastStep(turns, attempt, allow404);
      LastVerdict(turns[0], attempt, allow404);
      LastIsNotPending(turns[0], attempt, allow404);
    }
  }

  lemma LastIsNotPending(turn: Turn, attempt: Attempt, allow404: bool)
    requires !LimitedPass(turn) && !Retried(turn, attempt, allow404)
    ensures !LastOutcome(turn, attempt, allow404).Pending?
  {
  }

  /** A reply with quota left and no Retry-After is no rate limit; in particular a 404 ends an optional request
      as "not available", without a wait for the limiter. */
  lemma QuotaLeft(turn: Turn, rest: seq<Turn>, attempt: Attempt)
    requires !turn.ctxDone && !turn.waitFails && !turn.requestFails && turn.reply.Response?
    requires turn.reply.headers.retryAfter == "" && turn.reply.headers.remaining != "0"
    ensures Replied(turn)
    ensures turn.reply.status == 404 ==> RequestFrom([turn] + rest, attempt, true) == Trace(NotAvailable, 1, 0, [], 1)
  {
    var h := turn.reply.headers;
    forall wait ensures !Limits(h, turn.reply.status, turn.reply.now, wait) {
      NothingTold(h, wait);
    }
    RepliedIs(turn);
    assert ([turn] + rest)[0] == turn;
    if turn.reply.status == 404 {
      LastStep([turn] + rest, attempt, true);
    }
    hide RequestFrom, RateLimitWait;
  }

  lemma NothingTold(h: Headers, wait: int)
    requires h.retryAfter == ""
    ensures !TellsWait(h, wait)
  {
  }

  /** The documented schedule: first call, a second's wait, second call, two seconds' wait, third call, give up. */
  lemma ThreeAttempts(a: Turn, b: Turn, d: Turn, rest: seq<Turn>, allow404: bool)
    requires TransientTurn(a, allow404) && TransientTurn(b, allow404) && TransientTurn(d, allow404)
    requires !a.sleepFails && !b.sleepFails
    ensures var w := RequestFrom([a, b, d] + rest, 1, allow404);
      w.calls == 3 && w.backoff == 3_000_000_000 && w.used == 3 && w.cooldowns == [] && w.outcome.Failed?
  {
    hide RequestFrom, IsTransient, LastOutcome, RetryBackoff;
    var turns, two, one := [a, b, d] + rest, [b, d] + rest, [d] + rest;
    assert turns[0] == a && two[0] == b && one[0] == d && turns[1..] == two && two[1..] == one;
    TransientIsUnlimited(a, allow404);
    TransientIsUnlimited(b, allow404);
    TransientIsUnlimited(d, allow404);
    FirstBackoffs();
    RetriedStep(turns, 1, allow404);
    RetriedStep(two, 2, allow404);
    LastStep(one, 3, allow404);
    assert LastOutcome(d, 3, allow404).Failed? by { ThirdFails(d, allow404); }
  }

  lemma TransientIsUnlimited(turn: Turn, allow404: bool)
    requires TransientTurn(turn, allow404)
    ensures !LimitedPass(turn)
  {
    hide RateLimitWait;
  }

  lemma FirstBackoffs()
    ensures RetryBackoff(1) == 1_000_000_000 && RetryBackoff(2) == 2_000_000_000
  {
    assert Pow2(0) == 1 && Pow2(1) == 2;
  }

  lemma ThirdFails(turn: Turn, allow404: bool)
    requires TransientTurn(turn, allow404) && !LimitedPass(turn)
    ensures LastOutcome(turn, 3, allow404).Failed?
  {
    hide RateLimitWait;
  }

  // ---- how a fetch ends ------------------------------------------------------------------------------------

  // The turn ends its request with a decoded 2xx reply that holds this kind of body.
  ghost predicate Brings(turn: Turn, body: Body) {
    Replied(turn) && 200 <= turn.reply.status < 300 && turn.reply.decodes && turn.reply.body == body
  }

  lemma RepliedNeeds(turn: Turn)
    ensures Replied(turn) ==> !EndsEarly(turn) && turn.reply.Response?
  {
  }

  // Of a request that ended without rate-limit errors, or goes on.
  lemma LastBrings(turn: Turn, o: Outcome, body: Body)
    requires if o.Pending? then GoesOn(turn) else Verdict(turn, false, o)
    ensures Brings(turn, body) <==> o.Success? && o.reply.Response? && o.reply.body == body
  {
    RepliedNeeds(turn);
    hide Replied;
  }

  /** Every fetch ends by its last turn: it gives the entry if and only if that turn brings the repository, a
      GraphQL error if and only if it brings errors that are no rate limit, no repository if and only if it
      brings none, and else the failure of its last request. A fetch that still goes on has only turns that go
      on or bring rate-limit errors. */
  lemma {:induction false} FetchEnds(turns: seq<Turn>, attempt: nat)
    ensures var w := FetchFrom(turns, attempt);
      && w.used <= |turns|
      && (w.result.Entry? <==> w.used > 0 && Brings(turns[w.used - 1], Data))
      && (w.result.GraphQLErrors? <==> w.used > 0 && Brings(turns[w.used - 1], OtherErrors))
      && (w.result.NoRepository? <==> w.used > 0 && Brings(turns[w.used - 1], NoData))
      && (w.result.RequestError? ==> w.used > 0 && Verdict(turns[w.used - 1], false, Failed(w.result.failure)))
      && (forall i | 0 <= i < w.used - 1 :: GoesOn(turns[i]) || Brings(turns[i], RateLimitErrors))
      && (w.result.StillFetching? ==>
            w.used == |turns| && forall i | 0 <= i < |turns| :: GoesOn(turns[i]) || Brings(turns[i], RateLimitErrors))
    decreases |turns|
  {
    hide RequestFrom, GraphQLRateLimitWait, Replied;
    var w := RequestFrom(turns, 1, false);
    RequestEnds(turns, 1, false);
    RequestOutcome(turns, 1, false);
    if w.used > 0 {
      var last := turns[w.used - 1];
      LastBrings(last, w.outcome, Data);
      LastBrings(last, w.outcome, OtherErrors);
      LastBrings(last, w.outcome, NoData);
      LastBrings(last, w.outcome, RateLimitErrors);
    }
    if w.outcome.Success? && w.outcome.reply.body.RateLimitErrors? {
      var rest := turns[w.used..];
      FetchEnds(rest, attempt + 1);
      assert forall i | w.used <= i < |turns| :: turns[i] == rest[i - w.used];
      hide Brings, Verdict, GoesOn;
    }
  }
}
