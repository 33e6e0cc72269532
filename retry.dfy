/**
 * The search of `generate_image_from_text` as a state machine: the state is
 * the payload being tried and the attempt number within it; each POST's
 * reply decides the next state. `Run` is the specification the client
 * method is proved against.
 */
module RetrySearch {
  import opened Wrappers
  import opened PyText
  import opened Http
  import opened ExtractError

  /** POSTs per payload, at most (`range(3)`). */
  const MaxAttempts: nat := 3

  /** What is raised when no attempt left a message; no run of the client raises it (see ImageClient.GenerateOutcome). */
  const Fallback := "The response is not an image." + " Possibly an error message."

  /** The decoded picture; the imaging library is not modelled, so it is the body it came from. */
  datatype Image = Image(content: seq<bv8>)

  /** One POST: the index of the payload sent and the 0-based attempt number for it. */
  datatype Attempt = Attempt(variant: nat, attempt: nat)

  /**
   * How a search went: the image, or the last reply it did not accept (None
   * when it made no POST); its POSTs in order; and the seconds slept, in order.
   */
  datatype Search = Search(outcome: Result<Image, Option<Reply>>, log: seq<Attempt>, delays: seq<nat>)

  /** The reply that ends the search with an image. */
  predicate Accepts(reply: Reply) {
    reply.Answer? && IsImage(reply.response)
  }

  /** The replies after which the same payload is sent again: 502, 503 and 504. */
  predicate Retries(reply: Reply) {
    reply.Answer? && IsTransientStatus(reply.response.status)
  }

  /**
   * The error message the client keeps after a reply it does not accept:
   * "Request failed: <exception>" or "<status>: <_extract_err>". It is never
   * empty and never the fallback text, which starts with neither.
   */
  function AttemptMessage(reply: Reply): (m: string)
    ensures m != [] && m != Fallback
  {
    match reply
    case TransportError(e) =>
      var m := "Request failed: " + e;
      assert m[0] == 'R';
      m
    case Answer(r) =>
      var m := Decimal(r.status) + ": " + ExtractErr(r);
      assert m[0] == Decimal(r.status)[0];
      m
  }

  /**
   * The state after a POST that did not end the search: the next attempt at
   * the same payload after a transient status while attempts remain, the
   * first attempt at the next payload otherwise.
   */
  function Next(at: Attempt, reply: Reply): Attempt {
    if Retries(reply) && at.attempt + 1 < MaxAttempts then Attempt(at.variant, at.attempt + 1)
    else Attempt(at.variant + 1, 0)
  }

  /** How many POSTs can still be made from state `at` with `variants` payloads. */
  function Remaining(variants: nat, at: Attempt): nat {
    if at.variant < variants && at.attempt < MaxAttempts
    then MaxAttempts * (variants - at.variant) - at.attempt
    else 0
  }

  /** `last_err or "…"`: the message raised once every payload has been tried. */
  function ExhaustedMessage(lastErr: Option<string>): string {
    if lastErr.Some? && lastErr.value != [] then lastErr.value else Fallback
  }

  /** The `last_err` the client holds once `last` is the last reply it did not accept. */
  function Kept(last: Option<Reply>): (lastErr: Option<string>)
    ensures lastErr.None? <==> last.None?
  {
    if last.Some? then Some(AttemptMessage(last.value)) else None
  }

  /**
   * The message raised after the failed search whose last unaccepted reply
   * is `last`: that reply's own message, and the fallback only when there
   * was no POST at all.
   */
  function Raised(last: Option<Reply>): (m: string)
    ensures last.Some? ==> m == AttemptMessage(last.value)
    ensures last.None? ==> m == Fallback
  {
    ExhaustedMessage(Kept(last))
  }

  /**
   * The search from state `at`, with `replies[i]`, `replies[i + 1]`, …
   * answering its POSTs in order and `last` the last reply not accepted so far.
   */
  function Run(variants: nat, at: Attempt, replies: seq<Reply>, i: nat, last: Option<Reply>): (s: Search)
    requires at.variant <= variants && at.attempt < MaxAttempts
    requires i + Remaining(variants, at) <= |replies|
    decreases variants - at.variant, MaxAttempts - at.attempt
  {
    if at.variant == variants then Search(Failure(last), [], [])
    else
      var reply := replies[i];
      if Accepts(reply) then Search(Success(Image(reply.response.content)), [at], [])
      else
        var rest := Run(variants, Next(at, reply), replies, i + 1, Some(reply));
        var slept := if Retries(reply) then [1 + at.attempt] else [];
        Search(rest.outcome, [at] + rest.log, slept + rest.delays)
  }

  /**
   * The search from a state never makes more POSTs than remain, makes none
   * exactly when no payload is left, and makes its first POST from the
   * state it starts in.
   */
  lemma {:induction false} RunShape(variants: nat, at: Attempt, replies: seq<Reply>, i: nat, last: Option<Reply>)
    requires at.variant <= variants && at.attempt < MaxAttempts
    requires i + Remaining(variants, at) <= |replies|
    ensures var s := Run(variants, at, replies, i, last);
      && |s.log| <= Remaining(variants, at)
      && (s.log == [] <==> at.variant == variants)
      && (s.log != [] ==> s.log[0] == at)
    decreases variants - at.variant, MaxAttempts - at.attempt
  {
    if at.variant < variants && !Accepts(replies[i]) {
      RunShape(variants, Next(at, replies[i]), replies, i + 1, Some(replies[i]));
    }
  }

  /** The search `rest`, after the POSTs `log` and the sleeps `delays` that came before it. */
  function After(log: seq<Attempt>, delays: seq<nat>, rest: Search): Search {
    Search(rest.outcome, log + rest.log, delays + rest.delays)
  }

  /** Nothing before the search leaves it as it is. */
  lemma AfterNothing(rest: Search)
    ensures After([], [], rest) == rest
  {
    assert [] + rest.log == rest.log && [] + rest.delays == rest.delays;
  }

  /** Running on after two stretches of POSTs is running on after both together. */
  lemma AfterAfter(log1: seq<Attempt>, delays1: seq<nat>, log2: seq<Attempt>, delays2: seq<nat>, rest: Search)
    ensures After(log1, delays1, After(log2, delays2, rest)) == After(log1 + log2, delays1 + delays2, rest)
    ensures delays2 == [] ==> After(log1, delays1, After(log2, delays2, rest)) == After(log1 + log2, delays1, rest)
  {
    assert delays1 + [] == delays1;
    assert log1 + (log2 + rest.log) == (log1 + log2) + rest.log;
    assert delays1 + (delays2 + rest.delays) == (delays1 + delays2) + rest.delays;
  }

  /** One step of Run, after earlier POSTs `log` and sleeps `delays`: an accepted reply ends the search with its image. */
  lemma StepAccept(variants: nat, at: Attempt, replies: seq<Reply>, i: nat, last: Option<Reply>,
                   log: seq<Attempt>, delays: seq<nat>)
    requires at.variant < variants && at.attempt < MaxAttempts
    requires i + Remaining(variants, at) <= |replies|
    requires Accepts(replies[i])
    ensures After(log, delays, Run(variants, at, replies, i, last))
      == Search(Success(Image(replies[i].response.content)), log + [at], delays)
  {
    assert delays + [] == delays;
  }

  /** One step of Run: after a transient status the same payload is sent again, or the next one once attempts run out. */
  lemma StepRetry(variants: nat, at: Attempt, replies: seq<Reply>, i: nat, last: Option<Reply>,
                  log: seq<Attempt>, delays: seq<nat>)
    requires at.variant < variants && at.attempt < MaxAttempts
    requires i + Remaining(variants, at) <= |replies|
    requires Retries(replies[i])
    ensures After(log, delays, Run(variants, at, replies, i, last))
      == After(log + [at], delays + [1 + at.attempt],
               Run(variants, Resume(at.variant, at.attempt + 1), replies, i + 1, Some(replies[i])))
  {
    assert Next(at, replies[i]) == Resume(at.variant, at.attempt + 1);
    AfterAfter(log, delays, [at], [1 + at.attempt], RunOn(variants, at, replies, i));
  }

  /** One step of Run: any other reply gives the payload up and moves on to the next one. */
  lemma StepGiveUp(variants: nat, at: Attempt, replies: seq<Reply>, i: nat, last: Option<Reply>,
                   log: seq<Attempt>, delays: seq<nat>)
    requires at.variant < variants && at.attempt < MaxAttempts
    requires i + Remaining(variants, at) <= |replies|
    requires !Accepts(replies[i]) && !Retries(replies[i])
    ensures After(log, delays, Run(variants, at, replies, i, last))
      == After(log + [at], delays, Run(variants, Attempt(at.variant + 1, 0), replies, i + 1, Some(replies[i])))
  {
    assert Next(at, replies[i]) == Attempt(at.variant + 1, 0);
    AfterAfter(log, delays, [at], [], RunOn(variants, at, replies, i));
  }

  /** Three transient statuses in a row use up a payload: three POSTs, sleeps of 1, 2 and 3 seconds, then the next payload. */
  lemma ThreeTransient(variants: nat, v: nat, replies: seq<Reply>, i: nat, last: Option<Reply>)
    requires v < variants && i + Remaining(variants, Attempt(v, 0)) <= |replies|
    requires Retries(replies[i]) && Retries(replies[i + 1]) && Retries(replies[i + 2])
    ensures Run(variants, Attempt(v, 0), replies, i, last)
      == After([Attempt(v, 0), Attempt(v, 1), Attempt(v, 2)], [1, 2, 3],
               Run(variants, Attempt(v + 1, 0), replies, i + 3, Some(replies[i + 2])))
  {
    var a0, a1, a2 := Attempt(v, 0), Attempt(v, 1), Attempt(v, 2);
    var whole := Run(variants, a0, replies, i, last);
    assert After([], [], whole) == whole by {
      assert [] + whole.log == whole.log && [] + whole.delays == whole.delays;
    }
    StepRetry(variants, a0, replies, i, last, [], []);
    assert Resume(v, 1) == a1 && Resume(v, 2) == a2 && Resume(v, 3) == Attempt(v + 1, 0);
    assert [] + [a0] == [a0] && [] + [1] == [1];
    StepRetry(variants, a1, replies, i + 1, Some(replies[i]), [a0], [1]);
    assert [a0] + [a1] == [a0, a1] && [1] + [2] == [1, 2];
    StepRetry(variants, a2, replies, i + 2, Some(replies[i + 1]), [a0, a1], [1, 2]);
    assert [a0, a1] + [a2] == [a0, a1, a2] && [1, 2] + [3] == [1, 2, 3];
  }

  /** The state at the top of the attempt loop: attempt `attempt` of `variant`, or the next payload once attempts run out. */
  function Resume(variant: nat, attempt: nat): Attempt {
    if attempt < MaxAttempts then Attempt(variant, attempt) else Attempt(variant + 1, 0)
  }

  /** The seconds slept by the POSTs `log` answered from `replies[i]` on: `1 + attempt` after each transient status. */
  function Sleeps(replies: seq<Reply>, i: nat, log: seq<Attempt>): seq<nat>
    requires i + |log| <= |replies|
    decreases log
  {
    if log == [] then []
    else (if Retries(replies[i]) then [1 + log[0].attempt] else []) + Sleeps(replies, i + 1, log[1..])
  }

  /** Each POST after the first is sent from the state `Next` gives for the one before. */
  predicate FollowsNext(log: seq<Attempt>, replies: seq<Reply>, i: nat) {
    forall k :: 0 <= k < |log| - 1 && i + k < |replies| ==> log[k + 1] == Next(log[k], replies[i + k])
  }

  /** Every POST names a payload in `from..variants` and an attempt below MaxAttempts. */
  predicate InRange(log: seq<Attempt>, from: nat, variants: nat) {
    forall k :: 0 <= k < |log| ==> from <= log[k].variant < variants && log[k].attempt < MaxAttempts
  }

  /** No reply from `replies[i]` up to, but not including, the one answering the last POST of `log` is accepted. */
  predicate NoEarlierImage(log: seq<Attempt>, replies: seq<Reply>, i: nat) {
    forall k :: i <= k < i + |log| - 1 && k < |replies| ==> !Accepts(replies[k])
  }

  /** Run from the next state, as Run takes it after a reply it does not accept. */
  function RunOn(variants: nat, at: Attempt, replies: seq<Reply>, i: nat): Search
    requires at.variant < variants && at.attempt < MaxAttempts
    requires i + Remaining(variants, at) <= |replies|
  {
    Run(variants, Next(at, replies[i]), replies, i + 1, Some(replies[i]))
  }

  lemma {:induction false} RunSteps(variants: nat, at: Attempt, replies: seq<Reply>, i: nat, last: Option<Reply>)
    requires at.variant <= variants && at.attempt < MaxAttempts
    requires i + Remaining(variants, at) <= |replies|
    ensures FollowsNext(Run(variants, at, replies, i, last).log, replies, i)
    decreases variants - at.variant, MaxAttempts - at.attempt
  {
    var s := Run(variants, at, replies, i, last);
    if at.variant < variants && !Accepts(replies[i]) {
      var rest := RunOn(variants, at, replies, i);
      RunSteps(variants, Next(at, replies[i]), replies, i + 1, Some(replies[i]));
      assert s.log == [at] + rest.log;
      forall k | 0 <= k < |s.log| - 1 && i + k < |replies| ensures s.log[k + 1] == Next(s.log[k], replies[i + k]) {
        if k > 0 {
          assert s.log[k] == rest.log[k - 1] && s.log[k + 1] == rest.log[k];
          assert (i + 1) + (k - 1) == i + k;
        }
      }
    }
  }

  /** Every POST uses a payload of the list and an attempt number below MaxAttempts. */
  lemma {:induction false} RunInRange(variants: nat, at: Attempt, replies: seq<Reply>, i: nat, last: Option<Reply>)
    requires at.variant <= variants && at.attempt < MaxAttempts
    requires i + Remaining(variants, at) <= |replies|
    ensures InRange(Run(variants, at, replies, i, last).log, at.variant, variants)
    decreases variants - at.variant, MaxAttempts - at.attempt
  {
    var s := Run(variants, at, replies, i, last);
    if at.variant < variants && !Accepts(replies[i]) {
      var next := Next(at, replies[i]);
      var rest := RunOn(variants, at, replies, i);
      RunInRange(variants, next, replies, i + 1, Some(replies[i]));
      assert s.log == [at] + rest.log;
      forall k | 0 <= k < |s.log|
        ensures at.variant <= s.log[k].variant < variants && s.log[k].attempt < MaxAttempts
      {
        if k > 0 {
          assert s.log[k] == rest.log[k - 1];
        }
      }
    }
  }

  /**
   * The search stops at the first accepted reply and only there: no earlier
   * reply is accepted, and it succeeds exactly when its last reply is, with
   * that reply's image.
   */
  lemma {:induction false} RunStopsAtImage(variants: nat, at: Attempt, replies: seq<Reply>, i: nat, last: Option<Reply>)
    requires at.variant <= variants && at.attempt < MaxAttempts
    requires i + Remaining(variants, at) <= |replies|
    ensures |Run(variants, at, replies, i, last).log| <= Remaining(variants, at)
    ensures var s := Run(variants, at, replies, i, last);
      && NoEarlierImage(s.log, replies, i)
      && (s.outcome.Success? <==> s.log != [] && Accepts(replies[i + |s.log| - 1]))
      && (s.outcome.Success? ==> s.outcome.value == Image(replies[i + |s.log| - 1].response.content))
    decreases variants - at.variant, MaxAttempts - at.attempt
  {
    var s := Run(variants, at, replies, i, last);
    RunShape(variants, at, replies, i, last);
    if at.variant < variants && !Accepts(replies[i]) {
      var rest := RunOn(variants, at, replies, i);
      RunStopsAtImage(variants, Next(at, replies[i]), replies, i + 1, Some(replies[i]));
      assert s.log == [at] + rest.log;
      assert (i + 1) + |rest.log| - 1 == i + |s.log| - 1;
    }
  }

  /**
   * A failed search ends on the reply to its very last POST, and it fails
   * because that POST moved the search past the last payload. With no POST
   * (no payload left) it keeps the reply it started with.
   */
  lemma {:induction false} RunFailure(variants: nat, at: Attempt, replies: seq<Reply>, i: nat, last: Option<Reply>)
    requires at.variant <= variants && at.attempt < MaxAttempts
    requires i + Remaining(variants, at) <= |replies|
    ensures |Run(variants, at, replies, i, last).log| <= Remaining(variants, at)
    ensures var s := Run(variants, at, replies, i, last);
      && (s.log == [] ==> s.outcome == Failure(last))
      && (s.outcome.Failure? && s.log != [] ==>
            s.outcome.error == Some(replies[i + |s.log| - 1])
            && Next(s.log[|s.log| - 1], replies[i + |s.log| - 1]).variant == variants)
    decreases variants - at.variant, MaxAttempts - at.attempt
  {
    var s := Run(variants, at, replies, i, last);
    RunShape(variants, at, replies, i, last);
    if at.variant < variants && !Accepts(replies[i]) {
      var rest := RunOn(variants, at, replies, i);
      RunFailure(variants, Next(at, replies[i]), replies, i + 1, Some(replies[i]));
      assert s.log == [at] + rest.log;
      var final := i + |s.log| - 1;
      if rest.log != [] {
        assert (i + 1) + |rest.log| - 1 == final;
        assert s.log[|s.log| - 1] == rest.log[|rest.log| - 1];
      } else {
        assert s.log == [at] && final == i;
        assert Next(at, replies[i]).variant == variants;
      }
    }
  }

  /** The sleeps are `1 + attempt` seconds after each transient status, in call order. */
  lemma {:induction false} RunDelays(variants: nat, at: Attempt, replies: seq<Reply>, i: nat, last: Option<Reply>)
    requires at.variant <= variants && at.attempt < MaxAttempts
    requires i + Remaining(variants, at) <= |replies|
    ensures |Run(variants, at, replies, i, last).log| <= Remaining(variants, at)
    ensures var s := Run(variants, at, replies, i, last); s.delays == Sleeps(replies, i, s.log)
    decreases variants - at.variant, MaxAttempts - at.attempt
  {
    var s := Run(variants, at, replies, i, last);
    RunShape(variants, at, replies, i, last);
    if at.variant < variants {
      if Accepts(replies[i]) {
        assert Sleeps(replies, i, s.log) == Sleeps(replies, i + 1, []) == [];
      } else {
        var rest := RunOn(variants, at, replies, i);
        RunDelays(variants, Next(at, replies[i]), replies, i + 1, Some(replies[i]));
        assert s.log == [at] + rest.log && s.log[1..] == rest.log;
        assert Sleeps(replies, i, s.log)
          == (if Retries(replies[i]) then [1 + at.attempt] else []) + Sleeps(replies, i + 1, rest.log);
      }
    }
  }

  /** Every sleep lasts 1, 2 or 3 seconds when the attempts are below MaxAttempts. */
  lemma {:induction false} SleepsBounded(replies: seq<Reply>, i: nat, log: seq<Attempt>)
    requires i + |log| <= |replies|
    requires forall k :: 0 <= k < |log| ==> log[k].attempt < MaxAttempts
    ensures forall d :: 0 <= d < |Sleeps(replies, i, log)| ==> 1 <= Sleeps(replies, i, log)[d] <= MaxAttempts
    decreases log
  {
    if log != [] {
      SleepsBounded(replies, i + 1, log[1..]);
      assert log[0].attempt < MaxAttempts;
    }
  }

  /**
   * Payloads are tried in list order, and the POSTs of one payload are its
   * attempts 0, 1, 2, … one after another.
   */
  lemma {:induction false} CallOrder(log: seq<Attempt>, replies: seq<Reply>, i: nat, j: nat, k: nat)
    requires i + |log| <= |replies| && FollowsNext(log, replies, i)
    requires j <= k < |log|
    ensures log[j].variant <= log[k].variant
    ensures log[j].variant == log[k].variant ==> log[k].attempt == log[j].attempt + (k - j)
    decreases k - j
  {
    if j < k {
      CallOrder(log, replies, i, j, k - 1);
      assert log[k] == Next(log[k - 1], replies[i + (k - 1)]);
    }
  }
}
