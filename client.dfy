/**
 * `generate_image_from_text`: build the payload list, then POST the payloads
 * in order, up to MaxAttempts times each, until an image comes back. The
 * POSTs are answered, in order, by a given sequence of replies; the sleeps
 * are recorded instead of taken.
 */
module ImageClient {
  import opened Wrappers
  import opened PyText
  import opened PyJson
  import opened Http
  import opened ExtractError
  import opened PayloadVariants
  import opened RetrySearch

  /** The most POSTs one call can make: MaxAttempts per payload, so 15 with a negative prompt and 6 without. */
  function MaxPosts(negative: Option<string>): (k: nat)
    ensures k == if HasNegative(negative) then 15 else 6
  {
    MaxAttempts * VariantCount(negative)
  }

  /**
   * The whole search of a call with negative prompt `negative`, from the
   * first attempt at the first payload. The prompt itself only shapes the
   * request bodies, not the search.
   */
  function Generate(negative: Option<string>, replies: seq<Reply>): Search
    requires |replies| >= MaxPosts(negative)
  {
    Run(VariantCount(negative), Attempt(0, 0), replies, 0, None)
  }

  /** What the client returns for a search: the image, or the message it raises. */
  function Outcome(s: Search): Result<Image, string> {
    match s.outcome
    case Success(image) => Success(image)
    case Failure(last) => Failure(Raised(last))
  }

  /**
   * The client. `replies[k]` answers its k-th POST; it returns the image or
   * the message it raises, and how many POSTs it made. The ghost `log` says
   * which payload and attempt each POST was, `delays` the sleeps in order.
   */
  method GenerateImage(prompt: string, negative: Option<string>, replies: seq<Reply>)
    returns (result: Result<Image, string>, calls: nat, ghost log: seq<Attempt>, ghost delays: seq<nat>)
    requires |replies| >= MaxPosts(negative)
    ensures result == Outcome(Generate(negative, replies))
    ensures log == Generate(negative, replies).log && calls == |log|
    ensures delays == Generate(negative, replies).delays
  {
    var payloads := BuildPayloads(prompt, negative);
    PayloadCount(prompt, negative);
    var image, last;
    image, last, calls, log, delays := TryPayloads(payloads, replies);
    if image.Some? {
      result := Success(image.value);
    } else {
      // raise Exception(last_err or "...")
      result := Failure(ExhaustedMessage(Kept(last)));
    }
  }

  /**
   * The outer loop: the payloads in order, each given to TryPayload, until
   * one brings back an image. `last` is the last reply that was not an
   * image, the one `last_err` is the message of.
   */
  method TryPayloads(payloads: seq<Json>, replies: seq<Reply>)
    returns (image: Option<Image>, last: Option<Reply>, calls: nat, ghost log: seq<Attempt>, ghost delays: seq<nat>)
    requires MaxAttempts * |payloads| <= |replies|
    ensures calls == |log|
    ensures image.Some? ==> Run(|payloads|, Attempt(0, 0), replies, 0, None) == Search(Success(image.value), log, delays)
    ensures image.None? ==> Run(|payloads|, Attempt(0, 0), replies, 0, None) == Search(Failure(last), log, delays)
  {
    ghost var n := |payloads|;
    ghost var whole := Run(n, Attempt(0, 0), replies, 0, None);
    image, last, calls, log, delays := None, None, 0, [], [];
    assert whole == After(log, delays, whole);
    for variant := 0 to |payloads|
      invariant calls == |log| <= MaxAttempts * variant && image.None?
      invariant whole == After(log, delays, Run(n, Attempt(variant, 0), replies, calls, last))
    {
      var used;
      ghost var tried, slept;
      image, used, tried, slept := TryPayload(payloads, variant, replies, calls, last);
      AfterAfter(log, delays, tried, slept, Run(n, Attempt(variant + 1, 0), replies, calls + used, Some(replies[calls + used - 1])));
      calls, log, delays := calls + used, log + tried, delays + slept;
      if image.Some? {
        return;
      }
      last := Some(replies[calls - 1]);
    }
    assert log + [] == log && delays + [] == delays;
  }

  /**
   * The client makes between one and MaxPosts POSTs, starting with the first
   * attempt at the first payload, and stops at the first image: the search
   * succeeds exactly when its last reply is an image, and otherwise ends
   * holding that last reply, once that reply has given up the last payload.
   */
  lemma SearchStops(negative: Option<string>, replies: seq<Reply>)
    requires |replies| >= MaxPosts(negative)
    ensures var s := Generate(negative, replies);
      && 1 <= |s.log| <= MaxPosts(negative)
      && s.log[0] == Attempt(0, 0)
      && NoEarlierImage(s.log, replies, 0)
      && (s.outcome.Success? <==> Accepts(replies[|s.log| - 1]))
      && (s.outcome.Success? ==> s.outcome.value == Image(replies[|s.log| - 1].response.content))
      && (s.outcome.Failure? ==> s.outcome.error == Some(replies[|s.log| - 1]))
      && (s.outcome.Failure? ==> Next(s.log[|s.log| - 1], replies[|s.log| - 1]).variant == VariantCount(negative))
  {
    var n := VariantCount(negative);
    RunShape(n, Attempt(0, 0), replies, 0, None);
    RunStopsAtImage(n, Attempt(0, 0), replies, 0, None);
    RunFailure(n, Attempt(0, 0), replies, 0, None);
  }

  /**
   * What the client returns: the image exactly when its last reply is one,
   * and otherwise that reply's message, never the fallback text, raised only
   * after the last payload has been given up.
   */
  lemma GenerateOutcome(negative: Option<string>, replies: seq<Reply>)
    requires |replies| >= MaxPosts(negative)
    ensures var s := Generate(negative, replies);
      && 1 <= |s.log| <= MaxPosts(negative)
      && (Outcome(s).Success? <==> Accepts(replies[|s.log| - 1]))
      && (Outcome(s).Success? ==> Outcome(s).value == Image(replies[|s.log| - 1].response.content))
      && (Outcome(s).Failure? ==> Outcome(s).error == AttemptMessage(replies[|s.log| - 1]) != Fallback)
      && (Outcome(s).Failure? ==> Next(s.log[|s.log| - 1], replies[|s.log| - 1]).variant == VariantCount(negative))
  {
    SearchStops(negative, replies);
  }

  /**
   * The same payload is POSTed again exactly after a 502, 503 or 504 with
   * attempts left; after anything else that is not an image (another status,
   * a transport failure) the client moves on to the first attempt at the
   * next payload.
   */
  lemma RetryOnlyAfterTransient(negative: Option<string>, replies: seq<Reply>, k: nat)
    requires |replies| >= MaxPosts(negative)
    requires k + 1 < |Generate(negative, replies).log|
    ensures |Generate(negative, replies).log| <= MaxPosts(negative)
    ensures var log := Generate(negative, replies).log;
      && !Accepts(replies[k])
      && (Retries(replies[k]) && log[k].attempt + 1 < MaxAttempts ==>
            log[k + 1] == Attempt(log[k].variant, log[k].attempt + 1))
      && (!(Retries(replies[k]) && log[k].attempt + 1 < MaxAttempts) ==>
            log[k + 1] == Attempt(log[k].variant + 1, 0))
  {
    var n := VariantCount(negative);
    RunShape(n, Attempt(0, 0), replies, 0, None);
    RunSteps(n, Attempt(0, 0), replies, 0, None);
    RunStopsAtImage(n, Attempt(0, 0), replies, 0, None);
  }

  /**
   * POSTs follow the payload list in order, each payload's attempts are
   * 0, 1, 2 one after another, and no payload is POSTed more than
   * MaxAttempts times.
   */
  lemma CallsInOrder(prompt: string, negative: Option<string>, replies: seq<Reply>, j: nat, k: nat)
    requires |replies| >= MaxPosts(negative)
    requires j <= k < |Generate(negative, replies).log|
    ensures var log := Generate(negative, replies).log;
      && log[k].variant < |Payloads(prompt, negative)| && log[k].attempt < MaxAttempts
      && log[j].variant <= log[k].variant
      && (log[j].variant == log[k].variant ==> log[k].attempt == log[j].attempt + (k - j))
  {
    var n := VariantCount(negative);
    var log := Generate(negative, replies).log;
    PayloadCount(prompt, negative);
    RunShape(n, Attempt(0, 0), replies, 0, None);
    RunSteps(n, Attempt(0, 0), replies, 0, None);
    RunInRange(n, Attempt(0, 0), replies, 0, None);
    CallOrder(log, replies, 0, j, k);
  }

  /** The client sleeps 1 + attempt seconds after each transient status, so never less than 1 or more than 3. */
  lemma DelaysFollowTransients(negative: Option<string>, replies: seq<Reply>)
    requires |replies| >= MaxPosts(negative)
    ensures var s := Generate(negative, replies);
      && |s.log| <= MaxPosts(negative)
      && s.delays == Sleeps(replies, 0, s.log)
      && forall d :: 0 <= d < |s.delays| ==> 1 <= s.delays[d] <= MaxAttempts
  {
    var n := VariantCount(negative);
    var s := Generate(negative, replies);
    RunDelays(n, Attempt(0, 0), replies, 0, None);
    RunInRange(n, Attempt(0, 0), replies, 0, None);
    SleepsBounded(replies, 0, s.log);
  }

  /** An image in the first reply is returned at once: one POST, no sleep. */
  lemma ImageOnFirstReply(negative: Option<string>, replies: seq<Reply>)
    requires |replies| >= MaxPosts(negative) && Accepts(replies[0])
    ensures Generate(negative, replies) == Search(Success(Image(replies[0].response.content)), [Attempt(0, 0)], [])
    ensures Outcome(Generate(negative, replies)) == Success(Image(replies[0].response.content))
  {
    StepAccept(VariantCount(negative), Attempt(0, 0), replies, 0, None, [], []);
  }

  /**
   * Without a negative prompt, a server that answers only 502, 503 or 504 gets
   * six POSTs, three per payload, with sleeps of 1, 2, 3, 1, 2, 3 seconds,
   * and the search ends holding the sixth reply.
   */
  lemma AllTransientSearch(replies: seq<Reply>)
    requires |replies| >= 6 && forall k :: 0 <= k < 6 ==> Retries(replies[k])
    ensures Generate(None, replies) == Search(Failure(Some(replies[5])),
      [Attempt(0, 0), Attempt(0, 1), Attempt(0, 2), Attempt(1, 0), Attempt(1, 1), Attempt(1, 2)],
      [1, 2, 3, 1, 2, 3])
  {
    var first: seq<Attempt> := [Attempt(0, 0), Attempt(0, 1), Attempt(0, 2)];
    var second: seq<Attempt> := [Attempt(1, 0), Attempt(1, 1), Attempt(1, 2)];
    var tail := Run(2, Attempt(2, 0), replies, 6, Some(replies[5]));
    assert tail == Search(Failure(Some(replies[5])), [], []);
    assert Retries(replies[0]) && Retries(replies[1]) && Retries(replies[2]);
    ThreeTransient(2, 0, replies, 0, None);
    assert Retries(replies[3]) && Retries(replies[4]) && Retries(replies[5]);
    ThreeTransient(2, 1, replies, 3, Some(replies[2]));
    AfterAfter(first, [1, 2, 3], second, [1, 2, 3], tail);
    assert VariantCount(None) == 2;
    assert first + second + [] == first + second;
    assert [1, 2, 3] + [1, 2, 3] + [] == [1, 2, 3, 1, 2, 3];
  }

  /** In that case the client raises the message of the sixth reply. */
  lemma AllTransientRaisesLast(replies: seq<Reply>)
    requires |replies| >= 6 && forall k :: 0 <= k < 6 ==> Retries(replies[k])
    ensures Outcome(Generate(None, replies)) == Failure(AttemptMessage(replies[5]))
  {
    AllTransientSearch(replies);
  }

  /** The payload list, built by appending as the client does. */
  method BuildPayloads(prompt: string, negative: Option<string>) returns (payloads: seq<Json>)
    ensures payloads == Payloads(prompt, negative)
  {
    payloads := [];
    if negative.Some? && negative.value != [] {
      payloads := payloads + [NestedWithNegative(prompt, negative.value)];
      payloads := payloads + [ParametersWithNegative(prompt, negative.value)];
      payloads := payloads + [OptionsWithNegative(prompt, negative.value)];
    }
    payloads := payloads + [NestedPrompt(prompt)];
    payloads := payloads + [PlainPrompt(prompt)];
  }

  /**
   * The inner loop: up to MaxAttempts POSTs of `payloads[variant]`, answered
   * by `replies[start]`, `replies[start + 1]`, …. It ends with the image or
   * gives the payload up; `used` is how many replies it took, and the last of
   * them is the one whose message becomes `last_err`.
   */
  method TryPayload(payloads: seq<Json>, variant: nat, replies: seq<Reply>, start: nat, ghost last: Option<Reply>)
    returns (image: Option<Image>, used: nat, ghost log: seq<Attempt>, ghost delays: seq<nat>)
    requires variant < |payloads| && start + Remaining(|payloads|, Attempt(variant, 0)) <= |replies|
    ensures used == |log| && 1 <= used <= MaxAttempts
    ensures image.Some? ==>
      Run(|payloads|, Attempt(variant, 0), replies, start, last) == Search(Success(image.value), log, delays)
    ensures image.None? ==>
      Run(|payloads|, Attempt(variant, 0), replies, start, last)
      == After(log, delays, Run(|payloads|, Attempt(variant + 1, 0), replies, start + used, Some(replies[start + used - 1])))
  {
    ghost var n := |payloads|;
    ghost var whole := Run(n, Attempt(variant, 0), replies, start, last);
    ghost var kept := last;
    image, used, log, delays := None, 0, [], [];
    AfterNothing(whole);
    while used < MaxAttempts
      invariant used == |log| <= MaxAttempts && image.None?
      invariant used > 0 ==> kept == Some(replies[start + used - 1])
      invariant whole == After(log, delays, Run(n, Resume(variant, used), replies, start + used, kept))
    {
      var i, again := start + used, false;
      image, again, log, delays := PostOnce(payloads, variant, used, replies, i, kept, log, delays, whole);
      kept, used := Some(replies[i]), used + 1;
      if image.Some? || !again {
        return;  // break: nothing follows the attempt loop
      }
    }
    assert Resume(variant, used) == Attempt(variant + 1, 0);
  }

  /**
   * One pass of the inner loop's body: POST `payloads[variant]` for attempt
   * `attempt`, answered by `replies[i]`, after the POSTs `log0` and sleeps
   * `delays0`. It returns the image, or whether the loop goes on
   * (`continue`, after the sleep) rather than giving the payload up (`break`).
   */
  method PostOnce(payloads: seq<Json>, variant: nat, attempt: nat, replies: seq<Reply>, i: nat,
                  ghost kept: Option<Reply>, ghost log0: seq<Attempt>, ghost delays0: seq<nat>, ghost whole: Search)
    returns (image: Option<Image>, again: bool, ghost log: seq<Attempt>, ghost delays: seq<nat>)
    requires variant < |payloads| && attempt < MaxAttempts
    requires i + Remaining(|payloads|, Attempt(variant, attempt)) <= |replies|
    requires whole == After(log0, delays0, Run(|payloads|, Resume(variant, attempt), replies, i, kept))
    ensures log == log0 + [Attempt(variant, attempt)]
    ensures image.Some? ==> Accepts(replies[i]) && !again
    ensures image.Some? ==> whole == Search(Success(image.value), log, delays)
    ensures image.None? && again ==>
      whole == After(log, delays, Run(|payloads|, Resume(variant, attempt + 1), replies, i + 1, Some(replies[i])))
    ensures image.None? && !again ==>
      whole == After(log, delays, Run(|payloads|, Attempt(variant + 1, 0), replies, i + 1, Some(replies[i])))
  {
    ghost var at := Attempt(variant, attempt);
    assert Resume(variant, attempt) == at;
    var payload := payloads[variant];
    // requests.post(API_URL, json=payload, ...): the network is not modelled, so the reply is the next one given
    var reply := replies[i];
    image, again, log, delays := None, false, log0 + [at], delays0;
    if reply.TransportError? {
      // except RequestException: ...; break
      StepGiveUp(|payloads|, at, replies, i, kept, log0, delays0);
      return;
    }
    var r := reply.response;
    if IsImage(r) {
      StepAccept(|payloads|, at, replies, i, kept, log0, delays0);
      image := Some(Image(r.content));
      return;
    }
    if IsTransientStatus(r.status) {
      StepRetry(|payloads|, at, replies, i, kept, log0, delays0);
      delays := delays + [1 + attempt];  // time.sleep(1 + attempt); continue
      again := true;
      return;
    }
    StepGiveUp(|payloads|, at, replies, i, kept, log0, delays0);  // break
  }
}
