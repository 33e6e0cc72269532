/**
 * The candidate request bodies of `generate_image_from_text`: deployments of
 * the model accept different JSON shapes, so the client tries several, in a
 * fixed order.
 */
module PayloadVariants {
  import opened Wrappers
  import opened PyJson

  /** Python truthiness of the optional negative prompt: `None` and "" are both absent. */
  predicate HasNegative(negative: Option<string>) {
    negative.Some? && negative.value != []
  }

  /** `{"inputs": {"prompt": p, "negative_prompt": n}}` */
  function NestedWithNegative(prompt: string, negative: string): Json {
    JObject([("inputs", JObject([("prompt", JString(prompt)), ("negative_prompt", JString(negative))]))])
  }

  /** `{"inputs": p, "parameters": {"negative_prompt": n}}` */
  function ParametersWithNegative(prompt: string, negative: string): Json {
    JObject([("inputs", JString(prompt)), ("parameters", JObject([("negative_prompt", JString(negative))]))])
  }

  /** `{"inputs": p, "options": {"negative_prompt": n}}` */
  function OptionsWithNegative(prompt: string, negative: string): Json {
    JObject([("inputs", JString(prompt)), ("options", JObject([("negative_prompt", JString(negative))]))])
  }

  /** `{"inputs": {"prompt": p}}` */
  function NestedPrompt(prompt: string): Json {
    JObject([("inputs", JObject([("prompt", JString(prompt))]))])
  }

  /** `{"inputs": p}` */
  function PlainPrompt(prompt: string): Json {
    JObject([("inputs", JString(prompt))])
  }

  /** The payload list, in the order the client tries it. */
  function Payloads(prompt: string, negative: Option<string>): seq<Json> {
    (if HasNegative(negative)
     then [NestedWithNegative(prompt, negative.value), ParametersWithNegative(prompt, negative.value),
           OptionsWithNegative(prompt, negative.value)]
     else [])
    + [NestedPrompt(prompt), PlainPrompt(prompt)]
  }

  /** Where a payload puts the negative prompt. */
  datatype Placement = InInputs | InParameters | InOptions

  /** Reads `payload[key]["negative_prompt"]` when it is a string. */
  function NegativeUnder(payload: Json, key: string): Option<string> {
    if !payload.JObject? then None
    else
      var holder := Get(payload.members, key);
      if !holder.JObject? then None
      else
        var n := Get(holder.members, "negative_prompt");
        if n.JString? then Some(n.s) else None
  }

  /**
   * How a server reads the prompt off a payload: `inputs` itself when it is a
   * string, `inputs.prompt` when `inputs` is a dict.
   */
  function PromptOf(payload: Json): Option<string> {
    if !payload.JObject? then None
    else
      match Get(payload.members, "inputs")
      case JString(p) => Some(p)
      case JObject(ms) => if Get(ms, "prompt").JString? then Some(Get(ms, "prompt").s) else None
      case _ => None
  }

  /** The negative prompt a payload carries, with its placement, if any. */
  function NegativeOf(payload: Json): Option<(string, Placement)> {
    match (NegativeUnder(payload, "inputs"), NegativeUnder(payload, "parameters"), NegativeUnder(payload, "options"))
    case (Some(n), _, _) => Some((n, InInputs))
    case (None, Some(n), _) => Some((n, InParameters))
    case (None, None, Some(n)) => Some((n, InOptions))
    case (None, None, None) => None
  }

  /** How many payloads the client tries: five with a negative prompt, two without. */
  function VariantCount(negative: Option<string>): nat {
    if HasNegative(negative) then 5 else 2
  }

  /** Five payloads with a negative prompt, two without; the last two never change. */
  lemma PayloadCount(prompt: string, negative: Option<string>)
    ensures var ps := Payloads(prompt, negative);
      && |ps| == VariantCount(negative) == (if HasNegative(negative) then 5 else 2)
      && ps[|ps| - 2..] == Payloads(prompt, None) == [NestedPrompt(prompt), PlainPrompt(prompt)]
  {
  }

  /** An empty negative prompt is the same as none at all. */
  lemma EmptyNegativeIsAbsent(prompt: string)
    ensures Payloads(prompt, Some([])) == Payloads(prompt, None)
  {
  }

  /** Every payload carries the prompt, in one of the two places a server looks. */
  lemma {:induction false} EveryPayloadCarriesPrompt(prompt: string, negative: Option<string>)
    ensures var ps := Payloads(prompt, negative);
      forall i :: 0 <= i < |ps| ==> PromptOf(ps[i]) == Some(prompt)
  {
    var ps := Payloads(prompt, negative);
    forall i | 0 <= i < |ps| ensures PromptOf(ps[i]) == Some(prompt) {
      var k := i - |ps| + 2;
      if k == 0 {
        assert ps[i] == NestedPrompt(prompt);
      } else if k == 1 {
        assert ps[i] == PlainPrompt(prompt);
      } else {
        var n := negative.value;
        assert ps[i] in {NestedWithNegative(prompt, n), ParametersWithNegative(prompt, n), OptionsWithNegative(prompt, n)};
      }
    }
  }

  /** The first payload carries the negative prompt nested in `inputs`. */
  lemma NegativeOfNested(prompt: string, n: string)
    ensures NegativeOf(NestedWithNegative(prompt, n)) == Some((n, InInputs))
  {
    var inner := [("prompt", JString(prompt)), ("negative_prompt", JString(n))];
    assert Get(inner, "negative_prompt") == Get(inner[1..], "negative_prompt") == JString(n);
  }

  /** The second payload carries it under `parameters`, and nowhere before that. */
  lemma NegativeOfParameters(prompt: string, n: string)
    ensures NegativeOf(ParametersWithNegative(prompt, n)) == Some((n, InParameters))
  {
    var members := ParametersWithNegative(prompt, n).members;
    assert NegativeUnder(ParametersWithNegative(prompt, n), "inputs") == None;
    assert Get(members, "parameters") == Get(members[1..], "parameters") == JObject([("negative_prompt", JString(n))]);
  }

  /** The third payload carries it under `options`, and nowhere before that. */
  lemma NegativeOfOptions(prompt: string, n: string)
    ensures NegativeOf(OptionsWithNegative(prompt, n)) == Some((n, InOptions))
  {
    var members := OptionsWithNegative(prompt, n).members;
    assert NegativeUnder(OptionsWithNegative(prompt, n), "inputs") == None;
    assert Get(members, "parameters") == Get(members[1..], "parameters") == JNull;
    assert Get(members, "options") == Get(members[1..], "options") == JObject([("negative_prompt", JString(n))]);
  }

  /** The two prompt-only payloads carry no negative prompt. */
  lemma NoNegativeInPromptOnly(prompt: string)
    ensures NegativeOf(NestedPrompt(prompt)) == None
    ensures NegativeOf(PlainPrompt(prompt)) == None
  {
    assert NegativeUnder(NestedPrompt(prompt), "inputs") == None;
    assert NegativeUnder(PlainPrompt(prompt), "inputs") == None;
  }

  /** With a negative prompt, the first three payloads carry it in `inputs`, `parameters` and `options`, in that order. */
  lemma NegativeInFirstThree(prompt: string, n: string)
    requires n != []
    ensures var ps := Payloads(prompt, Some(n));
      && NegativeOf(ps[0]) == Some((n, InInputs))
      && NegativeOf(ps[1]) == Some((n, InParameters))
      && NegativeOf(ps[2]) == Some((n, InOptions))
  {
    var ps := Payloads(prompt, Some(n));
    assert ps[0] == NestedWithNegative(prompt, n);
    assert ps[1] == ParametersWithNegative(prompt, n);
    assert ps[2] == OptionsWithNegative(prompt, n);
    NegativeOfNested(prompt, n);
    NegativeOfParameters(prompt, n);
    NegativeOfOptions(prompt, n);
  }

  /** The last two payloads never carry the negative prompt. */
  lemma NoNegativeInLastTwo(prompt: string, negative: Option<string>)
    ensures var ps := Payloads(prompt, negative);
      NegativeOf(ps[|ps| - 2]) == None && NegativeOf(ps[|ps| - 1]) == None
  {
    var ps := Payloads(prompt, negative);
    PayloadCount(prompt, negative);
    assert ps[|ps| - 2] == ps[|ps| - 2..][0] && ps[|ps| - 1] == ps[|ps| - 2..][1];
    NoNegativeInPromptOnly(prompt);
  }

  /**
   * The negative prompt rides in the first three payloads only: nested in
   * `inputs`, then under `parameters`, then under `options`.
   */
  lemma NegativePlacementOrder(prompt: string, negative: Option<string>)
    ensures var ps := Payloads(prompt, negative);
      && (HasNegative(negative) ==>
            && NegativeOf(ps[0]) == Some((negative.value, InInputs))
            && NegativeOf(ps[1]) == Some((negative.value, InParameters))
            && NegativeOf(ps[2]) == Some((negative.value, InOptions)))
      && NegativeOf(ps[|ps| - 2]) == None
      && NegativeOf(ps[|ps| - 1]) == None
  {
    NoNegativeInLastTwo(prompt, negative);
    if HasNegative(negative) {
      NegativeInFirstThree(prompt, negative.value);
    }
  }
}
