/**
 * `_extract_err`: the human-readable message the client makes of an HTTP
 * response it does not accept.
 */
module ExtractError {
  import opened PyText
  import opened PyJson
  import opened Http

  /** The text used when the body is not JSON and neither text nor reason says anything. */
  const GenericFailure := "Request failed."

  /**
   * The message for a rejected response. A JSON dict body is searched for
   * `error.message`, then `error`, and otherwise shown whole; any other JSON
   * value is shown whole; a body that is not JSON gives its stripped text,
   * else the reason phrase, else GenericFailure. A non-string value chosen
   * from the dict is shown as `str()` shows it, which is what the caller's
   * f-string does with it.
   */
  function ExtractErr(r: Response): (msg: string)
    ensures msg == [] <==> r.json == Parsed(JString([]))
    ensures r.json.NotJson? && !AllSpace(r.text) ==> NoSurroundingSpace(msg)
  {
    match r.json
    case Parsed(j) => FromJson(j)
    case NotJson => FromText(r.text, r.reason)
  }

  /** The `try` branch: `r.json()` succeeded with `j`. */
  function FromJson(j: Json): (msg: string)
    ensures msg == [] <==> j == JString([])
  {
    if j.JObject? then FromDict(j) else Str(j)
  }

  /** The `except` branch: `(r.text or "").strip() or r.reason or "Request failed."`. */
  function FromText(text: string, reason: string): (msg: string)
    ensures msg != []
    ensures !AllSpace(text) ==> msg == Strip(text) && NoSurroundingSpace(msg)
    ensures AllSpace(text) && reason != [] ==> msg == reason
    ensures AllSpace(text) && reason == [] ==> msg == GenericFailure
  {
    var stripped := Strip(text);
    if stripped != [] then stripped
    else if reason != [] then reason
    else assert |GenericFailure| == 15; GenericFailure
  }

  /** The choice made for a dict body `j`: `error.message`, then `error`, then `str(j)`. */
  function FromDict(j: Json): (msg: string)
    requires j.JObject?
    ensures msg != []
  {
    var e := Get(j.members, "error");
    if e.JObject? then
      var m := Get(e.members, "message");
      if Truthy(m) then Str(m) else Str(j)
    else if Truthy(e) then Str(e) else Str(j)
  }

  predicate NoSurroundingSpace(s: string) {
    s != [] ==> !IsSpace(s[0]) && !IsSpace(s[|s| - 1])
  }

  /** The dict under "error" of a JSON dict body, if there is one. */
  function ErrorObject(r: Response): Json {
    if r.json.Parsed? && r.json.value.JObject? then Get(r.json.value.members, "error") else JNull
  }

  /**
   * First choice: a truthy `error.message` of a dict body is the message,
   * shown by `str`, so a string message appears as itself.
   */
  lemma NestedMessageFirst(r: Response)
    requires r.json.Parsed? && r.json.value.JObject?
    requires ErrorObject(r).JObject? && Truthy(Get(ErrorObject(r).members, "message"))
    ensures ExtractErr(r) == Str(Get(ErrorObject(r).members, "message"))
    ensures Get(ErrorObject(r).members, "message").JString? ==>
      ExtractErr(r) == Get(ErrorObject(r).members, "message").s
  {
  }

  /** A dict "error" whose message is missing or falsy gives the whole body. */
  lemma EmptyNestedMessageGivesBody(r: Response)
    requires r.json.Parsed? && r.json.value.JObject?
    requires ErrorObject(r).JObject? && !Truthy(Get(ErrorObject(r).members, "message"))
    ensures ExtractErr(r) == Repr(r.json.value)
  {
  }

  /** Second choice: a truthy "error" that is not a dict is the message, a string as itself. */
  lemma ErrorFieldSecond(r: Response)
    requires r.json.Parsed? && r.json.value.JObject?
    requires !ErrorObject(r).JObject? && Truthy(ErrorObject(r))
    ensures ExtractErr(r) == Str(ErrorObject(r))
    ensures ErrorObject(r).JString? ==> ExtractErr(r) == ErrorObject(r).s
  {
  }

  /**
   * A dict body whose "error" is missing or a falsy non-dict (`null`, `""`,
   * `0`, `false`, `[]`) is shown whole, braces included.
   */
  lemma FalsyErrorGivesBody(r: Response)
    requires r.json.Parsed? && r.json.value.JObject?
    requires !ErrorObject(r).JObject? && !Truthy(ErrorObject(r))
    ensures var msg := ExtractErr(r);
      msg == Repr(r.json.value) && |msg| >= 2 && msg[0] == '{' && msg[|msg| - 1] == '}'
  {
    StrOfObject(r.json.value.members);
  }

  /** A JSON body that is not a dict is shown whole. */
  lemma NonObjectBodyShownWhole(r: Response)
    requires r.json.Parsed? && !r.json.value.JObject?
    ensures ExtractErr(r) == Str(r.json.value)
  {
  }

  /** A body that is not JSON: its stripped text, else the reason, else GenericFailure. */
  lemma NotJsonFallbacks(r: Response)
    requires r.json.NotJson?
    ensures !AllSpace(r.text) ==> ExtractErr(r) == Strip(r.text)
    ensures AllSpace(r.text) && r.reason != [] ==> ExtractErr(r) == r.reason
    ensures AllSpace(r.text) && r.reason == [] ==> ExtractErr(r) == GenericFailure
  {
  }
}
