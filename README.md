# Text-to-image client: payload negotiation and retries

This project models the client in `Project.py`. The client sends a text
prompt, and optionally a negative prompt, to a hosted text-to-image model
and returns the picture. It also models the name under which the console
front end saves that picture.

Deployments of the model accept different JSON request shapes. So
`generate_image_from_text` builds a list of candidate payloads: five with a
negative prompt, two without. It POSTs them in order, at most three times
each:

- a status 200 response with an `image/*` Content-Type ends the whole search;
- 502, 503 and 504 retry the same payload after sleeping `1 + attempt` seconds;
- a transport failure or any other status moves on to the next payload.

When every payload has been given up on, the client raises the message of
the last failed attempt. `_extract_err` chooses that message from the
response body.

The network is a sequence of replies: `replies[k]` answers the k-th POST.
Sleeps are recorded as a list of delays, not taken.

Modules:

- `Wrappers`: `Option` and `Result`.
- `PyText`: the Python string operations used: `isspace`, `strip`/`rstrip`, `lower`, `startswith` and `str()` of an integer.
- `PyJson`: parsed JSON values, truthiness, `dict.get` and `str()`/`repr()`.
- `Http`: replies, responses, the image test and the transient statuses.
- `ExtractError`: `_extract_err`.
- `PayloadVariants`: the payload list.
- `RetrySearch`: the retry strategy as a state machine. The state is `Attempt(variant, attempt)`. `Run` is the specification that the client method is proved against.
- `ImageClient`: the imperative client.
  - `GenerateImage` is the outer `for payload` loop.
  - `TryPayload` is the inner `for attempt` loop.
  - `PostOnce` is that loop's body.
  - Lemmas state what the client promises about calls, order, sleeps and the raised message.
- `SaveName`: the file-name default and filter from `main`.

## Model

| member | source | states |
|---|---|---|
| ImageClient.GenerateImage | Project.py:22-56 | The client returns the image or raises the message that the search specification `Generate` gives. Its POST count, the payload and attempt of every POST, and its sleeps are those of the specification. |
| ImageClient.BuildPayloads | Project.py:27-33 | The list built by successive appends is exactly `Payloads(prompt, negative)`. |
| ImageClient.TryPayloads | Project.py:35-54 | The outer loop over the payloads ends in exactly the search result that `Run` gives from attempt 0 of payload 0: the image with the POSTs and sleeps made, or the last refused reply. |
| ImageClient.TryPayload | Project.py:38-54 | The inner loop makes 1 to 3 POSTs of one payload. It stops at an image, with the state the specification reaches. Otherwise the search continues at the first attempt of the next payload, and the last reply consumed becomes the kept error. |
| ImageClient.PostOnce | Project.py:39-54 | One POST. A transport failure or a non-transient status gives the payload up (`break`). An image is returned. A transient status records a sleep of `1 + attempt` and continues. Each case advances the specification by one step. |
| ImageClient.Outcome | Project.py:47-56 | Reference definition, no contract of its own: the image of a successful search, or `Raised` of its kept reply. Its properties are GenerateOutcome, ImageOnFirstReply and AllTransientRaisesLast. |
| ImageClient.MaxPosts | Project.py:27-38 | The most POSTs a call can make is 3 per payload: 15 with a non-empty negative prompt, 6 without. |
| ImageClient.GenerateOutcome | Project.py:36-56 | A call makes between 1 and MaxPosts POSTs. It returns an image exactly when the last reply is one, and that image is the reply's body. Otherwise it raises the last reply's own message, never the fallback text, and only once that reply has given up the last payload. |
| ImageClient.RetryOnlyAfterTransient | Project.py:41-54 | A reply that does not end the search is not an image. After 502/503/504 with attempts left, the next POST is the same payload's next attempt. After anything else, it is attempt 0 of the next payload. |
| ImageClient.CallsInOrder | Project.py:36-38 | Every POST uses a payload of the list and an attempt below 3. Payload indices never decrease. Within one payload the attempts are consecutive. |
| ImageClient.DelaysFollowTransients | Project.py:51-53 | The sleeps are `1 + attempt` after each 502/503/504, in call order. Each one is 1, 2 or 3 seconds. |
| ImageClient.ImageOnFirstReply | Project.py:45-47 | An image in the first reply is returned after one POST and no sleep. |
| ImageClient.SearchStops | Project.py:36-54 | A call makes between 1 and MaxPosts POSTs, the first being attempt 0 of payload 0. No reply before the last is an image. It succeeds exactly when the last reply is an image; otherwise it ends holding that last reply, whose POST gave up the last payload. |
| ImageClient.AllTransientSearch | Project.py:27-54 | Without a negative prompt and with only transient replies, the client makes six POSTs (attempts 0, 1, 2 of each payload) and sleeps 1, 2, 3, 1, 2, 3 seconds. It ends holding the sixth reply. |
| ImageClient.AllTransientRaisesLast | Project.py:49-56 | In that case it raises the sixth reply's message. |
| RetrySearch.Run | Project.py:36-54 | Reference definition of the search, no contract of its own: POST from the current state, stop at an accepted reply, otherwise sleep after a transient status and go on from `Next`. Its properties are RunShape, RunSteps, RunInRange, RunStopsAtImage, RunFailure, RunDelays and the Step lemmas. |
| RetrySearch.Next | Project.py:38-54 | Reference definition of the next state, no contract of its own: the same payload's next attempt after 502/503/504 with attempts left, else attempt 0 of the next payload. Its properties are StepRetry, StepGiveUp, ThreeTransient and RetryOnlyAfterTransient. |
| RetrySearch.ExhaustedMessage | Project.py:56 | Reference definition of `last_err or "…"`, no contract of its own. Its properties are Raised and GenerateOutcome. |
| RetrySearch.RunShape | Project.py:36-38 | The search from a state never makes more POSTs than remain. It makes none exactly when no payload is left. Its first POST is the state it starts from. |
| RetrySearch.AttemptMessage | Project.py:42-49 | The kept error, "Request failed: <e>" or "<status>: <extracted>", is never empty and never the fallback text. |
| RetrySearch.Kept | Project.py:35-49 | `last_err` is None exactly when no reply has been refused yet. |
| RetrySearch.Raised | Project.py:56 | The raised message is the last refused reply's message. It is the fallback text only when there was no POST at all. |
| RetrySearch.StepAccept | Project.py:45-47 | An accepted reply ends the search with its image and adds no sleep. |
| RetrySearch.StepRetry | Project.py:51-53 | After a transient status, the search sleeps `1 + attempt`. It resumes at the same payload's next attempt, or at the next payload once the attempts are used up. |
| RetrySearch.StepGiveUp | Project.py:41-54 | A transport failure or another status moves to attempt 0 of the next payload, with no sleep. |
| RetrySearch.ThreeTransient | Project.py:38-53 | Three transient replies in a row use a payload up: attempts 0, 1, 2, then sleeps of 1, 2, 3, then the next payload. |
| RetrySearch.RunSteps | Project.py:36-54 | Each POST after the first is made from the state that `Next` gives for the previous POST and its reply. |
| RetrySearch.RunInRange | Project.py:36-38 | Every POST names a payload from the starting one to the end of the list, with an attempt below 3. |
| RetrySearch.RunStopsAtImage | Project.py:45-47 | The search stops at the first accepted reply and only there. It succeeds exactly when its last reply is accepted, with that reply's image. |
| RetrySearch.RunFailure | Project.py:49-56 | A failed search's kept reply is the one that answered its last POST, and that POST moved past the last payload. With no POST, the kept reply is unchanged. |
| RetrySearch.RunDelays | Project.py:51-52 | The sleeps are `Sleeps`: `1 + attempt` after each transient reply, in order. |
| RetrySearch.SleepsBounded | Project.py:52 | With attempts below 3, every sleep lasts 1 to 3 seconds. |
| RetrySearch.CallOrder | Project.py:36-38 | Along POSTs that follow `Next`, payload indices never decrease, and within one payload the attempt grows by one per POST. |
| PayloadVariants.Payloads | Project.py:27-33 | Reference definition of the payload list, no contract of its own. Its properties are PayloadCount, EmptyNegativeIsAbsent, EveryPayloadCarriesPrompt, NegativePlacementOrder and BuildPayloads. |
| PayloadVariants.PayloadCount | Project.py:27-33 | There are five payloads with a negative prompt and two without. The last two are always `{"inputs":{"prompt":p}}` then `{"inputs":p}`. |
| PayloadVariants.EmptyNegativeIsAbsent | Project.py:28 | An empty negative prompt gives the same list as none. |
| PayloadVariants.EveryPayloadCarriesPrompt | Project.py:29-33 | Every payload carries the prompt, either as `inputs` or as `inputs.prompt`. |
| PayloadVariants.NegativeOfNested | Project.py:29 | The first payload carries the negative prompt nested in `inputs`. |
| PayloadVariants.NegativeOfParameters | Project.py:30 | The second carries it under `parameters` and not in `inputs`. |
| PayloadVariants.NegativeOfOptions | Project.py:31 | The third carries it under `options` and nowhere earlier. |
| PayloadVariants.NoNegativeInPromptOnly | Project.py:32-33 | The two prompt-only payloads carry no negative prompt. |
| PayloadVariants.NegativeInFirstThree | Project.py:29-31 | With a non-empty negative prompt, payloads 0, 1 and 2 carry it in `inputs`, `parameters` and `options`. |
| PayloadVariants.NoNegativeInLastTwo | Project.py:32-33 | The last two payloads never carry a negative prompt. |
| PayloadVariants.NegativePlacementOrder | Project.py:28-33 | With a negative prompt, the first three payloads carry it in `inputs`, `parameters` and `options`, in that order. The last two never carry it. |
| ExtractError.ExtractErr | Project.py:10-20 | The message is empty exactly when the body is the JSON string "". For a non-JSON body with text, the message has no surrounding whitespace. |
| ExtractError.FromText | Project.py:19-20 | A non-JSON body gives its stripped text when that is non-empty, else the reason, else "Request failed."; never the empty string. |
| ExtractError.FromJson | Project.py:12-18 | A parsed body's message is empty exactly when the body is the JSON string "". |
| ExtractError.FromDict | Project.py:13-17 | For a dict body, the message is never empty. |
| ExtractError.NestedMessageFirst | Project.py:14-16 | A truthy `error.message` of any JSON type is the message, as `str` shows it; a string message appears as itself. |
| ExtractError.EmptyNestedMessageGivesBody | Project.py:15-16 | A dict `error` with a missing or falsy message gives `str(j)`. |
| ExtractError.ErrorFieldSecond | Project.py:17 | A truthy non-dict `error` is the message, and a string is shown as itself. |
| ExtractError.FalsyErrorGivesBody | Project.py:14-17 | A dict body whose `error` is missing or a falsy non-dict (`null`, `""`, `0`, `false`, `[]`) is shown whole as `str(j)`, braces included. |
| ExtractError.NonObjectBodyShownWhole | Project.py:18 | A JSON body that is not a dict is shown as `str(j)`. |
| ExtractError.NotJsonFallbacks | Project.py:19-20 | A non-JSON body gives its stripped text, else the reason, else "Request failed.". |
| PyJson.Get | Project.py:14-16 | `dict.get` gives None for a missing key. Otherwise it gives a value stored under that key. |
| PyJson.GetOfUniqueKeys | Project.py:14-16 | When no key occurs twice, as in a parsed dict, Get finds exactly the value stored under the key. |
| PyJson.Str | Project.py:16-18 | `str()` is empty only for "". It shows a string as itself and anything else as its repr. |
| PyJson.Repr | Project.py:16-18 | The repr of a value is never empty. |
| PyJson.StrOfObject | Project.py:16-18 | `str()` of a dict starts with `{` and ends with `}`. |
| PyText.TrimStart | Project.py:20 | `lstrip` removes exactly a whitespace prefix and leaves a non-space first character. |
| PyText.TrimEnd | Project.py:86 | `rstrip` removes exactly a whitespace suffix and leaves a non-space last character. |
| PyText.Strip | Project.py:20 | `strip` leaves non-space ends. It is empty exactly for all-whitespace input. |
| PyText.StripIsSlice | Project.py:20 | `strip` returns a slice of its input with only whitespace cut on either side. |
| PyText.TrimOfNoSpace | Project.py:86 | A string without whitespace is left alone by `strip` and `rstrip`. |
| PyText.LowerChar | Project.py:45 | `lower` maps each ASCII capital to its own small letter, 32 code points on, and leaves everything else alone. |
| PyText.Lower | Project.py:45 | `lower` keeps the length and lowers character by character. |
| PyText.NatDecimal | Project.py:49 | The decimal form of a natural number is non-empty and all digits, with no leading zero. It has one digit exactly below 10. |
| PyText.NatDecimalValue | Project.py:49 | The digits of the decimal form spell the number itself. |
| PyText.Decimal | Project.py:49 | The decimal form of a status starts with a digit or '-', and with '-' exactly for negatives. The characters after any sign are digits, with no leading zero, and they spell the status's magnitude. |
| Http.IsImage | Project.py:45-46 | Reference definition of the accepted answer, status 200 with an image Content-Type, no contract of its own. Its properties are ImageTypeIgnoresCase and ImageTypeIsLowerPrefix. |
| Http.IsImageType | Project.py:45-46 | Reference definition of `ct.lower().startswith("image/")` over the first six characters, no contract of its own. Its properties are ImageTypeIgnoresCase and ImageTypeIsLowerPrefix. |
| Http.IsTransientStatus | Project.py:51 | Reference definition of the statuses 502, 503 and 504, no contract of its own. Its properties are StepRetry and RetryOnlyAfterTransient. |
| Http.ImageTypeIgnoresCase | Project.py:45-46 | The image test ignores case: the first five characters are `i`, `m`, `a`, `g`, `e` in either case, then `/`. |
| Http.ImageTypeIsLowerPrefix | Project.py:45-46 | The image test is exactly "the lowered Content-Type starts with `image/`". |
| SaveName.KeepNameChars | Project.py:86 | The filter keeps only letters, digits, `_` and `-`. A character survives exactly when it is in the input and allowed. |
| SaveName.KeepNameCharsAppend | Project.py:86 | The filter distributes over concatenation. |
| SaveName.KeepNameCharsOfAllowed | Project.py:86 | The filter is the identity on allowed characters. |
| SaveName.KeepNameCharsIdempotent | Project.py:86 | Filtering twice is filtering once. |
| SaveName.NameCharsHaveNoSpace | Project.py:86 | The final `rstrip` has nothing to remove. |
| SaveName.DefaultNameKept | Project.py:85-86 | "generated_image" passes the filter unchanged. |
| SaveName.TypedOrDefault | Project.py:85 | The stripped input, or "generated_image" when only whitespace was typed. It is never empty. |
| SaveName.FileNameAsWritten | Project.py:85-86 | The saved name has allowed characters only, and no whitespace. It is "generated_image" for blank input, and otherwise the allowed characters of the stripped input, in order. |
| SaveName.FileNameAsWrittenEmpty | Project.py:85-87 | The name is empty exactly when non-blank input has no allowed character. |
| SaveName.QuestionMarksGiveEmptyName | Project.py:85-87 | "???" gives the empty name. The save path is then ".png", which has no extension to pick a format by, so the image is not saved. |
| SaveName.FileName | Project.py:85-87 | The corrected name is never empty and has allowed characters only. It agrees with the code whenever the code's name is non-empty, and is "generated_image" otherwise. |

## Left out

- The HTTP transport is not modelled: `requests.post`, the URL, the headers, the API key from `config` and the 120-second timeout. Each POST is answered by the next element of a reply sequence. The payload's JSON content is sent nowhere; only its index in the list matters to the model.
- ImageClient.GenerateImage requires at least MaxPosts replies. The sequence stands for a network that always answers, and a call never uses more.
- ImageClient.GenerateImage keeps the last refused reply, not its message: the outer loop records it once per given-up payload, and the message is formatted once, just before it is raised. The code formats `last_err` after every refused reply. Only the last value is ever read, so the raised message is the same.
- `time.sleep` is recorded as a ghost list of delays, not taken.
- Image decoding is not modelled. `Image.open` can raise on a body that is not a valid picture; the model treats the accepted body as the image.
- Exceptions from `requests.post` other than `RequestException` are not modelled, nor exceptions from `_extract_err` beyond the failed `json()` call.
- `image.show`, `image.save` and the console loop of `main` (`input` and `print`) are I/O and are not modelled. Only the file-name expressions at Project.py:85-86 are.
- a1.py and a2.py are not part of this model. Each is a single POST with no retry logic.
- SaveName.IsNameChar treats only ASCII letters and digits as `isalnum`. Python also keeps other Unicode letters and digits, which the model drops. The finding below holds either way.
- PyText.LowerChar lowers only ASCII capitals. Python's full `lower` also lowers other characters, and 'İ' even becomes 'i' followed by U+0307. The image test is still exact: that second character is not `m`, and no other character lowers to a letter of "image/".
- PyJson.Repr shows strings in single quotes without escaping, and has no floats. A JSON number with a fraction is not representable.
- PyJson.Get returns the first member with the key. A parsed body holds each key once (PyJson.UniqueKeys), and GetOfUniqueKeys shows that Get is then `dict.get`. The Json type itself does not forbid repeated keys.

## Findings

| source | as written | input that shows it | evidently intended | confidence | as-written member | corrected member |
|---|---|---|---|---|---|---|
| Project.py:85-87 | The default "generated_image" is chosen before the filter, so the filter can still empty the name. `image.save(".png")` then finds no file extension and raises "unknown file extension", which `main` prints; the image is not saved. | The user types `???` | Use the default whenever the filtered name is empty, so that the image is always saved | medium, not executed | SaveName.QuestionMarksGiveEmptyName | SaveName.FileName |
