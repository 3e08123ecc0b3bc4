# Submission handler of the text-analysis form

The repository is a single-page form: the user types some text, picks a mode
("summary" or "sentiment") and submits; the page posts the trimmed text and
the mode to an externally hosted workflow, retries once on failure, and shows
the workflow's `analysis` with every `**` marker removed. All of the logic
lives in the `handleSubmit` handler of `src/App.js`; the rest of the file is
layout.

This project models that handler and proves what it does:

- `strings.dfy`, module `Strings`: JavaScript's `trim` (with the ECMAScript
  whitespace and line-terminator characters) and the global replace of `**`
  by the empty string, with lemmas about both.
- `submission.dfy`, module `Submission`: the data the handler sees (the
  workflow's answers, the thrown errors, the three state variables), the
  validation chain, the retry loop as a recursive function, the normalisation
  of the answer, and `Submit`, which gives the state after one submission
  together with the payloads posted. Lemmas state the properties of a
  submission.
- `app.dfy`, module `AppComponent`: class `App` with the component's state
  fields `text`, `mode`, `loading`, `result` and `error`, and `HandleSubmit`,
  the handler written step by step as in the source, with its `while` loop
  over attempts. Its postcondition says the new state and the payloads posted
  are the ones `Submit` gives.

The network is an input: `network[k]` is what the k-th POST yields, either
`Answered(response)` or `Threw(RequestError(responseData, message))`.
`HandleSubmit` requires `network` to hold at least two outcomes, one per
possible attempt. The endpoint (`process.env.REACT_APP_n8nLink`) is an
`Option<string>` parameter. JavaScript truthiness of optional strings is
`Truthy`: present and not empty.

The model follows the code in these places:

- The length limit of 1500 is checked on the raw text, not the trimmed text
  (`src/App.js:32`). `PaddedTextRejected` shows a text that trims to one
  character and is still rejected.
- A rejected submission clears `result` to null (`src/App.js:20`) and leaves
  `loading` as it was (it is only set after validation, `src/App.js:37`).
- The raw analysis is shown whenever stripping leaves the empty string, so
  `"****"` is shown as `"****"` (`modifyData || resp.data.analysis`,
  `src/App.js:63`).
- An answer whose body has no `analysis` is not an error: `result` becomes
  undefined (`Display.Undefined`). An `analysis` that is JSON null is not an
  error either: `?.` stops before `includes`, `modifyData` stays undefined and
  `undefined || null` leaves `result` null (`Display.Null`), with `loading`
  cleared.

## Model

| member | source | states |
|---|---|---|
| `Strings.TrimStart` | src/App.js:27 | no contract of its own; stated by `Strings.TrimStartSpec` |
| `Strings.TrimEnd` | src/App.js:27 | no contract of its own; stated by `Strings.TrimEndSpec` |
| `Strings.Trim` | src/App.js:27 | `text.trim()`, used by the blank check and by the payload (line 38); no contract of its own; stated by `Strings.TrimSpec` |
| `Strings.HasMarker` | src/App.js:60 | `includes("**")`; no contract of its own; stated by `Strings.MarkerCountPositive` and `Strings.StripUnchanged` |
| `Strings.Strip` | src/App.js:61 | `replace(/\*\*/g, "")`; no contract of its own; stated by `Strings.StripLength`, `Strings.StripRemovesMarkers`, `Strings.StripKeepsOtherChars` and `Strings.StripUnchanged` |
| `Strings.TrimStartSpec` | src/App.js:27 | the leading part `trim` drops is all whitespace, the rest is a suffix of the input that is empty or starts with a non-whitespace character |
| `Strings.TrimEndSpec` | src/App.js:27 | the trailing part `trim` drops is all whitespace, the rest is a prefix of the input that is empty or ends with a non-whitespace character |
| `Strings.TrimSpec` | src/App.js:27 | `trim` returns a contiguous piece of the text that neither starts nor ends with whitespace, and returns "" exactly when the text is blank |
| `Strings.StripLength` | src/App.js:61 | the global replace shortens the analysis by exactly two characters per non-overlapping `**` match |
| `Strings.StripRemovesMarkers` | src/App.js:61 | the result of the global replace contains no `**` |
| `Strings.StripKeepsOtherChars` | src/App.js:61 | only `*` characters are removed: every other character survives, in order |
| `Strings.MarkerCountPositive` | src/App.js:60-61 | the replace finds at least one match exactly when `includes("**")` holds |
| `Strings.StripUnchanged` | src/App.js:60-61 | a string is returned unchanged by the replace exactly when it contains no `**` |
| `Strings.NoMarkerStripIdentity` | src/App.js:60-61 | a string without `**` is returned unchanged |
| `Strings.StripKeepsHead` | src/App.js:61 | a string starting with a character other than `*` keeps that character in front |
| `Strings.StripSkipsPlainChars` | src/App.js:61 | a prefix without `*` passes through the replace unchanged |
| `Strings.StripDropsMarker` | src/App.js:61 | a leading `**` is removed |
| `Strings.StripExample` | src/App.js:61 | `"**Great** job"` becomes `"Great job"` |
| `Strings.StripExampleTail` | src/App.js:61 | `"Great** job"` becomes `"Great job"` |
| `Strings.StripExampleEnd` | src/App.js:61 | `"** job"` becomes `" job"` |
| `Submission.Validate` | src/App.js:22-35 | no contract of its own; stated by `Submission.ValidateSpec` |
| `Submission.ValidateSpec` | src/App.js:22-35 | validation passes exactly when the endpoint is set, the text is not blank and its raw length is at most 1500; otherwise the first failing check in the order endpoint, blank, length gives its message |
| `Submission.ErrorText` | src/App.js:51 | the error after the final failure is never empty: the server's `response.data` if truthy, else the error's `message` if truthy, else "Request failed" |
| `Submission.Retry` | src/App.js:39-56 | no contract of its own; stated by `Submission.RetryFirstAnswer` |
| `Submission.RetryFirstAnswer` | src/App.js:39-56 | the loop makes between 1 and 2 attempts, every attempt before the last one failed, a delivered answer is the one the last attempt returned, and giving up happens only after attempt 2 failed, with that failure's error |
| `Submission.ShownAnalysis` | src/App.js:59-63 | no contract of its own; stated by `Submission.ShownIsStripped` and `Submission.ShownOnlyText` |
| `Submission.ShownOnlyText` | src/App.js:59-63 | only a string analysis is shown; a null analysis leaves the result null and a missing one makes it undefined |
| `Submission.ShownIsStripped` | src/App.js:58-63 | the shown result is the stripped analysis unless stripping leaves "", in which case the raw analysis is shown; in the first case it contains no `**` |
| `Submission.ShownExampleMarked` | src/App.js:59-63 | an answer with analysis `"**Great** job"` is shown as `"Great job"` |
| `Submission.ShownExamplePlain` | src/App.js:59-63 | an answer with analysis `"Great job"` is shown unchanged |
| `Submission.ShownExampleOnlyMarkers` | src/App.js:59-63 | an answer with analysis `"****"` is shown as `"****"` |
| `Submission.Repeat` | src/App.js:38-46 | every attempt posts the same payload |
| `Submission.Normalise` | src/App.js:58-66 | no contract of its own; stated by `Submission.FirstAnswerUsed` and `Submission.ErrorExcludesResult` |
| `Submission.Post` | src/App.js:37-56 | no contract of its own; stated by `Submission.AcceptedPostsOnceOrTwice`, `Submission.FirstAnswerUsed` and `Submission.BothAttemptsFailed` |
| `Submission.Submit` | src/App.js:17-69 | no contract of its own; stated by the `Submission` lemmas below and by `AppComponent.App.HandleSubmit`, whose new state and posts it gives |
| `Submission.MissingEndpointRejected` | src/App.js:19-25 | with no endpoint, whatever the text, the error is the configuration message, nothing is posted, the result is cleared and `loading` keeps its value |
| `Submission.BlankTextRejected` | src/App.js:19-30 | with an endpoint and a text that trims to "", the error is "Please enter some text.", nothing is posted and `loading` keeps its value |
| `Submission.LongTextRejected` | src/App.js:19-35 | with an endpoint and a non-blank text longer than 1500 characters, the error is the too-long message, nothing is posted and `loading` keeps its value |
| `Submission.PaddedTextRejected` | src/App.js:27-35 | a text that trims to one character but is 1501 characters long is rejected as too long |
| `Submission.AcceptedPostsOnceOrTwice` | src/App.js:37-56 | a valid submission posts the trimmed text and the mode once or twice, twice exactly when the first post fails, and ends with `loading` false |
| `Submission.FirstAnswerUsed` | src/App.js:42-47 | the first attempt that answers ends the loop: its answer builds the view and one payload per attempt so far is posted (so a failure then an answer gives exactly two posts) |
| `Submission.BothAttemptsFailed` | src/App.js:48-54 | when both posts fail, two payloads are posted, the error is chosen from the second failure, the result stays null and `loading` is false |
| `Submission.ErrorExcludesResult` | src/App.js:19-20 | after any submission the error and a result are never both set |
| `Submission.LoadingCleared` | src/App.js:37-68 | a submission that passed validation always ends with `loading` false, on every exit path; a rejected one leaves it as it was |
| `Submission.SubmitIndependentOfPrevious` | src/App.js:17-20 | the outcome of a submission does not depend on the previous result or error, so two identical submissions post the same requests |
| `AppComponent.App.constructor` | src/App.js:5-9 | the initial state: empty text, summary mode, not loading, null result and null error |
| `AppComponent.App.SetText` | src/App.js:138 | the text area's change handler sets `text` and nothing else |
| `AppComponent.App.SetMode` | src/App.js:191-207 | the radio buttons set `mode` and nothing else |
| `AppComponent.App.HandleSubmit` | src/App.js:17-69 | the handler, step by step with its retry loop, changes only `loading`, `result` and `error`, leaving them as `Submit` gives, and returns the payloads it posted |

## Left out

- The rendering, the inline styles, the loading-dot animation and the display of `error` through `String(...)` (src/App.js:71-355): presentation only. The error is modelled as a string; an object-valued `response.data` is not distinguished from its text.
- The fade-in timer (src/App.js:12-15): cosmetic, and about timing.
- The `axios.post` call, its 20000 ms timeout and the `await` suspension (src/App.js:44-46): the network is replaced by the sequence of outcomes, one per attempt.
- Reading the environment variable: the endpoint is a parameter.
- `e.preventDefault()` (src/App.js:18): it affects the browser only.
- String lengths count Dafny characters (Unicode scalar values); JavaScript counts UTF-16 code units, so a character outside the Basic Multilingual Plane counts once here and twice in the source.
- An `analysis` that is neither a string, null nor absent: the model's analysis is `Missing`, `NullValue` or a string. In the source a number, a boolean or a plain object has no `includes`, so calling it throws outside the `try`; an array has `includes`, and only when it holds the element `"**"` does the following `replace` throw. Either throw leaves `loading` true. An array without that element is shown as it is.
- React's batching of state updates: each assignment to a state field takes effect at once.
