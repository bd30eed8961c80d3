# Prompt enhancer: admission control, technique selection and request text

A model of the logic behind the "Enhance Prompt" button of the Streamlit
prompt-enhancer (`app.py`). The rest of the file is page layout. What is
modelled:

- **Rate limiter** (`RateLimit`, `Enhancer.Session`). Each browser session
  keeps `last_request_time` (it starts at `datetime.min`) and `request_count`
  (it starts at 0). A press of the button is refused as *too soon* when less
  than 2 s have passed since the last recorded request. Otherwise it is
  refused as *quota reached* when the counter is at 60 or more; the warning
  shows `int(60 - elapsed)` seconds. Otherwise the text model is called.
  Only when that call returns normally is the state committed: the timestamp
  becomes `now`, the counter is incremented, and then the counter is set to
  0 if the gap was 60 s or more. A call that raises goes to the `except`
  clause before the commit, so it changes nothing.
- **Technique selection** (`Techniques`). The sidebar walks the fixed,
  ordered 14-entry catalogue and appends every ticked name.
- **Request text** (`RequestText`). The selected names are joined with
  `", "` into a fixed instruction template. The raw prompt is placed verbatim
  between double quotes after `Original prompt: `.

Time is an integer count of microseconds since `datetime.min`, so the
initial `last_request_time` is 0. `timedelta` is exact in microseconds, and
comparing `total_seconds()` with 2 or 60 gives the same answer as comparing
the microsecond count with 2 000 000 or 60 000 000. The clock reading and
whether the provider call returns normally are inputs to every operation.

The system's written design differs from `app.py` in three places. The model
follows the code in each:

- On a gap of a minute or more, the design resets the counter to 1. The code
  sets it to 0 (app.py:172), after incrementing it.
- The design commits the limiter state on every admitted call, whatever the
  provider does. The code commits only after the call returns (app.py:162-172
  sit inside the `try`).
- The design gives the too-soon denial a wait hint. The code shows a fixed
  message with no number (app.py:136).

## Model

| member | source | states |
|---|---|---|
| `RateLimit.WholeSeconds` | app.py:138-139 | Python's `int()` of a number of seconds truncates toward zero, also when the amount is negative. |
| `RateLimit.Decide` | app.py:132-141 | Too soon exactly when less than 2 s have elapsed. Quota reached exactly when 2 s or more have elapsed and the count is at least 60; the hint is then `int(60 - elapsed)`. The provider is called exactly when 2 s or more have elapsed and the count is below 60. |
| `RateLimit.Commit` | app.py:166-172 | After a call returns, the timestamp is `now`. The count is the old count plus 1 when the gap was under 60 s, and 0 when it was 60 s or more. |
| `RateLimit.Next` | app.py:141-177 | State is committed only when the call was admitted and returned normally. A denial, or a provider call that raises, leaves both fields unchanged. |
| `RateLimit.NextKeepsBounded` | app.py:137-172 | One attempt keeps the counter within 0..60. |
| `RateLimit.RunKeepsBounded` | app.py:137-172 | `0 <= request_count <= 60` holds after any sequence of attempts that starts in range. |
| `RateLimit.InitialAdmits` | app.py:10-13 | A new session admits its first attempt exactly when the clock is at least 2 s past `datetime.min`. For any clock a minute or more past `datetime.min`, the first successful call leaves the count at 0, not 1. |
| `RateLimit.TooSoonAfterCall` | app.py:135-136 | An attempt less than 2 s after a successful call is refused as too soon and changes nothing. |
| `RateLimit.QuotaIsAbsorbing` | app.py:137-139 | Once the count is 60 or more, no attempt in any later sequence is admitted, and the state never changes again. |
| `RateLimit.PacedCalls` | app.py:137-172 | n successful presses 2 s apart, starting from a count c with c + n <= 60, are all admitted. They move the timestamp by 2n s and raise the count to c + n. |
| `RateLimit.QuotaAfterFullWindow` | app.py:137-139 | From count c, 60 - c presses inside the window bring the count to 60. The next press 2 s or more later is refused with hint `int(60 - elapsed)`. |
| `RateLimit.LockoutAsWritten` | app.py:137-172 | A new session reaches the count 60 after 61 successful presses 2 s apart. Every later press, however late, is refused. The hint is negative once 61 s have passed, and the state stays as it is. |
| `RateLimit.DecideIntended` | app.py:129-139 | Corrected rule: the quota refuses only within 60 s of the last request, and its hint is then between 0 and 59. Too soon is as before. |
| `RateLimit.NextIntended` | app.py:166-172 | Under the corrected rule, only an admitted call that returned is committed, with the same commit as the code. |
| `RateLimit.IntendedRecovers` | app.py:170-172 | Under the corrected rule the count stays in 0..60. Below the quota, both rules agree. A press 60 s or more after the last request is always admitted. |
| `Techniques.Catalogue` | app.py:96-111 | There are 14 entries, in the dictionary's order, each a name with its tooltip. |
| `Techniques.NamesDistinct` | app.py:96-111 | No catalogue key occurs twice. |
| `Techniques.SelectTechniques` | app.py:114-117 | The loop returns the catalogue names whose checkbox is ticked, in catalogue order (equal to `Filter(Names, ticked)`). |
| `Techniques.FilterMembers` | app.py:114-117 | A name is in the selection exactly when it is in the catalogue and ticked. |
| `Techniques.FilterIsSubsequence` | app.py:114-117 | The selection is a subsequence of the list walked, so its order is the catalogue's. |
| `Techniques.FilterDistinct` | app.py:114-117 | A selection from a list without repeats has no repeats. |
| `Techniques.FilterAll` | app.py:114-117 | When every name is ticked, the selection is the whole list. |
| `Techniques.FilterNone` | app.py:114-117 | When no name is ticked, the selection is empty and the button stays disabled. |
| `Techniques.SelectionProperties` | app.py:96-117 | For the catalogue itself: exactly the ticked names, in catalogue order, each once; none ticked gives empty, all ticked gives the whole catalogue. |
| `RequestText.PromptContext` | app.py:151-159 | The text has the template's length. `Apply these specific techniques: ` is followed by `', '.join(selected)`. `Original prompt: "` is followed by the raw prompt verbatim and then a closing `"`. |
| `RequestText.Join` | app.py:153 | Python's `', '.join(...)`: `[]` gives `""`, one part gives itself, and a longer list starts with its first part followed by the separator. `RequestText.SplitJoin` inverts it. |
| `RequestText.JoinEndsInLast` | app.py:153 | A join of a non-empty list ends in its last part. |
| `RequestText.SplitJoin` | app.py:153 | A non-empty list of names without commas is recovered from its `", "` join. |
| `RequestText.JoinAvoids` | app.py:153 | A character that is in no name and not in the separator is not in the join. |
| `RequestText.ParseBuild` | app.py:151-159 | For a non-empty selection of names without `,` or `"`, reading the request text back gives exactly that selection and the prompt, whatever the prompt contains. |
| `RequestText.PromptContextInjective` | app.py:151-159 | Two different (selection, prompt) pairs never give the same request text. |
| `Enhancer.CatalogueNamesPlain` | app.py:96-111 | No catalogue name contains `,` or `"`. |
| `Enhancer.SelectionReadsBack` | app.py:151-159 | For every non-empty selection the sidebar can produce, the request text reads back to that selection and the prompt. |
| `Enhancer.Enabled` | app.py:127 | The button is enabled exactly when the API key, the prompt and the selection are all non-empty (Python truthiness). |
| `Enhancer.EnabledBySidebar` | app.py:114-127 | With the sidebar's selection, the button is enabled exactly when a key and a prompt are entered and at least one catalogue name is ticked. |
| `Enhancer.Session.constructor` | app.py:10-13 | A new session holds `datetime.min` and the count 0, and the invariant holds. |
| `Enhancer.Session.Attempt` | app.py:132-177 | Updates the two fields step by step (increment, then conditional overwrite with 0). It returns `Decide` of the old state, leaves the state as `Next` of the old state, and keeps the counter in 0..60. |
| `Enhancer.Session.EnhancePrompt` | app.py:127-177 | The handler runs only when API key, prompt and selection are all non-empty. The handler builds a request text exactly when the limiter admits the press, and that text is `PromptContext(selected, prompt)`. A denial produces no request text. With the button disabled, the state is unchanged. |

## Left out

- Page setup, CSS, sidebar widgets, the spinner, the warning/error texts, the response display and the footer (app.py:15-93, 121, 136, 139, 163-164, 176-181) are presentation. The checkbox states are the `ticked` set, the prompt and API key are strings, and which denial or outcome occurred is the returned decision.
- `configure`, `GenerativeModel` and `generate_content` (app.py:147-148, 162) are calls into the Gemini client library. They are modelled only as the input `providerSucceeds`. It is false when any statement of the `try` block before the commit raises, including rendering `response.text`. The model name string is not modelled.
- `Enhancer.Session.EnhancePrompt`: `sent` is the request text the handler builds for an admitted press. It does not tell a failure in `configure` or `GenerativeModel` (app.py:147-148, before the text is built at line 151) from a failure of `generate_content` after it, because both are `providerSucceeds = false`.
- The exception object and `st.exception` logging (app.py:174-177) are left out; their contents are opaque.
- `datetime.now()` is an injected integer timestamp. The upper bound `datetime.max` is not modelled.
- `RateLimit.WholeSeconds`: computes `int(60 - total_seconds())` on exact microseconds rather than on a float. Floating-point rounding is not modelled.
- The design's classification of provider failures (invalid credentials, provider quota, invalid request, unknown) is not in `app.py`. The code has one `except` with one message, so there is nothing to model.
- The design's session result cache is not in `app.py`. The response is shown once and not stored, so there is nothing to model.
- Streamlit runs the script again on every interaction, and the button's `disabled` flag is computed at that time. The model takes one press as one call of `Enhancer.Session.EnhancePrompt`. Concurrent presses within one session are not modelled.
- Determinism of the request text holds because `RequestText.PromptContext` is a function. No separate lemma states it.

## Findings

| source | as written | input that shows it | evidently intended | confidence | as-written member | corrected member |
|---|---|---|---|---|---|---|
| app.py:137-172 | The quota check at line 137 runs before the one-minute reset. The reset at lines 171-172 happens only in the commit of an admitted call. So once `request_count` reaches 60, nothing is ever admitted again in that session, and the hint `int(60 - elapsed)` goes negative. | A new session presses 61 times, 2 s apart, each call succeeding (the first press resets the count to 0, the next 60 raise it to 60). A press an hour after the last one is refused with "Please wait -3540 seconds". | "Limiting to 60 requests per minute" and "Reset counter after one minute" (lines 131, 170): a press 60 s or more after the last request is admitted again. The quota applies only inside that minute. | not executed | `RateLimit.LockoutAsWritten` | `RateLimit.DecideIntended` |

`RateLimit.NextIntended` and `RateLimit.IntendedRecovers` go with the
corrected rule. `RateLimit.IntendedRecovers` proves that it keeps the counter
bound, agrees with the code below the quota, and always admits a press a
minute or more after the last request. `Enhancer.Session` keeps the code's
behaviour, because it describes what the application does.
