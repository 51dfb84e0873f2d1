# Request shaper of the txt2img serverless worker

This project models the core of a serverless worker script (`src/handler.py`).
The worker takes a job's `input` mapping, rewrites it in place as a txt2img
request, and posts it to a locally running image-generation API. The rewrite
(`run_inference`, lines 40-65) does three things:

- **Prompt.** It appends the LoRA style token `<lora:epicrealness:LEVEL>`. The
  caller's prompt is kept in front of the token, after a `", "`. With no prompt,
  the token is the whole prompt. `LEVEL` is the caller's `lora_level`, rendered
  as text. Without one it is `1.0`.
- **Negative prompt.** It appends `", veryBadImageNegative_v1.3, FastNegativeV2"`
  to the caller's negative prompt, or to `""` when there is none.
- **Override settings.** It merges `CLIP_stop_at_last_layers` (the caller's
  `clip_skip`, default `1`) into the `override_settings` sub-mapping. It
  creates the sub-mapping when it is absent and keeps the caller's other
  entries.

`handler(event)` passes `event["input"]` itself, so the caller's own mapping is
rewritten and posted.

Layout:

- `values.dfy` (module `Values`) holds the decoded JSON value (`Str`, `Atom`,
  `Table`). It also holds the bits of Python the shaper relies on: the text an
  f-string substitutes, `dict.get` with a default, and the exceptions that
  escape the handler (`KeyError`, `AttributeError`). Numbers, booleans, `null`
  and lists are `Atom`s, carried with the text Python's `str()` gives them.
- `shaping.dfy` (module `Shaping`) holds the rewrite as functions on the request
  mapping. `Shaped` composes the three steps in the source's order. Around it
  are the properties of the rewrite, its inverses and what repeated shaping does.
- `handler.dfy` (module `Handler`) holds the imperative model. The class
  `Request` holds the caller's mutable mapping. `Request.Shape` rewrites it step
  by step, like `run_inference`, and is proved to leave exactly `Shaped(old(entries))`.
  `Handle` is the job entry point. It rewrites the caller's own object and
  returns that object as the request to be posted.

Error paths follow the code. Take an `override_settings` value that is present
but is not a mapping. Its `update` raises `AttributeError`. By then the prompt
and the negative prompt have already been rewritten in the caller's mapping,
and the model keeps that partial update. An event without `"input"` raises
`KeyError`. An input that is not a mapping raises `AttributeError` at the first
`.get`, before anything is changed.

`src/handler.py` pins only `CLIP_stop_at_last_layers` in `override_settings`;
it sets no checkpoint and builds no face-swap plugin arguments.

## Model

| member | source | states |
|---|---|---|
| `Shaping.Shaped` | src/handler.py:40-65 | The rewrite as a whole. The keys afterwards are the old keys plus `prompt` and `negative_prompt`, plus `override_settings` unless `update` raised. Every other key, `lora_level` and `clip_skip` included, keeps its value. `prompt` and `negative_prompt` hold the rewritten texts. The update raises `AttributeError("update")` exactly when `override_settings` is present but not a mapping; then `override_settings` is left as it was. |
| `Shaping.PromptKeepsCallerText` | src/handler.py:41-46 | The new prompt ends with the LoRA token. When a prompt was given, the caller's prompt followed by `", "` is a prefix of it. The token is `<lora:epicrealness:` + the caller's `lora_level` + `>`, or `<lora:epicrealness:1.0>` without one. |
| `Shaping.RecoverPrompt` | src/handler.py:42-46 | The inverse of the prompt rewrite for a known level. It yields `Absent` exactly when the prompt is the bare token. It yields `Given(t)` only when the prompt is `t + ", " + token`, and `NotShaped` only when the prompt does not end with `", " + token`. |
| `Shaping.PromptRoundTrip` | src/handler.py:42-46 | Reading the shaped prompt back gives the caller's prompt text, or `Absent` when there was no prompt. |
| `Shaping.PromptInjective` | src/handler.py:42-46 | At one LoRA level, two requests get the same shaped prompt only if both had no prompt or both had the same prompt text. |
| `Shaping.NegativeKeepsCallerText` | src/handler.py:49-51 | The new negative prompt ends with `", "` + the two embeddings, with the caller's negative text (or `""`) as a prefix. Without a negative prompt it is exactly `", veryBadImageNegative_v1.3, FastNegativeV2"`, starting with `", "`. |
| `Shaping.NegativeRoundTrip` | src/handler.py:49-51 | Stripping the embeddings suffix from the shaped negative prompt gives back the caller's negative text, or `""` when there was none. |
| `Shaping.MergedOverrides` | src/handler.py:55-65 | The merge fails exactly when `override_settings` is present but not a mapping. Otherwise the merged keys are the caller's override keys plus `CLIP_stop_at_last_layers`, which holds the caller's `clip_skip` or `1`. Every other caller entry keeps its value (merge, not replace). A missing `override_settings` becomes exactly `{CLIP_stop_at_last_layers: clip_skip}`. |
| `Shaping.MergeIdempotent` | src/handler.py:57-65 | Merging the clip-skip entry into already merged settings changes nothing. |
| `Shaping.ShapedKeepsInputs` | src/handler.py:40-65 | One rewrite keeps the LoRA level, the clip skip and every key it does not write. |
| `Shaping.ReshapeStep` | src/handler.py:40-51 | Shaping an already shaped mapping appends the same LoRA token and the same embeddings once more. |
| `Shaping.ReshapingAppendsToken` | src/handler.py:41-46 | Because the mapping is rewritten in place, shaping it `n` times leaves the first shaped prompt followed by `n - 1` further copies of `", " + token`. The rewrite is not idempotent. |
| `Shaping.ReshapingAppendsNegatives` | src/handler.py:49-51 | Shaping the same mapping `n` times leaves the first shaped negative prompt followed by `n - 1` further copies of the embeddings suffix. |
| `Handler.Request.Shape` | src/handler.py:40-65 | Rewriting the object in place leaves exactly `Shaped` of the old mapping. It returns the exception `Shaped` raises, if any. |
| `Handler.Handle` | src/handler.py:75-80 | Without `"input"` the result is `KeyError("input")`, and with a non-mapping input it is `AttributeError("get")`. Otherwise the caller's own object is rewritten to `Shaped` of its old mapping. The request to be posted is that very object, or the exception if the merge raised. |

## Left out

- `wait_for_service` (readiness polling with `time.sleep`): I/O and timing, no state the shaper depends on.
- The `requests.Session` with its `Retry`/`HTTPAdapter` configuration: library retry logic outside this code.
- The POST to `/txt2img` and `response.json()`: network I/O and JSON decoding of the engine's reply. `Handle` stops at the shaped request that would be posted.
- `runpod.serverless.start` and the `__main__` block: platform glue.
- Python's `str()` of numbers, booleans, `None` and lists: an `Atom` carries that text, so `lora_level` and the `clip_skip` value are taken as already rendered. How a float such as `1.0` is printed is not derived.
- The f-string of a nested mapping (a `prompt`, `negative_prompt` or `lora_level` that is itself a dict) is the fixed placeholder `"{...}"` in `Values.Text`. It is not Python's dict repr, which depends on insertion order and quoting that the model does not carry.
- Dict insertion order: mappings are Dafny `map`s, so the key order of the posted JSON body is not modelled.
- Aliasing of the nested `override_settings` dict: it is a value inside the request. A second reference to that inner dict held elsewhere would see the `update` in Python, but not in the model. The aliasing of the top-level input mapping is modelled by `Request`.
- Exceptions that the Python code cannot meet on decoded JSON input (for example `update` on a `set`) are not modelled. JSON yields only strings, numbers, booleans, null, lists and objects.
