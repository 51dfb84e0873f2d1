/** What `run_inference` does to a txt2img request before it is posted to the
    image-generation API (src/handler.py, lines 40-65), stated as functions on
    the request mapping, with the properties the worker relies on. */
module Shaping {
  import opened Values

  /** `inference_request.get("lora_level", 1.0)`: the float 1.0 renders as "1.0". */
  const DefaultLoraLevel := Atom("1.0")
  const NegativeEmbeddings := "veryBadImageNegative_v1.3, FastNegativeV2"
  /** What is appended to the caller's negative prompt (or to ""). */
  const NegativeSuffix := ", " + NegativeEmbeddings
  const ClipKey := "CLIP_stop_at_last_layers"
  const DefaultClipSkip := Atom("1")

  /** The top-level keys the shaper writes; every other key is left alone. */
  const Rewritten: set<string> := {"prompt", "negative_prompt", "override_settings"}

  /** The request after shaping, and the exception raised part-way, if any. */
  datatype Outcome = Outcome(request: map<string, Value>, raised: Option<Raised>)

  /** The rendered LoRA level: the caller's `lora_level`, or 1.0. */
  function LoraLevel(m: map<string, Value>): string {
    Text(Get(m, "lora_level", DefaultLoraLevel))
  }

  function LoraToken(level: string): string {
    "<lora:epicrealness:" + level + ">"
  }

  /** The new prompt: the caller's prompt, a comma, and the LoRA token; the
      token alone when there is no prompt. */
  function PromptAfter(m: map<string, Value>): string {
    var token := LoraToken(LoraLevel(m));
    if "prompt" in m then
      Text(m["prompt"]) + ", " + token
    else
      token
  }

  /** The caller's negative prompt, "" when there is none. */
  function CallerNegative(m: map<string, Value>): string {
    Text(Get(m, "negative_prompt", Str("")))
  }

  /** The new negative prompt: the caller's text (or "") followed by the two
      negative embeddings. */
  function NegativeAfter(m: map<string, Value>): string {
    CallerNegative(m) + NegativeSuffix
  }

  /** The clip-skip value pinned into the override settings: the caller's
      `clip_skip`, or 1. */
  function ClipSkip(m: map<string, Value>): Value {
    Get(m, "clip_skip", DefaultClipSkip)
  }

  /** The override entries the caller supplied; none when the key is absent. */
  function CallerOverrides(m: map<string, Value>): map<string, Value> {
    if "override_settings" in m && m["override_settings"].Table? then m["override_settings"].entries else map[]
  }

  /** `override_settings` after the `update`: the caller's entries with the
      clip-skip entry merged in. None when `override_settings` is present but is
      not a mapping, so that `update` raises. */
  function MergedOverrides(m: map<string, Value>): (r: Option<map<string, Value>>)
    ensures r.None? <==> "override_settings" in m && !m["override_settings"].Table?
    ensures r.Some? ==> r.value.Keys == CallerOverrides(m).Keys + {ClipKey}
    ensures r.Some? ==> r.value[ClipKey] == if "clip_skip" in m then m["clip_skip"] else Atom("1")
    ensures r.Some? && "override_settings" !in m ==> r.value == map["CLIP_stop_at_last_layers" := ClipSkip(m)]
    ensures r.Some? ==> forall k :: k in CallerOverrides(m) && k != ClipKey ==> r.value[k] == CallerOverrides(m)[k]
  {
    var existing := if "override_settings" in m then m["override_settings"] else Table(map[]);
    match existing
    case Table(o) => Some(o[ClipKey := ClipSkip(m)])
    case _ => None
  }

  /** The whole of lines 40-65, step by step in the source's order: prompt,
      negative prompt, then the override merge, which may raise after the two
      prompts have already been rewritten. */
  function Shaped(m: map<string, Value>): (out: Outcome)
    ensures out.request.Keys == m.Keys + {"prompt", "negative_prompt"} + (if out.raised.None? then {"override_settings"} else {})
    ensures forall k :: k in m && k !in Rewritten ==> out.request[k] == m[k]
    ensures out.request["prompt"] == Str(PromptAfter(m))
    ensures out.request["negative_prompt"] == Str(NegativeAfter(m))
    ensures out.raised.None? <==> MergedOverrides(m).Some?
    ensures out.raised.Some? ==> out.raised == Some(AttributeError("update")) && out.request["override_settings"] == m["override_settings"]
    ensures out.raised.None? ==> out.request["override_settings"] == Table(MergedOverrides(m).value)
  {
    var withPrompt := m["prompt" := Str(PromptAfter(m))];
    var withNegative := withPrompt["negative_prompt" := Str(NegativeAfter(withPrompt))];
    match MergedOverrides(withNegative)
    case Some(o) => Outcome(withNegative["override_settings" := Table(o)], None)
    case None => Outcome(withNegative, Some(AttributeError("update")))
  }

  /** The shaped prompt ends with the LoRA token, and the caller's prompt,
      when there is one, is kept in front of it. */
  lemma PromptKeepsCallerText(m: map<string, Value>)
    ensures HasSuffix(PromptAfter(m), LoraToken(LoraLevel(m)))
    ensures "prompt" in m ==> Text(m["prompt"]) + ", " <= PromptAfter(m)
    ensures "lora_level" in m ==> HasSuffix(PromptAfter(m), "<lora:epicrealness:" + Text(m["lora_level"]) + ">")
    ensures "lora_level" !in m ==> HasSuffix(PromptAfter(m), "<lora:epicrealness:1.0>")
  {
  }

  /** What a shaped prompt says about the caller's prompt. */
  datatype CallerPrompt = Absent | Given(text: string) | NotShaped

  /** Inverse of PromptAfter for a known LoRA level. */
  function RecoverPrompt(p: string, level: string): (c: CallerPrompt)
    ensures c.Absent? <==> p == LoraToken(level)
    ensures c.Given? ==> c.text + ", " + LoraToken(level) == p
    ensures c.NotShaped? ==> !HasSuffix(p, ", " + LoraToken(level))
  {
    if p == LoraToken(level) then Absent
    else
      match StripSuffix(p, ", " + LoraToken(level))
      case Some(text) =>
        assert text + ", " + LoraToken(level) == text + (", " + LoraToken(level));
        Given(text)
      case None => NotShaped
  }

  /** The caller's prompt, or its absence, can be read back from the shaped
      prompt: the rewrite never loses the caller's text. */
  lemma PromptRoundTrip(m: map<string, Value>)
    ensures RecoverPrompt(PromptAfter(m), LoraLevel(m)) == if "prompt" in m then Given(Text(m["prompt"])) else Absent
  {
  }

  /** Two requests with the same LoRA level are shaped to the same prompt only
      when they had the same prompt, or both had none. */
  lemma PromptInjective(m1: map<string, Value>, m2: map<string, Value>)
    requires LoraLevel(m1) == LoraLevel(m2)
    requires PromptAfter(m1) == PromptAfter(m2)
    ensures ("prompt" in m1) == ("prompt" in m2)
    ensures "prompt" in m1 && "prompt" in m2 ==> Text(m1["prompt"]) == Text(m2["prompt"])
  {
    PromptRoundTrip(m1);
    PromptRoundTrip(m2);
  }

  /** The shaped negative prompt ends with the two negative embeddings and
      keeps the caller's text in front of them; without a caller's negative
      prompt it starts with ", ". */
  lemma NegativeKeepsCallerText(m: map<string, Value>)
    ensures HasSuffix(NegativeAfter(m), NegativeSuffix)
    ensures CallerNegative(m) <= NegativeAfter(m)
    ensures "negative_prompt" !in m ==> NegativeAfter(m) == ", " + NegativeEmbeddings && NegativeAfter(m)[..2] == ", "
  {
  }

  /** The caller's negative text can be read back from the shaped negative
      prompt; a missing negative prompt reads back as "". */
  lemma NegativeRoundTrip(m: map<string, Value>)
    ensures StripSuffix(NegativeAfter(m), NegativeSuffix) == Some(CallerNegative(m))
    ensures "negative_prompt" !in m ==> StripSuffix(NegativeAfter(m), NegativeSuffix) == Some("")
  {
  }

  /** Merging the clip-skip entry a second time changes nothing: the override
      settings reach a fixed point, unlike the two prompts. */
  lemma MergeIdempotent(m: map<string, Value>)
    requires MergedOverrides(m).Some?
    ensures MergedOverrides(m["override_settings" := Table(MergedOverrides(m).value)]) == MergedOverrides(m)
  {
    var o := MergedOverrides(m).value;
    var m' := m["override_settings" := Table(o)];
    assert ClipSkip(m') == ClipSkip(m);
    assert MergedOverrides(m').value == o[ClipKey := ClipSkip(m)];
    assert o[ClipKey := ClipSkip(m)] == o;
  }

  /** `s` written `n` times. */
  function Repeat(s: string, n: nat): string {
    if n == 0 then "" else s + Repeat(s, n - 1)
  }

  /** Associativity of concatenation, stated apart so that the solver is
      not left to find it in a large proof context; it says nothing about
      the worker itself. */
  lemma AppendAssoc(a: string, b: string, c: string)
    ensures (a + b) + c == a + (b + c)
  {
  }

  /** The request after the same mapping has been handed to the shaper `n`
      times: each call rewrites the caller's mapping in place, and the next
      call starts from what the previous one left. */
  function ShapedTimes(m: map<string, Value>, n: nat): (r: map<string, Value>)
    ensures n >= 1 ==> "prompt" in r && "negative_prompt" in r
    decreases n
  {
    if n == 0 then m else ShapedTimes(Shaped(m).request, n - 1)
  }

  /** One call keeps the LoRA level, the clip skip and every key it does not
      write. */
  lemma ShapedKeepsInputs(m: map<string, Value>)
    ensures var r := Shaped(m).request;
      && LoraLevel(r) == LoraLevel(m)
      && ClipSkip(r) == ClipSkip(m)
      && (forall k :: k in m && k !in Rewritten ==> k in r && r[k] == m[k])
  {
  }

  /** A further call on a shaped mapping appends the same LoRA token and the
      same negative embeddings once more. */
  lemma ReshapeStep(m: map<string, Value>)
    ensures LoraLevel(Shaped(m).request) == LoraLevel(m)
    ensures PromptAfter(Shaped(m).request) == PromptAfter(m) + (", " + LoraToken(LoraLevel(m)))
    ensures NegativeAfter(Shaped(m).request) == NegativeAfter(m) + NegativeSuffix
  {
  }

  /** Shaping is not idempotent: handing the shaped mapping back to the shaper
      appends another LoRA token each time. */
  lemma {:induction false} ReshapingAppendsToken(m: map<string, Value>, n: nat)
    requires n >= 1
    decreases n
    ensures ShapedTimes(m, n)["prompt"] == Str(PromptAfter(m) + Repeat(", " + LoraToken(LoraLevel(m)), n - 1))
  {
    if n > 1 {
      ReshapingAppendsToken(Shaped(m).request, n - 1);
      ReshapeStep(m);
      var x := ", " + LoraToken(LoraLevel(m));
      AppendAssoc(PromptAfter(m), x, Repeat(x, n - 2));
    }
  }

  /** Likewise each further call appends the two negative embeddings again. */
  lemma {:induction false} ReshapingAppendsNegatives(m: map<string, Value>, n: nat)
    requires n >= 1
    decreases n
    ensures ShapedTimes(m, n)["negative_prompt"] == Str(NegativeAfter(m) + Repeat(NegativeSuffix, n - 1))
  {
    if n > 1 {
      ReshapingAppendsNegatives(Shaped(m).request, n - 1);
      ReshapeStep(m);
      AppendAssoc(NegativeAfter(m), NegativeSuffix, Repeat(NegativeSuffix, n - 2));
    }
  }
}
