/** The worker's job entry point (src/handler.py): the job's input mapping is
    handed to `run_inference` as it is, and `run_inference` rewrites it in
    place before posting it to the image-generation API. */
module Handler {
  import opened Values
  import opened Shaping

  /** The caller's request mapping: one mutable dict, shared between the job
      event and `run_inference`. */
  class Request {
    var entries: map<string, Value>

    constructor (entries: map<string, Value>)
      ensures this.entries == entries
    {
      this.entries := entries;
    }

    /** `run_inference` up to the POST: rewrite the prompt, the negative prompt
        and the override settings, in that order. When `override_settings` is
        present but is not a mapping, `update` raises and the two prompts stay
        rewritten. */
    method Shape() returns (raised: Option<Raised>)
      modifies this
      ensures entries == Shaped(old(entries)).request
      ensures raised == Shaped(old(entries)).raised
    {
      ghost var request := entries;
      var level := Text(Get(entries, "lora_level", DefaultLoraLevel));
      var loraPrompt := "<lora:epicrealness:" + level + ">";
      if "prompt" in entries {
        entries := entries["prompt" := Str(Text(entries["prompt"]) + ", " + loraPrompt)];
      } else {
        entries := entries["prompt" := Str(loraPrompt)];
      }

      ghost var withPrompt := entries;
      assert withPrompt == request["prompt" := Str(PromptAfter(request))];
      var userNegative := Get(entries, "negative_prompt", Str(""));
      entries := entries["negative_prompt" := Str(Text(userNegative) + ", " + NegativeEmbeddings)];

      ghost var withNegative := entries;
      AppendAssoc(Text(userNegative), ", ", NegativeEmbeddings);
      assert withNegative == withPrompt["negative_prompt" := Str(NegativeAfter(withPrompt))];
      var clipSkip := Get(entries, "clip_skip", DefaultClipSkip);
      assert clipSkip == ClipSkip(withNegative);
      if "override_settings" !in entries {
        entries := entries["override_settings" := Table(map[])];
      }
      match entries["override_settings"]
      case Table(settings) =>
        assert MergedOverrides(withNegative) == Some(settings[ClipKey := clipSkip]);
        entries := entries["override_settings" := Table(settings[ClipKey := clipSkip])];
        raised := None;
      case _ =>
        raised := Some(AttributeError("update"));
    }
  }

  /** What the job event holds under a key: the live input mapping, or a JSON
      value that is not a mapping. */
  datatype Slot = Mapping(request: Request) | Plain(value: NonMapping)

  /** A JSON value that is not an object: a JSON object in the input is
      always the live `Mapping`. */
  type NonMapping = v: Value | !v.Table? witness Str("")

  /** `handler(event)`: runs the shaper on `event["input"]` itself, so the
      caller's own mapping is what gets rewritten and what would be posted. */
  method Handle(event: map<string, Slot>) returns (posted: Result<Request, Raised>)
    modifies if "input" in event && event["input"].Mapping? then {event["input"].request} else {}
    ensures "input" !in event ==> posted == Err(KeyError("input"))
    ensures "input" in event && event["input"].Plain? ==> posted == Err(AttributeError("get"))
    ensures "input" in event && event["input"].Mapping? ==>
      var input := event["input"].request;
      && input.entries == Shaped(old(input.entries)).request
      && posted == match Shaped(old(input.entries)).raised
                   case None => Ok(input)
                   case Some(e) => Err(e)
  {
    if "input" !in event {
      return Err(KeyError("input"));
    }
    match event["input"]
    case Plain(_) =>
      posted := Err(AttributeError("get"));
    case Mapping(input) =>
      var raised := input.Shape();
      posted := if raised.None? then Ok(input) else Err(raised.value);
  }
}
