/** JSON values as they reach the worker in a job's input, and the few pieces of
    Python behaviour the request shaper relies on: `str()` as an f-string applies
    it, `dict.get` with a default, and the exceptions that escape the handler. */
module Values {

  datatype Option<+T> = None | Some(value: T)

  datatype Result<+T, +E> = Ok(value: T) | Err(error: E)

  /** A decoded JSON value. Numbers, booleans, null and lists are opaque to the
      shaper: they are carried with the text Python's `str()` gives them
      (`1.0`, `True`, `None`, `[1, 2]`). Objects are string-keyed tables. */
  datatype Value =
    | Str(s: string)
    | Atom(text: string)
    | Table(entries: map<string, Value>)

  /** An exception that escapes `handler`. */
  datatype Raised =
    | KeyError(key: string)           // subscripting a dict with a missing key
    | AttributeError(name: string)    // calling a dict method on a value that is not a dict

  /** The text an f-string substitutes for `v`. A nested table stands for its
      dict repr by a fixed placeholder. */
  function Text(v: Value): string {
    match v
    case Str(s) => s
    case Atom(text) => text
    case Table(_) => "{...}"
  }

  /** `m.get(key, default)` */
  function Get(m: map<string, Value>, key: string, default: Value): Value {
    if key in m then m[key] else default
  }

  predicate HasSuffix(s: string, suffix: string) {
    |suffix| <= |s| && s[|s| - |suffix|..] == suffix
  }

  /** The text in front of `suffix`, when `s` ends with it. */
  function StripSuffix(s: string, suffix: string): (r: Option<string>)
    ensures r.Some? <==> HasSuffix(s, suffix)
    ensures r.Some? ==> r.value + suffix == s
  {
    if HasSuffix(s, suffix) then
      var head := s[..|s| - |suffix|];
      assert head + suffix == s by {
        assert s == s[..|s| - |suffix|] + s[|s| - |suffix|..];
      }
      Some(head)
    else
      None
  }
}
