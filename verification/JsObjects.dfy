/** JavaScript values as the pages see them: plain objects whose members are
    strings, read with `obj[key]` (absent members read as `undefined`). */
module JsObjects {
  import opened Wrappers

  /** A plain object whose members all hold strings. */
  type JsObject = map<string, string>

  /** `obj[key]`: the member's value, or `undefined` (None) when it is absent. */
  function Get(obj: JsObject, key: string): Option<string>
  {
    if key in obj then Some(obj[key]) else None
  }

  /** `!v` for a string-or-undefined value: only `undefined` and "" are falsy. */
  predicate IsFalsy(v: Option<string>)
  {
    v == None || v == Some("")
  }

  /** `s.startsWith(prefix)`. */
  predicate StartsWith(s: string, prefix: string)
  {
    |prefix| <= |s| && s[..|prefix|] == prefix
  }

  /** `s.indexOf(c)`, with |s| standing for "not found". */
  function IndexOf(s: string, c: char): (i: nat)
    ensures i <= |s|
    ensures i < |s| ==> s[i] == c
    ensures forall j | 0 <= j < i :: s[j] != c
  {
    if s == [] then 0 else if s[0] == c then 0 else 1 + IndexOf(s[1..], c)
  }
}
