/**
 * `validateInjectionDefinition`: every entry of an injection definition
 * whose key lacks the raw-injection prefix must map to a string (a class
 * name to construct); only prefixed keys may carry arbitrary raw values.
 */
module Validation {
  import opened Wrappers
  import opened PhpValues
  import opened ConfigErrors

  /** The raw-injection prefix: a key `":name"` injects its value verbatim. */
  const RawInjectionPrefix: char := ':'

  /**
   * `$paramName[0] === ':'`. An integer key, or the empty string, has no
   * first character equal to the prefix.
   */
  predicate IsRawKey(k: Key) {
    k.Name? && |k.name| > 0 && k.name[0] == RawInjectionPrefix
  }

  predicate IsValidEntry(e: Entry) {
    IsRawKey(e.key) || e.value.Str?
  }

  predicate IsValidDefinition(def: PhpArray) {
    forall i :: 0 <= i < |def| ==> IsValidEntry(def[i])
  }

  /** The position of the first entry the `foreach` rejects, if any. */
  function FirstInvalid(def: PhpArray): (r: Option<nat>)
    ensures r.None? <==> IsValidDefinition(def)
    ensures r.Some? ==>
      && r.value < |def|
      && !IsValidEntry(def[r.value])
      && forall j :: 0 <= j < r.value ==> IsValidEntry(def[j])
  {
    if def == [] then None
    else if !IsValidEntry(def[0]) then Some(0)
    else match FirstInvalid(def[1..])
      case None => None
      case Some(i) => Some(i + 1)
  }

  /** Passes exactly for a valid definition; otherwise names the first offending key. */
  function ValidateInjectionDefinition(def: PhpArray): (r: Outcome<ConfigError>)
    ensures r.Pass? <==> IsValidDefinition(def)
    ensures r.Fail? ==>
      exists i :: 0 <= i < |def| && r.error == RawPrefix(def[i].key) && !IsValidEntry(def[i])
        && (forall j :: 0 <= j < i ==> IsValidEntry(def[j]))
  {
    match FirstInvalid(def)
    case None => Pass
    case Some(i) => Fail(RawPrefix(def[i].key))
  }
}
