/**
 * The plain-map logic both provider plugins share verbatim: alias
 * resolution, prepare lookup, and the vocabulary for saying which entries
 * of a map a configuration call changed.
 */
module Registry {
  import opened Wrappers
  import opened PhpValues
  import opened Naming

  /** `before` and `after` hold the same entries at every key outside `keys`. */
  ghost predicate AgreeExcept<V>(before: map<string, V>, after: map<string, V>, keys: set<string>) {
    forall k :: k !in keys ==>
      && (k in before <==> k in after)
      && (k in before && k in after ==> before[k] == after[k])
  }

  /** `after` is `before` with `key` set to `value` and nothing else changed. */
  ghost predicate StoresAt<V>(before: map<string, V>, after: map<string, V>, key: string, value: V) {
    key in after && after[key] == value && AgreeExcept(before, after, {key})
  }

  /** `after` is `before` with `key` removed and nothing else changed. */
  ghost predicate Removes<V>(before: map<string, V>, after: map<string, V>, key: string) {
    key !in after && AgreeExcept(before, after, {key})
  }

  /** Every key of `m` is a normalised class name. */
  predicate KeysNormalized<V>(m: map<string, V>) {
    forall k :: k in m ==> IsNormalized(k)
  }

  lemma KeysNormalizedStore<V>(m: map<string, V>, name: string, v: V)
    requires KeysNormalized(m)
    ensures KeysNormalized(m[Normalize(name) := v])
  {
    NormalizeIdempotent(name);
  }

  lemma KeysNormalizedRemove<V>(m: map<string, V>, keys: set<string>)
    requires KeysNormalized(m)
    ensures KeysNormalized(m - keys)
  {
  }

  /**
   * `resolveAlias`: one hop through the alias map. An aliased name yields
   * the stored (un-normalised) target and its key; any other name yields
   * itself and its own key.
   */
  function FollowAlias(aliases: map<string, string>, className: string): (r: (string, string))
    ensures r.1 == Normalize(r.0)
    ensures Normalize(className) in aliases ==> r.0 == aliases[Normalize(className)]
    ensures Normalize(className) !in aliases ==> r.0 == className
  {
    var n := Normalize(className);
    if n in aliases then
      var target := aliases[n];
      (target, Normalize(target))
    else
      (className, n)
  }

  /** `getPrepareDefine`: the mutator registered under the name's key, if any. */
  function PrepareDefine(prepares: map<string, Value>, name: string): (r: Option<Value>)
    ensures r.Some? <==> Normalize(name) in prepares
    ensures r.Some? ==> r.value == prepares[Normalize(name)]
  {
    var n := Normalize(name);
    if n in prepares then Some(prepares[n]) else None
  }

  /**
   * `getInterfacePrepares`: the prepare entries whose key is the key of one
   * of the given interface names (`array_intersect_key` with the flipped,
   * normalised list).
   */
  function InterfacePrepares(prepares: map<string, Value>, interfaces: seq<string>): (r: map<string, Value>)
    ensures forall k :: k in r ==> k in prepares && r[k] == prepares[k]
    ensures forall k :: k in r ==> exists i :: 0 <= i < |interfaces| && Normalize(interfaces[i]) == k
    ensures forall i :: 0 <= i < |interfaces| && Normalize(interfaces[i]) in prepares ==>
      Normalize(interfaces[i]) in r
  {
    var wanted := NormalizeAll(interfaces);
    map k | k in prepares && k in wanted :: prepares[k]
  }
}
