/**
 * `StandardProviderPlugin`: the single-value configuration store. Every map
 * holds one value per key and writes replace. A shared entry is absent,
 * pending (`None`, PHP `NULL`: "construct and cache on the next make") or
 * holds an instance. The `$chainClassConstructors` argument every method
 * accepts is ignored by this plugin and is not modelled.
 */
module StandardStore {
  import opened Wrappers
  import opened PhpValues
  import opened ConfigErrors
  import opened Naming
  import opened Validation
  import opened Registry

  datatype Store = Store(
    /** class key -> alias target, as the caller spelled it */
    aliases: map<string, string>,
    /** class or interface key -> mutator */
    prepares: map<string, Value>,
    /** class key -> pending (None) or the shared instance */
    shared: map<string, Option<Instance>>,
    /** class key -> factory and preset arguments */
    delegates: map<string, Delegation>,
    /** parameter name, exactly as given -> global default */
    params: map<string, Value>,
    /** class key -> injection definition */
    definitions: map<string, PhpArray>)

  const Empty: Store := Store(map[], map[], map[], map[], map[], map[])

  /** Every class-keyed map of the store is keyed by normalised names. */
  predicate WellKeyed(st: Store) {
    && KeysNormalized(st.aliases)
    && KeysNormalized(st.prepares)
    && KeysNormalized(st.shared)
    && KeysNormalized(st.delegates)
    && KeysNormalized(st.definitions)
  }

  /** The entry at `key` holds an instance (PHP `isset`: present and not NULL). */
  predicate HoldsInstance(st: Store, key: string) {
    key in st.shared && st.shared[key].Some?
  }

  // ---------------------------------------------------------------- definitions

  /**
   * `define`: validate, then replace the class's whole definition.
   */
  function Define(st: Store, className: string, def: PhpArray): (r: Result<Store, ConfigError>)
    ensures r.Failure? <==> !IsValidDefinition(def)
    ensures r.Failure? ==> r.error.RawPrefix?
    ensures r.Success? ==>
      && StoresAt(st.definitions, r.value.definitions, Normalize(className), def)
      && r.value.(definitions := st.definitions) == st
  {
    match ValidateInjectionDefinition(def)
    case Fail(e) => Failure(e)
    case Pass => Success(st.(definitions := st.definitions[Normalize(className) := def]))
  }

  /** `getDefinition`: the stored definition of the class, or the empty array. */
  function GetDefinition(st: Store, className: string): (r: PhpArray)
    ensures Normalize(className) !in st.definitions ==> r == []
    ensures Normalize(className) in st.definitions ==> r == st.definitions[Normalize(className)]
  {
    var n := Normalize(className);
    if n in st.definitions then st.definitions[n] else []
  }

  /** `defineParam`: a global default keyed by the exact, un-normalised parameter name. */
  function DefineParam(st: Store, paramName: string, value: Value): (r: Store)
    ensures StoresAt(st.params, r.params, paramName, value)
    ensures r.(params := st.params) == st
  {
    st.(params := st.params[paramName := value])
  }

  function IsParamDefined(st: Store, paramName: string): bool {
    paramName in st.params
  }

  /** `getParamDefine`: `(true, v)` whenever the key exists, even for a NULL `v`; `(false, null)` otherwise. */
  function GetParamDefine(st: Store, paramName: string): (r: (bool, Value))
    ensures r.0 <==> IsParamDefined(st, paramName)
    ensures r.0 ==> r.1 == st.params[paramName]
    ensures !r.0 ==> r.1 == Null
  {
    if paramName in st.params then (true, st.params[paramName]) else (false, Null)
  }

  // ---------------------------------------------------------------- aliases

  /**
   * `alias`: both arguments must be non-empty strings; a type whose shared
   * entry holds an instance cannot be aliased. On success the target, as
   * spelled, is recorded under the source's key, and a pending share of the
   * source moves to the target's key (overwriting whatever was there).
   */
  function Alias(st: Store, typehint: Value, alias: Value): (r: Result<Store, ConfigError>)
    ensures !IsAliasName(typehint) || !IsAliasName(alias) ==> r == Failure(NonEmptyStringAlias)
    ensures IsAliasName(typehint) && IsAliasName(alias) ==>
      var t := Normalize(typehint.s);
      var a := Normalize(alias.s);
      && (r.Failure? <==> HoldsInstance(st, t))
      && (r.Failure? ==> r.error == SharedCannotAlias(Normalize(st.shared[t].value.className), alias.s))
      && (r.Success? ==>
        && StoresAt(st.aliases, r.value.aliases, t, alias.s)
        && (t !in st.shared ==> r.value.shared == st.shared)
        && (t in st.shared ==>
          && t !in r.value.shared
          && (a != t ==> a in r.value.shared && r.value.shared[a].None?)
          && AgreeExcept(st.shared, r.value.shared, {t, a}))
        && r.value.(aliases := st.aliases, shared := st.shared) == st)
  {
    if !IsAliasName(typehint) || !IsAliasName(alias) then
      Failure(NonEmptyStringAlias)
    else
      var t := Normalize(typehint.s);
      var a := Normalize(alias.s);
      if HoldsInstance(st, t) then
        Failure(SharedCannotAlias(Normalize(st.shared[t].value.className), alias.s))
      else
        var aliases := st.aliases[t := alias.s];
        var shared := if t in st.shared then st.shared[a := st.shared[t]] - {t} else st.shared;
        Success(st.(aliases := aliases, shared := shared))
  }

  /** `resolveAlias`: a single hop through the alias map. */
  function ResolveAlias(st: Store, className: string): (r: (string, string))
    ensures r.1 == Normalize(r.0)
    ensures Normalize(className) in st.aliases ==> r.0 == st.aliases[Normalize(className)]
    ensures Normalize(className) !in st.aliases ==> r.0 == className
  {
    FollowAlias(st.aliases, className)
  }

  // ---------------------------------------------------------------- sharing

  /**
   * `shareClass`: mark the alias-resolved key shared; an instance already
   * stored there is kept.
   */
  function ShareClass(st: Store, className: string): (r: Store)
    ensures var n := ResolveAlias(st, className).1;
      && n in r.shared
      && (HoldsInstance(st, n) ==> r.shared[n] == st.shared[n])
      && (!HoldsInstance(st, n) ==> r.shared[n].None?)
      && AgreeExcept(st.shared, r.shared, {n})
    ensures r.(shared := st.shared) == st
  {
    var (_, n) := ResolveAlias(st, className);
    st.(shared := st.shared[n := if HoldsInstance(st, n) then st.shared[n] else None])
  }

  /**
   * `shareObject`: store the instance under its class's key, unless that
   * class is aliased. An existing entry is overwritten.
   */
  function ShareObject(st: Store, obj: Instance): (r: Result<Store, ConfigError>)
    ensures var n := Normalize(obj.className);
      && (r.Failure? <==> n in st.aliases)
      && (r.Failure? ==> r.error == AliasedCannotShare(n, st.aliases[n]))
      && (r.Success? ==> StoresAt(st.shared, r.value.shared, n, Some(obj)) && r.value.(shared := st.shared) == st)
  {
    var n := Normalize(obj.className);
    if n in st.aliases then Failure(AliasedCannotShare(n, st.aliases[n]))
    else Success(st.(shared := st.shared[n := Some(obj)]))
  }

  /** `share`: a string is shared by name, an object as an instance; anything else is rejected. */
  function Share(st: Store, classNameOrInstance: Value): (r: Result<Store, ConfigError>)
    ensures r == Failure(ShareArgument) <==> !classNameOrInstance.Str? && !classNameOrInstance.Obj?
    ensures classNameOrInstance.Str? ==> r == Success(ShareClass(st, classNameOrInstance.s))
    ensures classNameOrInstance.Obj? ==> r == ShareObject(st, classNameOrInstance.inst)
  {
    match classNameOrInstance
    case Str(s) => Success(ShareClass(st, s))
    case Obj(o) => ShareObject(st, o)
    case _ => Failure(ShareArgument)
  }

  /** `unshare`: delete the class's shared entry, whatever it held. */
  function Unshare(st: Store, ref: ClassRef): (r: Store)
    ensures Removes(st.shared, r.shared, Normalize(ClassName(ref)))
    ensures r.(shared := st.shared) == st
  {
    st.(shared := st.shared - {Normalize(ClassName(ref))})
  }

  /** `refresh`: an entry holding an instance becomes pending; absent or pending entries are untouched. */
  function Refresh(st: Store, ref: ClassRef): (r: Store)
    ensures var n := Normalize(ClassName(ref));
      && (HoldsInstance(st, n) ==> StoresAt(st.shared, r.shared, n, None))
      && (!HoldsInstance(st, n) ==> r == st)
    ensures r.(shared := st.shared) == st
  {
    var n := Normalize(ClassName(ref));
    if HoldsInstance(st, n) then st.(shared := st.shared[n := None]) else st
  }

  /**
   * `shareIfNeeded`: record a freshly built object, but only under a key
   * that is already shared. The key is used as given, not normalised.
   */
  function ShareIfNeeded(st: Store, normalizedClass: string, obj: Instance): (r: Store)
    ensures normalizedClass in st.shared ==> StoresAt(st.shared, r.shared, normalizedClass, Some(obj))
    ensures normalizedClass !in st.shared ==> r == st
    ensures r.(shared := st.shared) == st
  {
    if normalizedClass in st.shared then st.(shared := st.shared[normalizedClass := Some(obj)]) else st
  }

  /**
   * `getShared`: the stored instance, or null both when the key is absent
   * and when it is pending. The key is used as given.
   */
  function GetShared(st: Store, normalizedClass: string): (r: Option<Instance>)
    ensures r.Some? <==> HoldsInstance(st, normalizedClass)
    ensures r.Some? ==> r == st.shared[normalizedClass]
  {
    if normalizedClass in st.shared then st.shared[normalizedClass] else None
  }

  // ---------------------------------------------------------------- delegates

  /** `delegate`: register an executable factory with its preset arguments, replacing any earlier one. */
  function Delegate(st: Store, className: string, callable: Value, args: PhpArray,
                    canExecute: Value -> bool): (r: Result<Store, ConfigError>)
    ensures r.Failure? <==> !canExecute(callable)
    ensures r.Failure? ==> r.error == DelegateArgument
    ensures r.Success? ==>
      && StoresAt(st.delegates, r.value.delegates, Normalize(className), Delegation(callable, args))
      && r.value.(delegates := st.delegates) == st
  {
    if canExecute(callable) then
      Success(st.(delegates := st.delegates[Normalize(className) := Delegation(callable, args)]))
    else
      Failure(DelegateArgument)
  }

  /** `isDelegated`: looks the key up as given, without normalising it. */
  function IsDelegated(st: Store, normalizedClass: string): bool {
    normalizedClass in st.delegates
  }

  /** `getDelegated`: the registration under the class's key (PHP yields null for a missing key). */
  function GetDelegated(st: Store, className: string): (r: Option<Delegation>)
    ensures r.Some? <==> IsDelegated(st, Normalize(className))
    ensures r.Some? ==> r.value == st.delegates[Normalize(className)]
  {
    var n := Normalize(className);
    if n in st.delegates then Some(st.delegates[n]) else None
  }

  // ---------------------------------------------------------------- prepares

  /** `prepare`: register one executable mutator per class or interface key; the last write wins. */
  function Prepare(st: Store, name: string, executable: Value,
                   canExecute: Value -> bool): (r: Result<Store, ConfigError>)
    ensures r.Failure? <==> !canExecute(executable)
    ensures r.Failure? ==> r.error == NotCallable
    ensures r.Success? ==>
      && StoresAt(st.prepares, r.value.prepares, Normalize(name), executable)
      && r.value.(prepares := st.prepares) == st
  {
    if canExecute(executable) then
      Success(st.(prepares := st.prepares[Normalize(name) := executable]))
    else
      Failure(NotCallable)
  }

  function GetPrepareDefine(st: Store, name: string): (r: Option<Value>)
    ensures r.Some? <==> Normalize(name) in st.prepares
    ensures r.Some? ==> r.value == st.prepares[Normalize(name)]
  {
    PrepareDefine(st.prepares, name)
  }

  function GetInterfacePrepares(st: Store, interfaces: seq<string>): (r: map<string, Value>)
    ensures forall k :: k in r ==> k in st.prepares && r[k] == st.prepares[k]
    ensures forall k :: k in r ==> exists i :: 0 <= i < |interfaces| && Normalize(interfaces[i]) == k
    ensures forall i :: 0 <= i < |interfaces| && Normalize(interfaces[i]) in st.prepares ==>
      Normalize(interfaces[i]) in r
  {
    InterfacePrepares(st.prepares, interfaces)
  }
}
