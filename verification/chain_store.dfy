/**
 * `ClassConstructorChainProviderPlugin`: the chain-aware configuration
 * store. Aliases and prepares are plain single-value maps as in the
 * standard store; definitions, parameter defaults, delegates and shares
 * are `ProviderInfoCollection`s that accumulate one registration per call,
 * each tagged with the constructor chain it was made for. A shared entry
 * is absent, a collection, or NULL once `refresh` has cleared it.
 */
module ChainStore {
  import opened Wrappers
  import opened PhpValues
  import opened ConfigErrors
  import opened Naming
  import opened Validation
  import opened Registry
  import opened InfoCollection

  datatype Store = Store(
    /** class key -> alias target, as the caller spelled it */
    aliases: map<string, string>,
    /** class or interface key -> mutator */
    prepares: map<string, Value>,
    /** class key -> shared registrations, or None once refreshed (PHP NULL) */
    shared: map<string, Option<Collection<Value>>>,
    /** class key -> delegate registrations */
    delegates: map<string, Collection<Delegation>>,
    /** parameter name, exactly as given -> default registrations */
    params: map<string, Collection<Value>>,
    /** class key -> definition registrations */
    definitions: map<string, Collection<PhpArray>>)

  const Empty: Store := Store(map[], map[], map[], map[], map[], map[])

  /** The class of every shared entry before a refresh: what `get_class` reports in `alias`'s error. */
  const CollectionClassName: string := "Auryn\\Plugin\\ProviderInfoCollection"

  /** The entry at `key` is set and not NULL (PHP `isset`). */
  predicate IsSet(st: Store, key: string) {
    key in st.shared && st.shared[key].Some?
  }

  /**
   * Create the collection under `key` on the first registration, add to it
   * on every later one.
   */
  function Accumulate<T>(m: map<string, Collection<T>>, key: string, information: T,
                         chain: Chain): (r: map<string, Collection<T>>)
    ensures key in r
    ensures key !in m ==> r[key].infos == [ProviderInfo(information, chain)]
    ensures key in m ==> r[key].infos == m[key].infos + [ProviderInfo(information, chain)]
    ensures forall k :: k in m && k != key ==> k in r && r[k] == m[k]
    ensures forall k :: k in r ==> k in m || k == key
  {
    if key !in m then m[key := Create(information, chain)]
    else m[key := AddInfo(m[key], information, chain)]
  }

  // ---------------------------------------------------------------- definitions

  /** `define`: validate, then create or accumulate the class's definition collection. */
  function Define(st: Store, className: string, def: PhpArray, chain: Chain): (r: Result<Store, ConfigError>)
    ensures r.Failure? <==> !IsValidDefinition(def)
    ensures r.Failure? ==> r.error.RawPrefix?
    ensures r.Success? ==> var n := Normalize(className);
      && n in r.value.definitions
      && r.value.definitions[n].infos
         == (if n in st.definitions then st.definitions[n].infos else []) + [ProviderInfo(def, chain)]
      && AgreeExcept(st.definitions, r.value.definitions, {n})
      && r.value.(definitions := st.definitions) == st
  {
    match ValidateInjectionDefinition(def)
    case Fail(e) => Failure(e)
    case Pass => Success(st.(definitions := Accumulate(st.definitions, Normalize(className), def, chain)))
  }

  /**
   * `getDefinition`: the definition the selector picks for the chain, or the
   * empty array when the class has none or nothing matches.
   */
  function GetDefinition(st: Store, className: string, chain: Chain, select: Selector): (r: PhpArray)
    ensures var n := Normalize(className);
      n in st.definitions && BestMatching(st.definitions[n], chain, select).Some? ==>
        r == st.definitions[n].infos[BestMatching(st.definitions[n], chain, select).value].information
    ensures var n := Normalize(className);
      n !in st.definitions || BestMatching(st.definitions[n], chain, select).None? ==> r == []
  {
    var n := Normalize(className);
    if n in st.definitions then
      match BestMatching(st.definitions[n], chain, select)
      case Some(i) => st.definitions[n].infos[i].information
      case None => []
    else []
  }

  /** `defineParam`: create or accumulate under the exact parameter name. */
  function DefineParam(st: Store, paramName: string, value: Value, chain: Chain): (r: Store)
    ensures paramName in r.params
    ensures r.params[paramName].infos
         == (if paramName in st.params then st.params[paramName].infos else []) + [ProviderInfo(value, chain)]
    ensures AgreeExcept(st.params, r.params, {paramName})
    ensures r.(params := st.params) == st
  {
    st.(params := Accumulate(st.params, paramName, value, chain))
  }

  /** `isParamDefined`: the key exists; the chain plays no part. */
  function IsParamDefined(st: Store, paramName: string, chain: Chain): bool {
    paramName in st.params
  }

  /**
   * `getParamDefine`: `(true, v)` when the name is defined and the selector
   * finds a registration for the chain, `v` being its value; `(false, null)`
   * otherwise.
   */
  function GetParamDefine(st: Store, paramName: string, chain: Chain, select: Selector): (r: (bool, Value))
    ensures r.0 <==> IsParamDefined(st, paramName, chain) && BestMatching(st.params[paramName], chain, select).Some?
    ensures r.0 ==> r.1 == st.params[paramName].infos[BestMatching(st.params[paramName], chain, select).value].information
    ensures !r.0 ==> r.1 == Null
  {
    if paramName in st.params then
      match BestMatching(st.params[paramName], chain, select)
      case Some(i) => (true, st.params[paramName].infos[i].information)
      case None => (false, Null)
    else (false, Null)
  }

  // ---------------------------------------------------------------- aliases

  /**
   * `alias`, as written: the same checks as the standard store, but a shared
   * entry here is a collection object, so `isset` holds for every entry that
   * has not been refreshed, including a share by name.
   */
  function Alias(st: Store, typehint: Value, alias: Value): (r: Result<Store, ConfigError>)
    ensures !IsAliasName(typehint) || !IsAliasName(alias) ==> r == Failure(NonEmptyStringAlias)
    ensures IsAliasName(typehint) && IsAliasName(alias) ==>
      var t := Normalize(typehint.s);
      var a := Normalize(alias.s);
      && (r.Failure? <==> IsSet(st, t))
      && (r.Failure? ==> r.error == SharedCannotAlias(Normalize(CollectionClassName), alias.s))
      && (r.Success? ==>
        && StoresAt(st.aliases, r.value.aliases, t, alias.s)
        && (t !in st.shared ==> r.value.shared == st.shared)
        && (t in st.shared ==>
          && t !in r.value.shared
          && (a != t ==> a in r.value.shared && r.value.shared[a].None?)
          && AgreeExcept(st.shared, r.value.shared, {t, a}))
        && r.value.(aliases := st.aliases, shared := st.shared) == st)
  {
    if !IsAliasName(typehint) || !IsAliasName(alias) then
      Failure(NonEmptyStringAlias)
    else
      var t := Normalize(typehint.s);
      var a := Normalize(alias.s);
      if IsSet(st, t) then
        Failure(SharedCannotAlias(Normalize(CollectionClassName), alias.s))
      else
        var aliases := st.aliases[t := alias.s];
        var shared := if t in st.shared then st.shared[a := st.shared[t]] - {t} else st.shared;
        Success(st.(aliases := aliases, shared := shared))
  }

  /** The position of the first instance registered in a collection of shared values, if any. */
  function FirstInstance(infos: seq<ProviderInfo<Value>>): (r: Option<nat>)
    ensures r.Some? ==> r.value < |infos| && infos[r.value].information.Obj?
  {
    if infos == [] then None
    else if infos[0].information.Obj? then Some(0)
    else match FirstInstance(infos[1..])
      case None => None
      case Some(i) => Some(i + 1)
  }

  /** `FirstInstance` finds nothing exactly when no info is an object, and otherwise the earliest one. */
  lemma {:induction false} FirstInstanceIsFirst(infos: seq<ProviderInfo<Value>>)
    ensures FirstInstance(infos).None? <==> forall i :: 0 <= i < |infos| ==> !infos[i].information.Obj?
    ensures FirstInstance(infos).Some? ==>
      forall i :: 0 <= i < FirstInstance(infos).value ==> !infos[i].information.Obj?
  {
    if infos != [] && !infos[0].information.Obj? {
      FirstInstanceIsFirst(infos[1..]);
      assert forall i :: 1 <= i < |infos| ==> infos[i] == infos[1..][i - 1];
    }
  }

  /** The shared entry at `key` holds an instance (an object was shared for some chain). */
  predicate HoldsInstance(st: Store, key: string) {
    IsSet(st, key) && FirstInstance(st.shared[key].value.infos).Some?
  }

  /**
   * `alias` with the shared-entry test the standard store makes: only an
   * entry holding an instance blocks the alias, and a pending entry (a share
   * by name, or a refreshed one) moves to the target's key.
   */
  function AliasCorrected(st: Store, typehint: Value, alias: Value): (r: Result<Store, ConfigError>)
    ensures !IsAliasName(typehint) || !IsAliasName(alias) ==> r == Failure(NonEmptyStringAlias)
    ensures IsAliasName(typehint) && IsAliasName(alias) ==>
      var t := Normalize(typehint.s);
      var a := Normalize(alias.s);
      && (r.Failure? <==> HoldsInstance(st, t))
      && (r.Failure? ==>
            var infos := st.shared[t].value.infos;
            r.error == SharedCannotAlias(Normalize(infos[FirstInstance(infos).value].information.inst.className), alias.s))
      && (r.Success? ==>
        && StoresAt(st.aliases, r.value.aliases, t, alias.s)
        && (t !in st.shared ==> r.value.shared == st.shared)
        && (t in st.shared ==>
          && t !in r.value.shared
          && (a != t ==> a in r.value.shared && r.value.shared[a] == st.shared[t])
          && AgreeExcept(st.shared, r.value.shared, {t, a}))
        && r.value.(aliases := st.aliases, shared := st.shared) == st)
  {
    if !IsAliasName(typehint) || !IsAliasName(alias) then
      Failure(NonEmptyStringAlias)
    else
      var t := Normalize(typehint.s);
      var a := Normalize(alias.s);
      if HoldsInstance(st, t) then
        var infos := st.shared[t].value.infos;
        var inst := infos[FirstInstance(infos).value].information.inst;
        Failure(SharedCannotAlias(Normalize(inst.className), alias.s))
      else
        var aliases := st.aliases[t := alias.s];
        var shared := if t in st.shared then st.shared[a := st.shared[t]] - {t} else st.shared;
        Success(st.(aliases := aliases, shared := shared))
  }

  /** `resolveAlias`: a single hop through the alias map. */
  function ResolveAlias(st: Store, className: string): (r: (string, string))
    ensures r.1 == Normalize(r.0)
    ensures Normalize(className) in st.aliases ==> r.0 == st.aliases[Normalize(className)]
    ensures Normalize(className) !in st.aliases ==> r.0 == className
  {
    FollowAlias(st.aliases, className)
  }

  // ---------------------------------------------------------------- sharing

  /** `shareClass`: create a collection holding NULL on the alias-resolved key, only if there is no entry. */
  function ShareClass(st: Store, className: string, chain: Chain): (r: Store)
    ensures var n := ResolveAlias(st, className).1;
      && n in r.shared
      && (n in st.shared ==> r == st)
      && (n !in st.shared ==> StoresAt(st.shared, r.shared, n, Some(Create(Null, chain))))
      && AgreeExcept(st.shared, r.shared, {n})
    ensures r.(shared := st.shared) == st
  {
    var (_, n) := ResolveAlias(st, className);
    if n !in st.shared then st.(shared := st.shared[n := Some(Create(Null, chain))]) else st
  }

  /**
   * `shareObject`: reject an aliased class; otherwise create the class's
   * collection or add the instance to it. A refreshed (NULL) entry makes
   * `addInfo` a call on null.
   */
  function ShareObject(st: Store, obj: Instance, chain: Chain): (r: Result<Store, ConfigError>)
    ensures var n := Normalize(obj.className);
      && (n in st.aliases ==> r == Failure(AliasedCannotShare(n, st.aliases[n])))
      && (n !in st.aliases && n in st.shared && st.shared[n].None? ==> r == Failure(NullCollection))
      && (r.Success? ==>
        && n !in st.aliases
        && n in r.value.shared && r.value.shared[n].Some?
        && r.value.shared[n].value.infos
           == (if n in st.shared then st.shared[n].value.infos else []) + [ProviderInfo(Obj(obj), chain)]
        && AgreeExcept(st.shared, r.value.shared, {n})
        && r.value.(shared := st.shared) == st)
    ensures r.Failure? <==> var n := Normalize(obj.className);
      n in st.aliases || (n in st.shared && st.shared[n].None?)
  {
    var n := Normalize(obj.className);
    if n in st.aliases then Failure(AliasedCannotShare(n, st.aliases[n]))
    else if n !in st.shared then Success(st.(shared := st.shared[n := Some(Create(Obj(obj), chain))]))
    else match st.shared[n]
      case None => Failure(NullCollection)
      case Some(c) => Success(st.(shared := st.shared[n := Some(AddInfo(c, Obj(obj), chain))]))
  }

  /** `share`: dispatch on a string or an object; anything else is rejected. */
  function Share(st: Store, classNameOrInstance: Value, chain: Chain): (r: Result<Store, ConfigError>)
    ensures r == Failure(ShareArgument) <==> !classNameOrInstance.Str? && !classNameOrInstance.Obj?
    ensures classNameOrInstance.Str? ==> r == Success(ShareClass(st, classNameOrInstance.s, chain))
    ensures classNameOrInstance.Obj? ==> r == ShareObject(st, classNameOrInstance.inst, chain)
  {
    match classNameOrInstance
    case Str(s) => Success(ShareClass(st, s, chain))
    case Obj(o) => ShareObject(st, o, chain)
    case _ => Failure(ShareArgument)
  }

  /** `unshare`: remove the class's key; removing an absent key changes nothing. */
  function Unshare(st: Store, ref: ClassRef): (r: Store)
    ensures Removes(st.shared, r.shared, Normalize(ClassName(ref)))
    ensures Normalize(ClassName(ref)) !in st.shared ==> r == st
    ensures r.(shared := st.shared) == st
  {
    st.(shared := st.shared - {Normalize(ClassName(ref))})
  }

  /** `refresh`: a set entry becomes NULL; absent or already NULL entries are untouched. */
  function Refresh(st: Store, ref: ClassRef): (r: Store)
    ensures var n := Normalize(ClassName(ref));
      && (IsSet(st, n) ==> StoresAt(st.shared, r.shared, n, None))
      && (!IsSet(st, n) ==> r == st)
    ensures r.(shared := st.shared) == st
  {
    var n := Normalize(ClassName(ref));
    if IsSet(st, n) then st.(shared := st.shared[n := None]) else st
  }

  // ---------------------------------------------------------------- delegates

  /** `delegate`: reject a non-executable factory; otherwise create or accumulate the class's delegates. */
  function Delegate(st: Store, className: string, callable: Value, args: PhpArray, chain: Chain,
                    canExecute: Value -> bool): (r: Result<Store, ConfigError>)
    ensures r.Failure? <==> !canExecute(callable)
    ensures r.Failure? ==> r.error == DelegateArgument
    ensures r.Success? ==> var n := Normalize(className);
      && n in r.value.delegates
      && r.value.delegates[n].infos
         == (if n in st.delegates then st.delegates[n].infos else [])
            + [ProviderInfo(Delegation(callable, args), chain)]
      && AgreeExcept(st.delegates, r.value.delegates, {n})
      && r.value.(delegates := st.delegates) == st
  {
    if canExecute(callable) then
      Success(st.(delegates := Accumulate(st.delegates, Normalize(className), Delegation(callable, args), chain)))
    else
      Failure(DelegateArgument)
  }

  /** `isDelegated`: the key (used as given) has registrations and one matches the chain. */
  function IsDelegated(st: Store, normalizedClass: string, chain: Chain, select: Selector): bool {
    normalizedClass in st.delegates && BestMatching(st.delegates[normalizedClass], chain, select).Some?
  }

  /** `getDelegated`: the registration the selector picks for the chain, or null. */
  function GetDelegated(st: Store, className: string, chain: Chain,
                        select: Selector): (r: Option<ProviderInfo<Delegation>>)
    ensures r.Some? <==> IsDelegated(st, Normalize(className), chain, select)
    ensures r.Some? ==> var c := st.delegates[Normalize(className)];
      var i := BestMatching(c, chain, select).value;
      r.value == c.infos[i]
  {
    var n := Normalize(className);
    if n in st.delegates then
      match BestMatching(st.delegates[n], chain, select)
      case Some(i) => Some(st.delegates[n].infos[i])
      case None => None
    else None
  }

  // ---------------------------------------------------------------- prepares

  /** `prepare`: one executable mutator per key; the last write wins. */
  function Prepare(st: Store, name: string, executable: Value,
                   canExecute: Value -> bool): (r: Result<Store, ConfigError>)
    ensures r.Failure? <==> !canExecute(executable)
    ensures r.Failure? ==> r.error == NotCallable
    ensures r.Success? ==>
      && StoresAt(st.prepares, r.value.prepares, Normalize(name), executable)
      && r.value.(prepares := st.prepares) == st
  {
    if canExecute(executable) then
      Success(st.(prepares := st.prepares[Normalize(name) := executable]))
    else
      Failure(NotCallable)
  }

  function GetPrepareDefine(st: Store, name: string): (r: Option<Value>)
    ensures r.Some? <==> Normalize(name) in st.prepares
    ensures r.Some? ==> r.value == st.prepares[Normalize(name)]
  {
    PrepareDefine(st.prepares, name)
  }

  function GetInterfacePrepares(st: Store, interfaces: seq<string>): (r: map<string, Value>)
    ensures forall k :: k in r ==> k in st.prepares && r[k] == st.prepares[k]
    ensures forall k :: k in r ==> exists i :: 0 <= i < |interfaces| && Normalize(interfaces[i]) == k
    ensures forall i :: 0 <= i < |interfaces| && Normalize(interfaces[i]) in st.prepares ==>
      Normalize(interfaces[i]) in r
  {
    InterfacePrepares(st.prepares, interfaces)
  }
}
