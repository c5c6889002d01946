/**
 * Properties of the single-value store: the key invariant every
 * configuration call keeps, round trips between mutators and accessors,
 * and the share/alias rules the Provider tests exercise.
 */
module StandardProperties {
  import opened Wrappers
  import opened PhpValues
  import opened ConfigErrors
  import opened Naming
  import opened Validation
  import opened Registry
  import opened StandardStore

  /** One configuration call on the store. */
  datatype Command =
    | DefineCall(className: string, def: PhpArray)
    | DefineParamCall(paramName: string, value: Value)
    | AliasCall(typehint: Value, alias: Value)
    | ShareCall(classNameOrInstance: Value)
    | UnshareCall(unshared: ClassRef)
    | RefreshCall(refreshed: ClassRef)
    | DelegateCall(delegated: string, callable: Value, args: PhpArray)
    | PrepareCall(prepared: string, executable: Value)
    | ShareIfNeededCall(normalizedClass: string, obj: Instance)

  function Apply(st: Store, cmd: Command, canExecute: Value -> bool): Result<Store, ConfigError> {
    match cmd
    case DefineCall(c, d) => Define(st, c, d)
    case DefineParamCall(p, v) => Success(DefineParam(st, p, v))
    case AliasCall(t, a) => Alias(st, t, a)
    case ShareCall(v) => Share(st, v)
    case UnshareCall(r) => Success(Unshare(st, r))
    case RefreshCall(r) => Success(Refresh(st, r))
    case DelegateCall(c, f, args) => Delegate(st, c, f, args, canExecute)
    case PrepareCall(n, e) => Prepare(st, n, e, canExecute)
    case ShareIfNeededCall(n, o) => Success(ShareIfNeeded(st, n, o))
  }

  /** A configuration sequence; the first exception aborts it. */
  function Run(st: Store, cmds: seq<Command>, canExecute: Value -> bool): Result<Store, ConfigError>
    decreases |cmds|
  {
    if cmds == [] then Success(st)
    else match Apply(st, cmds[0], canExecute)
      case Failure(e) => Failure(e)
      case Success(next) => Run(next, cmds[1..], canExecute)
  }

  lemma DefinePreservesWellKeyed(st: Store, className: string, def: PhpArray)
    requires WellKeyed(st)
    ensures Define(st, className, def).Success? ==> WellKeyed(Define(st, className, def).value)
  {
    KeysNormalizedStore(st.definitions, className, def);
  }

  lemma AliasPreservesWellKeyed(st: Store, typehint: Value, alias: Value)
    requires WellKeyed(st)
    ensures Alias(st, typehint, alias).Success? ==> WellKeyed(Alias(st, typehint, alias).value)
  {
    if IsAliasName(typehint) && IsAliasName(alias) && !HoldsInstance(st, Normalize(typehint.s)) {
      var t := Normalize(typehint.s);
      var r := Alias(st, typehint, alias).value;
      KeysNormalizedStore(st.aliases, typehint.s, alias.s);
      assert r.aliases == st.aliases[t := alias.s];
      if t in st.shared {
        KeysNormalizedStore(st.shared, alias.s, st.shared[t]);
        KeysNormalizedRemove(st.shared[Normalize(alias.s) := st.shared[t]], {t});
        assert r.shared == st.shared[Normalize(alias.s) := st.shared[t]] - {t};
      }
    }
  }

  lemma ShareClassPreservesWellKeyed(st: Store, className: string)
    requires WellKeyed(st)
    ensures WellKeyed(ShareClass(st, className))
  {
    var (target, n) := ResolveAlias(st, className);
    KeysNormalizedStore(st.shared, target, if HoldsInstance(st, n) then st.shared[n] else None);
  }

  lemma ShareObjectPreservesWellKeyed(st: Store, obj: Instance)
    requires WellKeyed(st)
    ensures ShareObject(st, obj).Success? ==> WellKeyed(ShareObject(st, obj).value)
  {
    KeysNormalizedStore(st.shared, obj.className, Some(obj));
  }

  lemma DelegatePreservesWellKeyed(st: Store, className: string, callable: Value, args: PhpArray,
                                   canExecute: Value -> bool)
    requires WellKeyed(st)
    ensures Delegate(st, className, callable, args, canExecute).Success? ==>
      WellKeyed(Delegate(st, className, callable, args, canExecute).value)
  {
    KeysNormalizedStore(st.delegates, className, Delegation(callable, args));
  }

  lemma PreparePreservesWellKeyed(st: Store, name: string, executable: Value, canExecute: Value -> bool)
    requires WellKeyed(st)
    ensures Prepare(st, name, executable, canExecute).Success? ==>
      WellKeyed(Prepare(st, name, executable, canExecute).value)
  {
    KeysNormalizedStore(st.prepares, name, executable);
  }

  /** Every configuration call keys its maps by normalised class names. */
  lemma ApplyPreservesWellKeyed(st: Store, cmd: Command, canExecute: Value -> bool)
    requires WellKeyed(st)
    ensures Apply(st, cmd, canExecute).Success? ==> WellKeyed(Apply(st, cmd, canExecute).value)
  {
    match cmd
    case DefineCall(c, d) => DefinePreservesWellKeyed(st, c, d);
    case DefineParamCall(_, _) =>
    case AliasCall(t, a) => AliasPreservesWellKeyed(st, t, a);
    case ShareCall(v) =>
      if v.Str? {
        ShareClassPreservesWellKeyed(st, v.s);
      } else if v.Obj? {
        ShareObjectPreservesWellKeyed(st, v.inst);
      }
    case UnshareCall(r) => KeysNormalizedRemove(st.shared, {Normalize(ClassName(r))});
    case RefreshCall(_) =>
    case DelegateCall(c, f, args) => DelegatePreservesWellKeyed(st, c, f, args, canExecute);
    case PrepareCall(n, e) => PreparePreservesWellKeyed(st, n, e, canExecute);
    case ShareIfNeededCall(_, _) =>
  }

  /** The key invariant holds after any configuration sequence that starts from a well-keyed store. */
  lemma {:induction false} RunPreservesWellKeyed(st: Store, cmds: seq<Command>, canExecute: Value -> bool)
    requires WellKeyed(st)
    ensures Run(st, cmds, canExecute).Success? ==> WellKeyed(Run(st, cmds, canExecute).value)
    decreases |cmds|
  {
    if cmds != [] {
      ApplyPreservesWellKeyed(st, cmds[0], canExecute);
      match Apply(st, cmds[0], canExecute)
      case Failure(_) =>
      case Success(next) => RunPreservesWellKeyed(next, cmds[1..], canExecute);
    }
  }

  // ---------------------------------------------------------------- definitions

  /** A valid definition is returned by `getDefinition` under any spelling of the class name. */
  lemma DefineThenGetDefinition(st: Store, className: string, spelling: string, def: PhpArray)
    requires IsValidDefinition(def)
    requires Normalize(spelling) == Normalize(className)
    ensures Define(st, className, def).Success?
    ensures GetDefinition(Define(st, className, def).value, spelling) == def
  {
  }

  /** A second define of the same class replaces the first wholesale. */
  lemma DefineLastWriteWins(st: Store, className: string, first: PhpArray, second: PhpArray)
    requires IsValidDefinition(first) && IsValidDefinition(second)
    ensures Define(st, className, first).Success?
    ensures Define(Define(st, className, first).value, className, second).Success?
    ensures Define(Define(st, className, first).value, className, second).value
         == Define(st, className, second).value
  {
  }

  /** A plain key must map to a class name: `array('int' => 42)` is rejected. */
  lemma DefineRejectsUnprefixedInteger(st: Store)
    ensures Define(st, "TestClass", [Entry(Name("int"), Int(42))]) == Failure(RawPrefix(Name("int")))
  {
    assert !IsValidEntry(Entry(Name("int"), Int(42)));
  }

  /** With the raw prefix, any value is accepted. */
  lemma DefineAcceptsRawValues(st: Store)
    ensures Define(st, "TestClass", [Entry(Name(":int"), Int(42)), Entry(Name(":null"), Null)]).Success?
  {
    assert IsRawKey(Name(":int")) && IsRawKey(Name(":null"));
  }

  // ---------------------------------------------------------------- global parameters

  /** `getParamDefine` gives back what `defineParam` stored, NULL included. */
  lemma DefineParamRoundTrip(st: Store, paramName: string, value: Value)
    ensures GetParamDefine(DefineParam(st, paramName, value), paramName) == (true, value)
  {
  }

  /** Parameter names are not normalised: defining `name` leaves every other spelling as it was. */
  lemma DefineParamKeysExactly(st: Store, paramName: string, other: string, value: Value)
    requires other != paramName
    ensures GetParamDefine(DefineParam(st, paramName, value), other) == GetParamDefine(st, other)
  {
  }

  // ---------------------------------------------------------------- aliases

  /** PHP's `empty("0")` holds, so `"0"` is not an acceptable alias name. */
  lemma AliasRejectsZeroString(st: Store, target: string)
    ensures Alias(st, Str("0"), Str(target)) == Failure(NonEmptyStringAlias)
    ensures Alias(st, Str(target), Str("0")) == Failure(NonEmptyStringAlias)
  {
    assert IsEmpty(Str("0"));
  }

  /**
   * Aliases do not chain: after `A -> B` and `B -> C`, `A` resolves to `B`,
   * not `C`.
   */
  lemma ResolveAliasSingleHop(st: Store, a: string, b: string, c: string)
    requires IsAliasName(Str(a)) && IsAliasName(Str(b)) && IsAliasName(Str(c))
    requires Normalize(a) != Normalize(b)
    requires !HoldsInstance(st, Normalize(a)) && !HoldsInstance(st, Normalize(b))
    ensures Alias(st, Str(a), Str(b)).Success?
    ensures var s1 := Alias(st, Str(a), Str(b)).value;
      && Alias(s1, Str(b), Str(c)).Success?
      && ResolveAlias(Alias(s1, Str(b), Str(c)).value, a) == (b, Normalize(b))
  {
    var s1 := Alias(st, Str(a), Str(b)).value;
    assert !HoldsInstance(s1, Normalize(b));
  }

  /**
   * Share by name, then alias: the pending share moves to the alias target,
   * and once an object is recorded there, every later lookup through the
   * aliased name finds the same instance.
   */
  lemma ShareByNameThenAlias(st: Store, iface: string, impl: string, built: Instance)
    requires IsAliasName(Str(iface)) && IsAliasName(Str(impl))
    requires Normalize(iface) != Normalize(impl)
    requires Normalize(iface) !in st.aliases
    requires !HoldsInstance(st, Normalize(iface))
    ensures Share(st, Str(iface)).Success?
    ensures var s1 := Share(st, Str(iface)).value;
      && Alias(s1, Str(iface), Str(impl)).Success?
      && var s2 := Alias(s1, Str(iface), Str(impl)).value;
         var key := ResolveAlias(s2, iface).1;
         && key == Normalize(impl)
         && key in s2.shared && s2.shared[key].None?
         && GetShared(ShareIfNeeded(s2, key, built), ResolveAlias(s2, iface).1) == Some(built)
  {
    var s1 := Share(st, Str(iface)).value;
    assert s1 == ShareClass(st, iface);
    assert ResolveAlias(st, iface).1 == Normalize(iface);
  }

  /** Alias, then share by the aliased name: the share lands on the target's key. */
  lemma AliasThenShareByName(st: Store, iface: string, impl: string)
    requires IsAliasName(Str(iface)) && IsAliasName(Str(impl))
    requires !HoldsInstance(st, Normalize(iface))
    ensures Alias(st, Str(iface), Str(impl)).Success?
    ensures var s1 := Alias(st, Str(iface), Str(impl)).value;
      && Share(s1, Str(iface)).Success?
      && Normalize(impl) in Share(s1, Str(iface)).value.shared
  {
  }

  /** An object whose class is aliased cannot be shared. */
  lemma ShareObjectOfAliasedClassRejected(st: Store, className: string, target: string, obj: Instance)
    requires IsAliasName(Str(className)) && IsAliasName(Str(target))
    requires !HoldsInstance(st, Normalize(className))
    requires Normalize(obj.className) == Normalize(className)
    ensures Alias(st, Str(className), Str(target)).Success?
    ensures Share(Alias(st, Str(className), Str(target)).value, Obj(obj))
         == Failure(AliasedCannotShare(Normalize(className), target))
  {
  }

  /** An instance of the alias target can still be shared, and is found through the aliased name. */
  lemma ShareObjectOfAliasTargetAllowed(st: Store, iface: string, obj: Instance)
    requires IsAliasName(Str(iface)) && IsAliasName(Str(obj.className))
    requires !HoldsInstance(st, Normalize(iface))
    requires Normalize(obj.className) !in st.aliases
    requires Normalize(obj.className) != Normalize(iface)
    ensures Alias(st, Str(iface), Str(obj.className)).Success?
    ensures var s1 := Alias(st, Str(iface), Str(obj.className)).value;
      && Share(s1, Obj(obj)).Success?
      && GetShared(Share(s1, Obj(obj)).value, ResolveAlias(s1, iface).1) == Some(obj)
  {
  }

  /** A class whose shared entry holds an instance cannot be aliased away. */
  lemma AliasAfterShareObjectRejected(st: Store, obj: Instance, target: string)
    requires IsAliasName(Str(obj.className)) && IsAliasName(Str(target))
    requires Normalize(obj.className) !in st.aliases
    ensures Share(st, Obj(obj)).Success?
    ensures Alias(Share(st, Obj(obj)).value, Str(obj.className), Str(target))
         == Failure(SharedCannotAlias(Normalize(obj.className), target))
  {
  }

  /**
   * Aliasing a pending-shared class to a spelling of itself drops the
   * share: the entry is copied onto the same key and then deleted.
   */
  lemma SelfAliasDropsPendingShare(st: Store, className: string, spelling: string)
    requires IsAliasName(Str(className)) && IsAliasName(Str(spelling))
    requires Normalize(className) == Normalize(spelling)
    requires Normalize(className) in st.shared && st.shared[Normalize(className)].None?
    ensures Alias(st, Str(className), Str(spelling)).Success?
    ensures Normalize(className) !in Alias(st, Str(className), Str(spelling)).value.shared
  {
  }

  // ---------------------------------------------------------------- shared-entry lifecycle

  /**
   * Share, build, refresh: the built instance is forgotten but the class
   * stays shared, so the next build is recorded again.
   */
  lemma RefreshKeepsClassShared(st: Store, className: string, built: Instance, rebuilt: Instance)
    requires Normalize(className) !in st.aliases
    ensures Share(st, Str(className)).Success?
    ensures var key := Normalize(className);
      var s1 := ShareIfNeeded(Share(st, Str(className)).value, key, built);
      var s2 := Refresh(s1, ByName(className));
      && GetShared(s1, key) == Some(built)
      && key in s2.shared
      && GetShared(s2, key) == None
      && GetShared(ShareIfNeeded(s2, key, rebuilt), key) == Some(rebuilt)
  {
    var key := Normalize(className);
    var s0 := ShareClass(st, className);
    assert ResolveAlias(st, className).1 == key;
    var s1 := ShareIfNeeded(s0, key, built);
    assert s1.shared[key] == Some(built);
    var s2 := Refresh(s1, ByName(className));
    assert s2.shared[key] == None;
  }

  /** Sharing a class by name again keeps the instance already built. */
  lemma RepeatedShareKeepsInstance(st: Store, className: string, built: Instance)
    requires Normalize(className) !in st.aliases
    ensures Share(st, Str(className)).Success?
    ensures var key := Normalize(className);
      var s1 := ShareIfNeeded(Share(st, Str(className)).value, key, built);
      && Share(s1, Str(className)).Success?
      && GetShared(Share(s1, Str(className)).value, key) == Some(built)
  {
    var key := Normalize(className);
    var s0 := ShareClass(st, className);
    assert ResolveAlias(st, className).1 == key;
    assert key in s0.shared;
    var s1 := ShareIfNeeded(s0, key, built);
    assert s1.shared[key] == Some(built);
    assert s1.aliases == st.aliases;
    assert ResolveAlias(s1, className).1 == key;
    var s2 := ShareClass(s1, className);
    assert s2.shared[key] == Some(built);
  }

  /** Unsharing by the object removes its class's entry entirely. */
  lemma UnshareObjectRemovesEntry(st: Store, obj: Instance)
    requires Normalize(obj.className) !in st.aliases
    ensures Share(st, Obj(obj)).Success?
    ensures var s1 := Unshare(Share(st, Obj(obj)).value, ByInstance(obj));
      && Normalize(obj.className) !in s1.shared
      && GetShared(s1, Normalize(obj.className)) == None
  {
  }

  /** `shareIfNeeded` never starts sharing a class. */
  lemma ShareIfNeededOnlyUpdates(st: Store, normalizedClass: string, obj: Instance)
    ensures normalizedClass in ShareIfNeeded(st, normalizedClass, obj).shared <==> normalizedClass in st.shared
  {
  }

  // ---------------------------------------------------------------- delegates and prepares

  /** A registered delegate is found by `isDelegated` on the key and by `getDelegated` on any spelling. */
  lemma DelegateThenLookup(st: Store, className: string, spelling: string, callable: Value,
                           args: PhpArray, canExecute: Value -> bool)
    requires canExecute(callable)
    requires Normalize(spelling) == Normalize(className)
    ensures Delegate(st, className, callable, args, canExecute).Success?
    ensures var s1 := Delegate(st, className, callable, args, canExecute).value;
      && IsDelegated(s1, Normalize(spelling))
      && GetDelegated(s1, spelling) == Some(Delegation(callable, args))
  {
  }

  /** A prepare registered for an interface is returned for any list naming that interface. */
  lemma PrepareThenInterfacePrepares(st: Store, iface: string, executable: Value,
                                     interfaces: seq<string>, canExecute: Value -> bool)
    requires canExecute(executable)
    requires exists i :: 0 <= i < |interfaces| && Normalize(interfaces[i]) == Normalize(iface)
    ensures Prepare(st, iface, executable, canExecute).Success?
    ensures var prepares := GetInterfacePrepares(Prepare(st, iface, executable, canExecute).value, interfaces);
      Normalize(iface) in prepares && prepares[Normalize(iface)] == executable
  {
  }
}
