/**
 * Properties of the chain-aware store: registrations accumulate instead of
 * replacing, the plain-map parts behave as in the standard store, and the
 * shared-entry lifecycle, including the one flaw in `alias` and its
 * corrected form.
 */
module ChainProperties {
  import opened Wrappers
  import opened PhpValues
  import opened ConfigErrors
  import opened Naming
  import opened Validation
  import opened InfoCollection
  import opened ChainStore

  // ---------------------------------------------------------------- accumulation

  /** Two defines for one class keep both registrations, in order, each with its chain. */
  lemma DefineAccumulates(st: Store, className: string, first: PhpArray, second: PhpArray,
                          firstChain: Chain, secondChain: Chain)
    requires IsValidDefinition(first) && IsValidDefinition(second)
    requires Normalize(className) !in st.definitions
    ensures Define(st, className, first, firstChain).Success?
    ensures var s1 := Define(st, className, first, firstChain).value;
      && Define(s1, className, second, secondChain).Success?
      && Define(s1, className, second, secondChain).value.definitions[Normalize(className)].infos
         == [ProviderInfo(first, firstChain), ProviderInfo(second, secondChain)]
  {
  }

  /** An invalid definition is rejected whatever the store already holds for the class. */
  lemma DefineRejectsInvalid(st: Store, className: string, def: PhpArray, chain: Chain)
    requires !IsValidDefinition(def)
    ensures Define(st, className, def, chain).Failure?
    ensures Define(st, className, def, chain).error.RawPrefix?
  {
  }

  /** `isParamDefined` holds exactly for names that were defined, whatever chain is asked about. */
  lemma IsParamDefinedIgnoresChain(st: Store, paramName: string, value: Value, chain: Chain,
                                   asked: Chain, other: string)
    requires other != paramName
    ensures IsParamDefined(DefineParam(st, paramName, value, chain), paramName, asked)
    ensures IsParamDefined(DefineParam(st, paramName, value, chain), other, asked)
        <==> IsParamDefined(st, other, chain)
  {
  }

  /** A second `defineParam` adds to the name's collection rather than replacing it. */
  lemma DefineParamAccumulates(st: Store, paramName: string, first: Value, second: Value,
                               firstChain: Chain, secondChain: Chain)
    requires paramName !in st.params
    ensures DefineParam(DefineParam(st, paramName, first, firstChain), paramName, second, secondChain)
              .params[paramName].infos
         == [ProviderInfo(first, firstChain), ProviderInfo(second, secondChain)]
  {
  }

  /**
   * Round trip: when the selector picks the registration just added, the
   * definition returned for the class, under any spelling of its name, is
   * the one defined.
   */
  lemma DefineThenGetDefinition(st: Store, className: string, spelling: string, def: PhpArray,
                                chain: Chain, asked: Chain, select: Selector)
    requires IsValidDefinition(def)
    requires Normalize(spelling) == Normalize(className)
    ensures Define(st, className, def, chain).Success?
    ensures var s1 := Define(st, className, def, chain).value;
      var c := s1.definitions[Normalize(className)];
      select(asked, Chains(c)) == Some(|c.infos| - 1) ==> GetDefinition(s1, spelling, asked, select) == def
  {
  }

  /** Round trip: a parameter default picked by the selector is returned as `(true, value)`. */
  lemma DefineParamThenGetParamDefine(st: Store, paramName: string, value: Value,
                                      chain: Chain, asked: Chain, select: Selector)
    ensures var s1 := DefineParam(st, paramName, value, chain);
      var c := s1.params[paramName];
      select(asked, Chains(c)) == Some(|c.infos| - 1) ==> GetParamDefine(s1, paramName, asked, select) == (true, value)
  {
  }

  /**
   * Round trip: after an accepted `delegate`, a selector that picks the new
   * registration makes the class delegated, and `getDelegated` returns that
   * registration with its chain.
   */
  lemma DelegateThenGetDelegated(st: Store, className: string, callable: Value, args: PhpArray,
                                 chain: Chain, asked: Chain, select: Selector, canExecute: Value -> bool)
    requires canExecute(callable)
    ensures Delegate(st, className, callable, args, chain, canExecute).Success?
    ensures var s1 := Delegate(st, className, callable, args, chain, canExecute).value;
      var c := s1.delegates[Normalize(className)];
      select(asked, Chains(c)) == Some(|c.infos| - 1) ==>
        && IsDelegated(s1, Normalize(className), asked, select)
        && GetDelegated(s1, className, asked, select) == Some(ProviderInfo(Delegation(callable, args), chain))
  {
  }

  // ---------------------------------------------------------------- aliases

  /** Aliases do not chain: after `A -> B` and `B -> C`, `A` resolves to `B`. */
  lemma ResolveAliasSingleHop(st: Store, a: string, b: string, c: string)
    requires IsAliasName(Str(a)) && IsAliasName(Str(b)) && IsAliasName(Str(c))
    requires Normalize(a) != Normalize(b)
    requires !IsSet(st, Normalize(a)) && !IsSet(st, Normalize(b))
    ensures Alias(st, Str(a), Str(b)).Success?
    ensures var s1 := Alias(st, Str(a), Str(b)).value;
      && Alias(s1, Str(b), Str(c)).Success?
      && ResolveAlias(Alias(s1, Str(b), Str(c)).value, a) == (b, Normalize(b))
  {
    var s1 := Alias(st, Str(a), Str(b)).value;
    assert !IsSet(s1, Normalize(b));
  }

  /**
   * As written, a share by name blocks a later alias of the same class: the
   * entry is a collection object, so `isset` holds, and the error names the
   * collection's class rather than a shared instance's.
   */
  lemma AliasAfterShareByNameRejected(st: Store, iface: string, impl: string, chain: Chain)
    requires IsAliasName(Str(iface)) && IsAliasName(Str(impl))
    requires Normalize(iface) !in st.aliases
    requires Normalize(iface) !in st.shared
    ensures Share(st, Str(iface), chain).Success?
    ensures Alias(Share(st, Str(iface), chain).value, Str(iface), Str(impl))
         == Failure(SharedCannotAlias(Normalize(CollectionClassName), impl))
  {
    var s1 := Share(st, Str(iface), chain).value;
    assert ResolveAlias(st, iface).1 == Normalize(iface);
    assert IsSet(s1, Normalize(iface));
  }

  /** As written, the pending share only moves once `refresh` has set the entry to NULL. */
  lemma AliasAfterRefreshMigrates(st: Store, iface: string, impl: string, chain: Chain)
    requires IsAliasName(Str(iface)) && IsAliasName(Str(impl))
    requires Normalize(iface) != Normalize(impl)
    requires Normalize(iface) !in st.aliases
    requires Normalize(iface) !in st.shared
    ensures Share(st, Str(iface), chain).Success?
    ensures var s1 := Refresh(Share(st, Str(iface), chain).value, ByName(iface));
      && Alias(s1, Str(iface), Str(impl)).Success?
      && Normalize(impl) in Alias(s1, Str(iface), Str(impl)).value.shared
      && Normalize(iface) !in Alias(s1, Str(iface), Str(impl)).value.shared
  {
    var s0 := Share(st, Str(iface), chain).value;
    assert ResolveAlias(st, iface).1 == Normalize(iface);
    assert IsSet(s0, Normalize(iface));
    var s1 := Refresh(s0, ByName(iface));
    assert Normalize(iface) in s1.shared && !IsSet(s1, Normalize(iface));
  }

  /**
   * Corrected: a share by name is pending, so the alias succeeds and the
   * share moves to the target's key, where `resolveAlias` finds it.
   */
  lemma AliasCorrectedAfterShareByName(st: Store, iface: string, impl: string, chain: Chain)
    requires IsAliasName(Str(iface)) && IsAliasName(Str(impl))
    requires Normalize(iface) != Normalize(impl)
    requires Normalize(iface) !in st.aliases
    requires Normalize(iface) !in st.shared
    ensures Share(st, Str(iface), chain).Success?
    ensures var s1 := Share(st, Str(iface), chain).value;
      && AliasCorrected(s1, Str(iface), Str(impl)).Success?
      && var s2 := AliasCorrected(s1, Str(iface), Str(impl)).value;
         var key := ResolveAlias(s2, iface).1;
         && key == Normalize(impl)
         && key in s2.shared
         && s2.shared[key] == Some(Create(Null, chain))
         && Normalize(iface) !in s2.shared
  {
    var s1 := Share(st, Str(iface), chain).value;
    assert s1.shared[Normalize(iface)] == Some(Create(Null, chain));
    assert FirstInstance(Create(Null, chain).infos).None?;
  }

  /** Corrected: a class whose shared entry holds an instance still cannot be aliased. */
  lemma AliasCorrectedAfterShareObjectRejected(st: Store, obj: Instance, impl: string, chain: Chain)
    requires IsAliasName(Str(obj.className)) && IsAliasName(Str(impl))
    requires Normalize(obj.className) !in st.aliases
    requires Normalize(obj.className) !in st.shared
    ensures Share(st, Obj(obj), chain).Success?
    ensures AliasCorrected(Share(st, Obj(obj), chain).value, Str(obj.className), Str(impl))
         == Failure(SharedCannotAlias(Normalize(obj.className), impl))
  {
    var s1 := Share(st, Obj(obj), chain).value;
    assert s1.shared[Normalize(obj.className)].value.infos == [ProviderInfo(Obj(obj), chain)];
  }

  // ---------------------------------------------------------------- shared-entry lifecycle

  /** Sharing by name again changes nothing. */
  lemma ShareClassIdempotent(st: Store, className: string, chain: Chain, again: Chain)
    ensures ShareClass(ShareClass(st, className, chain), className, again) == ShareClass(st, className, chain)
  {
  }

  /** Two objects of one class shared in turn are both kept, in order. */
  lemma ShareObjectAccumulates(st: Store, first: Instance, second: Instance, chain: Chain, again: Chain)
    requires Normalize(first.className) == Normalize(second.className)
    requires Normalize(first.className) !in st.aliases
    requires Normalize(first.className) !in st.shared
    ensures ShareObject(st, first, chain).Success?
    ensures var s1 := ShareObject(st, first, chain).value;
      && ShareObject(s1, second, again).Success?
      && ShareObject(s1, second, again).value.shared[Normalize(first.className)]
         == Some(Collection([ProviderInfo(Obj(first), chain), ProviderInfo(Obj(second), again)]))
  {
    assert [ProviderInfo(Obj(first), chain)] + [ProviderInfo(Obj(second), again)]
        == [ProviderInfo(Obj(first), chain), ProviderInfo(Obj(second), again)];
  }

  /** Sharing an object after its class was refreshed calls `addInfo` on NULL. */
  lemma ShareObjectAfterRefreshFails(st: Store, first: Instance, second: Instance, chain: Chain)
    requires Normalize(first.className) == Normalize(second.className)
    requires Normalize(first.className) !in st.aliases
    ensures ShareObject(st, first, chain).Success? ==>
      ShareObject(Refresh(ShareObject(st, first, chain).value, ByInstance(first)), second, chain)
        == Failure(NullCollection)
  {
  }

  /** Unsharing then refreshing an absent class leaves the store as it was. */
  lemma UnshareRefreshAbsentNoOp(st: Store, ref: ClassRef)
    requires Normalize(ClassName(ref)) !in st.shared
    ensures Unshare(st, ref) == st
    ensures Refresh(st, ref) == st
  {
  }

  // ---------------------------------------------------------------- prepares

  /** The last prepare registered for a key is the one returned, alone, for that interface. */
  lemma PrepareLastWriteWins(st: Store, iface: string, first: Value, second: Value,
                             canExecute: Value -> bool)
    requires canExecute(first) && canExecute(second)
    ensures Prepare(st, iface, first, canExecute).Success?
    ensures var s1 := Prepare(st, iface, first, canExecute).value;
      && Prepare(s1, iface, second, canExecute).Success?
      && GetPrepareDefine(Prepare(s1, iface, second, canExecute).value, iface) == Some(second)
  {
  }

  /** A non-executable mutator is rejected with E_CALLABLE. */
  lemma PrepareRejectsNonExecutable(st: Store, name: string, executable: Value, canExecute: Value -> bool)
    requires !canExecute(executable)
    ensures Prepare(st, name, executable, canExecute) == Failure(NotCallable)
  {
  }
}
