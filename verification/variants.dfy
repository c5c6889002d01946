/**
 * The two plugins are meant to be interchangeable. This module relates
 * them: on aliases, prepares and the status of shared entries (absent,
 * pending, holding an instance) the chain-aware store, with `alias`
 * corrected, stays in step with the standard store; with `alias` as
 * written it does not.
 */
module VariantAgreement {
  import opened Wrappers
  import opened PhpValues
  import opened Naming
  import opened Registry
  import InfoCollection
  import S = StandardStore
  import C = ChainStore

  /** A standard shared entry holds an instance exactly when the chain entry does. */
  ghost predicate SameStatus(entry: Option<Instance>, collection: Option<InfoCollection.Collection<Value>>) {
    entry.Some? <==> (collection.Some? && C.FirstInstance(collection.value.infos).Some?)
  }

  /** The same keys, and at each an instance in both maps or in neither. */
  ghost predicate SharedCorrespond(sm: map<string, Option<Instance>>,
                                   cm: map<string, Option<InfoCollection.Collection<Value>>>) {
    && sm.Keys == cm.Keys
    && forall k :: k in sm ==> SameStatus(sm[k], cm[k])
  }

  /** Same aliases and prepares, the same shared keys, and instances held at the same keys. */
  ghost predicate Corresponds(s: S.Store, c: C.Store) {
    && s.aliases == c.aliases
    && s.prepares == c.prepares
    && SharedCorrespond(s.shared, c.shared)
  }

  /**
   * An update of both shared maps that touches only `keys`, and leaves each
   * of them present in both with the same status or absent from both, keeps
   * the maps in step.
   */
  lemma UpdateKeepsSharedCorrespond(sm: map<string, Option<Instance>>, sm1: map<string, Option<Instance>>,
                                    cm: map<string, Option<InfoCollection.Collection<Value>>>,
                                    cm1: map<string, Option<InfoCollection.Collection<Value>>>,
                                    keys: set<string>)
    requires SharedCorrespond(sm, cm)
    requires AgreeExcept(sm, sm1, keys) && AgreeExcept(cm, cm1, keys)
    requires forall k :: k in keys ==> (k in sm1 <==> k in cm1)
    requires forall k :: k in keys && k in sm1 && k in cm1 ==> SameStatus(sm1[k], cm1[k])
    ensures SharedCorrespond(sm1, cm1)
  {
    forall k | k in sm1
      ensures k in cm1 && SameStatus(sm1[k], cm1[k])
    {
      if k !in keys {
        assert k in sm && sm1[k] == sm[k];
      }
    }
    forall k | k in cm1
      ensures k in sm1
    {
      if k !in keys {
        assert k in cm;
      }
    }
  }

  lemma CorrespondingHoldInstance(s: S.Store, c: C.Store, key: string)
    requires Corresponds(s, c)
    ensures S.HoldsInstance(s, key) <==> C.HoldsInstance(c, key)
  {
  }

  lemma EmptyStoresCorrespond()
    ensures Corresponds(S.Empty, C.Empty)
  {
  }

  lemma ResolveAliasAgrees(s: S.Store, c: C.Store, className: string)
    requires Corresponds(s, c)
    ensures S.ResolveAlias(s, className) == C.ResolveAlias(c, className)
  {
  }

  lemma InterfacePreparesAgree(s: S.Store, c: C.Store, interfaces: seq<string>)
    requires Corresponds(s, c)
    ensures S.GetInterfacePrepares(s, interfaces) == C.GetInterfacePrepares(c, interfaces)
  {
  }

  lemma PrepareKeepsCorrespondence(s: S.Store, c: C.Store, name: string, executable: Value,
                                   canExecute: Value -> bool)
    requires Corresponds(s, c)
    ensures S.Prepare(s, name, executable, canExecute).Success?
        <==> C.Prepare(c, name, executable, canExecute).Success?
    ensures S.Prepare(s, name, executable, canExecute).Success? ==>
      Corresponds(S.Prepare(s, name, executable, canExecute).value, C.Prepare(c, name, executable, canExecute).value)
  {
  }

  /** With the corrected `alias`, both stores accept and reject the same aliases and stay in step. */
  lemma AliasCorrectedKeepsCorrespondence(s: S.Store, c: C.Store, typehint: Value, alias: Value)
    requires Corresponds(s, c)
    ensures S.Alias(s, typehint, alias).Success? <==> C.AliasCorrected(c, typehint, alias).Success?
    ensures S.Alias(s, typehint, alias).Success? ==>
      Corresponds(S.Alias(s, typehint, alias).value, C.AliasCorrected(c, typehint, alias).value)
  {
    if IsAliasName(typehint) && IsAliasName(alias) {
      var t := Normalize(typehint.s);
      CorrespondingHoldInstance(s, c, t);
      if !S.HoldsInstance(s, t) {
        var s1 := S.Alias(s, typehint, alias).value;
        var c1 := C.AliasCorrected(c, typehint, alias).value;
        if t in s.shared {
          AliasCorrectedMovesEntry(s, c, typehint, alias);
          UpdateKeepsSharedCorrespond(s.shared, s1.shared, c.shared, c1.shared, {t, Normalize(alias.s)});
        }
      }
    }
  }

  /** A pending entry moves from the typehint's key to the alias's key in both stores. */
  lemma AliasCorrectedMovesEntry(s: S.Store, c: C.Store, typehint: Value, alias: Value)
    requires Corresponds(s, c)
    requires IsAliasName(typehint) && IsAliasName(alias)
    requires Normalize(typehint.s) in s.shared && !S.HoldsInstance(s, Normalize(typehint.s))
    ensures S.Alias(s, typehint, alias).Success? && C.AliasCorrected(c, typehint, alias).Success?
    ensures var t := Normalize(typehint.s);
      var a := Normalize(alias.s);
      var sm1 := S.Alias(s, typehint, alias).value.shared;
      var cm1 := C.AliasCorrected(c, typehint, alias).value.shared;
      && AgreeExcept(s.shared, sm1, {t, a}) && AgreeExcept(c.shared, cm1, {t, a})
      && t !in sm1 && t !in cm1
      && (a != t ==> a in sm1 && a in cm1 && SameStatus(sm1[a], cm1[a]))
  {
    CorrespondingHoldInstance(s, c, Normalize(typehint.s));
    assert SameStatus(s.shared[Normalize(typehint.s)], c.shared[Normalize(typehint.s)]);
  }

  lemma ShareClassKeepsCorrespondence(s: S.Store, c: C.Store, className: string, chain: InfoCollection.Chain)
    requires Corresponds(s, c)
    ensures Corresponds(S.ShareClass(s, className), C.ShareClass(c, className, chain))
  {
    var n := S.ResolveAlias(s, className).1;
    ShareClassStatusAtKey(s, c, className, chain);
    ShareClassTouchesOnlyKey(s, c, className, chain);
    UpdateKeepsSharedCorrespond(s.shared, S.ShareClass(s, className).shared,
                                c.shared, C.ShareClass(c, className, chain).shared, {n});
  }

  /** At the shared key, both stores end up pending or keep the instance they held. */
  lemma ShareClassStatusAtKey(s: S.Store, c: C.Store, className: string, chain: InfoCollection.Chain)
    requires Corresponds(s, c)
    ensures var n := S.ResolveAlias(s, className).1;
      var sm1 := S.ShareClass(s, className).shared;
      var cm1 := C.ShareClass(c, className, chain).shared;
      n in sm1 && n in cm1 && SameStatus(sm1[n], cm1[n])
  {
    var n := S.ResolveAlias(s, className).1;
    assert n == C.ResolveAlias(c, className).1;
    if n in c.shared {
      assert SameStatus(s.shared[n], c.shared[n]);
    } else {
      assert C.FirstInstance(InfoCollection.Create(Null, chain).infos).None?;
    }
  }

  /** Both stores change the shared map at the class's key only. */
  lemma ShareClassTouchesOnlyKey(s: S.Store, c: C.Store, className: string, chain: InfoCollection.Chain)
    requires s.aliases == c.aliases && s.prepares == c.prepares
    ensures var n := S.ResolveAlias(s, className).1;
      && AgreeExcept(s.shared, S.ShareClass(s, className).shared, {n})
      && AgreeExcept(c.shared, C.ShareClass(c, className, chain).shared, {n})
      && S.ShareClass(s, className).aliases == C.ShareClass(c, className, chain).aliases
      && S.ShareClass(s, className).prepares == C.ShareClass(c, className, chain).prepares
  {
  }

  /** An info list that ends with an object holds an instance. */
  lemma AppendedObjectHoldsInstance(infos: seq<InfoCollection.ProviderInfo<Value>>, obj: Instance,
                                    chain: InfoCollection.Chain)
    ensures C.FirstInstance(infos + [InfoCollection.ProviderInfo(Obj(obj), chain)]).Some?
  {
    var all := infos + [InfoCollection.ProviderInfo(Obj(obj), chain)];
    C.FirstInstanceIsFirst(all);
    assert all[|all| - 1].information.Obj?;
  }

  /**
   * Sharing an object keeps the stores in step, except on a refreshed
   * chain entry, where the chain store fails (`addInfo` on NULL).
   */
  lemma ShareObjectKeepsCorrespondence(s: S.Store, c: C.Store, obj: Instance, chain: InfoCollection.Chain)
    requires Corresponds(s, c)
    requires var n := Normalize(obj.className); !(n in c.shared && c.shared[n].None?)
    ensures S.ShareObject(s, obj).Success? <==> C.ShareObject(c, obj, chain).Success?
    ensures S.ShareObject(s, obj).Success? ==>
      Corresponds(S.ShareObject(s, obj).value, C.ShareObject(c, obj, chain).value)
  {
    var n := Normalize(obj.className);
    if n !in s.aliases {
      var sm1 := S.ShareObject(s, obj).value.shared;
      var cm1 := C.ShareObject(c, obj, chain).value.shared;
      var before := if n in c.shared then c.shared[n].value.infos else [];
      AppendedObjectHoldsInstance(before, obj, chain);
      assert SameStatus(sm1[n], cm1[n]);
      UpdateKeepsSharedCorrespond(s.shared, sm1, c.shared, cm1, {n});
    }
  }

  lemma UnshareKeepsCorrespondence(s: S.Store, c: C.Store, ref: ClassRef)
    requires Corresponds(s, c)
    ensures Corresponds(S.Unshare(s, ref), C.Unshare(c, ref))
  {
    UpdateKeepsSharedCorrespond(s.shared, S.Unshare(s, ref).shared, c.shared, C.Unshare(c, ref).shared,
                                {Normalize(ClassName(ref))});
  }

  lemma RefreshKeepsCorrespondence(s: S.Store, c: C.Store, ref: ClassRef)
    requires Corresponds(s, c)
    ensures Corresponds(S.Refresh(s, ref), C.Refresh(c, ref))
  {
    var n := Normalize(ClassName(ref));
    RefreshStatusAtKey(s, c, ref);
    UpdateKeepsSharedCorrespond(s.shared, S.Refresh(s, ref).shared, c.shared, C.Refresh(c, ref).shared, {n});
  }

  /** A refreshed key is pending in both stores, or was left alone by both. */
  lemma RefreshStatusAtKey(s: S.Store, c: C.Store, ref: ClassRef)
    requires Corresponds(s, c)
    ensures var n := Normalize(ClassName(ref));
      var sm1 := S.Refresh(s, ref).shared;
      var cm1 := C.Refresh(c, ref).shared;
      && AgreeExcept(s.shared, sm1, {n}) && AgreeExcept(c.shared, cm1, {n})
      && (n in sm1 <==> n in cm1)
      && (n in sm1 && n in cm1 ==> SameStatus(sm1[n], cm1[n]))
  {
    var n := Normalize(ClassName(ref));
    CorrespondingHoldInstance(s, c, n);
    if n in s.shared {
      assert SameStatus(s.shared[n], c.shared[n]);
    }
  }

  /**
   * With `alias` as written the variants part ways on the first step
   * after a share by name: the standard store accepts the alias, the chain
   * store rejects it.
   */
  lemma AliasAsWrittenBreaksCorrespondence(s: S.Store, c: C.Store, iface: string, impl: string,
                                           chain: InfoCollection.Chain)
    requires Corresponds(s, c)
    requires IsAliasName(Str(iface)) && IsAliasName(Str(impl))
    requires Normalize(iface) !in s.aliases && Normalize(iface) !in s.shared
    ensures Corresponds(S.ShareClass(s, iface), C.ShareClass(c, iface, chain))
    ensures S.Alias(S.ShareClass(s, iface), Str(iface), Str(impl)).Success?
    ensures C.Alias(C.ShareClass(c, iface, chain), Str(iface), Str(impl)).Failure?
  {
    ShareClassKeepsCorrespondence(s, c, iface, chain);
    assert S.ResolveAlias(s, iface).1 == Normalize(iface);
    assert C.IsSet(C.ShareClass(c, iface, chain), Normalize(iface));
  }
}
