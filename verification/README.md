# Auryn provider configuration store, in Dafny

Auryn is a PHP dependency-injection container. Its `Provider` hands every
configuration call to a provider plugin. The plugin keeps the container's
configuration:

- class definitions (injection definitions);
- global parameter defaults;
- aliases (type to implementation);
- shared classes and instances;
- delegate factories;
- prepare callbacks.

Two plugins exist:

- `StandardProviderPlugin` keeps one value per key.
- `ClassConstructorChainProviderPlugin` keeps, per key, a
  `ProviderInfoCollection`. That is an ordered list of registrations, each
  tagged with the constructor chain it was registered for. One is picked
  per lookup.

This project models both plugins as pure functions over immutable stores.
It proves the rules the plugins and their tests promise.

Files:

- `naming.dfy` (`Naming`): class-name normalisation (`strtolower` then `ltrim '\'`) and the facts about it.
- `validation.dfy` (`Validation`): `validateInjectionDefinition`.
- `registry.dfy` (`Registry`): the map logic both plugins share word for word, meaning alias resolution, prepare lookup and interface prepares. It also holds the vocabulary for "this call changed only that key".
- `standard_store.dfy`, `standard_properties.dfy`: the single-value plugin and its properties. These include a key invariant preserved by any sequence of configuration calls.
- `info_collection.dfy`, `chain_store.dfy`, `chain_properties.dfy`: the chain-aware plugin and its properties.
- `variants.dfy` (`VariantAgreement`): the two plugins compared. With `alias` corrected, the chain plugin stays in step with the standard one on aliases, prepares and shared-entry status. With `alias` as written, it does not.
- `php_values.dfy`, `config_errors.dfy`, `wrappers.dfy`: PHP values (with `empty()`), the error codes the plugins raise, and `Option`/`Result`.

How the model represents the plugins:

- Exceptions are `Failure(error)` results.
- In the standard store, a shared entry is `None` while pending (shared by name, or refreshed) and `Some(instance)` once it holds an object.
- In the chain store, a shared entry is `Some(collection)` until it is refreshed. A share by name creates a collection whose one registration is NULL. `refresh` sets the entry to `None` (PHP NULL). The entry holds an instance when some registration is an object.
- PHP `isset` is "present and not NULL". `array_key_exists` is "present".
- `is_callable`/`Executable` checks are a parameter `canExecute: Value -> bool`.
- The collection's matching rule (`getBestMatchingInfo`) is a parameter `select`.

## Model

| member | source | states |
|---|---|---|
| Naming.Normalize | lib/Plugin/StandardProviderPlugin.php:47-49 | A key is lower-case and never starts with a namespace separator. |
| Naming.StripLeavesSuffix | lib/Plugin/StandardProviderPlugin.php:48 | `ltrim` of the separator leaves a suffix of its input and removes only separators. |
| Naming.NormalizeStripsLowercased | lib/Plugin/StandardProviderPlugin.php:47-49 | The key is what remains of the lower-cased name after all leading separators are cut. |
| Naming.NormalizeIdempotent | lib/Plugin/StandardProviderPlugin.php:47-49 | Normalising a key gives the same key, so every stored key is a fixed point. |
| Naming.NormalizeIgnoresLeadingSeparator | lib/Plugin/StandardProviderPlugin.php:47-49 | `\Foo` and `Foo` share a key. |
| Naming.SpellingsShareKey | lib/Plugin/StandardProviderPlugin.php:47-49 | Spellings that differ only in ASCII letter case and in the number of leading separators share a key. |
| Naming.NormalizeAll | lib/Plugin/StandardProviderPlugin.php:281 | `array_map` of the normaliser keeps the length and normalises each element in place. |
| Validation.FirstInvalid | lib/Plugin/StandardProviderPlugin.php:19-28 | Finds nothing exactly when the definition is valid. Otherwise finds the earliest entry with an unprefixed key and a non-string value. |
| Validation.ValidateInjectionDefinition | lib/Plugin/StandardProviderPlugin.php:19-28 | Passes exactly when every unprefixed key maps to a string. A failure is E_RAW_PREFIX for the first offending key. |
| Registry.FollowAlias | lib/Plugin/StandardProviderPlugin.php:339-347 | Exactly one hop: an aliased name yields the stored target as spelled; any other name yields itself. The second component is always the first one's key. |
| Registry.PrepareDefine | lib/Plugin/StandardProviderPlugin.php:270-278 | A mutator is found exactly when one is registered under the name's key, and it is that one. |
| Registry.InterfacePrepares | lib/Plugin/StandardProviderPlugin.php:280-286 | The result is the part of the prepares map whose keys are keys of the listed interfaces: a sub-map that leaves none of them out. |
| StandardStore.Define | lib/Plugin/StandardProviderPlugin.php:59-65 | Fails exactly on an invalid definition, with E_RAW_PREFIX. Otherwise replaces the class's definition under its key and changes nothing else. |
| StandardStore.GetDefinition | lib/Plugin/StandardProviderPlugin.php:289-297 | The definition stored under the class's key, whichever spelling is asked; the empty array when the class has none. |
| StandardStore.DefineParam | lib/Plugin/StandardProviderPlugin.php:78-82 | Stores the value under the exact parameter name and changes nothing else. |
| StandardStore.GetParamDefine | lib/Plugin/StandardProviderPlugin.php:84-94 | `(true, v)` exactly when the name is defined, NULL values included; `(false, null)` otherwise. |
| StandardStore.Alias | lib/Plugin/StandardProviderPlugin.php:107-139 | Non-string or `empty()` arguments give E_NON_EMPTY_STRING_ALIAS. Fails exactly when the typehint's shared entry holds an instance, naming that instance's class. On success records the target under the typehint's key and moves a pending share to the target's key. Nothing else changes. |
| StandardStore.ResolveAlias | lib/Plugin/StandardProviderPlugin.php:339-347 | One hop through the alias map, with the key of the result. |
| StandardStore.ShareClass | lib/Plugin/StandardProviderPlugin.php:306-312 | The alias-resolved key is shared afterwards. An instance already there is kept; anything else becomes pending. Only that key changes. |
| StandardStore.ShareObject | lib/Plugin/StandardProviderPlugin.php:315-325 | Fails exactly when the object's class is aliased, with E_ALIASED_CANNOT_SHARE naming the alias target. Otherwise stores the instance under the class's key, overwriting. |
| StandardStore.Share | lib/Plugin/StandardProviderPlugin.php:158-171 | A string shares by name, an object as an instance. Anything else, and only that, gives E_SHARE_ARGUMENT. |
| StandardStore.Unshare | lib/Plugin/StandardProviderPlugin.php:180-189 | Removes the class's shared entry and nothing else. |
| StandardStore.Refresh | lib/Plugin/StandardProviderPlugin.php:198-208 | An entry holding an instance becomes pending. Otherwise the store is unchanged. |
| StandardStore.ShareIfNeeded | lib/Plugin/StandardProviderPlugin.php:300-304 | Records the object only under a key that is already shared, used as given. It never adds a key. |
| StandardStore.GetShared | lib/Plugin/StandardProviderPlugin.php:327-337 | Yields an instance exactly when the key holds one. Absent and pending keys both yield null. |
| StandardStore.Delegate | lib/Plugin/StandardProviderPlugin.php:221-235 | Fails exactly for a non-executable factory (E_DELEGATE_ARGUMENT). Otherwise replaces the class's delegate and changes nothing else. |
| StandardStore.GetDelegated | lib/Plugin/StandardProviderPlugin.php:237-244 | Finds a delegate exactly when `isDelegated` holds for the class's key, and it is the one stored there. |
| StandardStore.Prepare | lib/Plugin/StandardProviderPlugin.php:255-267 | Fails exactly for a non-executable mutator (E_CALLABLE). Otherwise stores it under the name's key. |
| StandardStore.GetPrepareDefine | lib/Plugin/StandardProviderPlugin.php:270-278 | A mutator is found exactly when the name's key has one. |
| StandardStore.GetInterfacePrepares | lib/Plugin/StandardProviderPlugin.php:280-286 | The prepares registered under the keys of the listed interfaces, and only those. |
| StandardProperties.RunPreservesWellKeyed | lib/Plugin/StandardProviderPlugin.php:47-347 | Every map keyed by class names keeps only normalised keys through any sequence of configuration calls. |
| StandardProperties.ApplyPreservesWellKeyed | lib/Plugin/StandardProviderPlugin.php:59-325 | Each single configuration call keeps the key invariant. |
| StandardProperties.AliasPreservesWellKeyed | lib/Plugin/StandardProviderPlugin.php:129-136 | Moving a pending share to the alias's key keeps every shared key normalised. |
| StandardProperties.DefineThenGetDefinition | lib/Plugin/StandardProviderPlugin.php:59-65 | A defined class's definition is returned under any spelling with the same key. |
| StandardProperties.DefineLastWriteWins | lib/Plugin/StandardProviderPlugin.php:59-65 | A second define of a class leaves the store as if only the second had been made. |
| StandardProperties.DefineRejectsUnprefixedInteger | test/src/Auryn/ProviderTest.php:296-313 | `array('int' => 42)` is rejected with E_RAW_PREFIX for key `int`. |
| StandardProperties.DefineAcceptsRawValues | lib/Plugin/StandardProviderPlugin.php:21 | Prefixed keys accept non-string values, NULL included. |
| StandardProperties.DefineParamRoundTrip | lib/Plugin/StandardProviderPlugin.php:78-94 | `getParamDefine` returns `(true, v)` for what `defineParam` stored, NULL included. |
| StandardProperties.DefineParamKeysExactly | lib/Plugin/StandardProviderPlugin.php:78-82 | Parameter names are not normalised: other spellings are unaffected. |
| StandardProperties.AliasRejectsZeroString | lib/Plugin/StandardProviderPlugin.php:108-118 | `"0"` is `empty()`, so it is refused in either argument. |
| StandardProperties.ResolveAliasSingleHop | lib/Plugin/StandardProviderPlugin.php:339-347 | After `A -> B` and `B -> C`, `A` resolves to `B`, not `C`. |
| StandardProperties.ShareByNameThenAlias | test/src/Auryn/ProviderTest.php:589-596 | Share by name, then alias: the pending share moves to the target's key, and the instance recorded there is found through the aliased name. |
| StandardProperties.AliasThenShareByName | test/src/Auryn/ProviderTest.php:580-587 | Alias, then share the aliased name: the share lands on the target's key. |
| StandardProperties.ShareObjectOfAliasedClassRejected | lib/Plugin/StandardProviderPlugin.php:315-323 | Sharing an instance of an aliased class fails with E_ALIASED_CANNOT_SHARE naming the target. |
| StandardProperties.ShareObjectOfAliasTargetAllowed | test/src/Auryn/ProviderTest.php:607-614 | An instance of the alias target can be shared and is found through the aliased name. |
| StandardProperties.AliasAfterShareObjectRejected | lib/Plugin/StandardProviderPlugin.php:123-128 | Aliasing a class whose instance is shared fails with E_SHARED_CANNOT_ALIAS naming that class. |
| StandardProperties.SelfAliasDropsPendingShare | lib/Plugin/StandardProviderPlugin.php:133-136 | Aliasing a pending-shared class to a spelling with the same key deletes its shared entry. |
| StandardProperties.RefreshKeepsClassShared | test/src/Auryn/ProviderTest.php:342-351 | After share, build and refresh, the instance is forgotten but the class stays shared, and the next build is recorded. |
| StandardProperties.RepeatedShareKeepsInstance | test/src/Auryn/ProviderTest.php:616-623 | Sharing a class by name again keeps the instance already built. |
| StandardProperties.UnshareObjectRemovesEntry | test/src/Auryn/ProviderTest.php:678-687 | Unsharing by the shared object removes its class's entry. |
| StandardProperties.ShareIfNeededOnlyUpdates | lib/Plugin/StandardProviderPlugin.php:300-304 | `shareIfNeeded` never starts sharing a class. |
| StandardProperties.DelegateThenLookup | lib/Plugin/StandardProviderPlugin.php:221-244 | A registered delegate is seen by `isDelegated` on its key and returned by `getDelegated` for any spelling. |
| StandardProperties.PrepareThenInterfacePrepares | lib/Plugin/StandardProviderPlugin.php:255-286 | A prepare registered for an interface is returned for any list naming that interface. |
| InfoCollection.Create | lib/Plugin/ClassConstructorChainProviderPlugin.php:80 | A new collection holds exactly the one registration with its chain. |
| InfoCollection.AddInfo | lib/Plugin/ClassConstructorChainProviderPlugin.php:83 | `addInfo` keeps every earlier registration, in order, and appends the new one. |
| InfoCollection.BestMatching | lib/Plugin/ClassConstructorChainProviderPlugin.php:344-346 | A best match is always a position inside the collection. |
| ChainStore.Define | lib/Plugin/ClassConstructorChainProviderPlugin.php:76-87 | Fails exactly on an invalid definition. Otherwise appends the definition with its chain to the class's collection, creating it on first use. |
| ChainStore.GetDefinition | lib/Plugin/ClassConstructorChainProviderPlugin.php:340-351 | The definition of the registration the selector picks for the chain, under the class's key. The empty array when the class has no definitions or nothing matches. |
| ChainStore.DefineParam | lib/Plugin/ClassConstructorChainProviderPlugin.php:100-109 | Appends the value with its chain under the exact parameter name. |
| ChainStore.GetParamDefine | lib/Plugin/ClassConstructorChainProviderPlugin.php:115-127 | `(true, v)` exactly when the name is defined and the selector picks a registration for the chain, `v` being that registration's value. `(false, null)` otherwise. |
| ChainStore.Alias | lib/Plugin/ClassConstructorChainProviderPlugin.php:140-172 | As written: fails exactly when the typehint's entry is set, naming the collection class. Otherwise the same migration as the standard plugin. |
| ChainStore.FirstInstanceIsFirst | lib/Plugin/ClassConstructorChainProviderPlugin.php:156-161 | The instance search finds nothing exactly when no registration is an object, and otherwise finds the earliest object. |
| ChainStore.AliasCorrected | lib/Plugin/ClassConstructorChainProviderPlugin.php:140-172 | Corrected: fails exactly when the entry holds an instance, naming its class. A pending entry moves to the target's key unchanged. |
| ChainStore.ShareClass | lib/Plugin/ClassConstructorChainProviderPlugin.php:364-370 | Creates a pending collection on the alias-resolved key only when the key is absent. Otherwise the store is unchanged. |
| ChainStore.ShareObject | lib/Plugin/ClassConstructorChainProviderPlugin.php:373-390 | Fails for an aliased class (E_ALIASED_CANNOT_SHARE) and for a refreshed NULL entry, and only then. Otherwise appends the object with its chain. |
| ChainStore.Share | lib/Plugin/ClassConstructorChainProviderPlugin.php:191-204 | Dispatches on string or object. Anything else gives E_SHARE_ARGUMENT. |
| ChainStore.Unshare | lib/Plugin/ClassConstructorChainProviderPlugin.php:213-222 | Removes the class's entry; an absent class leaves the store unchanged. |
| ChainStore.Refresh | lib/Plugin/ClassConstructorChainProviderPlugin.php:231-241 | A set entry becomes NULL. Otherwise the store is unchanged. |
| ChainStore.Delegate | lib/Plugin/ClassConstructorChainProviderPlugin.php:254-274 | Fails exactly for a non-executable factory. Otherwise appends the delegation with its chain. |
| ChainStore.GetDelegated | lib/Plugin/ClassConstructorChainProviderPlugin.php:287-295 | Finds a registration exactly when `isDelegated` holds for the key, and it is the one the selector picked. |
| ChainStore.Prepare | lib/Plugin/ClassConstructorChainProviderPlugin.php:306-318 | Fails exactly for a non-executable mutator. Otherwise one mutator per key; the last write wins. |
| ChainStore.GetPrepareDefine | lib/Plugin/ClassConstructorChainProviderPlugin.php:321-329 | A mutator is found exactly when the name's key has one. |
| ChainStore.GetInterfacePrepares | lib/Plugin/ClassConstructorChainProviderPlugin.php:331-337 | The prepares under the keys of the listed interfaces, and only those. |
| ChainProperties.DefineAccumulates | lib/Plugin/ClassConstructorChainProviderPlugin.php:79-84 | Two defines of a class keep both registrations, in order, each with its chain. |
| ChainProperties.DefineRejectsInvalid | lib/Plugin/ClassConstructorChainProviderPlugin.php:37-46 | An invalid definition is rejected with E_RAW_PREFIX whatever the store holds. |
| ChainProperties.IsParamDefinedIgnoresChain | lib/Plugin/ClassConstructorChainProviderPlugin.php:111-113 | `isParamDefined` holds exactly for defined names, whatever chain is asked about. |
| ChainProperties.DefineParamAccumulates | lib/Plugin/ClassConstructorChainProviderPlugin.php:100-109 | A second `defineParam` adds to the name's collection. |
| ChainProperties.DefineThenGetDefinition | lib/Plugin/ClassConstructorChainProviderPlugin.php:340-351 | After an accepted define, a selector that picks the new registration makes `getDefinition`, under any spelling of the class, return the definition just given. |
| ChainProperties.DefineParamThenGetParamDefine | lib/Plugin/ClassConstructorChainProviderPlugin.php:115-127 | After `defineParam`, a selector that picks the new registration makes `getParamDefine` return `(true, value)`. |
| ChainProperties.DelegateThenGetDelegated | lib/Plugin/ClassConstructorChainProviderPlugin.php:254-295 | After an accepted delegate, a selector that picks the new registration makes the class delegated and `getDelegated` return that registration with its chain. |
| ChainProperties.ResolveAliasSingleHop | lib/Plugin/ClassConstructorChainProviderPlugin.php:404-412 | Aliases do not chain. |
| ChainProperties.AliasAfterShareByNameRejected | lib/Plugin/ClassConstructorChainProviderPlugin.php:156-161 | As written, share by name then alias fails with E_SHARED_CANNOT_ALIAS naming the collection class. |
| ChainProperties.AliasAfterRefreshMigrates | lib/Plugin/ClassConstructorChainProviderPlugin.php:166-169 | As written, the pending share moves only once `refresh` has set the entry to NULL. |
| ChainProperties.AliasCorrectedAfterShareByName | test/src/Auryn/ProviderTest.php:589-596 | Corrected: share by name then alias succeeds, and the pending collection is found through the aliased name on the target's key. |
| ChainProperties.AliasCorrectedAfterShareObjectRejected | lib/Plugin/StandardProviderPlugin.php:123-128 | Corrected: a class whose entry holds an instance still cannot be aliased; the error names that class. |
| ChainProperties.ShareClassIdempotent | lib/Plugin/ClassConstructorChainProviderPlugin.php:364-370 | Sharing by name twice is the same as once. |
| ChainProperties.ShareObjectAccumulates | lib/Plugin/ClassConstructorChainProviderPlugin.php:382-387 | Two objects of one class shared in turn are both kept, in order. |
| ChainProperties.ShareObjectAfterRefreshFails | lib/Plugin/ClassConstructorChainProviderPlugin.php:385-387 | Sharing an object after its class was refreshed calls `addInfo` on NULL. |
| ChainProperties.UnshareRefreshAbsentNoOp | lib/Plugin/ClassConstructorChainProviderPlugin.php:213-241 | Unshare and refresh of an absent class change nothing. |
| ChainProperties.PrepareLastWriteWins | lib/Plugin/ClassConstructorChainProviderPlugin.php:306-329 | The last prepare for a key is the one returned. |
| ChainProperties.PrepareRejectsNonExecutable | lib/Plugin/ClassConstructorChainProviderPlugin.php:307-312 | A non-executable mutator is rejected with E_CALLABLE. |
| VariantAgreement.EmptyStoresCorrespond | lib/Plugin/ClassConstructorChainProviderPlugin.php:12-35 | The two plugins start in step. |
| VariantAgreement.ResolveAliasAgrees | lib/Plugin/ClassConstructorChainProviderPlugin.php:404-412 | Stores in step resolve every alias identically. |
| VariantAgreement.InterfacePreparesAgree | lib/Plugin/ClassConstructorChainProviderPlugin.php:331-337 | Stores in step give the same interface prepares. |
| VariantAgreement.PrepareKeepsCorrespondence | lib/Plugin/ClassConstructorChainProviderPlugin.php:306-318 | Both plugins accept the same prepares and stay in step. |
| VariantAgreement.AliasCorrectedKeepsCorrespondence | lib/Plugin/StandardProviderPlugin.php:107-139 | With the corrected alias, both plugins accept exactly the same aliases and stay in step. |
| VariantAgreement.ShareClassKeepsCorrespondence | lib/Plugin/ClassConstructorChainProviderPlugin.php:364-370 | Sharing by name keeps the plugins in step. |
| VariantAgreement.ShareObjectKeepsCorrespondence | lib/Plugin/ClassConstructorChainProviderPlugin.php:373-390 | Sharing an object succeeds in both or neither and keeps them in step, except on a refreshed chain entry. |
| VariantAgreement.UnshareKeepsCorrespondence | lib/Plugin/ClassConstructorChainProviderPlugin.php:213-222 | Unshare keeps the plugins in step. |
| VariantAgreement.RefreshKeepsCorrespondence | lib/Plugin/ClassConstructorChainProviderPlugin.php:231-241 | Refresh keeps the plugins in step. |
| VariantAgreement.AliasAsWrittenBreaksCorrespondence | lib/Plugin/ClassConstructorChainProviderPlugin.php:156-161 | From any pair of stores in step, share by name then alias: the standard plugin accepts and the chain plugin as written rejects. |

## Left out

- The resolution engine (`Provider::make`, reflection, `Executable`, `InjectorContext`) is not part of this model. `getShared`/`getDefinition` results are taken as given. Building an object is the `ShareIfNeeded` call a caller makes.
- `canExecute` is a parameter, because it asks PHP's reflection whether a value is callable.
- `ProviderInfoCollection`'s code is not shown. It is kept as an ordered list of (information, chain) registrations. Its matching rule is the `Selector` parameter, and a position outside the collection reads as no match.
- `ChainStore.GetParamDefine`: the source's `$isSet` flag is taken to mean "a best match was found", because the collection code that sets it is not part of this model.
- Chain `shareIfNeeded` and `getShared` (lib/Plugin/ClassConstructorChainProviderPlugin.php:354-402): they depend on how the collection stores a built object per chain, which is not part of this model.
- The raw-injection prefix `:` is declared in `AurynInjector`, which is not part of this model. The value comes from the injection definitions the tests use.
- Exception classes and message texts are left out. Errors carry their code and the class names and keys the message would contain. `ShareArgument` and `DelegateArgument` leave out the plugin class (`__CLASS__`) and the argument's type (`gettype`) their messages print.
- `strtolower` is ASCII lower-casing. Locale-dependent case mapping is not modelled.
- PHP floats are `real`. Numeric-string array keys, which PHP turns into integers, are not modelled.
- `unshare`/`refresh` accept a class name or an object only. Other argument types are not modelled.
- The order of `getInterfacePrepares`'s result is not modelled (it is a map).
- The standard plugin ignores `$chainClassConstructors`; the model leaves that parameter out.
- The dead `$this->sharedClasses == null` branch of standard `getShared` is not modelled.
- `share` accepts an empty class name; a second shared object of a class overwrites the first (standard) or is appended (chain).
- `StandardStore.IsParamDefined`, `StandardStore.IsDelegated`, `ChainStore.IsParamDefined` and `ChainStore.IsDelegated` are bare tests: membership, and for `ChainStore.IsDelegated` membership plus a selector match. They have no contract of their own. They are used by the contracts of `GetParamDefine`, `GetDelegated`, `IsParamDefinedIgnoresChain` and `DelegateThenGetDelegated`.
- `VariantAgreement.ShareObjectKeepsCorrespondence` excludes a refreshed chain entry, where the chain plugin calls `addInfo` on NULL (see `ChainProperties.ShareObjectAfterRefreshFails`).

## Findings

| source | as written | input that shows it | evidently intended | confidence | as-written member | corrected member |
|---|---|---|---|---|---|---|
| lib/Plugin/ClassConstructorChainProviderPlugin.php:156-161 | `alias` rejects any type whose shared entry is `isset`. In this plugin every shared entry that has not been refreshed is a `ProviderInfoCollection` object, including a share by name. The error names the collection class. | `share('SharedAliasedInterface')` then `alias('SharedAliasedInterface', 'SharedClass')` fails with E_SHARED_CANNOT_ALIAS for `auryn\plugin\providerinfocollection`. | As in the standard plugin and test/src/Auryn/ProviderTest.php:589-596 (`testSharedByAliasedInterfaceNameReversedOrder`): only an entry holding a shared instance blocks the alias, and a pending share moves to the alias target. | medium, not executed | ChainStore.Alias, ChainProperties.AliasAfterShareByNameRejected, VariantAgreement.AliasAsWrittenBreaksCorrespondence | ChainStore.AliasCorrected, ChainProperties.AliasCorrectedAfterShareByName, VariantAgreement.AliasCorrectedKeepsCorrespondence |
