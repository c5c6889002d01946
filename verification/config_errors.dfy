/**
 * The exceptions a configuration call throws, by error code. Message texts
 * are not modelled; the values a message names are kept as payload.
 */
module ConfigErrors {
  import opened PhpValues

  datatype ConfigError =
      /** E_RAW_PREFIX: a definition key without the raw prefix maps to a non-string. */
    | RawPrefix(param: Key)
      /** E_NON_EMPTY_STRING_ALIAS: an `alias` argument is empty or not a string. */
    | NonEmptyStringAlias
      /** E_SHARED_CANNOT_ALIAS: the type being aliased holds a shared entry. */
    | SharedCannotAlias(sharedClass: string, alias: string)
      /** E_SHARE_ARGUMENT: `share` got neither a string nor an object. */
    | ShareArgument
      /** E_ALIASED_CANNOT_SHARE: the shared object's class is aliased. */
    | AliasedCannotShare(className: string, aliasTarget: string)
      /** E_DELEGATE_ARGUMENT: the delegate cannot be executed. */
    | DelegateArgument
      /** E_CALLABLE: the prepare mutator cannot be executed. */
    | NotCallable
      /** PHP's fatal "call to a member function on null" on a refreshed shared entry. */
    | NullCollection
}
