/**
 * The PHP values a configuration call receives. Objects are identified by
 * their class name (as `get_class` reports it) and an identity number;
 * PHP arrays are ordered sequences of key/value entries.
 */
module PhpValues {

  /** An object: the class name `get_class` returns, plus its identity. */
  datatype Instance = Instance(className: string, id: nat)

  /** A PHP array key: a string or an integer. */
  datatype Key = Name(name: string) | Position(index: int)

  datatype Value =
    | Null
    | Bool(b: bool)
    | Int(i: int)
    | Float(f: real)
    | Str(s: string)
    | Obj(inst: Instance)
    | Arr(entries: seq<Entry>)

  /** One key/value pair of a PHP array, in insertion order. */
  datatype Entry = Entry(key: Key, value: Value)

  /** A PHP array: an injection definition, delegate arguments, ... */
  type PhpArray = seq<Entry>

  /** PHP's `empty()`: null, false, 0, 0.0, "", "0" and the empty array. */
  predicate IsEmpty(v: Value) {
    match v
    case Null => true
    case Bool(b) => !b
    case Int(i) => i == 0
    case Float(f) => f == 0.0
    case Str(s) => s == "" || s == "0"
    case Obj(_) => false
    case Arr(es) => es == []
  }

  /** What `alias` accepts for each of its two arguments: a string that is not `empty()`. */
  predicate IsAliasName(v: Value) {
    v.Str? && !IsEmpty(v)
  }

  /** A class given by name or by one of its instances (`unshare`, `refresh`). */
  datatype ClassRef = ByName(name: string) | ByInstance(inst: Instance)

  /** The class name a `ClassRef` stands for: `get_class` for an object, the string itself otherwise. */
  function ClassName(ref: ClassRef): string {
    match ref
    case ByName(n) => n
    case ByInstance(o) => o.className
  }

  /** A delegate registration: the factory callable and its preset arguments. */
  datatype Delegation = Delegation(callable: Value, args: PhpArray)
}
