/**
 * `ProviderInfoCollection`, used by the chain-aware plugin. The class is not
 * part of this model. What the plugin relies on is kept: a collection is
 * created from one piece of information with the constructor chain it was
 * registered for, `addInfo` accumulates further pieces, and
 * `getBestMatchingInfo` picks one of them for a chain. How it picks is
 * unknown, so the rule is a parameter (`Selector`).
 */
module InfoCollection {
  import opened Wrappers

  /** The constructor chain (outermost class first) a registration applies to. */
  type Chain = seq<string>

  datatype ProviderInfo<T> = ProviderInfo(information: T, chain: Chain)

  /** The pieces of information added to one collection, in the order they were added. */
  datatype Collection<T> = Collection(infos: seq<ProviderInfo<T>>)

  /**
   * The matching rule of `getBestMatchingInfo`: given the current chain and
   * the chains of the registered infos, the position of the best match, if
   * any.
   */
  type Selector = (Chain, seq<Chain>) -> Option<nat>

  /** `new ProviderInfoCollection($information, $chain)`. */
  function Create<T>(information: T, chain: Chain): (c: Collection<T>)
    ensures |c.infos| == 1
    ensures c.infos[0] == ProviderInfo(information, chain)
  {
    Collection([ProviderInfo(information, chain)])
  }

  /** `addInfo`: accumulate, keeping every earlier registration. */
  function AddInfo<T>(c: Collection<T>, information: T, chain: Chain): (r: Collection<T>)
    ensures |r.infos| == |c.infos| + 1
    ensures r.infos[..|c.infos|] == c.infos
    ensures r.infos[|c.infos|] == ProviderInfo(information, chain)
  {
    Collection(c.infos + [ProviderInfo(information, chain)])
  }

  function Chains<T>(c: Collection<T>): (r: seq<Chain>)
    ensures |r| == |c.infos|
    ensures forall i :: 0 <= i < |r| ==> r[i] == c.infos[i].chain
  {
    seq(|c.infos|, i requires 0 <= i < |c.infos| => c.infos[i].chain)
  }

  /**
   * `getBestMatchingInfo`: the position of the info the selector picks. A
   * position outside the collection reads as no match.
   */
  function BestMatching<T>(c: Collection<T>, chain: Chain, select: Selector): (r: Option<nat>)
    ensures r.Some? ==> r.value < |c.infos|
  {
    match select(chain, Chains(c))
    case Some(i) => if i < |c.infos| then Some(i) else None
    case None => None
  }
}
