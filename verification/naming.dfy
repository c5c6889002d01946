/**
 * Class-name normalisation: every configuration map keys on the class name
 * lower-cased (ASCII, as `strtolower` does) with all leading namespace
 * separators removed (`ltrim($name, '\\')`).
 */
module Naming {

  const Separator: char := '\\'

  predicate IsUpper(c: char) {
    'A' <= c <= 'Z'
  }

  function LowerChar(c: char): (r: char)
    ensures !IsUpper(r)
  {
    if IsUpper(c) then (c as int + 32) as char else c
  }

  function Lower(s: string): (r: string)
    ensures |r| == |s|
    ensures forall i :: 0 <= i < |s| ==> r[i] == LowerChar(s[i])
  {
    seq(|s|, i requires 0 <= i < |s| => LowerChar(s[i]))
  }

  predicate IsLowercase(s: string) {
    forall i :: 0 <= i < |s| ==> !IsUpper(s[i])
  }

  /** `k` namespace separators in a row. */
  function Separators(k: nat): (r: string)
    ensures |r| == k
    ensures forall i :: 0 <= i < k ==> r[i] == Separator
  {
    seq(k, _ => Separator)
  }

  /** `ltrim($s, '\\')`: `s` with every leading separator removed. */
  function StripLeadingSeparators(s: string): (r: string)
    ensures |r| <= |s|
    ensures r == [] || r[0] != Separator
  {
    if |s| > 0 && s[0] == Separator then StripLeadingSeparators(s[1..]) else s
  }

  /** What `ltrim` leaves is a suffix, and everything it removed was a separator. */
  lemma {:induction false} StripLeavesSuffix(s: string)
    ensures var r := StripLeadingSeparators(s);
      && r == s[|s| - |r|..]
      && forall i :: 0 <= i < |s| - |r| ==> s[i] == Separator
  {
    if |s| > 0 && s[0] == Separator {
      StripLeavesSuffix(s[1..]);
      var r := StripLeadingSeparators(s);
      assert s[1..][|s| - 1 - |r|..] == s[|s| - |r|..];
      assert forall i :: 1 <= i < |s| - |r| ==> s[i] == s[1..][i - 1];
    }
  }

  /** `normalizeClassName`: the key every map of the store uses for a class name. */
  function Normalize(className: string): (r: string)
    ensures IsLowercase(r)
    ensures r == [] || r[0] != Separator
  {
    var l := Lower(className);
    StripLeavesSuffix(l);
    StripLeadingSeparators(l)
  }

  /** The key is what is left of the lower-cased name once its leading separators are gone. */
  lemma NormalizeStripsLowercased(className: string)
    ensures var r := Normalize(className);
      var l := Lower(className);
      && |r| <= |l|
      && r == l[|l| - |r|..]
      && (forall i :: 0 <= i < |l| - |r| ==> l[i] == Separator)
  {
    StripLeavesSuffix(Lower(className));
  }

  predicate IsNormalized(name: string) {
    Normalize(name) == name
  }

  /** `array_map('normalizeClassName', $names)`. */
  function NormalizeAll(names: seq<string>): (r: seq<string>)
    ensures |r| == |names|
    ensures forall i :: 0 <= i < |names| ==> r[i] == Normalize(names[i])
  {
    if names == [] then [] else [Normalize(names[0])] + NormalizeAll(names[1..])
  }

  lemma LowerOfLowercase(s: string)
    requires IsLowercase(s)
    ensures Lower(s) == s
  {
  }

  lemma StripUnprefixed(s: string)
    requires s == [] || s[0] != Separator
    ensures StripLeadingSeparators(s) == s
  {
  }

  /** Normalising a normalised name changes nothing: the keys of the store are fixed points. */
  lemma {:induction false} NormalizeIdempotent(className: string)
    ensures Normalize(Normalize(className)) == Normalize(className)
    ensures IsNormalized(Normalize(className))
  {
    var r := Normalize(className);
    LowerOfLowercase(r);
    StripUnprefixed(r);
  }

  /** One more leading separator does not change the key. */
  lemma NormalizeIgnoresLeadingSeparator(className: string)
    ensures Normalize([Separator] + className) == Normalize(className)
  {
    assert Lower([Separator] + className) == [Separator] + Lower(className);
    assert ([Separator] + Lower(className))[1..] == Lower(className);
  }

  /**
   * Two spellings that differ only in letter case and in the number of
   * leading separators map to the same key.
   */
  lemma {:induction false} SpellingsShareKey(k: nat, m: nat, x: string, y: string)
    requires Lower(x) == Lower(y)
    ensures Normalize(Separators(k) + x) == Normalize(Separators(m) + y)
    decreases k + m
  {
    if k > 0 {
      assert Separators(k) + x == [Separator] + (Separators(k - 1) + x);
      NormalizeIgnoresLeadingSeparator(Separators(k - 1) + x);
      SpellingsShareKey(k - 1, m, x, y);
    } else if m > 0 {
      assert Separators(m) + y == [Separator] + (Separators(m - 1) + y);
      NormalizeIgnoresLeadingSeparator(Separators(m - 1) + y);
      SpellingsShareKey(k, m - 1, x, y);
    } else {
      assert Separators(0) + x == x;
      assert Separators(0) + y == y;
    }
  }
}
