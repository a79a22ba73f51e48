/** Sequence facts shared by the ordered map, the key encodings and the edge ordering. */
module Seqs {

  /** No element occurs twice. */
  predicate Distinct<T(==)>(s: seq<T>) {
    forall i, j :: 0 <= i < j < |s| ==> s[i] != s[j]
  }

  /** Position of the first occurrence of `x` in `s`. */
  function IndexOf<T(==)>(s: seq<T>, x: T): (i: nat)
    requires x in s
    ensures i < |s| && s[i] == x
    ensures forall j :: 0 <= j < i ==> s[j] != x
  {
    if s[0] == x then 0 else 1 + IndexOf(s[1..], x)
  }

  /** In a sequence without repetitions every element is found at its own position. */
  lemma IndexOfDistinct<T>(s: seq<T>, k: nat)
    requires Distinct(s) && k < |s|
    ensures IndexOf(s, s[k]) == k
  {
  }

  /** Appending an element leaves the first occurrence of earlier elements where it was. */
  lemma IndexOfAppend<T>(s: seq<T>, y: T, x: T)
    requires x in s
    ensures x in s + [y] && IndexOf(s + [y], x) == IndexOf(s, x)
  {
    var i := IndexOf(s, x);
    assert (s + [y])[i] == x;
    var i' := IndexOf(s + [y], x);
    assert i' <= i;
    assert s[i'] == x;
  }

  /** The first separator in `x + [c] + y` sits just after `x` when `x` holds none. */
  lemma FirstSeparator<T>(x: seq<T>, y: seq<T>, c: T)
    requires c !in x
    ensures c in x + [c] + y && IndexOf(x + [c] + y, c) == |x|
  {
    var s := x + [c] + y;
    assert s[|x|] == c;
  }

  /**
    * A string encoding `x + [c] + y` can be cut back into its parts when the
    * left part holds no separator: the encoding is injective.
    */
  lemma SplitAtSeparator<T>(x: seq<T>, y: seq<T>, x': seq<T>, y': seq<T>, c: T)
    requires c !in x && c !in x'
    requires x + [c] + y == x' + [c] + y'
    ensures x == x' && y == y'
  {
    var s := x + [c] + y;
    FirstSeparator(x, y, c);
    FirstSeparator(x', y', c);
    assert |x| == |x'|;
    assert x == s[..|x|];
    assert x' == (x' + [c] + y')[..|x'|];
    assert y == s[|x| + 1..];
    assert y' == (x' + [c] + y')[|x'| + 1..];
  }
}
