/**
  * JavaScript's `Map` keyed by strings: entries remembered in insertion order.
  * `Set` on a key that is already present replaces the value but keeps the
  * key at the position where it was first inserted.
  */
module OrderedMap {
  import opened Seqs

  datatype Entry<V> = Entry(key: string, value: V)

  /** The keys in iteration order (`Array.from(map.keys())`). */
  function Keys<V>(m: seq<Entry<V>>): seq<string> {
    seq(|m|, i requires 0 <= i < |m| => m[i].key)
  }

  /** What every JavaScript `Map` satisfies: no key occurs twice. */
  predicate Valid<V>(m: seq<Entry<V>>) {
    Distinct(Keys(m))
  }

  /** `map.has(k)` */
  predicate Has<V>(m: seq<Entry<V>>, k: string) {
    k in Keys(m)
  }

  /** `map.get(k)` for a present key. */
  function Get<V>(m: seq<Entry<V>>, k: string): (v: V)
    requires Has(m, k)
    ensures exists i :: 0 <= i < |m| && m[i] == Entry(k, v)
  {
    m[IndexOf(Keys(m), k)].value
  }

  /** In a valid map the entry at position `i` is the one `Get` finds. */
  lemma GetAt<V>(m: seq<Entry<V>>, i: nat)
    requires Valid(m) && i < |m|
    ensures Has(m, m[i].key) && Get(m, m[i].key) == m[i].value
  {
    assert Keys(m)[i] == m[i].key;
    IndexOfDistinct(Keys(m), i);
  }

  /**
    * `map.set(k, v)`: a new key is appended at the end; a present key keeps its
    * position and only its value changes. Nothing else changes.
    */
  function Set<V>(m: seq<Entry<V>>, k: string, v: V): (r: seq<Entry<V>>)
    ensures Keys(r) == if Has(m, k) then Keys(m) else Keys(m) + [k]
    ensures Has(r, k) && Get(r, k) == v
    ensures forall k' :: k' != k ==> (Has(r, k') <==> Has(m, k'))
    ensures forall k' :: k' != k && Has(m, k') ==> Get(r, k') == Get(m, k')
    ensures Valid(m) ==> Valid(r)
  {
    if Has(m, k) then
      var i := IndexOf(Keys(m), k);
      var r := m[i := Entry(k, v)];
      assert Keys(r) == Keys(m);
      r
    else
      var r := m + [Entry(k, v)];
      assert Keys(r) == Keys(m) + [k];
      assert IndexOf(Keys(r), k) == |m| by {
        assert Keys(r)[|m|] == k;
      }
      forall k' | k' != k && Has(m, k')
        ensures Get(r, k') == Get(m, k')
      {
        IndexOfAppend(Keys(m), k, k');
      }
      r
  }
}
