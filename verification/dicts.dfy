/** Python dicts as insertion-ordered association lists. The order matters
    to the roster (shift names are iterated in declaration order), so a
    Dafny `map` alone would lose it. */
module Dicts {
  import opened Wrappers

  /** No key appears twice, as in any dict. */
  predicate KeysDistinct<V>(d: seq<(string, V)>) {
    forall i, j :: 0 <= i < j < |d| ==> d[i].0 != d[j].0
  }

  type Dict<V> = d: seq<(string, V)> | KeysDistinct(d) witness []

  /** The keys in insertion order (`list(d.keys())`). */
  function Keys<V>(d: seq<(string, V)>): seq<string> {
    seq(|d|, i requires 0 <= i < |d| => d[i].0)
  }

  /** `d.get(k)`: the value stored under the first entry with key `k`. */
  function Get<V>(d: seq<(string, V)>, k: string): (r: Option<V>)
    ensures r.None? <==> k !in Keys(d)
    ensures r.Some? ==> (k, r.value) in d
  {
    if d == [] then None
    else if d[0].0 == k then
      assert Keys(d)[0] == k;
      Some(d[0].1)
    else
      assert Keys(d) == [d[0].0] + Keys(d[1..]);
      Get(d[1..], k)
  }

  /** With distinct keys, an entry is found by its key. */
  lemma {:induction false} GetEntry<V>(d: seq<(string, V)>, k: string, v: V)
    requires KeysDistinct(d)
    requires (k, v) in d
    ensures Get(d, k) == Some(v)
  {
    if d[0] != (k, v) {
      assert d[0].0 != k by {
        var i :| 0 <= i < |d| && d[i] == (k, v);
        assert i != 0;
      }
      assert (k, v) in d[1..] by {
        var i :| 0 <= i < |d| && d[i] == (k, v);
        assert d[1..][i - 1] == d[i];
      }
      GetEntry(d[1..], k, v);
    }
  }
}
