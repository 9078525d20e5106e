/**
 * A Python `dict` as an association list in insertion order. Assigning to a
 * key that is present replaces its value where it stands; assigning to a new
 * key appends it. `dict(pairs)` assigns the pairs one after the other, so a
 * later pair with a repeated key overwrites the earlier value but keeps the
 * earlier position.
 */
module PyDict {
  import opened Wrappers

  type Dict<K, V> = seq<(K, V)>

  function Keys<K, V>(d: Dict<K, V>): (ks: seq<K>)
    ensures |ks| == |d|
    ensures forall i :: 0 <= i < |d| ==> ks[i] == d[i].0
  {
    seq(|d|, i requires 0 <= i < |d| => d[i].0)
  }

  function Values<K, V>(d: Dict<K, V>): (vs: seq<V>)
    ensures |vs| == |d|
    ensures forall i :: 0 <= i < |d| ==> vs[i] == d[i].1
  {
    seq(|d|, i requires 0 <= i < |d| => d[i].1)
  }

  predicate DistinctKeys<K(==), V>(d: Dict<K, V>) {
    forall i, j :: 0 <= i < j < |d| ==> d[i].0 != d[j].0
  }

  /** `d.get(k)` */
  function Get<K(==), V>(d: Dict<K, V>, k: K): (r: Option<V>)
    ensures r.Some? <==> k in Keys(d)
  {
    if d == [] then None
    else if d[0].0 == k then Some(d[0].1)
    else
      assert Keys(d) == [d[0].0] + Keys(d[1..]);
      Get(d[1..], k)
  }

  /** `d[k] = v` */
  function Assign<K(==), V>(d: Dict<K, V>, k: K, v: V): Dict<K, V> {
    if d == [] then [(k, v)]
    else if d[0].0 == k then [(k, v)] + d[1..]
    else [d[0]] + Assign(d[1..], k, v)
  }

  /** A new key is appended at the end. */
  lemma {:induction false} AssignNew<K(!new), V>(d: Dict<K, V>, k: K, v: V)
    requires k !in Keys(d)
    ensures Assign(d, k, v) == d + [(k, v)]
  {
    if d != [] {
      assert Keys(d) == [d[0].0] + Keys(d[1..]);
      AssignNew(d[1..], k, v);
      assert [d[0]] + (d[1..] + [(k, v)]) == d + [(k, v)];
    }
  }

  /** Assigning to a key that is present keeps every key in place. */
  lemma AssignExisting<K(!new), V>(d: Dict<K, V>, k: K, v: V)
    requires k in Keys(d)
    ensures Keys(Assign(d, k, v)) == Keys(d)
  {
    var j :| 0 <= j < |d| && Keys(d)[j] == k;
    AssignPrefixKeys(d, k, v);
    AssignSameLength(d, k, v, j);
    var r := Assign(d, k, v);
    assert forall i :: 0 <= i < |d| ==> Keys(r)[i] == Keys(d)[i];
  }

  lemma {:induction false} AssignPrefixKeys<K(!new), V>(d: Dict<K, V>, k: K, v: V)
    ensures |d| <= |Assign(d, k, v)| <= |d| + 1
    ensures forall i :: 0 <= i < |d| ==> Assign(d, k, v)[i].0 == d[i].0
  {
    if d != [] && d[0].0 != k {
      AssignPrefixKeys(d[1..], k, v);
    }
  }

  lemma {:induction false} AssignSameLength<K(!new), V>(d: Dict<K, V>, k: K, v: V, j: nat)
    requires j < |d| && d[j].0 == k
    ensures |Assign(d, k, v)| == |d|
  {
    if d[0].0 != k {
      AssignSameLength(d[1..], k, v, j - 1);
    }
  }

  /** Assigning keeps every key in place and adds k if it was missing. */
  lemma AssignKeys<K(!new), V>(d: Dict<K, V>, k: K, v: V)
    ensures Keys(Assign(d, k, v)) == if k in Keys(d) then Keys(d) else Keys(d) + [k]
  {
    if k in Keys(d) {
      AssignExisting(d, k, v);
    } else {
      AssignNew(d, k, v);
      assert Keys(d + [(k, v)]) == Keys(d) + [k];
    }
  }

  /** Distinct keys stay distinct. */
  lemma AssignDistinct<K(!new), V>(d: Dict<K, V>, k: K, v: V)
    requires DistinctKeys(d)
    ensures DistinctKeys(Assign(d, k, v))
  {
    var r := Assign(d, k, v);
    AssignKeys(d, k, v);
    forall i, j | 0 <= i < j < |r| ensures r[i].0 != r[j].0 {
      assert Keys(r)[i] == r[i].0 && Keys(r)[j] == r[j].0;
      if k !in Keys(d) {
        if j == |d| {
          assert Keys(d)[i] == r[i].0;
        } else {
          assert Keys(d)[i] == r[i].0 && Keys(d)[j] == r[j].0;
        }
      } else {
        assert Keys(d)[i] == r[i].0 && Keys(d)[j] == r[j].0;
      }
    }
  }

  /** Three assignments to three different keys build the three pairs in order. */
  lemma AssignThree<K(!new), V>(a: (K, V), b: (K, V), c: (K, V))
    requires a.0 != b.0 && a.0 != c.0 && b.0 != c.0
    ensures Assign(Assign(Assign([], a.0, a.1), b.0, b.1), c.0, c.1) == [a, b, c]
  {
    assert Assign([], a.0, a.1) == [a];
    assert Keys([a]) == [a.0];
    AssignNew([a], b.0, b.1);
    assert Keys([a, b]) == [a.0, b.0];
    AssignNew([a, b], c.0, c.1);
  }

  /** After `d[k] = v`, `d.get(k)` is v and every other key reads as before. */
  lemma {:induction false} AssignGet<K(!new), V>(d: Dict<K, V>, k: K, v: V, k': K)
    ensures Get(Assign(d, k, v), k') == if k' == k then Some(v) else Get(d, k')
  {
    if d != [] && d[0].0 != k {
      AssignGet(d[1..], k, v, k');
    }
  }

  /** `dict(ps)`: the pairs assigned from first to last. */
  function FromPairs<K(==, !new), V>(ps: seq<(K, V)>): (d: Dict<K, V>)
    ensures DistinctKeys(d)
  {
    if ps == [] then []
    else
      var prev := FromPairs(ps[..|ps| - 1]);
      AssignDistinct(prev, ps[|ps| - 1].0, ps[|ps| - 1].1);
      Assign(prev, ps[|ps| - 1].0, ps[|ps| - 1].1)
  }

  /** The value of the last pair with key k: the one `dict(ps)` keeps. */
  function LastValue<K(==), V>(ps: seq<(K, V)>, k: K): Option<V> {
    if ps == [] then None
    else if ps[|ps| - 1].0 == k then Some(ps[|ps| - 1].1)
    else LastValue(ps[..|ps| - 1], k)
  }

  /** With no repeated key, `dict(ps)` keeps every pair, in order. */
  lemma {:induction false} FromPairsOfDistinct<K(!new), V>(ps: seq<(K, V)>)
    requires DistinctKeys(ps)
    ensures FromPairs(ps) == ps
  {
    if ps != [] {
      var init, last := ps[..|ps| - 1], ps[|ps| - 1];
      assert DistinctKeys(init) by {
        forall i, j | 0 <= i < j < |init| ensures init[i].0 != init[j].0 {
          assert init[i] == ps[i] && init[j] == ps[j];
        }
      }
      FromPairsOfDistinct(init);
      assert last.0 !in Keys(init) by {
        forall i | 0 <= i < |init| ensures Keys(init)[i] != last.0 {
          assert init[i] == ps[i];
        }
      }
      AssignNew(init, last.0, last.1);
      assert init + [last] == ps;
    }
  }

  /** A later pair overwrites an earlier one with the same key. */
  lemma {:induction false} FromPairsGet<K(!new), V>(ps: seq<(K, V)>, k: K)
    ensures Get(FromPairs(ps), k) == LastValue(ps, k)
  {
    if ps != [] {
      FromPairsGet(ps[..|ps| - 1], k);
      AssignGet(FromPairs(ps[..|ps| - 1]), ps[|ps| - 1].0, ps[|ps| - 1].1, k);
    }
  }

  lemma {:induction false} LastValueSome<K(!new), V>(ps: seq<(K, V)>, k: K)
    ensures LastValue(ps, k).Some? <==> k in Keys(ps)
  {
    if ps != [] {
      var init := ps[..|ps| - 1];
      LastValueSome(init, k);
      assert Keys(ps) == Keys(init) + [ps[|ps| - 1].0];
    }
  }

  /** `dict(ps)` has exactly the keys that occur in ps. */
  lemma FromPairsKeys<K(!new), V>(ps: seq<(K, V)>, k: K)
    ensures k in Keys(FromPairs(ps)) <==> k in Keys(ps)
  {
    FromPairsGet(ps, k);
    LastValueSome(ps, k);
  }

  /** `dict(ps + [p])` is `dict(ps)` followed by one assignment. */
  lemma FromPairsSnoc<K(!new), V>(ps: seq<(K, V)>, p: (K, V))
    ensures FromPairs(ps + [p]) == Assign(FromPairs(ps), p.0, p.1)
  {
    assert (ps + [p])[..|ps|] == ps;
  }

  /** `sum(d.values())` */
  function SumValues<K>(d: Dict<K, nat>): nat {
    if d == [] then 0 else SumValues(d[..|d| - 1]) + d[|d| - 1].1
  }

  /** In a dictionary, the value under the key of entry i is that entry's value. */
  lemma {:induction false} GetAt<K(!new), V>(d: Dict<K, V>, i: nat)
    requires DistinctKeys(d) && i < |d|
    ensures Get(d, d[i].0) == Some(d[i].1)
  {
    if i > 0 {
      assert d[0].0 != d[i].0;
      assert DistinctKeys(d[1..]) by {
        forall a, b | 0 <= a < b < |d[1..]| ensures d[1..][a].0 != d[1..][b].0 {
          assert d[1..][a] == d[a + 1] && d[1..][b] == d[b + 1];
        }
      }
      GetAt(d[1..], i - 1);
    }
  }

  lemma SumValuesPrefix<K>(d: Dict<K, nat>, k: nat)
    requires 0 < k <= |d|
    ensures SumValues(d[..k]) == SumValues(d[..k - 1]) + d[k - 1].1
  {
    assert d[..k][..k - 1] == d[..k - 1];
  }

  lemma SumValuesFive<K>(d: Dict<K, nat>)
    requires |d| == 5
    ensures SumValues(d) == d[0].1 + d[1].1 + d[2].1 + d[3].1 + d[4].1
  {
    SumValuesPrefix(d, 5);
    SumValuesPrefix(d, 4);
    SumValuesPrefix(d, 3);
    SumValuesPrefix(d, 2);
    SumValuesPrefix(d, 1);
    assert d[..5] == d;
  }

  /** The value of the last pair with a key is that pair's value. */
  lemma {:induction false} LastValueAt<K(!new), V>(ps: seq<(K, V)>, i: nat)
    requires i < |ps|
    requires forall j :: i < j < |ps| ==> ps[j].0 != ps[i].0
    ensures LastValue(ps, ps[i].0) == Some(ps[i].1)
  {
    if i < |ps| - 1 {
      var init := ps[..|ps| - 1];
      assert init[i] == ps[i];
      forall j | i < j < |init| ensures init[j].0 != init[i].0 {
        assert init[j] == ps[j];
      }
      LastValueAt(init, i);
    }
  }
}
