/** Positional pairing of independently extracted lists: Python's `zip`,
    which stops at the shorter input, and a dict built from zipped pairs,
    where a repeated key keeps the value paired with its last occurrence. */
module Pairing {

  function Min(a: nat, b: nat): nat {
    if a < b then a else b
  }

  /** `list(zip(a, b))`. */
  function Zip<A, B>(a: seq<A>, b: seq<B>): (r: seq<(A, B)>)
    ensures |r| == Min(|a|, |b|)
    ensures forall i :: 0 <= i < |r| ==> r[i] == (a[i], b[i])
    decreases |a|
  {
    if |a| == 0 || |b| == 0 then []
    else [(a[0], b[0])] + Zip(a[1..], b[1..])
  }

  /** `list(zip(a, b, c))`. */
  function Zip3<A, B, C>(a: seq<A>, b: seq<B>, c: seq<C>): (r: seq<(A, B, C)>)
    ensures |r| == Min(Min(|a|, |b|), |c|)
    ensures forall i :: 0 <= i < |r| ==> r[i] == (a[i], b[i], c[i])
    decreases |a|
  {
    if |a| == 0 || |b| == 0 || |c| == 0 then []
    else [(a[0], b[0], c[0])] + Zip3(a[1..], b[1..], c[1..])
  }

  /** `{k: v for k, v in zip(ks, vs)}`: the pairs are inserted in order, so
      for a repeated key the value of its last occurrence survives. */
  function ZipMap<K(!new), V>(ks: seq<K>, vs: seq<V>): map<K, V>
    decreases |ks|
  {
    if |ks| == 0 || |vs| == 0 then map[]
    else map[ks[0] := vs[0]] + ZipMap(ks[1..], vs[1..])
  }

  /** The keys of the dict are exactly the keys among the first `min(|ks|, |vs|)` positions. */
  lemma {:induction false} ZipMapKeys<K(!new), V>(ks: seq<K>, vs: seq<V>)
    ensures forall k :: k in ZipMap(ks, vs) <==> k in ks[..Min(|ks|, |vs|)]
    decreases |ks|
  {
    if |ks| > 0 && |vs| > 0 {
      ZipMapKeys(ks[1..], vs[1..]);
      var n := Min(|ks|, |vs|);
      assert ks[..n] == [ks[0]] + ks[1..][..n - 1];
    }
  }

  /** A key takes the value paired with its last occurrence among the zipped positions. */
  lemma {:induction false} ZipMapLastWins<K(!new), V>(ks: seq<K>, vs: seq<V>, i: nat)
    requires i < Min(|ks|, |vs|)
    requires ks[i] !in ks[i + 1..Min(|ks|, |vs|)]
    ensures ks[i] in ZipMap(ks, vs) && ZipMap(ks, vs)[ks[i]] == vs[i]
    decreases |ks|
  {
    var n := Min(|ks|, |vs|);
    var rest := ZipMap(ks[1..], vs[1..]);
    ZipMapKeys(ks[1..], vs[1..]);
    if i == 0 {
      assert ks[1..][..n - 1] == ks[1..n];
      assert ks[0] !in rest;
    } else {
      assert ks[1..][i - 1 + 1..n - 1] == ks[i + 1..n];
      ZipMapLastWins(ks[1..], vs[1..], i - 1);
    }
  }

  /** The loop the dict comprehension runs: insert each pair, in order, into `m`. */
  function InsertAll<K(!new), V>(m: map<K, V>, pairs: seq<(K, V)>): map<K, V>
    decreases |pairs|
  {
    if |pairs| == 0 then m
    else InsertAll(m[pairs[0].0 := pairs[0].1], pairs[1..])
  }

  /** ZipMap agrees with inserting the zipped pairs one after another into `m`. */
  lemma {:induction false} InsertZipped<K(!new), V>(m: map<K, V>, ks: seq<K>, vs: seq<V>)
    ensures InsertAll(m, Zip(ks, vs)) == m + ZipMap(ks, vs)
    decreases |ks|
  {
    if |ks| == 0 || |vs| == 0 {
    } else {
      var z := Zip(ks, vs);
      assert z[1..] == Zip(ks[1..], vs[1..]);
      InsertZipped(m[ks[0] := vs[0]], ks[1..], vs[1..]);
      assert m[ks[0] := vs[0]] + ZipMap(ks[1..], vs[1..])
          == m + (map[ks[0] := vs[0]] + ZipMap(ks[1..], vs[1..]));
    }
  }

  /** The dict comprehension over `zip` is the in-order insertion of the truncated pairs. */
  lemma ZipMapIsInsertion<K(!new), V>(ks: seq<K>, vs: seq<V>)
    ensures ZipMap(ks, vs) == InsertAll(map[], Zip(ks, vs))
  {
    InsertZipped(map[], ks, vs);
    assert map[] + ZipMap(ks, vs) == ZipMap(ks, vs);
  }

  /** With no repeated key, every pair of the truncated zip is in the map. */
  lemma ZipMapDistinct<K(!new), V>(ks: seq<K>, vs: seq<V>)
    requires forall i, j :: 0 <= i < j < |ks| ==> ks[i] != ks[j]
    ensures |ZipMap(ks, vs)| == Min(|ks|, |vs|)
    ensures forall i :: 0 <= i < Min(|ks|, |vs|) ==> ks[i] in ZipMap(ks, vs) && ZipMap(ks, vs)[ks[i]] == vs[i]
  {
    var n := Min(|ks|, |vs|);
    var m := ZipMap(ks, vs);
    ZipMapKeys(ks, vs);
    forall i | 0 <= i < n
      ensures ks[i] in m && m[ks[i]] == vs[i]
    {
      assert ks[i] !in ks[i + 1..n];
      ZipMapLastWins(ks, vs, i);
    }
    DistinctCard(ks[..n]);
    assert m.Keys == set i | 0 <= i < n :: ks[..n][i];
  }

  /** A sequence without repetitions has as many distinct elements as its length. */
  lemma {:induction false} DistinctCard<K(!new)>(s: seq<K>)
    requires forall i, j :: 0 <= i < j < |s| ==> s[i] != s[j]
    ensures |set i | 0 <= i < |s| :: s[i]| == |s|
    decreases |s|
  {
    if |s| > 0 {
      var t := s[..|s| - 1];
      DistinctCard(t);
      var st := set i | 0 <= i < |t| :: t[i];
      var ss := set i | 0 <= i < |s| :: s[i];
      assert ss == st + {s[|s| - 1]};
      assert s[|s| - 1] !in st;
    }
  }
}
