/** A JS `Record<string, V>` as an association list.  The list order is the
    object's property order, which decides what `Object.values`,
    `Object.entries` and `Object.keys` enumerate.  A genuine JS object never has
    two equal keys (`KeysDistinct`); the operations below keep that property. */
module Records {
  import opened Wrappers

  type Record<V> = seq<(string, V)>

  /** `Object.keys`, in property order. */
  function Keys<V>(r: Record<V>): (ks: seq<string>)
    ensures |ks| == |r|
    ensures forall i :: 0 <= i < |r| ==> ks[i] == r[i].0
  {
    seq(|r|, i requires 0 <= i < |r| => r[i].0)
  }

  /** `Object.values`, in property order. */
  function Values<V>(r: Record<V>): (vs: seq<V>)
    ensures |vs| == |r|
    ensures forall i :: 0 <= i < |r| ==> vs[i] == r[i].1
  {
    seq(|r|, i requires 0 <= i < |r| => r[i].1)
  }

  predicate KeysDistinct<V>(r: Record<V>) {
    forall i, j :: 0 <= i < j < |r| ==> r[i].0 != r[j].0
  }

  lemma DistinctCons<V>(r: Record<V>)
    requires r != []
    ensures KeysDistinct(r) <==> r[0].0 !in Keys(r[1..]) && KeysDistinct(r[1..])
  {
    if r[0].0 in Keys(r[1..]) {
      var i :| 0 <= i < |r[1..]| && Keys(r[1..])[i] == r[0].0;
      assert r[i + 1].0 == r[0].0;
    }
    if KeysDistinct(r[1..]) && r[0].0 !in Keys(r[1..]) {
      forall i, j | 0 <= i < j < |r|
        ensures r[i].0 != r[j].0
      {
        if i > 0 {
          assert r[i] == r[1..][i - 1] && r[j] == r[1..][j - 1];
        } else {
          assert Keys(r[1..])[j - 1] == r[j].0;
        }
      }
    }
  }

  /** Position of the first occurrence of `k` in `ks`, or -1. */
  function IndexIn(ks: seq<string>, k: string): (i: int)
    ensures -1 <= i < |ks|
    ensures i >= 0 ==> ks[i] == k && forall j :: 0 <= j < i ==> ks[j] != k
    ensures i < 0 <==> k !in ks
  {
    if ks == [] then -1
    else if ks[0] == k then 0
    else
      var i := IndexIn(ks[1..], k);
      if i < 0 then -1 else i + 1
  }

  lemma IndexInUnique(ks: seq<string>, k: string, i: int)
    requires 0 <= i < |ks| && ks[i] == k
    requires forall j :: 0 <= j < i ==> ks[j] != k
    ensures IndexIn(ks, k) == i
  {
  }

  /** Position of the first entry with key `k`, or -1. */
  function IndexOf<V>(r: Record<V>, k: string): int
  {
    IndexIn(Keys(r), k)
  }

  /** Property read `r[k]`: `None` plays the part of `undefined`. */
  function Get<V>(r: Record<V>, k: string): (o: Option<V>)
    ensures o.Some? <==> k in Keys(r)
    ensures KeysDistinct(r) ==> forall i :: 0 <= i < |r| && r[i].0 == k ==> o == Some(r[i].1)
  {
    var i := IndexOf(r, k);
    if i < 0 then None else Some(r[i].1)
  }

  /** Property assignment `r[k] = v`: an existing key keeps its position and
      takes the new value; a new key is appended. */
  function Set<V>(r: Record<V>, k: string, v: V): (r': Record<V>)
    ensures Get(r', k) == Some(v)
    ensures forall j :: j != k ==> Get(r', j) == Get(r, j)
    ensures Get(r, k).Some? ==> Keys(r') == Keys(r)
    ensures Get(r, k).None? ==> Keys(r') == Keys(r) + [k]
    ensures KeysDistinct(r) ==> KeysDistinct(r')
  {
    var i := IndexOf(r, k);
    if i < 0 then
      var r' := r + [(k, v)];
      assert Keys(r') == Keys(r) + [k];
      IndexInUnique(Keys(r'), k, |r|);
      assert forall j :: j != k && j in Keys(r) ==> IndexOf(r', j) == IndexOf(r, j) by {
        forall j | j != k && j in Keys(r) {
          IndexInUnique(Keys(r'), j, IndexOf(r, j));
        }
      }
      r'
    else
      var r' := r[i := (k, v)];
      assert Keys(r') == Keys(r);
      r'
  }

  lemma GetCons<V>(r: Record<V>)
    requires r != []
    ensures Get(r, r[0].0) == Some(r[0].1)
    ensures forall k :: k != r[0].0 ==> Get(r, k) == Get(r[1..], k)
  {
    var ks := Keys(r);
    assert ks[0] == r[0].0;
    assert ks[1..] == Keys(r[1..]);
    forall k | k != r[0].0
      ensures Get(r, k) == Get(r[1..], k)
    {
      var i := IndexIn(ks[1..], k);
      assert IndexOf(r, k) == if i < 0 then -1 else i + 1;
      if i >= 0 {
        assert r[i + 1] == r[1..][i];
      }
    }
  }

  /** Object spread `{...a, ...b}`: the entries of `b`, in order, assigned onto
      a copy of `a`. */
  function Merge<V>(a: Record<V>, b: Record<V>): (r: Record<V>)
    ensures KeysDistinct(a) ==> KeysDistinct(r)
    decreases |b|
  {
    if b == [] then a
    else Merge(Set(a, b[0].0, b[0].1), b[1..])
  }

  /** Reading a spread: a key `b` lacks reads from `a`; a key `b` has reads
      from `b`; and the spread has exactly the keys of both. */
  lemma {:induction false} MergeGet<V>(a: Record<V>, b: Record<V>, k: string)
    ensures Get(b, k).None? ==> Get(Merge(a, b), k) == Get(a, k)
    ensures KeysDistinct(b) && Get(b, k).Some? ==> Get(Merge(a, b), k) == Get(b, k)
    ensures Get(Merge(a, b), k).Some? <==> Get(a, k).Some? || Get(b, k).Some?
    decreases |b|
  {
    if b != [] {
      GetCons(b);
      DistinctCons(b);
      MergeGet(Set(a, b[0].0, b[0].1), b[1..], k);
    }
  }

  /** Applies `f` to every value, keeping keys and their order. */
  function MapValues<V, W>(r: Record<V>, f: V -> W): (r': Record<W>)
    ensures Keys(r') == Keys(r)
    ensures forall i :: 0 <= i < |r| ==> r'[i] == (r[i].0, f(r[i].1))
  {
    seq(|r|, i requires 0 <= i < |r| => (r[i].0, f(r[i].1)))
  }
}
