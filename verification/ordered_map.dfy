/**
  Kotlin's insertion-ordered maps with string keys (`mutableMapOf`, `toMap`, `associate`,
  `associateBy` all build a LinkedHashMap) as association lists. `Put` replaces
  the value of an existing key where it stands and appends a new key at the
  end, so a map built by repeated insertion keeps every key at the position of
  its first insertion and holds the value of its last one.
 */
module OrderedMap {
  import opened Wrappers

  function Keys<V>(m: seq<(string, V)>): (ks: seq<string>)
    ensures |ks| == |m|
    ensures forall i :: 0 <= i < |m| ==> ks[i] == m[i].0
  {
    seq(|m|, i requires 0 <= i < |m| => m[i].0)
  }

  lemma KeysAppend<V>(m: seq<(string, V)>, n: seq<(string, V)>)
    ensures Keys(m + n) == Keys(m) + Keys(n)
  {
  }

  predicate Distinct(ks: seq<string>)
  {
    forall i, j :: 0 <= i < j < |ks| ==> ks[i] != ks[j]
  }

  /** `m[k]`: the value stored under `k`, looked up from the front. */
  function Get<V>(m: seq<(string, V)>, k: string): (r: Option<V>)
    ensures r.None? <==> k !in Keys(m)
  {
    if m == [] then None
    else if m[0].0 == k then Some(m[0].1)
    else
      assert Keys(m) == [m[0].0] + Keys(m[1..]);
      Get(m[1..], k)
  }

  /** `m[k] = v` on a LinkedHashMap. */
  function Put<V>(m: seq<(string, V)>, k: string, v: V): seq<(string, V)>
  {
    if m == [] then [(k, v)]
    else if m[0].0 == k then [(k, v)] + m[1..]
    else [m[0]] + Put(m[1..], k, v)
  }

  /** After `m[k] = v`, `k` holds `v` and every other key keeps its value. */
  lemma {:induction false} PutGet<V>(m: seq<(string, V)>, k: string, v: V, k': string)
    ensures Get(Put(m, k, v), k') == if k' == k then Some(v) else Get(m, k')
  {
    if m != [] && m[0].0 != k {
      PutGet(m[1..], k, v, k');
      assert Put(m, k, v)[1..] == Put(m[1..], k, v);
    }
  }

  /**
    Where `m[k] = v` puts the pair: a new key goes to the end, an existing key
    stays where it is, and every pair with another key stays in place.
   */
  lemma {:induction false} PutShape<V>(m: seq<(string, V)>, k: string, v: V)
    ensures k !in Keys(m) ==> Put(m, k, v) == m + [(k, v)]
    ensures k in Keys(m) ==> |Put(m, k, v)| == |m| && Keys(Put(m, k, v)) == Keys(m)
    ensures forall i :: 0 <= i < |m| && m[i].0 != k ==> Put(m, k, v)[i] == m[i]
  {
    if k !in Keys(m) {
      PutNew(m, k, v);
    } else {
      PutExisting(m, k, v);
      assert Keys(Put(m, k, v)) == Keys(m);
    }
    PutOthers(m, k, v);
  }

  lemma {:induction false} PutNew<V>(m: seq<(string, V)>, k: string, v: V)
    requires k !in Keys(m)
    ensures Put(m, k, v) == m + [(k, v)]
  {
    if m != [] {
      assert Keys(m)[0] == m[0].0;
      assert Keys(m[1..]) == Keys(m)[1..];
      PutNew(m[1..], k, v);
      assert m == [m[0]] + m[1..];
    }
  }

  lemma {:induction false} PutExisting<V>(m: seq<(string, V)>, k: string, v: V)
    requires k in Keys(m)
    ensures |Put(m, k, v)| == |m|
    ensures forall i :: 0 <= i < |m| ==> Put(m, k, v)[i].0 == m[i].0
  {
    if m[0].0 != k {
      var j :| 0 <= j < |m| && Keys(m)[j] == k;
      assert Keys(m[1..])[j - 1] == k;
      PutExisting(m[1..], k, v);
      assert Put(m, k, v) == [m[0]] + Put(m[1..], k, v);
    }
  }

  lemma {:induction false} PutOthers<V>(m: seq<(string, V)>, k: string, v: V)
    ensures |Put(m, k, v)| >= |m|
    ensures forall i :: 0 <= i < |m| && m[i].0 != k ==> Put(m, k, v)[i] == m[i]
  {
    if m != [] && m[0].0 != k {
      PutOthers(m[1..], k, v);
      assert Put(m, k, v) == [m[0]] + Put(m[1..], k, v);
    }
  }

  /** In a map whose keys are distinct, looking up an entry's key finds that entry's value. */
  lemma {:induction false} GetAt<V>(m: seq<(string, V)>, j: int)
    requires Distinct(Keys(m))
    requires 0 <= j < |m|
    ensures Get(m, m[j].0) == Some(m[j].1)
    decreases |m|
  {
    if j > 0 {
      assert Keys(m)[0] != Keys(m)[j];
      assert Keys(m[1..]) == Keys(m)[1..];
      GetAt(m[1..], j - 1);
    }
  }

  /** `m.putAll(ps)` (Kotlin's `m += ps`): the pairs put one after the other. */
  function PutAll<V>(m: seq<(string, V)>, ps: seq<(string, V)>): seq<(string, V)>
  {
    if ps == [] then m
    else
      var last := ps[|ps| - 1];
      Put(PutAll(m, ps[..|ps| - 1]), last.0, last.1)
  }

  /** `ps.toMap()`: a fresh map filled from the pairs in order. */
  function FromPairs<V>(ps: seq<(string, V)>): seq<(string, V)>
  {
    PutAll([], ps)
  }

  // ------------------------------------------------------------- references

  /** The keys in order of first occurrence, each once. */
  function Dedup(ks: seq<string>): (r: seq<string>)
    ensures forall x :: x in r <==> x in ks
    ensures Distinct(r)
  {
    if ks == [] then []
    else
      var d := Dedup(ks[..|ks| - 1]);
      var x := ks[|ks| - 1];
      assert ks == ks[..|ks| - 1] + [x];
      if x in d then d else d + [x]
  }

  /** The value of the last pair with key `k`: the write that wins. */
  function LastValue<V>(ps: seq<(string, V)>, k: string): (r: Option<V>)
    ensures r.None? <==> k !in Keys(ps)
    ensures r.Some? ==> exists i :: (0 <= i < |ps| && ps[i] == (k, r.value)
      && forall j :: i < j < |ps| ==> ps[j].0 != k)
  {
    if ps == [] then None
    else if ps[|ps| - 1].0 == k then Some(ps[|ps| - 1].1)
    else
      var r := LastValue(ps[..|ps| - 1], k);
      assert Keys(ps) == Keys(ps[..|ps| - 1]) + [ps[|ps| - 1].0];
      r
  }

  // ------------------------------------------------------------- properties

  /** After `putAll`, a key holds the last value `ps` gives it, or its old value if `ps` does not mention it. */
  lemma {:induction false} PutAllGet<V>(m: seq<(string, V)>, ps: seq<(string, V)>, k: string)
    ensures Get(PutAll(m, ps), k) == if k in Keys(ps) then LastValue(ps, k) else Get(m, k)
    decreases |ps|
  {
    if ps != [] {
      var pre := ps[..|ps| - 1];
      var last := ps[|ps| - 1];
      PutAllGet(m, pre, k);
      PutGet(PutAll(m, pre), last.0, last.1, k);
      assert Keys(ps) == Keys(pre) + [last.0];
    }
  }

  /** `putAll` of `a` then of `b` is `putAll` of `a + b`. */
  lemma {:induction false} PutAllAppend<V>(m: seq<(string, V)>, a: seq<(string, V)>, b: seq<(string, V)>)
    ensures PutAll(PutAll(m, a), b) == PutAll(m, a + b)
    decreases |b|
  {
    if b == [] {
      assert a + b == a;
    } else {
      var pre := b[..|b| - 1];
      PutAllAppend(m, a, pre);
      assert (a + b)[..|a + b| - 1] == a + pre;
      assert (a + b)[|a + b| - 1] == b[|b| - 1];
    }
  }

  /** Putting pairs into a map leaves a map: each key still appears once. */
  lemma {:induction false} PutAllDistinct<V>(m: seq<(string, V)>, ps: seq<(string, V)>)
    requires Distinct(Keys(m))
    ensures Distinct(Keys(PutAll(m, ps)))
    decreases |ps|
  {
    if ps != [] {
      var last := ps[|ps| - 1];
      var n := PutAll(m, ps[..|ps| - 1]);
      PutAllDistinct(m, ps[..|ps| - 1]);
      PutShape(n, last.0, last.1);
      if last.0 !in Keys(n) {
        KeysAppend(n, [(last.0, last.1)]);
      }
    }
  }

  /**
    The contract of `toMap`: keys appear once each, in the order of their
    first occurrence, and each holds the value of its last occurrence.
   */
  lemma {:induction false} FromPairsContract<V>(ps: seq<(string, V)>)
    ensures Keys(FromPairs(ps)) == Dedup(Keys(ps))
    ensures Distinct(Keys(FromPairs(ps)))
    ensures forall k :: Get(FromPairs(ps), k) == LastValue(ps, k)
    decreases |ps|
  {
    forall k ensures Get(FromPairs(ps), k) == LastValue(ps, k) {
      PutAllGet([], ps, k);
    }
    if ps != [] {
      var pre := ps[..|ps| - 1];
      var last := ps[|ps| - 1];
      FromPairsContract(pre);
      var m := FromPairs(pre);
      assert ps == pre + [last];
      KeysAppend(pre, [last]);
      assert Keys(ps) == Keys(pre) + [last.0];
      assert Keys(ps)[..|Keys(ps)| - 1] == Keys(pre);
      assert FromPairs(ps) == Put(m, last.0, last.1);
      PutShape(m, last.0, last.1);
      if last.0 !in Keys(m) {
        KeysAppend(m, [(last.0, last.1)]);
      }
    }
  }

  /** Pairs whose keys are already distinct come out of `toMap` unchanged. */
  lemma {:induction false} FromPairsOfDistinct<V>(ps: seq<(string, V)>)
    requires Distinct(Keys(ps))
    ensures FromPairs(ps) == ps
    decreases |ps|
  {
    if ps != [] {
      var pre := ps[..|ps| - 1];
      var last := ps[|ps| - 1];
      assert ps == pre + [last];
      KeysAppend(pre, [last]);
      assert Distinct(Keys(pre));
      FromPairsOfDistinct(pre);
      assert last.0 !in Keys(pre) by {
        forall i | 0 <= i < |pre| ensures Keys(pre)[i] != last.0 {
          assert Keys(ps)[i] == Keys(pre)[i] && Keys(ps)[|ps| - 1] == last.0;
        }
      }
      PutShape(pre, last.0, last.1);
    }
  }

}
