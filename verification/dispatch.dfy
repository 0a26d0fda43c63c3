/**
  The middle of `process`: for each provider, the files it accepts are read
  in list order and their maps are merged into one with `values += ...`; the
  per-provider maps are then gathered into one map keyed by provider label
  (`associate` in the newer code, `map { ... }.toMap()` in the older, both of
  which fill a LinkedHashMap in provider order).

  The providers and files are left abstract here: a provider is anything
  with a label, an acceptance test and an extractor.
 */
module Dispatch {
  import opened Wrappers
  import opened OrderedMap

  /** The pairs the accepted files contribute, file after file. */
  function AcceptedPairs<P, F>(accepts: (P, F) -> bool, extract: (P, F) -> seq<(string, string)>, p: P, files: seq<F>): seq<(string, string)>
  {
    if files == [] then []
    else
      var f := files[|files| - 1];
      AcceptedPairs(accepts, extract, p, files[..|files| - 1]) + (if accepts(p, f) then extract(p, f) else [])
  }

  /** `files.filter { forFile(it) }.forEach { values += get(it) }` on an empty mutable map. */
  function Collect<P, F>(accepts: (P, F) -> bool, extract: (P, F) -> seq<(string, string)>, p: P, files: seq<F>): (r: seq<(string, string)>)
    ensures Distinct(Keys(r))
  {
    if files == [] then []
    else
      var f := files[|files| - 1];
      var prev := Collect(accepts, extract, p, files[..|files| - 1]);
      var added := if accepts(p, f) then extract(p, f) else [];
      PutAllDistinct(prev, added);
      PutAll(prev, added)
  }

  /** Merging file by file is building one map from all accepted pairs at once. */
  lemma {:induction false} CollectIsFromPairs<P, F>(accepts: (P, F) -> bool, extract: (P, F) -> seq<(string, string)>, p: P, files: seq<F>)
    ensures Collect(accepts, extract, p, files) == FromPairs(AcceptedPairs(accepts, extract, p, files))
    decreases |files|
  {
    if files != [] {
      var pre := files[..|files| - 1];
      var f := files[|files| - 1];
      CollectIsFromPairs(accepts, extract, p, pre);
      PutAllAppend([], AcceptedPairs(accepts, extract, p, pre), if accepts(p, f) then extract(p, f) else []);
    }
  }

  /**
    A category's map: a key is present exactly when some accepted file's map
    has it, each key once, in order of first appearance, and it holds the
    value from the last accepted file that has it.
   */
  lemma CollectSpec<P, F>(accepts: (P, F) -> bool, extract: (P, F) -> seq<(string, string)>, p: P, files: seq<F>)
    ensures Keys(Collect(accepts, extract, p, files)) == Dedup(Keys(AcceptedPairs(accepts, extract, p, files)))
    ensures Distinct(Keys(Collect(accepts, extract, p, files)))
    ensures forall k :: Get(Collect(accepts, extract, p, files), k) == LastValue(AcceptedPairs(accepts, extract, p, files), k)
  {
    CollectIsFromPairs(accepts, extract, p, files);
    FromPairsContract(AcceptedPairs(accepts, extract, p, files));
  }

  /** Every pair contributed comes from a file the provider accepts, and every such file's pairs are there. */
  lemma {:induction false} AcceptedPairsSpec<P, F>(accepts: (P, F) -> bool, extract: (P, F) -> seq<(string, string)>, p: P, files: seq<F>)
    ensures forall e :: e in AcceptedPairs(accepts, extract, p, files) <==>
      exists i :: 0 <= i < |files| && accepts(p, files[i]) && e in extract(p, files[i])
    decreases |files|
  {
    if files != [] {
      var pre := files[..|files| - 1];
      AcceptedPairsSpec(accepts, extract, p, pre);
      forall e ensures e in AcceptedPairs(accepts, extract, p, files) <==>
        exists i :: 0 <= i < |files| && accepts(p, files[i]) && e in extract(p, files[i])
      {
        if exists i :: 0 <= i < |files| && accepts(p, files[i]) && e in extract(p, files[i]) {
          var i :| 0 <= i < |files| && accepts(p, files[i]) && e in extract(p, files[i]);
          if i < |files| - 1 {
            assert pre[i] == files[i];
          }
        }
      }
    }
  }

  /** A key is in a category's map exactly when the map of some file the provider accepts has it. */
  lemma CollectKeys<P, F>(accepts: (P, F) -> bool, extract: (P, F) -> seq<(string, string)>, p: P, files: seq<F>)
    ensures forall k :: k in Keys(Collect(accepts, extract, p, files)) <==>
      exists i :: 0 <= i < |files| && accepts(p, files[i]) && k in Keys(extract(p, files[i]))
  {
    forall k ensures k in Keys(Collect(accepts, extract, p, files)) <==>
      exists i :: 0 <= i < |files| && accepts(p, files[i]) && k in Keys(extract(p, files[i]))
    {
      CollectKeyFromFile(accepts, extract, p, files, k);
      if exists i :: 0 <= i < |files| && accepts(p, files[i]) && k in Keys(extract(p, files[i])) {
        var i :| 0 <= i < |files| && accepts(p, files[i]) && k in Keys(extract(p, files[i]));
        FileKeyInCollect(accepts, extract, p, files, i, k);
      }
    }
  }

  lemma CollectKeyFromFile<P, F>(accepts: (P, F) -> bool, extract: (P, F) -> seq<(string, string)>, p: P, files: seq<F>, k: string)
    ensures k in Keys(Collect(accepts, extract, p, files)) ==>
      exists i :: 0 <= i < |files| && accepts(p, files[i]) && k in Keys(extract(p, files[i]))
  {
    var ps := AcceptedPairs(accepts, extract, p, files);
    if k in Keys(Collect(accepts, extract, p, files)) {
      CollectSpec(accepts, extract, p, files);
      assert k in Keys(ps);
      var n :| 0 <= n < |ps| && Keys(ps)[n] == k;
      assert ps[n] in ps;
      AcceptedPairsSpec(accepts, extract, p, files);
      var i :| 0 <= i < |files| && accepts(p, files[i]) && ps[n] in extract(p, files[i]);
      var ex := extract(p, files[i]);
      var j :| 0 <= j < |ex| && ex[j] == ps[n];
      assert Keys(ex)[j] == k;
    }
  }

  lemma FileKeyInCollect<P, F>(accepts: (P, F) -> bool, extract: (P, F) -> seq<(string, string)>, p: P, files: seq<F>, i: int, k: string)
    requires 0 <= i < |files| && accepts(p, files[i]) && k in Keys(extract(p, files[i]))
    ensures k in Keys(Collect(accepts, extract, p, files))
  {
    var ps := AcceptedPairs(accepts, extract, p, files);
    var ex := extract(p, files[i]);
    var j :| 0 <= j < |ex| && Keys(ex)[j] == k;
    assert ex[j] in ex;
    AcceptedPairsSpec(accepts, extract, p, files);
    assert ex[j] in ps;
    var n :| 0 <= n < |ps| && ps[n] == ex[j];
    assert Keys(ps)[n] == k;
    CollectSpec(accepts, extract, p, files);
  }

  /** The categories in provider order, before they are gathered by label. */
  function Categories<P, F>(labelOf: P -> string, accepts: (P, F) -> bool, extract: (P, F) -> seq<(string, string)>,
                            providers: seq<P>, files: seq<F>): (cs: seq<(string, seq<(string, string)>)>)
    ensures |cs| == |providers|
    ensures forall i :: 0 <= i < |providers| ==> cs[i] == (labelOf(providers[i]), Collect(accepts, extract, providers[i], files))
  {
    seq(|providers|, i requires 0 <= i < |providers| => (labelOf(providers[i]), Collect(accepts, extract, providers[i], files)))
  }

  /** The map from provider label to that provider's map. */
  function Aggregate<P, F>(labelOf: P -> string, accepts: (P, F) -> bool, extract: (P, F) -> seq<(string, string)>,
                           providers: seq<P>, files: seq<F>): (r: seq<(string, seq<(string, string)>)>)
    ensures Distinct(Keys(r))
    ensures forall l :: l in Keys(r) <==> exists i :: 0 <= i < |providers| && labelOf(providers[i]) == l
  {
    var cs := Categories(labelOf, accepts, extract, providers, files);
    FromPairsContract(cs);
    assert Keys(cs) == Labels(labelOf, providers);
    FromPairs(cs)
  }

  /** The labels of the providers, in provider order. */
  function Labels<P>(labelOf: P -> string, providers: seq<P>): (ls: seq<string>)
    ensures |ls| == |providers|
    ensures forall i :: 0 <= i < |providers| ==> ls[i] == labelOf(providers[i])
  {
    seq(|providers|, i requires 0 <= i < |providers| => labelOf(providers[i]))
  }

  /**
    One group per distinct label, in order of the label's first provider; a
    label used by several providers holds the map of the last of them, so the
    earlier providers' entries are lost.
   */
  lemma AggregateSpec<P, F>(labelOf: P -> string, accepts: (P, F) -> bool, extract: (P, F) -> seq<(string, string)>,
                            providers: seq<P>, files: seq<F>)
    ensures Keys(Aggregate(labelOf, accepts, extract, providers, files)) == Dedup(Labels(labelOf, providers))
    ensures forall l :: Get(Aggregate(labelOf, accepts, extract, providers, files), l).Some? ==>
      exists i :: (0 <= i < |providers| && labelOf(providers[i]) == l
        && (forall j :: i < j < |providers| ==> labelOf(providers[j]) != l)
        && Get(Aggregate(labelOf, accepts, extract, providers, files), l).value == Collect(accepts, extract, providers[i], files))
  {
    var cs := Categories(labelOf, accepts, extract, providers, files);
    FromPairsContract(cs);
    assert Keys(cs) == Labels(labelOf, providers);
  }

  /** Providers with pairwise different labels each get their own group, in provider order. */
  lemma AggregateOfDistinctLabels<P, F>(labelOf: P -> string, accepts: (P, F) -> bool, extract: (P, F) -> seq<(string, string)>,
                                        providers: seq<P>, files: seq<F>)
    requires Distinct(Labels(labelOf, providers))
    ensures Aggregate(labelOf, accepts, extract, providers, files) == Categories(labelOf, accepts, extract, providers, files)
  {
    var cs := Categories(labelOf, accepts, extract, providers, files);
    assert Keys(cs) == Labels(labelOf, providers);
    FromPairsOfDistinct(cs);
  }

}
