/**
  The sprite extractor of `ResourceSpriteIdProvider.get`. A texture-atlas file
  alternates unindented region-name lines with indented attribute lines; a
  region name is a line that is not indented and is followed by an indented
  line. The newer provider keys each region by its escaped text, the older
  one by its raw text; both keep the raw, untrimmed line as the value.
 */
module Sprites {
  import opened Wrappers
  import opened Escaping
  import opened OrderedMap

  /** `startsWith(" ")`: only a leading space counts as indentation, not a tab. */
  predicate IsIndented(line: string)
  {
    |line| > 0 && line[0] == ' '
  }

  /** Line `i` introduces an indented block; the last line never does. */
  predicate IsRegionAt(lines: seq<string>, i: int)
  {
    0 <= i < |lines| - 1 && !IsIndented(lines[i]) && IsIndented(lines[i + 1])
  }

  /**
    The region lines from index `i` on, in file order: the `mapIndexedNotNull`
    over `dropLast(1)` with its look-ahead at line `i + 1`.
   */
  function RegionsFrom(lines: seq<string>, i: nat): (r: seq<string>)
    ensures forall t :: t in r <==> exists j :: i <= j && IsRegionAt(lines, j) && lines[j] == t
    decreases |lines| - i
  {
    if i + 1 >= |lines| then []
    else (if IsRegionAt(lines, i) then [lines[i]] else []) + RegionsFrom(lines, i + 1)
  }

  function RegionLines(lines: seq<string>): (r: seq<string>)
    ensures |lines| < 2 ==> r == []
    ensures forall t :: t in r <==> exists i :: IsRegionAt(lines, i) && lines[i] == t
  {
    RegionsFrom(lines, 0)
  }

  /**
    File order: appending a line appends at most one region, the line before it,
    and only when the new line is what makes that line a region. Together with
    `RegionLines([]) == []` this fixes the order of the whole sequence.
   */
  lemma RegionLinesSnoc(lines: seq<string>, l: string)
    ensures RegionLines(lines + [l]) == RegionLines(lines)
      + (if |lines| >= 1 && !IsIndented(lines[|lines| - 1]) && IsIndented(l) then [lines[|lines| - 1]] else [])
  {
    RegionsFromSnoc(lines, l, 0);
  }

  lemma {:induction false} RegionsFromSnoc(lines: seq<string>, l: string, i: nat)
    ensures RegionsFrom(lines + [l], i) == RegionsFrom(lines, i)
      + (if i < |lines| && IsRegionAt(lines + [l], |lines| - 1) then [lines[|lines| - 1]] else [])
    decreases |lines| - i
  {
    var ext := lines + [l];
    if i >= |lines| {
    } else if i == |lines| - 1 {
      assert RegionsFrom(lines, i) == [];
      assert RegionsFrom(ext, i + 1) == [];
    } else {
      assert IsRegionAt(ext, i) == IsRegionAt(lines, i);
      RegionsFromSnoc(lines, l, i + 1);
    }
  }

  /** The pairs `text.escape() to text` of the newer provider, before `toMap`. */
  function SpritePairs(lines: seq<string>): seq<(string, string)>
  {
    var regions := RegionLines(lines);
    seq(|regions|, k requires 0 <= k < |regions| => (Escape(regions[k]), regions[k]))
  }

  /** The pairs `text to text` of the older provider, before `toMap`. */
  function LegacySpritePairs(lines: seq<string>): seq<(string, string)>
  {
    var regions := RegionLines(lines);
    seq(|regions|, k requires 0 <= k < |regions| => (regions[k], regions[k]))
  }

  function SpriteEntries(lines: seq<string>): seq<(string, string)>
  {
    FromPairs(SpritePairs(lines))
  }

  function LegacySpriteEntries(lines: seq<string>): seq<(string, string)>
  {
    FromPairs(LegacySpritePairs(lines))
  }

  /**
    The newer sprite map: a key is present exactly when some region line
    escapes to it; it holds the last region line (in file order) that does,
    which is a raw region line whose escape is the key.
   */
  lemma SpriteEntriesSpec(lines: seq<string>)
    ensures forall k :: k in Keys(SpriteEntries(lines)) <==> exists i :: IsRegionAt(lines, i) && Escape(lines[i]) == k
    ensures forall k :: Get(SpriteEntries(lines), k) == LastValue(SpritePairs(lines), k)
    ensures forall k :: Get(SpriteEntries(lines), k).Some? ==>
      var v := Get(SpriteEntries(lines), k).value; Escape(v) == k && v in RegionLines(lines)
    ensures Distinct(Keys(SpriteEntries(lines)))
  {
    var ps := SpritePairs(lines);
    var regions := RegionLines(lines);
    FromPairsContract(ps);
    forall k ensures k in Keys(SpriteEntries(lines)) <==> exists i :: IsRegionAt(lines, i) && Escape(lines[i]) == k {
      if k in Keys(SpriteEntries(lines)) {
        assert k in Keys(ps);
        var n :| 0 <= n < |ps| && Keys(ps)[n] == k;
        assert regions[n] in regions;
      } else {
        forall i | IsRegionAt(lines, i) ensures Escape(lines[i]) != k {
          assert lines[i] in regions;
          var n :| 0 <= n < |regions| && regions[n] == lines[i];
          assert Keys(ps)[n] == Escape(lines[i]);
        }
      }
    }
    forall k | Get(SpriteEntries(lines), k).Some?
      ensures var v := Get(SpriteEntries(lines), k).value; Escape(v) == k && v in regions
    {
      var v := Get(SpriteEntries(lines), k).value;
      var n :| 0 <= n < |ps| && ps[n] == (k, v);
      assert regions[n] in regions;
    }
  }

  /**
    The older sprite map: the keys are the region lines themselves, each once
    and in file order, and each maps to itself.
   */
  lemma LegacySpriteEntriesSpec(lines: seq<string>)
    ensures Keys(LegacySpriteEntries(lines)) == Dedup(RegionLines(lines))
    ensures forall k :: k in Keys(LegacySpriteEntries(lines)) <==> exists i :: IsRegionAt(lines, i) && lines[i] == k
    ensures forall k :: k in Keys(LegacySpriteEntries(lines)) ==> Get(LegacySpriteEntries(lines), k) == Some(k)
  {
    var ps := LegacySpritePairs(lines);
    FromPairsContract(ps);
    assert Keys(ps) == RegionLines(lines);
    forall k | k in Keys(LegacySpriteEntries(lines)) ensures Get(LegacySpriteEntries(lines), k) == Some(k) {
      var n :| 0 <= n < |ps| && ps[n] == (k, LastValue(ps, k).value);
    }
  }

  /** The example atlas of two regions, each followed by one attribute line. */
  lemma TwoRegionExample()
    ensures SpriteEntries(["region_a", "  size: 10,10", "region_b", "  size: 5,5"])
      == [("region_a", "region_a"), ("region_b", "region_b")]
  {
    var ps := [("region_a", "region_a"), ("region_b", "region_b")];
    TwoRegionPairs();
    assert Keys(ps) == ["region_a", "region_b"];
    FromPairsOfDistinct(ps);
  }

  lemma TwoRegionPairs()
    ensures SpritePairs(["region_a", "  size: 10,10", "region_b", "  size: 5,5"])
      == [("region_a", "region_a"), ("region_b", "region_b")]
  {
    TwoRegionLines();
    EscapeFixpoint("region_a");
    EscapeFixpoint("region_b");
    PairsOfTwoRegions(["region_a", "  size: 10,10", "region_b", "  size: 5,5"], "region_a", "region_b");
  }

  lemma PairsOfTwoRegions(lines: seq<string>, a: string, b: string)
    requires RegionLines(lines) == [a, b]
    requires Escape(a) == a && Escape(b) == b
    ensures SpritePairs(lines) == [(a, a), (b, b)]
  {
  }

  lemma TwoRegionLines()
    ensures RegionLines(["region_a", "  size: 10,10", "region_b", "  size: 5,5"]) == ["region_a", "region_b"]
  {
    var lines := ["region_a", "  size: 10,10", "region_b", "  size: 5,5"];
    assert RegionsFrom(lines, 3) == [];
    assert RegionsFrom(lines, 2) == ["region_b"] by {
      assert IsRegionAt(lines, 2);
    }
    assert RegionsFrom(lines, 1) == ["region_b"] by {
      assert !IsRegionAt(lines, 1);
    }
    assert RegionsFrom(lines, 0) == ["region_a", "region_b"] by {
      assert IsRegionAt(lines, 0);
    }
  }

  /** A tab is not indentation: a line followed by a tab-indented line is not a region. */
  lemma TabIsNotIndentation()
    ensures SpriteEntries(["region", "\tsize: 1,1"]) == []
  {
    var lines := ["region", "\tsize: 1,1"];
    assert !IsIndented(lines[1]);
    assert RegionLines(lines) == [];
  }

  /** A region named twice yields one entry. */
  lemma DuplicateRegionCollapses()
    ensures SpriteEntries(["a", " x", "a", " y"]) == [("a", "a")]
  {
    var lines := ["a", " x", "a", " y"];
    assert IsRegionAt(lines, 0) && !IsRegionAt(lines, 1) && IsRegionAt(lines, 2);
    assert RegionLines(lines) == ["a", "a"];
    assert Escape("a") == "a" by { EscapeFixpoint("a"); }
    var ps := [("a", "a"), ("a", "a")];
    assert SpritePairs(lines) == ps;
    assert ps[..1] == [ps[0]] && [ps[0]][..0] == [];
    assert PutAll([], [ps[0]]) == Put(PutAll([], []), ps[0].0, ps[0].1);
    assert FromPairs([ps[0]]) == [ps[0]];
    assert FromPairs(ps) == Put([ps[0]], "a", "a");
  }

}
