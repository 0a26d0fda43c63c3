/**
  The two skin-style extractors of `ResourceLabelSkinIdProvider.get`.

  The newer one works on a parsed skin file: every top-level section whose
  name contains "style" (ignoring case) contributes the names of its
  children, each keyed by its escaped form. Parsing the JSON is the host's
  business; the model starts from the parsed sections.

  The older one scans the raw lines with a one-bit state machine: a line
  starting with the `Label$LabelStyle:` marker opens a block, a line starting
  with '}' closes it, and every other line inside a block is searched with
  `([A-z]+): \{`, the group of the first match becoming both key and value.
 */
module SkinStyles {
  import opened Wrappers
  import opened Text
  import opened Escaping
  import opened OrderedMap

  // ------------------------------------------------------- parsed sections

  /** A top-level entry of the skin file: its name and the names of its children. */
  datatype Section = Section(name: string, children: seq<string>)

  predicate IsStyleSection(s: Section)
  {
    ContainsIgnoreCase(s.name, "style")
  }

  /** The `filter`/`flatMap`/`map { it.name }` chain: the child names of the style sections. */
  function StyleNames(sections: seq<Section>): seq<string>
  {
    if sections == [] then []
    else (if IsStyleSection(sections[0]) then sections[0].children else []) + StyleNames(sections[1..])
  }

  /** The pairs `associateBy { it.escape() }` builds its map from. */
  function StylePairs(sections: seq<Section>): seq<(string, string)>
  {
    var names := StyleNames(sections);
    seq(|names|, i requires 0 <= i < |names| => (Escape(names[i]), names[i]))
  }

  function StyleEntries(sections: seq<Section>): seq<(string, string)>
  {
    FromPairs(StylePairs(sections))
  }

  /** `n` is the name of a child of some style section. */
  predicate IsStyleChild(sections: seq<Section>, n: string)
  {
    exists s :: s in sections && IsStyleSection(s) && n in s.children
  }

  /** A name is collected exactly when it is a child of some style section. */
  lemma {:induction false} StyleNamesSpec(sections: seq<Section>)
    ensures forall n :: n in StyleNames(sections) <==> IsStyleChild(sections, n)
    decreases |sections|
  {
    if sections != [] {
      StyleNamesSpec(sections[1..]);
      assert sections == [sections[0]] + sections[1..];
    }
  }

  /** The keys of the style pairs: the escaped children of the style sections. */
  lemma StylePairKeys(sections: seq<Section>)
    ensures forall k :: k in Keys(StylePairs(sections)) <==> exists n :: IsStyleChild(sections, n) && Escape(n) == k
  {
    var names := StyleNames(sections);
    var ps := StylePairs(sections);
    StyleNamesSpec(sections);
    forall k ensures k in Keys(ps) <==> exists n :: IsStyleChild(sections, n) && Escape(n) == k {
      if k in Keys(ps) {
        var i :| 0 <= i < |ps| && Keys(ps)[i] == k;
        assert names[i] in names;
      } else {
        forall n | IsStyleChild(sections, n) ensures Escape(n) != k {
          assert n in names;
          var i :| 0 <= i < |names| && names[i] == n;
          assert Keys(ps)[i] == Escape(n);
        }
      }
    }
  }

  /**
    The newer style map: a key is present exactly when some child of a style
    section escapes to it; its value is such a child, the last one collected.
   */
  lemma StyleEntriesSpec(sections: seq<Section>)
    ensures forall k :: k in Keys(StyleEntries(sections)) <==> exists n :: IsStyleChild(sections, n) && Escape(n) == k
    ensures forall k :: Get(StyleEntries(sections), k) == LastValue(StylePairs(sections), k)
    ensures forall k :: Get(StyleEntries(sections), k).Some? ==>
      var v := Get(StyleEntries(sections), k).value; Escape(v) == k && IsStyleChild(sections, v)
    ensures Distinct(Keys(StyleEntries(sections)))
  {
    var names := StyleNames(sections);
    var ps := StylePairs(sections);
    FromPairsContract(ps);
    StylePairKeys(sections);
    StyleNamesSpec(sections);
    forall k | Get(StyleEntries(sections), k).Some?
      ensures var v := Get(StyleEntries(sections), k).value; Escape(v) == k && IsStyleChild(sections, v)
    {
      var v := Get(StyleEntries(sections), k).value;
      var i :| 0 <= i < |ps| && ps[i] == (k, v);
      assert names[i] in names;
    }
  }

  /**
    The parsed map's key order is unspecified, and it does not matter for
    which constants exist: sections listed in any order give the same keys.
   */
  lemma StyleKeysIgnoreOrder(a: seq<Section>, b: seq<Section>)
    requires multiset(a) == multiset(b)
    ensures forall k :: k in Keys(StyleEntries(a)) <==> k in Keys(StyleEntries(b))
  {
    StyleEntriesSpec(a);
    StyleEntriesSpec(b);
    forall s ensures s in a <==> s in b {
      assert s in a <==> s in multiset(a);
      assert s in b <==> s in multiset(b);
    }
    assert forall n :: IsStyleChild(a, n) <==> IsStyleChild(b, n);
  }

  // ------------------------------------------------------- `([A-z]+): \{`

  /** The class `[A-z]`: every character from 'A' to 'z', so also `[\]^_` and the backquote. */
  predicate IsAz(c: char)
  {
    'A' <= c <= 'z'
  }

  /** Where the `[A-z]` run starting at `p` ends. */
  function RunEnd(line: string, p: nat): (e: nat)
    requires p <= |line|
    ensures p <= e <= |line|
    ensures forall k :: p <= k < e ==> IsAz(line[k])
    ensures e == |line| || !IsAz(line[e])
    decreases |line| - p
  {
    if p < |line| && IsAz(line[p]) then RunEnd(line, p + 1) else p
  }

  /**
    The pattern can match starting at `p`. Its greedy `[A-z]+` stops at the
    end of the run, and since ':' is outside the class, ": {" has to follow
    the run right there.
   */
  predicate MatchAt(line: string, p: nat)
  {
    p < |line| && IsAz(line[p]) && OccursAt(line, ": {", RunEnd(line, p))
  }

  /** The regex's own reading of a match at `p` with the group `line[p..q]`, backtracking included. */
  predicate PatternMatch(line: string, p: nat, q: nat)
  {
    p < q <= |line| && (forall k :: p <= k < q ==> IsAz(line[k])) && OccursAt(line, ": {", q)
  }

  /** Backtracking finds nothing more: the group can only end where the run ends. */
  lemma BacktrackingAddsNothing(line: string, p: nat, q: nat)
    ensures PatternMatch(line, p, q) <==> (MatchAt(line, p) && q == RunEnd(line, p))
  {
    if PatternMatch(line, p, q) {
      var e := RunEnd(line, p);
      assert line[q..q + 3] == ": {" && line[q] == ':';
    }
  }

  /** `find` from position `p` on: the leftmost match, scanning start positions in order. */
  function FindLabelFrom(line: string, p: nat): Option<string>
    requires p <= |line|
    decreases |line| - p
  {
    if p == |line| then None
    else if MatchAt(line, p) then Some(line[p..RunEnd(line, p)])
    else FindLabelFrom(line, p + 1)
  }

  function FindLabel(line: string): Option<string>
  {
    FindLabelFrom(line, 0)
  }

  lemma FindLabelFromSpec(line: string, p: nat)
    requires p <= |line|
    ensures FindLabelFrom(line, p).None? <==> forall j :: p <= j < |line| ==> !MatchAt(line, j)
    ensures FindLabelFrom(line, p).Some? ==> exists j :: (p <= j < |line| && MatchAt(line, j)
      && (forall i :: p <= i < j ==> !MatchAt(line, i))
      && FindLabelFrom(line, p).value == line[j..RunEnd(line, j)])
  {
    FindLabelFromNone(line, p);
    if FindLabelFrom(line, p).Some? {
      FindLabelFromSome(line, p);
    }
  }

  lemma {:induction false} FindLabelFromNone(line: string, p: nat)
    requires p <= |line|
    ensures FindLabelFrom(line, p).None? <==> forall j :: p <= j < |line| ==> !MatchAt(line, j)
    decreases |line| - p
  {
    if p < |line| && !MatchAt(line, p) {
      FindLabelFromNone(line, p + 1);
    }
  }

  lemma {:induction false} FindLabelFromSome(line: string, p: nat)
    requires p <= |line| && FindLabelFrom(line, p).Some?
    ensures exists j :: (p <= j < |line| && MatchAt(line, j)
      && (forall i :: p <= i < j ==> !MatchAt(line, i))
      && FindLabelFrom(line, p).value == line[j..RunEnd(line, j)])
    decreases |line| - p
  {
    if !MatchAt(line, p) {
      FindLabelFromSome(line, p + 1);
      var j :| p + 1 <= j < |line| && MatchAt(line, j) && (forall i :: p + 1 <= i < j ==> !MatchAt(line, i))
        && FindLabelFrom(line, p + 1).value == line[j..RunEnd(line, j)];
      assert forall i :: p <= i < j ==> !MatchAt(line, i);
    }
  }

  /** A ": {" at `q` with an `[A-z]` character right before it. */
  predicate BraceAfterRun(line: string, q: int)
  {
    0 < q && OccursAt(line, ": {", q) && IsAz(line[q - 1])
  }

  /** The start of the `[A-z]` run that ends just before `q`. */
  function RunStart(line: string, q: nat): (s: nat)
    requires q <= |line|
    ensures s <= q
    ensures forall k :: s <= k < q ==> IsAz(line[k])
    ensures s == 0 || !IsAz(line[s - 1])
  {
    if q > 0 && IsAz(line[q - 1]) then RunStart(line, q - 1) else q
  }

  /**
    What the older extractor takes from a line: there is a label exactly when
    some ": {" follows an `[A-z]` character, and the label is then the whole
    `[A-z]` run directly before the first such ": {".
   */
  lemma FindLabelSpec(line: string)
    ensures FindLabel(line).Some? <==> exists q :: BraceAfterRun(line, q)
    ensures FindLabel(line).Some? ==> exists q :: (BraceAfterRun(line, q)
      && (forall q' :: 0 <= q' < q ==> !BraceAfterRun(line, q'))
      && FindLabel(line).value == line[RunStart(line, q)..q])
  {
    FindLabelFromSpec(line, 0);
    // every ": {" after a run gives a match at the start of that run
    forall q | BraceAfterRun(line, q) ensures MatchAt(line, RunStart(line, q)) && RunEnd(line, RunStart(line, q)) == q {
      BraceGivesMatch(line, q);
    }
    if FindLabel(line).Some? {
      var p :| 0 <= p < |line| && MatchAt(line, p) && (forall i :: 0 <= i < p ==> !MatchAt(line, i))
        && FindLabel(line).value == line[p..RunEnd(line, p)];
      LeftmostMatchGivesBrace(line, p);
    }
  }

  lemma BraceGivesMatch(line: string, q: nat)
    requires BraceAfterRun(line, q)
    ensures MatchAt(line, RunStart(line, q)) && RunEnd(line, RunStart(line, q)) == q
  {
    var s := RunStart(line, q);
    assert line[q] == line[q..q + 3][0] == ':';
    assert PatternMatch(line, s, q);
    BacktrackingAddsNothing(line, s, q);
  }

  /** The leftmost match starts a maximal run and ends at a ": {". */
  lemma LeftmostMatchGivesBrace(line: string, p: nat)
    requires MatchAt(line, p) && forall i :: 0 <= i < p ==> !MatchAt(line, i)
    ensures BraceAfterRun(line, RunEnd(line, p))
    ensures RunStart(line, RunEnd(line, p)) == p
  {
    var q := RunEnd(line, p);
    if p > 0 && IsAz(line[p - 1]) {
      assert RunEnd(line, p - 1) == q;
      assert MatchAt(line, p - 1);
    }
    RunStartOfRun(line, p, q);
  }

  /** The run start seen from the end of a maximal run is its first character. */
  lemma {:induction false} RunStartOfRun(line: string, p: nat, q: nat)
    requires p <= q <= |line|
    requires forall k :: p <= k < q ==> IsAz(line[k])
    requires p == 0 || !IsAz(line[p - 1])
    ensures RunStart(line, q) == p
    decreases q - p
  {
    if q > p {
      RunStartOfRun(line, p, q - 1);
    }
  }

  // ------------------------------------------------------- the line scanner

  /** The line that opens a label block. */
  const LabelStyleMarker: string := "com.badlogic.gdx.scenes.scene2d." + "ui.Label$LabelStyle:"

  predicate IsMarker(line: string)
  {
    LabelStyleMarker <= line
  }

  /** `startsWith("}")`: indentation is not skipped. */
  predicate IsClose(line: string)
  {
    |line| > 0 && line[0] == '}'
  }

  /** The scanner's state: whether a label block is open, and the pairs found so far. */
  datatype ScanState = ScanState(open: bool, found: seq<(string, string)>)

  /** One line through the `mapNotNull` body. */
  function Step(st: ScanState, line: string): ScanState
  {
    if !st.open then ScanState(IsMarker(line), st.found)
    else if IsClose(line) then ScanState(false, st.found)
    else ScanState(true, st.found + (match FindLabel(line) case Some(g) => [(g, g)] case None => []))
  }

  /** The state after the first `n` lines. */
  function ScanUpTo(lines: seq<string>, n: nat): ScanState
    requires n <= |lines|
  {
    if n == 0 then ScanState(false, []) else Step(ScanUpTo(lines, n - 1), lines[n - 1])
  }

  function LegacyStylePairs(lines: seq<string>): seq<(string, string)>
  {
    ScanUpTo(lines, |lines|).found
  }

  function LegacyStyleEntries(lines: seq<string>): seq<(string, string)>
  {
    FromPairs(LegacyStylePairs(lines))
  }

  // ------------------------------------------------------- without the state

  /** A block is open before line `n`: some earlier line is a marker and no line since closes. */
  predicate OpenBefore(lines: seq<string>, n: int)
    requires n <= |lines|
  {
    exists m :: 0 <= m < n && IsMarker(lines[m]) && forall j :: m < j < n ==> !IsClose(lines[j])
  }

  /** Line `i` is searched for a label: it lies in an open block and does not close it. */
  predicate Active(lines: seq<string>, i: int)
    requires 0 <= i < |lines|
  {
    OpenBefore(lines, i) && !IsClose(lines[i])
  }

  /** The labels of the active lines of the first `n` lines, in order. */
  function ActiveLabels(lines: seq<string>, n: nat): seq<(string, string)>
    requires n <= |lines|
  {
    if n == 0 then []
    else
      ActiveLabels(lines, n - 1)
      + (if Active(lines, n - 1) then match FindLabel(lines[n - 1]) case Some(g) => [(g, g)] case None => [] else [])
  }

  lemma MarkerIsNotClose(line: string)
    ensures IsMarker(line) ==> !IsClose(line)
  {
    if IsMarker(line) {
      assert line[0] == LabelStyleMarker[0];
    }
  }

  lemma OpenBeforeStep(lines: seq<string>, n: nat)
    requires n < |lines|
    ensures OpenBefore(lines, n + 1) <==>
      if OpenBefore(lines, n) then !IsClose(lines[n]) else IsMarker(lines[n])
  {
    MarkerIsNotClose(lines[n]);
    if OpenBefore(lines, n) {
      var m :| 0 <= m < n && IsMarker(lines[m]) && forall j :: m < j < n ==> !IsClose(lines[j]);
      if !IsClose(lines[n]) {
        assert forall j :: m < j < n + 1 ==> !IsClose(lines[j]);
      }
    } else if OpenBefore(lines, n + 1) {
      var m :| 0 <= m < n + 1 && IsMarker(lines[m]) && forall j :: m < j < n + 1 ==> !IsClose(lines[j]);
    }
  }

  /**
    The state machine agrees with the stateless reading: after `n` lines the
    block is open exactly when `OpenBefore` says so, and the pairs found are
    the labels of the active lines, in line order.
   */
  lemma {:induction false} ScanSpec(lines: seq<string>, n: nat)
    requires n <= |lines|
    ensures ScanUpTo(lines, n).open == OpenBefore(lines, n)
    ensures ScanUpTo(lines, n).found == ActiveLabels(lines, n)
  {
    if n > 0 {
      ScanSpec(lines, n - 1);
      OpenBeforeStep(lines, n - 1);
    }
  }

  /** Line `i` is active and holds the label `e.0`, which gives the pair `e`. */
  predicate LabelledAt(lines: seq<string>, i: int, e: (string, string))
    requires 0 <= i < |lines|
  {
    Active(lines, i) && FindLabel(lines[i]) == Some(e.0) && e.1 == e.0
  }

  /** A pair is found exactly for an active line holding a label, and its key is its value. */
  lemma {:induction false} ActiveLabelsSpec(lines: seq<string>, n: nat)
    requires n <= |lines|
    ensures forall e :: e in ActiveLabels(lines, n) <==> exists i :: 0 <= i < n && LabelledAt(lines, i, e)
  {
    if n > 0 {
      ActiveLabelsSpec(lines, n - 1);
      forall e ensures e in ActiveLabels(lines, n) <==> exists i :: 0 <= i < n && LabelledAt(lines, i, e) {
        ActiveLabelsLast(lines, n, e);
        if e in ActiveLabels(lines, n - 1) {
          var i :| 0 <= i < n - 1 && LabelledAt(lines, i, e);
        }
        if exists i :: 0 <= i < n && LabelledAt(lines, i, e) {
          var i :| 0 <= i < n && LabelledAt(lines, i, e);
          if i < n - 1 {
            assert e in ActiveLabels(lines, n - 1);
          }
        }
      }
    }
  }

  /** What the last line adds to `ActiveLabels`. */
  lemma ActiveLabelsLast(lines: seq<string>, n: nat, e: (string, string))
    requires 0 < n <= |lines|
    ensures e in ActiveLabels(lines, n) <==> (e in ActiveLabels(lines, n - 1) || LabelledAt(lines, n - 1, e))
  {
  }

  /**
    The older style map: its keys are the labels of the active lines, each
    once, in order of first appearance, and each maps to itself.
   */
  lemma LegacyStyleEntriesSpec(lines: seq<string>)
    ensures forall k :: k in Keys(LegacyStyleEntries(lines)) <==>
      exists i :: 0 <= i < |lines| && Active(lines, i) && FindLabel(lines[i]) == Some(k)
    ensures forall k :: k in Keys(LegacyStyleEntries(lines)) ==> Get(LegacyStyleEntries(lines), k) == Some(k)
    ensures Distinct(Keys(LegacyStyleEntries(lines)))
  {
    var ps := LegacyStylePairs(lines);
    FromPairsContract(ps);
    forall k ensures k in Keys(ps) <==> exists i :: 0 <= i < |lines| && Active(lines, i) && FindLabel(lines[i]) == Some(k) {
      LegacyStyleKey(lines, k);
    }
    forall k | k in Keys(LegacyStyleEntries(lines)) ensures Get(LegacyStyleEntries(lines), k) == Some(k) {
      LegacyStyleValue(lines, k);
    }
  }

  /** The scanner's pairs are the labelled active lines. */
  lemma LegacyStylePairsSpec(lines: seq<string>)
    ensures forall e :: e in LegacyStylePairs(lines) <==> exists i :: 0 <= i < |lines| && LabelledAt(lines, i, e)
  {
    ScanSpec(lines, |lines|);
    ActiveLabelsSpec(lines, |lines|);
  }

  lemma LegacyStyleKey(lines: seq<string>, k: string)
    ensures k in Keys(LegacyStylePairs(lines)) <==> exists i :: 0 <= i < |lines| && Active(lines, i) && FindLabel(lines[i]) == Some(k)
  {
    var ps := LegacyStylePairs(lines);
    LegacyStylePairsSpec(lines);
    if k in Keys(ps) {
      var j :| 0 <= j < |ps| && Keys(ps)[j] == k;
      assert ps[j] in ps;
      var i :| 0 <= i < |lines| && LabelledAt(lines, i, ps[j]);
    }
    if exists i :: 0 <= i < |lines| && Active(lines, i) && FindLabel(lines[i]) == Some(k) {
      var i :| 0 <= i < |lines| && Active(lines, i) && FindLabel(lines[i]) == Some(k);
      assert LabelledAt(lines, i, (k, k));
      assert (k, k) in ps;
      var j :| 0 <= j < |ps| && ps[j] == (k, k);
      assert Keys(ps)[j] == k;
    }
  }

  lemma LegacyStyleValue(lines: seq<string>, k: string)
    requires k in Keys(LegacyStyleEntries(lines))
    ensures Get(LegacyStyleEntries(lines), k) == Some(k)
  {
    var ps := LegacyStylePairs(lines);
    FromPairsContract(ps);
    LegacyStylePairsSpec(lines);
    var j :| 0 <= j < |ps| && ps[j] == (k, LastValue(ps, k).value);
    assert ps[j] in ps;
    var i :| 0 <= i < |lines| && LabelledAt(lines, i, ps[j]);
  }

  /** Lines before the first marker are never searched, and neither is a marker that opens a block. */
  lemma NothingOutsideBlocks(lines: seq<string>, i: nat)
    requires i < |lines|
    ensures (forall j :: 0 <= j < i ==> !IsMarker(lines[j])) ==> !Active(lines, i)
    ensures !OpenBefore(lines, i) ==> !Active(lines, i)
  {
  }

  /** A closing line ends the block: the lines after it are searched only once a marker reopens it. */
  lemma CloseEndsBlock(lines: seq<string>, c: nat, i: nat)
    requires c < i < |lines| && IsClose(lines[c])
    requires forall j :: c < j < i ==> !IsMarker(lines[j])
    ensures !Active(lines, i)
  {
    MarkerIsNotClose(lines[c]);
    forall m | 0 <= m < i && IsMarker(lines[m]) ensures exists j :: m < j < i && IsClose(lines[j]) {
      assert m < c;
    }
  }

}
