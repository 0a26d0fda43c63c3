/**
  The prefixed-text-line extractor of `ResourceIdProvider.get`: the whole file
  is searched with the pattern `(<kind>.*):(.*)`, and every match that splits
  on ':' into exactly two parts gives one entry. The key is the left part with
  every "<kind>." removed (escaped in the newer provider, raw in the older
  one); the value is the right part, or the unstripped left part when the
  provider maps keys to keys.

  The pattern is matched as Java's regex engine does for a kind free of
  regex metacharacters: `.` never matches a line terminator, so a match lies
  within one line; it starts at the leftmost position that can begin a match,
  and its final `.*` runs to the end of that line.
 */
module TextLines {
  import opened Wrappers
  import opened Text
  import opened Escaping
  import opened OrderedMap

  /** The characters Java's `.` does not match when DOTALL and UNIX_LINES are off. */
  predicate IsRegexLineTerminator(c: char)
  {
    c == '\n' || c == '\r' || c == '\U{0085}' || c == '\U{2028}' || c == '\U{2029}'
  }

  predicate NoTerminator(s: string)
  {
    forall c :: c in s ==> !IsRegexLineTerminator(c)
  }

  /** The stretches of text between terminators, empty ones included. */
  function RegexLines(content: string): (r: seq<string>)
    ensures |r| >= 1
    ensures forall i :: 0 <= i < |r| ==> NoTerminator(r[i])
  {
    if content == [] then [""]
    else
      var rest := RegexLines(content[1..]);
      if IsRegexLineTerminator(content[0]) then [""] + rest
      else [[content[0]] + rest[0]] + rest[1..]
  }

  /** A terminator ends the current line and the search resumes after it. */
  lemma {:induction false} RegexLinesAtTerminator(a: string, t: char, b: string)
    requires NoTerminator(a) && IsRegexLineTerminator(t)
    ensures RegexLines(a + [t] + b) == [a] + RegexLines(b)
    decreases |a|
  {
    if a == [] {
      assert a + [t] + b == [t] + b;
    } else {
      assert (a + [t] + b)[1..] == a[1..] + [t] + b;
      RegexLinesAtTerminator(a[1..], t, b);
      assert [a[0]] + a[1..] == a;
    }
  }

  /** Text without a terminator is a single line. */
  lemma {:induction false} RegexLinesOfLine(a: string)
    requires NoTerminator(a)
    ensures RegexLines(a) == [a]
    decreases |a|
  {
    if a != [] {
      RegexLinesOfLine(a[1..]);
      assert [a[0]] + a[1..] == a;
    }
  }

  /**
    Together, `RegexLinesOfLine` and `RegexLinesAtTerminator` fix the lines of
    every text: cutting at the first terminator gives the first line and the
    lines of the rest.
   */
  lemma RegexLinesSplitAtFirst(content: string, i: nat)
    requires i < |content| && IsRegexLineTerminator(content[i]) && NoTerminator(content[..i])
    ensures RegexLines(content) == [content[..i]] + RegexLines(content[i + 1..])
  {
    RegexLinesAtTerminator(content[..i], content[i], content[i + 1..]);
    assert content[..i] + [content[i]] + content[i + 1..] == content;
  }

  /**
    `(<kind>.*):(.*)` can start matching at `p` of a terminator-free line:
    the kind is there and a ':' follows it on the line.
   */
  predicate RegexMatchAt(line: string, kind: string, p: int)
  {
    OccursAt(line, kind, p) && ':' in line[p + |kind|..]
  }

  /** The match in one line: from the first occurrence of the kind to the end of the line. */
  function MatchInLine(line: string, kind: string): Option<string>
  {
    match IndexOf(line, kind)
    case None => None
    case Some(p) => if ':' in line[p + |kind|..] then Some(line[p..]) else None
  }

  /**
    `MatchInLine` is the regex engine's leftmost match: there is a match
    exactly when the pattern can start somewhere, and then it is the rest of
    the line from the first such start. A later occurrence of the kind never
    helps, since any ':' after it is also after the first one.
   */
  lemma MatchInLineIsLeftmost(line: string, kind: string)
    ensures MatchInLine(line, kind).Some? <==> exists p :: RegexMatchAt(line, kind, p)
    ensures MatchInLine(line, kind).Some? ==> exists p :: (RegexMatchAt(line, kind, p)
      && MatchInLine(line, kind).value == line[p..]
      && forall q :: 0 <= q < p ==> !RegexMatchAt(line, kind, q))
  {
    match IndexOf(line, kind)
    case None =>
    case Some(p) =>
      forall q | RegexMatchAt(line, kind, q) ensures ':' in line[p + |kind|..] {
        assert p <= q;
        assert line[q + |kind|..] == line[p + |kind|..][q - p..];
      }
      if ':' in line[p + |kind|..] {
        assert RegexMatchAt(line, kind, p);
      }
  }

  /** `findAll` over the whole content: at most one match per line, in line order. */
  function MatchesIn(lines: seq<string>, kind: string): (r: seq<string>)
    ensures |r| <= |lines|
  {
    if lines == [] then []
    else
      (match MatchInLine(lines[0], kind) case Some(m) => [m] case None => [])
      + MatchesIn(lines[1..], kind)
  }

  function FindAll(content: string, kind: string): seq<string>
  {
    MatchesIn(RegexLines(content), kind)
  }

  /** The matches are exactly the per-line matches, and none spans a terminator. */
  lemma {:induction false} MatchesInSpec(lines: seq<string>, kind: string)
    ensures forall m :: m in MatchesIn(lines, kind) <==> exists i :: 0 <= i < |lines| && MatchInLine(lines[i], kind) == Some(m)
    decreases |lines|
  {
    if lines != [] {
      MatchesInSpec(lines[1..], kind);
      forall m ensures m in MatchesIn(lines, kind) <==> exists i :: 0 <= i < |lines| && MatchInLine(lines[i], kind) == Some(m) {
        if exists i :: 0 <= i < |lines| && MatchInLine(lines[i], kind) == Some(m) {
          var i :| 0 <= i < |lines| && MatchInLine(lines[i], kind) == Some(m);
          if i > 0 {
            assert lines[1..][i - 1] == lines[i];
          }
        }
      }
    }
  }

  /**
    Line order: the matches of two consecutive stretches of lines are the
    matches of the first followed by those of the second, so a match of an
    earlier line always comes before a match of a later one.
   */
  lemma {:induction false} MatchesInAppend(a: seq<string>, b: seq<string>, kind: string)
    ensures MatchesIn(a + b, kind) == MatchesIn(a, kind) + MatchesIn(b, kind)
    decreases |a|
  {
    if a == [] {
      assert a + b == b;
    } else {
      var rest := a[1..] + b;
      assert MatchesIn(a + b, kind) == MatchesIn([a[0]], kind) + MatchesIn(rest, kind) by {
        assert a + b == [a[0]] + rest;
        MatchesInCons(a[0], rest, kind);
      }
      assert MatchesIn(a, kind) == MatchesIn([a[0]], kind) + MatchesIn(a[1..], kind) by {
        assert a == [a[0]] + a[1..];
        MatchesInCons(a[0], a[1..], kind);
      }
      MatchesInAppend(a[1..], b, kind);
      AppendAssoc(MatchesIn([a[0]], kind), MatchesIn(a[1..], kind), MatchesIn(b, kind));
    }
  }

  lemma MatchesInCons(line: string, rest: seq<string>, kind: string)
    ensures MatchesIn([line] + rest, kind) == MatchesIn([line], kind) + MatchesIn(rest, kind)
  {
    assert ([line] + rest)[0] == line && ([line] + rest)[1..] == rest && [line][1..] == [];
  }

  /**
    A match becomes a raw pair when `split(":")` gives exactly two parts: the
    key is the left part with every "<kind>." removed, the value the right
    part, or the left part itself when keys map to keys.
   */
  function SplitEntry(m: string, kind: string, keyToKey: bool): Option<(string, string)>
  {
    var parts := Split(m, ':');
    if |parts| == 2 then Some((ReplaceAll(parts[0], kind + ".", ""), if keyToKey then parts[0] else parts[1]))
    else None
  }

  /**
    A match gives a pair exactly when it holds a single ':'; the pair is then
    built from what lies before and after that ':'.
   */
  lemma SplitEntrySpec(m: string, kind: string, keyToKey: bool)
    ensures SplitEntry(m, kind, keyToKey).Some? <==> multiset(m)[':'] == 1
    ensures SplitEntry(m, kind, keyToKey).Some? ==> exists i :: (0 <= i < |m| && m[i] == ':' && ':' !in m[..i] && ':' !in m[i + 1..]
      && SplitEntry(m, kind, keyToKey).value == (ReplaceAll(m[..i], kind + ".", ""), if keyToKey then m[..i] else m[i + 1..]))
  {
    var parts := Split(m, ':');
    SplitInTwo(m, ':');
    if |parts| == 2 {
      assert m[|parts[0]|] == ':' && m[..|parts[0]|] == parts[0] && m[|parts[0]| + 1..] == parts[1];
    }
  }


  function PairsOf(matches: seq<string>, kind: string, keyToKey: bool): seq<(string, string)>
  {
    if matches == [] then []
    else
      (match SplitEntry(matches[0], kind, keyToKey) case Some(e) => [e] case None => [])
      + PairsOf(matches[1..], kind, keyToKey)
  }

  /** The pairs of the older provider, before `toMap`: raw keys. */
  function LegacyTextLinePairs(content: string, kind: string, keyToKey: bool): seq<(string, string)>
  {
    PairsOf(FindAll(content, kind), kind, keyToKey)
  }

  /** The pairs of the newer provider, before `toMap`: the same pairs with escaped keys. */
  function TextLinePairs(content: string, kind: string, keyToKey: bool): seq<(string, string)>
  {
    var raw := LegacyTextLinePairs(content, kind, keyToKey);
    seq(|raw|, i requires 0 <= i < |raw| => (Escape(raw[i].0), raw[i].1))
  }

  function TextLineEntries(content: string, kind: string, keyToKey: bool): seq<(string, string)>
  {
    FromPairs(TextLinePairs(content, kind, keyToKey))
  }

  function LegacyTextLineEntries(content: string, kind: string, keyToKey: bool): seq<(string, string)>
  {
    FromPairs(LegacyTextLinePairs(content, kind, keyToKey))
  }

  lemma {:induction false} PairsOfSpec(matches: seq<string>, kind: string, keyToKey: bool)
    ensures forall e :: e in PairsOf(matches, kind, keyToKey) <==> exists m :: m in matches && SplitEntry(m, kind, keyToKey) == Some(e)
    decreases |matches|
  {
    if matches != [] {
      PairsOfSpec(matches[1..], kind, keyToKey);
      assert matches == [matches[0]] + matches[1..];
    }
  }

  /** Match order: the pairs keep the order of the matches they come from. */
  lemma {:induction false} PairsOfAppend(a: seq<string>, b: seq<string>, kind: string, keyToKey: bool)
    ensures PairsOf(a + b, kind, keyToKey) == PairsOf(a, kind, keyToKey) + PairsOf(b, kind, keyToKey)
    decreases |a|
  {
    if a == [] {
      assert a + b == b;
    } else {
      var rest := a[1..] + b;
      assert a + b == [a[0]] + rest;
      assert a == [a[0]] + a[1..];
      PairsOfCons(a[0], rest, kind, keyToKey);
      PairsOfCons(a[0], a[1..], kind, keyToKey);
      PairsOfAppend(a[1..], b, kind, keyToKey);
      AppendAssoc(PairsOf([a[0]], kind, keyToKey), PairsOf(a[1..], kind, keyToKey), PairsOf(b, kind, keyToKey));
    }
  }

  lemma PairsOfCons(m: string, rest: seq<string>, kind: string, keyToKey: bool)
    ensures PairsOf([m] + rest, kind, keyToKey) == PairsOf([m], kind, keyToKey) + PairsOf(rest, kind, keyToKey)
  {
    assert ([m] + rest)[0] == m && ([m] + rest)[1..] == rest && [m][1..] == [];
  }

  /**
    Every raw pair comes from one match in one line of the content, a match
    that splits into exactly two parts; and every such match gives a pair.
   */
  lemma LegacyTextLinePairsSpec(content: string, kind: string, keyToKey: bool)
    ensures forall e :: e in LegacyTextLinePairs(content, kind, keyToKey) <==>
      exists line :: line in RegexLines(content) && MatchInLine(line, kind).Some?
        && SplitEntry(MatchInLine(line, kind).value, kind, keyToKey) == Some(e)
  {
    forall e | e in LegacyTextLinePairs(content, kind, keyToKey)
      ensures exists line :: (line in RegexLines(content) && MatchInLine(line, kind).Some?
        && SplitEntry(MatchInLine(line, kind).value, kind, keyToKey) == Some(e))
    {
      PairFromLine(content, kind, keyToKey, e);
    }
    forall line, e | line in RegexLines(content) && MatchInLine(line, kind).Some?
        && SplitEntry(MatchInLine(line, kind).value, kind, keyToKey) == Some(e)
      ensures e in LegacyTextLinePairs(content, kind, keyToKey)
    {
      LineGivesPair(content, kind, keyToKey, line, e);
    }
  }

  lemma PairFromLine(content: string, kind: string, keyToKey: bool, e: (string, string))
    requires e in LegacyTextLinePairs(content, kind, keyToKey)
    ensures exists line :: (line in RegexLines(content) && MatchInLine(line, kind).Some?
      && SplitEntry(MatchInLine(line, kind).value, kind, keyToKey) == Some(e))
  {
    var lines := RegexLines(content);
    PairsOfSpec(FindAll(content, kind), kind, keyToKey);
    var m :| m in FindAll(content, kind) && SplitEntry(m, kind, keyToKey) == Some(e);
    MatchesInSpec(lines, kind);
    var i :| 0 <= i < |lines| && MatchInLine(lines[i], kind) == Some(m);
    assert lines[i] in lines;
  }

  lemma LineGivesPair(content: string, kind: string, keyToKey: bool, line: string, e: (string, string))
    requires line in RegexLines(content) && MatchInLine(line, kind).Some?
    requires SplitEntry(MatchInLine(line, kind).value, kind, keyToKey) == Some(e)
    ensures e in LegacyTextLinePairs(content, kind, keyToKey)
  {
    var lines := RegexLines(content);
    var i :| 0 <= i < |lines| && lines[i] == line;
    MatchesInSpec(lines, kind);
    assert MatchInLine(line, kind).value in FindAll(content, kind);
    PairsOfSpec(FindAll(content, kind), kind, keyToKey);
  }

  /**
    The newer provider's map: a key is present exactly when some raw pair's
    key escapes to it, and it holds the value of the last such pair.
   */
  lemma TextLineEntriesSpec(content: string, kind: string, keyToKey: bool)
    ensures forall k :: k in Keys(TextLineEntries(content, kind, keyToKey)) <==>
      exists e :: e in LegacyTextLinePairs(content, kind, keyToKey) && Escape(e.0) == k
    ensures forall k :: Get(TextLineEntries(content, kind, keyToKey), k) == LastValue(TextLinePairs(content, kind, keyToKey), k)
    ensures Distinct(Keys(TextLineEntries(content, kind, keyToKey)))
  {
    var raw := LegacyTextLinePairs(content, kind, keyToKey);
    var ps := TextLinePairs(content, kind, keyToKey);
    FromPairsContract(ps);
    forall k ensures k in Keys(ps) <==> exists e :: e in raw && Escape(e.0) == k {
      if k in Keys(ps) {
        var n :| 0 <= n < |ps| && Keys(ps)[n] == k;
        assert raw[n] in raw;
      }
      if exists e :: e in raw && Escape(e.0) == k {
        var e :| e in raw && Escape(e.0) == k;
        var n :| 0 <= n < |raw| && raw[n] == e;
        assert Keys(ps)[n] == k;
      }
    }
  }

  // ------------------------------------------------------------- examples

  /** With no ':' other than the one given, a split at it gives the two sides. */
  lemma SplitAtOnlyDelimiter(a: string, c: char, b: string)
    requires c !in a && c !in b
    ensures Split(a + [c] + b, c) == [a, b]
  {
    SplitAfterPart(a, b, c);
    SplitOfPart(b, c);
  }

  lemma KeyOfPrefixedLine(kind: string, key: string)
    requires forall i :: !OccursAt(key, kind + ".", i)
    ensures ReplaceAll(kind + "." + key, kind + ".", "") == key
  {
    RemoveLeadingOccurrence(kind + ".", key);
  }

  /** A line that starts with the kind and has a ':' after it is matched whole. */
  lemma MatchAtStart(line: string, kind: string)
    requires kind <= line && ':' in line[|kind|..]
    ensures MatchInLine(line, kind) == Some(line)
  {
    assert OccursAt(line, kind, 0);
  }

  lemma NoMatchInEmptyLine(kind: string)
    ensures MatchInLine("", kind) == None
  {
    match IndexOf("", kind)
    case None =>
    case Some(p) => assert ""[p + |kind|..] == "";
  }

  lemma TwoTerminatedLines(l1: string, l2: string)
    requires NoTerminator(l1) && NoTerminator(l2)
    ensures RegexLines(l1 + "\n" + l2 + "\n") == [l1, l2, ""]
  {
    assert l1 + "\n" + l2 + "\n" == l1 + ['\n'] + (l2 + ['\n'] + "");
    RegexLinesAtTerminator(l1, '\n', l2 + ['\n'] + "");
    RegexLinesAtTerminator(l2, '\n', "");
  }

  lemma TwoMatchingLines(l1: string, l2: string, kind: string)
    requires kind <= l1 && ':' in l1[|kind|..]
    requires kind <= l2 && ':' in l2[|kind|..]
    ensures MatchesIn([l1, l2, ""], kind) == [l1, l2]
  {
    MatchAtStart(l1, kind);
    MatchAtStart(l2, kind);
    NoMatchInEmptyLine(kind);
    ThreeLineMatches(l1, l2, "", kind);
  }

  lemma ThreeLineMatches(l1: string, l2: string, l3: string, kind: string)
    requires MatchInLine(l1, kind) == Some(l1) && MatchInLine(l2, kind) == Some(l2) && MatchInLine(l3, kind) == None
    ensures MatchesIn([l1, l2, l3], kind) == [l1, l2]
  {
    var lines := [l1, l2, l3];
    assert lines[1..] == [l2, l3] && lines[1..][1..] == [l3] && [l3][1..] == [];
    assert MatchesIn([l3], kind) == [];
    assert MatchesIn([l2, l3], kind) == [l2];
  }

  /** A line `<kind>.<key>:<value>` with a single ':' gives the pair of key and value. */
  lemma PrefixedEntry(kind: string, key: string, value: string, keyToKey: bool)
    requires ':' !in kind + "." + key && ':' !in value
    requires forall i :: !OccursAt(key, kind + ".", i)
    ensures SplitEntry(kind + "." + key + ":" + value, kind, keyToKey)
      == Some((key, if keyToKey then kind + "." + key else value))
  {
    SplitAtOnlyDelimiter(kind + "." + key, ':', value);
    KeyOfPrefixedLine(kind, key);
  }

  /** The table's lines, as `TwoLineTable` lays them out. */
  function TableLine(kind: string, key: string, value: string): string
  {
    kind + "." + key + ":" + value
  }

  lemma TwoLineMatches(kind: string, k1: string, v1: string, k2: string, v2: string)
    requires NoTerminator(kind) && NoTerminator(k1) && NoTerminator(v1) && NoTerminator(k2) && NoTerminator(v2)
    ensures FindAll(TableLine(kind, k1, v1) + "\n" + TableLine(kind, k2, v2) + "\n", kind)
      == [TableLine(kind, k1, v1), TableLine(kind, k2, v2)]
  {
    var l1, l2 := TableLine(kind, k1, v1), TableLine(kind, k2, v2);
    assert NoTerminator(l1) && NoTerminator(l2);
    TwoTerminatedLines(l1, l2);
    assert l1[|kind|..][|k1| + 1] == ':' && l2[|kind|..][|k2| + 1] == ':';
    TwoMatchingLines(l1, l2, kind);
  }

  lemma TwoLinePairs(kind: string, k1: string, v1: string, k2: string, v2: string, keyToKey: bool)
    requires ':' !in kind && ':' !in k1 && ':' !in v1 && ':' !in k2 && ':' !in v2
    requires forall i :: !OccursAt(k1, kind + ".", i)
    requires forall i :: !OccursAt(k2, kind + ".", i)
    ensures PairsOf([TableLine(kind, k1, v1), TableLine(kind, k2, v2)], kind, keyToKey)
      == [(k1, if keyToKey then kind + "." + k1 else v1), (k2, if keyToKey then kind + "." + k2 else v2)]
  {
    var l1, l2 := TableLine(kind, k1, v1), TableLine(kind, k2, v2);
    var e1, e2 := (k1, if keyToKey then kind + "." + k1 else v1), (k2, if keyToKey then kind + "." + k2 else v2);
    PrefixedEntry(kind, k1, v1, keyToKey);
    PrefixedEntry(kind, k2, v2, keyToKey);
    assert SplitEntry(l1, kind, keyToKey) == Some(e1);
    assert SplitEntry(l2, kind, keyToKey) == Some(e2);
    var ms := [l1, l2];
    assert ms[1..] == [l2] && [l2][1..] == [];
    assert PairsOf([l2], kind, keyToKey) == [e2] + PairsOf([], kind, keyToKey);
    assert PairsOf(ms, kind, keyToKey) == [e1] + PairsOf([l2], kind, keyToKey);
  }

  /**
    A two-line string table, each line
    `<kind>.<key>:<value>` and each ended by a newline, gives one entry per
    line, in order: the escaped key, with the value or the whole left part.
   */
  lemma TwoLineTable(kind: string, k1: string, v1: string, k2: string, v2: string, keyToKey: bool)
    requires NoTerminator(kind) && NoTerminator(k1) && NoTerminator(v1) && NoTerminator(k2) && NoTerminator(v2)
    requires ':' !in kind && ':' !in k1 && ':' !in v1 && ':' !in k2 && ':' !in v2
    requires forall i :: !OccursAt(k1, kind + ".", i)
    requires forall i :: !OccursAt(k2, kind + ".", i)
    requires Escape(k1) != Escape(k2)
    ensures TextLineEntries(TableLine(kind, k1, v1) + "\n" + TableLine(kind, k2, v2) + "\n", kind, keyToKey)
      == [(Escape(k1), if keyToKey then kind + "." + k1 else v1), (Escape(k2), if keyToKey then kind + "." + k2 else v2)]
  {
    var content := TableLine(kind, k1, v1) + "\n" + TableLine(kind, k2, v2) + "\n";
    var w1, w2 := (if keyToKey then kind + "." + k1 else v1), (if keyToKey then kind + "." + k2 else v2);
    assert LegacyTextLinePairs(content, kind, keyToKey) == [(k1, w1), (k2, w2)] by {
      TwoLineMatches(kind, k1, v1, k2, v2);
      TwoLinePairs(kind, k1, v1, k2, v2, keyToKey);
    }
    TwoRawPairsEntries(content, kind, keyToKey, k1, w1, k2, w2);
  }

  lemma TwoRawPairsEntries(content: string, kind: string, keyToKey: bool, k1: string, w1: string, k2: string, w2: string)
    requires LegacyTextLinePairs(content, kind, keyToKey) == [(k1, w1), (k2, w2)]
    requires Escape(k1) != Escape(k2)
    ensures TextLineEntries(content, kind, keyToKey) == [(Escape(k1), w1), (Escape(k2), w2)]
  {
    var ps := [(Escape(k1), w1), (Escape(k2), w2)];
    assert TextLinePairs(content, kind, keyToKey) == ps;
    assert Keys(ps) == [Escape(k1), Escape(k2)];
    FromPairsOfDistinct(ps);
  }


  lemma StringTableLayout()
    ensures "string.hello: Hello World\nstring.bye: Goodbye\n"
      == TableLine("string", "hello", " Hello World") + "\n" + TableLine("string", "bye", " Goodbye") + "\n"
    ensures "string.hello" == "string" + "." + "hello" && "string.bye" == "string" + "." + "bye"
  {
    assert "string" + "." == "string.";
    assert "string." + "hello" == "string.hello";
    assert "string." + "bye" == "string.bye";
    assert "string.hello" + ":" == "string.hello:";
    assert "string.bye" + ":" == "string.bye:";
    assert "string.hello:" + " Hello World" == "string.hello: Hello World";
    assert "string.bye:" + " Goodbye" == "string.bye: Goodbye";
    assert "string.hello: Hello World" + "\n" == "string.hello: Hello World\n";
    assert "string.bye: Goodbye" + "\n" == "string.bye: Goodbye\n";
    assert "string.hello: Hello World\n" + "string.bye: Goodbye\n" == "string.hello: Hello World\nstring.bye: Goodbye\n";
  }

  lemma StringTablePieces()
    ensures NoTerminator("string") && NoTerminator("hello") && NoTerminator(" Hello World")
    ensures NoTerminator("bye") && NoTerminator(" Goodbye")
    ensures ':' !in "string" && ':' !in "hello" && ':' !in " Hello World" && ':' !in "bye" && ':' !in " Goodbye"
  {
  }

  lemma StringTableKeys()
    ensures forall i :: !OccursAt("hello", "string" + ".", i)
    ensures forall i :: !OccursAt("bye", "string" + ".", i)
    ensures Escape("hello") == "hello" && Escape("bye") == "bye"
  {
    EscapeFixpoint("hello");
    EscapeFixpoint("bye");
  }

  /** An example string table, read with keys mapped to values and to keys. */
  lemma StringTableExample(keyToKey: bool)
    ensures TextLineEntries("string.hello: Hello World\nstring.bye: Goodbye\n", "string", keyToKey)
      == if keyToKey then [("hello", "string.hello"), ("bye", "string.bye")]
         else [("hello", " Hello World"), ("bye", " Goodbye")]
  {
    StringTableLayout();
    StringTablePieces();
    StringTableKeys();
    TwoLineTable("string", "hello", " Hello World", "bye", " Goodbye", keyToKey);
  }

}
