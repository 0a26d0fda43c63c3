/**
  The pieces of the Kotlin standard library the generator relies on, stated over
  strings as sequences of characters: `indexOf`, `replace`, `lastIndexOf`,
  `substringAfterLast`/`substringBeforeLast` (and through them `File.extension`
  and `File.nameWithoutExtension`), `removePrefix`, `trim`, `split`,
  `contains(p, ignoreCase = true)`, and `File.readLines`.
 */
module Text {
  import opened Wrappers

  // ---------------------------------------------------------------- searching

  /** `p` occurs in `s` starting at index `i`. */
  predicate OccursAt(s: string, p: string, i: int)
  {
    0 <= i && i + |p| <= |s| && s[i..i + |p|] == p
  }

  /** `s.indexOf(p, from)`: the first occurrence of `p` at or after `from`. */
  function IndexOfFrom(s: string, p: string, from: nat): (r: Option<nat>)
    ensures r.Some? ==> from <= r.value && OccursAt(s, p, r.value)
    ensures forall j :: from <= j && (r.None? || j < r.value) ==> !OccursAt(s, p, j)
    decreases |s| - from
  {
    if from + |p| > |s| then None
    else if OccursAt(s, p, from) then Some(from)
    else IndexOfFrom(s, p, from + 1)
  }

  function IndexOf(s: string, p: string): (r: Option<nat>)
    ensures r.Some? ==> OccursAt(s, p, r.value)
    ensures forall j :: 0 <= j && (r.None? || j < r.value) ==> !OccursAt(s, p, j)
  {
    IndexOfFrom(s, p, 0)
  }

  /** `s.lastIndexOf(c)`. */
  function LastIndexOf(s: string, c: char): (r: Option<nat>)
    ensures r.None? <==> c !in s
    ensures r.Some? ==> r.value < |s| && s[r.value] == c && c !in s[r.value + 1..]
  {
    if s == [] then None
    else if s[|s| - 1] == c then Some(|s| - 1)
    else
      assert s == s[..|s| - 1] + [s[|s| - 1]];
      LastIndexOf(s[..|s| - 1], c)
  }

  // ---------------------------------------------------------------- replacing

  /**
    `s.replace(oldValue, newValue)`: every occurrence, found left to right
    without overlap, is replaced.
   */
  function ReplaceAll(s: string, oldValue: string, newValue: string): (r: string)
    requires |oldValue| > 0
    ensures (forall i :: !OccursAt(s, oldValue, i)) ==> r == s
    decreases |s|
  {
    match IndexOf(s, oldValue)
    case None => s
    case Some(i) => s[..i] + newValue + ReplaceAll(s[i + |oldValue|..], oldValue, newValue)
  }

  /** Removing a leading occurrence of `p` from `p + t`, when `p` does not occur in `t`, leaves `t`. */
  lemma RemoveLeadingOccurrence(p: string, t: string)
    requires |p| > 0
    requires forall i :: !OccursAt(t, p, i)
    ensures ReplaceAll(p + t, p, "") == t
  {
    var s := p + t;
    assert OccursAt(s, p, 0);
    assert IndexOf(s, p) == Some(0);
    assert s[|p|..] == t;
  }

  // ---------------------------------------------------------------- file names

  /** `s.substringAfterLast(c, missing)`. */
  function SubstringAfterLast(s: string, c: char, missing: string): (r: string)
    ensures c !in s ==> r == missing
    ensures c in s ==> c !in r && exists i :: 0 <= i < |s| && s[i] == c && r == s[i + 1..]
  {
    match LastIndexOf(s, c)
    case None => missing
    case Some(i) => s[i + 1..]
  }

  /** `s.substringBeforeLast(c)`, whose missing-delimiter value is `s` itself. */
  function SubstringBeforeLast(s: string, c: char): (r: string)
    ensures c !in s ==> r == s
    ensures c in s ==> |r| < |s| && r <= s && s[|r|] == c
  {
    match LastIndexOf(s, c)
    case None => s
    case Some(i) => s[..i]
  }

  /** `File.extension`: the text after the last dot, or "" when there is none. */
  function Extension(name: string): string
  {
    SubstringAfterLast(name, '.', "")
  }

  /** `File.nameWithoutExtension`: the text before the last dot, or the whole name. */
  function NameWithoutExtension(name: string): string
  {
    SubstringBeforeLast(name, '.')
  }

  /**
    The two halves of a file name put back together give the name: with a dot,
    name = base + "." + extension and the extension holds no dot; without one,
    the extension is empty and the base is the whole name.
   */
  lemma ExtensionSplit(name: string)
    ensures '.' in name ==> NameWithoutExtension(name) + "." + Extension(name) == name && '.' !in Extension(name)
    ensures '.' !in name ==> Extension(name) == "" && NameWithoutExtension(name) == name
  {
    match LastIndexOf(name, '.')
    case None =>
    case Some(i) =>
      assert name == name[..i] + "." + name[i + 1..];
  }

  /** `s.removePrefix(p)`. */
  function RemovePrefix(s: string, p: string): (r: string)
    ensures p <= s ==> p + r == s
    ensures !(p <= s) ==> r == s
  {
    if p <= s then s[|p|..] else s
  }

  // ---------------------------------------------------------------- case

  function LowerAscii(c: char): char
  {
    if 'A' <= c <= 'Z' then (c as int + 32) as char else c
  }

  function Lower(s: string): (r: string)
    ensures |r| == |s|
  {
    seq(|s|, i requires 0 <= i < |s| => LowerAscii(s[i]))
  }

  /** `s.contains(p, ignoreCase = true)`, with ASCII case folding. */
  predicate ContainsIgnoreCase(s: string, p: string)
  {
    IndexOf(Lower(s), Lower(p)).Some?
  }

  // ---------------------------------------------------------------- trimming

  /** Kotlin's `Char.isWhitespace` on the JVM: Java whitespace or a Unicode space separator. */
  predicate IsWhitespace(c: char)
  {
    || c == ' '
    || '\t' <= c <= '\r'
    || '\U{001C}' <= c <= '\U{001F}'
    || c == '\U{00A0}' || c == '\U{1680}'
    || '\U{2000}' <= c <= '\U{200A}'
    || c == '\U{2028}' || c == '\U{2029}' || c == '\U{202F}' || c == '\U{205F}' || c == '\U{3000}'
  }

  function TrimStart(s: string): (r: string)
    ensures |r| <= |s| && r == s[|s| - |r|..]
    ensures forall k :: 0 <= k < |s| - |r| ==> IsWhitespace(s[k])
    ensures r == [] || !IsWhitespace(r[0])
  {
    if s != [] && IsWhitespace(s[0]) then TrimStart(s[1..]) else s
  }

  function TrimEnd(s: string): (r: string)
    ensures |r| <= |s| && r == s[..|r|]
    ensures forall k :: |r| <= k < |s| ==> IsWhitespace(s[k])
    ensures r == [] || !IsWhitespace(r[|r| - 1])
  {
    if s != [] && IsWhitespace(s[|s| - 1]) then TrimEnd(s[..|s| - 1]) else s
  }

  /** Everything before `a` and from `b` on is whitespace. */
  predicate OnlyWhitespaceOutside(s: string, a: int, b: int)
  {
    0 <= a <= b <= |s|
    && (forall k :: 0 <= k < a ==> IsWhitespace(s[k]))
    && (forall k :: b <= k < |s| ==> IsWhitespace(s[k]))
  }

  /**
    `s.trim()`: whitespace dropped from both ends, and only that. The result
    is a slice of `s` with only whitespace around it, neither starts nor ends
    with whitespace, and is `s` itself when there is nothing to drop.
   */
  function Trim(s: string): (r: string)
    ensures r == [] || (!IsWhitespace(r[0]) && !IsWhitespace(r[|r| - 1]))
    ensures exists a, b :: OnlyWhitespaceOutside(s, a, b) && r == s[a..b]
    ensures forall c :: c in r ==> c in s
    ensures (s == [] || (!IsWhitespace(s[0]) && !IsWhitespace(s[|s| - 1]))) ==> r == s
  {
    var t := TrimStart(s);
    var r := TrimEnd(t);
    var a := |s| - |t|;
    var b := a + |r|;
    TrimSlice(s, t, r);
    assert OnlyWhitespaceOutside(s, a, b) && r == s[a..b];
    r
  }

  /** Dropping a whitespace prefix and then a whitespace suffix leaves a slice with only whitespace around it. */
  lemma TrimSlice(s: string, t: string, r: string)
    requires |t| <= |s| && t == s[|s| - |t|..] && forall k :: 0 <= k < |s| - |t| ==> IsWhitespace(s[k])
    requires |r| <= |t| && r == t[..|r|] && forall k :: |r| <= k < |t| ==> IsWhitespace(t[k])
    ensures r == s[|s| - |t|..|s| - |t| + |r|]
    ensures OnlyWhitespaceOutside(s, |s| - |t|, |s| - |t| + |r|)
    ensures forall c :: c in r ==> c in s
  {
    var a := |s| - |t|;
    var b := a + |r|;
    forall k | 0 <= k < |r| ensures r[k] == s[a + k] {
      assert r[k] == t[k] == s[a + k];
    }
    forall k | b <= k < |s| ensures IsWhitespace(s[k]) {
      assert s[k] == t[k - a];
    }
    forall c | c in r ensures c in s {
      var k :| 0 <= k < |r| && r[k] == c;
      assert s[a + k] == c;
    }
  }

  // ---------------------------------------------------------------- splitting

  /** Kotlin's `s.split(c)`: every part, including empty leading and trailing ones. */
  function Split(s: string, c: char): (r: seq<string>)
    ensures |r| == multiset(s)[c] + 1
    ensures forall i :: 0 <= i < |r| ==> c !in r[i]
  {
    if s == [] then [""]
    else
      assert s == [s[0]] + s[1..];
      var rest := Split(s[1..], c);
      if s[0] == c then [""] + rest
      else [[s[0]] + rest[0]] + rest[1..]
  }

  /** The inverse of `Split`: the parts joined with the delimiter between them. */
  function Join(parts: seq<string>, c: char): string
    requires |parts| >= 1
  {
    if |parts| == 1 then parts[0] else parts[0] + [c] + Join(parts[1..], c)
  }

  lemma {:induction false} SplitJoin(s: string, c: char)
    ensures Join(Split(s, c), c) == s
    decreases |s|
  {
    if s != [] {
      var rest := Split(s[1..], c);
      SplitJoin(s[1..], c);
      SplitUnfold(s, c);
      if s[0] == c {
        JoinAfterEmpty(rest, c);
      } else {
        JoinExtendFirst(rest, s[0], c);
      }
      assert s == [s[0]] + s[1..];
    }
  }

  lemma SplitUnfold(s: string, c: char)
    requires s != []
    ensures Split(s, c) == if s[0] == c then [""] + Split(s[1..], c)
      else [[s[0]] + Split(s[1..], c)[0]] + Split(s[1..], c)[1..]
  {
  }

  lemma JoinAfterEmpty(rest: seq<string>, c: char)
    requires |rest| >= 1
    ensures Join([""] + rest, c) == [c] + Join(rest, c)
  {
    var parts := [""] + rest;
    assert parts[1..] == rest;
  }

  lemma JoinExtendFirst(rest: seq<string>, x: char, c: char)
    requires |rest| >= 1
    ensures Join([[x] + rest[0]] + rest[1..], c) == [x] + Join(rest, c)
  {
    var parts := [[x] + rest[0]] + rest[1..];
    if |rest| > 1 {
      assert parts[1..] == rest[1..];
    }
  }

  /** A part free of the delimiter, then the delimiter: the part comes off whole. */
  lemma {:induction false} SplitAfterPart(a: string, b: string, c: char)
    requires c !in a
    ensures Split(a + [c] + b, c) == [a] + Split(b, c)
    decreases |a|
  {
    var s := a + [c] + b;
    if a == [] {
      assert s[1..] == b;
    } else {
      assert s[1..] == a[1..] + [c] + b;
      SplitAfterPart(a[1..], b, c);
      assert [a[0]] + a[1..] == a;
    }
  }

  lemma {:induction false} SplitOfPart(a: string, c: char)
    requires c !in a
    ensures Split(a, c) == [a]
    decreases |a|
  {
    if a != [] {
      SplitOfPart(a[1..], c);
      assert [a[0]] + a[1..] == a;
    }
  }

  /** The other round trip: parts free of the delimiter are recovered by splitting their join. */
  lemma {:induction false} JoinSplit(parts: seq<string>, c: char)
    requires |parts| >= 1
    requires forall i :: 0 <= i < |parts| ==> c !in parts[i]
    ensures Split(Join(parts, c), c) == parts
    decreases |parts|
  {
    if |parts| == 1 {
      SplitOfPart(parts[0], c);
    } else {
      JoinSplit(parts[1..], c);
      SplitAfterPart(parts[0], Join(parts[1..], c), c);
      assert parts == [parts[0]] + parts[1..];
    }
  }

  /**
    Splitting into exactly two parts happens exactly when the delimiter occurs
    once, and then the parts are what lies before and after it.
   */
  lemma SplitInTwo(s: string, c: char)
    ensures |Split(s, c)| == 2 <==> multiset(s)[c] == 1
    ensures |Split(s, c)| == 2 ==> var parts := Split(s, c);
      s == parts[0] + [c] + parts[1] && c !in parts[0] && c !in parts[1]
  {
    SplitJoin(s, c);
    var parts := Split(s, c);
    if |parts| == 2 {
      assert parts[1..] == [parts[1]];
    }
  }

  // ---------------------------------------------------------------- lines

  /** The terminators `BufferedReader.readLine` recognises. */
  predicate IsLineBreak(c: char)
  {
    c == '\n' || c == '\r'
  }

  predicate NoLineBreak(s: string)
  {
    forall c :: c in s ==> !IsLineBreak(c)
  }

  /** The end of the line that starts at `i`: the first terminator at or after `i`. */
  function LineEnd(s: string, i: nat): (e: nat)
    requires i <= |s|
    ensures i <= e <= |s|
    ensures forall k :: i <= k < e ==> !IsLineBreak(s[k])
    ensures e < |s| ==> IsLineBreak(s[e])
    decreases |s| - i
  {
    if i == |s| || IsLineBreak(s[i]) then i else LineEnd(s, i + 1)
  }

  /**
    `File.readLines()`: lines end at "\n", "\r" or "\r\n"; a terminator at the
    very end does not start another line.
   */
  function ReadLines(text: string): seq<string>
    decreases |text|
  {
    if text == [] then []
    else
      var e := LineEnd(text, 0);
      if e == |text| then [text]
      else if text[e] == '\r' && e + 1 < |text| && text[e + 1] == '\n' then [text[..e]] + ReadLines(text[e + 2..])
      else [text[..e]] + ReadLines(text[e + 1..])
  }

  /** No line that `ReadLines` returns holds a terminator. */
  lemma {:induction false} ReadLinesHaveNoBreaks(text: string)
    ensures forall i :: 0 <= i < |ReadLines(text)| ==> NoLineBreak(ReadLines(text)[i])
    decreases |text|
  {
    if text != [] {
      var e := LineEnd(text, 0);
      forall c | c in text[..e] ensures !IsLineBreak(c) {
        var k :| 0 <= k < e && text[..e][k] == c;
        assert text[k] == c;
      }
      if e < |text| {
        if text[e] == '\r' && e + 1 < |text| && text[e + 1] == '\n' {
          ReadLinesHaveNoBreaks(text[e + 2..]);
        } else {
          ReadLinesHaveNoBreaks(text[e + 1..]);
        }
      }
    }
  }

  /** Lines each followed by "\n": the text that `output += line + "\n"` builds. */
  function JoinTerminated(lines: seq<string>): string
  {
    if lines == [] then "" else lines[0] + "\n" + JoinTerminated(lines[1..])
  }

  lemma {:induction false} JoinTerminatedAppend(a: seq<string>, b: seq<string>)
    ensures JoinTerminated(a + b) == JoinTerminated(a) + JoinTerminated(b)
    decreases |a|
  {
    if a != [] {
      assert (a + b)[0] == a[0];
      assert (a + b)[1..] == a[1..] + b;
      JoinTerminatedAppend(a[1..], b);
      calc {
        JoinTerminated(a + b);
        a[0] + "\n" + JoinTerminated(a[1..] + b);
        a[0] + "\n" + (JoinTerminated(a[1..]) + JoinTerminated(b));
        (a[0] + "\n" + JoinTerminated(a[1..])) + JoinTerminated(b);
      }
    } else {
      assert a + b == b;
    }
  }

  lemma LineEndOfUnbrokenPrefix(l: string, rest: string, i: nat)
    requires NoLineBreak(l)
    requires i <= |l|
    ensures |l| <= LineEnd(l + rest, i)
    ensures |rest| > 0 && IsLineBreak(rest[0]) ==> LineEnd(l + rest, i) == |l|
    decreases |l| - i
  {
    var s := l + rest;
    if i < |l| {
      assert s[i] == l[i] && l[i] in l;
      LineEndOfUnbrokenPrefix(l, rest, i + 1);
    } else {
      assert |rest| > 0 ==> s[i] == rest[0];
    }
  }

  /** Reading back a line that was written with a terminating "\n". */
  lemma ReadLinesAfterLine(l: string, rest: string)
    requires NoLineBreak(l)
    ensures ReadLines(l + "\n" + rest) == [l] + ReadLines(rest)
  {
    var s := l + "\n" + rest;
    assert s == l + ("\n" + rest);
    LineEndOfUnbrokenPrefix(l, "\n" + rest, 0);
    assert LineEnd(s, 0) == |l|;
    assert s[..|l|] == l;
    assert s[|l| + 1..] == rest;
  }

  /** No line of the sequence holds a terminator. */
  predicate LinesUnbroken(lines: seq<string>)
  {
    forall i :: 0 <= i < |lines| ==> NoLineBreak(lines[i])
  }

  lemma LinesUnbrokenConcat(a: seq<string>, b: seq<string>)
    requires LinesUnbroken(a) && LinesUnbroken(b)
    ensures LinesUnbroken(a + b)
  {
    forall i | 0 <= i < |a + b| ensures NoLineBreak((a + b)[i]) {
      if i >= |a| {
        assert (a + b)[i] == b[i - |a|];
      }
    }
  }

  /** One step of `ReadLinesJoinTerminated`: the first line comes off. */
  lemma ReadLinesJoinTerminatedStep(lines: seq<string>, rest: string)
    requires lines != [] && NoLineBreak(lines[0])
    ensures ReadLines(JoinTerminated(lines) + rest) == [lines[0]] + ReadLines(JoinTerminated(lines[1..]) + rest)
  {
    var after := JoinTerminated(lines[1..]) + rest;
    assert JoinTerminated(lines) + rest == lines[0] + "\n" + after;
    ReadLinesAfterLine(lines[0], after);
  }

  lemma LinesUnbrokenTail(lines: seq<string>)
    requires lines != [] && LinesUnbroken(lines)
    ensures NoLineBreak(lines[0]) && LinesUnbroken(lines[1..])
  {
    assert forall i :: 0 <= i < |lines[1..]| ==> lines[1..][i] == lines[i + 1];
  }

  /** The inductive step of `ReadLinesJoinTerminated`, given the hypothesis for the tail. */
  lemma ReadLinesJoinTerminatedCons(lines: seq<string>, rest: string)
    requires lines != [] && NoLineBreak(lines[0])
    requires ReadLines(JoinTerminated(lines[1..]) + rest) == lines[1..] + ReadLines(rest)
    ensures ReadLines(JoinTerminated(lines) + rest) == lines + ReadLines(rest)
  {
    ReadLinesJoinTerminatedStep(lines, rest);
    ConsAppend(lines, ReadLines(JoinTerminated(lines) + rest), ReadLines(JoinTerminated(lines[1..]) + rest), ReadLines(rest));
  }

  lemma AppendAssoc<T>(x: seq<T>, y: seq<T>, z: seq<T>)
    ensures x + (y + z) == (x + y) + z
  {
  }

  lemma ConsAppend<T>(xs: seq<T>, a: seq<T>, b: seq<T>, c: seq<T>)
    requires xs != [] && a == [xs[0]] + b && b == xs[1..] + c
    ensures a == xs + c
  {
    assert xs == [xs[0]] + xs[1..];
  }

  /** `ReadLines` undoes `JoinTerminated` on lines without terminators. */
  lemma {:induction false} ReadLinesJoinTerminated(lines: seq<string>, rest: string)
    requires LinesUnbroken(lines)
    ensures ReadLines(JoinTerminated(lines) + rest) == lines + ReadLines(rest)
    decreases |lines|
  {
    if lines == [] {
      assert JoinTerminated(lines) + rest == rest;
    } else {
      LinesUnbrokenTail(lines);
      ReadLinesJoinTerminated(lines[1..], rest);
      ReadLinesJoinTerminatedCons(lines, rest);
    }
  }
}
