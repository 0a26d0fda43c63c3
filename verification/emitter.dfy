/**
  The code emitter: `generateResourceClass` writes one nested class per
  category with a `const val` line per entry, `process` joins the classes
  with "\n", and `generateClass` wraps them in an optional package header
  and `class R { ... }`. Both versions of the generator emit the same text.
 */
module Emitter {
  import opened Wrappers
  import opened Text

  /** One constant: the key, and the value with surrounding whitespace trimmed, in quotes. */
  function EntryLine(k: string, v: string): string
  {
    "      const val " + k + " = \"" + Trim(v) + "\""
  }

  function EntryLines(entries: seq<(string, string)>): (ls: seq<string>)
    ensures |ls| == |entries|
    ensures forall i :: 0 <= i < |entries| ==> ls[i] == EntryLine(entries[i].0, entries[i].1)
  {
    seq(|entries|, i requires 0 <= i < |entries| => EntryLine(entries[i].0, entries[i].1))
  }

  /** The lines of one category's class, each of which the generator ends with "\n". */
  function GroupLines(classname: string, entries: seq<(string, string)>): seq<string>
  {
    ["  class " + classname + " {", "    companion object {"] + EntryLines(entries) + ["    }", "  }"]
  }

  function GroupText(classname: string, entries: seq<(string, string)>): string
  {
    JoinTerminated(GroupLines(classname, entries))
  }

  /**
    `generateResourceClass`, appending to `output` as the generator does;
    the text it builds is the category's lines, each ended by "\n", with one
    constant line per entry in map order.
   */
  method GenerateResourceClass(classname: string, values: seq<(string, string)>) returns (output: string)
    ensures output == GroupText(classname, values)
  {
    var opening := ["  class " + classname + " {", "    companion object {"];
    output := "";
    output := output + "  class " + classname + " {\n";
    output := output + "    companion object {\n";
    OpeningText(classname, values);
    var i := 0;
    while i < |values|
      invariant 0 <= i <= |values|
      invariant output == JoinTerminated(opening + EntryLines(values[..i]))
    {
      EntryStep(opening, values, i);
      output := output + EntryLine(values[i].0, values[i].1) + "\n";
      i := i + 1;
    }
    assert values[..i] == values;
    ClosingText(classname, values);
    output := output + "    }\n";
    output := output + "  }\n";
  }

  lemma OpeningText(classname: string, values: seq<(string, string)>)
    ensures "" + "  class " + classname + " {\n" + "    companion object {\n"
      == JoinTerminated(["  class " + classname + " {", "    companion object {"] + EntryLines(values[..0]))
  {
    var opening := ["  class " + classname + " {", "    companion object {"];
    assert opening + EntryLines(values[..0]) == opening;
    assert opening[1..] == ["    companion object {"] && opening[1..][1..] == [];
    assert JoinTerminated(opening[1..]) == "    companion object {" + "\n" + "";
    assert JoinTerminated(opening) == "  class " + classname + " {" + "\n" + JoinTerminated(opening[1..]);
  }

  /** One more entry appends its line and a newline. */
  lemma EntryStep(opening: seq<string>, values: seq<(string, string)>, i: nat)
    requires i < |values|
    ensures JoinTerminated(opening + EntryLines(values[..i + 1]))
      == JoinTerminated(opening + EntryLines(values[..i])) + EntryLine(values[i].0, values[i].1) + "\n"
  {
    var line := EntryLine(values[i].0, values[i].1);
    assert EntryLines(values[..i + 1]) == EntryLines(values[..i]) + [line];
    assert opening + EntryLines(values[..i + 1]) == (opening + EntryLines(values[..i])) + [line];
    JoinTerminatedAppend(opening + EntryLines(values[..i]), [line]);
    assert JoinTerminated([line]) == line + "\n" + JoinTerminated([line][1..]);
  }

  lemma ClosingText(classname: string, values: seq<(string, string)>)
    ensures JoinTerminated(["  class " + classname + " {", "    companion object {"] + EntryLines(values)) + "    }\n" + "  }\n"
      == GroupText(classname, values)
  {
    var opening := ["  class " + classname + " {", "    companion object {"];
    var closing := ["    }", "  }"];
    assert JoinTerminated(closing) == "    }\n" + ("  }\n" + "") by {
      assert closing[1..] == ["  }"] && closing[1..][1..] == [];
    }
    JoinTerminatedAppend(opening + EntryLines(values), closing);
  }

  /** The package line and the blank line after it, when there is a package name. */
  function HeaderLines(packageName: Option<string>): seq<string>
  {
    match packageName
    case Some(p) => if p == "" then [] else ["package " + p, ""]
    case None => []
  }

  /** The package line and a blank line as text, or nothing. */
  function Header(packageName: Option<string>): string
  {
    match packageName
    case Some(p) => if p == "" then "" else "package " + p + "\n\n"
    case None => ""
  }

  /** `generateClass`: the header, `class R { `, the content, a newline and the closing brace. */
  function GenerateClass(packageName: Option<string>, content: string): (r: string)
    ensures "package " <= r <==> packageName.Some? && packageName.value != ""
    ensures packageName.Some? && packageName.value != "" ==> "package " + packageName.value + "\n\n" <= r
    ensures |r| >= |content| + 2 && r[|r| - |content| - 2..] == content + "\n}"
  {
    var r := Header(packageName) + "class R { \n" + content + "\n" + "}";
    HeaderPrefix(packageName);
    ClassTextParts(Header(packageName), content, r);
    r
  }

  lemma HeaderPrefix(packageName: Option<string>)
    ensures Header(packageName) == "" <==> !(packageName.Some? && packageName.value != "")
    ensures packageName.Some? && packageName.value != "" ==>
      Header(packageName) == "package " + packageName.value + "\n\n" && "package " <= Header(packageName)
  {
  }

  lemma ClassTextParts(header: string, content: string, r: string)
    requires r == header + "class R { \n" + content + "\n" + "}"
    ensures header <= r
    ensures "package " <= header ==> "package " <= r
    ensures header == "" ==> !("package " <= r)
    ensures |r| >= |content| + 2 && r[|r| - |content| - 2..] == content + "\n}"
  {
    var tail := "class R { \n" + content + "\n}";
    assert r == header + tail;
    assert r[|header|..] == tail;
    assert tail[|tail| - |content| - 2..] == content + "\n}";
    assert header == "" ==> r[0] == 'c';
  }

  /** `joinToString("\n")`: the parts with a newline between neighbours, or nothing. */
  function JoinLines(parts: seq<string>): string
  {
    if parts == [] then "" else Join(parts, '\n')
  }

  /** The text of each group, in the order the aggregated map holds them. */
  function GroupTexts(groups: seq<(string, seq<(string, string)>)>): (ts: seq<string>)
    ensures |ts| == |groups|
    ensures forall i :: 0 <= i < |groups| ==> ts[i] == GroupText(groups[i].0, groups[i].1)
  {
    seq(|groups|, i requires 0 <= i < |groups| => GroupText(groups[i].0, groups[i].1))
  }

  /** The whole generated file. */
  function Render(packageName: Option<string>, groups: seq<(string, seq<(string, string)>)>): string
  {
    GenerateClass(packageName, JoinLines(GroupTexts(groups)))
  }

  // ------------------------------------------------------------- reading it back

  /** The lines between `class R { ` and `}`: each group followed by a blank line, or one blank line when there are none. */
  function BodyLines(groups: seq<(string, seq<(string, string)>)>): seq<string>
  {
    if groups == [] then [""]
    else if |groups| == 1 then GroupLines(groups[0].0, groups[0].1) + [""]
    else GroupLines(groups[0].0, groups[0].1) + [""] + BodyLines(groups[1..])
  }

  /** Nothing in a group (its name, keys and trimmed values) would break a line. */
  predicate SingleLineGroup(g: (string, seq<(string, string)>))
  {
    NoLineBreak(g.0) && forall e :: e in g.1 ==> NoLineBreak(e.0) && NoLineBreak(Trim(e.1))
  }

  lemma NoLineBreakConcat(a: string, b: string)
    requires NoLineBreak(a) && NoLineBreak(b)
    ensures NoLineBreak(a + b)
  {
  }

  /** The fixed parts of the emitted lines contain no line break. */
  lemma FixedTextUnbroken()
    ensures NoLineBreak("      const val ") && NoLineBreak(" = \"") && NoLineBreak("\"")
    ensures NoLineBreak("  class ") && NoLineBreak(" {") && NoLineBreak("    companion object {")
    ensures NoLineBreak("    }") && NoLineBreak("  }") && NoLineBreak("") && NoLineBreak("class R { ")
    ensures NoLineBreak("package ")
  {
  }

  lemma EntryLineUnbroken(k: string, v: string)
    requires NoLineBreak(k) && NoLineBreak(Trim(v))
    ensures NoLineBreak(EntryLine(k, v))
  {
    FixedTextUnbroken();
    NoLineBreakConcat("      const val ", k);
    NoLineBreakConcat("      const val " + k, " = \"");
    NoLineBreakConcat("      const val " + k + " = \"", Trim(v));
    NoLineBreakConcat("      const val " + k + " = \"" + Trim(v), "\"");
  }

  lemma EntryLinesUnbroken(entries: seq<(string, string)>)
    requires forall e :: e in entries ==> NoLineBreak(e.0) && NoLineBreak(Trim(e.1))
    ensures LinesUnbroken(EntryLines(entries))
  {
    forall i | 0 <= i < |entries| ensures NoLineBreak(EntryLines(entries)[i]) {
      assert entries[i] in entries;
      EntryLineUnbroken(entries[i].0, entries[i].1);
    }
  }

  lemma GroupLinesUnbroken(g: (string, seq<(string, string)>))
    requires SingleLineGroup(g)
    ensures LinesUnbroken(GroupLines(g.0, g.1))
  {
    FixedTextUnbroken();
    NoLineBreakConcat("  class ", g.0);
    NoLineBreakConcat("  class " + g.0, " {");
    var opening := ["  class " + g.0 + " {", "    companion object {"];
    var closing := ["    }", "  }"];
    assert LinesUnbroken(opening);
    assert LinesUnbroken(closing);
    EntryLinesUnbroken(g.1);
    LinesUnbrokenConcat(opening, EntryLines(g.1));
    LinesUnbrokenConcat(opening + EntryLines(g.1), closing);
  }

  lemma {:induction false} BodyLinesUnbroken(groups: seq<(string, seq<(string, string)>)>)
    requires forall i :: 0 <= i < |groups| ==> SingleLineGroup(groups[i])
    ensures LinesUnbroken(BodyLines(groups))
    decreases |groups|
  {
    FixedTextUnbroken();
    assert LinesUnbroken([""]);
    if groups != [] {
      GroupLinesUnbroken(groups[0]);
      var a := GroupLines(groups[0].0, groups[0].1);
      LinesUnbrokenConcat(a, [""]);
      if |groups| > 1 {
        BodyLinesUnbroken(groups[1..]);
        LinesUnbrokenConcat(a + [""], BodyLines(groups[1..]));
      }
    }
  }

  /** The joined group texts, with the newline `generateClass` adds, are the body lines each ended by "\n". */
  lemma {:induction false} BodyText(groups: seq<(string, seq<(string, string)>)>)
    ensures JoinLines(GroupTexts(groups)) + "\n" == JoinTerminated(BodyLines(groups))
    decreases |groups|
  {
    var ts := GroupTexts(groups);
    if groups == [] {
      assert JoinTerminated([""]) == "" + "\n" + JoinTerminated([]);
    } else {
      var g := GroupLines(groups[0].0, groups[0].1);
      JoinTerminatedAppend(g, [""]);
      assert JoinTerminated([""]) == "\n";
      if |groups| > 1 {
        assert ts[1..] == GroupTexts(groups[1..]);
        BodyText(groups[1..]);
        JoinTerminatedAppend(g + [""], BodyLines(groups[1..]));
      }
    }
  }

  /**
    The generated file, read back line by line: the package lines when there
    is a package name, `class R { `, each category's class followed by a blank
    line, and the closing brace; so each entry is exactly one line, in map
    order, and categories keep the order of the aggregated map.
   */
  lemma RenderLayout(packageName: Option<string>, groups: seq<(string, seq<(string, string)>)>)
    requires packageName.Some? ==> NoLineBreak(packageName.value)
    requires forall i :: 0 <= i < |groups| ==> SingleLineGroup(groups[i])
    ensures ReadLines(Render(packageName, groups)) == HeaderLines(packageName) + ["class R { "] + BodyLines(groups) + ["}"]
  {
    var front := HeaderLines(packageName) + ["class R { "];
    var body := BodyLines(groups);
    RenderText(packageName, groups);
    FrontUnbroken(packageName);
    BodyLinesUnbroken(groups);
    LinesUnbrokenConcat(front, body);
    ReadLinesJoinTerminated(front + body, "}");
    ClosingBraceLine();
  }

  lemma ClosingBraceLine()
    ensures ReadLines("}") == ["}"]
  {
  }

  lemma RenderText(packageName: Option<string>, groups: seq<(string, seq<(string, string)>)>)
    ensures Render(packageName, groups) == JoinTerminated(HeaderLines(packageName) + ["class R { "] + BodyLines(groups)) + "}"
  {
    var front := HeaderLines(packageName) + ["class R { "];
    var body := BodyLines(groups);
    var content := JoinLines(GroupTexts(groups));
    BodyText(groups);
    FrontText(packageName);
    JoinTerminatedAppend(front, body);
    ClassTextRegrouped(Header(packageName), content, JoinTerminated(front), JoinTerminated(body));
  }

  lemma ClassTextRegrouped(header: string, content: string, front: string, body: string)
    requires front == header + "class R { \n" && body == content + "\n"
    ensures header + "class R { \n" + content + "\n" + "}" == front + body + "}"
  {
  }

  lemma FrontText(packageName: Option<string>)
    ensures JoinTerminated(HeaderLines(packageName) + ["class R { "]) == Header(packageName) + "class R { \n"
  {
    HeaderText(packageName);
    assert JoinTerminated(["class R { "]) == "class R { \n";
    JoinTerminatedAppend(HeaderLines(packageName), ["class R { "]);
  }

  lemma HeaderText(packageName: Option<string>)
    ensures Header(packageName) == JoinTerminated(HeaderLines(packageName))
  {
    if Header(packageName) != "" {
      var p := packageName.value;
      var hl := HeaderLines(packageName);
      assert hl == ["package " + p, ""];
      assert hl[1..] == [""] && hl[1..][1..] == [];
      assert JoinTerminated(hl[1..]) == "" + "\n" + "";
      assert JoinTerminated(hl) == "package " + p + "\n" + JoinTerminated(hl[1..]);
    }
  }

  lemma FrontUnbroken(packageName: Option<string>)
    requires packageName.Some? ==> NoLineBreak(packageName.value)
    ensures LinesUnbroken(HeaderLines(packageName) + ["class R { "])
  {
    FixedTextUnbroken();
    if packageName.Some? && packageName.value != "" {
      NoLineBreakConcat("package ", packageName.value);
    }
    assert LinesUnbroken(HeaderLines(packageName));
    assert LinesUnbroken(["class R { "]);
    LinesUnbrokenConcat(HeaderLines(packageName), ["class R { "]);
  }

}
