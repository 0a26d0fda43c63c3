/**
  The file-id extractor of `ResourceFileIdProvider.get`: a file in the right
  directory becomes one constant named after the file (extension dropped,
  escaped) whose value is the file's path relative to the resource root.

  The newer provider computes the parent directory relative to the root and
  accepts it when it starts with the configured directory; the value goes
  through the host's `fixPath`. The older one accepts only a parent directory
  whose own name is exactly the configured one, and builds the value from
  that name.
 */
module FileIds {
  import opened Wrappers
  import opened Text
  import opened Escaping

  /** The constant a file is known by: `nameWithoutExtension`, escaped. */
  function FileKey(name: string): (k: string)
    ensures IsIdentifierSafe(k)
    ensures |k| <= |name|
  {
    EscapeIsIdentifierSafe(NameWithoutExtension(name));
    Escape(NameWithoutExtension(name))
  }

  /** `parentFile.absolutePath.removePrefix(source.absolutePath + File.separatorChar)`. */
  function RelativeDir(sourcePath: string, separator: char, parentPath: string): string
  {
    RemovePrefix(parentPath, sourcePath + [separator])
  }

  /** The newer extractor, given the relative parent directory `dir` and the file name. */
  function FileIdEntries(directory: string, dir: string, name: string, fixPath: string -> string): seq<(string, string)>
  {
    if directory <= dir then [(FileKey(name), fixPath(dir) + "/" + name)] else []
  }

  /** The older extractor, given the parent directory's own name and the file name. */
  function LegacyFileIdEntries(directory: string, parentName: string, name: string): seq<(string, string)>
  {
    if parentName == directory then [(FileKey(name), directory + "/" + name)] else []
  }

  /**
    The file's name is the last component of the value, and the key can be
    read back from the value: the value is a path ending in "/" + name, and
    the name, once its extension is dropped and it is escaped, is the key.
   */
  predicate KeyMatchesPath(e: (string, string), name: string)
  {
    |e.1| > |name| && e.1[|e.1| - |name| - 1..] == "/" + name
    && ('/' !in name ==> FileKey(SubstringAfterLast(e.1, '/', e.1)) == e.0)
  }

  lemma LastComponent(prefix: string, name: string)
    requires '/' !in name
    ensures SubstringAfterLast(prefix + "/" + name, '/', prefix + "/" + name) == name
  {
    var v := prefix + "/" + name;
    assert v[|prefix|] == '/';
    assert v[|prefix| + 1..] == name;
  }

  /**
    The newer file-id map: at most one entry, present exactly when the
    relative directory starts with the configured one (so "sound" also takes
    "sounds"), keyed by the escaped base name and holding a path ending in
    the file name.
   */
  lemma FileIdEntriesSpec(directory: string, dir: string, name: string, fixPath: string -> string)
    ensures |FileIdEntries(directory, dir, name, fixPath)| <= 1
    ensures FileIdEntries(directory, dir, name, fixPath) != [] <==> directory <= dir
    ensures FileIdEntries(directory, dir, name, fixPath) != [] ==>
      var e := FileIdEntries(directory, dir, name, fixPath)[0];
      e.0 == FileKey(name) && IsIdentifierSafe(e.0) && KeyMatchesPath(e, name) && e.1 == fixPath(dir) + "/" + name
  {
    if directory <= dir {
      var v := fixPath(dir) + "/" + name;
      assert v[|v| - |name| - 1..] == "/" + name;
      if '/' !in name {
        LastComponent(fixPath(dir), name);
      }
    }
  }

  /**
    The older file-id map: at most one entry, present exactly when the parent
    directory is named exactly as configured; its value is that directory, a
    slash, and the file name.
   */
  lemma LegacyFileIdEntriesSpec(directory: string, parentName: string, name: string)
    ensures |LegacyFileIdEntries(directory, parentName, name)| <= 1
    ensures LegacyFileIdEntries(directory, parentName, name) != [] <==> parentName == directory
    ensures LegacyFileIdEntries(directory, parentName, name) != [] ==>
      var e := LegacyFileIdEntries(directory, parentName, name)[0];
      e.0 == FileKey(name) && e.1 == directory + "/" + name
      && IsIdentifierSafe(e.0) && KeyMatchesPath(e, name) && directory <= e.1
  {
    if parentName == directory {
      var v := directory + "/" + name;
      assert v[..|directory|] == directory;
      assert v[|v| - |name| - 1..] == "/" + name;
      if '/' !in name {
        LastComponent(directory, name);
      }
    }
  }

  /**
    Where the older provider finds an entry for a top-level directory, the
    newer one finds the same key; the newer one also accepts directories the
    older one rejects, any name extending the configured one.
   */
  lemma NewerAcceptsMore(directory: string, dir: string, name: string, fixPath: string -> string)
    ensures LegacyFileIdEntries(directory, dir, name) != [] ==>
      FileIdEntries(directory, dir, name, fixPath) != []
      && FileIdEntries(directory, dir, name, fixPath)[0].0 == LegacyFileIdEntries(directory, dir, name)[0].0
    ensures directory < dir ==> FileIdEntries(directory, dir, name, fixPath) != [] && LegacyFileIdEntries(directory, dir, name) == []
  {
  }

  /** The relative directory of a file directly inside `<root>/<d>` is `d`. */
  lemma RelativeDirOfChild(sourcePath: string, separator: char, d: string)
    ensures RelativeDir(sourcePath, separator, sourcePath + [separator] + d) == d
  {
    var p := sourcePath + [separator];
    assert p <= p + d;
    assert (p + d)[|p|..] == d;
  }

  lemma ClickKey()
    ensures FileKey("click.ogg") == "click"
  {
    assert LastIndexOf("click.ogg", '.') == Some(5) by {
      assert "click.ogg"[5] == '.' && '.' !in "click.ogg"[6..];
    }
    assert NameWithoutExtension("click.ogg") == "click";
    EscapeFixpoint("click");
  }

  /**
    An example: `core/res/sounds/click.ogg` under the root
    `core/res` becomes `click` with the value "sounds/click.ogg" (the path
    fixer leaving it alone) for the directory "sounds", and nothing for
    "music".
   */
  lemma ClickExample(fixPath: string -> string)
    requires fixPath("sounds") == "sounds"
    ensures FileIdEntries("sounds", RelativeDir("core/res", '/', "core/res/sounds"), "click.ogg", fixPath)
      == [("click", "sounds/click.ogg")]
    ensures FileIdEntries("music", RelativeDir("core/res", '/', "core/res/sounds"), "click.ogg", fixPath) == []
  {
    assert "core/res/sounds" == "core/res" + ['/'] + "sounds";
    RelativeDirOfChild("core/res", '/', "sounds");
    assert RelativeDir("core/res", '/', "core/res/sounds") == "sounds";
    ClickKey();
    assert "sounds" + "/" + "click.ogg" == "sounds/click.ogg";
    assert !("music" <= "sounds") by {
      assert "sounds"[0] != "music"[0];
    }
  }

}
