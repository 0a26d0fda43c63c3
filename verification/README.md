# Resource-constant generator (`RClassPacker`) in Dafny

This project models the resource-constant generator of gdx-common-tools. The
generator walks a game's resource directory and hands each file to a list of
*providers*. Each provider has a label, a file filter (`forFile`) and an
extractor (`get`). It merges the maps its accepted files produce, and the
maps are gathered by label. The result is emitted as Kotlin source: one
`class R` holding one nested class per label, with one
`const val KEY = "VALUE"` per entry.

Both versions of `RClassPacker.kt` are modelled side by side:

- **The newer one** (`src/main/kotlin/...`). Its keys are escaped. Its
  file-id provider tests a relative directory by prefix. Its skin-style
  provider filters parsed JSON sections.
- **The older one** (`src/...`). Its sprite and text keys are raw. Its
  file-id provider tests the parent directory's name for equality. Its
  skin-style provider is a line-scanning state machine.

`String.escape` from `FileExt.kt` is modelled too.

## Modules

- **`Wrappers`**: `Option`.
- **`Text`**: the Kotlin standard-library pieces the generator leans on:
  - `indexOf`, `lastIndexOf`, `replace`, `removePrefix`;
  - `extension`, `nameWithoutExtension`;
  - `trim` with the JVM's whitespace set;
  - `split`, `joinToString`;
  - `readLines` and its inverse for terminated lines.
- **`Escaping`**: `String.escape`, which replaces each character outside `[A-Za-z0-9_]` by `_`.
- **`OrderedMap`**: Kotlin's insertion-ordered maps (`mutableMapOf`, `toMap`, `associate`) as association lists.
  - `Put` replaces a key's value in place, or appends a new key.
  - `FromPairs` is `toMap`.
  - Reference definitions: `Dedup` (the key order) and `LastValue` (the winning write).
- **`Sprites`**: the region-line extractor of atlas files, in both versions.
- **`SkinStyles`**: both skin-style extractors.
  - The newer one works on parsed sections.
  - The older one is the `Label$LabelStyle` state machine, with a regex-free account of `([A-z]+): \{` and a stateless reference for the scanner.
- **`FileIds`**: the directory/mask file-id extractor, in both versions.
- **`TextLines`**: the `(<kind>.*):(.*)` text-line extractor.
  - `.` never crosses a line terminator, so there is at most one match per line.
  - The match starts at the leftmost possible point.
  - A match gives an entry only when it splits on `:` into exactly two parts.
- **`Dispatch`**: the middle of `process`, generic in the provider and file types.
  - The per-provider merge: `values += get(file)` over the accepted files.
  - Gathering by label: `associate` / `map { }.toMap()`.
- **`Emitter`**: `generateResourceClass` (a loop method), `generateClass`, the `joinToString("\n")` of the classes, and the line layout of the result.
- **`Resources`**: a file as the providers see it, and the host, which supplies what the model leaves abstract.
- **`Packer`** and **`LegacyPacker`**: the providers, `forFile`, `get`, the default configurations and `process` of the newer and the older file.
- **`Versions`**: the two files compared: how their file filters and their sprite and text keys differ.

### Host-supplied parts

The model takes these as inputs; it does not compute them.

- The list of files, each with its name, its parent directory's name and absolute path, and its content.
- The resource root's absolute path and the directory separator.
- The mask test `name.matches(".*$mask.*")`.
- `fixPath`.
- The JSON skin parser, reduced to its top-level sections and their child names.

### Behaviour worth noting

These follow from the code and may surprise a reader:

- The sprite extractor keeps the raw, untrimmed region line as the value. The trimming happens only when the line is emitted.
- `escape` replaces each non-word character on its own. A run of such characters becomes several underscores, not one.
- With `keyToKey` set, the value of a text-line entry is the whole left part of the match. For example, `string.hello`, not `hello`.
- The right part of a text-line match keeps its leading space. The space is trimmed when the entry is emitted.
- Every provider yields a class, even one with no entries.

## Model

Paths are relative to the repository root. Two shorthands appear in the third column:

- "newer" means `src/main/kotlin/com/yuracodir/common/tools/resources/RClassPacker.kt`;
- "older" means `src/com/yuracodir/common/tools/resources/RClassPacker.kt`.

| member | source | states |
|---|---|---|
| Escaping.Escape | src/com/yuracodir/common/tools/resources/FileExt.kt:17-19 | The result has the input's length. At each position a word character is kept and any other character becomes `_`. |
| Escaping.EscapeIsIdentifierSafe | src/com/yuracodir/common/tools/resources/FileExt.kt:18 | Every character of an escaped string is in `[A-Za-z0-9_]`. |
| Escaping.EscapeFixpoint | src/com/yuracodir/common/tools/resources/FileExt.kt:18 | Escaping leaves a string unchanged exactly when it already consists of word characters. |
| Escaping.EscapeIdempotent | src/com/yuracodir/common/tools/resources/FileExt.kt:17-19 | Escaping twice gives the same as escaping once. |
| Escaping.EscapeEmpty | src/com/yuracodir/common/tools/resources/FileExt.kt:17-19 | The escape is empty exactly when the input is empty. |
| Text.Trim | src/main/kotlin/com/yuracodir/common/tools/resources/RClassPacker.kt:73 | The trimmed value is a contiguous slice of the original, with only whitespace before and after it. It neither starts nor ends with whitespace. A value without surrounding whitespace is left as it is. |
| Text.ExtensionSplit | src/main/kotlin/com/yuracodir/common/tools/resources/RClassPacker.kt:134 | With a dot in the name: the name is `nameWithoutExtension + "." + extension`, and the extension has no dot. Without a dot: the extension is empty and the base name is the whole name. |
| Text.SplitInTwo | src/main/kotlin/com/yuracodir/common/tools/resources/RClassPacker.kt:155 | `split(":")` gives exactly two parts exactly when the text holds one `:`. The parts are then what lies before and after it. |
| Text.SplitJoin | src/main/kotlin/com/yuracodir/common/tools/resources/RClassPacker.kt:155 | Joining the parts of a split with the delimiter gives back the text. |
| Text.JoinSplit | src/main/kotlin/com/yuracodir/common/tools/resources/RClassPacker.kt:51 | Splitting a `joinToString` of parts that do not contain the delimiter gives back the parts. |
| Text.ReadLinesJoinTerminated | src/main/kotlin/com/yuracodir/common/tools/resources/RClassPacker.kt:93 | `readLines` of lines each ended by "\n", followed by more text, gives those lines and then the lines of the rest. |
| Sprites.RegionLines | src/main/kotlin/com/yuracodir/common/tools/resources/RClassPacker.kt:94-95 | A line is selected exactly when it is not the last line, does not start with a space, and the next line does. Fewer than two lines select nothing. |
| Sprites.RegionLinesSnoc | src/main/kotlin/com/yuracodir/common/tools/resources/RClassPacker.kt:94-95 | The regions come in file order. Appending a line appends the line before it when that line is unindented and the new one is indented, and nothing otherwise. |
| Sprites.SpriteEntriesSpec | src/main/kotlin/com/yuracodir/common/tools/resources/RClassPacker.kt:92-101 | Newer sprite map. A key is present exactly when some region line escapes to it, and keys are distinct. The value is the raw region line of the last region that escapes to the key. |
| Sprites.LegacySpriteEntriesSpec | src/com/yuracodir/common/tools/resources/RClassPacker.kt:87-96 | Older sprite map. The keys are the region lines themselves, deduplicated in file order. Each key maps to itself. |
| Sprites.TabIsNotIndentation | src/main/kotlin/com/yuracodir/common/tools/resources/RClassPacker.kt:95 | A line followed by a tab-indented line is not a region. |
| Sprites.DuplicateRegionCollapses | src/main/kotlin/com/yuracodir/common/tools/resources/RClassPacker.kt:94-100 | Two equal region lines give a single entry. |
| Sprites.TwoRegionExample | src/main/kotlin/com/yuracodir/common/tools/resources/RClassPacker.kt:92-101 | An atlas with two regions, each followed by an indented attribute line, gives the two regions in file order. |
| SkinStyles.StyleNamesSpec | src/main/kotlin/com/yuracodir/common/tools/resources/RClassPacker.kt:115-117 | The names collected are exactly the children of sections whose name contains "style", ignoring case. |
| SkinStyles.StyleEntriesSpec | src/main/kotlin/com/yuracodir/common/tools/resources/RClassPacker.kt:114-118 | Newer style map. A key is present exactly when a child of a style section escapes to it, and keys are distinct. The value is such a child, the last one collected. |
| SkinStyles.StyleKeysIgnoreOrder | src/main/kotlin/com/yuracodir/common/tools/resources/RClassPacker.kt:111-114 | The parser's section order, which is unspecified, does not change which keys exist. |
| SkinStyles.BacktrackingAddsNothing | src/com/yuracodir/common/tools/resources/RClassPacker.kt:114 | The regex can end its `[A-z]+` group only where the maximal `[A-z]` run ends. |
| SkinStyles.FindLabelSpec | src/com/yuracodir/common/tools/resources/RClassPacker.kt:114-117 | A line has a label exactly when some `: {` directly follows an `[A-z]` character. The label is the whole `[A-z]` run before the first such `: {`. |
| SkinStyles.ScanSpec | src/com/yuracodir/common/tools/resources/RClassPacker.kt:105-121 | After n lines, the state machine is in a block exactly when some earlier line was a marker and no line since then starts with `}`. Its pairs are the labels of the lines searched so far, in order. |
| SkinStyles.ActiveLabelsSpec | src/com/yuracodir/common/tools/resources/RClassPacker.kt:113-117 | A pair is found exactly for a searched line that holds a label. The pair's key equals its value. |
| SkinStyles.LegacyStyleEntriesSpec | src/com/yuracodir/common/tools/resources/RClassPacker.kt:104-122 | Older style map. The keys are exactly the labels of the searched lines, distinct. Each key maps to itself. |
| SkinStyles.NothingOutsideBlocks | src/com/yuracodir/common/tools/resources/RClassPacker.kt:105-109 | Lines before the first marker are never searched. Neither is a line outside an open block, which includes the marker line itself. |
| SkinStyles.CloseEndsBlock | src/com/yuracodir/common/tools/resources/RClassPacker.kt:110-112 | After a line starting with `}`, no line is searched until a marker line reopens the block. |
| FileIds.FileKey | src/main/kotlin/com/yuracodir/common/tools/resources/RClassPacker.kt:134 | The key of a file consists of word characters and is no longer than the file name. |
| FileIds.FileIdEntriesSpec | src/main/kotlin/com/yuracodir/common/tools/resources/RClassPacker.kt:131-139 | Newer file-id map. It has at most one entry, present exactly when the relative directory starts with the configured one. The key is escaped, and the value is `fixPath(dir) + "/" + name`, whose last component gives back the key. |
| FileIds.LegacyFileIdEntriesSpec | src/com/yuracodir/common/tools/resources/RClassPacker.kt:134-141 | Older file-id map. It has at most one entry, present exactly when the parent directory's name equals the configured one. The key is the escaped base name. The value is the configured directory, "/", and the file name, and the key can be read back from it. |
| FileIds.NewerAcceptsMore | src/main/kotlin/com/yuracodir/common/tools/resources/RClassPacker.kt:133 | Where the older test accepts a directory, the newer one accepts it with the same key. The newer one also accepts every longer name that starts with the configured one, which the older one rejects. |
| FileIds.RelativeDirOfChild | src/main/kotlin/com/yuracodir/common/tools/resources/RClassPacker.kt:132 | The relative directory of `<root><sep><d>` is `d`. |
| FileIds.ClickExample | src/main/kotlin/com/yuracodir/common/tools/resources/RClassPacker.kt:131-139 | `core/res/sounds/click.ogg` gives `click` with value "sounds/click.ogg" for the directory "sounds", and nothing for "music". |
| TextLines.RegexLines | src/main/kotlin/com/yuracodir/common/tools/resources/RClassPacker.kt:152-153 | The content falls into at least one piece, and no piece holds a character that `.` refuses to match. |
| TextLines.RegexLinesOfLine | src/main/kotlin/com/yuracodir/common/tools/resources/RClassPacker.kt:152-153 | Text without a line terminator is one line, whole. |
| TextLines.RegexLinesSplitAtFirst | src/main/kotlin/com/yuracodir/common/tools/resources/RClassPacker.kt:152-153 | Cutting at the first terminator gives that first line, followed by the lines of the rest. With `RegexLinesOfLine`, this fixes the lines of every text. |
| TextLines.MatchInLineIsLeftmost | src/main/kotlin/com/yuracodir/common/tools/resources/RClassPacker.kt:152-153 | A line has a match exactly when the kind occurs with a `:` after it. The match is then the rest of the line from the leftmost such occurrence. |
| TextLines.MatchesInSpec | src/main/kotlin/com/yuracodir/common/tools/resources/RClassPacker.kt:153 | A string is a match exactly when it is the match of one of the lines. |
| TextLines.MatchesInAppend | src/main/kotlin/com/yuracodir/common/tools/resources/RClassPacker.kt:153 | The matches come in line order: the matches of two stretches of lines are those of the first followed by those of the second. |
| TextLines.SplitEntrySpec | src/main/kotlin/com/yuracodir/common/tools/resources/RClassPacker.kt:155-157 | A match gives a pair exactly when it holds one `:`. The key is the left part with every "kind." removed. The value is the right part, or the unstripped left part when keys map to keys. |
| TextLines.PairsOfSpec | src/main/kotlin/com/yuracodir/common/tools/resources/RClassPacker.kt:154-158 | A pair is produced exactly when some match splits into two parts and gives it. |
| TextLines.PairsOfAppend | src/main/kotlin/com/yuracodir/common/tools/resources/RClassPacker.kt:154-158 | The pairs keep the order of the matches they come from. |
| TextLines.LegacyTextLinePairsSpec | src/com/yuracodir/common/tools/resources/RClassPacker.kt:152-161 | Every raw pair comes from the match of one line of the content, and every such match that splits in two gives a pair. |
| TextLines.TextLineEntriesSpec | src/main/kotlin/com/yuracodir/common/tools/resources/RClassPacker.kt:150-160 | Newer text map. A key is present exactly when some raw pair's key escapes to it, and keys are distinct. It holds the value of the last such pair. |
| TextLines.TwoLineTable | src/main/kotlin/com/yuracodir/common/tools/resources/RClassPacker.kt:150-160 | Two lines `kind.k: v` give the entries `escape(k)` with their values, in file order. |
| TextLines.StringTableExample | src/main/kotlin/com/yuracodir/common/tools/resources/RClassPacker.kt:150-160 | `string.hello: Hello World` and `string.bye: Goodbye` give `hello` and `bye`. The values are " Hello World" and " Goodbye", or `string.hello` and `string.bye` when keys map to keys. |
| OrderedMap.PutGet | src/main/kotlin/com/yuracodir/common/tools/resources/RClassPacker.kt:45 | After a put, the key holds the new value and every other key keeps its value. |
| OrderedMap.PutShape | src/main/kotlin/com/yuracodir/common/tools/resources/RClassPacker.kt:45 | A new key is appended at the end. An existing key keeps its position, and no other pair moves. |
| OrderedMap.PutAllGet | src/main/kotlin/com/yuracodir/common/tools/resources/RClassPacker.kt:45 | After `+=`, a key holds the last value the added pairs give it, or its old value if they do not mention it. |
| OrderedMap.PutAllAppend | src/main/kotlin/com/yuracodir/common/tools/resources/RClassPacker.kt:45 | Adding `a` and then `b` is the same as adding `a + b`. |
| OrderedMap.FromPairsContract | src/main/kotlin/com/yuracodir/common/tools/resources/RClassPacker.kt:100 | `toMap` holds each key once, in order of first occurrence, with the value of its last occurrence. |
| OrderedMap.FromPairsOfDistinct | src/main/kotlin/com/yuracodir/common/tools/resources/RClassPacker.kt:42 | Pairs whose keys are already distinct come out of `toMap` unchanged. |
| Dispatch.AcceptedPairsSpec | src/main/kotlin/com/yuracodir/common/tools/resources/RClassPacker.kt:43-45 | A pair is contributed exactly when some accepted file's map contains it. |
| Dispatch.CollectIsFromPairs | src/main/kotlin/com/yuracodir/common/tools/resources/RClassPacker.kt:43-47 | Merging file by file builds the same map as `toMap` of all contributed pairs together. |
| Dispatch.Collect | src/main/kotlin/com/yuracodir/common/tools/resources/RClassPacker.kt:44-46 | Merging the accepted files' maps one after another leaves a map: each key appears once. |
| Dispatch.CollectSpec | src/main/kotlin/com/yuracodir/common/tools/resources/RClassPacker.kt:43-47 | A category's keys are distinct, in order of first appearance. A later file's value overwrites an earlier one's. |
| Dispatch.CollectKeys | src/main/kotlin/com/yuracodir/common/tools/resources/RClassPacker.kt:43-46 | A key is in a category exactly when the map of some accepted file has it. |
| Dispatch.Aggregate | src/main/kotlin/com/yuracodir/common/tools/resources/RClassPacker.kt:42-48 | The label map holds each label once, and a label is present exactly when some provider has it. |
| Dispatch.AggregateSpec | src/main/kotlin/com/yuracodir/common/tools/resources/RClassPacker.kt:42-48 | There is one group per distinct label, in order of the label's first provider. A repeated label holds the map of its last provider. |
| Dispatch.AggregateOfDistinctLabels | src/main/kotlin/com/yuracodir/common/tools/resources/RClassPacker.kt:42-48 | Providers with pairwise different labels each keep their own group, in provider order. |
| Emitter.GenerateResourceClass | src/main/kotlin/com/yuracodir/common/tools/resources/RClassPacker.kt:68-78 | The appended text is the class header lines, one `const val K = "trim(V)"` line per entry in map order, and the two closing lines, each ended by "\n". The older file has the same code. |
| Emitter.GenerateClass | src/main/kotlin/com/yuracodir/common/tools/resources/RClassPacker.kt:60-66 | The output starts with "package " exactly when a non-empty package name is given, and then with `package P` and a blank line. It ends with the content, a newline and `}`. |
| Emitter.RenderText | src/main/kotlin/com/yuracodir/common/tools/resources/RClassPacker.kt:49-66 | The whole file is the package lines if any, `class R { ` and the body lines, each followed by a newline, then `}` with no newline after it. |
| Emitter.RenderLayout | src/main/kotlin/com/yuracodir/common/tools/resources/RClassPacker.kt:49-66 | Read back line by line, the file is: the package lines if any, `class R { `, each group's class followed by a blank line (a single blank line when there are no groups), and `}`. |
| Packer.Extract | src/main/kotlin/com/yuracodir/common/tools/resources/RClassPacker.kt:92-160 | The map one file contributes holds each key once. |
| Packer.ExtractKeysAreWordChars | src/main/kotlin/com/yuracodir/common/tools/resources/RClassPacker.kt:92-160 | Every key one file contributes consists of word characters only. |
| Packer.ProcessLayout | src/main/kotlin/com/yuracodir/common/tools/resources/RClassPacker.kt:31-58 | `process` writes the package lines if any, `class R { `, each group's class in label-map order followed by a blank line, and `}`. |
| Packer.DefaultLabelsDistinct | src/main/kotlin/com/yuracodir/common/tools/resources/RClassPacker.kt:14-25 | The ten default providers have ten different labels. |
| Packer.DefaultGroups | src/main/kotlin/com/yuracodir/common/tools/resources/RClassPacker.kt:14-25 | For any files, the default configuration gives ten groups, one per provider, in provider order. |
| Packer.GroupKeysAreWordChars | src/main/kotlin/com/yuracodir/common/tools/resources/RClassPacker.kt:92-159 | Every key of every group the newer generator emits consists of word characters only. |
| LegacyPacker.Extract | src/com/yuracodir/common/tools/resources/RClassPacker.kt:87-162 | The map one file contributes holds each key once. |
| LegacyPacker.DefaultLabels | src/com/yuracodir/common/tools/resources/RClassPacker.kt:10-21 | The older default labels, in order, with "skin" twice. |
| LegacyPacker.DefaultSkinCollision | src/com/yuracodir/common/tools/resources/RClassPacker.kt:37-43 | For any files, the older default configuration gives nine groups for ten providers. The one `skin` group, in first position, holds the map of the `skin` file-id provider. |
| LegacyPacker.LegacySpriteKeyNotWordChars | src/com/yuracodir/common/tools/resources/RClassPacker.kt:87-96 | The older sprite extractor gives the key `ui-button`, which is not made of word characters, where the newer one gives `ui_button`. |
| LegacyPacker.ProcessLayout | src/com/yuracodir/common/tools/resources/RClassPacker.kt:27-61 | The older `process` produces the same line layout as the newer one. |
| Versions.SpriteFilters | src/main/kotlin/com/yuracodir/common/tools/resources/RClassPacker.kt:88 | The newer sprite filter accepts a file exactly when the older one does and the file's parent directory is named after the provider's directory. |
| Versions.SpriteFilterSeesDirectory | src/main/kotlin/com/yuracodir/common/tools/resources/RClassPacker.kt:88 | Of two `.atlas` files with the same name, the newer sprite filter reads the one in its directory and skips one elsewhere. |
| Versions.SkinFilters | src/main/kotlin/com/yuracodir/common/tools/resources/RClassPacker.kt:105 | The newer skin filter accepts a file exactly when the older one does and the parent directory's name starts with the provider's directory. |
| Versions.FileIdFilters | src/main/kotlin/com/yuracodir/common/tools/resources/RClassPacker.kt:127 | The file-id filter is the same in both versions: the name is tested against the mask. |
| Versions.TextFilters | src/main/kotlin/com/yuracodir/common/tools/resources/RClassPacker.kt:146 | The text filter is the same in both versions. |
| Versions.LegacyFiltersIgnoreDirectory | src/com/yuracodir/common/tools/resources/RClassPacker.kt:83-148 | Every older filter depends on the file name only: two files with the same name are both read or both skipped, wherever they are. |
| Versions.SpriteKeysVersions | src/main/kotlin/com/yuracodir/common/tools/resources/RClassPacker.kt:96 | A newer sprite key is exactly the escape of some older sprite key of the same file. |
| Versions.TextKeysVersions | src/main/kotlin/com/yuracodir/common/tools/resources/RClassPacker.kt:157 | A newer text key is exactly the escape of some older text key of the same file. |

## Findings

| source | as written | input that shows it | evidently intended | confidence | as-written member | corrected member |
|---|---|---|---|---|---|---|
| src/com/yuracodir/common/tools/resources/RClassPacker.kt:11-17 | The default configuration labels both the label-style provider and the `skin` file-id provider "skin", and `toMap` keeps one group per label | Any resource tree: the nine-group result holds the file-id map under `skin`, and the label styles are dropped | One class per provider, as the newer file has by labelling the style provider "style" | high (not executed) | LegacyPacker.DefaultSkinCollision | Packer.DefaultGroups |
| src/com/yuracodir/common/tools/resources/RClassPacker.kt:91 | Sprite keys are the raw region lines | An atlas with the region line `ui-button` followed by `  rotate: false` declares `const val ui-button`, which does not compile | Keys escaped to word characters, as the newer file does with `escape()` | medium (not executed) | LegacyPacker.LegacySpriteKeyNotWordChars | Packer.GroupKeysAreWordChars |

## Left out

- **Filesystem work.** `File.tree()` (`FileExt.kt:5-15`), `readText`, `mkdirs` and `writeText` are left out. The file list and the contents arrive as inputs, and the model stops at the text that would be written.
- **Path rewriting.** The rewriting inside `process` is left out. It is built from `File.pathSeparator`, and the file list is taken as it stands after it.
- **`forFile` mask matching.** The file-id provider's `name.matches(".*$mask.*")` is a host predicate; the model has no regex engine.
- **JSON parsing.** Both the libgdx `Json().fromJson` call and `ObjectMap` are left out. The parser is a host function that returns sections, and only orderless properties are stated about it.
- **`fixPath`.** It is not defined in the modelled files, so it is a host function.
- **Exceptions.** Parse errors and unreadable files are not modelled, and neither is a file without a parent directory.
- **`TexturePacker.kt`.** It only wraps the libgdx packer.
- **Regex syntax in labels.** The text-line kind is treated as literal text. A kind containing regex metacharacters would change the pattern in the source.
- **Characters.** Strings are sequences of characters, and UTF-16 surrogate pairs are not modelled. Case-insensitive matching of "style" folds ASCII letters only.
- **Quoting of emitted values.** Values are not escaped for Kotlin string literals: a value holding `"` or `$` is emitted as it is, in the model as in the source.
- Text.ReplaceAll: its contract covers only text without an occurrence; the removal of a leading "kind." is stated separately, by `RemoveLeadingOccurrence`.
- Emitter.RenderLayout: the line layout is stated only when the package name, labels, keys and trimmed values hold no line break. Otherwise a constant spans several lines, and the text is the same but reads back differently.
- Packer.ProcessLayout: the same restriction as `Emitter.RenderLayout`.
- LegacyPacker.ProcessLayout: the same restriction as `Emitter.RenderLayout`.
