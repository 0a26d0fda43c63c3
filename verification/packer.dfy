/**
  The newer generator (`src/main/kotlin/.../RClassPacker.kt`): four kinds of
  provider, each with a label, a file filter and an extractor; the default
  configuration; and `process`, which merges every provider's accepted
  files, gathers the maps by label and renders the `R` class.
 */
module Packer {
  import opened Wrappers
  import opened Text
  import opened Escaping
  import opened OrderedMap
  import opened Sprites
  import opened SkinStyles
  import opened FileIds
  import opened TextLines
  import opened Dispatch
  import opened Emitter
  import opened Resources

  datatype Provider =
    | SpriteIdProvider(directory: string)
    | LabelSkinIdProvider(directory: string)
    | FileIdProvider(directory: string, kind: string, mask: string)
    | IdProvider(kind: string, keyToKey: bool)

  /** `getType()`: the name of the category's nested class. */
  function Label(p: Provider): string
  {
    match p
    case SpriteIdProvider(_) => "sprite"
    case LabelSkinIdProvider(_) => "style"
    case FileIdProvider(_, kind, _) => kind
    case IdProvider(kind, _) => kind
  }

  /** `forFile`: which files a provider reads. */
  function ForFile(host: Host, p: Provider, f: ResourceFile): bool
  {
    match p
    case SpriteIdProvider(directory) => f.parentName == directory && Extension(f.name) == "atlas"
    case LabelSkinIdProvider(directory) => directory <= f.parentName && Extension(f.name) == "json"
    case FileIdProvider(_, _, mask) => host.maskMatches(mask, f.name)
    case IdProvider(_, _) => Extension(f.name) == "txt"
  }

  /** `get(source, file)`: the map one accepted file contributes, each key once. */
  function Extract(host: Host, p: Provider, f: ResourceFile): (r: seq<(string, string)>)
    ensures Distinct(Keys(r))
  {
    match p
    case SpriteIdProvider(_) =>
      FromPairsContract(SpritePairs(ReadLines(f.content)));
      SpriteEntries(ReadLines(f.content))
    case LabelSkinIdProvider(_) =>
      FromPairsContract(StylePairs(host.parseSkin(f.content)));
      StyleEntries(host.parseSkin(f.content))
    case FileIdProvider(directory, _, _) =>
      FileIdEntries(directory, RelativeDir(host.sourcePath, host.separator, f.parentPath), f.name, host.fixPath)
    case IdProvider(kind, keyToKey) =>
      FromPairsContract(TextLinePairs(f.content, kind, keyToKey));
      TextLineEntries(f.content, kind, keyToKey)
  }

  function Accepts(host: Host): (Provider, ResourceFile) -> bool
  {
    (p, f) => ForFile(host, p, f)
  }

  function Extractor(host: Host): (Provider, ResourceFile) -> seq<(string, string)>
  {
    (p, f) => Extract(host, p, f)
  }

  /** The label-to-map association `process` builds. */
  function Groups(host: Host, providers: seq<Provider>, files: seq<ResourceFile>): seq<(string, seq<(string, string)>)>
  {
    Aggregate(Label, Accepts(host), Extractor(host), providers, files)
  }

  /** `process`, up to the text written to `resources.kt`. */
  function Process(host: Host, packageName: Option<string>, providers: seq<Provider>, files: seq<ResourceFile>): string
  {
    Render(packageName, Groups(host, providers, files))
  }

  /**
    `process` writes the optional package lines, `class R { `, one class per
    group with one line per entry, and the closing brace.
   */
  lemma ProcessLayout(host: Host, packageName: Option<string>, providers: seq<Provider>, files: seq<ResourceFile>)
    requires packageName.Some? ==> NoLineBreak(packageName.value)
    requires forall i :: 0 <= i < |Groups(host, providers, files)| ==> SingleLineGroup(Groups(host, providers, files)[i])
    ensures ReadLines(Process(host, packageName, providers, files))
      == HeaderLines(packageName) + ["class R { "] + BodyLines(Groups(host, providers, files)) + ["}"]
  {
    RenderLayout(packageName, Groups(host, providers, files));
  }

  /** The default configuration. */
  const DefaultProviders: seq<Provider> := [
    LabelSkinIdProvider("skin"),
    SpriteIdProvider("atlas"),
    FileIdProvider("atlas", "atlas", ".atlas"),
    FileIdProvider("sounds", "sounds", ".ogg"),
    FileIdProvider("particle", "particle", ".part"),
    FileIdProvider("font", "font", ".fnt"),
    FileIdProvider("skin", "skin", ".json"),
    FileIdProvider("values", "locale", "^strings"),
    IdProvider("color", false),
    IdProvider("string", true)
  ]

  const DefaultLabels: seq<string> :=
    ["style", "sprite", "atlas", "sounds", "particle", "font", "skin", "locale", "color", "string"]

  // ------------------------------------------------------------- properties

  lemma DefaultLabelsDistinct()
    ensures Labels(Label, DefaultProviders) == DefaultLabels
    ensures Distinct(DefaultLabels)
  {
  }

  /**
    With the default configuration every provider has its own class: the
    groups are the ten categories in provider order, whatever the files.
   */
  lemma DefaultGroups(host: Host, files: seq<ResourceFile>)
    ensures Keys(Groups(host, DefaultProviders, files)) == DefaultLabels
    ensures Groups(host, DefaultProviders, files) == Categories(Label, Accepts(host), Extractor(host), DefaultProviders, files)
  {
    DefaultLabelsDistinct();
    AggregateOfDistinctLabels(Label, Accepts(host), Extractor(host), DefaultProviders, files);
  }

  /** Every key an extractor produces is made of word characters only. */
  lemma ExtractKeysAreWordChars(host: Host, p: Provider, f: ResourceFile)
    ensures forall k :: k in Keys(Extract(host, p, f)) ==> IsIdentifierSafe(k)
  {
    forall k | k in Keys(Extract(host, p, f)) ensures IsIdentifierSafe(k) {
      match p
      case SpriteIdProvider(_) =>
        var lines := ReadLines(f.content);
        SpriteEntriesSpec(lines);
        var i :| IsRegionAt(lines, i) && Escape(lines[i]) == k;
        EscapeIsIdentifierSafe(lines[i]);
      case LabelSkinIdProvider(_) =>
        var sections := host.parseSkin(f.content);
        StyleEntriesSpec(sections);
        var n :| IsStyleChild(sections, n) && Escape(n) == k;
        EscapeIsIdentifierSafe(n);
      case FileIdProvider(directory, _, _) =>
        FileIdEntriesSpec(directory, RelativeDir(host.sourcePath, host.separator, f.parentPath), f.name, host.fixPath);
      case IdProvider(kind, keyToKey) =>
        TextLineEntriesSpec(f.content, kind, keyToKey);
        var e :| e in LegacyTextLinePairs(f.content, kind, keyToKey) && Escape(e.0) == k;
        EscapeIsIdentifierSafe(e.0);
    }
  }

  lemma CollectKeysAreWordChars(host: Host, p: Provider, files: seq<ResourceFile>)
    ensures forall k :: k in Keys(Collect(Accepts(host), Extractor(host), p, files)) ==> IsIdentifierSafe(k)
  {
    CollectKeys(Accepts(host), Extractor(host), p, files);
    forall k | k in Keys(Collect(Accepts(host), Extractor(host), p, files)) ensures IsIdentifierSafe(k) {
      var i :| 0 <= i < |files| && Accepts(host)(p, files[i]) && k in Keys(Extractor(host)(p, files[i]));
      ExtractKeysAreWordChars(host, p, files[i]);
    }
  }

  /**
    Every constant the newer generator declares is named with word
    characters only: each key in each group is the escape of something.
   */
  lemma GroupKeysAreWordChars(host: Host, providers: seq<Provider>, files: seq<ResourceFile>)
    ensures forall j, k :: 0 <= j < |Groups(host, providers, files)| && k in Keys(Groups(host, providers, files)[j].1) ==>
      IsIdentifierSafe(k)
  {
    var gs := Groups(host, providers, files);
    AggregateSpec(Label, Accepts(host), Extractor(host), providers, files);
    forall j, k | 0 <= j < |gs| && k in Keys(gs[j].1) ensures IsIdentifierSafe(k) {
      GetAt(gs, j);
      var i :| 0 <= i < |providers| && Label(providers[i]) == gs[j].0
        && Get(gs, gs[j].0).value == Collect(Accepts(host), Extractor(host), providers[i], files);
      CollectKeysAreWordChars(host, providers[i], files);
    }
  }
}
