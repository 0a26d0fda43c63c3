/**
  The older generator (`src/.../RClassPacker.kt`): the same four kinds of
  provider with the older filters and extractors (no escaping of sprite and
  text keys, the parent-name test for file ids, the line-scanning style
  extractor), the older default configuration, and `process` with
  `map { ... }.toMap()` in place of `associate`.
 */
module LegacyPacker {
  import opened Wrappers
  import opened Text
  import opened Escaping
  import opened OrderedMap
  import opened Sprites
  import opened SkinStyles
  import opened FileIds
  import opened TextLines
  import opened Dispatch
  import opened Emitter
  import opened Resources

  datatype Provider =
    | SpriteIdProvider
    | LabelSkinIdProvider
    | FileIdProvider(directory: string, kind: string, mask: string)
    | IdProvider(kind: string, keyToKey: bool)

  /** `getType()`. */
  function Label(p: Provider): string
  {
    match p
    case SpriteIdProvider => "sprite"
    case LabelSkinIdProvider => "skin"
    case FileIdProvider(_, kind, _) => kind
    case IdProvider(kind, _) => kind
  }

  /** `forFile`: the sprite and skin providers look only at the extension. */
  function ForFile(maskMatches: (string, string) -> bool, p: Provider, f: ResourceFile): bool
  {
    match p
    case SpriteIdProvider => Extension(f.name) == "atlas"
    case LabelSkinIdProvider => Extension(f.name) == "json"
    case FileIdProvider(_, _, mask) => maskMatches(mask, f.name)
    case IdProvider(_, _) => Extension(f.name) == "txt"
  }

  /** `get(file)`: the map one accepted file contributes, each key once. */
  function Extract(p: Provider, f: ResourceFile): (r: seq<(string, string)>)
    ensures Distinct(Keys(r))
  {
    match p
    case SpriteIdProvider =>
      FromPairsContract(LegacySpritePairs(ReadLines(f.content)));
      LegacySpriteEntries(ReadLines(f.content))
    case LabelSkinIdProvider =>
      FromPairsContract(LegacyStylePairs(ReadLines(f.content)));
      LegacyStyleEntries(ReadLines(f.content))
    case FileIdProvider(directory, _, _) => LegacyFileIdEntries(directory, f.parentName, f.name)
    case IdProvider(kind, keyToKey) =>
      FromPairsContract(LegacyTextLinePairs(f.content, kind, keyToKey));
      LegacyTextLineEntries(f.content, kind, keyToKey)
  }

  function Accepts(maskMatches: (string, string) -> bool): (Provider, ResourceFile) -> bool
  {
    (p, f) => ForFile(maskMatches, p, f)
  }

  function Extractor(): (Provider, ResourceFile) -> seq<(string, string)>
  {
    (p, f) => Extract(p, f)
  }

  /** `providers.map { getType() to ... }.toMap()`. */
  function Groups(maskMatches: (string, string) -> bool, providers: seq<Provider>, files: seq<ResourceFile>): seq<(string, seq<(string, string)>)>
  {
    Aggregate(Label, Accepts(maskMatches), Extractor(), providers, files)
  }

  /** `process`, up to the text written to `resources.kt`. */
  function Process(maskMatches: (string, string) -> bool, packageName: Option<string>, providers: seq<Provider>,
                   files: seq<ResourceFile>): string
  {
    Render(packageName, Groups(maskMatches, providers, files))
  }

  /**
    The older `process` writes the same layout as the newer one: the optional
    package lines, `class R { `, one class per group with one line per entry,
    and the closing brace.
   */
  lemma ProcessLayout(maskMatches: (string, string) -> bool, packageName: Option<string>, providers: seq<Provider>,
                      files: seq<ResourceFile>)
    requires packageName.Some? ==> NoLineBreak(packageName.value)
    requires forall i :: 0 <= i < |Groups(maskMatches, providers, files)| ==> SingleLineGroup(Groups(maskMatches, providers, files)[i])
    ensures ReadLines(Process(maskMatches, packageName, providers, files))
      == HeaderLines(packageName) + ["class R { "] + BodyLines(Groups(maskMatches, providers, files)) + ["}"]
  {
    RenderLayout(packageName, Groups(maskMatches, providers, files));
  }

  /** The default configuration: two of its providers are labelled "skin". */
  const DefaultProviders: seq<Provider> := [
    LabelSkinIdProvider,
    SpriteIdProvider,
    FileIdProvider("atlas", "atlas", ".atlas"),
    FileIdProvider("sounds", "sounds", ".ogg"),
    FileIdProvider("particle", "particle", ".part"),
    FileIdProvider("font", "font", ".fnt"),
    FileIdProvider("skin", "skin", ".json"),
    FileIdProvider("values", "locale", "^strings"),
    IdProvider("color", false),
    IdProvider("string", true)
  ]

  const SkinFileIds: Provider := FileIdProvider("skin", "skin", ".json")

  // ------------------------------------------------------------- properties

  lemma DefaultLabels()
    ensures Labels(Label, DefaultProviders)
      == ["skin", "sprite", "atlas", "sounds", "particle", "font", "skin", "locale", "color", "string"]
  {
  }

  lemma DedupSnoc(ks: seq<string>, x: string)
    ensures Dedup(ks + [x]) == if x in Dedup(ks) then Dedup(ks) else Dedup(ks) + [x]
  {
    assert (ks + [x])[..|ks|] == ks;
  }

  lemma DedupFirstThree()
    ensures Dedup(["skin", "sprite", "atlas"]) == ["skin", "sprite", "atlas"]
  {
    DedupSnoc([], "skin");
    assert [] + ["skin"] == ["skin"];
    DedupSnoc(["skin"], "sprite");
    assert ["skin"] + ["sprite"] == ["skin", "sprite"];
    DedupSnoc(["skin", "sprite"], "atlas");
    assert ["skin", "sprite"] + ["atlas"] == ["skin", "sprite", "atlas"];
  }

  lemma DedupFirstSix()
    ensures Dedup(["skin", "sprite", "atlas", "sounds", "particle", "font"])
      == ["skin", "sprite", "atlas", "sounds", "particle", "font"]
  {
    DedupFirstThree();
    var three := ["skin", "sprite", "atlas"];
    DedupSnoc(three, "sounds");
    DedupSnoc(three + ["sounds"], "particle");
    DedupSnoc(three + ["sounds", "particle"], "font");
    assert three + ["sounds"] + ["particle"] == three + ["sounds", "particle"];
    assert three + ["sounds", "particle"] + ["font"] == ["skin", "sprite", "atlas", "sounds", "particle", "font"];
  }

  lemma DedupFirstSeven()
    ensures Dedup(["skin", "sprite", "atlas", "sounds", "particle", "font", "skin"])
      == ["skin", "sprite", "atlas", "sounds", "particle", "font"]
  {
    var six := ["skin", "sprite", "atlas", "sounds", "particle", "font"];
    DedupFirstSix();
    assert six[0] == "skin";
    DedupSnoc(six, "skin");
    assert six + ["skin"] == ["skin", "sprite", "atlas", "sounds", "particle", "font", "skin"];
  }

  lemma DedupFirstEight()
    ensures Dedup(["skin", "sprite", "atlas", "sounds", "particle", "font", "skin", "locale"])
      == ["skin", "sprite", "atlas", "sounds", "particle", "font", "locale"]
  {
    var seven := ["skin", "sprite", "atlas", "sounds", "particle", "font", "skin"];
    DedupFirstSeven();
    DedupSnoc(seven, "locale");
    assert seven + ["locale"] == ["skin", "sprite", "atlas", "sounds", "particle", "font", "skin", "locale"];
  }

  lemma DedupFirstNine()
    ensures Dedup(["skin", "sprite", "atlas", "sounds", "particle", "font", "skin", "locale", "color"])
      == ["skin", "sprite", "atlas", "sounds", "particle", "font", "locale", "color"]
  {
    var eight := ["skin", "sprite", "atlas", "sounds", "particle", "font", "skin", "locale"];
    DedupFirstEight();
    DedupSnoc(eight, "color");
    assert eight + ["color"] == ["skin", "sprite", "atlas", "sounds", "particle", "font", "skin", "locale", "color"];
  }

  lemma DefaultLabelsDedup()
    ensures Dedup(["skin", "sprite", "atlas", "sounds", "particle", "font", "skin", "locale", "color", "string"])
      == ["skin", "sprite", "atlas", "sounds", "particle", "font", "locale", "color", "string"]
  {
    var nine := ["skin", "sprite", "atlas", "sounds", "particle", "font", "skin", "locale", "color"];
    DedupFirstNine();
    DedupSnoc(nine, "string");
    assert nine + ["string"] == ["skin", "sprite", "atlas", "sounds", "particle", "font", "skin", "locale", "color", "string"];
  }

  /**
    The default configuration's label collision: nine classes come out for
    ten providers. The single `skin` class stands first, where the style
    provider was, but holds the file-id map of the `skin` directory, so no
    label style from any skin file reaches the output.
   */
  lemma DefaultSkinCollision(maskMatches: (string, string) -> bool, files: seq<ResourceFile>)
    ensures Keys(Groups(maskMatches, DefaultProviders, files))
      == ["skin", "sprite", "atlas", "sounds", "particle", "font", "locale", "color", "string"]
    ensures Get(Groups(maskMatches, DefaultProviders, files), "skin")
      == Some(Collect(Accepts(maskMatches), Extractor(), SkinFileIds, files))
  {
    var cs := Categories(Label, Accepts(maskMatches), Extractor(), DefaultProviders, files);
    AggregateSpec(Label, Accepts(maskMatches), Extractor(), DefaultProviders, files);
    DefaultLabels();
    DefaultLabelsDedup();
    FromPairsContract(cs);
    assert cs[9].0 == "string" && cs[8].0 == "color" && cs[7].0 == "locale";
    assert cs[6] == ("skin", Collect(Accepts(maskMatches), Extractor(), SkinFileIds, files));
    SkinIsLastAt(cs);
  }

  lemma SkinIsLastAt<V>(cs: seq<(string, V)>)
    requires |cs| == 10 && cs[6].0 == "skin"
    requires cs[7].0 == "locale" && cs[8].0 == "color" && cs[9].0 == "string"
    ensures LastValue(cs, "skin") == Some(cs[6].1)
  {
    assert cs[..9][..8][..7][6] == cs[6];
  }

  /**
    The older sprite extractor keeps a region line as the key: the region
    `ui-button` yields a constant named `ui-button`, which is not an
    identifier, where the newer extractor yields `ui_button`.
   */
  lemma LegacySpriteKeyNotWordChars()
    ensures "ui-button" in Keys(LegacySpriteEntries(["ui-button", "  rotate: false"]))
    ensures !IsIdentifierSafe("ui-button")
    ensures "ui_button" in Keys(SpriteEntries(["ui-button", "  rotate: false"]))
  {
    var lines := ["ui-button", "  rotate: false"];
    assert IsRegionAt(lines, 0);
    LegacySpriteEntriesSpec(lines);
    SpriteEntriesSpec(lines);
    assert !IsWordChar("ui-button"[2]);
    assert Escape("ui-button") == "ui_button";
  }
}
