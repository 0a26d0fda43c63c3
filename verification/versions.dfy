/**
  The two generations side by side. The newer sprite and skin providers
  were given a directory and read only the files under it; the file-id and
  text filters did not change; the older filters look at the file name alone.
 */
module Versions {
  import opened Text
  import opened Escaping
  import opened OrderedMap
  import opened Sprites
  import opened TextLines
  import opened Resources
  import Packer
  import LegacyPacker

  /** The newer sprite filter is the older one restricted to files directly in its directory. */
  lemma SpriteFilters(host: Host, directory: string, f: ResourceFile)
    ensures Packer.ForFile(host, Packer.SpriteIdProvider(directory), f)
      <==> LegacyPacker.ForFile(host.maskMatches, LegacyPacker.SpriteIdProvider, f) && f.parentName == directory
  {
  }

  /** The newer skin filter is the older one restricted to parent names that start with its directory. */
  lemma SkinFilters(host: Host, directory: string, f: ResourceFile)
    ensures Packer.ForFile(host, Packer.LabelSkinIdProvider(directory), f)
      <==> LegacyPacker.ForFile(host.maskMatches, LegacyPacker.LabelSkinIdProvider, f) && directory <= f.parentName
  {
  }

  /** Both file-id filters test the name against `.*<mask>.*`. */
  lemma FileIdFilters(host: Host, directory: string, kind: string, mask: string, f: ResourceFile)
    ensures Packer.ForFile(host, Packer.FileIdProvider(directory, kind, mask), f)
      == LegacyPacker.ForFile(host.maskMatches, LegacyPacker.FileIdProvider(directory, kind, mask), f)
  {
  }

  /** Both text filters accept the same files, the `.txt` ones. */
  lemma TextFilters(host: Host, kind: string, keyToKey: bool, f: ResourceFile)
    ensures Packer.ForFile(host, Packer.IdProvider(kind, keyToKey), f)
      == LegacyPacker.ForFile(host.maskMatches, LegacyPacker.IdProvider(kind, keyToKey), f)
  {
  }

  /**
    An older filter sees only the file name: two files of the same name are
    read or skipped together, whichever directories they sit in.
   */
  lemma LegacyFiltersIgnoreDirectory(maskMatches: (string, string) -> bool, p: LegacyPacker.Provider,
                                     f: ResourceFile, g: ResourceFile)
    requires f.name == g.name
    ensures LegacyPacker.ForFile(maskMatches, p, f) == LegacyPacker.ForFile(maskMatches, p, g)
  {
  }

  /**
    The newer sprite filter does see the directory: of two `.atlas` files of
    the same name, it reads the one in its directory and skips the other.
   */
  lemma SpriteFilterSeesDirectory(host: Host, directory: string, f: ResourceFile, g: ResourceFile)
    requires f.name == g.name && f.parentName == directory && g.parentName != directory
    requires LegacyPacker.ForFile(host.maskMatches, LegacyPacker.SpriteIdProvider, f)
    ensures Packer.ForFile(host, Packer.SpriteIdProvider(directory), f)
    ensures !Packer.ForFile(host, Packer.SpriteIdProvider(directory), g)
  {
  }

  /**
    The newer sprite keys are the escapes of the older ones: the same region
    lines are found, and only the key changed.
   */
  lemma SpriteKeysVersions(host: Host, directory: string, f: ResourceFile)
    ensures forall k :: k in Keys(Packer.Extract(host, Packer.SpriteIdProvider(directory), f)) <==>
      exists k' :: k' in Keys(LegacyPacker.Extract(LegacyPacker.SpriteIdProvider, f)) && Escape(k') == k
  {
    var lines := ReadLines(f.content);
    SpriteEntriesSpec(lines);
    LegacySpriteEntriesSpec(lines);
    forall k | k in Keys(SpriteEntries(lines))
      ensures exists k' :: k' in Keys(LegacySpriteEntries(lines)) && Escape(k') == k
    {
      var i :| IsRegionAt(lines, i) && Escape(lines[i]) == k;
      assert lines[i] in Keys(LegacySpriteEntries(lines));
    }
  }

  /**
    The newer text keys are the escapes of the older ones: the same pairs are
    found, and only the key changed.
   */
  lemma TextKeysVersions(host: Host, kind: string, keyToKey: bool, f: ResourceFile)
    ensures forall k :: k in Keys(Packer.Extract(host, Packer.IdProvider(kind, keyToKey), f)) <==>
      exists k' :: k' in Keys(LegacyPacker.Extract(LegacyPacker.IdProvider(kind, keyToKey), f)) && Escape(k') == k
  {
    var raw := LegacyTextLinePairs(f.content, kind, keyToKey);
    var newer := TextLineEntries(f.content, kind, keyToKey);
    var older := LegacyTextLineEntries(f.content, kind, keyToKey);
    assert Packer.Extract(host, Packer.IdProvider(kind, keyToKey), f) == newer;
    assert LegacyPacker.Extract(LegacyPacker.IdProvider(kind, keyToKey), f) == older;
    TextLineEntriesSpec(f.content, kind, keyToKey);
    FromPairsContract(raw);
    EscapedKeys(raw, newer, older);
  }

  lemma EscapedKeys(raw: seq<(string, string)>, newer: seq<(string, string)>, older: seq<(string, string)>)
    requires forall k :: k in Keys(newer) <==> exists e :: e in raw && Escape(e.0) == k
    requires forall k :: k in Keys(older) <==> k in Keys(raw)
    ensures forall k :: k in Keys(newer) <==> exists k' :: k' in Keys(older) && Escape(k') == k
  {
    forall k | k in Keys(newer) ensures exists k' :: k' in Keys(older) && Escape(k') == k {
      var e :| e in raw && Escape(e.0) == k;
      var n :| 0 <= n < |raw| && raw[n] == e;
      assert Keys(raw)[n] == e.0;
    }
    forall k' | k' in Keys(older) ensures Escape(k') in Keys(newer) {
      var n :| 0 <= n < |raw| && Keys(raw)[n] == k';
      assert raw[n] in raw;
    }
  }
}
