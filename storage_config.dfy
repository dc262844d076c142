/**
 * The WiredTiger storage configuration `CreateCollection` of
 * MongoToolsLib/SharedMethods.cs builds for a new target collection, and
 * `HasCollectionCreationOptions`, which decides whether such options are set.
 *
 * The options `collection-wt-configString`, `collection-wt-block-compressor` and
 * `collection-wt-allocation` are `Option<string>` values (`None`: not given).
 */
module StorageConfig {
  import opened Wrappers
  import opened Text

  /** `valid_wt_compressors.Contains(...)`: "", "zlib" or "snappy", ignoring case. */
  predicate ValidCompressor(compressor: Option<string>) {
    compressor.Some? &&
    (compressor.value == "" || EqualsIgnoreCase(compressor.value, "zlib") || EqualsIgnoreCase(compressor.value, "snappy"))
  }

  /**
   * `HasCollectionCreationOptions`: a valid compressor is given, or the allocation
   * option is non-empty. (White space alone counts here, though `CreateCollection`
   * ignores it.)
   */
  predicate HasCollectionCreationOptions(compressor: Option<string>, allocation: Option<string>) {
    ValidCompressor(compressor) || (allocation.Some? && allocation.value != "")
  }

  /** The page sizes an allocation preset sets. */
  datatype Preset = Preset(allocationSize: string, leafPageMax: string, internalPageMax: string)

  /** The presets `2x`, `4x` and `8x` (exact, case-sensitive); anything else sets nothing. */
  function AllocationPreset(allocation: Option<string>): Option<Preset> {
    if allocation == Some("2x") then Some(Preset("8KB", "64KB", "8KB"))
    else if allocation == Some("4x") then Some(Preset("16KB", "64KB", "16KB"))
    else if allocation == Some("8x") then Some(Preset("32KB", "128KB", "32KB"))
    else None
  }

  const CompressorKey := "block_compressor="
  const AllocationSizeKey := "allocation_size="
  const LeafPageMaxKey := "leaf_page_max="
  const InternalPageMaxKey := "internal_page_max="

  predicate IsCompressorEntry(e: string) { StartsWithIgnoreCase(e, CompressorKey) }
  predicate IsAllocationSizeEntry(e: string) { StartsWithIgnoreCase(e, AllocationSizeKey) }
  predicate IsLeafPageMaxEntry(e: string) { StartsWithIgnoreCase(e, LeafPageMaxKey) }
  predicate IsInternalPageMaxEntry(e: string) { StartsWithIgnoreCase(e, InternalPageMaxKey) }

  predicate IsPageEntry(e: string) {
    IsAllocationSizeEntry(e) || IsLeafPageMaxEntry(e) || IsInternalPageMaxEntry(e)
  }

  predicate NotCompressorEntry(e: string) { !IsCompressorEntry(e) }
  predicate NotPageEntry(e: string) { !IsPageEntry(e) }

  /** An entry none of the options manages: it is kept as the user wrote it. */
  predicate IsUserEntry(e: string) { !IsCompressorEntry(e) && !IsPageEntry(e) }

  /** The entries of `collection-wt-configString`: split on `,`, trimmed, empty ones dropped. */
  function ParseConfigString(configString: Option<string>): seq<string> {
    if configString.None? || IsBlank(configString.value) then []
    else TrimmedItems(Split(configString.value, {','}))
  }

  /** `key + value` is an entry for `key`, whatever the case of `value`. */
  lemma StartsWithKey(key: string, value: string)
    ensures StartsWithIgnoreCase(key + value, key)
  {
    assert (key + value)[..|key|] == key;
  }

  /** Entries whose first letters differ (ignoring case) are for different keys. */
  lemma OtherKey(e: string, key: string)
    requires e != [] && key != [] && Lower(e[0]) != Lower(key[0])
    ensures !StartsWithIgnoreCase(e, key)
  {
    if |key| <= |e| {
      assert Lowered(e[..|key|])[0] != Lowered(key)[0];
    }
  }

  /** Filtering twice by a predicate and a weaker one is filtering once by the first. */
  lemma {:induction false} WhereWeaker(xs: seq<string>, weak: string -> bool, strong: string -> bool)
    requires forall e :: strong(e) ==> weak(e)
    ensures Where(Where(xs, weak), strong) == Where(xs, strong)
  {
    if xs != [] {
      WhereWeaker(xs[1..], weak, strong);
      WhereAppend(if weak(xs[0]) then [xs[0]] else [], Where(xs[1..], weak), strong);
    }
  }

  /** Nothing survives filtering by two exclusive predicates. */
  lemma {:induction false} WhereExclusive(xs: seq<string>, f: string -> bool, g: string -> bool)
    requires forall e :: g(e) ==> !f(e)
    ensures Where(Where(xs, f), g) == []
  {
    if xs != [] {
      WhereExclusive(xs[1..], f, g);
      WhereAppend(if f(xs[0]) then [xs[0]] else [], Where(xs[1..], f), g);
    }
  }

  /** The compressor edit: user and page entries stay; the compressor entries become the one added. */
  lemma CompressorEdit(config: seq<string>, entry: string)
    requires IsCompressorEntry(entry) && entry != [] && Lower(entry[0]) == 'b'
    ensures var c := Where(config, NotCompressorEntry) + [entry];
      Where(c, IsUserEntry) == Where(config, IsUserEntry) &&
      Where(c, IsCompressorEntry) == [entry] &&
      Where(c, IsPageEntry) == Where(config, IsPageEntry)
  {
    var kept := Where(config, NotCompressorEntry);
    OtherKey(entry, AllocationSizeKey);
    OtherKey(entry, LeafPageMaxKey);
    OtherKey(entry, InternalPageMaxKey);
    WhereAppend(kept, [entry], IsUserEntry);
    WhereWeaker(config, NotCompressorEntry, IsUserEntry);
    WhereAppend(kept, [entry], IsCompressorEntry);
    WhereExclusive(config, NotCompressorEntry, IsCompressorEntry);
    WhereAppend(kept, [entry], IsPageEntry);
    PagesSurvive(config);
  }

  /** The entries a preset adds, in the order they are added. */
  function PresetEntries(p: Preset): seq<string> {
    [AllocationSizeKey + p.allocationSize, LeafPageMaxKey + p.leafPageMax, InternalPageMaxKey + p.internalPageMax]
  }

  /** Each preset entry is for its own key only. */
  lemma PresetEntryKeys(p: Preset)
    ensures var es := PresetEntries(p);
      IsAllocationSizeEntry(es[0]) && !IsLeafPageMaxEntry(es[0]) && !IsInternalPageMaxEntry(es[0]) &&
      IsLeafPageMaxEntry(es[1]) && !IsAllocationSizeEntry(es[1]) && !IsInternalPageMaxEntry(es[1]) &&
      IsInternalPageMaxEntry(es[2]) && !IsAllocationSizeEntry(es[2]) && !IsLeafPageMaxEntry(es[2]) &&
      !IsCompressorEntry(es[0]) && !IsCompressorEntry(es[1]) && !IsCompressorEntry(es[2])
  {
    var es := PresetEntries(p);
    StartsWithKey(AllocationSizeKey, p.allocationSize);
    StartsWithKey(LeafPageMaxKey, p.leafPageMax);
    StartsWithKey(InternalPageMaxKey, p.internalPageMax);
    assert es[0][0] == 'a' && es[1][0] == 'l' && es[2][0] == 'i';
    OtherKey(es[0], LeafPageMaxKey);
    OtherKey(es[0], InternalPageMaxKey);
    OtherKey(es[0], CompressorKey);
    OtherKey(es[1], AllocationSizeKey);
    OtherKey(es[1], InternalPageMaxKey);
    OtherKey(es[1], CompressorKey);
    OtherKey(es[2], AllocationSizeKey);
    OtherKey(es[2], LeafPageMaxKey);
    OtherKey(es[2], CompressorKey);
  }

  /** Adding one entry at the end adds it to exactly the filters it satisfies. */
  lemma WhereSnoc(c: seq<string>, e: string, f: string -> bool)
    ensures Where(c + [e], f) == Where(c, f) + (if f(e) then [e] else [])
  {
    WhereAppend(c, [e], f);
    assert [e][1..] == [];
  }

  /** The preset edit keeps the user's entries and the compressor entries. */
  lemma PresetKeepsOthers(config: seq<string>, p: Preset)
    ensures var es := PresetEntries(p);
      var c := Where(config, NotPageEntry) + [es[0]] + [es[1]] + [es[2]];
      Where(c, IsUserEntry) == Where(config, IsUserEntry) &&
      Where(c, IsCompressorEntry) == Where(config, IsCompressorEntry)
  {
    var kept := Where(config, NotPageEntry);
    var es := PresetEntries(p);
    PresetEntryKeys(p);
    WhereSnoc(kept, es[0], IsUserEntry);
    WhereSnoc(kept + [es[0]], es[1], IsUserEntry);
    WhereSnoc(kept + [es[0]] + [es[1]], es[2], IsUserEntry);
    WhereWeaker(config, NotPageEntry, IsUserEntry);
    WhereSnoc(kept, es[0], IsCompressorEntry);
    WhereSnoc(kept + [es[0]], es[1], IsCompressorEntry);
    WhereSnoc(kept + [es[0]] + [es[1]], es[2], IsCompressorEntry);
    CompressorsSurvive(config);
  }

  /** After the preset edit each page key holds exactly the preset's entry. */
  lemma PresetSetsPages(config: seq<string>, p: Preset)
    ensures var es := PresetEntries(p);
      var c := Where(config, NotPageEntry) + [es[0]] + [es[1]] + [es[2]];
      Where(c, IsAllocationSizeEntry) == [es[0]] &&
      Where(c, IsLeafPageMaxEntry) == [es[1]] &&
      Where(c, IsInternalPageMaxEntry) == [es[2]]
  {
    var kept := Where(config, NotPageEntry);
    var es := PresetEntries(p);
    PresetEntryKeys(p);
    WhereExclusive(config, NotPageEntry, IsAllocationSizeEntry);
    WhereSnoc(kept, es[0], IsAllocationSizeEntry);
    WhereSnoc(kept + [es[0]], es[1], IsAllocationSizeEntry);
    WhereSnoc(kept + [es[0]] + [es[1]], es[2], IsAllocationSizeEntry);
    WhereExclusive(config, NotPageEntry, IsLeafPageMaxEntry);
    WhereSnoc(kept, es[0], IsLeafPageMaxEntry);
    WhereSnoc(kept + [es[0]], es[1], IsLeafPageMaxEntry);
    WhereSnoc(kept + [es[0]] + [es[1]], es[2], IsLeafPageMaxEntry);
    WhereExclusive(config, NotPageEntry, IsInternalPageMaxEntry);
    WhereSnoc(kept, es[0], IsInternalPageMaxEntry);
    WhereSnoc(kept + [es[0]], es[1], IsInternalPageMaxEntry);
    WhereSnoc(kept + [es[0]] + [es[1]], es[2], IsInternalPageMaxEntry);
  }

  /** A compressor entry is not a page entry. */
  lemma CompressorIsNotPage(e: string)
    requires IsCompressorEntry(e)
    ensures !IsPageEntry(e)
  {
    assert Lower(e[0]) == 'b';
    OtherKey(e, AllocationSizeKey);
    OtherKey(e, LeafPageMaxKey);
    OtherKey(e, InternalPageMaxKey);
  }

  /** Removing compressor entries keeps every page entry. */
  lemma {:induction false} PagesSurvive(config: seq<string>)
    ensures Where(Where(config, NotCompressorEntry), IsPageEntry) == Where(config, IsPageEntry)
  {
    if config != [] {
      PagesSurvive(config[1..]);
      WhereAppend(if NotCompressorEntry(config[0]) then [config[0]] else [], Where(config[1..], NotCompressorEntry), IsPageEntry);
      if IsCompressorEntry(config[0]) {
        CompressorIsNotPage(config[0]);
      }
    }
  }

  /** Removing page entries keeps every compressor entry. */
  lemma {:induction false} CompressorsSurvive(config: seq<string>)
    ensures Where(Where(config, NotPageEntry), IsCompressorEntry) == Where(config, IsCompressorEntry)
  {
    if config != [] {
      CompressorsSurvive(config[1..]);
      WhereAppend(if NotPageEntry(config[0]) then [config[0]] else [], Where(config[1..], NotPageEntry), IsCompressorEntry);
      if IsCompressorEntry(config[0]) {
        CompressorIsNotPage(config[0]);
      }
    }
  }

  /**
   * The compressor edit of `CreateCollection`: for a valid compressor, every
   * `block_compressor=` entry is removed and one lower-cased entry added.
   */
  method ApplyCompressor(config0: seq<string>, compressor: Option<string>) returns (config: seq<string>)
    ensures Where(config, IsUserEntry) == Where(config0, IsUserEntry)
    ensures Where(config, IsPageEntry) == Where(config0, IsPageEntry)
    ensures Where(config, IsCompressorEntry) ==
      if ValidCompressor(compressor) then [CompressorKey + Lowered(compressor.value)]
      else Where(config0, IsCompressorEntry)
    ensures !ValidCompressor(compressor) ==> config == config0
  {
    config := config0;
    if ValidCompressor(compressor) {
      var entry := CompressorKey + Lowered(compressor.value);
      StartsWithKey(CompressorKey, Lowered(compressor.value));
      assert entry[0] == 'b';
      CompressorEdit(config, entry);
      config := Where(config, NotCompressorEntry);
      config := config + [entry];
    }
  }

  /**
   * The allocation edit of `CreateCollection`: for a preset, every page-size entry
   * is removed and the preset's three entries added.
   */
  method ApplyAllocation(config0: seq<string>, allocation: Option<string>) returns (config: seq<string>)
    ensures Where(config, IsUserEntry) == Where(config0, IsUserEntry)
    ensures Where(config, IsCompressorEntry) == Where(config0, IsCompressorEntry)
    ensures AllocationPreset(allocation).Some? ==>
      var es := PresetEntries(AllocationPreset(allocation).value);
      Where(config, IsAllocationSizeEntry) == [es[0]] &&
      Where(config, IsLeafPageMaxEntry) == [es[1]] &&
      Where(config, IsInternalPageMaxEntry) == [es[2]]
    ensures AllocationPreset(allocation).None? ==> config == config0
  {
    config := config0;
    if allocation.Some? && !IsBlank(allocation.value) {
      var preset := AllocationPreset(allocation);
      if preset.Some? {
        var es := PresetEntries(preset.value);
        PresetKeepsOthers(config, preset.value);
        PresetSetsPages(config, preset.value);
        config := Where(config, NotPageEntry);
        config := config + [es[0]];
        config := config + [es[1]];
        config := config + [es[2]];
      }
    } else if allocation.Some? && allocation.value != [] {
      // a blank value starts with white space, so it names no preset
      assert IsWhiteSpace(allocation.value[0]);
    }
  }

  /**
   * Whether `CreateCollection` has anything to configure: entries in the config
   * string, a valid compressor or an allocation preset.
   */
  predicate WantsConfig(configString: Option<string>, compressor: Option<string>, allocation: Option<string>) {
    ParseConfigString(configString) != [] || ValidCompressor(compressor) || AllocationPreset(allocation).Some?
  }

  /**
   * The configuration list of `CreateCollection`: the entries of the config
   * string, then the compressor edit, then the allocation edit.
   */
  method BuildConfig(configString: Option<string>, compressor: Option<string>, allocation: Option<string>)
    returns (config: seq<string>)
    ensures Where(config, IsUserEntry) == Where(ParseConfigString(configString), IsUserEntry)
    ensures Where(config, IsCompressorEntry) ==
      if ValidCompressor(compressor) then [CompressorKey + Lowered(compressor.value)]
      else Where(ParseConfigString(configString), IsCompressorEntry)
    ensures AllocationPreset(allocation).Some? ==>
      var es := PresetEntries(AllocationPreset(allocation).value);
      Where(config, IsAllocationSizeEntry) == [es[0]] &&
      Where(config, IsLeafPageMaxEntry) == [es[1]] &&
      Where(config, IsInternalPageMaxEntry) == [es[2]]
    ensures AllocationPreset(allocation).None? ==>
      Where(config, IsPageEntry) == Where(ParseConfigString(configString), IsPageEntry)
    ensures config == [] <==> !WantsConfig(configString, compressor, allocation)
  {
    config := [];
    if configString.Some? && !IsBlank(configString.value) {
      config := config + TrimmedItems(Split(configString.value, {','}));
    }
    assert config == ParseConfigString(configString);
    config := ApplyCompressor(config, compressor);
    config := ApplyAllocation(config, allocation);
    if ValidCompressor(compressor) {
      assert |Where(config, IsCompressorEntry)| == 1;
    }
    if AllocationPreset(allocation).Some? {
      assert |Where(config, IsAllocationSizeEntry)| == 1;
    }
  }
}
