/**
 * The settings the Sphinx configurations derive from the version string and
 * from build tags, and the `update_config` hook that adjusts the warnings
 * filter for the inventory builder.  The per-document modules instantiate
 * these with their own URL segment and paths.
 */
module SphinxConf {

  import opened Wrappers
  import opened VersionFile

  predicate StartsWith(s: string, prefix: string) {
    |prefix| <= |s| && s[..|prefix|] == prefix
  }

  predicate EndsWith(s: string, suffix: string) {
    |suffix| <= |s| && s[|s| - |suffix|..] == suffix
  }

  // ---------------------------------------------------------------------------
  // notfound_urls_prefix
  // ---------------------------------------------------------------------------

  /** Development versions (patch level 99) are published under "latest". */
  predicate IsDevelopment(version: string) {
    EndsWith(version, "99")
  }

  /** The version directory of the published documentation. */
  function DocDirectory(version: string): string {
    if IsDevelopment(version) then "latest" else version
  }

  /**
   * `'/doc/{}/<segment>/'.format('latest' if version.endswith('99') else version)`:
   * the prefix starts with "/doc/", ends with "/<segment>/", and what lies
   * between is the version directory.
   */
  function NotfoundUrlsPrefix(version: string, segment: string): (r: string)
    ensures StartsWith(r, "/doc/") && EndsWith(r, "/" + segment + "/")
    ensures |r| == 5 + |DocDirectory(version)| + 2 + |segment|
    ensures r[5..5 + |DocDirectory(version)|] == DocDirectory(version)
  {
    "/doc/" + DocDirectory(version) + "/" + segment + "/"
  }

  /** Two prefixes for the same segment are equal exactly when their version directories are. */
  lemma NotfoundPrefixDeterminesDirectory(v1: string, v2: string, segment: string)
    ensures NotfoundUrlsPrefix(v1, segment) == NotfoundUrlsPrefix(v2, segment)
            <==> DocDirectory(v1) == DocDirectory(v2)
  {
    var p1 := NotfoundUrlsPrefix(v1, segment);
    var p2 := NotfoundUrlsPrefix(v2, segment);
    if p1 == p2 {
      assert p1[5..5 + |DocDirectory(v1)|] == p2[5..5 + |DocDirectory(v2)|];
    }
  }

  /**
   * A released version (one with a dot, not a development version) gets a
   * prefix of its own: no other version shares it.
   */
  lemma ReleasedVersionHasOwnPrefix(released: string, other: string, segment: string)
    requires '.' in released && !IsDevelopment(released)
    ensures NotfoundUrlsPrefix(released, segment) == NotfoundUrlsPrefix(other, segment) <==> released == other
  {
    NotfoundPrefixDeterminesDirectory(released, other, segment);
    assert '.' !in "latest";
  }

  /** All development versions share the "latest" prefix. */
  lemma DevelopmentVersionsShareLatest(v1: string, v2: string, segment: string)
    requires IsDevelopment(v1) && IsDevelopment(v2)
    ensures NotfoundUrlsPrefix(v1, segment) == NotfoundUrlsPrefix(v2, segment) == "/doc/latest/" + segment + "/"
  {
  }

  // ---------------------------------------------------------------------------
  // Extensions and intersphinx
  // ---------------------------------------------------------------------------

  /** The build tag that asks for SVG conversion, and the extension it adds. */
  const SVGCONVERT_TAG: string := "svgconvert"
  const SVG_CONVERTER: string := "sphinxcontrib.rsvgconverter"

  /**
   * An entry of `intersphinx_mapping`: what the documentation helpers return
   * for a documentation set (its target and inventory location).
   */
  datatype IntersphinxEntry = IntersphinxEntry(target: string, inventory: Option<string>)

  /**
   * `utils.get_intersphinx_mapping`: the helper module is not part of this
   * model, so the lookup is a parameter; `None` stands for any falsy result.
   */
  type IntersphinxLookup = string -> Option<IntersphinxEntry>

  /**
   * `intersphinx_mapping` after the conditional fills: exactly the names
   * among `names` whose lookup is truthy, each bound to its lookup result.
   */
  predicate IntersphinxFilled(mapping: map<string, IntersphinxEntry>, names: set<string>, lookup: IntersphinxLookup) {
    && (forall n :: n in mapping ==> n in names && lookup(n) == Some(mapping[n]))
    && (forall n :: n in names && lookup(n).Some? ==> n in mapping)
  }

  /** The version-dependent settings a configuration file ends with. */
  datatype Settings = Settings(
    version: string,
    release: string,
    extensions: seq<string>,
    intersphinxMapping: map<string, IntersphinxEntry>,
    notfoundUrlsPrefix: string)

  /** The settings, or the message `sys.exit` ended the build with. */
  datatype Configuration = Configured(settings: Settings) | Exited(message: string)

  // ---------------------------------------------------------------------------
  // Paths and the inventory warnings filter
  // ---------------------------------------------------------------------------

  /** `os.path.join(a, b)` on POSIX. */
  function PathJoin(a: string, b: string): (r: string)
    ensures StartsWith(b, "/") ==> r == b
    ensures !StartsWith(b, "/") ==> StartsWith(r, a) && EndsWith(r, b)
    ensures !StartsWith(b, "/") && (a == "" || EndsWith(a, "/")) ==> |r| == |a| + |b|
    ensures !StartsWith(b, "/") && a != "" && !EndsWith(a, "/") ==> |r| == |a| + 1 + |b| && r[|a|] == '/'
  {
    if StartsWith(b, "/") then b
    else if a == "" || EndsWith(a, "/") then a + b
    else a + "/" + b
  }

  /** `os.path.join(base, 'doc', document, file)`. */
  function DocFilePath(base: string, document: string, file: string): string {
    PathJoin(PathJoin(PathJoin(base, "doc"), document), file)
  }

  /** Joining a relative part to a directory without a trailing '/' inserts exactly one '/'. */
  lemma PathJoinRelative(a: string, b: string)
    requires a != "" && !EndsWith(a, "/") && !StartsWith(b, "/")
    ensures PathJoin(a, b) == a + "/" + b
  {
  }

  /** A joined path ends the way its last part ends. */
  lemma JoinedPathEnding(a: string, b: string)
    requires b != "" && !EndsWith(b, "/")
    ensures !EndsWith(a + "/" + b, "/")
  {
    var p := a + "/" + b;
    assert p[|p| - 1..] == b[|b| - 1..];
  }

  /** For a base without a trailing '/' and relative components, the joins put one '/' between parts. */
  lemma DocFilePathIsSlashSeparated(base: string, document: string, file: string)
    requires base != "" && !EndsWith(base, "/")
    requires document != "" && !StartsWith(document, "/") && !EndsWith(document, "/")
    requires !StartsWith(file, "/")
    ensures DocFilePath(base, document, file) == base + "/" + "doc" + "/" + document + "/" + file
  {
    var d := base + "/" + "doc";
    var e := d + "/" + document;
    PathJoinRelative(base, "doc");
    JoinedPathEnding(base, "doc");
    PathJoinRelative(d, document);
    JoinedPathEnding(d, document);
    PathJoinRelative(e, file);
  }

  const WARNINGS_FILTER_CONFIG: string := "warnings_filter_config"
  const INVENTORY_BUILDER: string := "inventory"

  /**
   * The configuration after `update_config`: for the inventory builder, an
   * existing `warnings_filter_config` is replaced by `inventoryFilter`; no
   * other value changes and no key is added or removed.
   */
  function UpdatedConfig(builderName: string, config: map<string, string>, inventoryFilter: string): (r: map<string, string>)
    ensures r.Keys == config.Keys
    ensures forall k :: k in config && k != WARNINGS_FILTER_CONFIG ==> r[k] == config[k]
    ensures WARNINGS_FILTER_CONFIG in config
            ==> r[WARNINGS_FILTER_CONFIG] == if builderName == INVENTORY_BUILDER then inventoryFilter else config[WARNINGS_FILTER_CONFIG]
  {
    if builderName == INVENTORY_BUILDER && WARNINGS_FILTER_CONFIG in config then
      config[WARNINGS_FILTER_CONFIG := inventoryFilter]
    else
      config
  }

  /** Running the hook a second time changes nothing more. */
  lemma UpdatedConfigIdempotent(builderName: string, config: map<string, string>, inventoryFilter: string)
    ensures UpdatedConfig(builderName, UpdatedConfig(builderName, config, inventoryFilter), inventoryFilter)
            == UpdatedConfig(builderName, config, inventoryFilter)
  {
  }

  /** The part of the Sphinx application object the hook reads and writes. */
  class SphinxApp {
    /** `app.builder.name`. */
    var builderName: string
    /** `app.config`, as configuration values by name. */
    var config: map<string, string>

    constructor(builderName: string, config: map<string, string>)
      ensures this.builderName == builderName && this.config == config
    {
      this.builderName := builderName;
      this.config := config;
    }

    /** `update_inventory_warnings_filter_config`. */
    method UpdateInventoryWarningsFilterConfig(inventoryFilter: string)
      modifies this
      ensures builderName == old(builderName)
      ensures WARNINGS_FILTER_CONFIG in old(config) ==> config == old(config)[WARNINGS_FILTER_CONFIG := inventoryFilter]
      ensures WARNINGS_FILTER_CONFIG !in old(config) ==> config == old(config)
    {
      if WARNINGS_FILTER_CONFIG in config {
        config := config[WARNINGS_FILTER_CONFIG := inventoryFilter];
      }
    }

    /** `update_config`, connected to the "builder-inited" event. */
    method UpdateConfig(inventoryFilter: string)
      modifies this
      ensures builderName == old(builderName)
      ensures config == UpdatedConfig(old(builderName), old(config), inventoryFilter)
    {
      if INVENTORY_BUILDER == builderName {
        UpdateInventoryWarningsFilterConfig(inventoryFilter);
      }
    }
  }
}
