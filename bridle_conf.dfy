/**
 * The version-dependent part of the Bridle documentation configuration
 * (doc/bridle/conf.py): the version read from the VERSION file, the
 * extension list, the intersphinx mapping and the prefix of the "not found"
 * page.
 */
module BridleConf {

  import opened Wrappers
  import opened VersionFile
  import opened SphinxConf

  const VERSION_ABORT: string := "Could not extract Bridle version."
  const URL_SEGMENT: string := "bridle"
  const INTERSPHINX_NAMES: set<string> := {"zephyr", "kconfig", "devicetree"}

  /** `extensions` as listed, before the build tags are consulted. */
  const EXTENSIONS: seq<string> := [
    "breathe",
    "interbreathe",
    "tsn_include",
    "sphinx.ext.intersphinx",
    "sphinx.ext.todo",
    "sphinx.ext.extlinks",
    "sphinx.ext.graphviz",
    "sphinx.ext.ifconfig",
    "sphinxcontrib.mscgen",
    "sphinx_tabs.tabs",
    "crate.sphinx.csv",
    "zephyr.application",
    "zephyr.html_redirects",
    "zephyr.kconfig",
    "zephyr.dtcompatible-role",
    "zephyr.link-roles",
    "zephyr.warnings_filter",
    "zephyr.doxyrunner",
    "zephyr.external_content",
    "sphinx_copybutton",
    "notfound.extension",
    "bridle.link-roles",
    "bridle.inventory_builder",
    "bridle.options_from_kconfig",
    "bridle.manifest_revisions_table"
  ]

  /** `extensions`, with the SVG converter appended when the build asks for it. */
  method Extensions(tags: set<string>) returns (extensions: seq<string>)
    ensures extensions == if SVGCONVERT_TAG in tags then EXTENSIONS + [SVG_CONVERTER] else EXTENSIONS
  {
    extensions := EXTENSIONS;
    if SVGCONVERT_TAG in tags {
      extensions := extensions + [SVG_CONVERTER];
    }
  }

  /** `intersphinx_mapping`, filled with the documentation sets whose lookup is truthy. */
  method IntersphinxMapping(lookup: IntersphinxLookup) returns (intersphinxMapping: map<string, IntersphinxEntry>)
    ensures IntersphinxFilled(intersphinxMapping, INTERSPHINX_NAMES, lookup)
  {
    intersphinxMapping := map[];
    var zephyrMapping := lookup("zephyr");
    if zephyrMapping.Some? {
      intersphinxMapping := intersphinxMapping["zephyr" := zephyrMapping.value];
    }
    var kconfigMapping := lookup("kconfig");
    if kconfigMapping.Some? {
      intersphinxMapping := intersphinxMapping["kconfig" := kconfigMapping.value];
    }
    var devicetreeMapping := lookup("devicetree");
    if devicetreeMapping.Some? {
      intersphinxMapping := intersphinxMapping["devicetree" := devicetreeMapping.value];
    }
  }

  /**
   * Evaluating the configuration file: `versionFile` is the content of the
   * VERSION file (`None` when it cannot be opened), `tags` the Sphinx build
   * tags, `lookup` the intersphinx helper.
   */
  method Configure(versionFile: Option<seq<string>>, tags: set<string>, lookup: IntersphinxLookup)
    returns (r: Configuration)
    ensures FileVersion(versionFile, VERSION_ABORT).Exit? <==> r == Exited(VERSION_ABORT)
    ensures r.Configured? <==> FileVersion(versionFile, VERSION_ABORT).Built?
    ensures r.Configured? ==> FileVersion(versionFile, VERSION_ABORT)
                              == Built(r.settings.version, r.settings.release)
    ensures r.Configured? ==> r.settings.extensions
                              == if SVGCONVERT_TAG in tags then EXTENSIONS + [SVG_CONVERTER] else EXTENSIONS
    ensures r.Configured? ==> IntersphinxFilled(r.settings.intersphinxMapping, INTERSPHINX_NAMES, lookup)
    ensures r.Configured? ==> r.settings.notfoundUrlsPrefix == NotfoundUrlsPrefix(r.settings.version, URL_SEGMENT)
  {
    var outcome := ReadVersion(versionFile, VERSION_ABORT);
    if outcome.Exit? {
      return Exited(outcome.message);
    }
    var extensions := Extensions(tags);
    var intersphinxMapping := IntersphinxMapping(lookup);
    var prefix := NotfoundUrlsPrefix(outcome.version, URL_SEGMENT);
    return Configured(Settings(outcome.version, outcome.release, extensions, intersphinxMapping, prefix));
  }
}
