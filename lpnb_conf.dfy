/**
 * The Li-Pro.Net bridle documentation configuration (doc/lpnb/conf.py): the
 * required environment variables, the extension list, the version read from
 * the VERSION file, the excluded source patterns and the title shown for
 * release and development builds.
 */
module LpnbConf {

  import opened Wrappers
  import opened VersionFile
  import opened SphinxConf

  // ---------------------------------------------------------------------------
  // Environment
  // ---------------------------------------------------------------------------

  /** The environment variables the file reads, in the order it checks them. */
  const REQUIRED_ENV: seq<string> := [
    "ZEPHYR_BASE",
    "ZEPHYR_BUILD",
    "ZEPHYR_OUTPUT",
    "ZEPHYR_RST_SRC",
    "KCONFIG_OUTPUT",
    "DTS_BINDINGS_OUTPUT",
    "LPNB_BASE",
    "LPNB_BUILD",
    "LPNB_OUTPUT",
    "LPNB_RST_SRC"
  ]

  /** The message `sys.exit` ends the build with when `name` is not set. */
  function UndefinedMessage(name: string): string {
    "$" + name + " environment variable undefined."
  }

  /** The position of the first of `names` that `env` does not define. */
  function FirstMissing(names: seq<string>, env: map<string, string>): (r: Option<nat>)
    ensures r.None? <==> forall i :: 0 <= i < |names| ==> names[i] in env
    ensures r.Some? ==> r.value < |names| && names[r.value] !in env
    ensures r.Some? ==> forall i :: 0 <= i < r.value ==> names[i] in env
  {
    if names == [] then None
    else if names[0] !in env then Some(0)
    else match FirstMissing(names[1..], env)
      case None => None
      case Some(i) => Some(i + 1)
  }

  /**
   * The exit message of the environment checks, if any: none when every
   * variable is set, otherwise the message naming the first one that is not.
   */
  function EnvironmentFailure(env: map<string, string>): (r: Option<string>)
    ensures r.None? <==> forall i :: 0 <= i < |REQUIRED_ENV| ==> REQUIRED_ENV[i] in env
    ensures r.Some? ==> exists i :: 0 <= i < |REQUIRED_ENV| && REQUIRED_ENV[i] !in env
                                    && (forall j :: 0 <= j < i ==> REQUIRED_ENV[j] in env)
                                    && r.value == UndefinedMessage(REQUIRED_ENV[i])
  {
    match FirstMissing(REQUIRED_ENV, env)
    case None => None
    case Some(i) => Some(UndefinedMessage(REQUIRED_ENV[i]))
  }

  /** Once the variables before position `k` are set and the one at `k` is not, the checks stop there. */
  lemma FailsAt(env: map<string, string>, k: nat)
    requires k < |REQUIRED_ENV| && REQUIRED_ENV[k] !in env
    requires forall i :: 0 <= i < k ==> REQUIRED_ENV[i] in env
    ensures EnvironmentFailure(env) == Some(UndefinedMessage(REQUIRED_ENV[k]))
  {
  }

  /**
   * The ten checks at the top of the file: the first variable that is not
   * set ends the build with its message; the value itself is not inspected.
   */
  method CheckEnvironment(env: map<string, string>) returns (failure: Option<string>)
    ensures failure == EnvironmentFailure(env)
  {
    if "ZEPHYR_BASE" !in env {
      FailsAt(env, 0);
      return Some(UndefinedMessage("ZEPHYR_BASE"));
    }
    if "ZEPHYR_BUILD" !in env {
      FailsAt(env, 1);
      return Some(UndefinedMessage("ZEPHYR_BUILD"));
    }
    if "ZEPHYR_OUTPUT" !in env {
      FailsAt(env, 2);
      return Some(UndefinedMessage("ZEPHYR_OUTPUT"));
    }
    if "ZEPHYR_RST_SRC" !in env {
      FailsAt(env, 3);
      return Some(UndefinedMessage("ZEPHYR_RST_SRC"));
    }
    if "KCONFIG_OUTPUT" !in env {
      FailsAt(env, 4);
      return Some(UndefinedMessage("KCONFIG_OUTPUT"));
    }
    if "DTS_BINDINGS_OUTPUT" !in env {
      FailsAt(env, 5);
      return Some(UndefinedMessage("DTS_BINDINGS_OUTPUT"));
    }
    if "LPNB_BASE" !in env {
      FailsAt(env, 6);
      return Some(UndefinedMessage("LPNB_BASE"));
    }
    if "LPNB_BUILD" !in env {
      FailsAt(env, 7);
      return Some(UndefinedMessage("LPNB_BUILD"));
    }
    if "LPNB_OUTPUT" !in env {
      FailsAt(env, 8);
      return Some(UndefinedMessage("LPNB_OUTPUT"));
    }
    if "LPNB_RST_SRC" !in env {
      FailsAt(env, 9);
      return Some(UndefinedMessage("LPNB_RST_SRC"));
    }
    return None;
  }

  /** The checks pass exactly when every required variable is set. */
  lemma EnvironmentAcceptedIffAllSet(env: map<string, string>)
    ensures EnvironmentFailure(env).None? <==> forall name :: name in REQUIRED_ENV ==> name in env
  {
    if EnvironmentFailure(env).None? {
      forall name | name in REQUIRED_ENV
        ensures name in env
      {
        var i :| 0 <= i < |REQUIRED_ENV| && REQUIRED_ENV[i] == name;
      }
    }
  }

  /** Adding variables to an environment that already passes the checks keeps it passing. */
  lemma MoreVariablesStillAccepted(env: map<string, string>, more: map<string, string>)
    requires EnvironmentFailure(env).None?
    ensures EnvironmentFailure(env + more).None?
  {
  }

  // ---------------------------------------------------------------------------
  // Settings
  // ---------------------------------------------------------------------------

  const VERSION_ABORT: string := "Could not extract LPNB version."
  const RELEASE_TAG: string := "release"

  /** `extensions` as listed, before the build tags are consulted. */
  const EXTENSIONS: seq<string> := [
    "sphinx.ext.intersphinx",
    "breathe",
    "interbreathe",
    "options_from_kconfig",
    "sphinx.ext.ifconfig",
    "sphinxcontrib.mscgen",
    "sphinx_tabs.tabs",
    "zephyr.application",
    "zephyr.html_redirects",
    "zephyr.link-roles",
    "crate.sphinx.csv"
  ]

  /** `extensions`, with the SVG converter appended when the build asks for it. */
  method Extensions(tags: set<string>) returns (extensions: seq<string>)
    ensures extensions == if SVGCONVERT_TAG in tags then EXTENSIONS + [SVG_CONVERTER] else EXTENSIONS
  {
    extensions := EXTENSIONS;
    if SVGCONVERT_TAG in tags {
      extensions := extensions + [SVG_CONVERTER];
    }
  }

  const BUILD_PATTERN: string := "_build"
  const WEST_APIS_PATTERN: string := "**/*west-apis*"
  const WEST_NOT_FOUND_PATTERN: string := "**/*west-not-found*"

  /**
   * `exclude_patterns`: the build directory, and the pages for whichever of
   * the two west situations does not hold (`westFound` is whether `import
   * west` succeeded).
   */
  function ExcludedPatterns(westFound: bool): (r: seq<string>)
    ensures |r| == 2 && r[0] == BUILD_PATTERN
    ensures WEST_APIS_PATTERN in r <==> !westFound
    ensures WEST_NOT_FOUND_PATTERN in r <==> westFound
  {
    [BUILD_PATTERN, if westFound then WEST_NOT_FOUND_PATTERN else WEST_APIS_PATTERN]
  }

  /** The list built by appending to `['_build']`. */
  method ExcludePatterns(westFound: bool) returns (excludePatterns: seq<string>)
    ensures excludePatterns == ExcludedPatterns(westFound)
  {
    excludePatterns := [BUILD_PATTERN];
    if !westFound {
      excludePatterns := excludePatterns + [WEST_APIS_PATTERN];
    } else {
      excludePatterns := excludePatterns + [WEST_NOT_FOUND_PATTERN];
    }
  }

  /** The title prefix shared by both kinds of build. */
  const TITLE_PREFIX: string := "Docs / "

  /** `docs_title`: the version for a release build, "Latest" otherwise. */
  function DocsTitle(isRelease: bool, version: string): (r: string)
    ensures StartsWith(r, TITLE_PREFIX)
    ensures r[|TITLE_PREFIX|..] == if isRelease then version else "Latest"
  {
    TITLE_PREFIX + if isRelease then version else "Latest"
  }

  /** Release titles name their version: two release builds share a title exactly when they share a version. */
  lemma ReleaseTitleDeterminesVersion(v1: string, v2: string)
    ensures DocsTitle(true, v1) == DocsTitle(true, v2) <==> v1 == v2
  {
    if DocsTitle(true, v1) == DocsTitle(true, v2) {
      assert DocsTitle(true, v1)[|TITLE_PREFIX|..] == DocsTitle(true, v2)[|TITLE_PREFIX|..];
    }
  }

  /** A release build of a dotted version never shows the development title. */
  lemma DottedReleaseIsNotLatest(version: string)
    requires '.' in version
    ensures DocsTitle(true, version) != DocsTitle(false, version)
  {
    assert DocsTitle(false, version)[|TITLE_PREFIX|..] == "Latest";
    assert '.' !in "Latest";
  }

  /** `is_release` and `docs_title`, chosen by the "release" build tag. */
  method ReleaseTitle(tags: set<string>, version: string) returns (isRelease: bool, docsTitle: string)
    ensures isRelease <==> RELEASE_TAG in tags
    ensures docsTitle == DocsTitle(isRelease, version)
  {
    if RELEASE_TAG in tags {
      isRelease := true;
      docsTitle := "Docs / " + version;
    } else {
      isRelease := false;
      docsTitle := "Docs / Latest";
    }
  }

  /** The settings this configuration file ends with. */
  datatype LpnbSettings = LpnbSettings(
    version: string,
    release: string,
    extensions: seq<string>,
    excludePatterns: seq<string>,
    isRelease: bool,
    docsTitle: string)

  /** The settings, or the message `sys.exit` ended the build with. */
  datatype LpnbConfiguration = LpnbConfigured(settings: LpnbSettings) | LpnbExited(message: string)

  /**
   * Everything after the environment checks: the extensions, the version
   * (or the exit when it cannot be read), the excluded patterns and the title.
   */
  method ConfigureSettings(westFound: bool, tags: set<string>, versionFile: Option<seq<string>>)
    returns (r: LpnbConfiguration)
    ensures FileVersion(versionFile, VERSION_ABORT).Exit? <==> r == LpnbExited(VERSION_ABORT)
    ensures r.LpnbConfigured? <==> FileVersion(versionFile, VERSION_ABORT).Built?
    ensures r.LpnbConfigured? ==> FileVersion(versionFile, VERSION_ABORT)
                                  == Built(r.settings.version, r.settings.release)
    ensures r.LpnbConfigured? ==> r.settings.extensions
                                  == if SVGCONVERT_TAG in tags then EXTENSIONS + [SVG_CONVERTER] else EXTENSIONS
    ensures r.LpnbConfigured? ==> r.settings.excludePatterns
                                  == ExcludedPatterns(westFound)
    ensures r.LpnbConfigured? ==> (r.settings.isRelease <==> RELEASE_TAG in tags)
    ensures r.LpnbConfigured? ==> r.settings.docsTitle == DocsTitle(RELEASE_TAG in tags, r.settings.version)
  {
    var extensions := Extensions(tags);
    var outcome := ReadVersion(versionFile, VERSION_ABORT);
    if outcome.Exit? {
      return LpnbExited(outcome.message);
    }
    var excludePatterns := ExcludePatterns(westFound);
    var isRelease, docsTitle := ReleaseTitle(tags, outcome.version);
    return LpnbConfigured(LpnbSettings(outcome.version, outcome.release, extensions, excludePatterns, isRelease, docsTitle));
  }

  /**
   * Evaluating the configuration file: `env` is the process environment,
   * `westFound` whether the west package can be imported, `tags` the Sphinx
   * build tags and `versionFile` the content of $LPNB_BASE/VERSION (`None`
   * when it cannot be opened).  A missing variable ends the build before
   * anything else is read.
   */
  method Configure(env: map<string, string>, westFound: bool, tags: set<string>, versionFile: Option<seq<string>>)
    returns (r: LpnbConfiguration)
    ensures EnvironmentFailure(env).Some? ==> r == LpnbExited(EnvironmentFailure(env).value)
    ensures r.LpnbConfigured? ==> EnvironmentFailure(env).None?
    ensures EnvironmentFailure(env).None? ==> r.LpnbExited? ==> r == LpnbExited(VERSION_ABORT)
    ensures EnvironmentFailure(env).None? ==> (r.LpnbConfigured? <==> FileVersion(versionFile, VERSION_ABORT).Built?)
  {
    var failure := CheckEnvironment(env);
    if failure.Some? {
      return LpnbExited(failure.value);
    }
    r := ConfigureSettings(westFound, tags, versionFile);
  }
}
