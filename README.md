# Stepper API validation and documentation version settings, in Dafny

This project models the two pieces of logic in the lpn-bridle repository
(Li-Pro.Net bridle, a Zephyr-based board and driver collection).

**The stepper-motor API validator** is in `include/zephyr/drivers/stepper.h`.
It is modelled in `stepper.dfy` (module `Stepper`), with the bit-word facts it
needs in `bit_words.dfy` (module `BitWords`). The optional value that stands
for C's NULL and Python's `None` is shared by both halves, in `wrappers.dfy`
(module `Wrappers`).

- `stepper_on`, `stepper_off` and `stepper_move` check their arguments in a
  fixed order before they call the driver. Each check that fails maps to its
  own errno (`-ENXIO`, `-ENOTSUP`, `-EINVAL`).
- The `*_dt` wrappers reject a NULL spec.
- `stepper_motor_props` searches the motor-property array linearly.
- The mask macros `STEPPER_OP_MODE_GET`, `STEPPER_USTEP_RES_GET` and
  `STEPPER_DRIVER_CAPS_DT` pick bits out of a 32-bit flags word.

Flags are `bv32`. The driver callbacks are function values that the device
holds. The result type `Outcome` records whether the validator rejected a call
or forwarded it to the driver, so "the driver is called only when every check
passes" is a statement about results. The nine `STEPPER_USTEP_RES_*` constants
are defined in a devicetree-bindings header that is not part of this model.
They are a parameter. `ValidConstants` states what the header relies on:
each constant is a single bit, and no two are equal.

**The Sphinx configuration files** of the documentation are `doc/bridle`,
`doc/bridle-test-spec`, `doc/kconfig` and `doc/lpnb`. Each repeats the same
scan of the `VERSION` file.

- `version_file.dfy` (module `VersionFile`) models that scan once:
  - Python's `str.strip`, `str.split(sep, maxsplit)` and `str.join`;
  - the loop that updates four variables, with its `break`, and the
    exception that ends it;
  - the `finally` clause, which builds `version`/`release` or calls
    `sys.exit`.
- `sphinx_conf.dfy` (module `SphinxConf`) holds the settings derived from the
  version: `notfound_urls_prefix`, the SVG-converter extension,
  `intersphinx_mapping` and `os.path.join`. It also holds the `update_config`
  hook, as a class whose `config` map the hook updates in place.
- One module per configuration file instantiates these with its own exit
  message, URL segment, extension list and intersphinx names:
  `bridle_conf.dfy`, `bridle_test_spec_conf.dfy`, `kconfig_conf.dfy` and
  `lpnb_conf.dfy`. `lpnb_conf.dfy` adds the ten environment checks,
  `exclude_patterns` and `docs_title`.

The scan is specified twice. `ScanFile` is a function over the file's lines.
`ScanLines` is the loop as written, and it is proved equal to `ScanFile`. The
lemmas about the scan are stated on `Scan`, over the lines already split into
key and value.

## Model

| member | source | states |
|---|---|---|
| BitWords.DistinctPowersDisjoint | include/zephyr/drivers/stepper.h:621-624 | two different single-bit words share no bit |
| BitWords.WithinOrAll | include/zephyr/drivers/stepper.h:203-218 | each word of a list lies within the OR of the list |
| BitWords.MeetsSomeWord | include/zephyr/drivers/stepper.h:611-618 | a word that shares a bit with the OR of a list shares a bit with some word of the list |
| BitWords.SingleBitMeetsMaskedPart | include/zephyr/drivers/stepper.h:611-624 | for a word within a mask, being non-zero, meeting the masked capabilities and being a single bit is the same as being a single bit that meets the capabilities |
| BitWords.MeetsWithinMask | include/zephyr/drivers/stepper.h:616-618 | for a word inside a mask, sharing a bit with `c & mask` is the same as sharing a bit with `c` |
| Stepper.ActionTypeBit | include/zephyr/drivers/stepper.h:122-132 | each action type is a single bit, and that bit is one of the four operation-mode bits |
| Stepper.ReturnValue | include/zephyr/drivers/stepper.h:479-495 | a rejection returns the negated value of its own errno, which is negative; a forwarded call returns the driver's result unchanged |
| Stepper.MotorInRange | include/zephyr/drivers/stepper.h:489 | with `n_motors - 1` computed in `size_t`, a motor passes exactly when it is below `n_motors` or `n_motors` is 0 |
| Stepper.StepperOn | include/zephyr/drivers/stepper.h:479-495 | forwards to the driver's `on` exactly when the motor is in range, and returns the driver's result; otherwise -ENXIO |
| Stepper.StepperOff | include/zephyr/drivers/stepper.h:528-544 | forwards to the driver's `off` exactly when the motor is in range, and returns the driver's result; otherwise -ENXIO |
| Stepper.StepperMove | include/zephyr/drivers/stepper.h:589-650 | an invalid motor gives -ENXIO first; then an unsupported mode gives -ENOTSUP; then a failed microstep or speed check gives -EINVAL; a forwarded call returns the driver's `move` result |
| Stepper.StepperOnDt | include/zephyr/drivers/stepper.h:504-511 | a NULL spec gives -EINVAL; otherwise the result is `stepper_on` on the spec's driver and motor |
| Stepper.StepperOffDt | include/zephyr/drivers/stepper.h:553-560 | a NULL spec gives -EINVAL; otherwise the result is `stepper_off` on the spec's driver and motor |
| Stepper.StepperMoveDt | include/zephyr/drivers/stepper.h:662-670 | a NULL spec gives -EINVAL; otherwise the result is `stepper_move` on the spec's driver and motor |
| Stepper.StopAction | include/zephyr/drivers/stepper.h:187-195 | the stop action is a velocity action with velocity 0, duration 0 and full-step resolution |
| Stepper.DriverCapsDt | include/zephyr/drivers/stepper.h:345-363 | the capability word is the flags restricted to the union of the mode mask and the resolution mask; the speed is kept |
| Stepper.MotorProps | include/zephyr/drivers/stepper.h:448-462 | returns the first of the first `n_motors` entries whose index is `motor`; NULL when none of them has that index |
| Stepper.UstepResMask | include/zephyr/drivers/stepper.h:211-215 | every one of the nine resolution constants lies within the resolution mask |
| Stepper.OpModeGet | include/zephyr/drivers/stepper.h:203-209 | the mode accessor keeps the four mode bits of the flags and has no bit outside them |
| Stepper.UstepResGet | include/zephyr/drivers/stepper.h:211-218 | the resolution accessor has no bit outside the resolution mask |
| Stepper.UstepResGetKeepsEachResolution | include/zephyr/drivers/stepper.h:211-218 | the resolution accessor holds each of the nine resolutions exactly when the flags do |
| Stepper.ModeSupported | include/zephyr/drivers/stepper.h:606-609 | the mode check passes exactly when the driver's flags hold the action's type bit |
| Stepper.ResolutionAccepted | include/zephyr/drivers/stepper.h:611-624 | the three microstep checks pass exactly when the resolution bits of the action are a single bit that the driver's flags also hold |
| Stepper.RejectionsAreDistinguishable | include/zephyr/drivers/stepper.h:577-583 | two rejections return the same value exactly when they have the same errno |
| Stepper.CapsDtKeepsModes | include/zephyr/drivers/stepper.h:345-363 | the capability word has the same operation modes as the flags |
| Stepper.CapsDtKeepsResolutions | include/zephyr/drivers/stepper.h:345-363 | the capability word has the same microstep resolutions as the flags |
| Stepper.CapsDtHasNoOtherBits | include/zephyr/drivers/stepper.h:345-363 | the capability word has no bit outside the two masks |
| Stepper.CapsDtKeepsAcceleration | include/zephyr/drivers/stepper.h:345-363 | the acceleration bit is kept as given, although the macro's comment says it is filtered out |
| Stepper.ZeroMotorsAcceptsEveryMotor | include/zephyr/drivers/stepper.h:489-494 | with zero motors, `on` and `off` forward every motor number to the driver |
| Stepper.SingleResolutionIsConstant | include/zephyr/drivers/stepper.h:621-624 | a non-zero, single-bit resolution field equals one of the nine constants |
| Stepper.AcceptedResolutionIsSupportedConstant | include/zephyr/drivers/stepper.h:611-624 | passing the three microstep checks selects one constant, and the driver supports it |
| Stepper.SupportedConstantIsAccepted | include/zephyr/drivers/stepper.h:611-624 | selecting one supported constant passes the three microstep checks |
| Stepper.SelectedResolutionIsUnique | include/zephyr/drivers/stepper.h:621-624 | when the resolution field is one constant, no other constant is set in the flags |
| Stepper.MoveForwardsWhenAllChecksPass | include/zephyr/drivers/stepper.h:601-649 | an action that passes every check is handed to the driver's `move` |
| Stepper.ForwardedMovePassedAllChecks | include/zephyr/drivers/stepper.h:601-649 | an action that reaches the driver passed every check |
| Stepper.ForwardedMoveIsAdmissible | include/zephyr/drivers/stepper.h:601-649 | a forwarded action targets a valid motor and uses an advertised mode; it selects exactly one resolution, which the driver supports; it respects the speed limit of its kind |
| Stepper.StopReachesDriver | include/zephyr/drivers/stepper.h:187-195 | the stop action reaches the driver when the motor is valid and the driver advertises velocity mode and full steps |
| Stepper.StopRejectedWithoutFullStep | include/zephyr/drivers/stepper.h:611-619 | a driver without full-step resolution rejects the stop action with -EINVAL |
| Stepper.FullStepUnsupported | include/zephyr/drivers/stepper.h:616-619 | full-step flags fail the microstep checks of a driver that does not list full steps |
| Stepper.PropsIndependentOfRange | include/zephyr/drivers/stepper.h:448-462 | the property lookup and the range check can disagree in both directions |
| VersionFile.StripLeft | doc/bridle/conf.py:53 | `lstrip` removes exactly the leading whitespace: the result is a suffix, what it drops is whitespace, and the result does not start with whitespace |
| VersionFile.StripRight | doc/bridle/conf.py:53 | `rstrip` removes exactly the trailing whitespace: the result is a prefix, what it drops is whitespace, and the result does not end with whitespace |
| VersionFile.Strip | doc/bridle/conf.py:53 | `strip` leaves a part of the line with only whitespace around it, and that part neither starts nor ends with whitespace |
| VersionFile.StripOfPadded | doc/bridle/conf.py:53 | a word without whitespace at either end, padded with whitespace, strips back to itself |
| VersionFile.StripIdempotent | doc/bridle/conf.py:53 | stripping twice is stripping once |
| VersionFile.IndexOf | doc/bridle/conf.py:53 | finds the first occurrence of the separator, or reports that there is none |
| VersionFile.Split | doc/bridle/conf.py:53 | `split` always yields at least one part |
| VersionFile.SplitPartsAreSeparatorFree | doc/bridle/conf.py:53 | `split` cuts at the leftmost separators: no part but the last holds one |
| VersionFile.JoinSplit | doc/bridle/conf.py:53 | joining the parts of a split with the separator gives back the line |
| VersionFile.SplitCount | doc/bridle/conf.py:53 | a split yields one part more than the smaller of the separator count and `maxsplit` |
| VersionFile.SplitJoin | doc/bridle/conf.py:53 | splitting the join of at most `maxsplit + 1` separator-free parts gives back the parts |
| VersionFile.KeyValue | doc/bridle/conf.py:53 | unpacking into `key, val` succeeds exactly when the line holds one '='; key and value then have no whitespace at either end |
| VersionFile.KeyValueOfAssignment | doc/bridle/conf.py:53 | a `key=value` line yields the stripped key and the stripped value |
| VersionFile.BlankLineHasNoKey | doc/bridle/conf.py:53 | a blank line raises, so it yields no key |
| VersionFile.Record | doc/bridle/conf.py:54-61 | the variable the key names takes the value, and each of the other three keeps its value |
| VersionFile.RecordSetsOnlyItsField | doc/bridle/conf.py:54-61 | a line sets the variable its key names and leaves the other three alone |
| VersionFile.Parse | doc/bridle/conf.py:52-53 | each line is split into key and value on its own, in order |
| VersionFile.ParseAppend | doc/bridle/conf.py:52-53 | parsing a concatenation of lines gives the concatenation of the parses |
| VersionFile.ScanLines | doc/bridle/conf.py:47-65 | the loop with its `break`s and the swallowed exception computes `ScanFile` of the file's lines |
| VersionFile.MalformedLineEndsScan | doc/bridle/conf.py:52-65 | a line that raises ends the scan; the values gathered before it are the result |
| VersionFile.MalformedLineEndsFileScan | doc/bridle/conf.py:52-65 | nothing after a line without exactly one '=' is read |
| VersionFile.CompleteScanIgnoresLaterLines | doc/bridle/conf.py:62-63 | once all four values are non-empty the scan stops, so later lines change nothing |
| VersionFile.ScanReadsToEndAndLastWriteWins | doc/bridle/conf.py:52-63 | with well-formed lines and an empty EXTRAVERSION, the scan reads to the end and each value is the one on the last line with its key |
| VersionFile.Finish | doc/bridle/conf.py:66-72 | a version is built exactly when major, minor and patchlevel are non-empty and EXTRAVERSION was seen; otherwise the build exits with the file's message; release equals version |
| VersionFile.FinishVersion | doc/bridle/conf.py:67-70 | the version is major.minor.patchlevel, followed by '-' and the extraversion exactly when the extraversion is non-empty |
| VersionFile.DottedSplitsBack | doc/bridle/conf.py:68 | for components without a dot, the dotted version splits back into the three components |
| VersionFile.FileVersion | doc/bridle/conf.py:47-72 | a VERSION file that cannot be opened ends the build with the file's message |
| VersionFile.ReadVersion | doc/bridle/conf.py:47-72 | the imperative try/except/finally computes `FileVersion` |
| VersionFile.NoExtraversionExits | doc/bridle/conf.py:67-72 | a file without an EXTRAVERSION line makes the build exit, whatever else it holds |
| VersionFile.NoExtraversionKeepsUnset | doc/bridle/conf.py:48-61 | without an EXTRAVERSION line, `extraversion` stays `None` through the scan |
| SphinxConf.NotfoundUrlsPrefix | doc/bridle/conf.py:282-284 | the prefix is "/doc/", then "latest" for a version ending in "99" or else the version, then "/segment/" |
| SphinxConf.NotfoundPrefixDeterminesDirectory | doc/bridle/conf.py:282-284 | two versions get the same prefix exactly when they map to the same directory |
| SphinxConf.ReleasedVersionHasOwnPrefix | doc/bridle/conf.py:282-284 | a dotted version that is not a development version shares its prefix with no other version |
| SphinxConf.DevelopmentVersionsShareLatest | doc/bridle/conf.py:282-284 | every development version gets "/doc/latest/segment/" |
| SphinxConf.PathJoin | doc/bridle-test-spec/conf.py:305-307 | `os.path.join` keeps an absolute second part as it is; otherwise the result starts with the first part and ends with the second, with one '/' between them exactly when the first part is non-empty and does not end with '/' |
| SphinxConf.DocFilePathIsSlashSeparated | doc/bridle-test-spec/conf.py:305-307 | for a base without a trailing '/', the inventory filter path is base/doc/document/file |
| SphinxConf.UpdatedConfig | doc/bridle-test-spec/conf.py:300-311 | for the inventory builder an existing `warnings_filter_config` is replaced; no other value changes and no key is added or removed |
| SphinxConf.UpdatedConfigIdempotent | doc/bridle-test-spec/conf.py:308-311 | running the hook twice gives the same configuration as running it once |
| SphinxConf.SphinxApp.constructor | doc/bridle-test-spec/conf.py:308-311 | the application object holds the builder name and the configuration values |
| SphinxConf.SphinxApp.UpdateInventoryWarningsFilterConfig | doc/bridle-test-spec/conf.py:300-306 | `warnings_filter_config` takes the inventory path when it is present; otherwise nothing changes |
| SphinxConf.SphinxApp.UpdateConfig | doc/bridle-test-spec/conf.py:308-311 | the new configuration is `UpdatedConfig` of the old one; the builder name is unchanged |
| BridleConf.Extensions | doc/bridle/conf.py:82-115 | the listed extensions, with the SVG converter appended at the end exactly when the svgconvert tag is set |
| BridleConf.IntersphinxMapping | doc/bridle/conf.py:203-215 | the mapping holds exactly those of zephyr, kconfig and devicetree whose lookup is truthy, each bound to its lookup |
| BridleConf.Configure | doc/bridle/conf.py:47-72 | the build is configured exactly when the scan succeeds, and exits with "Could not extract Bridle version." exactly when it fails, so no other outcome is possible; when configured, version, release, extensions, intersphinx and notfound prefix are as above |
| BridleTestSpecConf.Extensions | doc/bridle-test-spec/conf.py:94-126 | the listed extensions, with the SVG converter appended at the end exactly when the svgconvert tag is set |
| BridleTestSpecConf.IntersphinxMapping | doc/bridle-test-spec/conf.py:210-214 | the mapping has a bridle-test-rqt entry exactly when its lookup is truthy, and no other key |
| BridleTestSpecConf.Configure | doc/bridle-test-spec/conf.py:49-74 | the build is configured exactly when the scan succeeds, and exits with "Could not extract Bridle version." exactly when it fails, so no other outcome is possible; when configured, the settings are as above with the "bridle" prefix |
| BridleTestSpecConf.InventoryWarningsFilter | doc/bridle-test-spec/conf.py:304-306 | the inventory filter path ends with known-warnings-inventory.txt, and for a base without a trailing '/' it is BRIDLE_BASE/doc/bridle-test-spec/known-warnings-inventory.txt |
| BridleTestSpecConf.UpdateConfig | doc/bridle-test-spec/conf.py:300-311 | the hook replaces `warnings_filter_config` with BRIDLE_BASE/doc/bridle-test-spec/known-warnings-inventory.txt for the inventory builder only |
| KconfigConf.Extensions | doc/kconfig/conf.py:87-104 | the listed extensions, with the SVG converter appended at the end exactly when the svgconvert tag is set |
| KconfigConf.IntersphinxMapping | doc/kconfig/conf.py:183-191 | the mapping holds exactly those of zephyr and bridle whose lookup is truthy |
| KconfigConf.Configure | doc/kconfig/conf.py:44-69 | the build is configured exactly when the scan succeeds, and exits with "Could not extract Bridle version." exactly when it fails, so no other outcome is possible; when configured, the settings are as above with the "kconfig" prefix |
| KconfigConf.InventoryWarningsFilter | doc/kconfig/conf.py:232-234 | the inventory filter path ends with known-warnings-inventory.txt, and for a base without a trailing '/' it is BRIDLE_BASE/doc/kconfig/known-warnings-inventory.txt |
| KconfigConf.UpdateConfig | doc/kconfig/conf.py:228-239 | the hook replaces `warnings_filter_config` with BRIDLE_BASE/doc/kconfig/known-warnings-inventory.txt for the inventory builder only |
| LpnbConf.EnvironmentFailure | doc/lpnb/conf.py:22-61 | no exit message exactly when all ten variables are set; otherwise the message names the first variable that is not set |
| LpnbConf.FirstMissing | doc/lpnb/conf.py:22-61 | finds the first variable that is not set, with every one before it set; `None` exactly when all are set |
| LpnbConf.FailsAt | doc/lpnb/conf.py:22-61 | when every check before one passes and that one fails, its message is the exit message |
| LpnbConf.CheckEnvironment | doc/lpnb/conf.py:22-61 | the ten checks in order: the first unset variable ends the build with "$NAME environment variable undefined." |
| LpnbConf.EnvironmentAcceptedIffAllSet | doc/lpnb/conf.py:22-61 | the checks pass exactly when all ten variables are set |
| LpnbConf.MoreVariablesStillAccepted | doc/lpnb/conf.py:22-61 | adding variables to an accepted environment keeps it accepted |
| LpnbConf.Extensions | doc/lpnb/conf.py:88-110 | the listed extensions, with the SVG converter appended at the end exactly when the svgconvert tag is set |
| LpnbConf.ExcludedPatterns | doc/lpnb/conf.py:177-181 | "_build" and one more pattern: the west-apis pattern exactly when west is missing, the west-not-found pattern exactly when it is found |
| LpnbConf.ExcludePatterns | doc/lpnb/conf.py:177-181 | appending to `['_build']` yields `ExcludedPatterns` |
| LpnbConf.DocsTitle | doc/lpnb/conf.py:247-252 | the title is "Docs / " followed by the version for a release, and by "Latest" otherwise |
| LpnbConf.ReleaseTitleDeterminesVersion | doc/lpnb/conf.py:247-249 | two release titles are equal exactly when their versions are |
| LpnbConf.DottedReleaseIsNotLatest | doc/lpnb/conf.py:247-252 | a release build of a dotted version never shows the development title |
| LpnbConf.ReleaseTitle | doc/lpnb/conf.py:247-252 | `is_release` holds exactly when the release tag is set, and `docs_title` is `DocsTitle` of it |
| LpnbConf.ConfigureSettings | doc/lpnb/conf.py:88-252 | exits with "Could not extract LPNB version." exactly when the scan fails; otherwise version, extensions, patterns and title are as above |
| LpnbConf.Configure | doc/lpnb/conf.py:22-252 | a missing variable ends the build with its message before the VERSION file is read; with all variables set, the build is configured exactly when the scan succeeds |

## Left out

- The syscall marshalling (`__syscall`, `z_vrfy_*`) is not modelled. The driver callbacks `on`, `off` and `move` are opaque functions, and their results are passed through.
- The `__ASSERT_NO_MSG` checks of the stepper API are not behaviour. The model takes a non-null API, callback and configuration as given.
- The devicetree macros `STEPPER_MOTOR_DT_NODE*`, `STEPPER_MOTOR_PROPS_DT_INST_DEFINE` and `STEPPER_DRIVER_CONFIG_DT_INST_DEFINE` are left out. They expand at compile time over devicetree data.
- The blocking and duration behaviour of `move` is left out. It belongs to the driver, not to the validator.
- Stepper.StepperMove: speeds are mathematical integers, so `labs(INT32_MIN)`, which is undefined in C, is taken to be 2^31.
- Stepper.StepperMove: an action's type is one of the four enumerators, because the type and the union member it selects are one constructor. In C, `action->type` can hold any value. Type 0 fails the mode check with -ENOTSUP. A combined type such as POSITIONING|VELOCITY passes the mode check whenever the driver has either mode, and then equals none of the enumerators tested at stepper.h:626-647. So it reaches `move` without any speed check. The model does not represent such values.
- Stepper.MotorProps: the model requires `n_motors` to be at most the length of the property array. The source loop at stepper.h:454-455 reads `motor_props[i]` for every `i < n_motors` without that check, so a larger `n_motors` reads past the array.
- A NULL action pointer is left out. In the model an action always exists.
- The errno values (ENXIO 6, EINVAL 22, ENOTSUP 134) come from the C library headers, which are not part of this model.
- The values of `STEPPER_USTEP_RES_*` come from `zephyr/dt-bindings/stepper/stepper.h`, which is not part of this model. They are a parameter constrained by `ValidConstants`.
- `stepper_motor_props` returns a position in the array instead of a pointer.
- Reading the VERSION file is left out: opening it, decoding it and splitting it into lines. The file is given as its lines, or `None` when it cannot be opened. Any exception other than the failed unpacking (a decoding error, say) is not modelled.
- `os.path.abspath`, `os.path.relpath`, `sys.path` edits, `import west` and the `utils.*` helpers are foreign calls. Whether `west` imports, and what a lookup returns, are parameters.
- The `intersphinx_mapping` of doc/lpnb/conf.py is left out. It is built from `os.path.relpath` of the environment values.
- LpnbConf.CheckEnvironment: the values of the variables are not inspected, because the file only turns them into absolute paths.
- LpnbConf.Configure: the `print` before the `DTS_BINDINGS_OUTPUT` exit is output only, so it is left out.
- Logging calls, `app.connect`, `app.add_css_file`/`add_js_file`, the Pygments lexer registration and the `setup` functions are left out.
- The constant option tables (theme, HTML, LaTeX, linkcheck, graphviz, breathe, doxyrunner) are plain assignments without logic.
- SphinxConf.SphinxApp: `app.config` is a map from names to string values, and "present in the configuration" is a key in that map. The log call at the end of `update_config` (doc/bridle-test-spec/conf.py:313-315, doc/kconfig/conf.py:241-243) reads `app.config.warnings_filter_config` whatever the builder. So under Sphinx a configuration without that key makes the hook fail with an attribute error. In the model the hook changes nothing then, because the log call is left out.
- doc/devicetree/conf.py, doc/zephyr/conf.py and the board C files under boards/ are not part of this model. They hold constant assignments, foreign calls, or driver calls that return the driver's error.
