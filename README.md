# flash-b2g build selection, in Dafny

flash-b2g shallow-flashes Gecko and Gaia onto a Firefox OS phone. The user
names a device, a channel, and optionally a date and an engineering build.
From that the script derives four things:

- an anchored, case-insensitive pattern that picks the build directory on
  Mozilla's nightly FTP server;
- the first matching directory and, inside it, the first `android-arm.tar.gz`
  package;
- the two local file names the downloads are saved under;
- the command lines handed to the flashing and profile backup scripts and,
  for development mode, the `settings.json` update and the `prefs.js` shell
  script.

This project models that build-selection core of `index.js` and proves what
it does.

| module | file | what it models |
|---|---|---|
| `Wrappers` | wrappers.dfy | `Option` and `Result` |
| `Strings` | strings.dfy | `Array.prototype.join`, splitting at one character (standing for the shell's word splitting), `\d`/`\w`, ASCII `toLowerCase`, non-global `replace`, `path.join` |
| `Regex` | regex.dfy | the regular-expression fragment the directory pattern is written in: literals, `.`, `.*`, anchored `^…$`, the `i` flag |
| `Sanitizer` | sanitizer.dfy | `replace(/[^\w_-]+/gi, '_')` |
| `Selector` | selector.dfy | argument normalisation (device, channel, date) |
| `Resolver` | resolver.dfy | `dateBit`, `channelBit`, `pathBits`, `nameBits`, the pattern, `safeNameBits`, the local paths |
| `Locator` | locator.dfy | `findTargetFolder`, `findB2gFile`, and the `ftpPath` cursor of `download` |
| `Settings` | settings.dfy | the `for … in` merge of the developer settings into `settings.json` |
| `Commands` | commands.dfy | `argsSpace` and the flash, backup and restore command lines |
| `Prefs` | prefs.dfy | the `user_pref` lines, `JSON.stringify` of keys and values, and the `adb shell "…"` quoting |

Each operation is paired with something it is checked against:

- The pattern is compiled by `Regex.Compile` and applied by `Regex.Matches`.
  `Resolver.PatternMeaning` proves the pattern accepts exactly the directory
  names that `Resolver.Fits` describes. `Fits` says this without regular
  expressions: the name starts with the date, ends with the channel or its
  version token, the device and `eng`, and the middle holds no line break.
- `Resolver.Resolve` follows the source step by step: the channel bit is
  rewritten in place and the bit lists are grown with `push`. It is proved
  equal to the specification functions.
- `Settings.ApplyOverrides` is the assignment loop. It is proved equal to
  `MergeAll`, whose lookups, key order, idempotence and map view are lemmas.
- `Locator.Locate` keeps the `ftpPath` cursor of the source. Its result is
  tied to the first-match functions, and their first-match guarantees are
  proved.
- The command lines are read back into words: `Strings.Fields` splits a
  line at its spaces, which is how `/bin/sh` splits it when the paths hold
  no shell-special character, and `Prefs.DoubleQuoted` reads a double-quoted
  shell word.

Lemmas grouped under a "Proof helpers" heading in a file only regroup
string concatenations for the solver; they model nothing and have no row
below.

## Where the code differs from what its usage text suggests

- **Local file names.** A numbered channel is written into the pattern as
  `.*v` and the version (index.js:140-142). The same bit goes into the file
  name, where the sanitiser (index.js:154) turns `.*` into `_`. So `flame 1.4`
  downloads to `gaia-flame-_v1_4-latest.zip` and
  `b2g-flame-_v1_4-latest.tar.gz`, not to `gaia-flame-1.4-latest.zip`. The
  model follows the code (`Resolver.FlameVersionFiles`).
- **Version token.** Only the first `.` of the channel becomes `_`, because
  `/\./` has no `g` flag. `2.0.1` gives `.*v2_0.1`, not `v2_0_1`. The model
  follows the code (`Strings.ReplaceFirst`).

## Model

| member | source | states |
|---|---|---|
| Selector.NormalizeChannel | index.js:84-86 | the result is never all digits and starts with the typed channel; it differs from the channel exactly when the channel is all digits, and then the added text is `.0`; at most two characters are added |
| Selector.NormalizeChannelIdempotent | index.js:84-86 | normalising twice is normalising once |
| Selector.Normalize | index.js:75-94 | a device positional the parser read as a non-zero number makes `toLowerCase` throw; otherwise help is shown exactly when asked for or when no device is given without `--only-remotify`, and `Invalid date` is thrown exactly when a date other than `latest` does not parse; otherwise the device is lower-cased, the channel (a falsy positional such as `0` falls back to `--channel`, a number is taken as `String` renders it) normalised, the date rendered or `None`, and `eng` kept |
| Strings.ToLower | index.js:75 | lower-casing keeps the length, leaves no upper-case ASCII letter, keeps every other character, and moves each upper-case letter down by 32 |
| Strings.ReplaceFirst | index.js:141 | only the first `.` of the channel becomes `_`; a channel without `.` is unchanged |
| Strings.JoinPath | index.js:155-156 | the joined path ends with the file name, starts with the directory, and has a `/` just before the name |
| Resolver.Resolve | index.js:138-156 | the step-by-step construction with in-place `push` yields the specified pattern and the two specified local paths, and the two paths differ |
| Resolver.LocalPathsDiffer | index.js:155-156 | the gaia and b2g local paths never coincide |
| Resolver.BodyShape | index.js:143-150 | the joined path bits are the date and `-`, then `.*`, then (for a numbered channel) `-.*`, then the literal tail of channel or version token, device and `eng` |
| Resolver.CompilePattern | index.js:150 | for a selector whose strings hold no regex syntax, the pattern lies in the modelled fragment and compiles to the head/`.*`/tail shape |
| Resolver.PatternMeaning | index.js:138-150 | the compiled pattern accepts a directory name if and only if the name fits the selector: date prefix, channel or version and device suffix, compared ignoring ASCII case, with no line break between and, for a numbered channel, a `-` between |
| Resolver.FlameVersionPattern | index.js:138-150 | `flame 1.4` looks for `^latest-.*-.*v1_4-flame$`, with no literal `1.4` |
| Resolver.VersionOneFour | index.js:140-141 | channel `1.4` has a digit and its version token is `.*v1_4` |
| Resolver.SafeNameNamedChannel | index.js:144-154 | a named channel, device and date made of allowed characters reach the file name stem unchanged |
| Resolver.SafeNameNumberedChannel | index.js:144-154 | for a numbered channel whose device, date and version token hold only `[A-Za-z0-9_-]`, the stem is device, `-_v`, the version token, `-eng` when asked for, `-` and the date: the `.*` becomes one `_` |
| Resolver.FlameVersionFiles | index.js:138-156 | `flame 1.4` downloads to `dir/gaia-flame-_v1_4-latest.zip` and `dir/b2g-flame-_v1_4-latest.tar.gz` |
| Resolver.FlameVersionName | index.js:144-154 | the file name stem of `flame 1.4` is `flame-_v1_4-latest` |
| Resolver.JoinDashes | index.js:143-150 | the four path bits and the optional `eng` joined with `-` read date, `-`, wildcard, `-`, channel bit, `-`, device, `-eng` |
| Resolver.JoinNameDashes | index.js:144-149 | the name bits joined with `-` read device, `-`, channel bit, `-eng` when asked for, `-`, date |
| Regex.MatchesSeg | index.js:150 | literal characters and `.` each take exactly one character of the name, compared ignoring ASCII case, `.` refusing line terminators |
| Regex.MatchesRun | index.js:150 | `.*` followed by the rest accepts a name exactly when some prefix free of line terminators is followed by what the rest accepts |
| Regex.MatchesRunSeg | index.js:150 | `.*` and a literal tail accept a name exactly when the name ends in a stretch the tail fits, after a prefix free of line terminators |
| Regex.MatchesRunDashRunSeg | index.js:150 | `.*-.*` and a literal tail accept a name exactly when the name ends in a stretch the tail fits and what comes before holds a `-` and no line terminator |
| Regex.MatchesShape | index.js:150 | a head, `.*` (or `.*-.*`) and a tail accept exactly the names that `ShapeFits` describes |
| Regex.CompileShape | index.js:150 | the text head `.*` (`-.*`) tail compiles to the corresponding pieces |
| Regex.CompilePlain | index.js:150 | a segment with no regex syntax compiles character by character |
| Sanitizer.Sanitize | index.js:154 | the result holds only ASCII letters, digits, `_` and `-`, and is never longer than the input |
| Sanitizer.SanitizeClean | index.js:154 | a string of allowed characters is left unchanged |
| Sanitizer.SanitizeIdempotent | index.js:154 | sanitising twice is sanitising once |
| Sanitizer.SanitizeMaximalRun | index.js:154 | a maximal run of replaced characters between two stretches becomes exactly one `_`, and the stretches are sanitised on their own |
| Sanitizer.SanitizeSplit | index.js:154 | sanitising distributes over a split that does not cut a run of replaced characters |
| Sanitizer.SanitizeRun | index.js:154 | a non-empty run of replaced characters alone becomes `_` |
| Sanitizer.SanitizeKeepsLetters | index.js:154 | the allowed characters other than `_` survive in order; nothing else is added or kept |
| Sanitizer.SquashConcat | index.js:154 | the global replacement scans left to right: the scan of `a + b` is the scan of `a`, then the scan of `b` continued in the state `a` left |
| Locator.Filter | index.js:251-253 | `filter` keeps exactly the entries the predicate accepts, no more entries than listed |
| Locator.FilterCount | index.js:251-253 | `filter` keeps each accepted entry as often as it is listed, and no refused entry |
| Locator.FilterConcat | index.js:251-253 | `filter` keeps listing order: filtering a listing split in two gives the filter of the front followed by the filter of the back |
| Locator.FilterHead | index.js:251-257 | the head of the filtered listing is the earliest accepted entry |
| Locator.SelectFirst | index.js:250-258 | filter-then-first gives the earliest accepted entry, with every earlier entry refused, and fails exactly when no entry is accepted |
| Locator.FindTargetFolder | index.js:250-258 | the first listed directory the pattern accepts; none exactly when the pattern accepts no entry |
| Locator.FindB2gFile | index.js:268-276 | the first listed file ending in `android-arm.tar.gz`; none exactly when no file does |
| Locator.TargetFolderFits | index.js:250-258 | for a plain selector, the directory chosen is the first listed name that fits the selector, and there is none exactly when no name fits |
| Locator.Locate | index.js:247-289 | a failed listing of the nightly directory, no matching directory (naming the listed URL), a failed listing of the chosen directory (naming its path) and no package are each reported exactly when they occur, and the result is `Ok` exactly when both listings succeed and a package is found; then the folder is the first match, gaia is fetched from `gaia.zip` beside the first b2g package, and both URLs are built on the extended `ftpPath` |
| Settings.Lookup | index.js:199 | a key is absent exactly when no member carries it, and a found value belongs to a member with that key |
| Settings.Assign | index.js:199 | after `content[key] = value` the key holds the value and every other key keeps its value |
| Settings.AssignKeys | index.js:199 | an assignment keeps every key in its place and appends the key only when it is new |
| Settings.AssignUnique | index.js:199 | an assignment never creates a duplicate key |
| Settings.ApplyOverrides | index.js:197-200 | the loop computes the merge; each override key maps to its override value and every other key keeps its original value |
| Settings.MergeLookup | index.js:197-200 | after the merge an overridden key has its override value and every other key its original value |
| Settings.MergeAsMap | index.js:197-200 | as a dictionary, the merged object is the file updated by the overrides |
| Settings.MergeKeepsOrder | index.js:197-200 | keys already in the file keep their positions, and new keys follow them |
| Settings.MergeUnique | index.js:197-200 | the merge of an object is an object: no key appears twice |
| Settings.MergeIdempotent | index.js:197-200 | merging the same settings twice equals merging once |
| Settings.DeveloperSettingsUnique | index.js:166-174 | the developer settings name each key once |
| Settings.PushSettings | index.js:196-202 | an object gets the settings merged in; an array is written back unchanged; `null` and primitives throw a TypeError |
| Settings.PushSettingsObject | index.js:196-202 | for an object file, every developer setting has its value, every other setting keeps its value and place, and keys stay unique |
| Settings.PushSettingsIdempotent | index.js:196-202 | updating an already updated file changes nothing |
| Commands.OptionText | index.js:121-123 | an option and its value written with `argsSpace` (`=` on linux, a space elsewhere) are the option words joined with a space: one word on linux, two elsewhere |
| Commands.FlashCommandWords | index.js:362-369 | with non-empty, space-free paths, the flash command splits at its spaces into the script path, `--gaia` with the gaia package, `--gecko` with the b2g package, then `-y`; on linux each option and value are one word |
| Commands.BackupCommandWords | index.js:341-345 | with non-empty, space-free paths, the backup command is the profile script, `-p` with the profile directory, then `-b` |
| Commands.RestoreCommandWords | index.js:386-391 | with non-empty, space-free paths, the restore command is the profile script, `-p` with the profile directory, then `--no-reboot` and `-r` |
| Prefs.JsonQuoteRoundTrip | index.js:215-216 | `JSON.parse(JSON.stringify(s)) == s` for every string key or value |
| Prefs.UnescapeEscaped | index.js:215-216 | the escaped text of a string reads back as the string |
| Prefs.EscapedPlain | index.js:215-216 | a string with no quote, backslash or control character is written as it is |
| Prefs.NatTextRoundTrip | index.js:216 | the decimal digits written for a number read back as the number |
| Prefs.EscapeQuotesReadBack | index.js:219-220 | for text with no backslash, `$` or backquote, the quote-escaped text between double quotes reads back as the text |
| Prefs.ScriptSafe | index.js:213-217 | with plain keys and no string values, the script holds no backslash, `$` or backquote |
| Prefs.PrefsShellReadBack | index.js:213-220 | with plain keys and no string values, the host command is `adb shell "…"` and the shell hands the device exactly the script: the `cd` into the profile, then one `echo 'user_pref(…);' >> prefs.js` per preference, joined with ` && ` |
| Prefs.DeveloperPrefsPlain | index.js:159-165 | the four developer preferences have plain keys and no string values |
| Prefs.DeveloperPrefsReadBack | index.js:158-220 | the developer preferences reach the device as the script itself |

## Left out

- FTP listing and HTTP download (index.js:233-316): the listing is the parameter `ls` of `Locator.Locate`; the streams, sockets, timeout and `Promise.all` are not modelled.
- `child_process.exec` and the `adb` calls (index.js:176-231, 333-404): the flash, backup, restore and prefs command lines are modelled; the other `adb` command strings (index.js:178, 183-186, 191, 204-208, 228-229, 335) and running any command are not.
- The orchestration promise chain (index.js:318-420), the `--local` skip and the local-file existence check: sequencing of effects only.
- yargs option parsing, `process.exit` and console output (index.js:39-82): `Selector.Normalize` starts from the parsed options with their defaults applied. Which positional words the parser reads as numbers, and how `String` renders such a number, are not modelled: each `Selector.Token` carries that rendering.
- moment date parsing and formatting (index.js:87-94, 138): the parameter `render` of `Selector.Normalize` stands for it.
- `JSON.parse` and `JSON.stringify` of the whole `settings.json` (index.js:197, 202): the file is taken already parsed, as a `Settings.Json` value.
- Temporary directories, `mkdirp`, `path.resolve` and `process.env` (index.js:105-119): the download directory is a parameter.
- `process.platform` (index.js:123): a boolean parameter `isLinux`.
- Strings.JoinPath: does not normalise `..`, `.` or repeated slashes as `path.join` does.
- Strings.ToLower: lower-cases ASCII letters only; the Unicode case mappings of `toLowerCase` are not modelled.
- Regex.Matches: case folding of the `i` flag is modelled on ASCII letters only, and regular-expression syntax beyond literals, `.` and `.*` is refused by `Regex.Compile` rather than interpreted.
- Resolver.PatternMeaning: stated for selectors whose device, channel and date hold no regex syntax other than `.`; for other selectors the pattern is outside the modelled fragment.
- Commands.FlashCommandWords: stated for non-empty paths without spaces, since the source does not quote them and a space splits a path into two arguments. The line is split at spaces only; a path holding a tab, newline, quote, backslash, `$`, backquote, one of `;&|<>()`, a glob character `*?[`, or starting with `~` or `#`, is reinterpreted by `/bin/sh` in ways the model does not follow.
- Commands.BackupCommandWords: stated for non-empty paths without spaces and split at spaces only, for the same reasons.
- Commands.RestoreCommandWords: stated for non-empty paths without spaces and split at spaces only, for the same reasons.
- Prefs.PrefsShellReadBack: stated for plain keys and non-string values. The quote replacement does not escape backslashes, so a string value holding `\"` would not survive the shell.
- Prefs.ValueText: JavaScript numbers are modelled as integers; fractional and non-finite values are not.
- Settings.Json: numbers are integers, and the special ordering JavaScript gives to integer-like object keys is not modelled.
- Settings.PushSettings: properties assigned to an array are dropped by `JSON.stringify`, so an array file is written back unchanged; that is modelled, but no other exotic JavaScript object behaviour is.
