# Excelsior JET Maven plugin: a verified model of its core

This project models the core of the Excelsior JET Maven plugin. The plugin
drives the Excelsior JET toolchain: the `jc` compiler, the `xpack` packager
and the `xjava` launcher. From a Maven build it turns a Java application into
a native executable and packages it.

The model covers these parts of the plugin:

- **`build` goal** (`com.excelsiorjet.maven.plugin.JetMojo`). It checks the
  parameters, then checks the version-info fields: the version coercion, the
  vendor and product defaults, and the copyright. It checks the packaging and
  the EULA. It stages the main jar and the dependencies into the build
  directory. It assembles the compiler and packager command lines. It then
  packages the result: a zip whose executables carry Unix mode 0100777 in the
  external attributes (PKWARE APPNOTE.TXT section 4.4.15), the Excelsior
  Installer, or a plain directory.
- **`testrun` goal** (`TestRunMojo`). It mirrors the package files into the
  build directory and assembles the `xjava` command line, substituting
  `$(Root)`.
- **The older `build` goal** (`com.excelsior.jet.maven.plugin.JetMojo`), with
  its own `JetTool`, `Utils` and `Txt` helpers.
- **Locating a JET home** (`JetHome`): from a parameter, from the `jet.home`
  property, from `JET_HOME`, or by scanning `PATH`. It also reads the version
  marker `jet<NNNN>.home` and checks the bin directory.
- **Edition detection** (`JetEdition`) from the compiler's banner.
- **The EULA encoding detector** (`EncodingDetector`), which reads the byte
  order mark as defined in sections 3.10 and 23.8 of the Unicode Standard.
  The installer's EULA flag (`ExcelsiorInstallerConfig`) depends on it.
- **The child-process environment merge** of `CmdLineTool`.
- **The file helpers** of `Utils`: copy, mirror and clean a directory.
- **The message lookups** (`Messages`, `Txt`).
- **The small configuration objects**: Tomcat, trial version and slim-down.

The older copy of the message lookup,
`src/main/java/com/excelsior/common/Messages.java`, has the same logic as
`src/main/java/com/excelsiorjet/Messages.java`. The `Messages` module models
both.

Objects whose fields the plugin updates are Dafny classes, with `modifies`
frames. These are the mojos, the tools, the installer and Tomcat
configurations, and the record of launches (`JetMojo.World`).

The filesystem is a value:

- **`Files.Tree`** maps a path to a node, which is a file or directory with
  an mtime, contents and an executable bit.
- **`denied`** is the set of entries that cannot be accessed.
- **`now`** is the clock that a copy without `COPY_ATTRIBUTES` stamps on its
  target.

Walks over the tree are specified pointwise, entry by entry. What comes from
outside the JVM is a parameter:

- **`Host`** holds the `os.name` value, the separators, the system
  properties, the environment, the working directory and the directory
  listing order.
- **A tool launch** gives what the tool prints, its exit code and the files
  it writes.

`Files`, `Host`, `Logging`, `Mojo`, `Wrappers` and `JavaLang` model the Java
platform the plugin runs on:

- `java.io`/`java.nio` files;
- the Maven log;
- `MojoFailureException` and `MojoExecutionException`;
- `String.split`, `trim`, `replace` and `toUpperCase`;
- `Integer.parseInt` and `Integer.decode`.

## Model

| member | source | states |
|---|---|---|
| CmdLineTool.EnvKey | src/main/java/com/excelsiorjet/CmdLineTool.java:56-59 | withEnvironment stores the upper-cased name on Windows (an upper-case fixpoint) and the name as given elsewhere |
| CmdLineTool.WindowsOverlay | src/main/java/com/excelsiorjet/CmdLineTool.java:94-102 | the Windows overlay keeps exactly the inherited names |
| CmdLineTool.RemainingEnv | src/main/java/com/excelsiorjet/CmdLineTool.java:94-103 | after execute, on Windows the overrides matching an inherited name are gone; elsewhere all overrides remain |
| CmdLineTool.Logged | src/main/java/com/excelsiorjet/CmdLineTool.java:71-86 | one log entry per output line, in order: info for standard output, error for standard error |
| CmdLineTool.CmdLineTool.constructor | src/main/java/com/excelsiorjet/CmdLineTool.java:37-44 | a new tool holds its arguments, no log, no working directory and no overrides |
| CmdLineTool.CmdLineTool.WithLog | src/main/java/com/excelsiorjet/CmdLineTool.java:46-49 | sets the log, returns the same tool, changes nothing else |
| CmdLineTool.CmdLineTool.WorkingDirectory | src/main/java/com/excelsiorjet/CmdLineTool.java:51-54 | sets the working directory, returns the same tool, changes nothing else |
| CmdLineTool.CmdLineTool.WithEnvironment | src/main/java/com/excelsiorjet/CmdLineTool.java:56-59 | records the override under EnvKey, replacing an earlier one; keeps the Windows upper-case invariant |
| CmdLineTool.CmdLineTool.Execute | src/main/java/com/excelsiorjet/CmdLineTool.java:89-118 | the child gets ChildEnv of the inherited environment and the overrides; the overrides left are RemainingEnv; a run that cannot start raises CmdLineToolException and logs nothing; an exited run returns its code and logs its output |
| CmdLineTool.CmdLineTool.MergeWindows | src/main/java/com/excelsiorjet/CmdLineTool.java:94-102 | the Windows branch gives the overlay and removes the consumed overrides |
| CmdLineTool.OverlayInherited | src/main/java/com/excelsiorjet/CmdLineTool.java:95-101 | the loop over the inherited names computes the overlay and the remaining overrides, whatever order it visits them in |
| CmdLineTool.LogOutput | src/main/java/com/excelsiorjet/CmdLineTool.java:71-86 | the log receives exactly Logged(output) appended |
| CmdLineTool.NoOverrides | src/main/java/com/excelsiorjet/CmdLineTool.java:92 | with no overrides the child inherits the environment unchanged |
| CmdLineTool.WindowsChildEnv | src/main/java/com/excelsiorjet/CmdLineTool.java:94-103 | on Windows: the child's names are the inherited ones plus the overrides that match none; an inherited variable takes the matching override's value, otherwise keeps its own; an unmatched override is added as is |
| CmdLineTool.WindowsOverrideKeepsSpelling | src/main/java/com/excelsiorjet/CmdLineTool.java:95-99 | on Windows an override reaches the variable under its inherited spelling, and no second spelling of that name appears |
| CmdLineTool.SecondExecuteInherits | src/main/java/com/excelsiorjet/CmdLineTool.java:97-99 | on Windows a second execute no longer applies the overrides that matched inherited names: each inherited variable keeps its inherited value |
| CmdLineTool.OverridesKeptOutsideWindows | src/main/java/com/excelsiorjet/CmdLineTool.java:92-103 | outside Windows the overrides are never consumed; every override wins and every other inherited variable is kept |
| CmdLineTool.UpperKeys | src/main/java/com/excelsiorjet/CmdLineTool.java:56-59 | the overrides recorded on Windows are all upper case (the invariant WithEnvironment keeps) |
| CmdLineTool.InheritedUpper | src/main/java/com/excelsiorjet/CmdLineTool.java:95-97 | the upper-cased names of the inherited variables, the keys the Windows loop looks up |
| CmdLineTool.CaseInsensitivelyUnique | src/main/java/com/excelsiorjet/CmdLineTool.java:94-101 | Windows holds at most one inherited variable per name ignoring case |
| CmdLineTool.ChildEnv | src/main/java/com/excelsiorjet/CmdLineTool.java:91-103 | the child environment: on Windows the overlay of matching overrides under the inherited spelling plus the unmatched overrides; elsewhere the overrides put over the inherited variables (characterised by WindowsChildEnv and OverridesKeptOutsideWindows) |
| CmdLineTool.OverlayDone | src/main/java/com/excelsiorjet/CmdLineTool.java:95-101 | once every inherited name is visited, the loop state is exactly the overlay and the overrides minus the inherited names |
| EncodingDetector.StartsWithBytes | src/main/java/com/excelsiorjet/maven/plugin/EncodingDetector.java:51-59 | holds iff the buffer and the mark agree on their first min(length, length) bytes |
| EncodingDetector.AgreeFrom | src/main/java/com/excelsiorjet/maven/plugin/EncodingDetector.java:53-58 | the loop from index i on holds iff the bytes agree from i up to the shorter length |
| EncodingDetector.ReadBom | src/main/java/com/excelsiorjet/maven/plugin/EncodingDetector.java:29-30 | the 4-byte buffer holds the file's first bytes and zero where the file is shorter |
| EncodingDetector.DetectFileEncoding | src/main/java/com/excelsiorjet/maven/plugin/EncodingDetector.java:26-35 | fails with UnableToDetectEncoding naming the file exactly when the file cannot be read; otherwise the name of the detected charset |
| EncodingDetector.FirstMarkWins | src/main/java/com/excelsiorjet/maven/plugin/EncodingDetector.java:42-47 | a charset of the cascade is reported iff its mark starts the file and no mark tried before it does |
| EncodingDetector.NoMarkIsAscii | src/main/java/com/excelsiorjet/maven/plugin/EncodingDetector.java:48 | US-ASCII iff no mark of the cascade starts the file |
| EncodingDetector.Utf32LeBeforeUtf16Le | src/main/java/com/excelsiorjet/maven/plugin/EncodingDetector.java:42-47 | `FF FE 00 00` also starts with the UTF-16LE mark, yet is UTF-32LE, as written and corrected |
| EncodingDetector.FirstFourBytesDecide | src/main/java/com/excelsiorjet/maven/plugin/EncodingDetector.java:29-31 | bytes after the fourth never change the result |
| EncodingDetector.ShortFileIsPadded | src/main/java/com/excelsiorjet/maven/plugin/EncodingDetector.java:29-31 | as written, a file shorter than four bytes is classified as its bytes followed by zeros |
| EncodingDetector.OneByteFileIsAscii | src/test/java/com/excelsiorjet/EncodingDetectorTest.java:46-49 | a one-byte file is US-ASCII |
| EncodingDetector.MarksAreRecognised | src/test/java/com/excelsiorjet/EncodingDetectorTest.java:21-44 | each mark gives its own charset (UTF-16LE unless the UTF-32LE mark is also there) |
| EncodingDetector.AgreeOnLongFiles | src/main/java/com/excelsiorjet/maven/plugin/EncodingDetector.java:41-59 | on files of at least four bytes the detection as written and the corrected one agree |
| EncodingDetector.BareUtf16LeMarkAsWritten | src/main/java/com/excelsiorjet/maven/plugin/EncodingDetector.java:29-31 | as written, a file holding only `FF FE` is reported as UTF-32LE; corrected, as UTF-16LE |
| EncodingDetector.Utf16LeMarkDecides | src/main/java/com/excelsiorjet/maven/plugin/EncodingDetector.java:47 | corrected, a file starting with the UTF-16LE mark but not the full UTF-32LE mark is UTF-16LE |
| EncodingDetector.DetectEncodingByBom | src/main/java/com/excelsiorjet/maven/plugin/EncodingDetector.java:41-49 | the first of UTF-32BE, UTF-32LE, UTF-8, UTF-16BE, UTF-16LE whose mark starts the buffer, else US-ASCII (characterised by FirstMarkWins and NoMarkIsAscii) |
| EncodingDetector.DetectEncodingAsWritten | src/main/java/com/excelsiorjet/maven/plugin/EncodingDetector.java:29-31 | detection on the zero-padded four-byte buffer, as written (see ShortFileIsPadded and BareUtf16LeMarkAsWritten) |
| EncodingDetector.DetectEncoding | src/main/java/com/excelsiorjet/maven/plugin/EncodingDetector.java:43-48 | the corrected detection: the same cascade, a mark counting only when the file holds all its bytes (see AgreeOnLongFiles and Utf16LeMarkDecides) |
| InstallerConfig.JetResource | src/main/java/com/excelsiorjet/maven/plugin/ExcelsiorInstallerConfig.java:96-102 | a default resource lies below the project base directory, at src/main/jetresources/<name> |
| InstallerConfig.EulaFlag | src/main/java/com/excelsiorjet/maven/plugin/ExcelsiorInstallerConfig.java:105-130 | only `-unicode-eula` or `-eula` is ever returned; a detection failure passes through; a declared encoding other than `autodetect` that differs from the detected one fails with EncodingDoesNotMatchActual; otherwise UTF-16LE gives `-unicode-eula`, US-ASCII `-eula`, and anything else UnsupportedEncoding |
| InstallerConfig.ExcelsiorInstallerConfig.constructor | src/main/java/com/excelsiorjet/maven/plugin/ExcelsiorInstallerConfig.java:63-88 | no licence file, encoding `autodetect`, no splash |
| InstallerConfig.ExcelsiorInstallerConfig.FillDefaults | src/main/java/com/excelsiorjet/maven/plugin/ExcelsiorInstallerConfig.java:90-103 | fails with UnsupportedEncoding iff the encoding is not US-ASCII, UTF-16LE or `autodetect`, changing nothing; otherwise an explicit licence file and splash are kept and missing ones become the conventional `eula.txt` and `installerSplash.bmp` (the licence default is corrected, see Findings) |
| InstallerConfig.DefaultEulaIsIconAsWritten | src/main/java/com/excelsiorjet/maven/plugin/ExcelsiorInstallerConfig.java:96-98 | the licence default as written is the `icon.ico` resource, which is not `eula.txt` |
| InstallerConfig.DefaultEulaIsLicenceText | src/main/java/com/excelsiorjet/maven/plugin/ExcelsiorInstallerConfig.java:55-59 | the corrected licence default is `eula.txt` below the project's JET resources, distinct from the icon |
| InstallerConfig.ExcelsiorInstallerConfig.EulaFlagOf | src/main/java/com/excelsiorjet/maven/plugin/ExcelsiorInstallerConfig.java:105-111 | the flag of this configuration's licence file as read from the filesystem; success implies the file is a readable regular file |
| InstallerConfig.AutodetectFlags | src/main/java/com/excelsiorjet/maven/plugin/ExcelsiorInstallerConfig.java:119-129 | under `autodetect` a UTF-16LE file gives `-unicode-eula`, a US-ASCII file `-eula`, and any other mark fails with UnsupportedEncoding |
| InstallerConfig.DeclaredMatchesAutodetect | src/main/java/com/excelsiorjet/maven/plugin/ExcelsiorInstallerConfig.java:113-121 | a declared encoding equal to the detected one gives the flag `autodetect` would; a different one always fails |
| JavaLang.ReplaceChar | src/main/java/com/excelsiorjet/maven/plugin/JetMojo.java:314 | String.replace(char, char): same length, each occurrence of the old character replaced and nothing else changed |
| JavaLang.ReplaceAbsent | src/main/java/com/excelsiorjet/maven/plugin/TestRunMojo.java:144 | String.replace(CharSequence, CharSequence) leaves a string without the target unchanged |
| JavaLang.ReplaceLeftmost | src/main/java/com/excelsiorjet/maven/plugin/TestRunMojo.java:144 | String.replace replaces the leftmost occurrence and continues after it |
| JavaLang.Trim | src/main/java/com/excelsiorjet/Messages.java:59 | String.trim: the result is the input with a run of characters at or below U+0020 removed from each end, and neither of its ends is such a character |
| JavaLang.TrimIdempotent | src/main/java/com/excelsiorjet/Messages.java:59 | trimming twice is trimming once |
| JavaLang.ToUpper | src/main/java/com/excelsiorjet/CmdLineTool.java:57 | String.toUpperCase character by character, same length |
| JavaLang.DropTrailingEmpty | src/main/java/com/excelsiorjet/maven/plugin/JetMojo.java:261 | String.split drops exactly the trailing empty pieces |
| JavaLang.JoinSplitAll | src/main/java/com/excelsiorjet/JetHome.java:117 | joining the pieces of a split with its separator gives the string back |
| JavaLang.SplitJoin | src/main/java/com/excelsiorjet/maven/plugin/JetMojo.java:261 | splitting the join of separator-free pieces, the last one non-empty, gives the pieces back |
| JavaLang.DecodeIntToString | src/main/java/com/excelsiorjet/maven/plugin/JetMojo.java:265 | Integer.decode reads back the decimal text of every 32-bit integer |
| JavaLang.ParseIntIntToString | src/main/java/com/excelsiorjet/JetHome.java:55 | Integer.parseInt reads back the decimal text of every 32-bit integer |
| JetEdition.ValuesEnumerate | src/main/java/com/excelsiorjet/JetEdition.java:34-40 | `values()` lists every edition, each once |
| JetEdition.FullEditionNameInjective | src/main/java/com/excelsiorjet/JetEdition.java:35-53 | the six display names are pairwise distinct |
| JetEdition.MatchIndex | src/main/java/com/excelsiorjet/JetEdition.java:61-64 | the first edition in declaration order whose display name the line contains, or none when no name occurs |
| JetEdition.DetectEdition | src/main/java/com/excelsiorjet/JetEdition.java:55-79 | a run that cannot start fails with its message; an exited run succeeds iff the exit code is 0 and some standard-output line names an edition; otherwise UnableToDetectEdition |
| JetEdition.FirstEditionNone | src/main/java/com/excelsiorjet/JetEdition.java:59-66 | no edition iff no standard-output line matches; a found edition is the match of some standard-output line |
| JetEdition.FirstEditionAppend | src/main/java/com/excelsiorjet/JetEdition.java:60 | a further line matters only while nothing is found and only if it is standard output |
| JetEdition.EarliestLineWins | src/main/java/com/excelsiorjet/JetEdition.java:60-64 | once found, later lines never change the edition |
| JetEdition.ErrorLinesIgnored | src/main/java/com/excelsiorjet/JetEdition.java:68-69 | a standard-error line never influences the result |
| JetEdition.EvaluationInEmbeddedEvaluation | src/main/java/com/excelsiorjet/JetEdition.java:35-40 | "Embedded Evaluation" contains "Evaluation" |
| JetEdition.EmbeddedEvaluationNeverDetected | src/main/java/com/excelsiorjet/JetEdition.java:59-66 | EMBEDDED_EVALUATION is never detected; a line naming it is classified as EVALUATION |
| JetEdition.NonzeroExitFails | src/main/java/com/excelsiorjet/JetEdition.java:72-74 | a nonzero exit fails even when an edition was matched |
| JetEdition.FullEditionName | src/main/java/com/excelsiorjet/JetEdition.java:35-53 | the display name of each edition (pairwise distinct, by FullEditionNameInjective) |
| JetEdition.MatchLine | src/main/java/com/excelsiorjet/JetEdition.java:61-64 | the edition MatchIndex finds from the first edition on, or none |
| JetEdition.FirstEdition | src/main/java/com/excelsiorjet/JetEdition.java:58-66 | the edition of the first standard-output line that names one (characterised by FirstEditionNone, FirstEditionAppend and ErrorLinesIgnored) |
| JetEdition.Detected | src/main/java/com/excelsiorjet/JetEdition.java:72-77 | the failed run's message, UnableToDetectEdition for a nonzero exit or no match, else the edition found (the specification DetectEdition meets) |
| JetHome.MarkerMiddle | src/main/java/com/excelsiorjet/JetHome.java:52-55 | the text between the `jet` prefix and the `.home` suffix of a marker name |
| JetHome.MarkerVersion | src/main/java/com/excelsiorjet/JetHome.java:53-58 | the marker's middle parsed by Integer.parseInt, or -1 when it does not parse |
| JetHome.ListingVersion | src/main/java/com/excelsiorjet/JetHome.java:50-61 | -1 when no entry is a marker; otherwise the version of the first marker, even when it does not parse |
| JetHome.GetJetBinDirectory | src/main/java/com/excelsiorjet/JetHome.java:144-146 | the home's `bin` child |
| JetHome.GetJetVersion | src/main/java/com/excelsiorjet/JetHome.java:46-62 | -1 when `bin` cannot be listed; otherwise the version of its listing |
| JetHome.CheckJetHome | src/main/java/com/excelsiorjet/JetHome.java:68-75 | passes iff the home has a valid `bin` and a supported version; the `bin` test comes first (BadJETHomeDir), then the version (UnsupportedJETHomeDir) |
| JetHome.ExpandHome | src/main/java/com/excelsiorjet/JetHome.java:84-87 | a leading `~/` is replaced by `user.home` on Unix only; anything else is kept |
| JetHome.ResolveExplicit | src/main/java/com/excelsiorjet/JetHome.java:83-90 | the explicit constructor succeeds with the expanded path iff the check passes on it, and fails with the check's error otherwise |
| JetHome.TrySetJetHome | src/main/java/com/excelsiorjet/JetHome.java:92-99 | an empty or unset value falls through; a set one decides, by the check |
| JetHome.PathEntryHomeAsWritten | src/main/java/com/excelsiorjet/JetHome.java:118-123 | as written, a valid `bin` entry without a parent raises NullPointerException; a found home is the absolute parent and supported |
| JetHome.PathEntryHome | src/main/java/com/excelsiorjet/JetHome.java:118-123 | corrected, a PATH entry yields a home iff it is a valid `bin` whose absolute parent exists and is supported |
| JetHome.EntryHomes | src/main/java/com/excelsiorjet/JetHome.java:117 | the candidate home of each PATH entry, in order |
| JetHome.ScanPath | src/main/java/com/excelsiorjet/JetHome.java:117-126 | fails with JetNotFound iff no entry yields a home; otherwise a home of some entry |
| JetHome.ScanFindsFirst | src/main/java/com/excelsiorjet/JetHome.java:117-123 | the scan returns the home of the first entry that yields one |
| JetHome.PathEntries | src/main/java/com/excelsiorjet/JetHome.java:116-117 | PATH split by the path separator, or nothing when PATH is unset |
| JetHome.ResolveDefault | src/main/java/com/excelsiorjet/JetHome.java:111-128 | every home the default constructor returns is supported |
| JetHome.JetHome.constructor | src/main/java/com/excelsiorjet/JetHome.java:89 | the object holds the home |
| JetHome.JetHome.BinDirectory | src/main/java/com/excelsiorjet/JetHome.java:134-136 | the object's `bin` directory |
| JetHome.NewJetHome | src/main/java/com/excelsiorjet/JetHome.java:83-90 | constructs a JetHome exactly when ResolveExplicit succeeds, holding its path; otherwise its error |
| JetHome.DetectJetHome | src/main/java/com/excelsiorjet/JetHome.java:111-128 | constructs a JetHome exactly when ResolveDefault succeeds, holding its path; otherwise its error |
| JetHome.ScanPathEntries | src/main/java/com/excelsiorjet/JetHome.java:117-126 | the loop over PATH entries returns what ScanPath specifies |
| JetHome.MarkerRoundTrip | src/main/java/com/excelsiorjet/JetHome.java:52-55 | `jet<N>.home` is a marker whose version is N, for every 32-bit N |
| JetHome.EmptyMarker | src/main/java/com/excelsiorjet/JetHome.java:56-58 | `jet.home` is a marker whose version is -1 |
| JetHome.ConfigIsNoMarker | src/main/java/com/excelsiorjet/JetHome.java:52 | `jet.config` is not a marker |
| JetHome.SecondEntryDecides | src/main/java/com/excelsiorjet/JetHome.java:50-59 | entries that are not markers are skipped until the first marker |
| JetHome.Marker1100 | src/test/java/com/excelsior/jet/TestUtils.java:42-66 | the marker of version 1100 is `jet1100.home` |
| JetHome.Marker1050 | src/test/java/com/excelsior/jet/TestUtils.java:42-66 | the marker of version 1050 is `jet1050.home` |
| JetHome.SupportedBoundary | src/main/java/com/excelsiorjet/JetHome.java:64-66 | with `jet1100.home` the version is 1100 and supported; with `jet1050.home` it is not |
| JetHome.NoVersionUnsupported | src/main/java/com/excelsiorjet/JetHome.java:64-75 | version -1 is never supported, so the check fails |
| JetHome.VMPropertyDecides | src/main/java/com/excelsiorjet/JetHome.java:113-114 | a set `jet.home` decides alone: the environment is never consulted |
| JetHome.EnvVarDecides | src/main/java/com/excelsiorjet/JetHome.java:113-116 | otherwise a set `JET_HOME` decides alone: PATH is never consulted |
| JetHome.ExplicitAcceptsValid | src/test/java/com/excelsior/jet/JetHomeTest.java:24-29 | a home that passes the check is accepted unchanged by the explicit constructor |
| JetHome.ReresolveIdempotent | src/test/java/com/excelsior/jet/JetHomeTest.java:24-29 | re-resolving a detected home explicitly gives the same home |
| JetHome.ExplicitRejectsBad | src/main/java/com/excelsiorjet/JetHome.java:83-90 | a path without a valid `bin` fails with BadJETHomeDir naming the expanded path |
| JetHome.NullParentAsWritten | src/main/java/com/excelsiorjet/JetHome.java:119 | as written, PATH=`bin` inside the home raises NullPointerException |
| JetHome.RelativeBinEntryFound | src/main/java/com/excelsiorjet/JetHome.java:116-123 | corrected, PATH=`bin` inside a supported home finds the working directory |
| JetHome.BinEntryNamesWorkingDirectory | src/main/java/com/excelsiorjet/JetHome.java:119 | corrected, the entry `bin` yields the working directory |
| JetHome.IsSupportedJetVersion | src/main/java/com/excelsiorjet/JetHome.java:64-66 | the version read from `bin` is at least the minimum supported one (see SupportedBoundary and NoVersionUnsupported) |
| JetHome.IsJetBinDir | src/main/java/com/excelsiorjet/JetHome.java:138-142 | `jet.config` and the compiler and packager executables, named for the host, all exist in the directory |
| JetHome.IsJetDir | src/main/java/com/excelsiorjet/JetHome.java:148-150 | the home's `bin` child is a JET bin directory |
| JetHome.ScanPathAsWritten | src/main/java/com/excelsiorjet/JetHome.java:117-126 | the PATH loop as written, stopping at the first entry that throws (see NullParentAsWritten) |
| JetHome.ResolveDefaultAsWritten | src/main/java/com/excelsiorjet/JetHome.java:111-127 | the default constructor with the PATH loop as written |
| JetHome.JetHome.GetJetHome | src/main/java/com/excelsiorjet/JetHome.java:130-132 | the home the object holds |
| JetMojoSettings.DecodeInRange | src/main/java/com/excelsiorjet/maven/plugin/JetMojo.java:265 | whatever Integer.decode accepts lies in the 32-bit int range |
| JetMojoSettings.ComponentValue | src/main/java/com/excelsiorjet/maven/plugin/JetMojo.java:264-275 | a 32-bit number; the decoded piece when Integer.decode accepts it |
| JetMojoSettings.Slot | src/main/java/com/excelsiorjet/maven/plugin/JetMojo.java:262-276 | a 32-bit number, and 0 for a slot past the last piece |
| JetMojoSettings.VersionNumbers | src/main/java/com/excelsiorjet/maven/plugin/JetMojo.java:261-276 | exactly four 32-bit numbers |
| JetMojoSettings.SlotNumbers | src/main/java/com/excelsiorjet/maven/plugin/JetMojo.java:262-276 | four numbers, the i-th being slot i of the pieces |
| JetMojoSettings.ComponentOfNumber | src/main/java/com/excelsiorjet/maven/plugin/JetMojo.java:265 | the text Integer.toString gives of a 32-bit number decodes back to that number |
| JetMojoSettings.RenderRoundTrip | src/main/java/com/excelsiorjet/maven/plugin/JetMojo.java:261-277 | four numbers joined with dots are read back as the same four numbers |
| JetMojoSettings.CoerceVersion | src/main/java/com/excelsiorjet/maven/plugin/JetMojo.java:260-277 | the coerced version reads back as the same four numbers as the original |
| JetMojoSettings.CoerceVersionIdempotent | src/main/java/com/excelsiorjet/maven/plugin/JetMojo.java:260-281 | coercing a coerced version changes nothing |
| JetMojoSettings.CoerceVersionFixedPoints | src/main/java/com/excelsiorjet/maven/plugin/JetMojo.java:277-281 | a version is left unchanged, and so draws no warning, exactly when it is already four dot-joined 32-bit numbers |
| JetMojoSettings.SnapshotComponent | src/main/java/com/excelsiorjet/maven/plugin/JetMojo.java:266-274 | a piece `n-suffix` that Integer.decode refuses contributes the number n before its `-` |
| JetMojoSettings.SnapshotVersion | src/main/java/com/excelsiorjet/maven/plugin/JetMojo.java:175-176 | a version `major.minor-SUFFIX` is coerced to the numbers major, minor, 0, 0 |
| JetMojoSettings.TwoPieces | src/main/java/com/excelsiorjet/maven/plugin/JetMojo.java:261 | two dot-free pieces joined by a dot split back into the two pieces |
| JetMojoSettings.MagnitudeRejects | src/main/java/com/excelsiorjet/maven/plugin/JetMojo.java:265-266 | a text holding a non-digit is refused by the number reader |
| JetMojoSettings.Capitalize | src/main/java/com/excelsiorjet/maven/plugin/JetMojo.java:252 | same length, the first character upper-cased and the rest unchanged |
| JetMojoSettings.DefaultVendor | src/main/java/com/excelsiorjet/maven/plugin/JetMojo.java:244-253 | a non-empty vendor, or an index-out-of-bounds exception as the only failure |
| JetMojoSettings.VendorIsSecondComponent | src/main/java/com/excelsiorjet/maven/plugin/JetMojo.java:246-252 | for a group id of two or more components the vendor is the second component capitalised |
| JetMojoSettings.VendorOfSingleComponent | src/main/java/com/excelsiorjet/maven/plugin/JetMojo.java:249-252 | a one-component group id gives that component capitalised |
| JetMojoSettings.NoVendorFromEmptyGroup | src/main/java/com/excelsiorjet/maven/plugin/JetMojo.java:246-252 | an empty group id, or one that is only a dot, throws index-out-of-bounds |
| JetMojoSettings.Copyright | src/main/java/com/excelsiorjet/maven/plugin/JetMojo.java:283-288 | the notice starts with the copyright sign text and names the current year alone, or inception year comma current year, then the vendor |
| JetMojoSettings.NamesDefaulted | src/main/java/com/excelsiorjet/maven/plugin/JetMojo.java:243-258 | fails exactly when the vendor is empty and the group id gives none; otherwise vendor and product are set, given ones are kept, and nothing else changes |
| JetMojoSettings.VersionInfoFilled | src/main/java/com/excelsiorjet/maven/plugin/JetMojo.java:259-292 | the version is coerced to the same numbers, the copyright is set and a given one kept, the description defaults to the product, nothing else changes |
| JetMojoSettings.CoercionWarning | src/main/java/com/excelsiorjet/maven/plugin/JetMojo.java:278-281 | a warning is logged exactly when the coercion changes the version |
| JetMojoSettings.VersionInfoChecked | src/main/java/com/excelsiorjet/maven/plugin/JetMojo.java:235-293 | version info stays on only on Windows outside the Standard edition and when requested, and is then complete; the group-id failure is the only failure |
| JetMojoSettings.VersionWarningIffCoerced | src/main/java/com/excelsiorjet/maven/plugin/JetMojo.java:278-281 | with version info on, the only thing logged is the incompatible-version warning, exactly when the version changes |
| JetMojoSettings.NoVersionInfoOutsideWindows | src/main/java/com/excelsiorjet/maven/plugin/JetMojo.java:236-238 | off Windows version info is turned off silently and the version is untouched |
| JetMojoSettings.StandardEditionWarns | src/main/java/com/excelsiorjet/maven/plugin/JetMojo.java:239-242 | the Standard edition turns version info off with one warning |
| JetMojoSettings.VersionInfoSettles | src/main/java/com/excelsiorjet/maven/plugin/JetMojo.java:235-293 | checking the checked settings again logs nothing and changes nothing |
| JetMojoSettings.CheckPackaging | src/main/java/com/excelsiorjet/maven/plugin/JetMojo.java:320-330 | accepts exactly zip, none and excelsior-installer; an installer on OS X is downgraded to zip; anything else fails with the unknown-mode failure |
| JetMojoSettings.MainClassPath | src/main/java/com/excelsiorjet/maven/plugin/JetMojo.java:314 | same length and no dot left |
| JetMojoSettings.Normalized | src/main/java/com/excelsiorjet/maven/plugin/JetMojo.java:313-318 | the main class holds no dot and an output name is set |
| JetMojoSettings.Screened | src/main/java/com/excelsiorjet/maven/plugin/JetMojo.java:296-334 | a missing jar is logged and fails first, an empty main class next; passes exactly when jar, main class, packaging and licences all pass |
| JetMojoSettings.PrerequisitesChecked | src/main/java/com/excelsiorjet/maven/plugin/JetMojo.java:295-347 | the same failures in the same order, and a JET home only once the main class and packaging passed |
| JetMojoSettings.HomeChecked | src/main/java/com/excelsiorjet/maven/plugin/JetMojo.java:336-346 | a home exactly when the home resolves and the version-info check passes, and then the resolved one |
| JetMojoSettings.PrerequisitesPassIff | src/main/java/com/excelsiorjet/maven/plugin/JetMojo.java:295-347 | the prerequisites pass exactly when every check passes |
| JetMojoSettings.PrerequisitesExtendShared | src/main/java/com/excelsiorjet/maven/plugin/JetMojo.java:295-347 | a home found here is the one the shared prerequisites of the other goals find |
| JetMojoSettings.MainClassNormalised | src/main/java/com/excelsiorjet/maven/plugin/JetMojo.java:313-318 | after a pass the main class has no dot; a missing output name becomes its last `/` component, a given one is kept |
| JetMojoSettings.PrerequisitesSettle | src/main/java/com/excelsiorjet/maven/plugin/JetMojo.java:295-347 | checking the passed settings again logs nothing and changes nothing |
| JetMojoSettings.WindowsOptions | src/main/java/com/excelsiorjet/maven/plugin/JetMojo.java:395-402 | nothing off Windows, and at most two options |
| JetMojoSettings.VersionInfoOptions | src/main/java/com/excelsiorjet/maven/plugin/JetMojo.java:407-413 | exactly five options |
| JetMojoSettings.CompilerOptions | src/main/java/com/excelsiorjet/maven/plugin/JetMojo.java:394-413 | the Windows options, three fixed ones, and five more exactly when version info is on |
| JetMojoSettings.GuiOptionPresence | src/main/java/com/excelsiorjet/maven/plugin/JetMojo.java:399-401 | `-gui+` is passed exactly on Windows with a hidden console |
| JetMojoSettings.IconOptionPresence | src/main/java/com/excelsiorjet/maven/plugin/JetMojo.java:396-398 | the icon is passed exactly on Windows when it is a file |
| JetMojoSettings.VersionInfoPresence | src/main/java/com/excelsiorjet/maven/plugin/JetMojo.java:407-413 | the product-version option is passed exactly when version info is on |
| JetMojoSettings.AppDirArgs | src/main/java/com/excelsiorjet/maven/plugin/JetMojo.java:426-428 | five arguments adding the executable and ending with `-target` and the application directory |
| JetMojoSettings.InstallerTarget | src/main/java/com/excelsiorjet/maven/plugin/JetMojo.java:439 | a path inside the output directory with the platform's executable extension |
| JetMojoSettings.InstallerArgs | src/main/java/com/excelsiorjet/maven/plugin/JetMojo.java:440-458 | the licence options first, the splash on Windows when it exists, thirteen fixed ones ending with `-target` and the installer |
| JetMojoSettings.OneLicence | src/main/java/com/excelsiorjet/maven/plugin/JetMojo.java:441-447 | at most one licence is passed, the plain one winning when both exist |
| JetMojoSettings.ExternalAttributes | src/main/java/com/excelsiorjet/maven/plugin/JetMojo.java:481-483 | the mode sits in the upper 16 bits and the read-only bit is set exactly when the owner cannot write |
| JetMojoSettings.ExecutableEntryAttributes | src/main/java/com/excelsiorjet/maven/plugin/JetMojo.java:482 | mode 0100777 gives the attributes 0x81FF0000 |
| JetMojoSettings.ZipEntryOf | src/main/java/com/excelsiorjet/maven/plugin/JetMojo.java:480-483 | the entry name is the path below the root, and a mode is set exactly on Unix for an executable |
| JetMojoSettings.ZipEntries | src/main/java/com/excelsiorjet/maven/plugin/JetMojo.java:473-491 | every regular file the walk reaches has its entry |
| JetMojoSettings.ZipEntriesExact | src/main/java/com/excelsiorjet/maven/plugin/JetMojo.java:473-491 | an entry is in the archive exactly when it is the entry of a regular file the walk reaches |
| JetMojoSettings.NoModesOffUnix | src/main/java/com/excelsiorjet/maven/plugin/JetMojo.java:481 | off Unix no entry carries a mode |
| JetMojoSettings.EulaOptions | src/main/java/com/excelsiorjet/maven/plugin/JetMojo.java:441-447 | the licence file when it exists, else the Unicode one when that exists, else nothing (see OneLicence) |
| JetMojoSettings.CanZip | src/main/java/com/excelsiorjet/maven/plugin/JetMojo.java:466-491 | the archive can be written: the directory lists, every entry the walk reaches is readable, the zip file can be created |
| JetMojo.World.constructor | src/main/java/com/excelsiorjet/maven/plugin/JetMojo.java:415-416 | a fresh record of launches and archives starts empty |
| JetMojo.ToolStep | src/main/java/com/excelsiorjet/maven/plugin/JetMojo.java:415-418 | a run that cannot start fails with its message and writes nothing; an exited run logs its output and keeps its writes, and fails with the step's message exactly when the exit code is nonzero |
| JetMojo.RunToolStep | src/main/java/com/excelsiorjet/maven/plugin/JetMojo.java:415-418 | the launch is recorded and the tree, the log and the failure are those of the tool step |
| JetMojo.DependencyPaths | src/main/java/com/excelsiorjet/maven/plugin/JetMojo.java:363 | one relative path per staged dependency, in order |
| JetMojo.ZipTarget | src/main/java/com/excelsiorjet/maven/plugin/JetMojo.java:497 | the archive lies inside the output directory and ends in .zip |
| JetMojo.DecodeComponent | src/main/java/com/excelsiorjet/maven/plugin/JetMojo.java:264-275 | the decoded number of a slot, or nothing exactly when the slot stays 0 |
| JetMojo.CoercedVersion | src/main/java/com/excelsiorjet/maven/plugin/JetMojo.java:260-277 | the loop's result is the coerced version |
| JetMojo.CoercedSlots | src/main/java/com/excelsiorjet/maven/plugin/JetMojo.java:262-276 | four fresh slots, slot k holding the text of the k-th coerced number |
| JetMojo.FillSlot | src/main/java/com/excelsiorjet/maven/plugin/JetMojo.java:263-276 | slot i gets its coerced number and the other slots are untouched |
| JetMojo.JetMojo.constructor | src/main/java/com/excelsiorjet/maven/plugin/JetMojo.java:51-233 | the goal holds the given project, parameters, settings and log |
| JetMojo.JetMojo.CheckVersionInfo | src/main/java/com/excelsiorjet/maven/plugin/JetMojo.java:235-293 | the settings, the log and the failure are those of the version-info check |
| JetMojo.JetMojo.DefaultNames | src/main/java/com/excelsiorjet/maven/plugin/JetMojo.java:243-258 | the vendor and product defaults, or their failure with the settings unchanged |
| JetMojo.JetMojo.FillVersionInfo | src/main/java/com/excelsiorjet/maven/plugin/JetMojo.java:259-292 | the settings are filled as the version-info defaults say, with the coercion warning logged when it applies |
| JetMojo.JetMojo.CheckPrerequisites | src/main/java/com/excelsiorjet/maven/plugin/JetMojo.java:295-347 | the settings, the log and the JET home or failure are those of the prerequisite check |
| JetMojo.JetMojo.CheckHome | src/main/java/com/excelsiorjet/maven/plugin/JetMojo.java:336-346 | the home and the version-info check once the earlier checks passed |
| JetMojo.JetMojo.Screen | src/main/java/com/excelsiorjet/maven/plugin/JetMojo.java:296-334 | the checks before the home: jar, main class, packaging and licences |
| JetMojo.JetMojo.Execute | src/main/java/com/excelsiorjet/maven/plugin/JetMojo.java:513-542 | a failed check leaves tree and tools untouched; the first tool is the compiler in the build directory with the main jar first; a failure after a launch is the unexpected error with an error logged; success means compiler and packager ran and the build success was announced |
| JetMojo.JetMojo.Produce | src/main/java/com/excelsiorjet/maven/plugin/JetMojo.java:518-541 | the part of execute after the checks, with the same promises |
| JetMojo.JetMojo.Prepare | src/main/java/com/excelsiorjet/maven/plugin/JetMojo.java:518-529 | the staged paths start with the main jar's name, or the directory-creation or copy failure, or a MojoFailureException with key Utils.CleanDirectory.Failed naming the app directory or an inaccessible entry |
| JetMojo.JetMojo.Build | src/main/java/com/excelsiorjet/maven/plugin/JetMojo.java:531-536 | the compiler runs first with the dependencies and compiler options in the build directory, and success means the packaging completed |
| JetMojo.JetMojo.Compile | src/main/java/com/excelsiorjet/maven/plugin/JetMojo.java:394-419 | one compiler launch with the dependencies and the compiler options, ending as its tool step says with the build failure |
| JetMojo.JetMojo.CompilerArgs | src/main/java/com/excelsiorjet/maven/plugin/JetMojo.java:395-413 | the dependencies followed by the compiler options |
| JetMojo.JetMojo.CreateAppDir | src/main/java/com/excelsiorjet/maven/plugin/JetMojo.java:425-432 | one packager launch laying out the application directory, ending as its tool step says with the package failure |
| JetMojo.JetMojo.PackWithEI | src/main/java/com/excelsiorjet/maven/plugin/JetMojo.java:438-464 | one packager launch with the installer arguments, returning the installer target |
| JetMojo.JetMojo.InstallerArgList | src/main/java/com/excelsiorjet/maven/plugin/JetMojo.java:440-458 | the installer arguments for the licences and splash found in the tree |
| JetMojo.JetMojo.PackageBuild | src/main/java/com/excelsiorjet/maven/plugin/JetMojo.java:493-511 | zip writes one archive of the application directory and announces it; the installer launches the packager once; none only announces the directory |
| JetMojo.JetMojo.ZipApp | src/main/java/com/excelsiorjet/maven/plugin/JetMojo.java:495-501 | an archive of the application directory is written exactly when it can be, followed by the three info lines |
| JetMojo.JetMojo.InstallerApp | src/main/java/com/excelsiorjet/maven/plugin/JetMojo.java:502-506 | one packager launch, and on success the build success and installer location are the last lines logged |
| JetMojo.JetMojo.CompressZipfile | src/main/java/com/excelsiorjet/maven/plugin/JetMojo.java:466-491 | an archive holding an entry per regular file is recorded exactly when the directory can be archived; no tool is launched |
| JetMojo.JetMojo.RunTool | src/main/java/com/excelsiorjet/maven/plugin/JetMojo.java:415-418 | the launch is recorded and ends as its tool step says |
| JetMojo.JetMojo.CopyDependencies | src/main/java/com/excelsiorjet/maven/plugin/JetMojo.java:374-389 | the tree and the paths are those of the staging that copies only missing targets, or its failure |
| LegacyJetMojo.Prerequisites | src/main/java/com/excelsior/jet/maven/plugin/JetMojo.java:120-139 | a missing jar fails first, an empty main class next, a JET home failure last with its message; passes exactly when all three pass, with the home found |
| LegacyJetMojo.StagingSpec | src/main/java/com/excelsior/jet/maven/plugin/JetMojo.java:149-166 | on success the main jar's name is the first compiler argument; a failed copy is the dependency-copying exception |
| LegacyJetMojo.DefaultOutputName | src/main/java/com/excelsior/jet/maven/plugin/JetMojo.java:168-172 | the default executable name holds neither a slash nor a dot |
| LegacyJetMojo.JetMojo.constructor | src/main/java/com/excelsior/jet/maven/plugin/JetMojo.java:53-113 | the goal holds the given project, parameters, log, main class and output name |
| LegacyJetMojo.JetMojo.CheckPrerequisites | src/main/java/com/excelsior/jet/maven/plugin/JetMojo.java:120-139 | the outcome is that of the prerequisite checks, and a missing jar is logged as an error naming its absolute path |
| LegacyJetMojo.JetMojo.Prepare | src/main/java/com/excelsior/jet/maven/plugin/JetMojo.java:141-147 | the tree is the prepared one: build and lib directories made by File.mkdirs (missing parents too, nothing below a regular file, failure ignored), the package directory emptied |
| LegacyJetMojo.JetMojo.CopyDependencies | src/main/java/com/excelsior/jet/maven/plugin/JetMojo.java:149-166 | the tree and the compiler arguments are those of the staging that copies the main jar only when it is missing (the corrected copy) |
| LegacyJetMojo.JetMojo.Normalise | src/main/java/com/excelsior/jet/maven/plugin/JetMojo.java:168-172 | the main class is in slash notation, and a missing output name becomes its last component |
| LegacyJetMojo.JetMojo.RunStep | src/main/java/com/excelsior/jet/maven/plugin/JetMojo.java:187-201 | one launch recorded; a run that cannot start is logged and becomes the unexpected error; an exited run logs its output and fails exactly on a nonzero exit code |
| LegacyJetMojo.JetMojo.Finish | src/main/java/com/excelsior/jet/maven/plugin/JetMojo.java:203-218 | succeeds exactly when no zip is asked for or the zip succeeds; a zip failure is logged and becomes the unexpected error; success logs the build success and where to find the result |
| LegacyJetMojo.JetMojo.BuildApp | src/main/java/com/excelsior/jet/maven/plugin/JetMojo.java:174-218 | the compiler runs first; the packager runs exactly when the compiler exits with 0; success means the packager exited with 0 and the success lines were logged last |
| LegacyJetMojo.JetMojo.Execute | src/main/java/com/excelsior/jet/maven/plugin/JetMojo.java:115-219 | a failed check or staging is reported as such; after staging the fields are normalised and the compiler is launched with the staged paths; success means both tools ran, the packager second |
| LegacyJetMojo.OutputNameIsSimpleName | src/main/java/com/excelsior/jet/maven/plugin/JetMojo.java:168-172 | a main class pkg.Name gives the executable name Name |
| LegacyJetMojo.BuildTreeOutsidePackage | src/main/java/com/excelsior/jet/maven/plugin/JetMojo.java:142-147 | nothing under the build directory is under the package directory, so cleaning one keeps the other |
| LegacyJetMojo.PreparedKeeps | src/main/java/com/excelsior/jet/maven/plugin/JetMojo.java:141-147 | preparing keeps every entry outside the package directory and creates no file |
| LegacyJetMojo.FreshBuildsAgree | src/main/java/com/excelsior/jet/maven/plugin/JetMojo.java:152-153 | when the main jar has not been staged yet, copying always and copying when missing agree |
| LegacyJetMojo.RestagingFailsAsWritten | src/main/java/com/excelsior/jet/maven/plugin/JetMojo.java:152 | after one successful build, a second one over the same tree fails to copy the main jar |
| LegacyJetMojo.RestagingSettles | src/main/java/com/excelsior/jet/maven/plugin/JetMojo.java:149-166 | with the corrected copy, a second build over the staged tree succeeds and writes nothing |
| LegacyJetMojo.Prepared | src/main/java/com/excelsior/jet/maven/plugin/JetMojo.java:141-147 | build and then `lib` made by File.mkdirs, with missing parents and nothing below a regular file, a failure ignored, then the package directory cleaned (see PreparedKeeps and BuildTreeOutsidePackage) |
| LegacyJetMojo.LibStage | src/main/java/com/excelsior/jet/maven/plugin/JetMojo.java:154-161 | artifacts copied into `lib` only when missing and recorded as `lib/` and their name |
| LegacyJetMojo.CompilerArgs | src/main/java/com/excelsior/jet/maven/plugin/JetMojo.java:150-186 | the staged files, then the Windows icon and console options, then `-main=`, `-outputname=` and `-decor=ht` |
| LegacyJetMojo.PackagerArgs | src/main/java/com/excelsior/jet/maven/plugin/JetMojo.java:195-197 | the executable added at the package root and the package directory as the target |
| LegacyJetMojo.SuccessLog | src/main/java/com/excelsior/jet/maven/plugin/JetMojo.java:203-212 | with zip output: the zip notice, success and the archive path; otherwise success and the package directory |
| LegacyJetTool.GetNewArgs | src/main/java/com/excelsior/jet/JetTool.java:33-38 | one more argument than given: the tool's executable in the JET bin directory first, then the given arguments unchanged |
| LegacyJetTool.ToolPath | src/main/java/com/excelsior/jet/JetTool.java:42-44 | the bin directory and the path separator come first, followed by the inherited PATH |
| LegacyJetTool.JetTool.constructor | src/main/java/com/excelsior/jet/JetTool.java:40-46 | the tool's arguments are the new arguments and its one environment entry sets PATH with the bin directory first |
| LegacyJetTool.BinDirIsFirstPathEntry | src/main/java/com/excelsior/jet/JetTool.java:43-44 | splitting the new PATH at the separator gives the bin directory as its first entry |
| LegacyUtils.Top | src/main/java/com/excelsior/jet/Utils.java:54-58 | the entry directly below the cleaned directory on the way to a path covers that path |
| LegacyUtils.TopOfChild | src/main/java/com/excelsior/jet/Utils.java:54-58 | a path below a listed child is reached through that child |
| LegacyUtils.IndexOfAbsent | src/main/java/com/excelsior/jet/Utils.java:54-58 | a separator that does not occur is not found |
| LegacyUtils.IndexOfFirst | src/main/java/com/excelsior/jet/Utils.java:54-58 | the first occurrence of the separator is where it is found |
| LegacyUtils.Children | src/main/java/com/excelsior/jet/Utils.java:54 | listFiles returns exactly the direct children present in the tree |
| LegacyUtils.CleanedIs | src/main/java/com/excelsior/jet/Utils.java:52-61 | a tree that keeps everything outside the directory and below it exactly what survives is the cleaned tree |
| LegacyUtils.ReachedViaChild | src/main/java/com/excelsior/jet/Utils.java:57-58 | the recursion reaches an entry below a child exactly when the recursion started at that child does |
| LegacyUtils.SurvivesViaChild | src/main/java/com/excelsior/jet/Utils.java:57-58 | an entry below a child survives the cleaning exactly when it survives the cleaning of that child |
| LegacyUtils.ReachedLocal | src/main/java/com/excelsior/jet/Utils.java:52-61 | what the recursion reaches depends only on the entries below its starting directory |
| LegacyUtils.SurvivesLocal | src/main/java/com/excelsior/jet/Utils.java:52-61 | what survives depends only on the entries below the starting directory |
| LegacyUtils.UnlistedUnreached | src/main/java/com/excelsior/jet/Utils.java:54-58 | an entry whose top directory is gone is not reached |
| LegacyUtils.ListingFailed | src/main/java/com/excelsior/jet/Utils.java:55-56 | when the listing fails, every entry below the directory survives |
| LegacyUtils.ChildSmaller | src/main/java/com/excelsior/jet/Utils.java:57-58 | the subtree of a child is strictly smaller, so the recursion ends |
| LegacyUtils.NotListable | src/main/java/com/excelsior/jet/Utils.java:53-60 | a plain file or missing entry: the delete removes exactly it when allowed, and nothing else changes |
| LegacyUtils.ChildStep | src/main/java/com/excelsior/jet/Utils.java:57-58 | cleaning one more child keeps the partial-cleaning invariant of the loop |
| LegacyUtils.AfterChildren | src/main/java/com/excelsior/jet/Utils.java:57-60 | once every child is cleaned, the final delete leaves exactly the cleaned tree |
| LegacyUtils.ListFiles | src/main/java/com/excelsior/jet/Utils.java:54 | the listing holds each direct child exactly once |
| LegacyUtils.CleanDirectory | src/main/java/com/excelsior/jet/Utils.java:52-61 | never throws; removes exactly the entries below the directory that are reached and hold nothing inaccessible, and changes nothing else |
| LegacyUtils.CleanChildren | src/main/java/com/excelsior/jet/Utils.java:57-58 | the loop over the listing, in reverse order, cleans every child |
| LegacyUtils.Reached | src/main/java/com/excelsior/jet/Utils.java:53-58 | the recursion reaches an entry when every directory on the way down exists, lists, and is accessible |
| LegacyUtils.Survives | src/main/java/com/excelsior/jet/Utils.java:52-61 | an entry stays when something at or below it is inaccessible or never reached |
| LegacyUtils.Cleaned | src/main/java/com/excelsior/jet/Utils.java:52-61 | the tree cleanDirectory leaves: everything outside the directory, and below it what survives (see CleanedIs) |
| Messages.GetStringIfExists | src/main/java/com/excelsiorjet/Messages.java:52-64 | nothing exactly when the id is missing; otherwise the trimmed value, without one pair of enclosing quotes when it has them |
| Messages.Format | src/main/java/com/excelsiorjet/Messages.java:40-47 | nothing exactly when the id is missing; the plain string without parameters, the formatted one with them |
| Messages.QuotedRoundTrip | src/main/java/com/excelsiorjet/Messages.java:59-62 | a quoted value with blank padding reads back as the text inside the quotes |
| Messages.PlainRoundTrip | src/main/java/com/excelsiorjet/Messages.java:59-62 | an unquoted value without blank ends reads back unchanged |
| Messages.OnePairOnly | src/main/java/com/excelsiorjet/Messages.java:60-61 | only one pair of quotes is removed |
| Messages.TrimPadded | src/main/java/com/excelsiorjet/Messages.java:59 | trimming removes blank padding on both sides and nothing more |
| Messages.TrimLeadingPad | src/main/java/com/excelsiorjet/Messages.java:59 | trimming removes leading blanks up to the first non-blank |
| Messages.TrimTrailingPad | src/main/java/com/excelsiorjet/Messages.java:59 | trimming removes trailing blanks back to the last non-blank |
| Messages.S | src/main/java/com/excelsior/jet/Txt.java:35-47 | a known id gives its formatted message; an unknown one logs that the message file is broken and gives the id, or, with no log, fails with IllegalStateException |
| AbstractJetMojo.ResolveJetHome | src/main/java/com/excelsiorjet/maven/plugin/AbstractJetMojo.java:159-166 | a home found is a supported JET installation; a given jetHome is accepted exactly when its check passes, and is then the home |
| AbstractJetMojo.Prerequisites | src/main/java/com/excelsiorjet/maven/plugin/AbstractJetMojo.java:139-169 | a missing jar fails first (bad packaging or jar not found), an empty main class next; passes exactly when the jar exists, the main class is set and the home resolves |
| AbstractJetMojo.CheckPrerequisites | src/main/java/com/excelsiorjet/maven/plugin/AbstractJetMojo.java:139-169 | the outcome is that of the prerequisites, and a missing jar's failure is also logged as an error |
| AbstractJetMojo.Mkdir | src/main/java/com/excelsiorjet/maven/plugin/AbstractJetMojo.java:171-178 | passes exactly when the directory exists afterwards; a failure names the directory with the DirCreate error; the tree is what File.mkdirs leaves (see Files.MadeDirs) |
| Files.MadeDirs | src/main/java/com/excelsiorjet/maven/plugin/AbstractJetMojo.java:172 | File.mkdirs: reports true exactly when the missing directory is made; only new directories are added, each at or above it and accessible; existing entries are kept |
| Files.MkdirsBelowFile | src/main/java/com/excelsiorjet/maven/plugin/AbstractJetMojo.java:172 | below a regular file, with nothing in between, File.mkdirs makes nothing and reports false |
| Files.MkdirsMakesChain | src/main/java/com/excelsiorjet/maven/plugin/AbstractJetMojo.java:172 | with nothing on the way present or inaccessible, File.mkdirs makes the directory and every directory above it |
| AbstractJetMojo.BuildDirBelowFileFails | src/main/java/com/excelsiorjet/maven/plugin/AbstractJetMojo.java:171-175 | when the output directory is a regular file, making the build directory leaves the tree unchanged and the build directory missing, so mkdir fails |
| AbstractJetMojo.BuildDirMadeWithParents | src/main/java/com/excelsiorjet/maven/plugin/AbstractJetMojo.java:171-178 | with nothing on the way present, making the build directory also makes the missing output directory |
| AbstractJetMojo.CopyEffect | src/main/java/com/excelsiorjet/maven/plugin/AbstractJetMojo.java:196-202 | copying when missing leaves an existing target; a plain copy onto an existing target fails; a copy has the source's kind and contents, and a copy without attributes is stamped with the clock |
| AbstractJetMojo.ApplyCopy | src/main/java/com/excelsiorjet/maven/plugin/AbstractJetMojo.java:196-202 | passes exactly when the copy succeeds, and the tree gets exactly the copy's effect |
| AbstractJetMojo.LibTarget | src/main/java/com/excelsiorjet/maven/plugin/AbstractJetMojo.java:223 | an artifact is staged inside the lib directory |
| AbstractJetMojo.StageLoop | src/main/java/com/excelsiorjet/maven/plugin/AbstractJetMojo.java:220-225 | the tree and records after the loop are those of the staging of the artifacts in order |
| AbstractJetMojo.PrefixedNothing | src/main/java/com/excelsiorjet/maven/plugin/AbstractJetMojo.java:217-227 | prefixing no records changes nothing |
| AbstractJetMojo.PrefixedTwice | src/main/java/com/excelsiorjet/maven/plugin/AbstractJetMojo.java:217-227 | prefixing records in two steps is prefixing them at once |
| AbstractJetMojo.StageDependencies | src/main/java/com/excelsiorjet/maven/plugin/AbstractJetMojo.java:214-231 | the tree and records, or the failure, are those of the staging specification |
| AbstractJetMojo.CopyDependencies | src/main/java/com/excelsiorjet/maven/plugin/AbstractJetMojo.java:214-231 | the staging specification with copies that skip unchanged targets and keep the source's attributes (the corrected copy), records prefixed with lib |
| AbstractJetMojo.FilesOf | src/main/java/com/excelsiorjet/maven/plugin/AbstractJetMojo.java:221 | the artifacts kept are among those given and are regular files |
| AbstractJetMojo.Records | src/main/java/com/excelsiorjet/maven/plugin/AbstractJetMojo.java:223-224 | one record per artifact, in order |
| AbstractJetMojo.RecordsCons | src/main/java/com/excelsiorjet/maven/plugin/AbstractJetMojo.java:223-224 | the records of a longer list start with the first artifact's record |
| AbstractJetMojo.StagingFrame | src/main/java/com/excelsiorjet/maven/plugin/AbstractJetMojo.java:220-225 | staging changes nothing outside the lib directory |
| AbstractJetMojo.StagingKeeps | src/main/java/com/excelsiorjet/maven/plugin/AbstractJetMojo.java:220-225 | staging removes nothing |
| AbstractJetMojo.StagedAreTheFiles | src/main/java/com/excelsiorjet/maven/plugin/AbstractJetMojo.java:220-225 | on success the records are those of exactly the artifacts that are regular files |
| AbstractJetMojo.FilesOfUnchanged | src/main/java/com/excelsiorjet/maven/plugin/AbstractJetMojo.java:221 | which artifacts are files does not depend on the lib directory |
| AbstractJetMojo.AllPresentIsNoOp | src/main/java/com/excelsiorjet/maven/plugin/AbstractJetMojo.java:198-203 | with every target present, copying when missing writes nothing and records every file |
| AbstractJetMojo.StagedTargetsExist | src/main/java/com/excelsiorjet/maven/plugin/AbstractJetMojo.java:220-225 | after a successful staging every file's target exists |
| AbstractJetMojo.StagingIfMissingSettles | src/main/java/com/excelsiorjet/maven/plugin/AbstractJetMojo.java:220-225 | staging again after a successful staging changes nothing and gives the same records |
| AbstractJetMojo.MainJarFirst | src/main/java/com/excelsiorjet/maven/plugin/AbstractJetMojo.java:219 | on success the main jar's name, as no library, is the first record |
| AbstractJetMojo.RecordIsRelative | src/main/java/com/excelsiorjet/maven/plugin/AbstractJetMojo.java:203 | an artifact's record is its target's path relative to the build directory |
| AbstractJetMojo.CopyDependencyAsWritten | src/main/java/com/excelsiorjet/maven/plugin/AbstractJetMojo.java:196-207 | a copy it makes is stamped with the clock |
| AbstractJetMojo.DependencyRecopiedAsWritten | src/main/java/com/excelsiorjet/maven/plugin/AbstractJetMojo.java:198-202 | a first copy whose time differs from the source's is copied again on the next run |
| AbstractJetMojo.DependencySettles | src/main/java/com/excelsiorjet/Utils.java:91-99 | after a copy that keeps the attributes, the next copy writes nothing |
| AbstractJetMojo.HomeFailure | src/main/java/com/excelsiorjet/maven/plugin/AbstractJetMojo.java:161-166 | a JetHomeException becomes a MojoFailureException with its key and arguments; the unchecked NullPointerException passes through |
| AbstractJetMojo.IsJarPackaging | src/main/java/com/excelsiorjet/maven/plugin/AbstractJetMojo.java:145 | the packaging equals `jar` ignoring case |
| AbstractJetMojo.MainJarMissing | src/main/java/com/excelsiorjet/maven/plugin/AbstractJetMojo.java:143-151 | BadPackaging naming the packaging when it is not `jar`, else MainJarNotFound naming the jar |
| AbstractJetMojo.StageArtifacts | src/main/java/com/excelsiorjet/maven/plugin/AbstractJetMojo.java:220-225 | the artifact loop: each regular file copied into `lib` under the policy and recorded; the first failed copy stops it (see StageLoop and StagedAreTheFiles) |
| AbstractJetMojo.CopyDependenciesSpec | src/main/java/com/excelsiorjet/maven/plugin/AbstractJetMojo.java:214-231 | `lib` made by File.mkdirs, main jar staged and recorded first, then the artifacts; the only failures are the DirCreate error naming `lib` and one ErrorCopyingDependency for any failed copy (the specification CopyDependencies meets) |
| SlimDown.Enabling | src/main/java/com/excelsiorjet/maven/plugin/SlimDownConfig.java:62-65 | off by default; an empty component list alone leaves it off; a package name or base URL alone turns it on; a component list turns it on exactly when non-empty |
| SlimDown.SlimDownConfig.IsEnabled | src/main/java/com/excelsiorjet/maven/plugin/SlimDownConfig.java:62-65 | a non-empty component list, a base URL or a package name (see Enabling) |
| TestRunMojo.RootSubstituted | src/main/java/com/excelsiorjet/maven/plugin/TestRunMojo.java:143-146 | one argument per JVM argument, in order, each with every `$(Root)` replaced by the build directory |
| TestRunMojo.TestRunArgs | src/main/java/com/excelsiorjet/maven/plugin/TestRunMojo.java:135-151 | the profile options, then the JVM arguments, then `-cp`, the class path and the main class |
| TestRunMojo.FinishEntry | src/main/java/com/excelsiorjet/maven/plugin/TestRunMojo.java:160-165 | the finish message with the exit code, a warning exactly when the code is nonzero and information otherwise |
| TestRunMojo.RunLog | src/main/java/com/excelsiorjet/maven/plugin/TestRunMojo.java:157-165 | the start line with the command line first; a run that cannot start logs nothing more; an exited run logs its output and then the finish line |
| TestRunMojo.QuotedRoundTrip | src/main/java/com/excelsiorjet/maven/plugin/TestRunMojo.java:153-155 | an argument without a space is shown as it is, one with a space in double quotes, and removing the quotes gives the argument back |
| TestRunMojo.CommandLineSplits | src/main/java/com/excelsiorjet/maven/plugin/TestRunMojo.java:153-155 | a command line of arguments without spaces splits at its spaces back into the arguments |
| TestRunMojo.ClasspathSplits | src/main/java/com/excelsiorjet/maven/plugin/TestRunMojo.java:149-150 | the class path splits at the path separator back into the dependency paths |
| TestRunMojo.RootMacroReplaced | src/main/java/com/excelsiorjet/maven/plugin/TestRunMojo.java:144 | an argument without the macro is unchanged; at the first occurrence the macro is replaced by the build directory and the replacing goes on after it |
| TestRunMojo.TestRunMojo.constructor | src/main/java/com/excelsiorjet/maven/plugin/TestRunMojo.java:73 | the goal holds the given project, parameters and log |
| TestRunMojo.TestRunMojo.StagedBuild | src/main/java/com/excelsiorjet/maven/plugin/TestRunMojo.java:122-124 | a build directory that File.mkdirs cannot make fails with the directory-creation error, keeping the directories made on the way; a successful staging lists the main jar first |
| TestRunMojo.TestRunMojo.Launch | src/main/java/com/excelsiorjet/maven/plugin/TestRunMojo.java:133-151 | xjava from the JET home, run in the build directory |
| TestRunMojo.TestRunMojo.Execute | src/main/java/com/excelsiorjet/maven/plugin/TestRunMojo.java:117-169 | a failed check or staging is reported with no launch; at most one launch, the xjava run with the staged class path; its command line and output are logged; a run that cannot start fails the goal, and an exited run ends it normally whatever its exit code |
| TestRunMojo.TestRunMojo.Prepare | src/main/java/com/excelsiorjet/maven/plugin/TestRunMojo.java:121-131 | the staging's failure, tree and log when it fails; on success: passes iff the profile directory exists, else the DirCreate error; outside the build directory staged entries are kept and only the profile directory and its missing parents are added; without a package files directory the tree is the staged one plus that mkdir; a successful mirror leaves every package file mirrored with its time, a failed one logs one warning |
| TestRunMojo.TestRunMojo.StageAndRun | src/main/java/com/excelsiorjet/maven/plugin/TestRunMojo.java:121-168 | a failed staging is returned with the staged tree and nothing launched; at most one launch, which is the xjava run over the staged class path with its run log appended; a start failure is reported, an exit keeps the run's writes; no error only after a launch |
| TestRunMojo.TestRunMojo.RunStaged | src/main/java/com/excelsiorjet/maven/plugin/TestRunMojo.java:133-168 | a failed bitness query (JetHomeException) throws MojoFailureException with its message and launches nothing; otherwise at most one launch, over the given dependencies, with the run log appended, a start failure reported and an exit keeping the run's writes |
| TestRunMojo.ProfilesMadeAfterMirror | src/main/java/com/excelsiorjet/maven/plugin/TestRunMojo.java:126-131 | when the package-files step changed nothing outside the build directory, making the profile directory afterwards keeps every staged entry there and adds only fresh directories at or above the profile directory |
| TestRunMojo.TestRunMojo.CopyExtraPackageFiles | src/main/java/com/excelsiorjet/maven/plugin/TestRunMojo.java:75-115 | nothing outside the build directory changes; a successful mirror copies every reachable package file and logs nothing; a failed one logs one warning |
| TestRunMojo.TestRunMojo.Run | src/main/java/com/excelsiorjet/maven/plugin/TestRunMojo.java:142-168 | a null JVM argument array throws NullPointerException before the launch; otherwise one launch, the run log appended, a start failure reported, an exit keeping the run's writes |
| TestRunMojo.TestRunMojo.CommandArgs | src/main/java/com/excelsiorjet/maven/plugin/TestRunMojo.java:143-151 | the xjava executable followed by the launch's arguments |
| TestRunMojo.ArgsAssembled | src/main/java/com/excelsiorjet/maven/plugin/TestRunMojo.java:143-151 | the arguments added one after another form the executable followed by the launch's arguments |
| TestRunMojo.RunLogAppended | src/main/java/com/excelsiorjet/maven/plugin/TestRunMojo.java:157-165 | the lines logged one after another form the run log |
| TestRunMojo.Classpath | src/main/java/com/excelsiorjet/maven/plugin/TestRunMojo.java:148-150 | the staged paths joined with the path separator (see ClasspathSplits) |
| TestRunMojo.XJavaExecutable | src/main/java/com/excelsiorjet/XJava.java:31-35 | the host-named `xjava` executable in the home's `bin` |
| TestRunMojo.Quoted | src/main/java/com/excelsiorjet/maven/plugin/TestRunMojo.java:154 | an argument holding a space in double quotes, any other as it is (see QuotedRoundTrip) |
| TestRunMojo.Unquoted | src/main/java/com/excelsiorjet/maven/plugin/TestRunMojo.java:153-155 | the inverse of Quoted on shown arguments, the partner QuotedRoundTrip pairs it with |
| TestRunMojo.CommandLine | src/main/java/com/excelsiorjet/maven/plugin/TestRunMojo.java:153-155 | the shown arguments joined with spaces (see CommandLineSplits) |
| TestRunMojo.CopyWarning | src/main/java/com/excelsiorjet/maven/plugin/TestRunMojo.java:112-114 | the ErrorWhileCopying warning naming the source, the target and the message |
| TestRunProfiles.NewTestRunExecProfiles | src/main/java/com/excelsiorjet/TestRunExecProfiles.java:36-39 | the usage profile is outputName.usg and the startup profile outputName.startup in the output directory |
| TestRunProfiles.ProfilesDistinct | src/main/java/com/excelsiorjet/TestRunExecProfiles.java:36-39 | both profiles lie inside the output directory, carry their suffixes and are different files |
| TomcatConfig.TomcatHomeChoice | src/main/java/com/excelsiorjet/maven/plugin/TomcatConfig.java:55-64 | the given home when not empty, else the tomcat.home property, else TOMCAT_HOME, else CATALINA_HOME, each only when the ones before are empty |
| TomcatConfig.WarName | src/main/java/com/excelsiorjet/maven/plugin/TomcatConfig.java:78-80 | an empty name is kept; any other ends with .war, starts with the name, and is unchanged when it already ends with .war |
| TomcatConfig.CheckTomcatHome | src/main/java/com/excelsiorjet/maven/plugin/TomcatConfig.java:66-76 | passes exactly when the home is set, exists and holds a webapps directory |
| TomcatConfig.TomcatConfig.constructor | src/main/java/com/excelsiorjet/maven/plugin/TomcatConfig.java:25-52 | no home and no war name; configuration not hidden; scripts generated |
| TomcatConfig.TomcatConfig.FillDefaults | src/main/java/com/excelsiorjet/maven/plugin/TomcatConfig.java:54-81 | the home is the chosen one, the outcome is its check, the war name gets its suffix only when the check passed, and the two flags are unchanged |
| TomcatConfig.TomcatHomeChoiceIdempotent | src/main/java/com/excelsiorjet/maven/plugin/TomcatConfig.java:55-64 | choosing again from the chosen home changes nothing |
| TomcatConfig.WarNameIdempotent | src/main/java/com/excelsiorjet/maven/plugin/TomcatConfig.java:78-80 | adding the suffix twice is adding it once |
| TomcatConfig.NoSourceFails | src/main/java/com/excelsiorjet/maven/plugin/TomcatConfig.java:66-68 | with no home from any source the check fails with the not-specified failure |
| TrialVersion.TrialVersionConfig.GetExpire | src/main/java/com/excelsiorjet/maven/plugin/TrialVersionConfig.java:53-59 | a non-negative day count is given as its decimal text, which reads back as the count; otherwise the expiry date; a value exactly when the feature is enabled |
| TrialVersion.DefaultDisabled | src/main/java/com/excelsiorjet/maven/plugin/TrialVersionConfig.java:34-59 | off by default with no expiry; a date alone is the expiry; a day count wins over a date |
| TrialVersion.TrialVersionConfig.IsEnabled | src/main/java/com/excelsiorjet/maven/plugin/TrialVersionConfig.java:49-51 | a day count of zero or more, or a date (GetExpire is set exactly then) |
| Utils.WindowsHost | src/main/java/com/excelsiorjet/Utils.java:30-32 | a Windows os.name is recognised as Windows |
| Utils.WindowsNotLinux | src/main/java/com/excelsiorjet/Utils.java:34-36 | a Windows os.name is not Linux |
| Utils.WindowsNotOSX | src/main/java/com/excelsiorjet/Utils.java:38-40 | a Windows os.name is not OS X |
| Utils.LinuxHost | src/main/java/com/excelsiorjet/Utils.java:30-36 | a Linux os.name is Linux and not Windows |
| Utils.OSXHost | src/main/java/com/excelsiorjet/Utils.java:30-40 | a Mac OS X os.name is OS X and not Windows |
| Utils.NotContainsShort | src/main/java/com/excelsiorjet/Utils.java:30-40 | a text lacking the first character of a name does not contain the name |
| Utils.ExeFileExtension | src/main/java/com/excelsiorjet/Utils.java:46-48 | .exe exactly on Windows, nothing elsewhere |
| Utils.MangleExeName | src/main/java/com/excelsiorjet/Utils.java:50-52 | the name followed by the platform's executable extension |
| Utils.MangleExeNameInjective | src/main/java/com/excelsiorjet/Utils.java:50-52 | two names give the same executable name only when they are equal |
| Utils.Apply | src/main/java/com/excelsiorjet/Utils.java:91-99 | the written entry is at its path and nothing else changes |
| Utils.CopyFileEffect | src/main/java/com/excelsiorjet/Utils.java:91-99 | leaves the target alone exactly when it exists with the source's modification time; otherwise an identical copy, failing only when source or target is inaccessible |
| Utils.CopyFileSyncsTimes | src/main/java/com/excelsiorjet/Utils.java:91-99 | after a copy the target has the source's modification time |
| Utils.CopyFileIdempotent | src/main/java/com/excelsiorjet/Utils.java:91-99 | copying again after a copy writes nothing |
| Utils.CopyFile | src/main/java/com/excelsiorjet/Utils.java:91-99 | passes exactly when the copy succeeds, and the tree gets exactly its effect |
| Utils.PrefixOfPrefix | src/main/java/com/excelsiorjet/Utils.java:101-127 | of two prefixes of one path, the shorter is a prefix of the longer |
| Utils.SeparatedCovers | src/main/java/com/excelsiorjet/Utils.java:101-127 | a path starting with a directory and a separator lies at or below it |
| Utils.CoversTrans | src/main/java/com/excelsiorjet/Utils.java:101-127 | lying below is transitive |
| Utils.CoversOverlap | src/main/java/com/excelsiorjet/Utils.java:101-127 | two directories with a common entry below both are nested |
| Utils.CoversDisjoint | src/main/java/com/excelsiorjet/Utils.java:101-127 | nothing below one of two unnested directories lies below the other |
| Utils.RebaseCovers | src/main/java/com/excelsiorjet/Utils.java:106-112 | a path below the source maps below the target, and maps back |
| Utils.RebaseInjective | src/main/java/com/excelsiorjet/Utils.java:106-112 | different paths below the source map to different targets |
| Utils.Walk | src/main/java/com/excelsiorjet/Utils.java:102 | the walk visits only entries at or below its root |
| Utils.MirrorEffectLocal | src/main/java/com/excelsiorjet/Utils.java:104-115 | one visit depends only on the visited entry and its mirror |
| Utils.RebaseOrigin | src/main/java/com/excelsiorjet/Utils.java:106-112 | mapping a target path back and forth gives it again |
| Utils.MirrorUntouched | src/main/java/com/excelsiorjet/Utils.java:101-127 | entries not yet visited keep their contents |
| Utils.MirrorStep | src/main/java/com/excelsiorjet/Utils.java:104-115 | one successful visit extends the mirrored part by that entry |
| Utils.MirrorOne | src/main/java/com/excelsiorjet/Utils.java:104-115 | passes exactly when the visit succeeds; then one more entry is mirrored, else nothing changes |
| Utils.MirrorFrame | src/main/java/com/excelsiorjet/Utils.java:101-127 | mirroring changes nothing outside the target |
| Utils.MirrorVisits | src/main/java/com/excelsiorjet/Utils.java:101-127 | passes exactly when every visit succeeds, mirrors them all, and changes nothing outside the target |
| Utils.MirrorDirectory | src/main/java/com/excelsiorjet/Utils.java:101-127 | a missing source changes nothing; otherwise passes exactly when every visit succeeds, and then mirrors the whole walk, changing nothing outside the target |
| Utils.CopyDirectory | src/main/java/com/excelsiorjet/Utils.java:101-127 | a missing source fails; otherwise passes exactly when the mirror succeeds, which then covers the whole walk |
| Utils.MirroredCopies | src/main/java/com/excelsiorjet/Utils.java:104-115 | after a successful mirror each visited directory has its mirror directory and each file a copy with the same time |
| Utils.MirroredAllIsMirrored | src/main/java/com/excelsiorjet/Utils.java:104-115 | after a successful mirror every visited entry has its mirror: a directory as a directory, a file with the same time |
| Utils.MirrorAgainIsNoOp | src/main/java/com/excelsiorjet/Utils.java:104-115 | after a successful mirror a second copy of any file writes nothing |
| Utils.LongestExists | src/main/java/com/excelsiorjet/Utils.java:54-89 | a non-empty set of paths has a longest member |
| Utils.NothingBelowDeepest | src/main/java/com/excelsiorjet/Utils.java:54-89 | nothing is left below the deepest remaining entry |
| Utils.DeleteDeepest | src/main/java/com/excelsiorjet/Utils.java:61-67 | removes the deepest remaining entry when it can be deleted, else changes nothing |
| Utils.CleanDirectory | src/main/java/com/excelsiorjet/Utils.java:54-89 | succeeds exactly when every entry at or below the directory can be deleted, and then removes them all; otherwise fails naming an inaccessible file, or the root when a directory cannot be walked; removes nothing else and changes no entry |
| Utils.IsWindows | src/main/java/com/excelsiorjet/Utils.java:30-32 | os.name contains `Windows` (see HostTestsAreSubstringTests) |
| Utils.IsLinux | src/main/java/com/excelsiorjet/Utils.java:34-36 | os.name contains `Linux` |
| Utils.IsOSX | src/main/java/com/excelsiorjet/Utils.java:38-40 | os.name contains `OS X` |
| Utils.IsUnix | src/main/java/com/excelsiorjet/Utils.java:42-44 | Linux or OS X |
| Utils.HostTestsAreSubstringTests | src/main/java/com/excelsiorjet/Utils.java:30-44 | each host test is a substring test: it survives any text around os.name, and Unix is exactly Linux or OS X |
| Utils.IsEmpty | src/main/java/com/excelsiorjet/Utils.java:129-131 | null or zero length |
| XJava.TestRunArgs | src/main/java/com/excelsiorjet/XJava.java:37-43 | the startup profile option always, and the usage list option exactly on a 32-bit runtime |
| XJava.XJava.constructor | src/main/java/com/excelsiorjet/XJava.java:33-35 | the command line starts with the xjava executable, then the given arguments |
| XJava.XJava.Arg | src/main/java/com/excelsiorjet/maven/plugin/TestRunMojo.java:148-151 | appends one argument and returns the same tool |
| XJava.XJava.AddArgs | src/main/java/com/excelsiorjet/maven/plugin/TestRunMojo.java:143-146 | appends the arguments in order and returns the same tool |
| XJava.XJava.AddTestRunArgs | src/main/java/com/excelsiorjet/XJava.java:37-43 | the arguments given before stay first, then the test-run options; returns the same tool |

## Left out

- **Processes.** The reader threads of `CmdLineTool` (`OutputReader`, `waitFor`, `join`) and real process execution are not modelled. A launch's output lines, exit code and written files are inputs (`launch`). Interrupts appear as a launch that fails.
- **Files not part of this model.** These are: `JetCompiler`, `JetPackager`, `com.excelsiorjet.JetTool` (which locates `xjava`), the older `com.excelsior.jet.JetHome`, and the older `compressZipfile` helper. The older goal therefore takes two inputs: the outcome of locating the home, and the outcome of zipping. That zip records no archive.
- **Edition and bitness.** `JetHome.getEdition()` and `JetHome.is64bit()` are called but have no definition in `JetHome.java`. The edition and the bitness are inputs.
- **Message wording.** `MessageFormat` with parameters and the `ResourceBundle` files are not modelled. A message is its key followed by its arguments (`Mojo.MessageText`). The `Locale.setDefault` side effect of the `Messages` constructors is left out.
- **Copyright year.** The current year (`SimpleDateFormat("yyyy")` on the clock) is a parameter of the mojo.
- **Exit codes** are formatted in decimal by `JavaLang.IntToString`.
- **Character handling** is ASCII only: `toUpperCase`, the case-insensitive environment match and the digit tests of `Integer.parseInt`/`Integer.decode`.
- **Zip contents.** The bytes of a zip are not modelled. Only the entries' names and Unix modes are.
- **The Excelsior Installer and the compiled executable** are what the tools write. They are opaque inputs.
- **Overlapping trees.** Copying and mirroring a directory require disjoint source and target trees, because Java's result on overlapping trees depends on walk order. This requirement covers `Utils.CopyDirectory`, `TestRunMojo.TestRunMojo.CopyExtraPackageFiles`, `TestRunMojo.TestRunMojo.Prepare`, `TestRunMojo.TestRunMojo.StageAndRun` and `TestRunMojo.TestRunMojo.Execute`: `packageFilesDir` and the build directory must not contain each other.
- **Listing order** is an input (`Host.listings`) only where it decides the result: `JetHome` reading the version marker. `LegacyUtils.ListFiles` returns the children in an arbitrary order, and the contract of `LegacyUtils.CleanDirectory` holds for every order. The other walks are specified entry by entry and do not depend on order.
- **Overwriting a non-empty directory** with a file (`DirectoryNotEmptyException`) is not modelled.
- **Per-entry warnings of `copyExtraPackageFiles`.** The warning is logged for a failed mirror as a whole. The per-entry `CannotCopyPackageFile` warnings for unreadable entries are not modelled.
- **Maven glue.** `BuildMojo`, `CliBuildMojo`, `CleanMojo`, `CliTestRunMojo`, `RunMojo`, `StopMojo`, `ProfileMojo`, `CliProfileMojo`, `MavenLog` and `MavenArtifact` only delegate. `OSXAppBundleConfig` only has field defaults. The sample applications and the PHP README template are not plugin logic.
- **Corrected behaviour in the shipped model.** Each finding below has an as-written member and a corrected one. The members that the goals are built from use the corrected one. The lines below name every member that therefore promises the corrected behaviour rather than what the source does.
- EncodingDetector.DetectFileEncoding: classifies with the corrected `DetectEncoding`, so a file holding only `FF FE` gives UTF-16LE. The source pads the buffer with zeros and gives UTF-32LE. `DetectEncodingAsWritten` and `BareUtf16LeMarkAsWritten` state the source's result. It also reports a read failure with the path as given, not `getAbsolutePath()`.
- InstallerConfig.ExcelsiorInstallerConfig.EulaFlagOf: inherits the corrected detection, so a licence file holding only `FF FE` gives `-unicode-eula`. In the source the detected UTF-32LE makes `eulaFlag` fail with the unsupported-encoding error.
- JetHome.ResolveDefault: scans PATH with the corrected `PathEntryHome`. For a relative entry such as `bin` that is a JET bin directory, it returns the working directory, where the source throws NullPointerException. `ResolveDefaultAsWritten`, `ScanPathAsWritten` and `NullParentAsWritten` state the source's result.
- JetHome.EntryHomes: applies the corrected `PathEntryHome` to each entry, so no entry gives the NullPointerException of the source.
- JetHome.ScanPathEntries: its loop applies the corrected `PathEntryHome`, so the NullPointerException of the source is not raised.
- JetHome.DetectJetHome: is specified by the corrected `ResolveDefault`, with the same difference.
- AbstractJetMojo.ResolveJetHome: detects the home with the corrected `ResolveDefault`, with the same difference.
- AbstractJetMojo.Prerequisites: its home is that of the corrected `ResolveJetHome`.
- AbstractJetMojo.CheckPrerequisites: its home is that of the corrected `ResolveJetHome`.
- JetMojoSettings.HomeChecked: its home is that of the corrected `ResolveJetHome`.
- JetMojoSettings.PrerequisitesChecked: its home is that of the corrected `ResolveJetHome`.
- JetMojo.JetMojo.CheckHome: its home is that of the corrected `ResolveJetHome`.
- JetMojo.JetMojo.CheckPrerequisites: its home is that of the corrected `ResolveJetHome`.
- AbstractJetMojo.CopyDependencies: stages with the policy of `Utils.copyFile`, which keeps the source's timestamp. The source's `copyDependency` copies without COPY_ATTRIBUTES, so its copies carry the clock's time and are copied again on every later run. `CopyDependencyAsWritten` and `DependencyRecopiedAsWritten` state the source's result.
- TestRunMojo.TestRunMojo.StagedBuild: stages through the corrected `AbstractJetMojo.CopyDependencies`, with the same difference.
- TestRunMojo.TestRunMojo.Prepare: is specified by `StagedBuild`, with the same difference.
- TestRunMojo.TestRunMojo.StageAndRun: is specified by `StagedBuild`, with the same difference.
- LegacyJetMojo.JetMojo.CopyDependencies: copies the main jar only when it is missing. The source always copies and, without REPLACE_EXISTING, fails on a second build with the dependency-copy error. `RestagingFailsAsWritten` states the source's result. The correction keeps an existing main jar, even a stale one left from an earlier build.
- **Parents of new entries.** Paths are in normal form, and a tree may hold an entry whose parent is absent. Only `Files.MadeDirs` (File.mkdirs) checks and makes parents.
- Files.CopyNode: does not check the target's parent. `Files.copy` fails with NoSuchFileException when the parent directory is missing; the model's copy succeeds. The same holds for Files.FileSystem.Copy, which applies it.
- Files.DirectoryNode: makes only the directory itself. `Files.createDirectories` also makes missing parents and fails below a regular file. In the mirror walk each directory's parent is visited first, so this matters only above the target root. The same holds for Files.FileSystem.CreateDirectories.
- LegacyJetMojo.JetMojo.CopyDependencies: with a regular file at `jetOutputDir`, the ignored `mkdirs` of lines 143-145 makes nothing, and the source's `Files.copy` at line 152 fails with NoSuchFileException, which becomes the dependency-copy error. The model's copy succeeds, because of the Files.CopyNode line above.
- LegacyJetMojo.StagingSpec: the same input as the line above succeeds in the model.
- InstallerConfig.ExcelsiorInstallerConfig.FillDefaults: fills in `eula.txt` as the licence default, the corrected half of the finding below. The source fills in `icon.ico`; `DefaultEulaIsIconAsWritten` states that default.
- JetMojo.JetMojo.Execute: its contract states the failure of the prerequisite checks exactly. For the later stages it states the first launch, which is the compiler with the staged jar first, and what success leaves behind. Each stage's contract states the exact tree and log. Its home comes from the corrected `ResolveJetHome`.
- JetMojo.JetMojo.Produce: states the compiler launch, the error logged for an unexpected failure, and the success condition. The exact log is left to `Build`, `Compile` and `PackageBuild`.
- JetMojo.JetMojo.Prepare: states the possible errors and the main jar's place in the list. `CopyDependencies` states the exact staging. A failed clean names either the application directory or an entry that cannot be deleted. Which one depends on the walk order, which is not modelled.
- JetMojo.JetMojo.Build: states the compiler invocation and the success condition. The packaging stage is stated by `PackageBuild`.
- JetMojo.JetMojo.InstallerApp: states the packager launch and the success log. The exact packager arguments are stated by `PackWithEI`.
- LegacyJetMojo.JetMojo.Execute: states the prerequisite failures, the staging, and the number and order of launches. The exact log of each step is stated by `RunStep` and `Finish`. Its staging copies the main jar only when it is missing, as `CopyDependencies` does, and succeeds with a regular file at `jetOutputDir`, where the source fails (see `LegacyJetMojo.JetMojo.CopyDependencies`).
- LegacyJetMojo.JetMojo.BuildApp: states the two invocations and when the second happens. The log is left to `RunStep` and `Finish`.
- TestRunMojo.TestRunMojo.Execute: states the prerequisite and staging failures exactly. The launch and its log are stated by `Run`. Its home comes from the corrected `ResolveJetHome`, and its staging keeps timestamps as `StagedBuild` does.
- TestRunMojo.TestRunMojo.CopyExtraPackageFiles: states that a failed mirror logs one warning, but does not pin down its message. The exception text comes from the JVM.
- Utils.CleanDirectory: which entry a failure names depends on the walk order. The model names the first entry it finds, in deepest-first order, that cannot be deleted. It names the root when that entry is a directory, and the entry itself when it is a file.

## Findings

| source | as written | input that shows it | evidently intended | confidence | as-written member | corrected member |
|---|---|---|---|---|---|---|
| src/main/java/com/excelsiorjet/maven/plugin/AbstractJetMojo.java:196-207 | `copyDependency` copies with `Files.copy` and `REPLACE_EXISTING` but without `COPY_ATTRIBUTES`. The copy is stamped with the current time, so the mtime test finds it changed on every later run. | a dependency whose mtime differs from the time it is copied, staged twice | copy only missing or changed files, as `Utils.copyFile` does with `COPY_ATTRIBUTES` (src/main/java/com/excelsiorjet/Utils.java:91-99), so that a second staging copies nothing | not executed | AbstractJetMojo.DependencyRecopiedAsWritten | AbstractJetMojo.DependencySettles |
| src/main/java/com/excelsiorjet/JetHome.java:117-123 | each `PATH` entry is used as given. For a relative entry `bin`, `getParentFile()` is null, and the constructor fails with a `NullPointerException`. | `PATH` = `bin`, with the working directory a valid JET home | resolve the entry against the working directory before taking its parent | not executed | JetHome.NullParentAsWritten | JetHome.RelativeBinEntryFound |
| src/main/java/com/excelsiorjet/maven/plugin/EncodingDetector.java:29-31 | the 4-byte buffer is read with `IOUtils.readFully` into zeros. A 2-byte file `FF FE` looks like `FF FE 00 00`, which is the UTF-32LE mark. | a EULA file holding only the bytes FF FE | a UTF-16LE mark with no further bytes is UTF-16LE | not executed | EncodingDetector.BareUtf16LeMarkAsWritten | EncodingDetector.Utf16LeMarkDecides |
| src/main/java/com/excelsior/jet/maven/plugin/JetMojo.java:152 | the main jar is copied with `Files.copy` without `REPLACE_EXISTING`. A second build without a clean finds the copy there and fails with the dependency-copy error. | running the older `build` goal twice on the same output directory | a second build succeeds; the model copies the main jar only when it is missing, as the artifacts are copied at line 158, which keeps a stale jar (copying with REPLACE_EXISTING would refresh it instead) | not executed | LegacyJetMojo.RestagingFailsAsWritten | LegacyJetMojo.RestagingSettles |
| src/main/java/com/excelsiorjet/maven/plugin/ExcelsiorInstallerConfig.java:96-98 | `fillDefaults` sets a missing licence file to `src/main/jetresources/icon.ico`, the application icon. | no `eula` parameter set, with both `icon.ico` and `eula.txt` present in the project's JET resources: the icon is passed to the packager as the licence | the conventional `eula.txt`, as the parameter's documentation says at lines 55-59 and as the `build` goal's `eula` parameter defaults at src/main/java/com/excelsiorjet/maven/plugin/JetMojo.java:206 | not executed | InstallerConfig.DefaultEulaIsIconAsWritten | InstallerConfig.DefaultEulaIsLicenceText |
