# selfupdate-script builder, modelled in Dafny

`selfupdate-script` wraps a shell script (the payload) into a self-updating
script. The builder is one command action in `src/js/index.mjs`. It works in
these steps:

1. It checks the payload path.
2. It decides the output path: `--out` as given, `--out` as a directory, or
   the project's `build` directory.
3. It reads the template `src/scripts/updater.sh`.
4. It rewrites the template's first `version=...` line and its first
   `updateUrl="..."` line when `--update-version` and `--update-url` are given.
5. It replaces the template text from the first BEGIN marker up to the first
   END marker (the cuts are at the markers, not at line boundaries). In its
   place go the BEGIN marker, a newline, the payload verbatim and a newline.
6. It writes the result and reports where it went.

The project models that action, together with the project-root derivation
at `src/js/index.mjs:19`. The model has five modules:

- `TextSearch` (`text.dfy`): the JavaScript string operations the action uses.
  - `indexOf`, which returns -1 when the text is missing.
  - `substring`, which clamps its indices and swaps them when out of order.
  - `replace` with a string pattern, which replaces only the first occurrence.
- `LineFields` (`lines.dfy`): `replace` with the multiline regular expressions
  `/^version=.*$/m` and `/^updateUrl=".*"$/m`.
  - The search tries each index in turn, as the engine does. It stops at the
    first line start whose whole line the pattern matches.
  - `FieldValue` reads back the raw text of a field line. It stands in for
    what the wrapper's `--version` and `--get-url` report; that shell code is
    not part of this model.
- `MarkerSplice` (`splice.dfy`): the splice, written as the JavaScript
  expression (`Splice`).
  - `SpliceBetween` is a three-part form of the same splice, and `SpliceShape`
    proves the two equal.
  - `Embedded` is the reading side: the payload a wrapper carries.
- `Paths` (`paths.dfy`): the project root, `path.basename` and `path.dirname`
  (POSIX behaviour), and a snapshot of the file system.
- `Builder` (`builder.dfy`): the action.
  - `Run` threads the locals of the callback step by step. Its helper
    `ResolveOutput` decides the output path, and its helper `Build` produces
    the wrapper's content.
  - Each is proved against the specification functions `OutputPath`,
    `Render` and `UrlWarning`.
  - Lemmas say what the wrapper holds end to end.

The file system, the contents of the two files read and whether `new URL`
accepts the update URL are parameters. The side effects are part of the
returned `Outcome`: whether the build directory is recreated, the warning,
the output path and content, and the final message.

A missing marker is modelled as the code handles it, not excluded by a
precondition. `indexOf` gives -1, and `substring(0, -1)` then gives nothing
before the BEGIN marker. `substring(-1)` likewise gives the whole template
after the payload. The shape lemmas state this case too.

## Model

| member | source | states |
|---|---|---|
| TextSearch.IndexOf | src/js/index.mjs:69-70 | `indexOf` finds a marker exactly when the text contains it, at an occurrence, with no occurrence before it |
| TextSearch.JsSubstring | src/js/index.mjs:72-76 | `substring` is the plain slice when its indices are in order and in range, and never longer than the text |
| TextSearch.ReplaceFirst | src/js/index.mjs:19 | replacing a string that does not occur leaves the text unchanged; otherwise the replacement takes the place of its first occurrence, which `IndexOf` pins down, and the rest is kept |
| TextSearch.ReplaceFirstAt | src/js/index.mjs:19 | for any occurrence with none before it, the result keeps the text before it, holds the replacement in its place and keeps the text after it |
| TextSearch.IndexOfAfterPrefix | src/js/index.mjs:69-70 | in front text that holds no occurrence and cannot start one, the first occurrence is the one in the rest, shifted by the front text's length |
| TextSearch.NotContainsConcat | src/js/index.mjs:72-76 | joining two texts without an occurrence makes none, when a character at the seam is not in the pattern |
| LineFields.Assignment | src/js/index.mjs:56-64 | the line written for a value is matched by its pattern and reads back as the value, and has no terminator when the value has none |
| LineFields.PatternsExclusive | src/js/index.mjs:56-64 | no line is matched by both the version pattern and the URL pattern |
| LineFields.FirstMatch | src/js/index.mjs:56-64 | the regular expression's search stops at the least index where `^` holds and the pattern matches the whole line, or reports no match when none does |
| LineFields.FieldValue | test/testBuilder.mjs:83-89 | a field reads back exactly when some line matches its pattern |
| LineFields.ReplacedLine | src/js/index.mjs:55-57 | the substitution replaces exactly the first whole line the pattern matches and keeps the text before it and from its terminator on |
| LineFields.ReplaceCons | src/js/index.mjs:56-64 | on a line, a terminator and the rest, the line is replaced when it matches, and otherwise the substitution happens in the rest |
| LineFields.FieldValueCons | test/testBuilder.mjs:83-89 | the field of a line, a terminator and the rest is the line's own when it matches, and otherwise that of the rest |
| LineFields.ReplaceWithoutLine | src/js/index.mjs:55-57 | when no line matches, the substitution changes nothing |
| LineFields.FieldRoundTrip | src/js/index.mjs:55-57 | when some line matches the pattern and the value has no line terminator, the field reads back as the substituted value after the substitution |
| LineFields.ReplaceIdempotent | src/js/index.mjs:55-65 | for a value without a line terminator, substituting it twice gives what substituting once gives |
| LineFields.ReplaceKeepsOtherField | src/js/index.mjs:55-65 | for a value without a line terminator, substituting one field leaves the other field's value as it was |
| LineFields.FieldValueAppend | src/js/index.mjs:55-65 | in a text of whole lines (ending on a terminator, or empty) followed by more text, a field found in the first part is read there, and otherwise from the rest |
| LineFields.ReplaceFirstLineAppend | src/js/index.mjs:55-65 | a substitution whose first matching line lies in a text of whole lines leaves the text after it untouched |
| LineFields.ReplaceKeepsEndsLine | src/js/index.mjs:55-65 | a substitution keeps a text of whole lines a text of whole lines |
| LineFields.ReplaceIntroducesNoOccurrence | src/js/index.mjs:55-65 | a substitution brings in no text without line terminators, such as a marker, that neither the text nor the replacement line holds |
| MarkerSplice.MarkersAreLines | src/js/index.mjs:67-68 | each marker literal has no line terminator, and they are 47 and 45 characters long |
| MarkerSplice.SpliceShape | src/js/index.mjs:72-76 | the wrapper is the text before the first BEGIN marker, the marker, a newline, the payload, a newline and the text from the first END marker on; the text between the markers is dropped, and a missing marker gives nothing before it or the whole template after it |
| MarkerSplice.BeforeIsSubstring | src/js/index.mjs:73 | `substring(0, start)` is the text before the BEGIN marker, or nothing when `start` is -1 |
| MarkerSplice.FromIsSubstring | src/js/index.mjs:76 | `substring(stop)` is the text from the END marker on, or the whole template when `stop` is -1 |
| MarkerSplice.SpliceLayout | src/js/index.mjs:67-76 | with the markers in order, the wrapper holds at known indices the template before the BEGIN marker, the marker, a newline, the payload verbatim, exactly one newline, and the template from the END marker on |
| MarkerSplice.Embedded | src/js/index.mjs:72-76 | a payload is read back only from a text whose markers are in order |
| MarkerSplice.EmbeddedRoundTrip | src/js/index.mjs:67-76 | the payload reads back from the wrapper unchanged, when it holds no END marker, and the wrapper again has its markers in order |
| MarkerSplice.SpliceReplacesPayload | src/js/index.mjs:67-76 | for a template with its markers in order and an old payload that holds no END marker, building from the wrapper gives what building from the template gives: only the latest payload remains |
| MarkerSplice.SpliceAfterPrefix | src/js/index.mjs:69-76 | for a template holding both markers, text in front of it that holds no marker and ends a line stays in front of the wrapper; the splice happens behind it |
| MarkerSplice.InOrderAfterPrefix | src/js/index.mjs:69-70 | text in front of a template with its markers in order that holds no marker and ends a line keeps the markers in order |
| Paths.ProjectRoot | src/js/index.mjs:19 | the builder's path is the project root when it holds no `/src/js/index.mjs`, and the root is never longer |
| Paths.ProjectRootOf | src/js/index.mjs:19 | run as `<root>/src/js/index.mjs`, the project root is `<root>` when the entry path does not occur in `<root>` |
| Paths.Basename | src/js/index.mjs:41 | a base name holds no `/` |
| Paths.BasenameOfJoin | src/js/index.mjs:41 | the base name of a directory, `/` and a name is the name |
| Paths.Dirname | src/js/index.mjs:43 | a directory name is never empty |
| Paths.DirnameOfJoin | src/js/index.mjs:43 | the directory name of a directory (not ending in `/`), `/` and a name is the directory |
| Paths.DirnameOfName | src/js/index.mjs:43 | a name without `/` lies in `.` |
| Builder.OutputPath | src/js/index.mjs:42-51 | the output is `<root>/build/<name>` without a usable `--out`, `out/<name>` when `--out` is an existing directory, and `out` otherwise |
| Builder.OutputKeepsName | src/js/index.mjs:41-51 | unless `--out` is used as given, the output's base name is the payload's |
| Builder.DefaultOutputInBuildDirectory | src/js/index.mjs:48-50 | without a usable `--out`, the output lies directly in `<root>/build` |
| Builder.BareOutputKept | src/js/index.mjs:43-47 | a bare file name as `--out` is usable once `.` exists, so it is kept (or joined when it names a directory) and the build directory is left alone |
| Builder.SubstituteVersion | src/js/index.mjs:55-57 | without `--update-version` the template is unchanged |
| Builder.SubstituteUrl | src/js/index.mjs:58-65 | without `--update-url` the template is unchanged |
| Builder.Substitute | src/js/index.mjs:55-65 | with neither option the template is unchanged |
| Builder.UrlWarning | src/js/index.mjs:59-63 | a warning is printed exactly when a URL was given and does not parse, and it is `WARNING: Specified URL is invalid: <url>` |
| Builder.ResolveOutput | src/js/index.mjs:42-51 | the step-by-step reassignment of `output` ends at `OutputPath`, and the build directory is recreated exactly when `--out` is not usable |
| Builder.Build | src/js/index.mjs:52-76 | the step-by-step reassignment of `script` ends at the substituted, spliced template, and the warning is `UrlWarning` |
| Builder.Run | src/js/index.mjs:33-81 | a missing payload path and a directory give exactly their error messages and nothing else; otherwise the wrapper is made, even for an invalid URL, with its output path, content and `selfupdate-script has been created: <output>` |
| Builder.SubstituteKeepsHeader | src/js/index.mjs:55-65 | for a header of whole lines without markers that has a line for the field, and a value without a line terminator that brings in no marker, substituting keeps the header so and the field reads back the value |
| Builder.VersionInHeader | src/js/index.mjs:55-57 | for a template laid out as `Layout` assumes and a version without a line terminator that brings in no marker, the version substitution happens in the header, which reads back the new version (or its own without the option) and keeps its URL |
| Builder.UrlInHeader | src/js/index.mjs:58-65 | for a template laid out as `Layout` assumes and a URL without a line terminator that brings in no marker, the URL substitution happens in the header, which reads back the new URL (or its own without the option) and keeps its version |
| Builder.SubstituteInHeader | src/js/index.mjs:55-65 | for a template laid out as `Layout` assumes and safe option values (`SafeOptions`), both substitutions happen in the header and leave the marker part of the template untouched |
| Builder.RenderShape | src/js/index.mjs:55-76 | for a template laid out as `Layout` assumes and safe option values, the wrapper is the substituted header followed by the splice of the rest, so no line of the payload is ever substituted |
| Builder.RenderFields | test/testBuilder.mjs:98-110 | for a template laid out as `Layout` assumes and safe option values, the wrapper's field lines hold the given version and URL, or the template's own when an option is not given, for every payload (markers in it included) |
| Builder.RenderEmbeds | test/testBuilder.mjs:91-93 | for a template laid out as `Layout` assumes and safe option values, the payload reads back from the wrapper verbatim, whatever lines it holds, as long as it has no END marker |

## Left out

- Argument parsing by `commander`, and the `--help` and `--version` output and suggestion handling (`src/js/index.mjs:17-32`, `83-85`) are not modelled: they are a foreign library plus fixed text.
- The bash self-update routine inside the template (`src/scripts/updater.sh`) is not part of this model. `Embedded` and `FieldValue` stand in for what the wrapper reads back.
- File-system side effects are not performed:
  - the removal and re-creation of the build directory is a flag in the outcome;
  - the write is the output path and content in the outcome;
  - the file mode `0o755` is left out.
  Failing `mkdirSync`, `readFileSync` or `writeFileSync` calls (which throw) are not modelled.
- The file contents are parameters, read as if before any side effect. So the model misses one case: a payload inside the build directory that the reset removes before it is read.
- The file system is a snapshot keyed by path strings:
  - no path normalisation, symlinks or working-directory resolution;
  - an existing path that is not a directory counts as a file.
- `new URL(...)` is the WHATWG URL parser, a foreign call. Its verdict is the parameter `urlValid`, which only decides the warning.
- `$` patterns (`$&`, `$1`, `$$`, ...) in the replacement strings of `replace` are not expanded: the model inserts the version and URL literally.
- `Paths.Basename` and `Paths.Dirname`: they follow the POSIX flavour of Node's `path` module, which is not part of this model, and are written from its documented behaviour.
- JavaScript strings are UTF-16 code units and the files are decoded as UTF-8. The model works on Dafny characters, so indices agree only for text whose characters each take one code unit.
- `Builder.RenderFields`, `Builder.RenderEmbeds` and `Builder.RenderShape`: these are stated only for templates assumed to have both field lines in a header of whole lines before the markers (the predicate `Layout`), and for values that have no line terminator and bring in no marker. The template file is not part of this model, so that it has this layout is an assumption. For other templates, only `Render`'s definition and the lemmas about its parts apply.
- Shell quoting and expansion of the substituted values are not modelled. `FieldValue` returns the raw text of the line, so a value holding `$`, a backslash or a quote may read differently once bash interprets the wrapper.
- `MarkerSplice.EmbeddedRoundTrip`: this needs the payload to hold no END marker line. Otherwise the first END marker of the wrapper lies inside the payload.
- The tests (`test/`) are not modelled; a few of their expectations are cited where a lemma states them.
