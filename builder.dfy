/**
 * The builder's command action: it checks the payload path, decides where
 * the wrapper goes, substitutes the version and update URL into the
 * template and splices the payload in between the markers.
 */
module Builder {
  import opened TextSearch
  import opened LineFields
  import opened MarkerSplice
  import opened Paths

  /** The command's options; an option that was not given is the empty string. */
  datatype Options = Options(updateUrl: string, updateVersion: string, out: string)

  /**
   * What one run does. A rejected payload path prints `error` on standard
   * error and nothing else happens. Otherwise the build directory is
   * recreated when `buildReset` holds, `warning` goes to standard error,
   * `content` is written to `output` and `message` goes to standard output.
   */
  datatype Outcome =
    | Rejected(error: string)
    | Created(buildReset: bool, warning: Option<string>, output: string, content: string, message: string)

  function MissingScript(script: string): string {
    "Script path not exists: " + script
  }

  function DirectoryScript(script: string): string {
    "Script argument points to directory instead of file: " + script
  }

  function InvalidUrl(url: string): string {
    "WARNING: Specified URL is invalid: " + url
  }

  function CreatedAt(output: string): string {
    "selfupdate-script has been created: " + output
  }

  /** The template the wrapper is made from. */
  function TemplatePath(root: string): string {
    root + "/src/scripts/updater.sh"
  }

  function BuildDirectory(root: string): string {
    root + "/build"
  }

  // ---------------------------------------------------------------------------
  // The output path.

  /** `--out` is used (as given, or as a directory) when it names an existing path or one in an existing directory. */
  predicate OutUsable(fs: FileSystem, out: string) {
    out != "" && (Exists(fs, out) || Exists(fs, Dirname(out)))
  }

  /**
   * Where the wrapper goes: into `--out` when that is an existing directory,
   * to `--out` itself when it is usable otherwise, and else into the
   * project's build directory, under the payload's file name.
   */
  function OutputPath(fs: FileSystem, root: string, out: string, name: string): (output: string)
    ensures !OutUsable(fs, out) ==> output == BuildDirectory(root) + "/" + name
    ensures OutUsable(fs, out) && IsDirectory(fs, out) ==> output == out + "/" + name
    ensures OutUsable(fs, out) && !IsDirectory(fs, out) ==> output == out
  {
    if OutUsable(fs, out) then
      if Exists(fs, out) && IsDirectory(fs, out) then out + "/" + name else out
    else
      root + "/build/" + name
  }

  /** Unless `--out` is used as given, the wrapper keeps the payload's file name. */
  lemma {:induction false} OutputKeepsName(fs: FileSystem, root: string, out: string, name: string)
    requires name != [] && '/' !in name
    requires !OutUsable(fs, out) || IsDirectory(fs, out)
    ensures Basename(OutputPath(fs, root, out, name)) == name
  {
    if OutUsable(fs, out) {
      BasenameOfJoin(out, name);
    } else {
      BasenameOfJoin(BuildDirectory(root), name);
    }
  }

  /** Without a usable `--out`, the wrapper lies directly in the build directory. */
  lemma {:induction false} DefaultOutputInBuildDirectory(fs: FileSystem, root: string, out: string, name: string)
    requires name != [] && '/' !in name
    requires !OutUsable(fs, out)
    ensures Dirname(OutputPath(fs, root, out, name)) == BuildDirectory(root)
  {
    var dir := BuildDirectory(root);
    assert dir[|dir| - 1] == 'd';
    DirnameOfJoin(dir, name);
  }

  /**
   * A bare file name given as `--out` names a file in the current directory:
   * it is used as given (or as a directory), and the build directory is left
   * alone.
   */
  lemma {:induction false} BareOutputKept(fs: FileSystem, root: string, out: string, name: string)
    requires out != [] && '/' !in out && Exists(fs, ".")
    ensures OutUsable(fs, out)
    ensures OutputPath(fs, root, out, name) == if IsDirectory(fs, out) then out + "/" + name else out
  {
    DirnameOfName(out);
  }

  // ---------------------------------------------------------------------------
  // The substitutions.

  /** With `--update-version`, the first line starting with `version=` becomes `version=<value>`. */
  function SubstituteVersion(template: string, version: string): (r: string)
    ensures version == "" ==> r == template
  {
    if version != "" then ReplaceFirstLine(template, VersionAssignment, Assignment(VersionAssignment, version)) else template
  }

  /** With `--update-url`, the first line of the form `updateUrl="..."` becomes `updateUrl="<value>"`. */
  function SubstituteUrl(template: string, url: string): (r: string)
    ensures url == "" ==> r == template
  {
    if url != "" then ReplaceFirstLine(template, UrlAssignment, Assignment(UrlAssignment, url)) else template
  }

  /** The version first, then the URL. */
  function Substitute(template: string, opts: Options): (r: string)
    ensures opts.updateVersion == "" && opts.updateUrl == "" ==> r == template
  {
    SubstituteUrl(SubstituteVersion(template, opts.updateVersion), opts.updateUrl)
  }

  /** The wrapper's content: the template with its fields substituted, then the payload spliced in. */
  function Render(template: string, payload: string, opts: Options): string {
    Splice(Substitute(template, opts), payload)
  }

  /** The warning for `--update-url`: whether the value parses as a URL is `urlValid`. */
  function UrlWarning(url: string, urlValid: bool): (w: Option<string>)
    ensures w.Some? <==> url != "" && !urlValid
    ensures w.Some? ==> w.value == InvalidUrl(url)
  {
    if url != "" && !urlValid then Some(InvalidUrl(url)) else None
  }

  // ---------------------------------------------------------------------------
  // The action.

  /**
   * One run of the action for the payload path `script`. `argv1` is the
   * builder's own path, `payload` the content of the payload file,
   * `template` the content of the file at `TemplatePath(ProjectRoot(argv1))`,
   * and `urlValid` whether `new URL` accepts the update URL.
   */
  method Run(fs: FileSystem, argv1: string, script: string, opts: Options, payload: string, template: string, urlValid: bool)
    returns (outcome: Outcome)
    ensures !Exists(fs, script) ==> outcome == Rejected(MissingScript(script))
    ensures Exists(fs, script) && IsDirectory(fs, script) ==> outcome == Rejected(DirectoryScript(script))
    ensures Exists(fs, script) && !IsDirectory(fs, script) ==>
      var output := OutputPath(fs, ProjectRoot(argv1), opts.out, Basename(script));
      outcome == Created(!OutUsable(fs, opts.out), UrlWarning(opts.updateUrl, urlValid), output,
                         Render(template, payload, opts), CreatedAt(output))
  {
    if !Exists(fs, script) {
      return Rejected(MissingScript(script));
    } else if IsDirectory(fs, script) {
      return Rejected(DirectoryScript(script));
    }
    var output, buildReset := ResolveOutput(fs, ProjectRoot(argv1), opts.out, Basename(script));
    var text, warning := Build(template, payload, opts, urlValid);
    outcome := Created(buildReset, warning, output, text, CreatedAt(output));
  }

  /** The output path, and whether the build directory is recreated for it, as the action decides them step by step. */
  method ResolveOutput(fs: FileSystem, root: string, out: string, scriptFileName: string)
    returns (output: string, buildReset: bool)
    ensures output == OutputPath(fs, root, out, scriptFileName)
    ensures buildReset == !OutUsable(fs, out)
  {
    output := out;
    buildReset := false;
    if output != "" && (Exists(fs, output) || Exists(fs, Dirname(output))) {
      if Exists(fs, output) && IsDirectory(fs, output) {
        output := output + "/" + scriptFileName;
      }
    } else {
      buildReset := true;
      output := root + "/build/" + scriptFileName;
    }
  }

  /** The wrapper's content, and the warning for the URL, as the action computes them, reassigning the script text. */
  method Build(template: string, embed: string, opts: Options, urlValid: bool) returns (script: string, warning: Option<string>)
    ensures script == Render(template, embed, opts)
    ensures warning == UrlWarning(opts.updateUrl, urlValid)
  {
    script := template;
    if opts.updateVersion != "" {
      script := ReplaceFirstLine(script, VersionAssignment, "version=" + opts.updateVersion);
    }
    warning := None;
    if opts.updateUrl != "" {
      if !urlValid {
        warning := Some(InvalidUrl(opts.updateUrl));
      }
      script := ReplaceFirstLine(script, UrlAssignment, "updateUrl=\"" + opts.updateUrl + "\"");
    }
    var start, stop := JsIndexOf(script, BeginMarker), JsIndexOf(script, EndMarker);
    script := JsSubstring(script, 0, start) + BeginMarker + "\n" + embed + "\n" + JsSubstring(script, stop, |script|);
  }

  // ---------------------------------------------------------------------------
  // What the wrapper holds.

  /**
   * The layout the end-to-end lemmas assume of a template: a header of whole
   * lines that holds both field lines and no marker, then the part with the
   * markers.
   */
  predicate Layout(header: string, rest: string) {
    EndsLine(header) && HasLine(header, VersionAssignment) && HasLine(header, UrlAssignment) &&
    !Contains(header, BeginMarker) && !Contains(header, EndMarker) && MarkersInOrder(rest)
  }

  /** A value that keeps its assignment on one line and brings in no marker. */
  predicate SafeValue(pat: Pattern, value: string) {
    NoTerminators(value) && !Contains(Assignment(pat, value), BeginMarker) && !Contains(Assignment(pat, value), EndMarker)
  }

  predicate SafeOptions(opts: Options) {
    (opts.updateVersion != "" ==> SafeValue(VersionAssignment, opts.updateVersion)) &&
    (opts.updateUrl != "" ==> SafeValue(UrlAssignment, opts.updateUrl))
  }

  /** Substituting one field keeps a header a header. */
  lemma {:induction false} SubstituteKeepsHeader(header: string, pat: Pattern, value: string)
    requires EndsLine(header) && HasLine(header, pat) && SafeValue(pat, value)
    requires !Contains(header, BeginMarker) && !Contains(header, EndMarker)
    ensures var h := ReplaceFirstLine(header, pat, Assignment(pat, value));
      EndsLine(h) && FieldValue(h, pat) == Some(value) &&
      !Contains(h, BeginMarker) && !Contains(h, EndMarker)
  {
    var line := Assignment(pat, value);
    MarkersAreLines();
    ReplaceKeepsEndsLine(header, pat, line);
    FieldRoundTrip(header, pat, value);
    ReplaceIntroducesNoOccurrence(header, pat, line, BeginMarker);
    ReplaceIntroducesNoOccurrence(header, pat, line, EndMarker);
  }

  /** The first field substitution happens in the header and keeps it one; the other field keeps its value. */
  lemma {:induction false} VersionInHeader(header: string, rest: string, version: string)
    requires Layout(header, rest) && (version != "" ==> SafeValue(VersionAssignment, version))
    ensures SubstituteVersion(header + rest, version) == SubstituteVersion(header, version) + rest
    ensures Layout(SubstituteVersion(header, version), rest)
    ensures FieldValue(SubstituteVersion(header, version), VersionAssignment)
      == if version != "" then Some(version) else FieldValue(header, VersionAssignment)
    ensures FieldValue(SubstituteVersion(header, version), UrlAssignment) == FieldValue(header, UrlAssignment)
  {
    if version != "" {
      var line := Assignment(VersionAssignment, version);
      ReplaceFirstLineAppend(header, rest, VersionAssignment, line);
      SubstituteKeepsHeader(header, VersionAssignment, version);
      ReplaceKeepsOtherField(header, VersionAssignment, UrlAssignment, version);
    }
  }

  lemma {:induction false} UrlInHeader(header: string, rest: string, url: string)
    requires Layout(header, rest) && (url != "" ==> SafeValue(UrlAssignment, url))
    ensures SubstituteUrl(header + rest, url) == SubstituteUrl(header, url) + rest
    ensures Layout(SubstituteUrl(header, url), rest)
    ensures FieldValue(SubstituteUrl(header, url), UrlAssignment)
      == if url != "" then Some(url) else FieldValue(header, UrlAssignment)
    ensures FieldValue(SubstituteUrl(header, url), VersionAssignment) == FieldValue(header, VersionAssignment)
  {
    if url != "" {
      var line := Assignment(UrlAssignment, url);
      ReplaceFirstLineAppend(header, rest, UrlAssignment, line);
      SubstituteKeepsHeader(header, UrlAssignment, url);
      ReplaceKeepsOtherField(header, UrlAssignment, VersionAssignment, url);
    }
  }

  /**
   * Both substitutions happen in the header: the rest of the template, and
   * the markers in it, stay as they were, and the header reads back the
   * substituted values (or its own, for an option not given).
   */
  lemma {:induction false} SubstituteInHeader(header: string, rest: string, opts: Options)
    requires Layout(header, rest) && SafeOptions(opts)
    ensures Substitute(header + rest, opts) == Substitute(header, opts) + rest
    ensures Layout(Substitute(header, opts), rest)
    ensures FieldValue(Substitute(header, opts), VersionAssignment)
      == if opts.updateVersion != "" then Some(opts.updateVersion) else FieldValue(header, VersionAssignment)
    ensures FieldValue(Substitute(header, opts), UrlAssignment)
      == if opts.updateUrl != "" then Some(opts.updateUrl) else FieldValue(header, UrlAssignment)
  {
    var h1 := SubstituteVersion(header, opts.updateVersion);
    VersionInHeader(header, rest, opts.updateVersion);
    UrlInHeader(h1, rest, opts.updateUrl);
  }

  /**
   * The wrapper is the substituted header followed by the splice of the rest
   * of the template: the payload goes in verbatim, after the substitutions,
   * so no line of it is substituted.
   */
  lemma {:induction false} RenderShape(header: string, rest: string, payload: string, opts: Options)
    requires Layout(header, rest) && SafeOptions(opts)
    ensures Render(header + rest, payload, opts) == Substitute(header, opts) + Splice(rest, payload)
  {
    var h := Substitute(header, opts);
    SubstituteInHeader(header, rest, opts);
    SpliceAfterPrefix(h, rest, payload);
  }

  /**
   * The wrapper's fields read back as the values given, or as the
   * template's own when not given, whatever the payload holds.
   */
  lemma {:induction false} RenderFields(header: string, rest: string, payload: string, opts: Options)
    requires Layout(header, rest) && SafeOptions(opts)
    ensures var r := Render(header + rest, payload, opts);
      FieldValue(r, VersionAssignment)
        == (if opts.updateVersion != "" then Some(opts.updateVersion) else FieldValue(header, VersionAssignment)) &&
      FieldValue(r, UrlAssignment)
        == (if opts.updateUrl != "" then Some(opts.updateUrl) else FieldValue(header, UrlAssignment))
  {
    var h := Substitute(header, opts);
    RenderShape(header, rest, payload, opts);
    SubstituteInHeader(header, rest, opts);
    FieldValueAppend(h, Splice(rest, payload), VersionAssignment);
    FieldValueAppend(h, Splice(rest, payload), UrlAssignment);
  }

  /** The payload reads back from the wrapper, whatever lines it holds. */
  lemma {:induction false} RenderEmbeds(header: string, rest: string, payload: string, opts: Options)
    requires Layout(header, rest) && SafeOptions(opts) && !Contains(payload, EndMarker)
    ensures Embedded(Render(header + rest, payload, opts)) == Some(payload)
  {
    var h := Substitute(header, opts);
    SubstituteInHeader(header, rest, opts);
    InOrderAfterPrefix(h, rest);
    EmbeddedRoundTrip(h + rest, payload);
  }
}
