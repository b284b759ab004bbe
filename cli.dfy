/**
 * `bin/cli.ts`: the `transform <pattern>` command. It finds the files, makes the output directory,
 * converts each file into `<output>/<ComponentName>.tsx`, and counts the files that made it.
 *
 * `glob`, `fs`, `path`, `process.cwd()` and `commander` are outside the model: what `glob` and
 * `mkdir` produce are inputs, and reading a file, taking its base name, converting it and writing
 * the result are functions in `Io`. Messages printed to the console are left out; `process.exit(1)`
 * is the `Exited` outcome.
 */
module Cli {
  import opened Wrappers
  import opened Strings
  import VitePlugin

  const JquerySuffix: string := ".jquery"

  /** `name.replace(/\.jquery$/, '')`: the suffix is removed only at the very end. */
  function StripJquerySuffix(name: string): (r: string)
    ensures EndsWith(name, JquerySuffix) ==> r + JquerySuffix == name
    ensures !EndsWith(name, JquerySuffix) ==> r == name
  {
    if EndsWith(name, JquerySuffix) then name[..|name| - |JquerySuffix|] else name
  }

  /** The command's `toComponentName`: strip a final `.jquery`, then the plugin's conversion. */
  function ToComponentName(name: string): string {
    VitePlugin.ToComponentName(StripJquerySuffix(name))
  }

  /** The command's component names hold no `-`, `_` or `.`. */
  lemma ComponentNameHasNoSeparators(name: string)
    ensures NoneIn(ToComponentName(name), VitePlugin.Seps)
  {
    VitePlugin.ComponentNameHasNoSeparators(StripJquerySuffix(name));
  }

  /** A final `.jquery` does not reach the component name: the name is that of the stem. */
  lemma FinalJqueryStripped(stem: string)
    ensures ToComponentName(stem + JquerySuffix) == VitePlugin.ToComponentName(stem)
  {
    var name := stem + JquerySuffix;
    assert name[|name| - |JquerySuffix|..] == JquerySuffix;
    assert name[..|name| - |JquerySuffix|] == stem;
  }

  /** A name that does not end in `.jquery` goes to the plugin's conversion unchanged. */
  lemma OtherNamesKept(name: string)
    requires !EndsWith(name, JquerySuffix)
    ensures ToComponentName(name) == VitePlugin.ToComponentName(name)
  {
  }

  /** `my-widget.jquery` becomes `MyWidget`. */
  lemma FinalJqueryExample(stem: string)
    requires stem == "my" + ("-" + "widget")
    ensures ToComponentName(stem + JquerySuffix) == "MyWidget"
  {
    FinalJqueryStripped(stem);
    assert NoneIn("my", VitePlugin.Seps) && NoneIn("widget", VitePlugin.Seps);
    VitePlugin.TwoWordName("my", '-', "widget");
    assert UpperChar('m') == 'M' && UpperChar('w') == 'W';
  }

  /** `a.jquery.b` under the plugin's conversion alone is `AJqueryB`. */
  lemma MiddleJqueryName(mid: string)
    requires mid == "a" + ("." + ("jquery" + ("." + "b")))
    ensures VitePlugin.ToComponentName(mid) == "AJqueryB"
  {
    VitePlugin.ComponentNameIsCamelCase(mid);
    assert NoneIn("a", VitePlugin.Seps) && NoneIn("jquery", VitePlugin.Seps) && NoneIn("b", VitePlugin.Seps);
    VitePlugin.CamelCaseWordSep("a", '.', "jquery" + ("." + "b"));
    VitePlugin.CamelCaseWordSep("jquery", '.', "b");
    VitePlugin.CamelCaseLastWord("b");
    assert UpperChar('a') == 'A' && UpperChar('j') == 'J' && UpperChar('b') == 'B';
  }

  /** A `.jquery` in the middle of a name is kept by the command: `a.jquery.b` becomes `AJqueryB`. */
  lemma MiddleJqueryKept(mid: string)
    requires mid == "a" + ("." + ("jquery" + ("." + "b")))
    ensures ToComponentName(mid) == "AJqueryB"
  {
    assert mid[|mid| - 1] == 'b';
    OtherNamesKept(mid);
    MiddleJqueryName(mid);
  }

  /** The plugin drops the same middle `.jquery`: `a.jquery.b` becomes `AB` there. */
  lemma MiddleJqueryDroppedByPlugin(mid: string)
    requires mid == "a" + ("." + ("jquery" + ("." + "b")))
    ensures VitePlugin.OutputComponentName(mid + ".js", mid, None) == "AB"
  {
    assert mid[1..8] == ".jquery";
    assert mid[0] == 'a';
    assert forall j: nat :: j < 1 ==> !OccursAt(mid, ".jquery", j);
    VitePlugin.OutputNameStripsFirstJquery(mid + ".js", mid, 1);
    var stripped := mid[..1] + mid[8..];
    assert stripped == "a" + ("." + "b");
    assert NoneIn("a", VitePlugin.Seps) && NoneIn("b", VitePlugin.Seps);
    VitePlugin.TwoWordName("a", '.', "b");
    assert UpperChar('a') == 'A' && UpperChar('b') == 'B';
  }

  // ---------------------------------------------------------------------------
  // the transform action

  /** The file-system and transformer calls one file goes through. */
  datatype Io = Io(
    read: string -> Result<string, string>,
    baseName: string -> string,
    convert: (string, string, string) -> Result<string, string>,
    write: (string, string) -> bool,
    cwd: string,
    output: string)

  /** Where the command writes the component for a file. */
  function OutputFile(file: string, io: Io): string {
    VitePlugin.PathJoin([io.cwd, io.output, ToComponentName(io.baseName(file)) + ".tsx"])
  }

  /** Reading, converting and writing the file all succeed. */
  predicate Succeeds(file: string, io: Io) {
    && io.read(file).Ok?
    && io.convert(io.read(file).value, file, ToComponentName(io.baseName(file))).Ok?
    && io.write(OutputFile(file, io), io.convert(io.read(file).value, file, ToComponentName(io.baseName(file))).value)
  }

  /** `Succeeds` for one `io`, as a predicate on files. */
  function SucceedsFor(io: Io): string -> bool {
    file => Succeeds(file, io)
  }

  /** The elements of `files` that satisfy `ok`, in order. */
  function Kept(files: seq<string>, ok: string -> bool): (r: seq<string>)
    ensures |r| <= |files|
    ensures forall k :: 0 <= k < |r| ==> r[k] in files && ok(r[k])
  {
    if files == [] then []
    else
      var init := Kept(files[..|files| - 1], ok);
      var last := files[|files| - 1];
      if ok(last) then init + [last] else init
  }

  /** The files among `files` that succeed, in order. */
  function Converted(files: seq<string>, io: Io): (r: seq<string>)
    ensures |r| <= |files|
    ensures forall k :: 0 <= k < |r| ==> r[k] in files && Succeeds(r[k], io)
  {
    Kept(files, SucceedsFor(io))
  }

  datatype Outcome =
    | NoFiles                                       // nothing matched: return early
    | Exited(error: string)                          // glob or mkdir threw: exit code 1
    | Finished(successCount: nat, total: nat)        // the final `n/m` tally

  function RunResult(glob: Result<seq<string>, string>, mkdirError: Option<string>, io: Io): Outcome {
    match glob
    case Err(e) => Exited(e)
    case Ok(files) =>
      if |files| == 0 then NoFiles
      else if mkdirError.Some? then Exited(mkdirError.value)
      else Finished(|Converted(files, io)|, |files|)
  }

  /**
   * The action: a file adds one to the tally only after reading, converting and writing it all
   * succeed; a file that fails is skipped and the loop goes on.
   */
  method RunTransform(glob: Result<seq<string>, string>, mkdirError: Option<string>, io: Io)
    returns (r: Outcome)
    ensures r == RunResult(glob, mkdirError, io)
  {
    if glob.Err? {
      return Exited(glob.error);
    }
    var files := glob.value;
    if |files| == 0 {
      return NoFiles;
    }
    if mkdirError.Some? {
      return Exited(mkdirError.value);
    }
    var successCount := 0;
    for i := 0 to |files|
      invariant successCount == |Converted(files[..i], io)|
    {
      var file := files[i];
      var content := io.read(file);
      if content.Ok? {
        var name := ToComponentName(io.baseName(file));
        var transformed := io.convert(content.value, file, name);
        if transformed.Ok? {
          var outputFilePath := VitePlugin.PathJoin([io.cwd, io.output, name + ".tsx"]);
          var written := io.write(outputFilePath, transformed.value);
          if written {
            successCount := successCount + 1;
          }
        }
      }
      assert files[..i + 1][..i] == files[..i];
    }
    assert files[..|files|] == files;
    r := Finished(successCount, |files|);
  }

  /** `ok` holds of every element. */
  predicate Every(files: seq<string>, ok: string -> bool) {
    forall k :: 0 <= k < |files| ==> ok(files[k])
  }

  /** `ok` holds of no element. */
  predicate NoneOf(files: seq<string>, ok: string -> bool) {
    forall k :: 0 <= k < |files| ==> !ok(files[k])
  }

  lemma EverySnoc(files: seq<string>, ok: string -> bool)
    requires files != []
    ensures Every(files, ok) <==> Every(files[..|files| - 1], ok) && ok(files[|files| - 1])
  {
    var init := files[..|files| - 1];
    assert forall k :: 0 <= k < |init| ==> init[k] == files[k];
  }

  lemma NoneOfSnoc(files: seq<string>, ok: string -> bool)
    requires files != []
    ensures NoneOf(files, ok) <==> NoneOf(files[..|files| - 1], ok) && !ok(files[|files| - 1])
  {
    var init := files[..|files| - 1];
    assert forall k :: 0 <= k < |init| ==> init[k] == files[k];
  }

  /** Every element is kept exactly when `ok` holds of all of them. */
  lemma {:induction false} KeptAll(files: seq<string>, ok: string -> bool)
    ensures |Kept(files, ok)| == |files| <==> Every(files, ok)
    decreases |files|
  {
    if files != [] {
      KeptAll(files[..|files| - 1], ok);
      EverySnoc(files, ok);
    }
  }

  /** Nothing is kept exactly when `ok` holds of none of them. */
  lemma {:induction false} KeptNone(files: seq<string>, ok: string -> bool)
    ensures |Kept(files, ok)| == 0 <==> NoneOf(files, ok)
    decreases |files|
  {
    if files != [] {
      KeptNone(files[..|files| - 1], ok);
      NoneOfSnoc(files, ok);
    }
  }

  predicate AllSucceed(files: seq<string>, io: Io) {
    forall k :: 0 <= k < |files| ==> Succeeds(files[k], io)
  }

  predicate NoneSucceed(files: seq<string>, io: Io) {
    forall k :: 0 <= k < |files| ==> !Succeeds(files[k], io)
  }

  /**
   * The tally never exceeds the number of files; it equals it exactly when every file succeeds,
   * and it is zero exactly when none does.
   */
  lemma TallyBounds(files: seq<string>, io: Io)
    requires |files| > 0
    ensures RunResult(Ok(files), None, io).successCount <= RunResult(Ok(files), None, io).total == |files|
    ensures RunResult(Ok(files), None, io).successCount == |files| <==> AllSucceed(files, io)
    ensures RunResult(Ok(files), None, io).successCount == 0 <==> NoneSucceed(files, io)
  {
    KeptAll(files, SucceedsFor(io));
    KeptNone(files, SucceedsFor(io));
    assert Every(files, SucceedsFor(io)) <==> AllSucceed(files, io);
    assert NoneOf(files, SucceedsFor(io)) <==> NoneSucceed(files, io);
  }

  /** With no files nothing is converted, even when the output directory could not be made. */
  lemma NoFilesReturnsEarly(mkdirError: Option<string>, io: Io)
    ensures RunResult(Ok([]), mkdirError, io) == NoFiles
  {
  }

  /** A path of three segments ends with `/` and its last segment. */
  lemma PathJoinLast(a: string, b: string, d: string)
    ensures EndsWith(VitePlugin.PathJoin([a, b, d]), "/" + d)
  {
    JoinSnoc([a], b, "/");
    assert [a] + [b] == [a, b];
    JoinSnoc([a, b], d, "/");
    assert [a, b] + [d] == [a, b, d];
    var front := Join([a, b], "/");
    assert front + "/" + d == front + ("/" + d);
    EndsWithAppend(front, "/" + d);
  }

  /** Every file is written to the output directory under its component name with `.tsx`. */
  lemma OutputFileName(file: string, io: Io)
    ensures EndsWith(OutputFile(file, io), "/" + (ToComponentName(io.baseName(file)) + ".tsx"))
  {
    PathJoinLast(io.cwd, io.output, ToComponentName(io.baseName(file)) + ".tsx");
  }
}
