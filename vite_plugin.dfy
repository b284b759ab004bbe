/**
 * `plugins/vite-plugin.ts`: how the Vite plugin names the component it writes, where it writes
 * it, which modules it processes, and what its `transform` hook returns.
 *
 * `minimatch`, `fs`, `path.basename`/`path.dirname`/`path.relative` and `process.cwd()` are
 * outside the model: a glob matcher is a parameter, and the base name and directory of a file
 * are inputs. `path.join` is joining with `/`. The call into the transformer is a function from
 * the code, the file path and the component name to the text it produces or the error it throws.
 */
module VitePlugin {
  import opened Wrappers
  import opened Strings

  // ---------------------------------------------------------------------------
  // component names

  /** The characters of the class `[-_.]`. */
  const Seps: set<char> := {'-', '_', '.'}

  /** `part.charAt(0).toUpperCase() + part.slice(1)`. */
  function Capitalize(part: string): string {
    if part == [] then "" else [UpperChar(part[0])] + part[1..]
  }

  /** `.map(part => part.charAt(0).toUpperCase() + part.slice(1))`. */
  function CapitalizeEach(parts: seq<string>): (r: seq<string>)
    ensures |r| == |parts|
  {
    if parts == [] then [] else [Capitalize(parts[0])] + CapitalizeEach(parts[1..])
  }

  /** `toComponentName`: split on `[-_.]`, capitalise each part, join with nothing between. */
  function ToComponentName(name: string): string {
    Join(CapitalizeEach(Split(name, Seps)), "")
  }

  /**
   * Reference definition character by character: separators are dropped, and a character is
   * upper-cased exactly when `capNext` holds, that is at the start or right after a separator.
   */
  function CamelCase(s: string, capNext: bool): (r: string)
    ensures |r| <= |s|
    ensures NoneIn(r, Seps)
    decreases |s|
  {
    if s == [] then ""
    else if s[0] in Seps then CamelCase(s[1..], true)
    else [if capNext then UpperChar(s[0]) else s[0]] + CamelCase(s[1..], false)
  }

  function CapitalizeIf(part: string, b: bool): string {
    if b then Capitalize(part) else part
  }

  lemma {:induction false} SplitAgreesWithCamelCase(s: string, b: bool)
    ensures CamelCase(s, b) == Join([CapitalizeIf(Split(s, Seps)[0], b)] + CapitalizeEach(Split(s, Seps)[1..]), "")
    decreases |s|
  {
    if s == [] {
    } else {
      var r := Split(s[1..], Seps);
      if s[0] in Seps {
        SplitAgreesWithCamelCase(s[1..], true);
        assert Split(s, Seps) == [""] + r;
        assert ([""] + r)[1..] == r;
        assert CapitalizeEach(r) == [Capitalize(r[0])] + CapitalizeEach(r[1..]);
        JoinEmptySep([""] + CapitalizeEach(r));
        assert ([""] + CapitalizeEach(r))[1..] == CapitalizeEach(r);
      } else {
        SplitAgreesWithCamelCase(s[1..], false);
        var head := [s[0]] + r[0];
        assert Split(s, Seps) == [head] + r[1..];
        assert ([head] + r[1..])[1..] == r[1..];
        var c := if b then UpperChar(s[0]) else s[0];
        assert CapitalizeIf(head, b) == [c] + r[0];
        var tail := CapitalizeEach(r[1..]);
        JoinEmptySep([[c] + r[0]] + tail);
        assert ([[c] + r[0]] + tail)[1..] == tail;
        JoinEmptySep([r[0]] + tail);
        assert ([r[0]] + tail)[1..] == tail;
      }
    }
  }

  /** `toComponentName` agrees with the character-by-character reference definition. */
  lemma ComponentNameIsCamelCase(name: string)
    ensures ToComponentName(name) == CamelCase(name, true)
  {
    SplitAgreesWithCamelCase(name, true);
    var parts := Split(name, Seps);
    assert CapitalizeEach(parts) == [Capitalize(parts[0])] + CapitalizeEach(parts[1..]);
  }

  /** The component name contains none of `-`, `_` and `.`. */
  lemma ComponentNameHasNoSeparators(name: string)
    ensures NoneIn(ToComponentName(name), Seps)
  {
    ComponentNameIsCamelCase(name);
  }

  function SepCount(s: string): (n: nat)
    ensures n <= |s|
  {
    if s == [] then 0 else (if s[0] in Seps then 1 else 0) + SepCount(s[1..])
  }

  lemma {:induction false} CamelCaseLength(s: string, b: bool)
    ensures |CamelCase(s, b)| == |s| - SepCount(s)
    decreases |s|
  {
    if s != [] {
      CamelCaseLength(s[1..], s[0] in Seps);
      CamelCaseLength(s[1..], false);
    }
  }

  /** Every character but the separators survives: the name is the input minus its separators. */
  lemma ComponentNameLength(name: string)
    ensures |ToComponentName(name)| == |name| - SepCount(name)
  {
    ComponentNameIsCamelCase(name);
    CamelCaseLength(name, true);
  }

  lemma {:induction false} CamelCaseTrailingSep(s: string, c: char, b: bool)
    requires c in Seps
    ensures CamelCase(s + [c], b) == CamelCase(s, b)
    decreases |s|
  {
    if s == [] {
      assert s + [c] == [c];
    } else {
      assert (s + [c])[1..] == s[1..] + [c];
      CamelCaseTrailingSep(s[1..], c, s[0] in Seps);
      CamelCaseTrailingSep(s[1..], c, false);
    }
  }

  lemma {:induction false} CamelCaseDoubleSep(a: string, c: char, d: char, t: string, b: bool)
    requires c in Seps && d in Seps
    ensures CamelCase(a + [c, d] + t, b) == CamelCase(a + [d] + t, b)
    decreases |a|
  {
    if a == [] {
      assert a + [c, d] + t == [c] + ([d] + t);
      assert a + [d] + t == [d] + t;
      assert ([c] + ([d] + t))[1..] == [d] + t;
    } else {
      assert (a + [c, d] + t)[1..] == a[1..] + [c, d] + t;
      assert (a + [d] + t)[1..] == a[1..] + [d] + t;
      CamelCaseDoubleSep(a[1..], c, d, t, a[0] in Seps);
      CamelCaseDoubleSep(a[1..], c, d, t, false);
    }
  }

  /**
   * Empty parts contribute nothing: a leading separator, a trailing one, and one of two
   * consecutive separators can be dropped without changing the name.
   */
  lemma EmptyPartsVanish(a: string, c: char, d: char, t: string)
    requires c in Seps && d in Seps
    ensures ToComponentName([c] + t) == ToComponentName(t)
    ensures ToComponentName(t + [c]) == ToComponentName(t)
    ensures ToComponentName(a + [c, d] + t) == ToComponentName(a + [d] + t)
  {
    ComponentNameIsCamelCase([c] + t);
    ComponentNameIsCamelCase(t);
    assert ([c] + t)[1..] == t;
    ComponentNameIsCamelCase(t + [c]);
    CamelCaseTrailingSep(t, c, true);
    ComponentNameIsCamelCase(a + [c, d] + t);
    ComponentNameIsCamelCase(a + [d] + t);
    CamelCaseDoubleSep(a, c, d, t, true);
  }

  /** A run without separators keeps its characters, the first one upper-cased when `b` holds. */
  lemma {:induction false} CamelCaseWord(w: string, t: string, b: bool)
    requires w != [] && NoneIn(w, Seps)
    ensures CamelCase(w + t, b) == [if b then UpperChar(w[0]) else w[0]] + w[1..] + CamelCase(t, false)
    decreases |w|
  {
    assert (w + t)[1..] == w[1..] + t;
    if |w| > 1 {
      CamelCaseWord(w[1..], t, false);
      assert [w[1..][0]] + w[1..][1..] == w[1..];
    } else {
      assert w[1..] + t == t;
    }
  }

  /** A separator is dropped and the next character is upper-cased. */
  lemma CamelCaseSep(c: char, t: string, b: bool)
    requires c in Seps
    ensures CamelCase([c] + t, b) == CamelCase(t, true)
  {
    assert ([c] + t)[1..] == t;
  }

  /** A capitalised word followed by a separator: the word, its first letter upper-cased, then the rest capitalised. */
  lemma CamelCaseWordSep(w: string, c: char, t: string)
    requires w != [] && NoneIn(w, Seps) && c in Seps
    ensures CamelCase(w + ([c] + t), true) == [UpperChar(w[0])] + w[1..] + CamelCase(t, true)
  {
    CamelCaseWord(w, [c] + t, true);
    CamelCaseSep(c, t, false);
  }

  /** A last word without separators, capitalised. */
  lemma CamelCaseLastWord(w: string)
    requires w != [] && NoneIn(w, Seps)
    ensures CamelCase(w, true) == [UpperChar(w[0])] + w[1..]
  {
    CamelCaseWord(w, "", true);
    assert w + "" == w;
  }

  /** Two words around one separator: both capitalised and joined, the separator dropped. */
  lemma TwoWordName(w1: string, c: char, w2: string)
    requires w1 != [] && w2 != [] && NoneIn(w1, Seps) && NoneIn(w2, Seps) && c in Seps
    ensures ToComponentName(w1 + ([c] + w2)) == [UpperChar(w1[0])] + w1[1..] + ([UpperChar(w2[0])] + w2[1..])
  {
    ComponentNameIsCamelCase(w1 + ([c] + w2));
    CamelCaseWordSep(w1, c, w2);
    CamelCaseLastWord(w2);
  }

  lemma UpperCharIdempotent(c: char)
    ensures UpperChar(UpperChar(c)) == UpperChar(c)
  {
  }

  lemma {:induction false} CamelCaseWithoutSeps(s: string)
    requires NoneIn(s, Seps)
    ensures CamelCase(s, false) == s
    decreases |s|
  {
    if s != [] {
      CamelCaseWithoutSeps(s[1..]);
      assert [s[0]] + s[1..] == s;
    }
  }

  /** A name already converted converts to itself. */
  lemma ComponentNameIdempotent(name: string)
    ensures ToComponentName(ToComponentName(name)) == ToComponentName(name)
  {
    var once := ToComponentName(name);
    ComponentNameIsCamelCase(name);
    ComponentNameIsCamelCase(once);
    if once != [] {
      var c := once[0];
      assert once == [c] + once[1..];
      // the first character of the name is the upper-cased first non-separator character
      assert UpperChar(c) == c by { FirstIsUpper(name, true); }
      CamelCaseWithoutSeps(once[1..]);
      UpperCharIdempotent(c);
    }
  }

  lemma {:induction false} FirstIsUpper(s: string, b: bool)
    requires b && CamelCase(s, b) != []
    ensures UpperChar(CamelCase(s, b)[0]) == CamelCase(s, b)[0]
    decreases |s|
  {
    if s[0] in Seps {
      FirstIsUpper(s[1..], true);
    } else {
      UpperCharIdempotent(s[0]);
    }
  }

  // ---------------------------------------------------------------------------
  // output path

  /** Joining path segments with `/`. */
  function PathJoin(segments: seq<string>): string {
    Join(segments, "/")
  }

  /**
   * The component name `getOutputPath` uses: the custom function applied to the file path when
   * one is given, otherwise `toComponentName` of the base name with its first `.jquery` removed.
   */
  function OutputComponentName(filePath: string, baseName: string, custom: Option<string -> string>): string {
    match custom
    case Some(f) => f(filePath)
    case None => ToComponentName(ReplaceFirst(baseName, ".jquery", ""))
  }

  /** `getOutputPath`: the working directory, the output directory, the file's directory, the name. */
  function OutputPath(cwd: string, outputDir: string, dirName: string, filePath: string, baseName: string,
                      custom: Option<string -> string>): string {
    PathJoin([cwd, outputDir, dirName, OutputComponentName(filePath, baseName, custom) + ".tsx"])
  }

  /**
   * Only the first `.jquery` of the base name is removed, wherever it is; a base name without one
   * is converted as it is. A custom naming function replaces all of this.
   */
  lemma OutputNameStripsFirstJquery(filePath: string, baseName: string, i: nat)
    requires OccursAt(baseName, ".jquery", i)
    requires forall j: nat :: j < i ==> !OccursAt(baseName, ".jquery", j)
    ensures OutputComponentName(filePath, baseName, None) == ToComponentName(baseName[..i] + baseName[i + 7..])
  {
    ReplaceFirstAt(baseName, ".jquery", "", i);
    assert baseName[..i] + "" == baseName[..i];
  }

  /** A base name without `.jquery` is converted as it is. */
  lemma OutputNameWithoutJquery(filePath: string, baseName: string)
    requires !Contains(baseName, ".jquery")
    ensures OutputComponentName(filePath, baseName, None) == ToComponentName(baseName)
  {
    ReplaceFirstAbsent(baseName, ".jquery", "");
  }

  /** A custom naming function decides the name from the file path alone, whatever the base name. */
  lemma CustomNameOverrides(filePath: string, baseName: string, baseName': string, f: string -> string)
    ensures OutputComponentName(filePath, baseName, Some(f)) == f(filePath)
    ensures OutputComponentName(filePath, baseName, Some(f)) == OutputComponentName(filePath, baseName', Some(f))
  {
  }

  /** A path of four segments ends with `/` and its last segment. */
  lemma PathJoinEnd(a: string, b: string, c: string, d: string)
    ensures EndsWith(PathJoin([a, b, c, d]), "/" + d)
  {
    JoinSnoc([a, b], c, "/");
    assert [a, b] + [c] == [a, b, c];
    JoinSnoc([a, b, c], d, "/");
    assert [a, b, c] + [d] == [a, b, c, d];
    var front := Join([a, b, c], "/");
    assert front + "/" + d == front + ("/" + d);
    EndsWithAppend(front, "/" + d);
  }

  /**
   * The path ends in `/<name>.tsx`, and without a custom function the name holds no `.`; so when
   * that name is not empty, `.tsx` is the only extension of the path's last segment.
   */
  lemma OutputPathEnd(cwd: string, outputDir: string, dirName: string, filePath: string, baseName: string,
                      custom: Option<string -> string>)
    ensures EndsWith(OutputPath(cwd, outputDir, dirName, filePath, baseName, custom),
                     "/" + (OutputComponentName(filePath, baseName, custom) + ".tsx"))
    ensures custom.None? ==> '.' !in OutputComponentName(filePath, baseName, custom)
  {
    PathJoinEnd(cwd, outputDir, dirName, OutputComponentName(filePath, baseName, custom) + ".tsx");
    if custom.None? {
      ComponentNameHasNoSeparators(ReplaceFirst(baseName, ".jquery", ""));
    }
  }

  // ---------------------------------------------------------------------------
  // which modules are processed

  /** `patterns.some(pattern => minimatch(id, pattern))`. */
  predicate AnyMatch(id: string, patterns: seq<string>, matches: (string, string) -> bool) {
    if patterns == [] then false else matches(id, patterns[0]) || AnyMatch(id, patterns[1..], matches)
  }

  lemma {:induction false} AnyMatchMeaning(id: string, patterns: seq<string>, matches: (string, string) -> bool)
    ensures AnyMatch(id, patterns, matches) <==> exists k :: 0 <= k < |patterns| && matches(id, patterns[k])
    decreases |patterns|
  {
    if patterns != [] {
      AnyMatchMeaning(id, patterns[1..], matches);
      if exists k :: 0 <= k < |patterns| && matches(id, patterns[k]) {
        var k :| 0 <= k < |patterns| && matches(id, patterns[k]);
        if k > 0 {
          assert patterns[1..][k - 1] == patterns[k];
        }
      }
      if exists k :: 0 <= k < |patterns| - 1 && matches(id, patterns[1..][k]) {
        var k :| 0 <= k < |patterns| - 1 && matches(id, patterns[1..][k]);
        assert patterns[k + 1] == patterns[1..][k];
      }
    }
  }

  /** The plugin's options, each of them optional. */
  datatype PluginOptions = PluginOptions(
    includes: Option<seq<string>>,
    excludes: Option<seq<string>>,
    outputDir: Option<string>,
    prettier: Option<bool>,
    customComponentName: Option<string -> string>)

  const DefaultInclude: seq<string> := ["**/*.jquery.js", "**/*.jquery.html"]
  const DefaultExclude: seq<string> := ["**/node_modules/**", "**/dist/**"]
  const DefaultOutputDir: string := "src/components"

  /** The options after the defaults of the destructuring are filled in. */
  datatype Settings = Settings(
    includes: seq<string>,
    excludes: seq<string>,
    outputDir: string,
    prettier: bool,
    customComponentName: Option<string -> string>)

  function Resolve(options: PluginOptions): Settings {
    Settings(options.includes.GetOr(DefaultInclude), options.excludes.GetOr(DefaultExclude),
             options.outputDir.GetOr(DefaultOutputDir), options.prettier.GetOr(true),
             options.customComponentName)
  }

  /** A module is processed when it matches an include pattern and no exclude pattern. */
  predicate ShouldProcess(id: string, settings: Settings, matches: (string, string) -> bool) {
    AnyMatch(id, settings.includes, matches) && !AnyMatch(id, settings.excludes, matches)
  }

  lemma ShouldProcessMeaning(id: string, settings: Settings, matches: (string, string) -> bool)
    ensures ShouldProcess(id, settings, matches) <==>
              (exists k :: 0 <= k < |settings.includes| && matches(id, settings.includes[k])) &&
              (forall k :: 0 <= k < |settings.excludes| ==> !matches(id, settings.excludes[k]))
  {
    AnyMatchMeaning(id, settings.includes, matches);
    AnyMatchMeaning(id, settings.excludes, matches);
  }

  /**
   * With the default options, a module under `node_modules` or `dist` (as the matcher judges it) is
   * never processed, and one that matches neither default include pattern is not either.
   */
  lemma DefaultsSkip(id: string, matches: (string, string) -> bool)
    ensures matches(id, "**/node_modules/**") || matches(id, "**/dist/**") ==>
              !ShouldProcess(id, Resolve(PluginOptions(None, None, None, None, None)), matches)
    ensures !matches(id, "**/*.jquery.js") && !matches(id, "**/*.jquery.html") ==>
              !ShouldProcess(id, Resolve(PluginOptions(None, None, None, None, None)), matches)
  {
    var s := Resolve(PluginOptions(None, None, None, None, None));
    assert s.includes == DefaultInclude && s.excludes == DefaultExclude;
    ShouldProcessMeaning(id, s, matches);
    if exists k :: 0 <= k < |s.includes| && matches(id, s.includes[k]) {
      var k :| 0 <= k < |s.includes| && matches(id, s.includes[k]);
      assert s.includes[k] == "**/*.jquery.js" || s.includes[k] == "**/*.jquery.html";
    }
    assert s.excludes[0] == "**/node_modules/**" && s.excludes[1] == "**/dist/**";
  }

  // ---------------------------------------------------------------------------
  // the transform hook

  /** What one call of the `transform` hook does: its return value and the file it writes. */
  datatype HookEffect = HookEffect(returned: Option<string>, written: Option<(string, string)>)

  /**
   * The `transform` hook. When the module is processed, the output path is computed, and the
   * transformer runs on the code with the file path, the `prettier` setting and, as the component
   * name, the output path's base name without its extension (`stem`, which is
   * `path.basename(p, path.extname(p))`). The output directory is then made (`mkdir`, which says
   * whether that succeeds for the path), and the text is written. A failed conversion or a failed
   * `mkdir` is caught and nothing is written. The original module is always left as it is.
   */
  function TransformHook(code: string, id: string, settings: Settings, matches: (string, string) -> bool,
                         cwd: string, dirName: string, baseName: string, stem: string -> string,
                         convert: (string, string, bool, string) -> Result<string, string>,
                         mkdir: string -> bool): (e: HookEffect)
    ensures e.returned == None
    ensures e.written.Some? <==>
              var path := OutputPath(cwd, settings.outputDir, dirName, id, baseName, settings.customComponentName);
              && ShouldProcess(id, settings, matches)
              && convert(code, id, settings.prettier, stem(path)).Ok?
              && mkdir(path)
    ensures e.written.Some? ==>
              var path := OutputPath(cwd, settings.outputDir, dirName, id, baseName, settings.customComponentName);
              && e.written.value.0 == path
              && e.written.value.1 == convert(code, id, settings.prettier, stem(path)).value
  {
    if !ShouldProcess(id, settings, matches) then HookEffect(None, None)
    else
      var outputFilePath := OutputPath(cwd, settings.outputDir, dirName, id, baseName, settings.customComponentName);
      match convert(code, id, settings.prettier, stem(outputFilePath))
      case Err(_) => HookEffect(None, None)
      case Ok(text) => if mkdir(outputFilePath) then HookEffect(None, Some((outputFilePath, text))) else HookEffect(None, None)
  }

  /**
   * A written component goes to a path ending in `/<name>.tsx` for the name `getOutputPath` chose;
   * without a custom naming function that name holds no `.`.
   */
  lemma HookWritesComponentFile(code: string, id: string, settings: Settings, matches: (string, string) -> bool,
                                cwd: string, dirName: string, baseName: string, stem: string -> string,
                                convert: (string, string, bool, string) -> Result<string, string>,
                                mkdir: string -> bool)
    requires TransformHook(code, id, settings, matches, cwd, dirName, baseName, stem, convert, mkdir).written.Some?
    ensures var path := TransformHook(code, id, settings, matches, cwd, dirName, baseName, stem, convert, mkdir).written.value.0;
            EndsWith(path, "/" + (OutputComponentName(id, baseName, settings.customComponentName) + ".tsx"))
    ensures settings.customComponentName.None? ==> '.' !in OutputComponentName(id, baseName, settings.customComponentName)
  {
    OutputPathEnd(cwd, settings.outputDir, dirName, id, baseName, settings.customComponentName);
  }
}
