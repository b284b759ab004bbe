/**
 * `src/patterns/index.ts`: three pattern stubs, each a regular-expression detector and a
 * transform that returns a placeholder comment.
 *
 * The regular expressions are written in the pieces of `Regex`. The match array handed to a
 * transform is a sequence of strings; the `options` object is reduced to the one key that is
 * read, `ajaxHandler`, absent or a string.
 */
module Patterns {
  import opened Wrappers
  import opened Strings
  import opened Regex

  datatype PatternOptions = PatternOptions(ajaxHandler: Option<string>)

  // ---------------------------------------------------------------------------
  // delegated events

  /** `['"]` */
  const Quote: CharClass := AnyOf(['\'', '"'])

  /** `['"]\w+['"], ['"].*['"]` */
  const DelegatedArgs: Pattern :=
    [One(Quote), One(Word), Star(Word), One(Quote)] + Literal(", ") + [One(Quote), Star(Dot), One(Quote)]

  /** The pieces after `.*`: `\)\.on\(`, the arguments and `, function`. */
  const DelegatedTail: Pattern := Literal(").on(") + (DelegatedArgs + Literal(", function"))

  /** `/\$\(.*\)\.on\(['"]\w+['"], ['"].*['"], function/` */
  const DelegatedEvents: Pattern := Literal("$(") + ([Star(Dot)] + DelegatedTail)

  predicate DelegatedDetect(code: string) {
    Test(DelegatedEvents, code)
  }

  /** A match of `w`, then `.*`, then `rest` at `i`: `w` occurs at `i` and `rest` matches further on. */
  lemma LiteralThenAny(w: string, rest: Pattern, code: string, i: nat) returns (j: nat)
    requires i <= |code| && MatchesAt(Literal(w) + ([Star(Dot)] + rest), code, i)
    ensures OccursAt(code, w, i) && i + |w| <= j <= |code| && MatchesAt(rest, code, j)
    ensures forall k :: i + |w| <= k < j ==> Accepts(Dot, code[k])
  {
    LiteralThen(w, [Star(Dot)] + rest, code, i);
    j := StarSkip(Dot, rest, code, i + |w|);
  }

  /** A match of `w`, then `rest` at `j`, ending with the literal `w3`: `w3` occurs after `w`. */
  lemma LiteralThenLast(w: string, args: Pattern, w3: string, code: string, j: nat) returns (k: nat)
    requires j <= |code| && MatchesAt(Literal(w) + (args + Literal(w3)), code, j)
    ensures OccursAt(code, w, j) && j + |w| <= k && OccursAt(code, w3, k)
  {
    LiteralThen(w, args + Literal(w3), code, j);
    k := MatchThrough(args, Literal(w3), code, j + |w|);
    assert Literal(w3) + [] == Literal(w3);
    LiteralThen(w3, [], code, k);
  }

  /** `w1`, then anything on the line, then `w2`, `args` and `w3`: the three literals occur in order. */
  lemma LiteralsInOrder(w1: string, w2: string, args: Pattern, w3: string, code: string, i: nat)
    requires i <= |code| && MatchesAt(Literal(w1) + ([Star(Dot)] + (Literal(w2) + (args + Literal(w3)))), code, i)
    ensures exists j: nat, k: nat :: i + |w1| <= j && j + |w2| <= k && OccursAt(code, w1, i)
              && OccursAt(code, w2, j) && OccursAt(code, w3, k)
  {
    var j := LiteralThenAny(w1, Literal(w2) + (args + Literal(w3)), code, i);
    var k := LiteralThenLast(w2, args, w3, code, j);
  }

  /** A detected delegated handler has `$(`, then `).on(`, then `, function`, in that order. */
  lemma DelegatedDetectNeeds(code: string)
    requires DelegatedDetect(code)
    ensures exists i: nat, j: nat, k: nat :: i + 2 <= j && j + 5 <= k && OccursAt(code, "$(", i)
              && OccursAt(code, ").on(", j) && OccursAt(code, ", function", k)
  {
    var i: nat :| i <= |code| && MatchesAt(DelegatedEvents, code, i);
    LiteralsInOrder("$(", ").on(", DelegatedArgs, ", function", code, i);
  }

  function DelegatedTransform(m: seq<string>): string {
    "/* 이벤트 위임 변환 */"
  }

  // ---------------------------------------------------------------------------
  // ajax

  /** `/\$\.ajax\(/` */
  const AjaxCall: Pattern := Literal("$.ajax(")

  predicate AjaxDetect(code: string) {
    Test(AjaxCall, code)
  }

  /** The ajax detector fires exactly on code containing `$.ajax(`. */
  lemma AjaxDetectMeaning(code: string)
    ensures AjaxDetect(code) <==> Contains(code, "$.ajax(")
  {
    LiteralTest("$.ajax(", code);
  }

  const AxiosComment: string := "/* axios 변환 */"
  const FetchComment: string := "/* fetch 변환 */"

  /** The axios placeholder exactly for `ajaxHandler === 'axios'`, the fetch one otherwise. */
  function AjaxTransform(m: seq<string>, options: PatternOptions): (r: string)
    ensures r == AxiosComment <==> options.ajaxHandler == Some("axios")
    ensures r == FetchComment <==> options.ajaxHandler != Some("axios")
  {
    if options.ajaxHandler == Some("axios") then AxiosComment else FetchComment
  }

  // ---------------------------------------------------------------------------
  // plugins

  /**
   * The pattern `new RegExp(`\$\\(.*\\)\\.${plugin}`)` compiles to: in a template literal `\$` is
   * just `$`, so the source text is `$\(.*\)\.` followed by the name, and its first piece is the
   * end-of-input anchor. The name is taken literally.
   */
  function PluginPatternAsWritten(plugin: string): Pattern {
    [EndOfInput] + Literal("(") + [Star(Dot)] + Literal(").") + Literal(plugin)
  }

  /** `pluginList.some(plugin => ... .test(code))`, with the pattern as written. */
  predicate PluginDetect(code: string, plugins: seq<string>) {
    exists k :: 0 <= k < |plugins| && Test(PluginPatternAsWritten(plugins[k]), code)
  }

  lemma PluginDetectEmptyList(code: string)
    ensures !PluginDetect(code, [])
  {
  }

  /**
   * As written, the plugin detector never fires: the anchor only holds at the end of the input,
   * where the `(` that must follow it cannot be.
   */
  lemma PluginDetectNeverFires(code: string, plugins: seq<string>)
    ensures !PluginDetect(code, plugins)
  {
    forall k, i: nat | 0 <= k < |plugins| && i <= |code|
      ensures !MatchesAt(PluginPatternAsWritten(plugins[k]), code, i)
    {
      var p := PluginPatternAsWritten(plugins[k]);
      assert p[0] == EndOfInput && p[1] == One(Lit('('));
      assert p[1..][0] == One(Lit('('));
    }
  }

  /** The same call on a plugin, `$("#carousel").slick()`, is not detected. */
  lemma PluginCallMissed()
    ensures !PluginDetect("$(\"#carousel\").slick()", ["slick"])
  {
    PluginDetectNeverFires("$(\"#carousel\").slick()", ["slick"]);
  }

  /** The evidently intended pattern `\$\(.*\)\.` followed by the name, `$` matched literally. */
  function IntendedPluginPattern(plugin: string): Pattern {
    Literal("$(") + ([Star(Dot)] + Literal(")." + plugin))
  }

  predicate IntendedPluginDetect(code: string, plugins: seq<string>) {
    exists k :: 0 <= k < |plugins| && Test(IntendedPluginPattern(plugins[k]), code)
  }

  /** No line terminator among `s[a..b]`. */
  predicate OnOneLine(s: string, a: nat, b: nat)
    requires a <= b <= |s|
  {
    forall k :: a <= k < b ==> !IsLineTerminator(s[k])
  }

  /** Where the intended pattern matches, `$(` is followed on the same line by `).` and the name. */
  lemma IntendedPluginSound(plugin: string, s: string, i: nat) returns (j: nat)
    requires i <= |s| && MatchesAt(IntendedPluginPattern(plugin), s, i)
    ensures i + 2 <= j <= |s| && OccursAt(s, "$(", i) && OnOneLine(s, i + 2, j) && OccursAt(s, ")." + plugin, j)
  {
    var q := ")." + plugin;
    j := LiteralThenAny("$(", Literal(q), s, i);
    assert Literal(q) + [] == Literal(q);
    LiteralThen(q, [], s, j);
  }

  /** Conversely, such a call is matched from its `$(`. */
  lemma IntendedPluginComplete(plugin: string, s: string, i: nat, j: nat)
    requires i + 2 <= j <= |s| && OccursAt(s, "$(", i) && OnOneLine(s, i + 2, j) && OccursAt(s, ")." + plugin, j)
    ensures MatchesAt(IntendedPluginPattern(plugin), s, i)
  {
    var q := ")." + plugin;
    assert Literal(q) + [] == Literal(q);
    LiteralThen(q, [], s, j);
    StarConsume(Dot, Literal(q), s, i + 2, j);
    LiteralThen("$(", [Star(Dot)] + Literal(q), s, i);
  }

  /**
   * The intended pattern finds a plugin call exactly when `$(` is followed, later on the same
   * line, by `).` and the plugin's name.
   */
  lemma IntendedPluginMeaning(plugin: string, s: string)
    ensures Test(IntendedPluginPattern(plugin), s) <==>
              exists i: nat, j: nat :: i + 2 <= j <= |s| && OccursAt(s, "$(", i) && OnOneLine(s, i + 2, j)
                                   && OccursAt(s, ")." + plugin, j)
  {
    if Test(IntendedPluginPattern(plugin), s) {
      var i: nat :| i <= |s| && MatchesAt(IntendedPluginPattern(plugin), s, i);
      var j := IntendedPluginSound(plugin, s, i);
    }
    if exists i: nat, j: nat :: i + 2 <= j <= |s| && OccursAt(s, "$(", i) && OnOneLine(s, i + 2, j)
                              && OccursAt(s, ")." + plugin, j) {
      var i: nat, j: nat :| i + 2 <= j <= |s| && OccursAt(s, "$(", i) && OnOneLine(s, i + 2, j)
                           && OccursAt(s, ")." + plugin, j);
      IntendedPluginComplete(plugin, s, i, j);
    }
  }

  /** With the intended pattern, `$("#carousel").slick()` is detected for `["slick"]`. */
  lemma IntendedPluginFindsCall()
    ensures IntendedPluginDetect("$(\"#carousel\").slick()", ["slick"])
  {
    var s := "$(\"#carousel\").slick()";
    IntendedPluginMeaning("slick", s);
    assert OccursAt(s, "$(", 0);
    assert OccursAt(s, ")." + "slick", 13);
    assert OnOneLine(s, 2, 13);
    assert ["slick"][0] == "slick";
  }

  function PluginTransform(m: seq<string>, options: PatternOptions): string {
    "/* 플러그인 변환 */"
  }

  /** The delegated-event transform returns its placeholder whatever the match. */
  lemma DelegatedPlaceholder(m1: seq<string>, m2: seq<string>)
    ensures DelegatedTransform(m1) == DelegatedTransform(m2) == "/* 이벤트 위임 변환 */"
  {
  }

  /** The plugin transform returns its placeholder whatever the match and the options. */
  lemma PluginPlaceholder(m1: seq<string>, m2: seq<string>, o1: PatternOptions, o2: PatternOptions)
    ensures PluginTransform(m1, o1) == PluginTransform(m2, o2) == "/* 플러그인 변환 */"
  {
  }
}
