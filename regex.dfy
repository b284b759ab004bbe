/**
 * The fragment of JavaScript regular expressions that the transformer's patterns use, with the
 * meaning of `RegExp.prototype.test` without flags: literal characters, `.` (any character but a
 * line terminator), `\w`, one-character classes such as `['"]`, the `*` repetition, the `$`
 * end-of-input anchor and the `\b` word boundary. `+` is written as one occurrence followed by a
 * starred one. A pattern matches at an index when some way of consuming the input from there
 * satisfies every piece in order; `test` holds when it matches at some index.
 */
module Regex {
  import opened Strings

  datatype CharClass = Lit(c: char) | Dot | Word | AnyOf(cs: seq<char>)

  datatype Piece =
    | One(cls: CharClass)   // exactly one character of the class
    | Star(cls: CharClass)  // any number of characters of the class
    | EndOfInput            // `$` without the `m` flag
    | WordBoundary          // `\b`

  type Pattern = seq<Piece>

  predicate IsLineTerminator(c: char) {
    c == '\n' || c == '\r' || c == '\U{2028}' || c == '\U{2029}'
  }

  predicate Accepts(cls: CharClass, c: char) {
    match cls
    case Lit(d) => c == d
    case Dot => !IsLineTerminator(c)
    case Word => IsWordChar(c)
    case AnyOf(cs) => c in cs
  }

  /** Index `i` holds a word character (indices outside the string do not). */
  predicate WordAt(s: string, i: int) {
    0 <= i < |s| && IsWordChar(s[i])
  }

  predicate MatchesAt(p: Pattern, s: string, i: nat)
    requires i <= |s|
    decreases |p|, |s| - i
  {
    if p == [] then true
    else match p[0]
      case One(cls) => i < |s| && Accepts(cls, s[i]) && MatchesAt(p[1..], s, i + 1)
      case Star(cls) =>
        MatchesAt(p[1..], s, i) || (i < |s| && Accepts(cls, s[i]) && MatchesAt(p, s, i + 1))
      case EndOfInput => i == |s| && MatchesAt(p[1..], s, i)
      case WordBoundary => WordAt(s, i - 1) != WordAt(s, i) && MatchesAt(p[1..], s, i)
  }

  /** `re.test(s)`. */
  predicate Test(p: Pattern, s: string) {
    exists i: nat | i <= |s| :: MatchesAt(p, s, i)
  }

  /** The pattern that matches the characters of `w` literally. */
  function Literal(w: string): (p: Pattern)
    ensures |p| == |w|
  {
    if w == [] then [] else [One(Lit(w[0]))] + Literal(w[1..])
  }

  lemma OccursAtCons(s: string, w: string, i: nat)
    requires w != []
    ensures OccursAt(s, w, i) <==> i < |s| && s[i] == w[0] && OccursAt(s, w[1..], i + 1)
  {
    if i + |w| <= |s| {
      assert s[i..i + |w|] == [s[i]] + s[i + 1..i + 1 + |w[1..]|];
      assert w == [w[0]] + w[1..];
    }
  }

  lemma {:induction false} LiteralThen(w: string, rest: Pattern, s: string, i: nat)
    requires i <= |s|
    ensures MatchesAt(Literal(w) + rest, s, i) <==> OccursAt(s, w, i) && MatchesAt(rest, s, i + |w|)
    decreases |w|
  {
    if w == [] {
      assert Literal(w) + rest == rest;
    } else {
      var q := Literal(w[1..]) + rest;
      assert Literal(w) == [One(Lit(w[0]))] + Literal(w[1..]);
      assert Literal(w) + rest == [One(Lit(w[0]))] + q;
      OneThen(Lit(w[0]), Literal(w[1..]) + rest, s, i);
      OccursAtCons(s, w, i);
      if i < |s| {
        LiteralThen(w[1..], rest, s, i + 1);
      }
    }
  }

  /** A literal pattern is found exactly where the string contains its text. */
  lemma LiteralTest(w: string, s: string)
    ensures Test(Literal(w), s) <==> Contains(s, w)
  {
    assert Literal(w) + [] == Literal(w);
    forall i: nat | i <= |s| ensures MatchesAt(Literal(w), s, i) <==> OccursAt(s, w, i) {
      LiteralThen(w, [], s, i);
    }
  }

  /** A starred class is left after consuming some run of accepted characters. */
  lemma {:induction false} StarSkip(cls: CharClass, rest: Pattern, s: string, i: nat) returns (j: nat)
    requires i <= |s| && MatchesAt([Star(cls)] + rest, s, i)
    ensures i <= j <= |s| && MatchesAt(rest, s, j)
    ensures forall k :: i <= k < j ==> Accepts(cls, s[k])
    decreases |s| - i
  {
    var p := [Star(cls)] + rest;
    assert p[1..] == rest;
    if MatchesAt(rest, s, i) {
      j := i;
    } else {
      j := StarSkip(cls, rest, s, i + 1);
    }
  }

  /** Conversely a run of accepted characters can be consumed by a starred class. */
  lemma {:induction false} StarConsume(cls: CharClass, rest: Pattern, s: string, i: nat, j: nat)
    requires i <= j <= |s| && MatchesAt(rest, s, j)
    requires forall k :: i <= k < j ==> Accepts(cls, s[k])
    ensures MatchesAt([Star(cls)] + rest, s, i)
    decreases j - i
  {
    var p := [Star(cls)] + rest;
    assert p[1..] == rest;
    if i < j {
      StarConsume(cls, rest, s, i + 1, j);
    }
  }

  lemma OneThen(cls: CharClass, rest: Pattern, s: string, i: nat)
    requires i <= |s|
    ensures MatchesAt([One(cls)] + rest, s, i) <==> i < |s| && Accepts(cls, s[i]) && MatchesAt(rest, s, i + 1)
  {
    assert ([One(cls)] + rest)[1..] == rest;
  }

  /** A match of `p1 + p2` goes through some index from which `p2` matches. */
  lemma {:induction false} MatchThrough(p1: Pattern, p2: Pattern, s: string, i: nat) returns (j: nat)
    requires i <= |s| && MatchesAt(p1 + p2, s, i)
    ensures i <= j <= |s| && MatchesAt(p2, s, j)
    decreases |p1|, |s| - i
  {
    if p1 == [] {
      assert p1 + p2 == p2;
      return i;
    }
    var p := p1 + p2;
    assert p[0] == p1[0] && p[1..] == p1[1..] + p2;
    match p1[0]
    case One(cls) =>
      j := MatchThrough(p1[1..], p2, s, i + 1);
    case Star(cls) =>
      if MatchesAt(p1[1..] + p2, s, i) {
        j := MatchThrough(p1[1..], p2, s, i);
      } else {
        j := MatchThrough(p1, p2, s, i + 1);
      }
    case EndOfInput =>
      j := MatchThrough(p1[1..], p2, s, i);
    case WordBoundary =>
      j := MatchThrough(p1[1..], p2, s, i);
  }

  /** Every literal segment of a pattern that matches occurs in the string. */
  lemma LiteralSegmentOccurs(p1: Pattern, w: string, p2: Pattern, s: string)
    requires Test(p1 + Literal(w) + p2, s)
    ensures Contains(s, w)
  {
    var i: nat :| i <= |s| && MatchesAt(p1 + Literal(w) + p2, s, i);
    assert p1 + Literal(w) + p2 == p1 + (Literal(w) + p2);
    var j := MatchThrough(p1, Literal(w) + p2, s, i);
    LiteralThen(w, p2, s, j);
  }
}
