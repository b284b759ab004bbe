/**
 * The JavaScript and Rust string operations the transformer relies on, over `string`
 * (`seq<char>`): substring search, `split` on a set of one-character separators, `join`,
 * `replace` of the first occurrence (a string or non-global pattern) and of every occurrence
 * (a global pattern), ASCII case mapping. Each comes with the facts the other modules need.
 */
module Strings {

  /** `p` occurs in `s` at index `i`. */
  predicate OccursAt(s: string, p: string, i: nat) {
    i + |p| <= |s| && s[i..i + |p|] == p
  }

  /** JavaScript `s.includes(p)`. */
  predicate Contains(s: string, p: string) {
    exists i: nat | i <= |s| :: OccursAt(s, p, i)
  }

  /** JavaScript `s.startsWith(p)`. */
  predicate StartsWith(s: string, p: string) {
    |p| <= |s| && s[..|p|] == p
  }

  predicate EndsWith(s: string, p: string) {
    |p| <= |s| && s[|s| - |p|..] == p
  }

  /** No character of `w` is in `cs`. */
  predicate NoneIn(w: string, cs: set<char>) {
    forall i :: 0 <= i < |w| ==> w[i] !in cs
  }

  lemma ContainsInfix(a: string, b: string, c: string, p: string)
    requires Contains(b, p)
    ensures Contains(a + b + c, p)
  {
    var j: nat :| j <= |b| && OccursAt(b, p, j);
    var s := a + b + c;
    assert s[|a| + j..|a| + j + |p|] == b[j..j + |p|];
    assert OccursAt(s, p, |a| + j);
  }

  lemma PrefixGrows(s: string, p: string, t: string)
    requires StartsWith(s, p)
    ensures StartsWith(s + t, p)
  {
    assert (s + t)[..|p|] == s[..|p|];
  }

  lemma SuffixGrows(s: string, p: string, t: string)
    requires EndsWith(s, p)
    ensures EndsWith(t + s, p)
  {
    assert (t + s)[|t + s| - |p|..] == s[|s| - |p|..];
  }

  /** Wrapping `body` between `head` and `tail` keeps the head's prefix and the body's suffix. */
  lemma Wrapped(head: string, body: string, tail: string, p: string, q: string)
    requires StartsWith(head, p) && EndsWith(body, q)
    ensures StartsWith(head + (body + tail), p)
    ensures EndsWith(head + (body + tail), q + tail)
  {
    PrefixGrows(head, p, body + tail);
    assert (body + tail)[|body + tail| - |q + tail|..] == body[|body| - |q|..] + tail;
    SuffixGrows(body + tail, q + tail, head);
  }

  lemma ContainsSelf(p: string)
    ensures Contains(p, p)
  {
    assert OccursAt(p, p, 0);
  }

  /** An occurrence survives appending on either side. */
  lemma ContainsExtend(s: string, p: string, t: string)
    requires Contains(s, p)
    ensures Contains(s + t, p) && Contains(t + s, p)
  {
    var i: nat :| i <= |s| && OccursAt(s, p, i);
    assert (s + t)[i..i + |p|] == s[i..i + |p|];
    assert OccursAt(s + t, p, i);
    assert (t + s)[|t| + i..|t| + i + |p|] == s[i..i + |p|];
    assert OccursAt(t + s, p, |t| + i);
  }

  lemma ContainsTrans(s: string, m: string, p: string)
    requires Contains(s, m) && Contains(m, p)
    ensures Contains(s, p)
  {
    var i: nat :| i <= |s| && OccursAt(s, m, i);
    var j: nat :| j <= |m| && OccursAt(m, p, j);
    forall k | 0 <= k < |p| ensures s[i + j + k] == p[k] {
      assert s[i..i + |m|][j + k] == m[j + k];
      assert m[j..j + |p|][k] == p[k];
    }
    assert s[i + j..i + j + |p|] == p;
    assert OccursAt(s, p, i + j);
  }

  lemma EndsWithAppend(s: string, t: string)
    ensures EndsWith(s + t, t)
  {
    assert (s + t)[|s + t| - |t|..] == t;
  }

  lemma StartsWithContains(s: string, p: string)
    requires StartsWith(s, p)
    ensures Contains(s, p)
  {
    assert OccursAt(s, p, 0);
  }

  /** A suffix of a string without `q` has no `q` either. */
  lemma NoOccSuffix(t: string, q: string, m: nat)
    requires m <= |t| && !Contains(t, q)
    ensures !Contains(t[m..], q)
  {
    forall k: nat | k <= |t[m..]| ensures !OccursAt(t[m..], q, k) {
      if k + |q| <= |t[m..]| {
        assert t[m..][k..k + |q|] == t[m + k..m + k + |q|];
        assert !OccursAt(t, q, m + k);
      }
    }
  }

  /** A prefix of a string without `q` has no `q` either. */
  lemma NoOccPrefix(t: string, q: string, u: string)
    requires StartsWith(t, u) && !Contains(t, q)
    ensures !Contains(u, q)
  {
    forall k: nat | k <= |u| ensures !OccursAt(u, q, k) {
      if k + |q| <= |u| {
        assert u == t[..|u|];
        assert u[k..k + |q|] == t[..|u|][k..k + |q|] == t[k..k + |q|];
        assert !OccursAt(t, q, k);
      }
    }
  }

  /** Gluing two strings without `q` by a character that `q` does not use creates no `q`. */
  lemma NoOccAcross(a: string, c: char, b: string, q: string)
    requires !Contains(a, q) && !Contains(b, q) && c !in q
    ensures !Contains(a + [c] + b, q)
  {
    var s := a + [c] + b;
    forall k: nat | k <= |s| ensures !OccursAt(s, q, k) {
      if k + |q| <= |a| {
        assert s[k..k + |q|] == a[k..k + |q|];
        assert !OccursAt(a, q, k);
      } else if k <= |a| && k + |q| <= |s| {
        assert s[k..k + |q|][|a| - k] == c;
        assert q[|a| - k] != c;
      } else if k + |q| <= |s| {
        assert s[k..k + |q|] == b[k - |a| - 1..k - |a| - 1 + |q|];
        assert !OccursAt(b, q, k - |a| - 1);
      }
    }
  }

  // ---------------------------------------------------------------------------
  // split and join

  /**
   * JavaScript `s.split(sep)` where `sep` matches exactly one character of `seps` (a one-character
   * string or a regular expression that is one character class): the maximal runs between
   * separators, empty runs included, so the result is never empty.
   */
  function Split(s: string, seps: set<char>): (parts: seq<string>)
    ensures |parts| >= 1
    ensures forall k :: 0 <= k < |parts| ==> NoneIn(parts[k], seps)
    decreases |s|
  {
    if s == [] then [""]
    else
      var rest := Split(s[1..], seps);
      if s[0] in seps then [""] + rest
      else [[s[0]] + rest[0]] + rest[1..]
  }

  /** JavaScript `parts.join(sep)`. */
  function Join(parts: seq<string>, sep: string): string {
    if |parts| == 0 then ""
    else if |parts| == 1 then parts[0]
    else parts[0] + sep + Join(parts[1..], sep)
  }

  /** Splitting on one character and joining back with it gives the original string. */
  lemma {:induction false} SplitThenJoin(s: string, c: char)
    ensures Join(Split(s, {c}), [c]) == s
    decreases |s|
  {
    if s != [] {
      var rest := Split(s[1..], {c});
      SplitThenJoin(s[1..], c);
      if s[0] == c {
        assert Split(s, {c}) == [""] + rest;
        assert ([""] + rest)[1..] == rest;
      } else if |rest| == 1 {
        assert Split(s, {c}) == [[s[0]] + rest[0]];
      } else {
        var parts := [[s[0]] + rest[0]] + rest[1..];
        assert Split(s, {c}) == parts;
        assert parts[1..] == rest[1..];
        assert Join(rest, [c]) == rest[0] + [c] + Join(rest[1..], [c]);
      }
    }
  }

  /** Splitting a string that starts with a separator-free run `p`: the run heads the first part. */
  lemma {:induction false} SplitPrefix(p: string, t: string, seps: set<char>)
    requires NoneIn(p, seps)
    ensures Split(p + t, seps) == [p + Split(t, seps)[0]] + Split(t, seps)[1..]
    decreases |p|
  {
    if p == [] {
      assert p + t == t;
      var r := Split(t, seps);
      assert p + r[0] == r[0];
      assert [p + r[0]] + r[1..] == r;
    } else {
      SplitPrefix(p[1..], t, seps);
      assert (p + t)[1..] == p[1..] + t;
      assert p[0] !in seps;
      assert [p[0]] + (p[1..] + Split(t, seps)[0]) == p + Split(t, seps)[0];
    }
  }

  /** Joining separator-free parts with one character and splitting on it gives the parts back. */
  lemma {:induction false} JoinThenSplit(parts: seq<string>, c: char)
    requires |parts| >= 1
    requires forall k :: 0 <= k < |parts| ==> NoneIn(parts[k], {c})
    ensures Split(Join(parts, [c]), {c}) == parts
    decreases |parts|
  {
    if |parts| == 1 {
      SplitPrefix(parts[0], "", {c});
      assert parts[0] + "" == parts[0];
    } else {
      var tail := Join(parts[1..], [c]);
      JoinThenSplit(parts[1..], c);
      assert Join(parts, [c]) == parts[0] + ([c] + tail);
      SplitPrefix(parts[0], [c] + tail, {c});
      assert ([c] + tail)[1..] == tail;
      assert Split([c] + tail, {c}) == [""] + parts[1..];
      assert parts[0] + "" == parts[0];
    }
  }

  /** Joining the first `k` parts gives a prefix of joining all of them. */
  lemma {:induction false} JoinPrefix(parts: seq<string>, k: nat, sep: string)
    requires 1 <= k <= |parts|
    ensures StartsWith(Join(parts, sep), Join(parts[..k], sep))
    decreases k
  {
    if k == |parts| {
      assert parts[..k] == parts;
    } else if k == 1 {
      assert parts[..1] == [parts[0]];
    } else {
      JoinPrefix(parts[1..], k - 1, sep);
      assert parts[..k][1..] == parts[1..][..k - 1];
      var u := Join(parts[1..][..k - 1], sep);
      var v := Join(parts[1..], sep);
      assert Join(parts[..k], sep) == parts[0] + sep + u;
      assert Join(parts, sep) == parts[0] + sep + v;
      assert v[..|u|] == u;
      assert (parts[0] + sep + v)[..|parts[0] + sep + u|] == parts[0] + sep + u;
    }
  }

  lemma {:induction false} JoinSnoc(parts: seq<string>, x: string, sep: string)
    requires |parts| >= 1
    ensures Join(parts + [x], sep) == Join(parts, sep) + sep + x
    decreases |parts|
  {
    if |parts| > 1 {
      JoinSnoc(parts[1..], x, sep);
      assert (parts + [x])[1..] == parts[1..] + [x];
    }
  }

  /** Joining with the empty separator is concatenation. */
  lemma JoinEmptySep(parts: seq<string>)
    requires |parts| >= 1
    ensures Join(parts, "") == parts[0] + Join(parts[1..], "")
  {
    if |parts| == 1 {
      assert parts[0] + "" == parts[0];
    }
  }

  // ---------------------------------------------------------------------------
  // replace

  /**
   * JavaScript `s.replace(pat, rep)` with a string pattern, or with a regular expression that is a
   * plain literal and has no `g` flag: the first occurrence of `pat` is replaced.
   */
  function ReplaceFirst(s: string, pat: string, rep: string): string
    decreases |s|
  {
    if StartsWith(s, pat) then rep + s[|pat|..]
    else if s == [] then s
    else [s[0]] + ReplaceFirst(s[1..], pat, rep)
  }

  lemma NoOccShift(s: string, pat: string, i: nat)
    requires 0 < i <= |s|
    requires forall j: nat :: j < i ==> !OccursAt(s, pat, j)
    ensures forall j: nat :: j < i - 1 ==> !OccursAt(s[1..], pat, j)
  {
    forall j: nat | j < i - 1 ensures !OccursAt(s[1..], pat, j) {
      assert !OccursAt(s, pat, j + 1);
      if j + |pat| <= |s[1..]| {
        assert s[1..][j..j + |pat|] == s[j + 1..j + 1 + |pat|];
      }
    }
  }

  /** The replacement lands exactly at the first occurrence of the pattern; everything else is kept. */
  lemma {:induction false} ReplaceFirstAt(s: string, pat: string, rep: string, i: nat)
    requires OccursAt(s, pat, i)
    requires forall j: nat :: j < i ==> !OccursAt(s, pat, j)
    ensures ReplaceFirst(s, pat, rep) == s[..i] + rep + s[i + |pat|..]
    decreases i
  {
    if i == 0 {
      assert s[..|pat|] == pat;
    } else {
      assert !OccursAt(s, pat, 0);
      NoOccShift(s, pat, i);
      assert s[1..][i - 1..i - 1 + |pat|] == s[i..i + |pat|];
      ReplaceFirstAt(s[1..], pat, rep, i - 1);
      assert [s[0]] + s[1..][..i - 1] == s[..i];
      assert s[1..][i - 1 + |pat|..] == s[i + |pat|..];
    }
  }

  /** Without an occurrence of the pattern the string is returned unchanged. */
  lemma {:induction false} ReplaceFirstAbsent(s: string, pat: string, rep: string)
    requires !Contains(s, pat)
    ensures ReplaceFirst(s, pat, rep) == s
    decreases |s|
  {
    assert !OccursAt(s, pat, 0);
    if s != [] {
      NoOccSuffix(s, pat, 1);
      ReplaceFirstAbsent(s[1..], pat, rep);
    }
  }

  /**
   * JavaScript `s.replace(/pat/g, rep)` for a non-empty literal `pat`: occurrences are replaced
   * left to right, and scanning resumes after each replaced occurrence.
   */
  function ReplaceAll(s: string, pat: string, rep: string): string
    requires |pat| > 0
    decreases |s|
  {
    if s == [] then s
    else if StartsWith(s, pat) then rep + ReplaceAll(s[|pat|..], pat, rep)
    else [s[0]] + ReplaceAll(s[1..], pat, rep)
  }

  /**
   * When the replacement does not start with a character of `w`, the output can start with `w`
   * only where the input already did.
   */
  lemma {:induction false} ReplaceAllPrefixReflect(t: string, w: string, pat: string, rep: string)
    requires |pat| > 0 && |rep| > 0 && rep[0] !in w
    ensures StartsWith(ReplaceAll(t, pat, rep), w) ==> StartsWith(t, w)
    decreases |t|
  {
    var out := ReplaceAll(t, pat, rep);
    if w != [] && t != [] {
      if StartsWith(t, pat) {
        assert out[0] == rep[0] != w[0];
        assert |w| <= |out| ==> out[..|w|][0] == out[0];
      } else {
        var r := ReplaceAll(t[1..], pat, rep);
        ReplaceAllPrefixReflect(t[1..], w[1..], pat, rep);
        assert out == [t[0]] + r;
        assert |w| <= |out| ==> out[..|w|] == [t[0]] + r[..|w| - 1];
        assert |w| <= |t| ==> t[..|w|] == [t[0]] + t[1..][..|w| - 1];
      }
    }
  }

  /** A replacement that cannot take part in an occurrence, followed by a clean rest, is clean. */
  lemma RepThenClean(rep: string, r: string, pat: string)
    requires |pat| > 0 && |rep| > 0
    requires !StartsWith(rep, pat) && !StartsWith(pat, rep) && pat[0] !in rep[1..]
    requires !Contains(r, pat)
    ensures !Contains(rep + r, pat)
  {
    var out := rep + r;
    forall k: nat | k <= |out| ensures !OccursAt(out, pat, k) {
      if k + |pat| <= |out| {
        if k >= |rep| {
          assert out[k..k + |pat|] == r[k - |rep|..k - |rep| + |pat|];
          assert !OccursAt(r, pat, k - |rep|);
        } else if k == 0 {
          if |rep| >= |pat| {
            assert out[..|pat|] == rep[..|pat|];
          } else {
            assert out[..|pat|][..|rep|] == rep;
          }
        } else {
          assert out[k..k + |pat|][0] == rep[1..][k - 1];
        }
      }
    }
  }

  /** A replacement none of whose characters starts `q`, followed by a rest without `q`, has no `q`. */
  lemma RepThenAbsent(rep: string, r: string, q: string)
    requires |q| > 0 && q[0] !in rep
    requires !Contains(r, q)
    ensures !Contains(rep + r, q)
  {
    var out := rep + r;
    forall k: nat | k <= |out| ensures !OccursAt(out, q, k) {
      if k + |q| <= |out| {
        if k >= |rep| {
          assert out[k..k + |q|] == r[k - |rep|..k - |rep| + |q|];
          assert !OccursAt(r, q, k - |rep|);
        } else {
          assert out[k..k + |q|][0] == rep[k];
        }
      }
    }
  }

  /**
   * A kept character `c` in front of a rest without `q`: no `q` either, provided the rest starts
   * with the remainder of `q` only when the unreplaced rest `u` did, and `c` followed by `u` does
   * not start with `q`.
   */
  lemma CharThenAbsent(c: char, r: string, u: string, q: string)
    requires |q| > 0 && !Contains(r, q)
    requires StartsWith(r, q[1..]) ==> StartsWith(u, q[1..])
    requires !StartsWith([c] + u, q)
    ensures !Contains([c] + r, q)
  {
    var out := [c] + r;
    forall k: nat | k <= |out| ensures !OccursAt(out, q, k) {
      if k + |q| <= |out| {
        if k >= 1 {
          assert out[k..k + |q|] == r[k - 1..k - 1 + |q|];
          assert !OccursAt(r, q, k - 1);
        } else {
          assert out[..|q|] == [c] + r[..|q| - 1];
          assert |q| <= |[c] + u| ==> ([c] + u)[..|q|] == [c] + u[..|q| - 1];
        }
      }
    }
  }

  /**
   * A global replace leaves no occurrence of its own pattern, provided the replacement cannot
   * take part in one: it does not start an occurrence, no later character of it starts one, and
   * its first character cannot continue one.
   */
  lemma {:induction false} ReplaceAllRemoves(t: string, pat: string, rep: string)
    requires |pat| > 0 && |rep| > 0
    requires !StartsWith(rep, pat) && !StartsWith(pat, rep)
    requires pat[0] !in rep[1..] && rep[0] !in pat[1..]
    ensures !Contains(ReplaceAll(t, pat, rep), pat)
    decreases |t|
  {
    if t == [] {
      assert ReplaceAll(t, pat, rep) == [];
    } else if StartsWith(t, pat) {
      ReplaceAllRemoves(t[|pat|..], pat, rep);
      RepThenClean(rep, ReplaceAll(t[|pat|..], pat, rep), pat);
    } else {
      ReplaceAllRemoves(t[1..], pat, rep);
      ReplaceAllPrefixReflect(t[1..], pat[1..], pat, rep);
      assert [t[0]] + t[1..] == t;
      CharThenAbsent(t[0], ReplaceAll(t[1..], pat, rep), t[1..], pat);
    }
  }

  /**
   * A global replace introduces no occurrence of another string `q` when the replacement cannot
   * take part in one.
   */
  lemma {:induction false} ReplaceAllKeepsAbsent(t: string, q: string, pat: string, rep: string)
    requires |pat| > 0 && |rep| > 0 && |q| > 0
    requires q[0] !in rep && rep[0] !in q[1..]
    requires !Contains(t, q)
    ensures !Contains(ReplaceAll(t, pat, rep), q)
    decreases |t|
  {
    if t == [] {
      assert ReplaceAll(t, pat, rep) == [];
    } else if StartsWith(t, pat) {
      NoOccSuffix(t, q, |pat|);
      ReplaceAllKeepsAbsent(t[|pat|..], q, pat, rep);
      RepThenAbsent(rep, ReplaceAll(t[|pat|..], pat, rep), q);
    } else {
      NoOccSuffix(t, q, 1);
      ReplaceAllKeepsAbsent(t[1..], q, pat, rep);
      ReplaceAllPrefixReflect(t[1..], q[1..], pat, rep);
      assert !OccursAt(t, q, 0);
      assert [t[0]] + t[1..] == t;
      CharThenAbsent(t[0], ReplaceAll(t[1..], pat, rep), t[1..], q);
    }
  }

  // ---------------------------------------------------------------------------
  // ASCII case mapping and character classes

  function LowerChar(c: char): char {
    if 'A' <= c <= 'Z' then (c as int + 32) as char else c
  }

  function UpperChar(c: char): char {
    if 'a' <= c <= 'z' then (c as int - 32) as char else c
  }

  /** JavaScript `s.toLowerCase()` restricted to ASCII letters. */
  function ToLowerAscii(s: string): (r: string)
    ensures |r| == |s|
    ensures forall i :: 0 <= i < |s| ==> r[i] == LowerChar(s[i])
  {
    seq(|s|, i requires 0 <= i < |s| => LowerChar(s[i]))
  }

  /** A character of the regular-expression class `\w` (without the `u` flag). */
  predicate IsWordChar(c: char) {
    'a' <= c <= 'z' || 'A' <= c <= 'Z' || '0' <= c <= '9' || c == '_'
  }
}
