/** Rewriting the directory of a renamed provider inside its option values, and when that reverses. */
module OptionPaths {

  predicate HasPrefix(s: string, p: string) { |p| <= |s| && s[..|p|] == p }

  /** Every occurrence of `from` from left to right, as Go's strings.ReplaceAll. */
  function ReplaceAll(s: string, from: string, to: string): string
    requires from != ""
  {
    if s == "" then ""
    else if HasPrefix(s, from) then to + ReplaceAll(s[|from|..], from, to)
    else [s[0]] + ReplaceAll(s[1..], from, to)
  }

  /** `path` occurs somewhere in `v`. */
  predicate Mentions(v: string, path: string)
  {
    HasPrefix(v, path) || (v != "" && Mentions(v[1..], path))
  }

  /** Outside the occurrences of `from`, taken from left to right, no occurrence of `other` starts. */
  predicate ClearOf(v: string, from: string, other: string)
    requires from != ""
  {
    if v == "" then true
    else if HasPrefix(v, from) then ClearOf(v[|from|..], from, other)
    else !HasPrefix(v, other) && ClearOf(v[1..], from, other)
  }

  /** A path below the directory follows it, and what does not mention the directory stays. */
  lemma {:induction false} PathsFollow(v: string, from: string, to: string)
    requires from != "" && !Mentions(v, from)
    ensures ReplaceAll(v, from, to) == v && ReplaceAll(from + v, from, to) == to + v
  {
    if v != "" {
      PathsFollow(v[1..], from, to);
      assert v == [v[0]] + v[1..];
    }
    assert (from + v)[..|from|] == from && (from + v)[|from|..] == v;
  }

  lemma {:induction false} UnmentionedIsClear(v: string, from: string, other: string)
    requires from != "" && !Mentions(v, other)
    ensures ClearOf(v, from, other)
  {
    if v == "" {
    } else if HasPrefix(v, from) {
      if Mentions(v[|from|..], other) { MentionsLater(v, other, |from|); }
      UnmentionedIsClear(v[|from|..], from, other);
    } else {
      UnmentionedIsClear(v[1..], from, other);
    }
  }

  lemma {:induction false} MentionsLater(v: string, path: string, n: nat)
    requires n <= |v| && Mentions(v[n..], path)
    ensures Mentions(v, path)
  {
    if n > 0 {
      assert v[1..][n - 1..] == v[n..];
      MentionsLater(v[1..], path, n - 1);
    }
  }

  /** Rewriting keeps what comes before the first occurrence, at `q`, and puts `to` there. */
  lemma {:induction false} FirstRewrite(v: string, from: string, to: string) returns (q: nat, tail: string)
    requires from != ""
    ensures q <= |v| && ReplaceAll(v, from, to) == v[..q] + tail
    ensures if q < |v| then HasPrefix(v[q..], from) && HasPrefix(tail, to) else tail == ""
    ensures q == 0 ==> v == "" || HasPrefix(v, from)
  {
    q, tail := 0, "";
    if v != "" && HasPrefix(v, from) {
      tail := to + ReplaceAll(v[|from|..], from, to);
    } else if v != "" {
      q, tail := FirstRewrite(v[1..], from, to);
      q := q + 1;
      StepThenFirst(v, q, tail);
    }
  }

  lemma StepThenFirst(v: string, q: nat, t: string)
    requires 1 <= q <= |v|
    ensures v[..q] + t == [v[0]] + (v[1..][..q - 1] + t) && v[1..][q - 1..] == v[q..]
  {
    assert v[..q] == [v[0]] + v[1..][..q - 1];
  }

  // ----- Directories -----

  /** Two directories with the same parent; the name of the second is a single path component. */
  predicate Siblings(parent: string, a: string, b: string)
  {
    && parent != "" && parent[|parent| - 1] == '/'
    && HasPrefix(a, parent) && HasPrefix(b, parent)
    && '/' !in b[|parent|..]
  }

  lemma DiffersFrom(x: string, b: string, k: nat)
    requires k < |x| && k < |b| && x[k] != b[k]
    ensures !HasPrefix(x, b)
  {
    if |b| <= |x| { assert x[..|b|][k] == x[k]; }
  }

  /**
   A text that agrees with `x` up to the parent of a later sibling begins with `b` only if `x` does:
   the last separator of `b` lies before its name.
   */
  lemma PrefixUpToSibling(parent: string, b: string, x: string, y: string, q: nat)
    requires parent != "" && parent[|parent| - 1] == '/' && HasPrefix(b, parent) && '/' !in b[|parent|..]
    requires 0 < q && q + |parent| <= |x| && q + |parent| <= |y|
    requires x[..q + |parent|] == y[..q + |parent|] && x[q..q + |parent|] == parent
    ensures HasPrefix(x, b) == HasPrefix(y, b)
  {
    var n := q + |parent|;
    if |b| <= n {
      assert x[..|b|] == x[..n][..|b|] && y[..|b|] == y[..n][..|b|];
    } else {
      assert x[n - 1] == parent[|parent| - 1] == '/';
      assert y[n - 1] == x[..n][n - 1];
      assert b[|parent|..][q - 1] == b[n - 1] != '/';
      DiffersFrom(x, b, n - 1);
      DiffersFrom(y, b, n - 1);
    }
  }

  lemma AgreeUpToParent(parent: string, a: string, b: string, v: string, q: nat, rest: string)
    requires Siblings(parent, a, b) && q <= |v| && HasPrefix(v[q..], a)
    ensures var w, n := v[..q] + (b + rest), q + |parent|;
            n <= |v| && n <= |w| && v[..n] == w[..n] && v[q..n] == parent
  {
    var w, n := v[..q] + (b + rest), q + |parent|;
    assert v[q..n] == v[q..][..|a|][..|parent|];
    assert w[q..n] == b[..|parent|];
    assert v[..n] == v[..q] + v[q..n] && w[..n] == v[..q] + w[q..n];
  }

  /** Rewriting occurrences further on neither adds nor removes one of `b` here. */
  lemma RewritingIsElsewhere(parent: string, a: string, b: string, v: string)
    requires Siblings(parent, a, b) && !HasPrefix(v, a)
    ensures HasPrefix(ReplaceAll(v, a, b), b) == HasPrefix(v, b)
  {
    var q, tail := FirstRewrite(v, a, b);
    if q < |v| {
      assert tail == b + tail[|b|..];
      ReplacedLater(parent, a, b, v, q, tail[|b|..]);
    } else {
      assert v[..q] + "" == v;
    }
  }

  lemma ReplacedLater(parent: string, a: string, b: string, v: string, q: nat, rest: string)
    requires Siblings(parent, a, b) && 0 < q <= |v| && HasPrefix(v[q..], a)
    ensures HasPrefix(v[..q] + (b + rest), b) == HasPrefix(v, b)
  {
    AgreeUpToParent(parent, a, b, v, q, rest);
    PrefixUpToSibling(parent, b, v, v[..q] + (b + rest), q);
  }

  /**
   Rewriting one directory to its sibling and back restores a value exactly when the sibling does not
   occur in it outside the occurrences of the directory itself.
   */
  lemma {:induction false} ReversesIffClear(parent: string, a: string, b: string, v: string)
    requires Siblings(parent, a, b)
    ensures ReplaceAll(ReplaceAll(v, a, b), b, a) == v <==> ClearOf(v, a, b)
    decreases |v|
  {
    var w := ReplaceAll(v, a, b);
    if v == "" {
    } else if HasPrefix(v, a) {
      var rest := v[|a|..];
      var back := ReplaceAll(ReplaceAll(rest, a, b), b, a);
      ReversesIffClear(parent, a, b, rest);
      assert w[|b|..] == ReplaceAll(rest, a, b) && HasPrefix(w, b);
      assert v == a + rest && ReplaceAll(w, b, a) == a + back;
      assert (a + back)[|a|..] == back;
    } else {
      RewritingIsElsewhere(parent, a, b, v);
      if HasPrefix(v, b) {
        assert HasPrefix(ReplaceAll(w, b, a), a);
      } else {
        var back := ReplaceAll(ReplaceAll(v[1..], a, b), b, a);
        ReversesIffClear(parent, a, b, v[1..]);
        assert w[0] == v[0] && w[1..] == ReplaceAll(v[1..], a, b);
        assert v == [v[0]] + v[1..] && ReplaceAll(w, b, a) == [v[0]] + back;
        assert ([v[0]] + back)[1..] == back;
      }
    }
  }

  /** Occurrences inside one of `a` do not count: here `b` occurs, but only within one, and the value is restored. */
  lemma InnerOccurrenceReverses()
    ensures var a, b, v := "/providers/pro", "/providers/b", "/providers/providers/b";
            && Mentions(v, b)
            && ReplaceAll(ReplaceAll(v, a, b), b, a) == v
  {
    var parent, a, b, rest := "/providers/", "/providers/pro", "/providers/b", "viders/b";
    var v := a + rest;
    assert v == "/providers/providers/b" && v[10..] == b && b[..|b|] == b;
    MentionsLater(v, b, 10);
    assert ClearOf(v, a, b) by {
      ShorterNeverMentions(rest, b);
      UnmentionedIsClear(rest, a, b);
      assert v[..|a|] == a && v[|a|..] == rest;
    }
    assert Siblings(parent, a, b) by { assert b[|parent|..] == "b"; }
    ReversesIffClear(parent, a, b, v);
  }

  lemma {:induction false} ShorterNeverMentions(v: string, path: string)
    requires |v| < |path|
    ensures !Mentions(v, path)
  {
    if v != "" { ShorterNeverMentions(v[1..], path); }
  }
}
