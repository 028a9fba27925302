/**
 * `sanitize_filename`: the slug and file-name sanitiser.  Every maximal run of
 * characters outside `[\w-]` becomes a single `_`, then `_` is stripped from both ends.
 */
module Sanitize {
  import opened Strings

  /** The character class `[\w-]`. */
  predicate IsSlugChar(c: char) {
    IsWordChar(c) || c == '-'
  }

  predicate NotSlugChar(c: char) {
    !IsSlugChar(c)
  }

  predicate IsUnderscore(c: char) {
    c == '_'
  }

  /** The characters sanitising neither removes nor inserts: `[\w-]` other than `_`. */
  predicate IsKept(c: char) {
    IsSlugChar(c) && c != '_'
  }

  predicate AllSlugChars(s: string) {
    forall k :: 0 <= k < |s| ==> IsSlugChar(s[k])
  }

  /** `re.sub(r'[^\w-]+', '_', s)`. */
  function Collapse(s: string): (r: string)
    decreases |s|
    ensures AllSlugChars(r)
  {
    if s == [] then []
    else if IsSlugChar(s[0]) then [s[0]] + Collapse(s[1..])
    else
      var rest := TrimStart(s, NotSlugChar);
      assert rest != [] ==> rest[0] != s[0];
      "_" + Collapse(rest)
  }

  /** `sanitize_filename(name)`. */
  function SanitizeFilename(name: string): (r: string)
    ensures AllSlugChars(r)
    ensures r != [] ==> r[0] != '_' && r[|r| - 1] != '_'
  {
    Trim(Collapse(name), IsUnderscore)
  }

  /** A string already made of `[\w-]` characters has no run to replace. */
  lemma {:induction false} CollapseIdentity(s: string)
    requires AllSlugChars(s)
    ensures Collapse(s) == s
  {
    if s != [] {
      CollapseIdentity(s[1..]);
    }
  }

  /** Skipping a run of characters outside `[\w-]` stops exactly where the run ends. */
  lemma TrimStartRun(run: string, b: string)
    requires forall k :: 0 <= k < |run| ==> NotSlugChar(run[k])
    requires b == [] || IsSlugChar(b[0])
    ensures TrimStart(run + b, NotSlugChar) == b
  {
    var s := run + b;
    var r := TrimStart(s, NotSlugChar);
    assert forall k :: 0 <= k < |run| ==> s[k] == run[k];
    assert b != [] ==> s[|run|] == b[0];
    assert |s| - |r| == |run|;
    assert s[|run|..] == b;
  }

  /** A run at the start of the text becomes one `_`. */
  lemma CollapseOfRun(run: string, b: string)
    requires run != [] && forall k :: 0 <= k < |run| ==> NotSlugChar(run[k])
    requires b == [] || IsSlugChar(b[0])
    ensures Collapse(run + b) == "_" + Collapse(b)
  {
    assert (run + b)[0] == run[0];
    TrimStartRun(run, b);
  }

  /** A maximal run of characters outside `[\w-]` becomes exactly one `_`. */
  lemma {:induction false} CollapseRun(a: string, run: string, b: string)
    requires AllSlugChars(a)
    requires run != [] && forall k :: 0 <= k < |run| ==> NotSlugChar(run[k])
    requires b == [] || IsSlugChar(b[0])
    ensures Collapse(a + run + b) == a + "_" + Collapse(b)
  {
    var s := a + run + b;
    if a == [] {
      assert s == run + b;
      CollapseOfRun(run, b);
    } else {
      assert s[0] == a[0] && s[1..] == a[1..] + run + b;
      CollapseRun(a[1..], run, b);
      assert a == [a[0]] + a[1..];
    }
  }

  /** Sanitising twice is sanitising once. */
  lemma SanitizeIdempotent(name: string)
    ensures SanitizeFilename(SanitizeFilename(name)) == SanitizeFilename(name)
  {
    var r := SanitizeFilename(name);
    CollapseIdentity(r);
    TrimNoop(r, IsUnderscore);
  }

  /** Replacing runs keeps every character of `[\w-]` other than `_`, in order. */
  lemma {:induction false} CollapseKeeps(s: string)
    ensures Filter(Collapse(s), IsKept) == Filter(s, IsKept)
  {
    if s != [] {
      if IsSlugChar(s[0]) {
        CollapseKeeps(s[1..]);
        FilterConcat([s[0]], Collapse(s[1..]), IsKept);
      } else {
        var rest := TrimStart(s, NotSlugChar);
        var n := |s| - |rest|;
        assert s == s[..n] + rest;
        FilterConcat(s[..n], rest, IsKept);
        FilterEmpty(s[..n], IsKept);
        CollapseKeeps(rest);
        FilterConcat("_", Collapse(rest), IsKept);
      }
    }
  }

  /**
   * Sanitising keeps every letter, digit and `-` of the input, in order; everything
   * it drops or inserts is an `_`.
   */
  lemma SanitizeKeeps(name: string)
    ensures Filter(SanitizeFilename(name), IsKept) == Filter(name, IsKept)
  {
    var c := Collapse(name);
    var r := SanitizeFilename(name);
    var i := TrimSlice(c, IsUnderscore);
    var pre, post := c[..i], c[i + |r|..];
    assert Filter(pre, IsKept) == [] by {
      FilterEmpty(pre, IsKept);
    }
    assert Filter(post, IsKept) == [] by {
      FilterEmpty(post, IsKept);
    }
    assert Filter(c, IsKept) == Filter(r, IsKept) by {
      assert c == pre + r + post;
      FilterConcat(pre + r, post, IsKept);
      FilterConcat(pre, r, IsKept);
    }
    CollapseKeeps(name);
  }

  /** The result is empty exactly when the input has no letter, digit or `-`. */
  lemma SanitizeEmpty(name: string)
    ensures SanitizeFilename(name) == [] <==> forall k :: 0 <= k < |name| ==> !IsKept(name[k])
  {
    var r := SanitizeFilename(name);
    SanitizeKeeps(name);
    FilterEmpty(name, IsKept);
    FilterEmpty(r, IsKept);
  }

  /** A name made of `[\w-]` that neither starts nor ends with `_` is its own sanitised form. */
  lemma SanitizeFixed(s: string)
    requires AllSlugChars(s)
    requires s != [] ==> s[0] != '_' && s[|s| - 1] != '_'
    ensures SanitizeFilename(s) == s
  {
    CollapseIdentity(s);
    TrimNoop(s, IsUnderscore);
  }

  /** Between two clean words, a run of other characters becomes a single `_`: `a!!b` gives `a_b`. */
  lemma SanitizeJoinsAtRun(a: string, run: string, b: string)
    requires a != [] && AllSlugChars(a) && a[0] != '_'
    requires b != [] && AllSlugChars(b) && b[|b| - 1] != '_'
    requires run != [] && forall k :: 0 <= k < |run| ==> NotSlugChar(run[k])
    ensures SanitizeFilename(a + run + b) == a + "_" + b
  {
    CollapseRun(a, run, b);
    CollapseIdentity(b);
    var r := a + "_" + b;
    assert r[0] == a[0] && r[|r| - 1] == b[|b| - 1];
    TrimNoop(r, IsUnderscore);
  }

  lemma SanitizeSlugExample()
    ensures SanitizeFilename("launch-notes") == "launch-notes"
  {
    var s := "launch-notes";
    assert forall k :: 0 <= k < |s| ==> 'a' <= s[k] <= 'z' || s[k] == '-';
    SanitizeFixed(s);
  }

  /** A subject group with no letter, digit or `-` sanitises to the empty slug. */
  lemma SanitizeEmptyExample()
    ensures SanitizeFilename("!!") == ""
  {
    var s := "!!";
    assert !IsKept(s[0]) && !IsKept(s[1]);
    SanitizeEmpty(s);
  }
}
