/**
 * Classification of a message by its subject line.  The slug comes from
 * `re.search(r'\((.*?)\)', subject)`, the display title from
 * `re.match(r'\((.*?)\)(.*)', subject)`.  In both patterns `.` matches every
 * character except a newline, so a group can never span a line break.
 */
module Subject {
  import opened Wrappers
  import opened Strings
  import opened Sanitize

  /** The slug of a message whose subject has no parenthesised group. */
  const Uncategorized := "uncategorized"

  /** `\((.*?)\)` matches with its `(` at `i` and its `)` at `j`. */
  predicate GroupAt(s: string, i: int, j: int) {
    0 <= i < j < |s| && s[i] == '(' && s[j] == ')' && forall k :: i < k < j ==> s[k] != '\n'
  }

  /** The match `re.search` reports: the leftmost start, and for it the nearest `)`. */
  ghost predicate FirstGroup(s: string, i: int, j: int) {
    GroupAt(s, i, j) && forall i', j' :: GroupAt(s, i', j') ==> i < i' || (i == i' && j <= j')
  }

  predicate IsCloseOrNewline(c: char) {
    c == ')' || c == '\n'
  }

  predicate IsNewline(c: char) {
    c == '\n'
  }

  /** The lazy group opened at `i`, if there is one: it closes at the first `)` unless a newline comes first. */
  function CloseOf(s: string, i: nat): (r: Option<nat>)
    requires i < |s|
    ensures r.Some? ==> GroupAt(s, i, r.value)
    ensures r.Some? ==> forall j :: GroupAt(s, i, j) ==> r.value <= j
    ensures r.None? ==> forall j :: !GroupAt(s, i, j)
  {
    var j := i + 1 + FirstWhere(s[i + 1..], IsCloseOrNewline);
    assert forall k :: i < k < j ==> s[k] == s[i + 1..][k - i - 1];
    if s[i] == '(' && j < |s| && s[j] == ')' then Some(j) else None
  }

  /** `re.search(r'\((.*?)\)', s)` trying start positions from `from` onwards. */
  function SearchGroup(s: string, from: nat): (r: Option<(nat, nat)>)
    decreases |s| - from
    ensures r.Some? ==> from <= r.value.0 && GroupAt(s, r.value.0, r.value.1)
    ensures r.Some? ==> forall i, j :: from <= i && GroupAt(s, i, j) ==>
                          r.value.0 < i || (r.value.0 == i && r.value.1 <= j)
    ensures r.None? ==> forall i, j :: from <= i ==> !GroupAt(s, i, j)
  {
    if from >= |s| then None
    else match CloseOf(s, from)
      case Some(j) => Some((from, j))
      case None => SearchGroup(s, from + 1)
  }

  /**
   * The slug of a subject: the sanitised text of the first group, or
   * `"uncategorized"` when there is no group.  It may be empty.
   */
  function Slug(subject: string): (r: string)
    ensures (forall i, j :: !GroupAt(subject, i, j)) ==> r == Uncategorized
    ensures forall i, j :: FirstGroup(subject, i, j) ==> r == SanitizeFilename(subject[i + 1..j])
  {
    FirstGroupIsSearched(subject);
    match SearchGroup(subject, 0)
    case Some((i, j)) => SanitizeFilename(subject[i + 1..j])
    case None => Uncategorized
  }

  /**
   * The first group of a subject is the one the search from position 0 reports,
   * and the search finds nothing only when there is no group at all.
   */
  lemma FirstGroupIsSearched(s: string)
    ensures forall i, j :: FirstGroup(s, i, j) ==> SearchGroup(s, 0) == Some((i, j))
    ensures (forall i, j :: !GroupAt(s, i, j)) ==> SearchGroup(s, 0).None?
  {
    var m := SearchGroup(s, 0);
    if m.Some? {
      assert GroupAt(s, m.value.0, m.value.1);
    }
    forall i, j | FirstGroup(s, i, j) ensures SearchGroup(s, 0) == Some((i, j)) {
      var m := SearchGroup(s, 0);
      assert m.Some?;
      assert m.value.0 <= i && i <= m.value.0;
      assert m.value.1 <= j && j <= m.value.1;
    }
  }

  /**
   * The title used in the artifacts: when the subject opens with a group, the rest of
   * its first line after that group, stripped; otherwise the whole subject.
   */
  function Title(subject: string): (r: string)
    ensures (forall j :: !GroupAt(subject, 0, j)) ==> r == subject
    ensures forall j, k :: TitleLine(subject, j, k) ==> r == Strip(subject[j + 1..k])
    ensures forall j :: GroupAt(subject, 0, j) ==>
              '\n' !in r && (r != [] ==> !IsSpace(r[0]) && !IsSpace(r[|r| - 1]))
  {
    if subject == [] then subject
    else match CloseOf(subject, 0)
      case Some(j) =>
        TitleOfClose(subject, j);
        Strip(subject[j + 1..LineEnd(subject, j + 1)])
      case None =>
        NoTitleLine(subject);
        subject
  }

  /** The title taken from the group `CloseOf` finds at the start: its line, stripped. */
  lemma TitleOfClose(s: string, j: nat)
    requires s != [] && CloseOf(s, 0) == Some(j)
    ensures var r := Strip(s[j + 1..LineEnd(s, j + 1)]);
      (forall j', k :: TitleLine(s, j', k) ==> r == Strip(s[j' + 1..k])) &&
      '\n' !in r && (r != [] ==> !IsSpace(r[0]) && !IsSpace(r[|r| - 1]))
  {
    TitleLineOfClose(s, j);
    var line := s[j + 1..LineEnd(s, j + 1)];
    assert '\n' !in line;
    TrimSubset(line, IsSpace, '\n');
  }

  /** Without a group at the start there is no title line. */
  lemma NoTitleLine(s: string)
    requires forall j :: !GroupAt(s, 0, j)
    ensures forall j, k :: !TitleLine(s, j, k)
  {
  }

  /**
   * `re.match(r'\((.*?)\)(.*)', s)` matches with its group closing at `j` and its
   * second group running up to `k`: the first newline after `j`, or the end.
   */
  ghost predicate TitleLine(s: string, j: int, k: int) {
    GroupAt(s, 0, j) && (forall j' :: GroupAt(s, 0, j') ==> j <= j') &&
    j < k <= |s| && (k < |s| ==> s[k] == '\n') && forall m :: j < m < k ==> s[m] != '\n'
  }

  /** The end of the line running from `from`: the first newline at or after it, or the end of `s`. */
  function LineEnd(s: string, from: nat): (k: nat)
    requires from <= |s|
    ensures from <= k <= |s| && (k < |s| ==> s[k] == '\n')
    ensures forall m :: from <= m < k ==> s[m] != '\n'
  {
    var rest := s[from..];
    var f := FirstWhere(rest, IsNewline);
    assert forall m :: from <= m < from + f ==> s[m] == rest[m - from];
    from + f
  }

  /** The group `CloseOf` finds at the start fixes the one line the title is taken from. */
  lemma TitleLineOfClose(s: string, j: nat)
    requires s != [] && CloseOf(s, 0) == Some(j)
    ensures forall j', k :: TitleLine(s, j', k) ==> j' == j && k == LineEnd(s, j + 1)
  {
    var e := LineEnd(s, j + 1);
    forall j', k | TitleLine(s, j', k) ensures j' == j && k == e {
      assert j <= j' && j' <= j;
    }
  }

  /**
   * On a single-line subject the slug is the sanitised text between the first `(`
   * and the first `)` after it.
   */
  lemma SlugRule(s: string, i: nat, j: nat)
    requires '\n' !in s
    requires i < j < |s| && s[i] == '(' && s[j] == ')'
    requires '(' !in s[..i] && ')' !in s[i + 1..j]
    ensures Slug(s) == SanitizeFilename(s[i + 1..j])
  {
    assert FirstGroup(s, i, j);
  }

  /** A subject with no `(` followed later by a `)` is uncategorized. */
  lemma SlugWithoutGroup(s: string)
    requires forall i, j :: 0 <= i < j < |s| && s[i] == '(' ==> s[j] != ')'
    ensures Slug(s) == Uncategorized
  {
  }

  /** When the subject opens with a group, the slug comes from that same group. */
  lemma SlugOfLeadingGroup(s: string, j: nat)
    requires GroupAt(s, 0, j)
    requires forall j' :: GroupAt(s, 0, j') ==> j <= j'
    ensures Slug(s) == SanitizeFilename(s[1..j])
  {
    assert FirstGroup(s, 0, j);
  }

  /**
   * On a single-line subject that opens with `(` and has a `)`, the title is what
   * follows the first `)`, stripped.
   */
  lemma TitleRule(s: string, j: nat)
    requires '\n' !in s
    requires 0 < j < |s| && s[0] == '(' && s[j] == ')' && ')' !in s[1..j]
    ensures Title(s) == Strip(s[j + 1..])
  {
    forall k | 0 < k < j ensures s[k] != ')' {
      assert s[k] == s[1..j][k - 1];
    }
    forall m | 0 <= m < |s| ensures s[m] != '\n' {
      assert s[m] in s;
    }
    assert TitleLine(s, j, |s|);
    assert s[j + 1..|s|] == s[j + 1..];
  }

  /** A subject that does not open with `(`, or has no `)`, is its own title. */
  lemma TitleWhole(s: string)
    requires s == [] || s[0] != '(' || ')' !in s
    ensures Title(s) == s
  {
    if s != [] && s[0] == '(' {
      forall j | 0 < j < |s| ensures s[j] != ')' {
        assert s[j] in s;
      }
    }
  }

  /** A single-line subject `pre(g)rest` with no `(` in `pre` and no `)` in `g` has the slug `g` sanitised. */
  lemma SlugOfGroup(pre: string, g: string, rest: string)
    requires '(' !in pre && ')' !in g && '\n' !in pre + g + rest
    ensures Slug(pre + "(" + g + ")" + rest) == SanitizeFilename(g)
  {
    var s := pre + "(" + g + ")" + rest;
    var i, j := |pre|, |pre| + 1 + |g|;
    assert s[..i] == pre && s[i + 1..j] == g;
    assert '\n' !in s by {
      assert s == (pre + "(") + (g + ")" + rest);
    }
    SlugRule(s, i, j);
  }

  /** A single-line subject `(g)rest` with no `)` in `g` has the title `rest` stripped. */
  lemma TitleOfGroup(g: string, rest: string)
    requires ')' !in g && '\n' !in g + rest
    ensures Title("(" + g + ")" + rest) == Strip(rest)
  {
    var s := "(" + g + ")" + rest;
    var j := |g| + 1;
    assert s[1..j] == g && s[j + 1..] == rest;
    assert '\n' !in s by {
      assert s == "(" + (g + ")" + rest);
    }
    TitleRule(s, j);
  }

  /**
   * A folded subject `(g)rest\nmore` takes its title from the first line only:
   * `"(x) Big\n Update"` has the title `"Big"`.
   */
  lemma TitleOfFoldedSubject(g: string, rest: string, more: string)
    requires ')' !in g && '\n' !in g && '\n' !in rest
    ensures Title("(" + g + ")" + rest + "\n" + more) == Strip(rest)
  {
    var s := "(" + g + ")" + rest + "\n" + more;
    var j, k := |g| + 1, |g| + 2 + |rest|;
    forall m | 0 < m < j ensures s[m] != ')' && s[m] != '\n' {
      assert s[m] == g[m - 1];
    }
    forall m | j < m < k ensures s[m] != '\n' {
      assert s[m] == rest[m - j - 1];
    }
    assert s[j] == ')' && s[k] == '\n';
    assert TitleLine(s, j, k);
    assert s[j + 1..k] == rest;
  }

  /**
   * Whenever the first group opens after the start, the slug comes from that group
   * and the title is the whole subject: the title match is anchored at the start.
   */
  lemma LaterFirstGroup(s: string, i: nat, j: nat)
    requires FirstGroup(s, i, j) && 0 < i
    ensures Slug(s) == SanitizeFilename(s[i + 1..j])
    ensures Title(s) == s
  {
    forall j' ensures !GroupAt(s, 0, j') {
      assert i <= 0 || !GroupAt(s, 0, j');
    }
  }

  /**
   * A group after the start of the subject (`"Re: (x) y"`) gives the slug, but the
   * title match is anchored at the start, so the title is the whole subject.
   */
  lemma GroupNotAtStart(pre: string, g: string, rest: string)
    requires pre != [] && '(' !in pre && ')' !in g && '\n' !in pre + g + rest
    ensures Slug(pre + "(" + g + ")" + rest) == SanitizeFilename(g)
    ensures Title(pre + "(" + g + ")" + rest) == pre + "(" + g + ")" + rest
  {
    SlugOfGroup(pre, g, rest);
    assert pre[0] in pre;
    TitleWhole(pre + "(" + g + ")" + rest);
  }

  /**
   * A subject `(g)rest` with no `)` and no newline in `g` has the slug `g` sanitised,
   * whatever follows the group, further lines included.
   */
  lemma SlugOfOpeningGroup(g: string, rest: string)
    requires ')' !in g && '\n' !in g
    ensures Slug("(" + g + ")" + rest) == SanitizeFilename(g)
  {
    var s := "(" + g + ")" + rest;
    var j := |g| + 1;
    forall k | 0 < k < j ensures s[k] != ')' && s[k] != '\n' {
      assert s[k] == g[k - 1];
    }
    assert s[0] == '(' && s[j] == ')';
    assert s[1..j] == g;
    SlugOfLeadingGroup(s, j);
  }

  /** A word of lower-case letters holds no `)` or newline and is its own sanitised form. */
  lemma LowerWordIsSlug(g: string)
    requires forall k :: 0 <= k < |g| ==> 'a' <= g[k] <= 'z'
    ensures ')' !in g && '\n' !in g
    ensures SanitizeFilename(g) == g
  {
    SanitizeFixed(g);
  }

  /** `uncategorized` is made of lower-case letters. */
  lemma UncategorizedIsLower()
    ensures forall k :: 0 <= k < |Uncategorized| ==> 'a' <= Uncategorized[k] <= 'z'
  {
  }

  /** A subject whose group reads `(uncategorized)` gets the slug of an unclassified message. */
  lemma UncategorizedGroup(rest: string)
    ensures Slug("(" + Uncategorized + ")" + rest) == Uncategorized
  {
    UncategorizedIsLower();
    LowerWordIsSlug(Uncategorized);
    SlugOfOpeningGroup(Uncategorized, rest);
  }

  /** An empty group (`"() hi"`) gives the empty slug. */
  lemma EmptyGroup(rest: string)
    ensures Slug("()" + rest) == ""
  {
    assert "()" + rest == "(" + [] + ")" + rest;
    SlugOfOpeningGroup([], rest);
    SanitizeFixed([]);
  }
}
