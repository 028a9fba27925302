/**
 * Locating the comment text of a message: `get_email_body` picks the text part,
 * then `re.search(r'------(.*?)------', body, re.DOTALL)` lifts the text between
 * the first delimiter and the next one, which is split into lines.
 */
module Body {
  import opened Wrappers
  import opened Strings

  /**
   * One part of a multipart message, in the order `msg.walk()` visits them:
   * `get_content_type()`, the `Content-Disposition` header if present, and the
   * payload decoded from UTF-8 (`None` when `get_payload(decode=True)` gives `None`).
   */
  datatype Part = Part(contentType: string, disposition: Option<string>, payload: Option<string>)

  /** A parsed message: the decoded payload of a single-part message, or the walked parts. */
  datatype Message = SinglePart(text: string) | MultiPart(parts: seq<Part>)

  /** `str(part.get('Content-Disposition'))`: an absent header prints as `None`. */
  function DispositionText(d: Option<string>): string {
    match d
    case Some(t) => t
    case None => "None"
  }

  /** A `text/plain` part whose disposition text does not contain `attachment`. */
  predicate IsInlineText(p: Part) {
    p.contentType == "text/plain" && FindFrom(DispositionText(p.disposition), "attachment", 0).None?
  }

  /** `part.get_payload(decode=True).decode(...)`: calling `decode` on `None` raises. */
  function Decoded(p: Part): Result<string> {
    match p.payload
    case Some(t) => Ok(t)
    case None => Raised
  }

  /** The body taken from the first inline text part, or `""` when there is none. */
  function FirstInlineText(parts: seq<Part>): (r: Result<string>)
    ensures (forall k :: 0 <= k < |parts| ==> !IsInlineText(parts[k])) ==> r == Ok("")
    ensures forall k :: (0 <= k < |parts| && IsInlineText(parts[k]) &&
                         forall k' :: 0 <= k' < k ==> !IsInlineText(parts[k'])) ==> r == Decoded(parts[k])
    ensures r == Raised ==> exists k :: 0 <= k < |parts| && IsInlineText(parts[k]) && parts[k].payload.None?
  {
    if parts == [] then Ok("")
    else if IsInlineText(parts[0]) then Decoded(parts[0])
    else
      var r := FirstInlineText(parts[1..]);
      assert forall k :: 1 <= k < |parts| ==> parts[k] == parts[1..][k - 1];
      r
  }

  /** `get_email_body(msg)`. */
  function GetEmailBody(m: Message): (r: Result<string>)
    ensures m.SinglePart? ==> r == Ok(m.text)
    ensures r == Raised ==> m.MultiPart? && exists k :: 0 <= k < |m.parts| && IsInlineText(m.parts[k]) && m.parts[k].payload.None?
  {
    match m
    case SinglePart(text) => Ok(text)
    case MultiPart(parts) => FirstInlineText(parts)
  }

  /** The six-hyphen comment delimiter. */
  const Delimiter := "------"

  /** The pattern can match with its first delimiter at `i` and its second at `j`. */
  predicate DelimitedAt(b: string, i: int, j: int) {
    OccursAt(b, Delimiter, i) && OccursAt(b, Delimiter, j) && i + |Delimiter| <= j
  }

  /** The match `re.search` reports: leftmost start, then the nearest closing delimiter. */
  ghost predicate FirstDelimited(b: string, i: int, j: int) {
    DelimitedAt(b, i, j) && forall i', j' :: DelimitedAt(b, i', j') ==> i < i' || (i == i' && j <= j')
  }

  /** Positions of the two delimiters `re.search(r'------(.*?)------', b, re.DOTALL)` matches. */
  function DelimiterMatch(b: string): (r: Option<(nat, nat)>)
    ensures r.Some? ==> FirstDelimited(b, r.value.0, r.value.1)
    ensures r.None? ==> forall i, j :: !DelimitedAt(b, i, j)
  {
    match FindFrom(b, Delimiter, 0)
    case None => None
    case Some(i) =>
      match FindFrom(b, Delimiter, i + |Delimiter|)
      case None => None
      case Some(j) => Some((i, j))
  }

  /** `body_match.group(1)`: the text strictly between the matched delimiters. */
  function CommentText(b: string): (r: Option<string>)
    ensures r.None? <==> forall i, j :: !DelimitedAt(b, i, j)
    ensures forall i, j :: FirstDelimited(b, i, j) ==> r == Some(b[i + |Delimiter|..j])
  {
    var m := DelimiterMatch(b);
    if m.Some? then
      var i, j := m.value.0, m.value.1;
      assert forall i', j' :: FirstDelimited(b, i', j') ==> i' == i && j' == j;
      Some(b[i + |Delimiter|..j])
    else None
  }

  /** The lines handed to the artifact writer: `group(1).splitlines()`, if the pattern matched. */
  function CommentLines(b: string): (r: Option<seq<string>>)
    ensures r.None? <==> forall i, j :: !DelimitedAt(b, i, j)
    ensures r.Some? ==> forall k :: 0 <= k < |r.value| ==> NoLineBreak(r.value[k])
  {
    match CommentText(b)
    case Some(c) => Some(SplitLines(c))
    case None => None
  }

  /**
   * The match `re.search` reports starts at the first delimiter of the body and ends
   * at the first delimiter that begins after it has ended.
   */
  lemma FirstDelimitedIsFirstOccurrences(b: string, i: nat, j: nat)
    ensures FirstDelimited(b, i, j) <==>
              OccursAt(b, Delimiter, i) && (forall k :: 0 <= k < i ==> !OccursAt(b, Delimiter, k)) &&
              OccursAt(b, Delimiter, j) && i + |Delimiter| <= j &&
              (forall k :: i + |Delimiter| <= k < j ==> !OccursAt(b, Delimiter, k))
  {
    if FirstDelimited(b, i, j) {
      forall k | 0 <= k < i ensures !OccursAt(b, Delimiter, k) {
        assert !DelimitedAt(b, k, j);
      }
      forall k | i + |Delimiter| <= k < j ensures !OccursAt(b, Delimiter, k) {
        assert !DelimitedAt(b, i, k);
      }
    }
    if OccursAt(b, Delimiter, i) && (forall k :: 0 <= k < i ==> !OccursAt(b, Delimiter, k)) &&
       OccursAt(b, Delimiter, j) && i + |Delimiter| <= j &&
       (forall k :: i + |Delimiter| <= k < j ==> !OccursAt(b, Delimiter, k))
    {
      forall i', j' | DelimitedAt(b, i', j') ensures i < i' || (i == i' && j <= j') {
        assert OccursAt(b, Delimiter, i') && OccursAt(b, Delimiter, j');
      }
    }
  }

  /** No delimiter starts in `s` before index `n`. */
  predicate NoDelimiterBefore(s: string, n: int) {
    forall k :: 0 <= k < n ==> !OccursAt(s, Delimiter, k)
  }

  /**
   * `pre------c------post`, where the opening delimiter is the first one in
   * `pre------` and the closing delimiter is the first one in `c------`: the
   * comment is exactly `c`.
   */
  lemma CommentBetween(pre: string, c: string, post: string)
    requires NoDelimiterBefore(pre + Delimiter, |pre|)
    requires NoDelimiterBefore(c + Delimiter, |c|)
    ensures CommentText(pre + Delimiter + c + Delimiter + post) == Some(c)
  {
    var b := pre + Delimiter + c + Delimiter + post;
    var i, j := |pre|, |pre| + 6 + |c|;
    assert b[i..i + 6] == Delimiter;
    assert b[j..j + 6] == Delimiter;
    assert b[..i + 6] == pre + Delimiter;
    assert b[i + 6..j + 6] == c + Delimiter;
    assert b[i + 6..j] == c;
    DelimiterShift(b, 0, pre + Delimiter);
    DelimiterShift(b, i + 6, c + Delimiter);
    FirstDelimitedIsFirstOccurrences(b, i, j);
  }

  /** Where `p` sits in `b` at `lo`, a delimiter lying within it starts at the same place in both. */
  lemma DelimiterShift(b: string, lo: nat, p: string)
    requires lo + |p| <= |b| && b[lo..lo + |p|] == p
    ensures forall k :: lo <= k && k + |Delimiter| <= lo + |p| ==>
              (OccursAt(b, Delimiter, k) <==> OccursAt(p, Delimiter, k - lo))
  {
    forall k | lo <= k && k + |Delimiter| <= lo + |p|
      ensures OccursAt(b, Delimiter, k) <==> OccursAt(p, Delimiter, k - lo)
    {
      var w, v := b[k..k + 6], p[k - lo..k - lo + 6];
      forall x | 0 <= x < 6 ensures w[x] == v[x] {
        assert w[x] == b[lo..lo + |p|][k - lo + x];
      }
      assert w == v;
    }
  }

  /** A window of six characters holding something other than `-` is not a delimiter. */
  lemma NotDelimiterAt(s: string, k: nat, m: nat)
    requires k <= m < k + |Delimiter| <= |s| && s[m] != '-'
    ensures !OccursAt(s, Delimiter, k)
  {
    assert s[k..k + 6][m - k] == s[m];
  }

  /** Text holding no delimiter and not ending in `-` is followed by a delimiter that is the first. */
  lemma OpeningIsFirst(pre: string)
    requires NoDelimiterBefore(pre, |pre|)
    requires pre == [] || pre[|pre| - 1] != '-'
    ensures NoDelimiterBefore(pre + Delimiter, |pre|)
  {
    var s := pre + Delimiter;
    DelimiterShift(s, 0, pre);
    forall k | 0 <= k < |pre| && |pre| < k + |Delimiter| ensures !OccursAt(s, Delimiter, k) {
      assert s[|pre| - 1] == pre[|pre| - 1];
      NotDelimiterAt(s, k, |pre| - 1);
    }
  }

  /**
   * After lines each ended by a newline, none holding a delimiter, the first
   * delimiter starts no earlier than the end of the last line's newline, whatever follows.
   */
  lemma {:induction false} ClosingIsFirst(lines: seq<string>, post: string)
    requires forall k :: 0 <= k < |lines| ==> NoDelimiterBefore(lines[k], |lines[k]|)
    ensures NoDelimiterBefore(Terminated(lines) + post, |Terminated(lines)|)
  {
    if lines != [] {
      var l, rest := lines[0], lines[1..];
      assert forall k :: 0 <= k < |rest| ==> rest[k] == lines[k + 1];
      ClosingIsFirst(rest, post);
      var tail := Terminated(rest) + post;
      var s := Terminated(lines) + post;
      assert s == l + "\n" + tail;
      assert s[|l|] == '\n';
      DelimiterShift(s, 0, l);
      DelimiterShift(s, |l| + 1, tail);
      forall k | 0 <= k <= |l| && |l| < k + |Delimiter| <= |s| ensures !OccursAt(s, Delimiter, k) {
        NotDelimiterAt(s, k, |l|);
      }
    }
  }

  /**
   * The comment lines of `pre------` + lines, each ended by `"\n"`, + `------post`
   * are exactly those lines, when no delimiter occurs in `pre` or in a line and
   * `pre` does not end in `-`. Hyphens elsewhere are allowed.
   */
  lemma CommentOfLines(pre: string, lines: seq<string>, post: string)
    requires NoDelimiterBefore(pre, |pre|) && (pre == [] || pre[|pre| - 1] != '-')
    requires forall k :: 0 <= k < |lines| ==> NoLineBreak(lines[k]) && NoDelimiterBefore(lines[k], |lines[k]|)
    ensures CommentLines(pre + Delimiter + Terminated(lines) + Delimiter + post) == Some(lines)
  {
    OpeningIsFirst(pre);
    ClosingIsFirst(lines, Delimiter);
    CommentBetween(pre, Terminated(lines), post);
    SplitLinesTerminated(lines);
  }

  /**
   * A newline right after the opening delimiter gives a leading empty line
   * (`"------\nHello\n------"` yields `"", "Hello"`).
   */
  lemma LeadingEmptyLine(pre: string, lines: seq<string>, post: string)
    requires NoDelimiterBefore(pre, |pre|) && (pre == [] || pre[|pre| - 1] != '-')
    requires forall k :: 0 <= k < |lines| ==> NoLineBreak(lines[k]) && NoDelimiterBefore(lines[k], |lines[k]|)
    ensures CommentLines(pre + Delimiter + ("\n" + Terminated(lines)) + Delimiter + post) == Some([""] + lines)
  {
    var all := [""] + lines;
    assert Terminated(all) == "\n" + Terminated(lines) by {
      assert all[0] == "" && all[1..] == lines;
      assert Terminated(all) == all[0] + "\n" + Terminated(all[1..]);
      assert "" + "\n" == "\n";
    }
    assert NoLineBreak(all[0]) && NoDelimiterBefore(all[0], 0);
    assert forall k :: 1 <= k < |all| ==> all[k] == lines[k - 1];
    CommentOfLines(pre, all, post);
  }
}
