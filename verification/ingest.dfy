/**
 * `process_email` and the message loop of `fetch_emails`: each listed message is
 * fetched, classified by the slug of its subject, forwarded when uncategorized,
 * saved when its body holds a delimited comment, and flagged `\Deleted`; the
 * flagged messages are expunged at the end of the run.
 */
module Ingest {
  import opened Wrappers
  import opened Strings
  import opened Sanitize
  import opened Subject
  import opened Body
  import opened Metadata
  import opened Artifacts

  /** A message number as `mail.search` lists it. */
  type Id = string

  /**
   * The answer to `mail.fetch(num, "(RFC822)")`: status `OK` with the raw message
   * and what `email.message_from_bytes` makes of it, or any other status. A fetch
   * that raises is also `FetchFailed`: either way the message is skipped unflagged.
   */
  datatype FetchResponse = Fetched(raw: string, headers: Headers, message: Message) | FetchFailed

  /** The copy `forward_uncategorized_email` sends: sender, recipient, subject and the attached original. */
  datatype Forwarded = Forwarded(from: string, to: string, subject: string, original: string)

  const ForwardPrefix := "Fwd: Uncategorized Comment - "

  /** The IMAP inbox: its answers to `fetch`, the messages flagged `\Deleted`, and those expunged. */
  class Mailbox {
    const respond: Id -> FetchResponse
    var flagged: set<Id>
    var expunged: set<Id>

    constructor (respond: Id -> FetchResponse)
      ensures this.respond == respond && flagged == {} && expunged == {}
    {
      this.respond := respond;
      flagged := {};
      expunged := {};
    }

    /** `mail.fetch(num, "(RFC822)")`. */
    method Fetch(num: Id) returns (r: FetchResponse)
      ensures r == respond(num)
    {
      r := respond(num);
    }

    /** `mail.store(num, '+FLAGS', r'(\Deleted)')`. */
    method Store(num: Id)
      modifies this
      ensures flagged == old(flagged) + {num} && expunged == old(expunged)
    {
      flagged := flagged + {num};
    }

    /** `mail.expunge()`: the flagged messages leave the inbox. */
    method Expunge()
      modifies this
      ensures expunged == old(expunged) + old(flagged) && flagged == {}
    {
      expunged := expunged + flagged;
      flagged := {};
    }
  }

  /** The SMTP relay: when it cannot be reached, sending raises and the error is swallowed. */
  class Relay {
    const reachable: bool
    const forwardTo: string
    var sent: seq<Forwarded>

    constructor (reachable: bool, forwardTo: string)
      ensures this.reachable == reachable && this.forwardTo == forwardTo && sent == []
    {
      this.reachable := reachable;
      this.forwardTo := forwardTo;
      sent := [];
    }

    /** `forward_uncategorized_email(raw, from_address, smtp_details)`; never raises. */
    method Forward(raw: string, subject: string, from: string)
      modifies this
      ensures sent == old(sent) + Delivered(reachable, Forwarded(from, forwardTo, ForwardPrefix + subject, raw))
    {
      if reachable {
        sent := sent + [Forwarded(from, forwardTo, ForwardPrefix + subject, raw)];
      }
    }
  }

  /** What a relay hands on: the message when reachable, nothing otherwise. */
  function Delivered(reachable: bool, f: Forwarded): seq<Forwarded> {
    if reachable then [f] else []
  }

  /**
   * What the run takes from outside: the date parser, the clock reading taken
   * for each message, `parseaddr`, the directories and the SMTP user name.
   */
  datatype Env = Env(
    parseDate: string -> Option<Stamp>,
    clock: Id -> Stamp,
    parseAddr: string -> (string, string),
    roots: Roots,
    smtpUser: string)

  /** `parse_email_metadata` of message `num`. */
  function MetaOf(env: Env, num: Id, h: Headers): Metadata {
    ParseMetadata(h, env.parseDate, env.clock(num), env.parseAddr)
  }

  /** The slug of message `num`'s subject. */
  function SlugOf(env: Env, num: Id, h: Headers): string {
    Slug(MetaOf(env, num, h).subject)
  }

  /** The message is forwarded: it was fetched and its slug is `uncategorized`. */
  predicate Forwards(env: Env, num: Id, resp: FetchResponse) {
    resp.Fetched? && SlugOf(env, num, resp.headers) == Uncategorized
  }

  /** The message is flagged: it was fetched and reading its body raised nothing. */
  predicate Flags(resp: FetchResponse) {
    resp.Fetched? && GetEmailBody(resp.message).Ok?
  }

  /** The comment lines saved for the message, if any: a non-empty body with a delimited comment. */
  function Comment(resp: FetchResponse): (r: Option<seq<string>>)
    ensures r.Some? ==> Flags(resp)
  {
    if !resp.Fetched? then None
    else
      match GetEmailBody(resp.message)
      case Raised => None
      case Ok(b) => if b == "" then None else CommentLines(b)
  }

  /** The files after processing message `num`. */
  function StepFiles(files: map<string, string>, bad: set<string>, env: Env, num: Id, resp: FetchResponse): map<string, string> {
    match Comment(resp)
    case None => files
    case Some(lines) =>
      var meta := MetaOf(env, num, resp.headers);
      Saved(files, bad, PlanFor(resp.raw, meta, lines, env.roots, Slug(meta.subject)))
  }

  /** The forwarded copies that processing message `num` hands to the relay. */
  function StepForwards(reachable: bool, forwardTo: string, env: Env, num: Id, resp: FetchResponse): seq<Forwarded> {
    if Forwards(env, num, resp) then
      var subject := MetaOf(env, num, resp.headers).subject;
      Delivered(reachable, Forwarded(env.smtpUser, forwardTo, ForwardPrefix + subject, resp.raw))
    else []
  }

  /** The forwarding step of `process_email`: only an uncategorized message goes to the relay. */
  method ForwardStep(relay: Relay, env: Env, num: Id, resp: FetchResponse, meta: Metadata, slug: string)
    requires resp.Fetched? && meta == MetaOf(env, num, resp.headers) && slug == Slug(meta.subject)
    modifies relay
    ensures relay.sent == old(relay.sent) + StepForwards(relay.reachable, relay.forwardTo, env, num, resp)
  {
    if slug == Uncategorized {
      relay.Forward(resp.raw, meta.subject, env.smtpUser);
    }
  }

  /**
   * The body step of `process_email`: read the body, and save the comment when the
   * body is not empty and holds one. `false` when reading the body raised.
   */
  method SaveBody(fs: FileStore, env: Env, num: Id, resp: FetchResponse, meta: Metadata, slug: string)
    returns (readable: bool)
    requires resp.Fetched? && meta == MetaOf(env, num, resp.headers) && slug == Slug(meta.subject)
    modifies fs
    ensures readable <==> Flags(resp)
    ensures fs.files == StepFiles(old(fs.files), fs.unwritable, env, num, resp)
  {
    var body := GetEmailBody(resp.message);
    if body.Raised? {
      return false;
    }
    if body.value != "" {
      var lines := CommentLines(body.value);
      if lines.Some? {
        SaveCommentFiles(fs, resp.raw, meta, lines.value, env.roots, slug);
      }
    }
    return true;
  }

  /** `process_email(mail, num, base_paths, smtp_details)`. */
  method ProcessEmail(mb: Mailbox, fs: FileStore, relay: Relay, env: Env, num: Id)
    modifies mb, fs, relay
    ensures mb.flagged == old(mb.flagged) + (if Flags(mb.respond(num)) then {num} else {})
    ensures mb.expunged == old(mb.expunged)
    ensures fs.files == StepFiles(old(fs.files), fs.unwritable, env, num, mb.respond(num))
    ensures relay.sent == old(relay.sent) + StepForwards(relay.reachable, relay.forwardTo, env, num, mb.respond(num))
  {
    var resp := mb.Fetch(num);
    if resp.FetchFailed? {
      return;
    }
    var meta := MetaOf(env, num, resp.headers);
    var slug := Slug(meta.subject);
    ForwardStep(relay, env, num, resp, meta, slug);
    var readable := SaveBody(fs, env, num, resp, meta, slug);
    if readable {
      mb.Store(num);
    }
  }

  /** The flagged set after processing `ids` in order, starting from `flagged`. */
  function RunFlags(flagged: set<Id>, respond: Id -> FetchResponse, ids: seq<Id>): set<Id> {
    if ids == [] then flagged
    else
      var last := ids[|ids| - 1];
      RunFlags(flagged, respond, ids[..|ids| - 1]) + (if Flags(respond(last)) then {last} else {})
  }

  /** The files after processing `ids` in order, starting from `files`. */
  function RunFiles(files: map<string, string>, bad: set<string>, env: Env,
                    respond: Id -> FetchResponse, ids: seq<Id>): map<string, string>
  {
    if ids == [] then files
    else
      var last := ids[|ids| - 1];
      StepFiles(RunFiles(files, bad, env, respond, ids[..|ids| - 1]), bad, env, last, respond(last))
  }

  /** The relay's outbox after processing `ids` in order, starting from `sent`. */
  function RunForwards(sent: seq<Forwarded>, reachable: bool, forwardTo: string, env: Env,
                       respond: Id -> FetchResponse, ids: seq<Id>): seq<Forwarded>
  {
    if ids == [] then sent
    else
      var last := ids[|ids| - 1];
      RunForwards(sent, reachable, forwardTo, env, respond, ids[..|ids| - 1]) +
      StepForwards(reachable, forwardTo, env, last, respond(last))
  }

  /** `for num in email_ids: process_email(...)`: every listed message is processed, in order. */
  method ProcessAll(mb: Mailbox, fs: FileStore, relay: Relay, env: Env, ids: seq<Id>)
    modifies mb, fs, relay
    ensures mb.flagged == RunFlags(old(mb.flagged), mb.respond, ids)
    ensures mb.expunged == old(mb.expunged)
    ensures fs.files == RunFiles(old(fs.files), fs.unwritable, env, mb.respond, ids)
    ensures relay.sent == RunForwards(old(relay.sent), relay.reachable, relay.forwardTo, env, mb.respond, ids)
  {
    for i := 0 to |ids|
      invariant mb.flagged == RunFlags(old(mb.flagged), mb.respond, ids[..i])
      invariant mb.expunged == old(mb.expunged)
      invariant fs.files == RunFiles(old(fs.files), fs.unwritable, env, mb.respond, ids[..i])
      invariant relay.sent == RunForwards(old(relay.sent), relay.reachable, relay.forwardTo, env, mb.respond, ids[..i])
    {
      assert ids[..i + 1][..i] == ids[..i];
      ProcessEmail(mb, fs, relay, env, ids[i]);
    }
    assert ids[..|ids|] == ids;
  }

  /** How `mail.search(None, "ALL")` and the connection before it turn out. */
  datatype Search = ConnectFailed | SearchNotOk | Listed(ids: seq<Id>)

  /**
   * The mailbox part of `fetch_emails`: `True` exactly when some message was
   * listed and the three output directories could be created, in which case each
   * message is processed and the flagged ones are expunged. `dirsMade` is whether
   * the three `os.makedirs` calls succeed; when one raises, nothing is processed.
   */
  method FetchEmails(mb: Mailbox, fs: FileStore, relay: Relay, env: Env, search: Search, dirsMade: bool) returns (ok: bool)
    modifies mb, fs, relay
    ensures ok <==> search.Listed? && search.ids != [] && dirsMade
    ensures !ok ==> mb.flagged == old(mb.flagged) && mb.expunged == old(mb.expunged) &&
                    fs.files == old(fs.files) && relay.sent == old(relay.sent)
    ensures ok ==> mb.flagged == {} &&
                   mb.expunged == old(mb.expunged) + RunFlags(old(mb.flagged), mb.respond, search.ids)
    ensures ok ==> fs.files == RunFiles(old(fs.files), fs.unwritable, env, mb.respond, search.ids)
    ensures ok ==> relay.sent == RunForwards(old(relay.sent), relay.reachable, relay.forwardTo, env, mb.respond, search.ids)
  {
    if !search.Listed? || search.ids == [] {
      return false;
    }
    if !dirsMade {
      return false;
    }
    ProcessAll(mb, fs, relay, env, search.ids);
    mb.Expunge();
    return true;
  }

  /**
   * A message is flagged after the run exactly when it was flagged before, or it
   * is listed and its own processing flags it.
   */
  lemma {:induction false} RunFlagsExactly(flagged: set<Id>, respond: Id -> FetchResponse, ids: seq<Id>, id: Id)
    ensures id in RunFlags(flagged, respond, ids) <==> id in flagged || (id in ids && Flags(respond(id)))
  {
    if ids != [] {
      var init := ids[..|ids| - 1];
      RunFlagsExactly(flagged, respond, init, id);
      assert ids == init + [ids[|ids| - 1]];
    }
  }

  /** A message whose fetch fails is never flagged by the run, wherever it sits. */
  lemma FetchFailedNeverFlagged(flagged: set<Id>, respond: Id -> FetchResponse, ids: seq<Id>, id: Id)
    requires respond(id) == FetchFailed && id !in flagged
    ensures id !in RunFlags(flagged, respond, ids)
  {
    RunFlagsExactly(flagged, respond, ids, id);
  }

  /**
   * A listed message that is fetched and whose body reads without raising is
   * flagged, however the other messages fared and whatever the relay and the
   * file store did.
   */
  lemma ReadableAlwaysFlagged(flagged: set<Id>, respond: Id -> FetchResponse, ids: seq<Id>, id: Id)
    requires id in ids && respond(id).Fetched? && GetEmailBody(respond(id).message).Ok?
    ensures id in RunFlags(flagged, respond, ids)
  {
    RunFlagsExactly(flagged, respond, ids, id);
  }

  /** A subject without a `(...)` group is forwarded. */
  lemma ForwardsWithoutGroup(env: Env, num: Id, raw: string, h: Headers, m: Message)
    requires forall i, j :: !GroupAt(MetaOf(env, num, h).subject, i, j)
    ensures Forwards(env, num, Fetched(raw, h, m))
  {
  }

  /** A subject whose first group reads `uncategorized` is forwarded too. */
  lemma ForwardsUncategorizedGroup(env: Env, num: Id, raw: string, h: Headers, m: Message, rest: string)
    requires MetaOf(env, num, h).subject == "(" + Uncategorized + ")" + rest
    ensures Forwards(env, num, Fetched(raw, h, m))
  {
    UncategorizedGroup(rest);
  }

  /** A subject whose first group sanitizes to any other slug is not forwarded. */
  lemma NotForwardedWithSlug(env: Env, num: Id, raw: string, h: Headers, m: Message, i: nat, j: nat)
    requires FirstGroup(MetaOf(env, num, h).subject, i, j)
    requires SanitizeFilename(MetaOf(env, num, h).subject[i + 1..j]) != Uncategorized
    ensures !Forwards(env, num, Fetched(raw, h, m))
  {
  }

  /** A body without two delimiters writes no file. */
  lemma NoDelimiterNoFiles(files: map<string, string>, bad: set<string>, env: Env, num: Id,
                           raw: string, h: Headers, m: Message, b: string)
    requires GetEmailBody(m) == Ok(b)
    requires forall i, j :: !DelimitedAt(b, i, j)
    ensures StepFiles(files, bad, env, num, Fetched(raw, h, m)) == files
  {
  }

  /**
   * A body read without raising that holds a delimited comment is saved with
   * exactly the lines of the text between its first delimiter and the next one.
   */
  lemma SavesDelimitedLines(raw: string, h: Headers, m: Message, b: string, i: nat, j: nat)
    requires GetEmailBody(m) == Ok(b)
    requires FirstDelimited(b, i, j)
    ensures Comment(Fetched(raw, h, m)) == Some(SplitLines(b[i + |Delimiter|..j]))
  {
    assert CommentText(b) == Some(b[i + |Delimiter|..j]);
    assert b != "";
  }

  /**
   * A message whose slug is `uncategorized` and whose body holds a delimited comment
   * is both forwarded and saved: when its three paths are writable, the
   * `uncategorized` log gains its entry.
   */
  lemma ForwardedAndSaved(files: map<string, string>, bad: set<string>, env: Env, num: Id,
                          raw: string, h: Headers, m: Message, b: string, i: nat, j: nat)
    requires SlugOf(env, num, h) == Uncategorized
    requires GetEmailBody(m) == Ok(b) && FirstDelimited(b, i, j)
    requires var meta := MetaOf(env, num, h);
      EmlPath(env.roots, meta, Uncategorized) !in bad && MdPath(env.roots, meta, Uncategorized) !in bad &&
      HtmlPath(env.roots, Uncategorized) !in bad
    ensures Forwards(env, num, Fetched(raw, h, m))
    ensures var html := HtmlPath(env.roots, Uncategorized);
      var after := StepFiles(files, bad, env, num, Fetched(raw, h, m));
      html in after && (html in files ==> files[html] < after[html])
  {
    var meta := MetaOf(env, num, h);
    var plan := PlanFor(raw, meta, SplitLines(b[i + |Delimiter|..j]), env.roots, Uncategorized);
    SavesDelimitedLines(raw, h, m, b, i, j);
    SavedHtml(files, bad, plan);
    assert |plan.entry| > 0;
  }
}
