/**
 * `parse_email_metadata`: the message date in three renderings, the subject and
 * the sender, read from the parsed headers. Date parsing, `strftime`, the wall
 * clock and `parseaddr` are library behaviour and enter as parameters.
 */
module Metadata {
  import opened Wrappers
  import opened Strings

  /** The date as `%Y-%m-%d`, as `%e-%b-%Y %H:%M` and as `%Y%m%d%H%M%S`. */
  datatype Stamp = Stamp(iso: string, comment: string, compact: string)

  /** The `Date`, `Subject` and `From` headers; `None` when the header is absent. */
  datatype Headers = Headers(date: Option<string>, subject: Option<string>, from: Option<string>)

  /** The `metadata` dict the rest of the pipeline reads. */
  datatype Metadata = Metadata(
    stamp: Stamp,
    subject: string,
    senderFull: string,
    senderName: string,
    senderEmail: string,
    senderLocal: string)

  const NoSubject := "No Subject"
  const DefaultSender := "default@domain.com"
  const Anonymous := "anonymous"

  predicate IsAt(c: char) {
    c == '@'
  }

  /** `sender_email.split('@')[0] if '@' in sender_email else 'anonymous'`. */
  function SenderLocal(email: string): (r: string)
    ensures '@' in email ==> |r| < |email| && '@' !in r && email == r + "@" + email[|r| + 1..]
    ensures '@' !in email ==> r == Anonymous
  {
    var i := FirstWhere(email, IsAt);
    if i < |email| then
      assert email == email[..i] + "@" + email[i + 1..];
      email[..i]
    else
      assert forall k :: 0 <= k < |email| ==> email[k] != '@';
      Anonymous
  }

  /** The local part of `local@domain` is `local`, whatever the domain holds. */
  lemma SenderLocalOf(local: string, domain: string)
    ensures '@' !in local ==> SenderLocal(local + "@" + domain) == local
  {
    var email := local + "@" + domain;
    if '@' !in local {
      assert email[|local|] == '@';
      assert forall k :: 0 <= k < |local| ==> email[k] == local[k];
    }
  }

  /**
   * `parse_email_metadata(msg)`: the stamp of the `Date` header when `parseDate`
   * accepts it, otherwise of the clock reading `now`; `Subject` and `From` with
   * their defaults; the sender split by `parseAddr` into name and address.
   */
  function ParseMetadata(
    h: Headers,
    parseDate: string -> Option<Stamp>,
    now: Stamp,
    parseAddr: string -> (string, string)): (r: Metadata)
    ensures h.date.Some? && parseDate(h.date.value).Some? ==> r.stamp == parseDate(h.date.value).value
    ensures h.date.None? || parseDate(h.date.value).None? ==> r.stamp == now
    ensures h.subject.None? ==> r.subject == NoSubject
    ensures h.subject.Some? ==> r.subject == h.subject.value
    ensures h.from.None? ==> r.senderFull == DefaultSender
    ensures h.from.Some? ==> r.senderFull == h.from.value
    ensures (r.senderName, r.senderEmail) == parseAddr(r.senderFull)
    ensures r.senderLocal == SenderLocal(r.senderEmail)
  {
    var parsed := if h.date.Some? then parseDate(h.date.value) else None;
    var stamp := parsed.GetOr(now);
    var full := h.from.GetOr(DefaultSender);
    var (name, address) := parseAddr(full);
    Metadata(stamp, h.subject.GetOr(NoSubject), full, name, address, SenderLocal(address))
  }

  /** The clock is read only for a missing or unparseable `Date` header. */
  lemma ClockOnlyAsFallback(h: Headers, parseDate: string -> Option<Stamp>, now: Stamp, now': Stamp,
                            parseAddr: string -> (string, string))
    ensures h.date.Some? && parseDate(h.date.value).Some? ==>
            ParseMetadata(h, parseDate, now, parseAddr) == ParseMetadata(h, parseDate, now', parseAddr)
  {
  }

  /** Without a `From` header the sender address is `default@domain.com`, whose local part is `default`. */
  lemma DefaultSenderLocal(h: Headers, parseDate: string -> Option<Stamp>, now: Stamp,
                           parseAddr: string -> (string, string))
    requires h.from.None? && parseAddr(DefaultSender) == ("", DefaultSender)
    ensures ParseMetadata(h, parseDate, now, parseAddr).senderLocal == "default"
  {
    var local, domain := "default", "domain.com";
    assert DefaultSender == local + "@" + domain;
    assert '@' !in local;
    SenderLocalOf(local, domain);
  }
}
