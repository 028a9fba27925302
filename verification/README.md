# checkmail ingestion core, modelled in Dafny

`checkmail.py` turns e-mailed blog comments into files. For each message in the
inbox it fetches the raw message and reads its `Date`, `Subject` and `From`
headers. It then:

- takes a **slug** from the first `(...)` group of the subject, sanitised for use
  in file names, or `uncategorized` when there is no group;
- forwards uncategorized messages to a fixed address;
- picks the plain-text body part;
- cuts the comment out of the body, between the first `------` and the next one;
- writes three artifacts:
  - a raw `.eml` copy;
  - a Markdown page with front matter (title, date, `published: true`, slug);
  - an entry appended to the per-slug HTML comment log, which is created with a
    `<h3>Comments</h3>` heading when it does not exist yet;
- flags the message `\Deleted`.

When every message has been handled, the flagged messages are expunged.

The model follows the code's own structure.

- `Strings` gives Python's `str.strip`, `str.splitlines`, `str.find` and
  `str.join` as functions over `seq<char>`. It uses the exact `isspace` and
  line-boundary code-point sets.
- `Sanitize` models `sanitize_filename`.
- `Subject` models the slug search (`re.search`) and the title match (`re.match`).
  The slug is stated as a "leftmost, shortest group" property. The title is stated
  through the shortest group at position 0 and the rest of its line.
- `Body` models `get_email_body` over the walked part list and the
  `------(.*?)------` extraction.
- `Metadata` models `parse_email_metadata` as a function of the headers. The date
  parser, the clock and `parseaddr` are parameters.
- `Artifacts` models `save_comment_files`:
  - the file paths and the Markdown and HTML texts, as functions;
  - a `FileStore` class, whose `files` map is changed in place by `Write` and
    `Append`;
  - `SaveCommentFiles`, a method proved against the `Saved` specification.
- `Ingest` models `process_email` and the loop of `fetch_emails`:
  - methods on a `Mailbox` (its flagged and expunged sets);
  - methods on a `Relay` (the forwarded copies);
  - the same file store;
  - each method proved against step functions, with lemmas on those functions.

Behaviour that the code has, and that the model keeps:

- The slug can be empty. `sanitize_filename("!!")` is `""`, and a subject `"() hi"`
  has the slug `""` (`Subject.EmptyGroup`).
- A subject `(uncategorized) ...` is forwarded like one without a group
  (`Ingest.ForwardsUncategorizedGroup`).
- In both subject patterns, `.` does not match a newline. So a group never spans a
  line break. The simple rule "first `(`, then the first `)` after it" holds for
  single-line subjects (`Subject.SlugRule`, `Subject.TitleRule`).
- The slug uses `re.search` and the title uses `re.match`. So `"Re: (x) y"` has the
  slug `x` and the title `"Re: (x) y"` (`Subject.GroupNotAtStart`).
- A newline right after the opening `------` gives a leading empty line:
  `"------\nHello\n------"` yields `["", "Hello"]` (`Body.LeadingEmptyLine`). Blank
  lines are dropped only when the Markdown and HTML are rendered.
- Forwarding happens before the body is read. Take a message whose chosen text part
  has no payload. `.decode` is then called on `None` and raises, so the message is
  not flagged. If its slug is `uncategorized`, it has been forwarded all the same.
- A failed save or a failed forward is swallowed, and the message is still flagged.
- An HTML entry for a comment with no non-blank line still ends in a blank
  paragraph slot: `"\n"` followed by `"\n"` (`Artifacts.HtmlLines`).

## Model

| member | source | states |
|---|---|---|
| `Strings.Strip` | checkmail.py:126 | `str.strip()`: the result is no longer than the input, and it neither begins nor ends with whitespace. |
| `Strings.Trim` | checkmail.py:72 | The stripped text is a contiguous slice of the input. It neither starts nor ends with a stripped character. |
| `Strings.TrimSlice` | checkmail.py:72 | The input is the stripped text with removable characters only before and after it. |
| `Strings.FindFrom` | checkmail.py:79 | It gives the first occurrence of the pattern at or after the start index, and `None` exactly when there is none. |
| `Strings.SplitLines` | checkmail.py:197 | No line it produces contains a line boundary. |
| `Strings.SplitLinesLast` | checkmail.py:197 | A non-empty text without a line boundary is one line. |
| `Strings.SplitLinesStep` | checkmail.py:197 | A boundary-free line, then a separator, then the rest, gives that line followed by the lines of the rest. The separator is `"\r\n"` or any single boundary character, and a lone `"\r"` must not be followed by `"\n"`. |
| `Strings.SplitLinesTerminated` | checkmail.py:197 | `splitlines` of newline-terminated lines without boundaries gives those lines back. |
| `Strings.Join` | checkmail.py:126 | `sep.join(parts)` is `""` for no parts. Otherwise, with one more `sep` appended, it is every part followed by `sep`, in order. |
| `Strings.StripNoLineBreak` | checkmail.py:126 | Stripping never introduces a line boundary. |
| `Sanitize.Collapse` | checkmail.py:71 | After `re.sub(r'[^\w-]+', '_', …)`, only word characters and `-` remain. |
| `Sanitize.CollapseRun` | checkmail.py:71 | A maximal run of characters outside `[\w-]`, after `[\w-]` text, becomes a single `_`. |
| `Sanitize.CollapseIdentity` | checkmail.py:71 | The substitution leaves text made only of `[\w-]` unchanged. |
| `Sanitize.CollapseKeeps` | checkmail.py:71 | The word characters other than `_` and the hyphens survive the substitution, in order. |
| `Sanitize.SanitizeFilename` | checkmail.py:70-72 | Every character of the result is in `[\w-]`. The result neither begins nor ends with `_`. |
| `Sanitize.SanitizeIdempotent` | checkmail.py:70-72 | Sanitising twice gives the same as sanitising once. |
| `Sanitize.SanitizeKeeps` | checkmail.py:70-72 | The non-underscore `[\w-]` characters of the name are exactly those of the result, in order. |
| `Sanitize.SanitizeEmpty` | checkmail.py:70-72 | The result is empty exactly when the name holds no `[\w-]` character other than `_`. |
| `Sanitize.SanitizeFixed` | checkmail.py:70-72 | A `[\w-]` name without `_` at either end is its own sanitised form. |
| `Sanitize.SanitizeJoinsAtRun` | checkmail.py:70-72 | Two `[\w-]` words separated by a run of other characters sanitise to the words joined by one `_`. The first word must not begin with `_` and the second must not end with one. |
| `Sanitize.SanitizeSlugExample` | checkmail.py:70-72 | `launch-notes` sanitises to itself. |
| `Sanitize.SanitizeEmptyExample` | checkmail.py:70-72 | `!!` sanitises to the empty string. |
| `Subject.CloseOf` | checkmail.py:128 | It finds the first `)` after an opening `(` with no newline in between, or `None` when a newline or the end of the text comes first. |
| `Subject.SearchGroup` | checkmail.py:179 | It finds the leftmost `(` that has a matching `)` on its line, and the nearest such `)`. It gives `None` exactly when there is no such group. |
| `Subject.Slug` | checkmail.py:179-183 | With no group the slug is `uncategorized`. Otherwise it is the sanitised text of the first group. |
| `Subject.Title` | checkmail.py:127-130 | Without a group at position 0 the title is the whole subject. Otherwise it is the stripped text from just after the first `)` closing that group up to the next newline or the end. It then has no newline and no whitespace at either end. |
| `Subject.SlugRule` | checkmail.py:179-183 | On a single-line subject, the slug is the sanitised text between the first `(` and the first `)` after it. |
| `Subject.SlugWithoutGroup` | checkmail.py:182-183 | With no `(` followed later by `)`, the slug is `uncategorized`. |
| `Subject.SlugOfLeadingGroup` | checkmail.py:179-181 | A group that opens the subject is also the slug's group. |
| `Subject.TitleRule` | checkmail.py:128-130 | On a single-line subject starting with `(` and containing `)`, the title is the stripped text after the first `)`. |
| `Subject.TitleWhole` | checkmail.py:127-129 | A subject that does not start with `(`, or has no `)`, is its own title. |
| `Subject.SlugOfGroup` | checkmail.py:179-181 | For a single-line subject `pre(g)rest` with no `(` in `pre` and no `)` in `g`, the slug is `g` sanitised. |
| `Subject.SlugOfOpeningGroup` | checkmail.py:179-181 | For `(g)rest` with no `)` and no newline in `g`, the slug is `g` sanitised, whatever `rest` holds, further lines included. |
| `Subject.TitleOfGroup` | checkmail.py:128-130 | For a single-line `(g)rest` with no `)` in `g`, the title is `rest` stripped. |
| `Subject.TitleOfFoldedSubject` | checkmail.py:128-130 | For `(g)rest`, a newline, then more text, with no `)` in `g` and no newline in `g` or `rest`, the title is `rest` stripped. The title stops at the newline. |
| `Subject.LaterFirstGroup` | checkmail.py:127-130 | Whenever the first group of a subject opens after position 0, the slug is that group's text sanitised and the title is the whole subject. |
| `Subject.GroupNotAtStart` | checkmail.py:127-130 | For a single-line `pre(g)rest` with a non-empty `pre`, no `(` in `pre` and no `)` in `g`, the slug is `g` sanitised and the title is the whole subject. |
| `Subject.UncategorizedGroup` | checkmail.py:179-186 | A subject opening with `(uncategorized)` has the slug `uncategorized`, whatever follows, further lines included. |
| `Subject.EmptyGroup` | checkmail.py:179-181 | A subject opening with `()` has the empty slug, whatever follows, further lines included. |
| `Body.FirstInlineText` | checkmail.py:74-85 | With no `text/plain` part lacking `attachment` in its disposition text (`None` when absent), the body is `""`. Otherwise it is the decoded payload of the first such part, or raises when that payload is missing. It raises only when some such part has no payload. |
| `Body.GetEmailBody` | checkmail.py:74-85 | A single-part message gives its decoded payload. Reading raises only for a multipart message with a `text/plain`, non-attachment part that has no payload. |
| `Body.DelimiterMatch` | checkmail.py:194 | It gives the leftmost-then-nearest pair of `------` delimiters, and `None` exactly when no two non-overlapping delimiters exist. |
| `Body.CommentText` | checkmail.py:194-196 | It gives `None` exactly when there is no delimited pair. Otherwise it gives the text strictly between the first delimiter and the next one. |
| `Body.CommentLines` | checkmail.py:194-197 | It gives `None` exactly when there is no delimited pair. Otherwise no line holds a line boundary. |
| `Body.FirstDelimitedIsFirstOccurrences` | checkmail.py:194 | The match starts at the first `------`. It ends at the first `------` that begins after that one ends. |
| `Body.CommentBetween` | checkmail.py:194-196 | For `pre------c------post`, the comment text is `c`. This holds when no `------` starts in `pre------` before its delimiter and none starts in `c------` before its delimiter. |
| `Body.CommentOfLines` | checkmail.py:194-197 | Boundary-free lines written between the delimiters, each ended by a newline, are read back exactly. This holds when no line and not `pre` contains `------`, and `pre` does not end in `-`. Other hyphens, as in `well-known`, are allowed. |
| `Body.LeadingEmptyLine` | checkmail.py:194-197 | A newline right after the opening delimiter gives a leading `""` line. The conditions on `pre` and the lines are those of `CommentOfLines`. |
| `Metadata.SenderLocal` | checkmail.py:110 | With an `@`, the address is the result, then `@`, then the rest, and the result holds no `@`. Without an `@`, the result is `anonymous`. |
| `Metadata.SenderLocalOf` | checkmail.py:110 | The local part of `local@domain` is `local` when `local` holds no `@`. |
| `Metadata.ParseMetadata` | checkmail.py:87-112 | The stamp comes from a parseable `Date`, and otherwise from the clock. A missing `Subject` is `No Subject` and a missing `From` is `default@domain.com`. The name, address and local part come from the sender. |
| `Metadata.ClockOnlyAsFallback` | checkmail.py:90-101 | When the `Date` header parses, the clock reading does not affect the metadata. |
| `Metadata.DefaultSenderLocal` | checkmail.py:105-110 | Without a `From` header, the local part is `default`, provided `parseaddr("default@domain.com")` gives `("", "default@domain.com")`. |
| `Artifacts.PathJoin` | checkmail.py:120 | `os.path.join`: an absolute name is the whole result. Otherwise the directory is a prefix of the result. The result always ends with the name. |
| `Artifacts.EmlPath` | checkmail.py:118-120 | The `.eml` path: the sanitised sender address, the compact timestamp and the slug, joined under the `eml` directory. |
| `Artifacts.MdPath` | checkmail.py:133-138 | The `.md` path: `<date_iso>_<slug>.md`, joined under the slug directory inside the `md` directory. |
| `Artifacts.MdPathEmptySlug` | checkmail.py:133-138 | With the empty slug, the page is `<md>/<date_iso>_.md`, with a single `/`. |
| `Artifacts.HtmlPath` | checkmail.py:145 | The HTML log path: `<slug>.html` joined under the base directory. |
| `Artifacts.PathsDistinct` | checkmail.py:118-145 | The `.eml`, `.md` and `.html` paths of a save are pairwise different. |
| `Artifacts.Kept` | checkmail.py:126 | There are no more kept lines than lines. Each kept line is non-empty, with no whitespace at either end. |
| `Artifacts.KeptConcat` | checkmail.py:126 | The kept lines of a concatenation are those of each part, in order. |
| `Artifacts.KeptSingle` | checkmail.py:126 | A single line is kept, stripped, exactly when it does not strip to `""`. With `KeptConcat` this fixes which lines are kept and in what order. |
| `Artifacts.KeptEmpty` | checkmail.py:126 | Nothing is kept exactly when every line strips to `""`. |
| `Artifacts.KeptIdempotent` | checkmail.py:126 | Filtering the kept lines again changes nothing. |
| `Artifacts.MdBody` | checkmail.py:126 | The Markdown body is empty exactly when no line is kept. Otherwise it begins with the first kept line. With `"\n\n"` appended, it is every kept line followed by `"\n\n"`, in order. |
| `Artifacts.MdContent` | checkmail.py:132 | The page: the front matter (title, date, `published: true`, slug) between `---` lines, a blank line, then the body. |
| `Artifacts.MdRoundTrip` | checkmail.py:132 | A page written for a newline-free title, date and slug parses back into exactly those fields, `published: true`, and the body of kept lines joined by blank lines. |
| `Artifacts.PlanMdReadsBack` | checkmail.py:125-141 | The Markdown page a save writes carries the derived title, the ISO date and the slug. |
| `Artifacts.HtmlEntry` | checkmail.py:151-156 | The text appended to the log: the heading, the date with the sender, the paragraphs, a blank line. |
| `Artifacts.HtmlEntryTerminated` | checkmail.py:151-156 | The appended entry consists of a heading line and a date-and-sender line. Then come the paragraph lines: one `<p>` + kept line + `</p>` per kept line, in order, or a single empty line when none is kept. Last is a blank line. Each line ends with a newline. |
| `Artifacts.HtmlEntrySplit` | checkmail.py:151-156 | When the inputs are newline-free, `splitlines` of the entry gives exactly those lines. |
| `Artifacts.FileStore.Exists` | checkmail.py:146 | `os.path.exists`: the path is in the store. |
| `Artifacts.FileStore.Write` | checkmail.py:121-122 | A write succeeds exactly when the path is writable. It replaces that one file and changes nothing else. |
| `Artifacts.FileStore.Append` | checkmail.py:152-156 | An append succeeds exactly when the path is writable. It extends that file, creating it if absent. |
| `Artifacts.Logged` | checkmail.py:146-156 | The log is its old contents, or the seed when it is absent, followed by the entry. No other file changes. |
| `Artifacts.PlanFor` | checkmail.py:118-153 | A save's three paths are pairwise distinct. The `.eml` holds the raw bytes. The log goes to `<base>/<slug>.html`. |
| `Artifacts.Saved` | checkmail.py:114-160 | The store after a save whose writes to some paths raise: the `.eml`, the `.md` and then the HTML log, stopping at the first failure. |
| `Artifacts.SaveCommentFiles` | checkmail.py:114-160 | The store ends as `Saved`: the `.eml`, the `.md` and then the HTML log, stopping at the first failed write. |
| `Artifacts.SavedNothingWithoutEml` | checkmail.py:116-160 | A failed `.eml` write leaves every file as it was. |
| `Artifacts.SavedContents` | checkmail.py:121-141 | A written `.eml` holds the raw bytes and a written `.md` holds the planned page. When the `.md` write fails, that path keeps its existence and its old contents. The whole store is then the old one with only the `.eml` written. |
| `Artifacts.SavedHtml` | checkmail.py:145-156 | When all writes succeed, the log is its old contents (or the seed) followed by the entry. When any write fails, the log is untouched. |
| `Artifacts.SavedHtmlAppendOnly` | checkmail.py:146-156 | An existing log keeps its old contents as a prefix. |
| `Artifacts.SavedFrame` | checkmail.py:114-160 | A save removes no file and adds none outside its three paths. It changes no other file. |
| `Artifacts.TwoComments` | checkmail.py:145-156 | Two saves under one slug, starting without a log, give the seed followed by both entries in order. |
| `Ingest.Mailbox.Fetch` | checkmail.py:167 | The fetch answers with the mailbox's response for that number. |
| `Ingest.Mailbox.Store` | checkmail.py:206 | The number joins the flagged set. Nothing is expunged. |
| `Ingest.Mailbox.Expunge` | checkmail.py:262 | The flagged messages are expunged and the flagged set is emptied. |
| `Ingest.Relay.Forward` | checkmail.py:46-68 | A reachable relay receives one copy from the SMTP user to the forwarding address, with subject `Fwd: Uncategorized Comment - ` plus the original subject and the raw message attached. An unreachable relay receives nothing, and nothing is raised. |
| `Ingest.Comment` | checkmail.py:190-200 | Comment lines are saved only for a fetched message whose body read without raising. |
| `Ingest.ForwardStep` | checkmail.py:186-187 | The relay is used exactly when the message is fetched and its slug is `uncategorized`. |
| `Ingest.SaveBody` | checkmail.py:190-202 | It reports success exactly when reading the body does not raise. The files end as the step specification says. |
| `Ingest.ProcessEmail` | checkmail.py:163-210 | The message is flagged exactly when fetched with a readable body. The files, forwards and expunged set follow the step specifications. |
| `Ingest.ProcessAll` | checkmail.py:257-258 | Every listed id is processed in order. The flags, files and forwards are those of the run specifications. |
| `Ingest.FetchEmails` | checkmail.py:213-275 | The result is `True` exactly when some id was listed and the three output directories were created. Otherwise nothing changes. When it is `True`, every id is processed and the flagged messages are expunged. |
| `Ingest.RunFlagsExactly` | checkmail.py:257-258 | After the run, an id is flagged exactly when it was already flagged, or it is listed and was fetched with a readable body. |
| `Ingest.FetchFailedNeverFlagged` | checkmail.py:168-170 | A message whose fetch fails is never flagged. |
| `Ingest.ReadableAlwaysFlagged` | checkmail.py:186-206 | A listed, fetched message with a readable body is flagged, whatever the relay, the file store or the other messages did. |
| `Ingest.ForwardsWithoutGroup` | checkmail.py:179-187 | A subject without a group is forwarded. |
| `Ingest.ForwardsUncategorizedGroup` | checkmail.py:179-187 | A subject opening with `(uncategorized)` is forwarded, whatever follows, further lines included. |
| `Ingest.NotForwardedWithSlug` | checkmail.py:179-187 | A subject whose first group (leftmost, then nearest `)`) sanitises to anything other than `uncategorized` is not forwarded. |
| `Ingest.NoDelimiterNoFiles` | checkmail.py:190-202 | A body without two delimiters, including the empty body, writes no file. |
| `Ingest.SavesDelimitedLines` | checkmail.py:194-200 | The lines saved are exactly the `splitlines` of the text between the first delimiter and the next. |
| `Ingest.ForwardedAndSaved` | checkmail.py:186-200 | A message whose slug is `uncategorized` and whose body holds a delimited comment is forwarded. When its `.eml`, `.md` and log paths are all writable, it also extends the `uncategorized` log. |

## Left out

- Sanitize.SanitizeFilename: `\w` is modelled as the ASCII letters, the digits and `_`. Python's Unicode `\w` also keeps non-ASCII letters and digits, which this model turns into `_`.
- The IMAP connection, login, `select` and `search` (checkmail.py:216-230) are reduced to a `Search` outcome. The `logout` calls (checkmail.py:264, 271-274) are not modelled.
- Ingest.Mailbox.Expunge: `expunge` never fails in the model. An error there would make `fetch_emails` return `False` after processing.
- SMTP delivery and the MIME construction of the forwarded message (checkmail.py:51-65) are reduced to a `Relay` that is either reachable or not. The forwarded copy keeps its sender, recipient, subject and attachment, but not its body text.
- The SCP upload and the script's entry point (checkmail.py:278-305) are not part of this model. Nor is get-comments.js, whose only logic is in the browser.
- Configuration loading (checkmail.py:19-43) is not modelled. The directories, the SMTP user and the forwarding address are parameters.
- Date parsing and `strftime` (checkmail.py:90-102) are replaced by a date-parser parameter and a per-message clock reading. The three renderings are opaque strings.
- `email.message_from_bytes`, `parseaddr`, `get_payload(decode=True)` and UTF-8 decoding are library behaviour. The model takes the parsed headers, the walked parts and their decoded payloads as inputs. A missing payload stands for `get_payload` returning `None`, whose `.decode` raises.
- Header values that are not plain strings (encoded-word headers) are not modelled. The subject is taken as text.
- `os.makedirs` for the three output directories (checkmail.py:242-244) is reduced to one flag, `dirsMade`, passed to `FetchEmails`. When it is false, `fetch_emails` returns `False` before processing anything. Which call failed is not modelled.
- `os.makedirs` for the slug directory (checkmail.py:137) is not modelled separately. A directory that cannot be created shows up as an unwritable `.md` path, and the save stops there as it does after a failed write.
- Ingest.Mailbox.Store: `mail.store` never fails in the model. If it raised (checkmail.py:206), the exception would be caught at checkmail.py:208 and the message would stay unflagged.
- Ingest.Mailbox.Fetch: a `mail.fetch` that raises (checkmail.py:166) is folded into `FetchFailed`. Both skip the message without flagging it.
- Each write either completes or changes nothing. The four `f.write` calls of the HTML entry form one append, so a partial write is not modelled.
- The raw message bytes are a string of octets, and file contents are strings. Text encoding on disk is not modelled.
- `print` output and the exceptions from `num.decode()` in the log messages are not modelled.
