# Email Summarizer core, modelled in Dafny

This project models the core of an e-mail summarising tool server. The server
exposes two tools, `search-emails` and `mark-emails-as-read`.

- `search-emails` opens an IMAP mailbox with the caller's credentials (or the
  server's environment), searches it, filters the hits to a time window on the
  client side, renders each message as a small record (id, subject, sender,
  empty snippet, date) and turns the list into a prompt for a language model.
- `mark-emails-as-read` adds the `\Seen` flag to a list of UIDs.

The model covers these parts:

- the record types of the tool schemas (`EmailTypes`);
- the main client: provider selection, the precedence of the environment over
  the request, the query it builds, how date literals are cleaned of offset
  markers, the half-open window filter, the fetch loop and the result shapes
  (`EmailClient`, `OffsetMarkers`, `Projection`, `Imap`);
- the older Gmail-only client, with lemmas that state exactly where it differs
  from the main client (`LegacyClient`);
- the two handlers, the prompt templating and the result shaping of the two
  tool callbacks (`EmailServices`);
- the classifier of a guidelines reference (file URI, remote URL or inline
  text) and the dispatch that decides how its content would be read
  (`Resource`).

The JavaScript behaviour these depend on is written out in `JsText`:

- truthiness and `||`;
- `String(undefined)`;
- `indexOf`;
- `replace` with a string pattern, with and without the `$` patterns of its
  replacement string;
- `join`;
- ASCII lower-casing.

Everything outside the process is a parameter of the model:

- the IMAP server, as a `Connector` holding its replies;
- the clock, as the instants of the start and end of today;
- the date library, as three functions: ISO parsing, re-tagging to the local
  zone, and ISO formatting;
- `parseInt`, the URL parser, the file system's existence test and the
  network's reply.

Instants are integers (milliseconds). An unreadable date literal is the value
`Invalid`, and every comparison with it is false, as with `NaN`.

Where the project's documented behaviour and the code disagree, the model
follows the code:

- Date-only literals are not padded to a whole day. Equal start and end
  literals give an empty window (`EmailClient.EqualBoundsKeepOnlyUndated`).
- An unreadable date literal is not an error on the client side. Provided
  the date library keeps an invalid value invalid when it re-tags it
  (`Time.KeepsInvalid`, as Luxon's `setZone` does), the bound is invalid
  (`EmailClient.UnreadableBoundInvalid`). Every dated message is then dropped
  and undated ones are kept (`EmailClient.InvalidBoundKeepsOnlyUndated`,
  `EmailClient.UnreadableLiteralKeepsOnlyUndated`). What the server does with
  the invalid search date is part of its reply, an input.
- A flag update that fails part-way is reported as a success by the
  mark-as-read handler. See Findings.
- An empty UID list from the server is truthy. It gives an empty list with no
  error, not the "No emails found" error.
- An unsupported client type does not escape as an exception. The handler
  turns it into an ordinary result whose error is
  "Failed to fetch emails: Fail INIT Unsupported email client type".

## Model

| member | source | states |
|---|---|---|
| `JsText.IndexOf` | src/services/email.ts:68-71 | the index `replace` acts on is the first occurrence of the pattern, and there is none exactly when the pattern does not occur |
| `JsText.ReplaceFirstSplits` | src/services/email.ts:68-71 | replacing a string pattern changes only its first occurrence: `a + pat + b` becomes `a + rep + b` when `pat` does not start earlier |
| `JsText.ReplaceFirstAbsent` | src/services/email.ts:68-71 | a template without the pattern is returned unchanged by both readings of `replace` |
| `JsText.ExpandingAgreesWithoutDollar` | src/services/email.ts:68-71 | `replace` with `$` expansion inserts the replacement verbatim when the replacement holds no `$` |
| `JsText.JoinEmptyIff` | src/config/email-client.ts:166-172 | a join with a non-empty separator is empty exactly for no elements, or one element that renders as "" |
| `JsText.AsciiLower` | src/utils/resource.ts:47 | lower-casing keeps the length and maps each character independently |
| `OffsetMarkers.DigitRun` | src/config/email-client.ts:94 | `[0-9]+` consumes the whole run of digits: all consumed characters are digits and the next one is not |
| `OffsetMarkers.MarkerLength` | src/config/email-client.ts:94 | a marker matches at a position exactly when a `Z` or `GMT-` followed by a digit starts there |
| `OffsetMarkers.StripOffsets` | src/config/email-client.ts:92-103 | the cleaned literal is never longer than the input and holds no `Z` |
| `OffsetMarkers.StripKeepsOrder` | src/config/email-client.ts:92-103 | cleaning only deletes characters: the result is a subsequence of the input |
| `OffsetMarkers.StripUnchangedIff` | src/config/email-client.ts:92-103 | a literal is left unchanged if and only if no marker starts anywhere in it |
| `OffsetMarkers.TrailingZStripped` | src/config/email-client.ts:92-103 | a trailing `Z` is removed, whatever precedes it |
| `OffsetMarkers.TrailingGmtMinusStripped` | src/config/email-client.ts:92-103 | a trailing `GMT-` with digits is removed, whatever precedes it |
| `OffsetMarkers.MarkerFreeSuffixSurvives` | src/config/email-client.ts:92-103 | text without `Z` or `-` that does not start with a digit survives after a marker-free literal |
| `OffsetMarkers.PositiveOffsetSurvives` | src/config/email-client.ts:92-103 | a `GMT+N` offset is not a marker and reaches the parser intact |
| `OffsetMarkers.LowerCaseZSurvives` | src/config/email-client.ts:92-103 | only the upper-case `Z` is a marker |
| `OffsetMarkers.SinglePassCanLeaveMarker` | src/config/email-client.ts:92-103 | one pass of the global replace can leave a marker behind: for any digits d, "GM" + "GMT-" + d + "T-" + d cleans to "GMT-" + d (so "GMGMT-1T-1" cleans to "GMT-1"), itself a marker |
| `Imap.FromClauses` | src/config/email-client.ts:82-88 | one `{from}` term per sender, in the senders' order |
| `Imap.FetchedOnly` | src/config/email-client.ts:140-155 | the UIDs the loop keeps: a subsequence of the search result holding exactly the searched UIDs whose fetch returned a message |
| `Imap.FetchedOnlyCounts` | src/config/email-client.ts:140-155 | the loop keeps a fetched UID as many times as the search returned it and an unfetched one never, so a repeated UID is repeated in the result |
| `Imap.Candidates` | src/config/email-client.ts:140-155 | any throwing fetch abandons the loop; otherwise the candidates' UIDs are exactly `FetchedOnly` (search order, nothing fetched skipped, nothing empty kept), each carrying its own fetched envelope |
| `EmailTypes.ParseClientType` | src/types/email.ts:15-17 | exactly "gmail", "outlook" and "yahoo" are accepted, each as the provider of that name |
| `EmailTypes.ClientTypeRoundTrip` | src/types/email.ts:15-17 | every provider is accepted back under its own name |
| `EmailTypes.ParseInputGetEmails` | src/types/email.ts:27-47 | an absent mailbox becomes "INBOX"; every other field passes through |
| `Projection.RenderAddress` | src/config/email-client.ts:169-170 | a named sender renders as `name <address>`, with "undefined" inside the brackets when the address is missing; an unnamed sender renders as its address; the rendering is missing exactly when both are |
| `Projection.SenderText` | src/config/email-client.ts:166-172 | the sender text is never empty |
| `Projection.SenderFallbackExactly` | src/config/email-client.ts:166-172 | "Unknown Sender" is used exactly for no list, an empty list, or a single entry rendering as ""; otherwise the joined rendering |
| `Projection.SingleSenderRendering` | src/config/email-client.ts:166-172 | a named sender renders as `name <address>`, an unnamed one as its address, one with neither as "Unknown Sender" |
| `Projection.TwoSendersJoined` | src/config/email-client.ts:166-172 | two senders are joined with ", " even when both render as "" |
| `Projection.SubjectText` | src/config/email-client.ts:176 | a truthy subject is returned unchanged; the subject is never empty, and is "No Subject" exactly when the envelope's subject is falsy (or literally "No Subject") |
| `Projection.Project` | src/config/email-client.ts:174-182 | the record's id is the UID, the snippet is empty, the subject is `subject || 'No Subject'` (`Projection.SubjectText`) and the sender the joined rendering or "Unknown Sender" (`Projection.SenderText`), both non-empty, and a date is present exactly when the envelope has one, formatted as ISO |
| `Projection.ProjectAll` | src/config/email-client.ts:174-182 | one record per message, in the same order |
| `Projection.ProjectedIds` | src/config/email-client.ts:174-175 | the ids of the records are the UIDs of the messages, in order |
| `Projection.ProjectAllAppend` | src/config/email-client.ts:174-182 | projection distributes over concatenation |
| `EmailClient.GetHost` | src/config/email-client.ts:42-61 | the host is resolved exactly for the three providers, each to its own server on port 993; anything else fails with "Unsupported email client type" |
| `EmailClient.Construct` | src/config/email-client.ts:15-40 | construction succeeds exactly when the environment's client type, or else the request's, is supported; a failure reads "Fail INIT Unsupported email client type"; the connection is always secure, and its host is the provider host of that client type, whether it came from the environment or from the unvalidated request |
| `EmailClient.EnvironmentTakesPrecedence` | src/config/email-client.ts:17-33 | user, password, port and client type come from the environment when set there and from the request otherwise; without an environment port the port is 993 |
| `EmailClient.RequestPortIgnored` | src/config/email-client.ts:27-29 | the request's `port` has no effect on construction |
| `EmailClient.ConformingCredentialsConstruct` | src/config/email-client.ts:17-20 | credentials that satisfy the schema always construct when the environment names no client type |
| `EmailClient.SenderClauses` | src/config/email-client.ts:82-124 | the OR clause is absent exactly when there are no senders, and otherwise holds one term per sender |
| `EmailClient.OpenedMailbox` | src/config/email-client.ts:76 | the mailbox opened is never empty |
| `EmailClient.MailboxDefaulting` | src/types/email.ts:28 | together with the schema default, a missing or empty mailbox opens "INBOX" and a named one opens itself |
| `EmailClient.ResolveBound` | src/config/email-client.ts:92-118 | a falsy bound, or one that strips to nothing, is the clock's default and is not re-tagged; otherwise the stripped literal is parsed and re-tagged to the local zone |
| `EmailClient.ResolveWindow` | src/config/email-client.ts:105-118 | `since` comes from the start alone and `before` from the end alone; a falsy start or end gives the start or end of today |
| `EmailClient.MissingBoundsDefault` | src/config/email-client.ts:105-118 | an absent bound, or one that cleans to nothing, is the start or end of today, not re-tagged |
| `EmailClient.MarkerFreeBoundRetagged` | src/config/email-client.ts:105-118 | a marker-free literal is parsed as written and re-tagged to the local zone |
| `EmailClient.TrailingOffsetIgnored` | src/config/email-client.ts:92-118 | a trailing `Z` or `GMT-N` does not change the bound: the literal is read as local wall-clock time |
| `EmailClient.BuildQuery` | src/config/email-client.ts:120-125 | the query carries the subject, the resolved bounds, a non-empty mailbox, and an OR clause exactly when there are senders |
| `EmailClient.FilterByWindow` | src/config/email-client.ts:157-164 | the filter keeps the search order and keeps exactly the undated messages and those dated within the window |
| `EmailClient.FilterIdempotent` | src/config/email-client.ts:157-164 | a second pass of the filter changes nothing |
| `EmailClient.FilterAppend` | src/config/email-client.ts:157-164 | the filter distributes over concatenation |
| `EmailClient.WindowBoundaries` | src/config/email-client.ts:160 | the window is half-open: a message dated `since` is kept, one dated `before` is dropped |
| `EmailClient.UnreadableBoundInvalid` | src/config/email-client.ts:105-118 | a literal that survives cleaning but cannot be read gives the invalid bound, not the clock's default, when re-tagging keeps invalid values invalid |
| `EmailClient.UnreadableLiteralKeepsOnlyUndated` | src/config/email-client.ts:105-164 | with an unreadable start or end literal and a successful search, the client reports exactly the searched, fetched messages that carry no date |
| `EmailClient.InvalidBoundKeepsOnlyUndated` | src/config/email-client.ts:157-164 | with an unreadable bound every dated message is dropped and every undated one kept |
| `EmailClient.EqualBoundsKeepOnlyUndated` | src/config/email-client.ts:105-118 | equal start and end literals give an empty window, so only undated messages survive |
| `EmailClient.Collected` | src/config/email-client.ts:138-187 | the loop fails exactly when some fetch throws, and never reports more records than UIDs |
| `EmailClient.FetchEmails` | src/config/email-client.ts:73-194 | a list is always present and empty on error; "No emails found" exactly for a falsy search; no error exactly when the session opens, the search lists UIDs and no fetch throws; otherwise "Failed to fetch emails" |
| `EmailClient.CollectedFollowsSearchOrder` | src/config/email-client.ts:140-183 | the reported ids are searched UIDs in search order |
| `EmailClient.CollectedExactly` | src/config/email-client.ts:140-183 | a UID is reported exactly when it was searched, its fetch returned a message, and that message passes the window |
| `EmailClient.FetchEmailsReports` | src/config/email-client.ts:127-187 | on success the ids are a subsequence of the search result and are exactly the searched UIDs whose message was fetched and passes the window |
| `EmailClient.CollectEmails` | src/config/email-client.ts:138-187 | the imperative loop succeeds exactly when no fetch throws, and then returns the records of the functional definition |
| `EmailClient.MarkEmailsAsRead` | src/config/email-client.ts:196-218 | flagging succeeds exactly when the session does not throw; a throw becomes a failure record "Failed to mark emails as read: <message>" |
| `LegacyClient.Construct` | config/imap-flow.ts:15-35 | construction fails exactly when the user or the app password is empty, and otherwise targets Gmail on port 993 securely with those credentials |
| `LegacyClient.BuildQuery` | config/imap-flow.ts:45-71 | the legacy query searches INBOX and always carries an OR list, one term per sender |
| `LegacyClient.Collected` | config/imap-flow.ts:84-120 | the legacy loop fails exactly when some fetch throws |
| `LegacyClient.FetchEmails` | config/imap-flow.ts:45-130 | the legacy results have the main client's shapes and error conditions |
| `LegacyClient.LegacyReportsEveryMessage` | config/imap-flow.ts:86-120 | the legacy client's ids are `FetchedOnly` of the search result: in search order, exactly the searched UIDs whose fetch returned a message |
| `LegacyClient.MainListIsFilteredLegacyList` | config/imap-flow.ts:86-124 | given the same search and fetch replies (although the two queries differ), the main client fails exactly when the legacy one does, and otherwise reports a subsequence of the legacy list |
| `LegacyClient.SameListWhenAllInWindow` | config/imap-flow.ts:86-120 | given the same search and fetch replies, when every fetched message passes the window, the two clients report the same result |
| `LegacyClient.OrClausesCompared` | config/imap-flow.ts:54-71 | the OR clauses differ only without senders: the legacy client sends an empty list where the main client sends none |
| `LegacyClient.Bound` | config/imap-flow.ts:62-69 | a truthy bound is parsed as written, without stripping or re-tagging; a falsy one is the clock's default; on a marker-free literal, re-tagging the legacy bound gives the main client's bound |
| `LegacyClient.BoundsCompared` | config/imap-flow.ts:62-69 | the legacy client parses a literal with its offset marker, where the main client strips the marker |
| `LegacyClient.MailboxCompared` | config/imap-flow.ts:48 | the legacy client opens INBOX whatever mailbox the request names |
| `EmailServices.AuthFromHeaders` | src/services/email.ts:122-127 | the credentials are the request headers, field by field, unvalidated |
| `EmailServices.FetchEmailsHandler` | src/services/email.ts:20-36 | the result is always well shaped; a constructor failure becomes "Failed to fetch emails: Fail INIT ..." with an empty list; otherwise the client's result is passed on |
| `EmailServices.ParseResponsePrompt` | src/services/email.ts:58-74 | without e-mails the text is "No emails found matching the criteria." |
| `EmailServices.FirstPlaceholderReplaced` | src/services/email.ts:66-71 | only the first "{{emails}}" is replaced, by the serialised list exactly as it is |
| `EmailServices.TemplateWithoutPlaceholder` | src/services/email.ts:68-71 | a template without "{{emails}}" is returned as it is |
| `EmailServices.FalsyPromptUsesDefault` | src/services/email.ts:66 | an absent or empty prompt behaves as the default prompt |
| `EmailServices.ParseResponsePromptAsWritten` | src/services/email.ts:58-74 | without e-mails the written templating also gives the fixed message |
| `EmailServices.TemplatingAgreesWithoutDollar` | src/services/email.ts:68-71 | the written and the intended templating agree whenever the serialised list holds no `$` |
| `EmailServices.DollarAmpersandCorruptsText` | src/services/email.ts:68-71 | a `$&` in the serialised list makes the written templating put "{{emails}}" itself in its place |
| `EmailServices.SelectPromptAsWritten` | src/services/email.ts:156-159 | a missing prompt header yields the prompt "undefined"; any other non-empty header is the prompt; an empty header falls to the environment prompt, then the default |
| `EmailServices.SelectPrompt` | src/services/email.ts:156-159 | corrected choice: a non-empty header wins; otherwise a non-empty environment prompt; otherwise the default prompt |
| `EmailServices.PromptChoicesCompared` | src/services/email.ts:156-159 | the two prompt choices agree when the header is present; without it the intended choice is the environment prompt or the default |
| `EmailServices.MissingHeaderHidesEmails` | src/services/email.ts:156-161 | without the prompt header the written code renders the text "undefined", and the e-mails never reach it |
| `EmailServices.SearchToolResultAsWritten` | src/services/email.ts:131-170 | the structured content is always the response; the result is an error exactly when the response's error is truthy, and then shows that error; an empty list shows "No emails found" |
| `EmailServices.SearchToolMissingHeaderAsWritten` | src/services/email.ts:156-170 | a successful non-empty search without the prompt header answers "undefined", not as an error, and shows no e-mails |
| `EmailServices.SearchToolDollarAsWritten` | src/services/email.ts:156-170 | with the header "{{emails}}" and a `$&` in the serialised list, the tool text shows "{{emails}}" where the `$&` was |
| `EmailServices.SearchToolShowsEmailsAsWritten` | src/services/email.ts:156-170 | with a template header and no `$` in the serialised list, a successful non-empty search shows the list where the first placeholder was |
| `EmailServices.SearchToolsAgree` | src/services/email.ts:156-170 | the written and the corrected search tools give the same result whenever the prompt header is present and the serialised list holds no `$` |
| `EmailServices.SearchToolResult` | src/services/email.ts:131-170 | corrected tool (Findings rows 1 and 2): the same error, empty-list and structured-content behaviour as the written tool |
| `EmailServices.SearchToolShowsEmails` | src/services/email.ts:156-170 | corrected tool: with a template header, a successful non-empty search shows the serialised list verbatim where the placeholder was, whatever it holds |
| `EmailServices.UnsupportedClientTypeIsToolError` | src/services/email.ts:121-142 | in both readings of the tool, an unsupported or missing client type ends as an error result reading "Failed to fetch emails: Fail INIT Unsupported email client type" |
| `EmailServices.MarkEmailsAsReadHandlerAsWritten` | src/services/email.ts:38-56 | the written handler succeeds exactly when construction does, whatever happened to the flags |
| `EmailServices.MarkEmailsAsReadHandler` | src/services/email.ts:38-56 | the intended handler succeeds exactly when construction and the flag update both succeed, and passes on the client's failure message |
| `EmailServices.FlagFailureReportedAsSuccess` | src/services/email.ts:42-47 | a throwing flag update is a success for the written handler and a failure for the intended one |
| `EmailServices.MarkToolResult` | src/services/email.ts:192-203 | the tool result is an error exactly when the handler reports no success; its text is the success message or the failure prefix followed by `String(error)` |
| `EmailServices.MarkToolFlagFailureAsWritten` | src/services/email.ts:42-47 | as written, a flag update that throws is shown as "Emails marked as read successfully." and is not an error |
| `EmailServices.MarkToolInitFailureAsWritten` | src/services/email.ts:48-54 | as written, a constructor failure is an error shown with "Failed to mark emails as read: " twice, once from the handler's catch and once from the tool text at lines 196-198 |
| `EmailServices.MarkToolFailureText` | src/services/email.ts:196-198 | corrected composition (Findings row 3): a failed flag update is an error shown with "Failed to mark emails as read: " twice |
| `Resource.GetPathTypeAsWritten` | src/utils/resource.ts:18-34 | `uri` exactly for a parsed `file:` scheme, or an unparsable input starting with `/` or a drive path; `url` exactly for a parsed http, https or ftp scheme; `text` otherwise |
| `Resource.ParsedSchemeDecides` | src/utils/resource.ts:19-27 | once the parser succeeds, only the scheme decides the label |
| `Resource.DrivePathParsedAsText` | src/utils/resource.ts:20-31 | a drive path that the parser accepts with its drive letter as the scheme is labelled `text` |
| `Resource.GetPathType` | src/utils/resource.ts:18-34 | `url` exactly for a parsed http, https or ftp scheme |
| `Resource.DrivePathIsUri` | src/utils/resource.ts:29 | the intended classifier labels a drive path `uri`, whether the parser rejects it or reads its drive letter as the scheme |
| `Resource.ClassifiersAgreeOffDrivePaths` | src/utils/resource.ts:18-34 | the two classifiers agree on everything but drive paths, and differ only by `uri` against `text` |
| `Resource.ExtName` | src/utils/resource.ts:47 | an extension is empty or starts with a dot and holds no slash and no further dot |
| `Resource.ExtNameOfFileName` | src/utils/resource.ts:47 | the extension of `dir/stem.ext` is `.ext`, however many dots the stem holds |
| `Resource.DotFileHasNoExtension` | src/utils/resource.ts:47 | a component such as `.env` has no extension |
| `Resource.TrailingSlashIgnored` | src/utils/resource.ts:47 | a trailing slash does not change the extension |
| `Resource.Dispatch` | src/utils/resource.ts:36-88 | for a labelled input: empty input is rejected; non-empty text is returned verbatim; a `uri` input names the path after `file:`, a missing file is an error naming it, and an existing one is read as text for a listed extension and as a PDF for `.pdf`, and only then; a `url` input passes a network failure on, turns a not-ok reply into an error naming it, and on an ok reply is read as text exactly when a text type occurs in the content type, and as a PDF exactly when none does and `application/pdf` does |
| `Resource.ResolveContentAsWritten` | src/utils/resource.ts:36-88 | every promise of `Resource.Dispatch`, with the label of the written `getPathType`: inputs it labels `text`, drive paths the parser accepts among them, are returned verbatim |
| `Resource.ResolveContent` | src/utils/resource.ts:36-88 | corrected dispatch (Findings row 4): every promise of `Resource.Dispatch`, with the label of the corrected classifier |
| `Resource.ResolversAgreeOffDrivePaths` | src/utils/resource.ts:18-88 | the written and the corrected dispatch give the same result on every input that is not a drive path |
| `Resource.DrivePathResolved` | src/utils/resource.ts:18-88 | a drive path parsed with its drive letter as the scheme is returned verbatim as written, and looked up as a local file as intended |
| `Resource.FileUrlPath` | src/utils/resource.ts:44 | a `file:` URL names the path after the scheme |
| `Resource.ResolveLocal` | src/utils/resource.ts:44-63 | a missing file is an error naming the path; an existing file is read as text if and only if its lower-cased extension is listed, as a PDF if and only if it is `.pdf`, and is otherwise an error naming the extension and the path |
| `Resource.ResolveRemote` | src/utils/resource.ts:64-84 | a network failure passes its message through; a not-ok reply is an error naming the input; an ok reply is read as text if and only if a text type occurs in the content type (empty when absent), as a PDF if and only if none does and `application/pdf` does, and is otherwise an error naming the content type and the input |
| `Resource.HasTextType` | src/utils/resource.ts:73 | an empty content type names no text type |
| `Resource.TextTypeAnywhere` | src/utils/resource.ts:73 | a content type containing a listed text type anywhere, with parameters before or after it, names a text type |
| `Resource.LocalExtension` | src/utils/resource.ts:47 | the extension the dispatch compares is `extname` with its ASCII capitals lowered: empty or a dot followed by no slash and no further dot |
| `Resource.LocalDispatch` | src/utils/resource.ts:43-63 | a missing file is reported with its path; an existing file is read as text for a listed extension, as a PDF for `.pdf`, and refused with its extension otherwise |
| `Resource.LocalExtensionOfFileName` | src/utils/resource.ts:47 | the dispatch sees the extension lower-cased, so `Guide.PDF` is a PDF |
| `Resource.TextTypeWinsOverPdf` | src/utils/resource.ts:73-79 | a content type naming both a text type and PDF is read as text |
| `Resource.RemoteErrors` | src/utils/resource.ts:64-84 | a reply that is not ok is an error naming the input, and so is a missing content type |

## Left out

- IMAP session I/O (connect, open, search, fetch, flag, logout, close) is not modelled. Its replies are inputs (`Imap.Connector`, and the `Outcome` of the flag session).
- The teardown in the `finally` blocks, and their ordering, are not modelled. That includes a `mailboxClose` after `logout` throwing inside the teardown.
- The legacy client's teardown inside its `catch` (config/imap-flow.ts:125-128) is not modelled either. A `disconnect` or `mailboxClose` that throws there would escape `fetchEmails` instead of the "Failed to fetch emails" result; the model takes the teardown never to throw.
- The legacy client does not close its connection after a successful fetch. This is not modelled, because sessions are not modelled.
- Luxon and `Intl` are left out:
  - ISO parsing, re-tagging to the local zone and ISO formatting are function parameters (`Time.DateLibrary`);
  - the start and end of today are inputs (`Time.Clock`);
  - that re-tagging keeps an invalid value invalid is a premise (`Time.KeepsInvalid`) of the lemmas about unreadable literals, not a property of the parameter;
  - an unreadable message date (an invalid JavaScript `Date`) is not represented, so envelope dates are always instants.
- The server narrows its search by day on its own side. That search is an input, so the model states only the client-side filter.
- The cleaned date strings are written back into the caller's `params.dateRange`. That mutation is not modelled, because the model is pure.
- `JSON.stringify` of the e-mail list is a parameter.
- The schema library's e-mail format check is not modelled.
- `parseInt(EMAIL_PORT, 10)` is a parameter, so its `NaN` case is whatever that function returns.
- The main constructor's catch is modelled for the unsupported client type, whose error it wraps as "Fail INIT ..." (`EmailClient.Construct`). The case where `new ImapFlow` itself throws is left out: that library is not modelled, so it is taken never to throw. The legacy constructor's rethrow is left out for the same reason.
- The `handleError` decorator only logs and rethrows, so it is left out. Logging in general is left out.
- The transport and entry points are left out: the HTTP server, its session map and the stdio entry point.
- The environment loader `env.ts` is left out. The environment values are an input (`EmailClient.Env`, `LegacyClient.LegacyConfig`).
- The legacy `markAsRead` is a direct pass-through to the IMAP library, with no logic of its own.
- `types/email.ts` duplicates the schemas of `src/types/email.ts`, which are modelled once.
- The WHATWG URL parser is a parameter (`Resource.UrlParse`). So is the existence test of the file system.
- Reading a file, fetching a body and PDF text extraction are not modelled. The dispatch returns the action it would take (`Resource.ContentAction`).
- A network failure inside `fetch` is a reply carrying its message.
- `Resource.ExtName` follows Node's POSIX `path.extname`, where only `/` separates components. On Windows Node applies the win32 rules, where `\` is a separator too and a drive prefix is skipped; that platform is not modelled, so the corrected reading of Findings row 4 (a drive path looked up as a local file) takes its extension by the POSIX rules.
- `JsText.AsciiLower`: `toLowerCase` is modelled on ASCII letters only. Other Unicode case mappings are left out, and extensions are compared against ASCII lists.
- A thrown value that is not an `Error` gives "Unknown error" (`JsText.ErrorMessage`). Nothing in the modelled core throws such a value.

## Findings

| source | as written | input that shows it | evidently intended | confidence | as-written member | corrected member |
|---|---|---|---|---|---|---|
| src/services/email.ts:68-71 | `replace` with the serialised list as a replacement string, so `$&`, `$$`, `` $` `` and `$'` inside e-mail text are expanded | the prompt "{{emails}}" and an e-mail whose subject contains `$&`: the text shows "{{emails}}" where the subject's `$&` was | the serialised list inserted verbatim | not executed; high (the expansion is part of the language's `replace`) | `EmailServices.ParseResponsePromptAsWritten`, shown by `EmailServices.DollarAmpersandCorruptsText` | `EmailServices.ParseResponsePrompt`, with `EmailServices.FirstPlaceholderReplaced` |
| src/services/email.ts:156-159 | `String(header)` before the `||` chain, so a missing header becomes the truthy word "undefined" | a search request without an `email-prompt` header that finds e-mails: the tool text is "undefined" | fall back to the environment prompt, then the default prompt | not executed; high | `EmailServices.SelectPromptAsWritten`, shown by `EmailServices.MissingHeaderHidesEmails` | `EmailServices.SelectPrompt`, with `EmailServices.PromptChoicesCompared` |
| src/services/email.ts:42-47 | the client's `{success: false, error}` record is discarded and `{success: true}` returned | ids `[1, 2, 3]` where adding the flag throws: the tool reports success | report the client's failure | not executed; high | `EmailServices.MarkEmailsAsReadHandlerAsWritten`, shown by `EmailServices.FlagFailureReportedAsSuccess` | `EmailServices.MarkEmailsAsReadHandler`, with `EmailServices.MarkToolFailureText` |
| src/utils/resource.ts:20-31 | the drive-path test runs only when the URL parser throws, but the parser accepts `C:\...` with the scheme `c:` | the guidelines reference `C:\guides\rules.md`: labelled `text`, so the path itself becomes the guidelines | label drive paths `uri` | not executed; medium (it rests on the parser accepting a one-letter scheme) | `Resource.GetPathTypeAsWritten`, shown by `Resource.DrivePathParsedAsText` | `Resource.GetPathType`, with `Resource.DrivePathIsUri` |

The tools are modelled in both readings. The written compositions use the
written members, and the corrected ones use the corrected members:

- `EmailServices.SearchToolResultAsWritten` uses `SelectPromptAsWritten` and `ParseResponsePromptAsWritten`; `EmailServices.SearchToolResult` uses `SelectPrompt` and `ParseResponsePrompt`, and `EmailServices.SearchToolsAgree` says where the two agree;
- `EmailServices.MarkToolResult` is applied to `MarkEmailsAsReadHandlerAsWritten` in `EmailServices.MarkToolFlagFailureAsWritten` and `EmailServices.MarkToolInitFailureAsWritten`, and to `MarkEmailsAsReadHandler` in `EmailServices.MarkToolFailureText`;
- `Resource.ResolveContentAsWritten` uses `GetPathTypeAsWritten` and `Resource.ResolveContent` uses `GetPathType`; `Resource.ResolversAgreeOffDrivePaths` and `Resource.DrivePathResolved` compare them.
