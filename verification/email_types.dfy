/**
  The records the two tools accept and return, with the constraints their
  schemas place on them.
 */
module EmailTypes {
  import opened Wrappers
  import opened JsText

  /** The three supported providers of the `clientType` enumeration. */
  datatype ClientType = Gmail | Outlook | Yahoo

  function ClientTypeName(c: ClientType): string {
    match c
    case Gmail => "gmail"
    case Outlook => "outlook"
    case Yahoo => "yahoo"
  }

  /** Validation of a `clientType` string against the enumeration. */
  function ParseClientType(s: string): (r: Option<ClientType>)
    ensures r.Some? <==> s == "gmail" || s == "outlook" || s == "yahoo"
    ensures r.Some? ==> ClientTypeName(r.value) == s
  {
    if s == "gmail" then Some(Gmail)
    else if s == "outlook" then Some(Outlook)
    else if s == "yahoo" then Some(Yahoo)
    else None
  }

  /** Every member of the enumeration is accepted back under its own name. */
  lemma ClientTypeRoundTrip(c: ClientType)
    ensures ParseClientType(ClientTypeName(c)) == Some(c)
  {
  }

  /**
    Credentials as the tool callbacks assemble them from request headers:
    the record is cast to its schema type without validation, so any field
    may be missing and `clientType` may be any string.
   */
  datatype AuthEmail = AuthEmail(
    email: Option<string>,
    password: Option<string>,
    clientType: Option<string>,
    port: Option<string>)

  /**
    The credentials schema: a string email (its address format is checked by
    the schema library and not modelled), a password of at least six
    characters, a client type from the enumeration; `port` may be a string,
    missing or null.
   */
  predicate ConformsToAuthSchema(a: AuthEmail) {
    && a.email.Some?
    && a.password.Some? && |a.password.value| >= 6
    && a.clientType.Some? && ParseClientType(a.clientType.value).Some?
  }

  /** The requested range: the object is required, each end is optional. */
  datatype DateRange = DateRange(start: Option<string>, end: Option<string>)

  /** Search-tool input after schema parsing (the mailbox default applied). */
  datatype InputGetEmails = InputGetEmails(
    mailbox: string,
    subject: Option<string>,
    dateRange: DateRange,
    senders: Option<seq<string>>)

  const DefaultMailbox := "INBOX"

  /** Schema parsing of the search input: `mailbox` defaults to "INBOX" when absent. */
  function ParseInputGetEmails(
    mailbox: Option<string>, subject: Option<string>,
    dateRange: DateRange, senders: Option<seq<string>>): (r: InputGetEmails)
    ensures mailbox.None? ==> r.mailbox == DefaultMailbox
    ensures mailbox.Some? ==> r.mailbox == mailbox.value
    ensures r.subject == subject && r.dateRange == dateRange && r.senders == senders
  {
    InputGetEmails(mailbox.GetOr(DefaultMailbox), subject, dateRange, senders)
  }

  /** One e-mail of the search output; `date` is nullable. */
  datatype EmailRecord = EmailRecord(id: int, subject: string, sender: string, snippet: string, date: Option<string>)

  /** Search output: both the list and the error are nullable. */
  datatype OutputGetEmails = OutputGetEmails(emails: Option<seq<EmailRecord>>, error: Option<string>)

  /** The two fixed errors a client's search can report. */
  const NoEmailsFound := "No emails found matching the criteria."
  const FetchFailed := "Failed to fetch emails"

  /** Mark-as-read input: the UIDs to flag. */
  datatype InputMarkEmailsAsRead = InputMarkEmailsAsRead(ids: seq<int>)

  /** Mark-as-read output: a boolean and a nullable error. */
  datatype OutputMarkEmailsAsRead = OutputMarkEmailsAsRead(success: bool, error: Option<string>)

  /**
    The shape every search result of the core has: a list is always present,
    and a result that reports an error carries an empty list.
   */
  predicate WellShaped(o: OutputGetEmails) {
    o.emails.Some? && (o.error.Some? ==> o.emails.value == [])
  }

  /** The emptiness test the tool layer applies: `!emails || emails.length === 0`. */
  predicate NoEmails(o: OutputGetEmails) {
    o.emails.None? || |o.emails.value| == 0
  }
}
