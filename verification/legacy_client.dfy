/**
  The older Gmail-only client: credentials come from the environment, the
  OR clause is always present, bounds are parsed as written and there is no
  client-side time filter. It is modelled beside the main client so that the
  differences between the two can be stated.
 */
module LegacyClient {
  import opened Wrappers
  import opened JsText
  import opened Sequences
  import opened Time
  import opened Imap
  import opened EmailTypes
  import opened OffsetMarkers
  import opened Projection
  import EmailClient

  /** The validated environment configuration: user and application password. */
  datatype LegacyConfig = LegacyConfig(user: Option<string>, appPassword: Option<string>)

  const MissingCredentials := "Email user and app password must be set in environment variables."

  /** The constructor: it refuses an empty user or password and otherwise targets Gmail on port 993. */
  function Construct(cfg: LegacyConfig): (r: Result<EmailClient.ImapSettings, string>)
    ensures r.Failure? <==> !Truthy(cfg.user) || !Truthy(cfg.appPassword)
    ensures r.Failure? ==> r.error == MissingCredentials
    ensures r.Success? ==> r.value == EmailClient.ImapSettings("imap.gmail.com", 993, true, cfg.user, cfg.appPassword)
  {
    if !Truthy(cfg.user) || !Truthy(cfg.appPassword) then Failure(MissingCredentials)
    else Success(EmailClient.ImapSettings("imap.gmail.com", 993, true, cfg.user, cfg.appPassword))
  }

  /** A bound parsed as written (no marker stripping, no re-tagging), or the clock's default. */
  function Bound(field: Option<string>, fallback: int, lib: DateLibrary): (r: DateTime)
    ensures !Truthy(field) ==> r == At(fallback)
    ensures Truthy(field) ==> r == lib.parseIso(field.value)
    ensures Truthy(field) && NoMarkers(field.value) ==> lib.retagLocal(r) == EmailClient.ResolveBound(field, fallback, lib)
  {
    if !Truthy(field) then At(fallback)
    else if NoMarkers(field.value) then
      EmailClient.MarkerFreeBoundRetagged(field.value, fallback, lib);
      lib.parseIso(field.value)
    else lib.parseIso(field.value)
  }

  /** The legacy query: INBOX whatever the request says, and an OR list that is always present. */
  function BuildQuery(params: InputGetEmails, clock: Clock, lib: DateLibrary): (q: SearchQuery)
    ensures q.mailbox == DefaultMailbox
    ensures q.subject == params.subject
    ensures q.or.Some?
    ensures q.or.value == (if params.senders.Some? then FromClauses(params.senders.value) else [])
  {
    SearchQuery(
      DefaultMailbox,
      params.subject,
      Bound(params.dateRange.start, clock.startOfToday, lib),
      Bound(params.dateRange.end, clock.endOfToday, lib),
      Some(if params.senders.Some? then FromClauses(params.senders.value) else []))
  }

  /** The legacy loop: every fetched message is projected; missing ones are skipped. */
  function Collected(uids: seq<Uid>, fetch: map<Uid, FetchReply>, formatIso: int -> string): (r: Option<seq<EmailRecord>>)
    ensures r.None? <==> SomeFetchThrows(uids, fetch)
  {
    match Candidates(uids, fetch)
    case None => None
    case Some(cs) => Some(ProjectAll(cs, formatIso))
  }

  /** The legacy `fetchEmails`, with the same result shapes as the main client. */
  function FetchEmails(params: InputGetEmails, clock: Clock, lib: DateLibrary, conn: Connector): (r: OutputGetEmails)
    ensures WellShaped(r)
    ensures r.error.Some? ==> r.error.value == FetchFailed || r.error.value == NoEmailsFound
    ensures r.error == Some(NoEmailsFound) <==> conn.opens && conn.search.Falsy?
    ensures r.error.None? <==> conn.opens && conn.search.Uids? && !SomeFetchThrows(conn.search.uids, conn.fetch)
  {
    if !conn.opens then OutputGetEmails(Some([]), Some(FetchFailed))
    else
      match conn.search
      case SearchThrew => OutputGetEmails(Some([]), Some(FetchFailed))
      case Falsy => OutputGetEmails(Some([]), Some(NoEmailsFound))
      case Uids(uids) =>
        match Collected(uids, conn.fetch, lib.formatIso)
        case None => OutputGetEmails(Some([]), Some(FetchFailed))
        case Some(es) => OutputGetEmails(Some(es), None)
  }

  /**
    Without a time filter every message that was fetched is reported, in
    search order: the reported ids are exactly the searched UIDs whose fetch
    returned a message.
   */
  lemma LegacyReportsEveryMessage(uids: seq<Uid>, fetch: map<Uid, FetchReply>, formatIso: int -> string)
    requires !SomeFetchThrows(uids, fetch)
    ensures IdsOf(Collected(uids, fetch, formatIso).value) == FetchedOnly(uids, fetch)
    ensures IsSubsequence(IdsOf(Collected(uids, fetch, formatIso).value), uids)
    ensures forall u: Uid :: (u in IdsOf(Collected(uids, fetch, formatIso).value) <==> u in uids && Fetched(u, fetch))
  {
    ProjectedIds(Candidates(uids, fetch).value, formatIso);
  }

  lemma {:induction false} FilteredProjectionIsSubsequence(cs: seq<Candidate>, w: EmailClient.Window, formatIso: int -> string)
    ensures IsSubsequence(ProjectAll(EmailClient.FilterByWindow(cs, w), formatIso), ProjectAll(cs, formatIso))
  {
    if |cs| > 0 {
      FilteredProjectionIsSubsequence(cs[1..], w, formatIso);
      var rest := EmailClient.FilterByWindow(cs[1..], w);
      var all := ProjectAll(cs, formatIso);
      assert all[1..] == ProjectAll(cs[1..], formatIso);
      if EmailClient.Keeps(w, cs[0]) {
        assert ([cs[0]] + rest)[1..] == rest;
        var kept := ProjectAll([cs[0]] + rest, formatIso);
        assert kept[0] == all[0] && kept[1..] == ProjectAll(rest, formatIso);
      }
    } else {
      SubsequenceReflexive(ProjectAll(cs, formatIso));
    }
  }

  lemma {:induction false} FilterKeepsAll(cs: seq<Candidate>, w: EmailClient.Window)
    requires forall c :: c in cs ==> EmailClient.Keeps(w, c)
    ensures EmailClient.FilterByWindow(cs, w) == cs
  {
    if |cs| > 0 {
      assert forall c :: c in cs[1..] ==> c in cs;
      FilterKeepsAll(cs[1..], w);
      assert cs == [cs[0]] + cs[1..];
    }
  }

  /**
    Same connection, two clients: the main client fails exactly when the
    legacy one does, and when both succeed its list is the legacy list with
    the out-of-window messages removed, in the same order. "Same connection"
    assumes the server gives both clients the same search and fetch replies,
    although their queries differ (mailbox, OR list and bounds).
   */
  lemma MainListIsFilteredLegacyList(params: InputGetEmails, clock: Clock, lib: DateLibrary, conn: Connector)
    ensures EmailClient.FetchEmails(params, clock, lib, conn).error == FetchEmails(params, clock, lib, conn).error
    ensures FetchEmails(params, clock, lib, conn).error.None? ==>
      IsSubsequence(EmailClient.FetchEmails(params, clock, lib, conn).emails.value,
                    FetchEmails(params, clock, lib, conn).emails.value)
  {
    if conn.opens && conn.search.Uids? && !SomeFetchThrows(conn.search.uids, conn.fetch) {
      var cs := Candidates(conn.search.uids, conn.fetch).value;
      FilteredProjectionIsSubsequence(cs, EmailClient.ResolveWindow(params.dateRange, clock, lib), lib.formatIso);
    }
  }

  /**
    When every fetched message falls in the window (or is undated), the two
    clients report the same list, assuming, as above, that the server gives
    both the same search and fetch replies despite their different queries.
   */
  lemma SameListWhenAllInWindow(params: InputGetEmails, clock: Clock, lib: DateLibrary, conn: Connector)
    requires conn.search.Uids? && !SomeFetchThrows(conn.search.uids, conn.fetch)
    requires forall c :: c in Candidates(conn.search.uids, conn.fetch).value ==>
      EmailClient.Keeps(EmailClient.ResolveWindow(params.dateRange, clock, lib), c)
    ensures EmailClient.FetchEmails(params, clock, lib, conn) == FetchEmails(params, clock, lib, conn)
  {
    FilterKeepsAll(Candidates(conn.search.uids, conn.fetch).value, EmailClient.ResolveWindow(params.dateRange, clock, lib));
  }

  /**
    The OR clauses differ only without senders: the legacy client sends an
    empty list where the main client sends no clause; otherwise they agree.
   */
  lemma OrClausesCompared(params: InputGetEmails, clock: Clock, lib: DateLibrary)
    ensures var legacy := BuildQuery(params, clock, lib).or.value;
      EmailClient.BuildQuery(params, clock, lib).or == (if |legacy| == 0 then None else Some(legacy))
  {
  }

  /**
    The bounds agree on a non-empty literal without markers whose parse the
    re-tagging leaves alone; a marker makes them differ, since the legacy
    client parses the literal with its marker.
   */
  lemma BoundsCompared(s: string, d: string, fallback: int, lib: DateLibrary)
    requires s != "" && NoMarkers(s)
    requires |d| > 0 && AllDigits(d)
    ensures lib.retagLocal(lib.parseIso(s)) == lib.parseIso(s) ==>
      EmailClient.ResolveBound(Some(s), fallback, lib) == Bound(Some(s), fallback, lib)
    ensures EmailClient.ResolveBound(Some(s + "Z"), fallback, lib) == EmailClient.ResolveBound(Some(s), fallback, lib)
    ensures Bound(Some(s + "Z"), fallback, lib) == lib.parseIso(s + "Z")
    ensures Bound(Some(s + "GMT-" + d), fallback, lib) == lib.parseIso(s + "GMT-" + d)
  {
    EmailClient.MarkerFreeBoundRetagged(s, fallback, lib);
    EmailClient.TrailingOffsetIgnored(s, d, fallback, lib);
  }

  /** The legacy client opens INBOX whatever mailbox the request names; the main client opens the named one. */
  lemma MailboxCompared(params: InputGetEmails, clock: Clock, lib: DateLibrary)
    requires params.mailbox != ""
    ensures BuildQuery(params, clock, lib).mailbox == DefaultMailbox
    ensures EmailClient.BuildQuery(params, clock, lib).mailbox == params.mailbox
  {
  }
}
