/**
  The IMAP client wrapper of the server: construction from credentials and
  environment, the search-and-filter pipeline of `fetchEmails`, and
  `markEmailsAsRead`.
 */
module EmailClient {
  import opened Wrappers
  import opened JsText
  import opened Sequences
  import opened Time
  import opened Imap
  import opened EmailTypes
  import opened OffsetMarkers
  import opened Projection

  /** The process environment variables the core reads. */
  datatype Env = Env(
    clientType: Option<string>,
    port: Option<string>,
    username: Option<string>,
    password: Option<string>,
    prompt: Option<string>)

  datatype HostPort = HostPort(host: string, port: int)

  const ImapsPort := 993
  const UnsupportedClientType := "Unsupported email client type"

  /** The IMAP server of each provider. */
  function ProviderHost(c: ClientType): string {
    match c
    case Gmail => "imap.gmail.com"
    case Outlook => "outlook.office365.com"
    case Yahoo => "imap.mail.yahoo.com"
  }

  /** `getHost`: the three providers map to their servers on port 993; anything else throws. */
  function GetHost(clientType: Option<string>): (r: Result<HostPort, string>)
    ensures r.Success? <==> clientType.Some? && ParseClientType(clientType.value).Some?
    ensures r.Success? ==> r.value == HostPort(ProviderHost(ParseClientType(clientType.value).value), ImapsPort)
    ensures r.Failure? ==> r.error == UnsupportedClientType
  {
    if clientType == Some("gmail") then Success(HostPort("imap.gmail.com", 993))
    else if clientType == Some("outlook") then Success(HostPort("outlook.office365.com", 993))
    else if clientType == Some("yahoo") then Success(HostPort("imap.mail.yahoo.com", 993))
    else Failure(UnsupportedClientType)
  }

  /** What the constructor hands to the IMAP library. */
  datatype ImapSettings = ImapSettings(
    host: string,
    port: int,
    secure: bool,
    user: Option<string>,
    pass: Option<string>)

  /**
    The constructor: each of client type, port, user and password is taken
    from the environment when it is set there and from the request otherwise;
    the request's `port` is never read. A failing `getHost` is rethrown as
    "Fail INIT <message>". `parseInt10` stands for `parseInt(_, 10)`.
   */
  function Construct(auth: AuthEmail, env: Env, parseInt10: string -> int): (r: Result<ImapSettings, string>)
    ensures r.Success? <==> GetHost(Or(env.clientType, auth.clientType)).Success?
    ensures r.Failure? ==> r.error == "Fail INIT " + UnsupportedClientType
    ensures r.Success? ==> r.value.secure
    ensures r.Success? ==> r.value.host == ProviderHost(ParseClientType(Or(env.clientType, auth.clientType).value).value)
  {
    match GetHost(Or(env.clientType, auth.clientType))
    case Failure(m) => Failure("Fail INIT " + m)
    case Success(hp) =>
      Success(ImapSettings(
        hp.host,
        if Truthy(env.port) then parseInt10(env.port.value) else hp.port,
        true,
        Or(env.username, auth.email),
        Or(env.password, auth.password)))
  }

  /** Environment values win over request values, field by field. */
  lemma EnvironmentTakesPrecedence(auth: AuthEmail, env: Env, parseInt10: string -> int)
    requires Construct(auth, env, parseInt10).Success?
    ensures var s := Construct(auth, env, parseInt10).value;
      && (Truthy(env.username) ==> s.user == env.username)
      && (!Truthy(env.username) ==> s.user == auth.email)
      && (Truthy(env.password) ==> s.pass == env.password)
      && (!Truthy(env.password) ==> s.pass == auth.password)
      && (Truthy(env.port) ==> s.port == parseInt10(env.port.value))
      && (!Truthy(env.port) ==> s.port == ImapsPort)
    ensures Truthy(env.clientType) ==> ParseClientType(env.clientType.value).Some?
    ensures Truthy(env.clientType) ==>
      Construct(auth, env, parseInt10).value.host == ProviderHost(ParseClientType(env.clientType.value).value)
  {
  }

  /** The request's `port` field has no effect on construction. */
  lemma RequestPortIgnored(auth: AuthEmail, env: Env, parseInt10: string -> int, p: Option<string>)
    ensures Construct(auth.(port := p), env, parseInt10) == Construct(auth, env, parseInt10)
  {
  }

  /** Credentials that satisfy the schema always construct when the environment names no client type. */
  lemma ConformingCredentialsConstruct(auth: AuthEmail, env: Env, parseInt10: string -> int)
    requires ConformsToAuthSchema(auth)
    requires !Truthy(env.clientType)
    ensures Construct(auth, env, parseInt10).Success?
    ensures Construct(auth, env, parseInt10).value.host == ProviderHost(ParseClientType(auth.clientType.value).value)
  {
  }

  /** The OR clause: one term per sender in order, and no clause at all (never an empty one) without senders. */
  function SenderClauses(senders: Option<seq<string>>): (r: Option<seq<FromClause>>)
    ensures r.None? <==> senders.None? || |senders.value| == 0
    ensures r.Some? ==> |r.value| > 0 && r.value == FromClauses(senders.value)
  {
    if senders.Some? && |FromClauses(senders.value)| > 0 then Some(FromClauses(senders.value)) else None
  }

  /** The mailbox opened for a search: `params.mailbox || 'INBOX'`. */
  function OpenedMailbox(params: InputGetEmails): (r: string)
    ensures r != ""
  {
    if params.mailbox != "" then params.mailbox else DefaultMailbox
  }

  /** Together with the schema default, a missing or empty mailbox opens "INBOX". */
  lemma MailboxDefaulting(mailbox: Option<string>, subject: Option<string>, dr: DateRange, senders: Option<seq<string>>)
    ensures OpenedMailbox(ParseInputGetEmails(mailbox, subject, dr, senders))
         == (if Truthy(mailbox) then mailbox.value else DefaultMailbox)
  {
  }

  /** The time window of the client-side filter. */
  datatype Window = Window(since: DateTime, before: DateTime)

  /**
    One bound of the window: the supplied literal has its offset markers
    stripped; if anything is left it is parsed and re-tagged to the local
    zone keeping its wall-clock fields, otherwise the default is used as it
    is.
   */
  function ResolveBound(field: Option<string>, fallback: int, lib: DateLibrary): (r: DateTime)
    ensures !Truthy(field) ==> r == At(fallback)
    ensures field.Some? && StripOffsets(field.value) == "" ==> r == At(fallback)
    ensures field.Some? && StripOffsets(field.value) != "" ==> r == lib.retagLocal(lib.parseIso(StripOffsets(field.value)))
  {
    if field.Some? && StripOffsets(field.value) != "" then
      lib.retagLocal(lib.parseIso(StripOffsets(field.value)))
    else At(fallback)
  }

  /** `since` from `dateRange.start` (default: start of today), `before` from `dateRange.end` (default: end of today). */
  function ResolveWindow(dr: DateRange, clock: Clock, lib: DateLibrary): (w: Window)
    ensures w.since == ResolveBound(dr.start, clock.startOfToday, lib)
    ensures w.before == ResolveBound(dr.end, clock.endOfToday, lib)
    ensures !Truthy(dr.start) ==> w.since == At(clock.startOfToday)
    ensures !Truthy(dr.end) ==> w.before == At(clock.endOfToday)
  {
    Window(ResolveBound(dr.start, clock.startOfToday, lib), ResolveBound(dr.end, clock.endOfToday, lib))
  }

  /**
    An absent bound, and a supplied one that strips to nothing (such as
    "Z"), falls back to the clock without being re-tagged.
   */
  lemma MissingBoundsDefault(dr: DateRange, clock: Clock, lib: DateLibrary)
    requires dr.start.None? || StripOffsets(dr.start.value) == ""
    requires dr.end.None? || StripOffsets(dr.end.value) == ""
    ensures ResolveWindow(dr, clock, lib) == Window(At(clock.startOfToday), At(clock.endOfToday))
  {
  }

  /** A marker-free literal is parsed as written and then re-tagged. */
  lemma MarkerFreeBoundRetagged(s: string, fallback: int, lib: DateLibrary)
    requires s != "" && NoMarkers(s)
    ensures ResolveBound(Some(s), fallback, lib) == lib.retagLocal(lib.parseIso(s))
  {
    StripUnchangedIff(s);
  }

  /**
    A trailing `Z` or `GMT-N` does not change the bound: the literal is read
    as local wall-clock time whatever offset it names.
   */
  lemma TrailingOffsetIgnored(s: string, d: string, fallback: int, lib: DateLibrary)
    requires |d| > 0 && AllDigits(d)
    ensures ResolveBound(Some(s + "Z"), fallback, lib) == ResolveBound(Some(s), fallback, lib)
    ensures ResolveBound(Some(s + "GMT-" + d), fallback, lib) == ResolveBound(Some(s), fallback, lib)
  {
    TrailingZStripped(s);
    TrailingGmtMinusStripped(s, d);
  }

  /** The query sent to the server. */
  function BuildQuery(params: InputGetEmails, clock: Clock, lib: DateLibrary): (q: SearchQuery)
    ensures q.mailbox != ""
    ensures q.subject == params.subject
    ensures q.or.None? <==> params.senders.None? || |params.senders.value| == 0
    ensures q.or.Some? ==> q.or.value == FromClauses(params.senders.value)
    ensures q.since == ResolveWindow(params.dateRange, clock, lib).since
    ensures q.before == ResolveWindow(params.dateRange, clock, lib).before
  {
    var w := ResolveWindow(params.dateRange, clock, lib);
    SearchQuery(OpenedMailbox(params), params.subject, w.since, w.before, SenderClauses(params.senders))
  }

  /**
    `emailDate >= sinceDate && emailDate < beforeDate`: a half-open window.
    Comparisons with an invalid bound are false, as comparisons with NaN are.
   */
  predicate InWindow(t: int, w: Window) {
    w.since.At? && w.before.At? && w.since.ms <= t < w.before.ms
  }

  /** A message without an envelope date is kept; a dated one is kept when it falls in the window. */
  predicate Keeps(w: Window, c: Candidate) {
    DateOf(c).None? || InWindow(DateOf(c).value, w)
  }

  /** The client-side time filter, keeping the search order. */
  function FilterByWindow(cs: seq<Candidate>, w: Window): (r: seq<Candidate>)
    ensures IsSubsequence(r, cs)
    ensures forall c :: c in r ==> c in cs && Keeps(w, c)
    ensures forall c :: c in cs && Keeps(w, c) ==> c in r
  {
    if |cs| == 0 then []
    else
      var rest := FilterByWindow(cs[1..], w);
      assert forall c :: c in cs ==> c == cs[0] || c in cs[1..];
      if Keeps(w, cs[0]) then [cs[0]] + rest else rest
  }

  /** Filtering is a pure selection: a second pass changes nothing. */
  lemma {:induction false} FilterIdempotent(cs: seq<Candidate>, w: Window)
    ensures FilterByWindow(FilterByWindow(cs, w), w) == FilterByWindow(cs, w)
  {
    if |cs| > 0 {
      FilterIdempotent(cs[1..], w);
      var rest := FilterByWindow(cs[1..], w);
      if Keeps(w, cs[0]) {
        assert ([cs[0]] + rest)[1..] == rest;
      }
    }
  }

  lemma {:induction false} FilterAppend(a: seq<Candidate>, b: seq<Candidate>, w: Window)
    ensures FilterByWindow(a + b, w) == FilterByWindow(a, w) + FilterByWindow(b, w)
  {
    if |a| == 0 {
      assert a + b == b;
    } else {
      assert (a + b)[0] == a[0] && (a + b)[1..] == a[1..] + b;
      FilterAppend(a[1..], b, w);
    }
  }

  /**
    The window's bounds: a message dated exactly `since` is kept, one dated
    exactly `before` is dropped.
   */
  lemma WindowBoundaries(w: Window, c: Candidate)
    requires w.since.At? && w.before.At? && w.since.ms < w.before.ms
    ensures DateOf(c) == Some(w.since.ms) ==> FilterByWindow([c], w) == [c]
    ensures DateOf(c) == Some(w.before.ms) ==> FilterByWindow([c], w) == []
  {
    assert [c][1..] == [];
  }

  /** An invalid bound (a literal the date library cannot read) drops every dated message and keeps every undated one. */
  lemma InvalidBoundKeepsOnlyUndated(cs: seq<Candidate>, w: Window)
    requires w.since.Invalid? || w.before.Invalid?
    ensures forall c :: c in FilterByWindow(cs, w) <==> c in cs && DateOf(c).None?
  {
  }

  /** A supplied literal that survives cleaning but that the date library cannot read. */
  predicate Unreadable(field: Option<string>, lib: DateLibrary) {
    field.Some? && StripOffsets(field.value) != "" && lib.parseIso(StripOffsets(field.value)) == Invalid
  }

  /** An unreadable literal gives an invalid bound, not the clock's default. */
  lemma UnreadableBoundInvalid(field: Option<string>, fallback: int, lib: DateLibrary)
    requires KeepsInvalid(lib) && Unreadable(field, lib)
    ensures ResolveBound(field, fallback, lib) == Invalid
  {
  }

  /**
    An unreadable start or end literal is not an error on the client side:
    the search succeeds as the server answers, and the client reports exactly
    the searched, fetched messages that carry no date.
   */
  lemma UnreadableLiteralKeepsOnlyUndated(params: InputGetEmails, clock: Clock, lib: DateLibrary, conn: Connector)
    requires KeepsInvalid(lib)
    requires Unreadable(params.dateRange.start, lib) || Unreadable(params.dateRange.end, lib)
    requires FetchEmails(params, clock, lib, conn).error.None?
    ensures forall u: Uid ::
      (u in IdsOf(FetchEmails(params, clock, lib, conn).emails.value)
       <==> u in conn.search.uids && Fetched(u, conn.fetch) && DateOf(Candidate(u, conn.fetch[u].envelope)).None?)
  {
    var dr := params.dateRange;
    if Unreadable(dr.start, lib) {
      UnreadableBoundInvalid(dr.start, clock.startOfToday, lib);
    } else {
      UnreadableBoundInvalid(dr.end, clock.endOfToday, lib);
    }
    FetchEmailsReports(params, clock, lib, conn);
  }

  /**
    Date-only literals are not padded to a whole day: equal start and end
    literals give `since == before`, an empty window, so only undated
    messages survive the filter.
   */
  lemma EqualBoundsKeepOnlyUndated(cs: seq<Candidate>, s: string, clock: Clock, lib: DateLibrary)
    requires StripOffsets(s) != ""
    ensures var w := ResolveWindow(DateRange(Some(s), Some(s)), clock, lib);
      forall c :: c in FilterByWindow(cs, w) <==> c in cs && DateOf(c).None?
  {
  }

  /**
    The fetch loop: candidates fetched in search order, filtered by the
    window and projected; `None` when a fetch throws.
   */
  function Collected(uids: seq<Uid>, fetch: map<Uid, FetchReply>, w: Window, formatIso: int -> string): (r: Option<seq<EmailRecord>>)
    ensures r.None? <==> SomeFetchThrows(uids, fetch)
    ensures r.Some? ==> |r.value| <= |uids|
  {
    match Candidates(uids, fetch)
    case None => None
    case Some(cs) =>
      SubsequenceLength(FilterByWindow(cs, w), cs);
      Some(ProjectAll(FilterByWindow(cs, w), formatIso))
  }

  /**
    `fetchEmails`: a failure to connect or search, or a throwing fetch, gives
    the generic failure; a falsy search result gives "No emails found"; an
    empty UID list is truthy and gives an empty list without error. The
    query `BuildQuery` describes goes to the server, whose replies are `conn`.
   */
  function FetchEmails(params: InputGetEmails, clock: Clock, lib: DateLibrary, conn: Connector): (r: OutputGetEmails)
    ensures WellShaped(r)
    ensures r.error.Some? ==> r.error.value == FetchFailed || r.error.value == NoEmailsFound
    ensures r.error == Some(NoEmailsFound) <==> conn.opens && conn.search.Falsy?
    ensures r.error.None? <==> conn.opens && conn.search.Uids? && !SomeFetchThrows(conn.search.uids, conn.fetch)
    ensures r.error.None? ==> |r.emails.value| <= |conn.search.uids|
  {
    if !conn.opens then OutputGetEmails(Some([]), Some(FetchFailed))
    else
      match conn.search
      case SearchThrew => OutputGetEmails(Some([]), Some(FetchFailed))
      case Falsy => OutputGetEmails(Some([]), Some(NoEmailsFound))
      case Uids(uids) =>
        match Collected(uids, conn.fetch, ResolveWindow(params.dateRange, clock, lib), lib.formatIso)
        case None => OutputGetEmails(Some([]), Some(FetchFailed))
        case Some(es) => OutputGetEmails(Some(es), None)
  }

  /** The UID was fetched and its message passes the window. */
  predicate Reported(u: Uid, fetch: map<Uid, FetchReply>, w: Window) {
    Fetched(u, fetch) && Keeps(w, Candidate(u, fetch[u].envelope))
  }

  /** One step of the fetch loop: the first UID contributes its id exactly when it is reported. */
  lemma CollectedStep(uids: seq<Uid>, fetch: map<Uid, FetchReply>, w: Window, formatIso: int -> string)
    requires |uids| > 0 && !SomeFetchThrows(uids, fetch)
    ensures !SomeFetchThrows(uids[1..], fetch)
    ensures IdsOf(Collected(uids, fetch, w, formatIso).value)
         == (if Reported(uids[0], fetch, w) then [uids[0] as int] else [])
            + IdsOf(Collected(uids[1..], fetch, w, formatIso).value)
  {
    CandidatesHead(uids, fetch);
    var head := OneCandidate(uids[0], fetch);
    var rest := Candidates(uids[1..], fetch).value;
    ShapedAppend(head, rest, w, formatIso);
    OneRecord(uids[0], fetch, w, formatIso);
    IdsOfConcat(ProjectAll(FilterByWindow(head, w), formatIso), ProjectAll(FilterByWindow(rest, w), formatIso));
  }

  /** Filtering and projecting a concatenation works on each part separately. */
  lemma ShapedAppend(a: seq<Candidate>, b: seq<Candidate>, w: Window, formatIso: int -> string)
    ensures ProjectAll(FilterByWindow(a + b, w), formatIso)
         == ProjectAll(FilterByWindow(a, w), formatIso) + ProjectAll(FilterByWindow(b, w), formatIso)
  {
    FilterAppend(a, b, w);
    ProjectAllAppend(FilterByWindow(a, w), FilterByWindow(b, w), formatIso);
  }

  /** What fetching one UID contributes to the candidates: its message, if one came back. */
  function OneCandidate(u: Uid, fetch: map<Uid, FetchReply>): (r: seq<Candidate>)
    ensures |r| <= 1
    ensures |r| == 1 <==> Fetched(u, fetch)
    ensures |r| == 1 ==> r[0] == Candidate(u, fetch[u].envelope)
  {
    if Fetched(u, fetch) then [Candidate(u, fetch[u].envelope)] else []
  }

  /** The candidates of a non-empty UID list: the first UID's message, if fetched, before the rest. */
  lemma CandidatesHead(uids: seq<Uid>, fetch: map<Uid, FetchReply>)
    requires |uids| > 0 && !SomeFetchThrows(uids, fetch)
    ensures !SomeFetchThrows(uids[1..], fetch)
    ensures Candidates(uids, fetch).value == OneCandidate(uids[0], fetch) + Candidates(uids[1..], fetch).value
  {
    NoThrowInTail(uids, fetch);
    if !Fetched(uids[0], fetch) {
      assert [] + Candidates(uids[1..], fetch).value == Candidates(uids[1..], fetch).value;
    }
  }

  /** The record one UID contributes: its projection, exactly when it is reported. */
  lemma OneRecord(u: Uid, fetch: map<Uid, FetchReply>, w: Window, formatIso: int -> string)
    ensures ProjectAll(FilterByWindow(OneCandidate(u, fetch), w), formatIso)
         == (if Reported(u, fetch, w) then [Project(Candidate(u, fetch[u].envelope), formatIso)] else [])
    ensures IdsOf(ProjectAll(FilterByWindow(OneCandidate(u, fetch), w), formatIso))
         == (if Reported(u, fetch, w) then [u as int] else [])
  {
    if Fetched(u, fetch) {
      assert [Candidate(u, fetch[u].envelope)][1..] == [];
    }
  }

  /** The reported ids are searched UIDs, in search order (a subsequence of the search result). */
  lemma {:induction false} CollectedFollowsSearchOrder(uids: seq<Uid>, fetch: map<Uid, FetchReply>, w: Window, formatIso: int -> string)
    requires !SomeFetchThrows(uids, fetch)
    ensures IsSubsequence(IdsOf(Collected(uids, fetch, w, formatIso).value), uids)
  {
    if |uids| > 0 {
      CollectedStep(uids, fetch, w, formatIso);
      CollectedFollowsSearchOrder(uids[1..], fetch, w, formatIso);
      var tail := IdsOf(Collected(uids[1..], fetch, w, formatIso).value);
      var ids := IdsOf(Collected(uids, fetch, w, formatIso).value);
      if Reported(uids[0], fetch, w) {
        assert ids[0] == uids[0] && ids[1..] == tail;
      } else {
        assert ids == tail;
      }
    }
  }

  /**
    A UID is reported exactly when it was searched, its fetch returned a
    message and that message passes the window: undated messages are always
    reported, missing ones never.
   */
  lemma {:induction false} CollectedExactly(uids: seq<Uid>, fetch: map<Uid, FetchReply>, w: Window, formatIso: int -> string)
    requires !SomeFetchThrows(uids, fetch)
    ensures forall u: Uid ::
      (u in IdsOf(Collected(uids, fetch, w, formatIso).value) <==> u in uids && Reported(u, fetch, w))
  {
    if |uids| > 0 {
      CollectedStep(uids, fetch, w, formatIso);
      CollectedExactly(uids[1..], fetch, w, formatIso);
      var tail := IdsOf(Collected(uids[1..], fetch, w, formatIso).value);
      var ids := IdsOf(Collected(uids, fetch, w, formatIso).value);
      assert uids == [uids[0]] + uids[1..];
      forall u: Uid ensures u in ids <==> u in uids && Reported(u, fetch, w) {
        assert u in uids <==> u == uids[0] || u in uids[1..];
      }
    }
  }

  /**
    On success `fetchEmails` reports searched UIDs in search order, and
    exactly those whose fetch returned a message that passes the window.
   */
  lemma FetchEmailsReports(params: InputGetEmails, clock: Clock, lib: DateLibrary, conn: Connector)
    requires FetchEmails(params, clock, lib, conn).error.None?
    ensures var ids := IdsOf(FetchEmails(params, clock, lib, conn).emails.value);
      && IsSubsequence(ids, conn.search.uids)
      && forall u: Uid ::
           (u in ids <==> (u in conn.search.uids && Reported(u, conn.fetch, ResolveWindow(params.dateRange, clock, lib))))
  {
    var w := ResolveWindow(params.dateRange, clock, lib);
    CollectedFollowsSearchOrder(conn.search.uids, conn.fetch, w, lib.formatIso);
    CollectedExactly(conn.search.uids, conn.fetch, w, lib.formatIso);
  }

  lemma {:induction false} CandidatesSnoc(us: seq<Uid>, u: Uid, fetch: map<Uid, FetchReply>)
    requires !SomeFetchThrows(us, fetch)
    requires !(u in fetch && fetch[u].FetchThrew?)
    ensures !SomeFetchThrows(us + [u], fetch)
    ensures Candidates(us + [u], fetch).value == Candidates(us, fetch).value + OneCandidate(u, fetch)
  {
    if |us| == 0 {
      assert us + [u] == [u];
      assert [u][1..] == [];
    } else {
      assert (us + [u])[0] == us[0] && (us + [u])[1..] == us[1..] + [u];
      NoThrowInTail(us, fetch);
      CandidatesSnoc(us[1..], u, fetch);
    }
  }

  lemma NoThrowInTail(uids: seq<Uid>, fetch: map<Uid, FetchReply>)
    requires |uids| > 0 && !SomeFetchThrows(uids, fetch)
    ensures !SomeFetchThrows(uids[1..], fetch)
  {
    forall i | 0 <= i < |uids[1..]| ensures !(uids[1..][i] in fetch && fetch[uids[1..][i]].FetchThrew?) {
      assert uids[1..][i] == uids[i + 1];
    }
  }

  lemma ThrowingFetchFound(uids: seq<Uid>, i: nat, fetch: map<Uid, FetchReply>)
    requires i < |uids| && uids[i] in fetch && fetch[uids[i]].FetchThrew?
    ensures SomeFetchThrows(uids, fetch)
  {
  }

  /**
    The loop of `fetchEmails` as the program runs it: fetch each UID in
    turn, skip what comes back empty, drop dated messages outside the window,
    project the rest; a throwing fetch abandons the loop.
   */
  method CollectEmails(uids: seq<Uid>, fetch: map<Uid, FetchReply>, w: Window, formatIso: int -> string)
    returns (ok: bool, emails: seq<EmailRecord>)
    ensures ok <==> !SomeFetchThrows(uids, fetch)
    ensures ok ==> Some(emails) == Collected(uids, fetch, w, formatIso)
    ensures !ok ==> emails == []
  {
    emails := [];
    var i := 0;
    while i < |uids|
      invariant 0 <= i <= |uids|
      invariant Some(emails) == Collected(uids[..i], fetch, w, formatIso)
    {
      var u := uids[i];
      if u in fetch && fetch[u].FetchThrew? {
        ThrowingFetchFound(uids, i, fetch);
        return false, [];
      }
      var step: seq<EmailRecord> := [];
      if u in fetch {
        var env := fetch[u].envelope;
        var keep := true;
        if env.Some? && env.value.date.Some? {
          keep := InWindow(env.value.date.value, w);
        }
        assert keep <==> Keeps(w, Candidate(u, env));
        if keep {
          step := [Project(Candidate(u, env), formatIso)];
        }
      }
      assert step == StepRecords(u, fetch, w, formatIso);
      CollectedPrefixStep(uids, i, fetch, w, formatIso);
      emails := emails + step;
      i := i + 1;
    }
    assert uids[..i] == uids;
    ok := true;
  }

  /** The record one UID adds to the result: its projection, when it is reported. */
  function StepRecords(u: Uid, fetch: map<Uid, FetchReply>, w: Window, formatIso: int -> string): (r: seq<EmailRecord>)
    ensures |r| <= 1
    ensures |r| == 1 <==> Reported(u, fetch, w)
    ensures |r| == 1 ==> r[0].id == u as int
  {
    if Reported(u, fetch, w) then [Project(Candidate(u, fetch[u].envelope), formatIso)] else []
  }

  /** Extending a throw-free prefix of the UIDs by one appends that UID's record, if any. */
  lemma CollectedPrefixStep(uids: seq<Uid>, i: nat, fetch: map<Uid, FetchReply>, w: Window, formatIso: int -> string)
    requires i < |uids|
    requires !SomeFetchThrows(uids[..i], fetch)
    requires !(uids[i] in fetch && fetch[uids[i]].FetchThrew?)
    ensures !SomeFetchThrows(uids[..i + 1], fetch)
    ensures Collected(uids[..i + 1], fetch, w, formatIso).value
         == Collected(uids[..i], fetch, w, formatIso).value + StepRecords(uids[i], fetch, w, formatIso)
  {
    assert uids[..i + 1] == uids[..i] + [uids[i]];
    CollectedSnoc(uids[..i], uids[i], fetch, w, formatIso);
  }

  /** One more UID at the end of the loop appends its record exactly when it is fetched and passes the window. */
  lemma CollectedSnoc(us: seq<Uid>, u: Uid, fetch: map<Uid, FetchReply>, w: Window, formatIso: int -> string)
    requires !SomeFetchThrows(us, fetch)
    requires !(u in fetch && fetch[u].FetchThrew?)
    ensures !SomeFetchThrows(us + [u], fetch)
    ensures ProjectAll(FilterByWindow(Candidates(us + [u], fetch).value, w), formatIso)
         == ProjectAll(FilterByWindow(Candidates(us, fetch).value, w), formatIso)
            + (if Reported(u, fetch, w) then [Project(Candidate(u, fetch[u].envelope), formatIso)] else [])
  {
    CandidatesSnoc(us, u, fetch);
    ShapedAppend(Candidates(us, fetch).value, OneCandidate(u, fetch), w, formatIso);
    OneRecord(u, fetch, w, formatIso);
  }

  /** What `markEmailsAsRead` returns: nothing on success, a failure record when the session throws. */
  datatype MarkReply = Marked | MarkFailed(error: string)

  const MarkFailedPrefix := "Failed to mark emails as read: "

  /**
    `markEmailsAsRead`: connecting, opening INBOX and adding `\Seen` to the
    ids run as one session; any exception there becomes a failure record
    carrying its message.
   */
  function MarkEmailsAsRead(params: InputMarkEmailsAsRead, session: Outcome<Thrown>): (r: MarkReply)
    ensures r.Marked? <==> session.Pass?
    ensures r.MarkFailed? ==> r.error == MarkFailedPrefix + ErrorMessage(session.error)
  {
    match session
    case Pass => Marked
    case Fail(t) => MarkFailed(MarkFailedPrefix + ErrorMessage(t))
  }
}
