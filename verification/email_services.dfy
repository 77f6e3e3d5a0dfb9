/**
  The tool layer: the two handlers that wrap the client, prompt templating,
  and how each tool callback shapes its result.
 */
module EmailServices {
  import opened Wrappers
  import opened JsText
  import opened Time
  import opened Imap
  import opened EmailTypes
  import EmailClient

  const Placeholder := "{{emails}}"
  const FetchFailedPrefix := "Failed to fetch emails: "
  const MarkedMessage := "Emails marked as read successfully."

  /** The request headers the callbacks read. */
  datatype Headers = Headers(
    port: Option<string>,
    username: Option<string>,
    password: Option<string>,
    clientType: Option<string>,
    prompt: Option<string>)

  /** The credentials record both callbacks build from the headers, unvalidated. */
  function AuthFromHeaders(h: Headers): (a: AuthEmail)
    ensures a.email == h.username && a.password == h.password
    ensures a.clientType == h.clientType && a.port == h.port
  {
    AuthEmail(h.username, h.password, h.clientType, h.port)
  }

  /**
    `fetchEmailsHandler`: a constructor failure becomes an empty list with
    the error "Failed to fetch emails: <message>"; otherwise the client's
    result is passed on.
   */
  function FetchEmailsHandler(
    params: InputGetEmails, auth: AuthEmail, env: EmailClient.Env, parseInt10: string -> int,
    clock: Clock, lib: DateLibrary, conn: Connector): (r: OutputGetEmails)
    ensures WellShaped(r)
    ensures EmailClient.Construct(auth, env, parseInt10).Failure? ==>
      r.error == Some(FetchFailedPrefix + ("Fail INIT " + EmailClient.UnsupportedClientType))
    ensures EmailClient.Construct(auth, env, parseInt10).Success? ==>
      r == EmailClient.FetchEmails(params, clock, lib, conn)
  {
    match EmailClient.Construct(auth, env, parseInt10)
    case Failure(m) => OutputGetEmails(Some([]), Some(FetchFailedPrefix + m))
    case Success(_) => EmailClient.FetchEmails(params, clock, lib, conn)
  }

  /**
    `parseResponsePrompt` as intended: without e-mails the fixed message;
    otherwise the first "{{emails}}" of the prompt (or of the default prompt
    when the prompt is falsy) is replaced by the serialised list.
    `stringify` stands for `JSON.stringify`.
   */
  function ParseResponsePrompt(
    response: OutputGetEmails, prompt: Option<string>, defaultPrompt: string,
    stringify: seq<EmailRecord> -> string): (r: string)
    ensures NoEmails(response) ==> r == NoEmailsFound
  {
    if NoEmails(response) then NoEmailsFound
    else ReplaceFirst(Or(prompt, Some(defaultPrompt)).value, Placeholder, stringify(response.emails.value))
  }

  /** `parseResponsePrompt` as written: `replace` also expands `$` patterns found in the serialised list. */
  function ParseResponsePromptAsWritten(
    response: OutputGetEmails, prompt: Option<string>, defaultPrompt: string,
    stringify: seq<EmailRecord> -> string): (r: string)
    ensures NoEmails(response) ==> r == NoEmailsFound
  {
    if NoEmails(response) then NoEmailsFound
    else ReplaceFirstExpanding(Or(prompt, Some(defaultPrompt)).value, Placeholder, stringify(response.emails.value))
  }

  /** Only the first placeholder is replaced, by the serialised list exactly as it is. */
  lemma FirstPlaceholderReplaced(
    response: OutputGetEmails, a: string, b: string, defaultPrompt: string,
    stringify: seq<EmailRecord> -> string)
    requires !NoEmails(response)
    requires forall j: nat :: j < |a| ==> !OccursAt(a + Placeholder + b, Placeholder, j)
    ensures ParseResponsePrompt(response, Some(a + Placeholder + b), defaultPrompt, stringify)
         == a + stringify(response.emails.value) + b
  {
    ReplaceFirstSplits(a, Placeholder, b, stringify(response.emails.value));
  }

  /** A truthy template without the placeholder is returned unchanged. */
  lemma TemplateWithoutPlaceholder(
    response: OutputGetEmails, prompt: string, defaultPrompt: string,
    stringify: seq<EmailRecord> -> string)
    requires !NoEmails(response)
    requires prompt != "" && !Contains(prompt, Placeholder)
    ensures ParseResponsePrompt(response, Some(prompt), defaultPrompt, stringify) == prompt
    ensures ParseResponsePromptAsWritten(response, Some(prompt), defaultPrompt, stringify) == prompt
  {
    ReplaceFirstAbsent(prompt, Placeholder, stringify(response.emails.value));
  }

  /** A falsy prompt behaves as the default prompt. */
  lemma FalsyPromptUsesDefault(
    response: OutputGetEmails, prompt: Option<string>, defaultPrompt: string,
    stringify: seq<EmailRecord> -> string)
    requires !Truthy(prompt)
    ensures ParseResponsePrompt(response, prompt, defaultPrompt, stringify)
         == ParseResponsePrompt(response, Some(defaultPrompt), defaultPrompt, stringify)
  {
  }

  /** The written and the intended templating agree whenever the serialised list holds no `$`. */
  lemma TemplatingAgreesWithoutDollar(
    response: OutputGetEmails, prompt: Option<string>, defaultPrompt: string,
    stringify: seq<EmailRecord> -> string)
    requires !NoEmails(response) ==> '$' !in stringify(response.emails.value)
    ensures ParseResponsePromptAsWritten(response, prompt, defaultPrompt, stringify)
         == ParseResponsePrompt(response, prompt, defaultPrompt, stringify)
  {
    if !NoEmails(response) {
      ExpandingAgreesWithoutDollar(Or(prompt, Some(defaultPrompt)).value, Placeholder, stringify(response.emails.value));
    }
  }

  /**
    A `$&` inside the serialised list (a subject such as "Pay $& now")
    makes the written templating insert the placeholder itself in its place,
    where the intended templating keeps the text.
   */
  lemma DollarAmpersandCorruptsText(
    response: OutputGetEmails, x: string, y: string, defaultPrompt: string,
    stringify: seq<EmailRecord> -> string)
    requires !NoEmails(response)
    requires stringify(response.emails.value) == x + "$&" + y
    requires '$' !in x && '$' !in y
    ensures ParseResponsePromptAsWritten(response, Some(Placeholder), defaultPrompt, stringify) == x + Placeholder + y
    ensures ParseResponsePrompt(response, Some(Placeholder), defaultPrompt, stringify) == x + "$&" + y
  {
    var json := x + "$&" + y;
    assert Placeholder == "" + Placeholder + "";
    ReplaceFirstSplits("", Placeholder, "", json);
    assert Placeholder[..0] == "" && Placeholder[|Placeholder|..] == "";
    assert json == x + ("$&" + y);
    ExpandPlainPrefix(x, "$&" + y, Placeholder, "", "");
    assert ("$&" + y)[2..] == y;
    ExpandWithoutDollar(y, Placeholder, "", "");
  }

  /**
    The prompt choice as written: `String(header) || EMAIL_PROMPT ||
    FETCH_EMAILS_PROMPT`. A missing header becomes the word "undefined", so
    the environment and the default are reached only for an empty header.
   */
  function SelectPromptAsWritten(header: Option<string>, envPrompt: Option<string>, defaultPrompt: string): (r: string)
    ensures header.None? ==> r == "undefined"
    ensures header != Some("") ==> r == StringOf(header)
    ensures header == Some("") ==> r == Or(envPrompt, Some(defaultPrompt)).value
  {
    if StringOf(header) != "" then StringOf(header)
    else if Truthy(envPrompt) then envPrompt.value
    else defaultPrompt
  }

  /** The prompt choice as intended: header, else environment, else the default prompt. */
  function SelectPrompt(header: Option<string>, envPrompt: Option<string>, defaultPrompt: string): (r: string)
    ensures Truthy(header) ==> r == header.value
    ensures !Truthy(header) && Truthy(envPrompt) ==> r == envPrompt.value
    ensures !Truthy(header) && !Truthy(envPrompt) ==> r == defaultPrompt
  {
    if Truthy(header) then header.value
    else if Truthy(envPrompt) then envPrompt.value
    else defaultPrompt
  }

  /** The two choices differ only for a missing header, where the written one yields "undefined". */
  lemma PromptChoicesCompared(header: Option<string>, envPrompt: Option<string>, defaultPrompt: string)
    ensures header.Some? ==> SelectPromptAsWritten(header, envPrompt, defaultPrompt) == SelectPrompt(header, envPrompt, defaultPrompt)
    ensures header.None? ==> SelectPrompt(header, envPrompt, defaultPrompt) == Or(envPrompt, Some(defaultPrompt)).value
  {
  }

  /**
    Without the prompt header the written code renders the template
    "undefined": the tool text is the word "undefined" and the e-mails never
    reach it.
   */
  lemma MissingHeaderHidesEmails(
    response: OutputGetEmails, envPrompt: Option<string>, defaultPrompt: string,
    stringify: seq<EmailRecord> -> string)
    requires !NoEmails(response)
    ensures ParseResponsePromptAsWritten(
              response, Some(SelectPromptAsWritten(None, envPrompt, defaultPrompt)), defaultPrompt, stringify)
         == "undefined"
  {
    assert !Contains("undefined", Placeholder);
    ReplaceFirstAbsent("undefined", Placeholder, stringify(response.emails.value));
  }

  /** What a tool callback returns: the text content, the structured content and the error flag. */
  datatype ToolResult<S> = ToolResult(text: string, structured: S, isError: bool)

  /**
    The search tool's result as written: an error response is an error
    whose text is the error; an empty one is a plain "No emails found" text;
    otherwise the text is the prompt chosen by `String(header) || ...`,
    templated with `replace`. The structured content is always the response.
   */
  function SearchToolResultAsWritten(
    response: OutputGetEmails, header: Option<string>, envPrompt: Option<string>,
    defaultPrompt: string, stringify: seq<EmailRecord> -> string): (r: ToolResult<OutputGetEmails>)
    ensures r.structured == response
    ensures r.isError <==> Truthy(response.error)
    ensures r.isError ==> r.text == response.error.value
    ensures !r.isError && NoEmails(response) ==> r.text == NoEmailsFound
  {
    if Truthy(response.error) then ToolResult(response.error.value, response, true)
    else if NoEmails(response) then ToolResult(NoEmailsFound, response, false)
    else
      var prompt := SelectPromptAsWritten(header, envPrompt, defaultPrompt);
      ToolResult(ParseResponsePromptAsWritten(response, Some(prompt), defaultPrompt, stringify), response, false)
  }

  /**
    As written, a successful non-empty search without the prompt header
    answers with the word "undefined" and no e-mails.
   */
  lemma SearchToolMissingHeaderAsWritten(
    response: OutputGetEmails, envPrompt: Option<string>, defaultPrompt: string,
    stringify: seq<EmailRecord> -> string)
    requires !Truthy(response.error) && !NoEmails(response)
    ensures SearchToolResultAsWritten(response, None, envPrompt, defaultPrompt, stringify).text == "undefined"
    ensures !SearchToolResultAsWritten(response, None, envPrompt, defaultPrompt, stringify).isError
  {
    MissingHeaderHidesEmails(response, envPrompt, defaultPrompt, stringify);
  }

  /**
    As written, with the header "{{emails}}" and a `$&` in the serialised
    list, the tool text shows "{{emails}}" where the `$&` was.
   */
  lemma SearchToolDollarAsWritten(
    response: OutputGetEmails, x: string, y: string, envPrompt: Option<string>,
    defaultPrompt: string, stringify: seq<EmailRecord> -> string)
    requires !Truthy(response.error) && !NoEmails(response)
    requires stringify(response.emails.value) == x + "$&" + y
    requires '$' !in x && '$' !in y
    ensures SearchToolResultAsWritten(response, Some(Placeholder), envPrompt, defaultPrompt, stringify).text
         == x + Placeholder + y
  {
    DollarAmpersandCorruptsText(response, x, y, defaultPrompt, stringify);
  }

  /**
    The written and the corrected search tools agree whenever the prompt
    header is present and the serialised list holds no `$`.
   */
  lemma SearchToolsAgree(
    response: OutputGetEmails, header: Option<string>, envPrompt: Option<string>,
    defaultPrompt: string, stringify: seq<EmailRecord> -> string)
    requires header.Some?
    requires !NoEmails(response) ==> '$' !in stringify(response.emails.value)
    ensures SearchToolResultAsWritten(response, header, envPrompt, defaultPrompt, stringify)
         == SearchToolResult(response, header, envPrompt, defaultPrompt, stringify)
  {
    PromptChoicesCompared(header, envPrompt, defaultPrompt);
    var prompt := SelectPrompt(header, envPrompt, defaultPrompt);
    TemplatingAgreesWithoutDollar(response, Some(prompt), defaultPrompt, stringify);
  }

  /**
    The search tool's result as intended: as the written one, but the prompt
    is chosen by `SelectPrompt` and the list is inserted verbatim.
   */
  function SearchToolResult(
    response: OutputGetEmails, header: Option<string>, envPrompt: Option<string>,
    defaultPrompt: string, stringify: seq<EmailRecord> -> string): (r: ToolResult<OutputGetEmails>)
    ensures r.structured == response
    ensures r.isError <==> Truthy(response.error)
    ensures r.isError ==> r.text == response.error.value
    ensures !r.isError && NoEmails(response) ==> r.text == NoEmailsFound
  {
    if Truthy(response.error) then ToolResult(response.error.value, response, true)
    else if NoEmails(response) then ToolResult(NoEmailsFound, response, false)
    else
      var prompt := SelectPrompt(header, envPrompt, defaultPrompt);
      ToolResult(ParseResponsePrompt(response, Some(prompt), defaultPrompt, stringify), response, false)
  }

  /**
    Corrected tool: with a header template, a successful non-empty search
    shows the serialised list where the placeholder was.
   */
  lemma SearchToolShowsEmails(
    response: OutputGetEmails, a: string, b: string, envPrompt: Option<string>,
    defaultPrompt: string, stringify: seq<EmailRecord> -> string)
    requires !Truthy(response.error) && !NoEmails(response)
    requires forall j: nat :: j < |a| ==> !OccursAt(a + Placeholder + b, Placeholder, j)
    ensures SearchToolResult(response, Some(a + Placeholder + b), envPrompt, defaultPrompt, stringify).text
         == a + stringify(response.emails.value) + b
  {
    FirstPlaceholderReplaced(response, a, b, defaultPrompt, stringify);
  }

  /** As written, the same holds when the serialised list holds no `$`. */
  lemma SearchToolShowsEmailsAsWritten(
    response: OutputGetEmails, a: string, b: string, envPrompt: Option<string>,
    defaultPrompt: string, stringify: seq<EmailRecord> -> string)
    requires !Truthy(response.error) && !NoEmails(response)
    requires forall j: nat :: j < |a| ==> !OccursAt(a + Placeholder + b, Placeholder, j)
    requires '$' !in stringify(response.emails.value)
    ensures SearchToolResultAsWritten(response, Some(a + Placeholder + b), envPrompt, defaultPrompt, stringify).text
         == a + stringify(response.emails.value) + b
  {
    SearchToolsAgree(response, Some(a + Placeholder + b), envPrompt, defaultPrompt, stringify);
    SearchToolShowsEmails(response, a, b, envPrompt, defaultPrompt, stringify);
  }

  /**
    End to end: an unsupported client type (from the environment, or from
    the header when the environment names none) gives an error result.
   */
  lemma UnsupportedClientTypeIsToolError(
    params: InputGetEmails, h: Headers, env: EmailClient.Env, parseInt10: string -> int,
    clock: Clock, lib: DateLibrary, conn: Connector, defaultPrompt: string,
    stringify: seq<EmailRecord> -> string)
    requires var ct := Or(env.clientType, h.clientType); ct.None? || ParseClientType(ct.value).None?
    ensures var r := SearchToolResultAsWritten(
              FetchEmailsHandler(params, AuthFromHeaders(h), env, parseInt10, clock, lib, conn),
              h.prompt, env.prompt, defaultPrompt, stringify);
      r.isError && r.text == FetchFailedPrefix + ("Fail INIT " + EmailClient.UnsupportedClientType)
    ensures var r := SearchToolResult(
              FetchEmailsHandler(params, AuthFromHeaders(h), env, parseInt10, clock, lib, conn),
              h.prompt, env.prompt, defaultPrompt, stringify);
      r.isError && r.text == FetchFailedPrefix + ("Fail INIT " + EmailClient.UnsupportedClientType)
  {
  }

  /**
    `markEmailsAsReadHandler` as written: a constructor failure is reported,
    but the client's own failure record is discarded, so the result is a
    success whenever construction succeeds.
   */
  function MarkEmailsAsReadHandlerAsWritten(
    params: InputMarkEmailsAsRead, auth: AuthEmail, env: EmailClient.Env,
    parseInt10: string -> int, session: Outcome<Thrown>): (r: OutputMarkEmailsAsRead)
    ensures r.success <==> EmailClient.Construct(auth, env, parseInt10).Success?
    ensures r.success ==> r.error.None?
    ensures !r.success ==>
      r.error == Some(EmailClient.MarkFailedPrefix + ("Fail INIT " + EmailClient.UnsupportedClientType))
  {
    match EmailClient.Construct(auth, env, parseInt10)
    case Failure(m) => OutputMarkEmailsAsRead(false, Some(EmailClient.MarkFailedPrefix + m))
    case Success(_) =>
      var _ := EmailClient.MarkEmailsAsRead(params, session);
      OutputMarkEmailsAsRead(true, None)
  }

  /** `markEmailsAsReadHandler` as intended: the client's failure record is passed on. */
  function MarkEmailsAsReadHandler(
    params: InputMarkEmailsAsRead, auth: AuthEmail, env: EmailClient.Env,
    parseInt10: string -> int, session: Outcome<Thrown>): (r: OutputMarkEmailsAsRead)
    ensures r.success <==> EmailClient.Construct(auth, env, parseInt10).Success? && session.Pass?
    ensures r.success ==> r.error.None?
    ensures !r.success && EmailClient.Construct(auth, env, parseInt10).Success? ==>
      r.error == Some(EmailClient.MarkFailedPrefix + ErrorMessage(session.error))
  {
    match EmailClient.Construct(auth, env, parseInt10)
    case Failure(m) => OutputMarkEmailsAsRead(false, Some(EmailClient.MarkFailedPrefix + m))
    case Success(_) =>
      match EmailClient.MarkEmailsAsRead(params, session)
      case Marked => OutputMarkEmailsAsRead(true, None)
      case MarkFailed(e) => OutputMarkEmailsAsRead(false, Some(e))
  }

  /**
    A flag update that throws (say on the second of three ids) is reported
    as a success by the written handler and as a failure by the intended one.
   */
  lemma FlagFailureReportedAsSuccess(
    params: InputMarkEmailsAsRead, auth: AuthEmail, env: EmailClient.Env,
    parseInt10: string -> int, t: Thrown)
    requires EmailClient.Construct(auth, env, parseInt10).Success?
    ensures MarkEmailsAsReadHandlerAsWritten(params, auth, env, parseInt10, Fail(t)).success
    ensures !MarkEmailsAsReadHandler(params, auth, env, parseInt10, Fail(t)).success
  {
  }

  /** The mark-as-read tool's result: an error exactly when the handler reports no success. */
  function MarkToolResult(result: OutputMarkEmailsAsRead): (r: ToolResult<OutputMarkEmailsAsRead>)
    ensures r.structured == result
    ensures r.isError == !result.success
    ensures result.success ==> r.text == MarkedMessage
    ensures !result.success ==> r.text == EmailClient.MarkFailedPrefix + StringOf(result.error)
  {
    ToolResult(
      if result.success then MarkedMessage else EmailClient.MarkFailedPrefix + StringOf(result.error),
      result,
      !result.success)
  }

  /**
    As written, a flag update that throws is shown as "Emails marked as read
    successfully." and is not an error.
   */
  lemma MarkToolFlagFailureAsWritten(
    params: InputMarkEmailsAsRead, auth: AuthEmail, env: EmailClient.Env,
    parseInt10: string -> int, t: Thrown)
    requires EmailClient.Construct(auth, env, parseInt10).Success?
    ensures MarkToolResult(MarkEmailsAsReadHandlerAsWritten(params, auth, env, parseInt10, Fail(t))).text == MarkedMessage
    ensures !MarkToolResult(MarkEmailsAsReadHandlerAsWritten(params, auth, env, parseInt10, Fail(t))).isError
  {
  }

  /**
    As written, a constructor failure is shown with the prefix twice: the
    handler's error already starts with "Failed to mark emails as read: "
    and the tool prefixes it again.
   */
  lemma MarkToolInitFailureAsWritten(
    params: InputMarkEmailsAsRead, auth: AuthEmail, env: EmailClient.Env,
    parseInt10: string -> int, session: Outcome<Thrown>)
    requires EmailClient.Construct(auth, env, parseInt10).Failure?
    ensures MarkToolResult(MarkEmailsAsReadHandlerAsWritten(params, auth, env, parseInt10, session)).text
         == EmailClient.MarkFailedPrefix + (EmailClient.MarkFailedPrefix + ("Fail INIT " + EmailClient.UnsupportedClientType))
    ensures MarkToolResult(MarkEmailsAsReadHandlerAsWritten(params, auth, env, parseInt10, session)).isError
  {
  }

  /**
    Corrected composition: a flag update that throws is shown as an error
    whose text carries the prefix twice, once from the handler and once from
    the tool.
   */
  lemma MarkToolFailureText(
    params: InputMarkEmailsAsRead, auth: AuthEmail, env: EmailClient.Env,
    parseInt10: string -> int, t: Thrown)
    requires EmailClient.Construct(auth, env, parseInt10).Success?
    ensures MarkToolResult(MarkEmailsAsReadHandler(params, auth, env, parseInt10, Fail(t))).text
         == EmailClient.MarkFailedPrefix + EmailClient.MarkFailedPrefix + ErrorMessage(t)
  {
  }
}
