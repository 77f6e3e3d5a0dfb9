/**
  Classification of a guidelines reference (file URI, remote URL or inline
  text) and the dispatch that decides how its content would be obtained.
  The URL parser, the file system and the network are parameters.
 */
module Resource {
  import opened Wrappers
  import opened JsText

  /** The three labels `getPathType` returns. */
  datatype PathType = Uri | Url | Text

  /** The outcome of `new URL(input)`: a throw, or the parsed scheme with its colon. */
  datatype UrlParse = NotAUrl | ParsedUrl(protocol: string)

  const FileProtocol := "file:"
  const RemoteProtocols: seq<string> := ["http:", "https:", "ftp:"]

  /** The regular expression `^[a-zA-Z]:[\\/]`: a drive letter, a colon, then a slash or a backslash. */
  predicate IsDrivePath(input: string) {
    |input| >= 3 && IsAsciiLetter(input[0]) && input[1] == ':' && (input[2] == '\\' || input[2] == '/')
  }

  /** A leading `/` or a drive path: what the code takes for a local path when parsing fails. */
  predicate LooksLocal(input: string) {
    StartsWith(input, "/") || IsDrivePath(input)
  }

  /** `getPathType` as written: the local-path test runs only when the URL parser throws. */
  function GetPathTypeAsWritten(input: string, parsed: UrlParse): (r: PathType)
    ensures r == Uri <==> parsed == ParsedUrl(FileProtocol) || (parsed.NotAUrl? && LooksLocal(input))
    ensures r == Url <==> parsed.ParsedUrl? && parsed.protocol in RemoteProtocols
  {
    match parsed
    case ParsedUrl(p) =>
      if p == FileProtocol then Uri
      else if p in RemoteProtocols then Url
      else Text
    case NotAUrl => if LooksLocal(input) then Uri else Text
  }

  /** Once the parser succeeds, the input itself no longer matters to the written classifier. */
  lemma ParsedSchemeDecides(a: string, b: string, p: string)
    ensures GetPathTypeAsWritten(a, ParsedUrl(p)) == GetPathTypeAsWritten(b, ParsedUrl(p))
  {
  }

  /**
    A URL parser accepts a drive path as a URL whose scheme is the drive
    letter; the written classifier then labels it inline text, so the path
    itself would be used as the guidelines.
   */
  lemma DrivePathParsedAsText(input: string)
    requires IsDrivePath(input)
    ensures GetPathTypeAsWritten(input, ParsedUrl([LowerChar(input[0]), ':'])) == Text
    ensures GetPathTypeAsWritten(input, NotAUrl) == Uri
  {
    assert [LowerChar(input[0]), ':'] != FileProtocol;
    assert [LowerChar(input[0]), ':'] !in RemoteProtocols;
  }

  /** `getPathType` as intended: a drive path is a local file whether or not the parser accepts it. */
  function GetPathType(input: string, parsed: UrlParse): (r: PathType)
    ensures r == Url <==> parsed.ParsedUrl? && parsed.protocol != FileProtocol && parsed.protocol in RemoteProtocols
  {
    match parsed
    case ParsedUrl(p) =>
      if p == FileProtocol then Uri
      else if p in RemoteProtocols then Url
      else if IsDrivePath(input) then Uri
      else Text
    case NotAUrl => if LooksLocal(input) then Uri else Text
  }

  /** With a one-letter scheme, as a URL parser reports a drive path, the intended classifier says `uri`. */
  lemma DrivePathIsUri(input: string, parsed: UrlParse)
    requires IsDrivePath(input)
    requires parsed == NotAUrl || parsed == ParsedUrl([LowerChar(input[0]), ':'])
    ensures GetPathType(input, parsed) == Uri
  {
    if parsed.ParsedUrl? {
      assert parsed.protocol != FileProtocol;
      assert parsed.protocol !in RemoteProtocols;
    }
  }

  /** Away from drive paths the intended classifier is the written one. */
  lemma ClassifiersAgreeOffDrivePaths(input: string, parsed: UrlParse)
    ensures !IsDrivePath(input) ==> GetPathType(input, parsed) == GetPathTypeAsWritten(input, parsed)
    ensures GetPathType(input, parsed) != GetPathTypeAsWritten(input, parsed) ==>
      GetPathType(input, parsed) == Uri && GetPathTypeAsWritten(input, parsed) == Text
  {
  }

  /** The path with every trailing `/` removed. */
  function TrimTrailingSlashes(s: string): (r: string)
    ensures |r| <= |s| && r == s[..|r|]
    ensures r == "" || r[|r| - 1] != '/'
    ensures forall i :: |r| <= i < |s| ==> s[i] == '/'
    decreases |s|
  {
    if |s| > 0 && s[|s| - 1] == '/' then TrimTrailingSlashes(s[..|s| - 1]) else s
  }

  /** The last path component: the longest suffix without a `/`. */
  function AfterLastSlash(s: string): (r: string)
    ensures |r| <= |s| && r == s[|s| - |r|..]
    ensures '/' !in r
    ensures |r| < |s| ==> s[|s| - |r| - 1] == '/'
    decreases |s|
  {
    if |s| == 0 || s[|s| - 1] == '/' then "" else AfterLastSlash(s[..|s| - 1]) + [s[|s| - 1]]
  }

  /** The index of the last `.`, if any. */
  function LastDot(s: string): (r: Option<nat>)
    ensures r.None? <==> '.' !in s
    ensures r.Some? ==> r.value < |s| && s[r.value] == '.' && '.' !in s[r.value + 1..]
    decreases |s|
  {
    if |s| == 0 then None
    else if s[|s| - 1] == '.' then Some(|s| - 1)
    else
      var r := LastDot(s[..|s| - 1]);
      if r.Some? then
        assert s[r.value + 1..] == s[..|s| - 1][r.value + 1..] + [s[|s| - 1]];
        r
      else
        assert s == s[..|s| - 1] + [s[|s| - 1]];
        r
  }

  /**
    POSIX `path.extname`: from the last `.` of the last component (trailing
    slashes ignored), or "" when there is no dot, the dot starts the
    component, or the component is "..".
   */
  function ExtName(path: string): (r: string)
    ensures r == "" || (r[0] == '.' && '/' !in r && '.' !in r[1..])
  {
    ComponentExtension(AfterLastSlash(TrimTrailingSlashes(path)))
  }

  /** The extension of one path component. */
  function ComponentExtension(base: string): (r: string)
    requires '/' !in base
    ensures r == "" || (r[0] == '.' && '/' !in r && '.' !in r[1..])
  {
    match LastDot(base)
    case None => ""
    case Some(d) => if d == 0 || base == ".." then "" else base[d..]
  }

  /** The extension of `dir/stem.ext` is `.ext`, whatever the directory and however many dots the stem holds. */
  lemma ExtNameOfFileName(dir: string, stem: string, ext: string)
    requires dir == "" || dir[|dir| - 1] == '/'
    requires '/' !in stem && '/' !in ext && '.' !in ext
    requires stem != "" && stem[0] != '.'
    ensures ExtName(dir + stem + "." + ext) == "." + ext
  {
    var t := stem + "." + ext;
    assert dir + stem + "." + ext == dir + t;
    assert t[|stem|] == '.' && t[|stem| + 1..] == ext && t[|stem|..] == "." + ext;
    ExtNameOfComponent(dir, t, |stem|);
  }

  /** The extension of `dir/t`, for a component `t` whose last dot sits at `n > 0`. */
  lemma ExtNameOfComponent(dir: string, t: string, n: nat)
    requires dir == "" || dir[|dir| - 1] == '/'
    requires '/' !in t && 0 < n < |t| && t[n] == '.' && '.' !in t[n + 1..] && t[0] != '.'
    ensures ExtName(dir + t) == t[n..]
  {
    ComponentEndsPath(dir, t);
    LastComponentOf(dir, t);
    ComponentExtensionAt(t, n);
  }

  /** A path ending in a non-empty component without `/` is not trimmed. */
  lemma ComponentEndsPath(dir: string, t: string)
    requires '/' !in t && t != ""
    ensures TrimTrailingSlashes(dir + t) == dir + t
  {
    var p := dir + t;
    assert p[|p| - 1] == t[|t| - 1] && t[|t| - 1] in t;
    NoTrailingSlash(p);
  }

  /** The extension of a component whose last dot sits at `n > 0`. */
  lemma ComponentExtensionAt(t: string, n: nat)
    requires '/' !in t && 0 < n < |t| && t[n] == '.' && '.' !in t[n + 1..] && t[0] != '.'
    ensures ComponentExtension(t) == t[n..]
  {
    LastDotAt(t, n);
  }

  /** A path that does not end in `/` is not trimmed. */
  lemma NoTrailingSlash(p: string)
    requires p != "" && p[|p| - 1] != '/'
    ensures TrimTrailingSlashes(p) == p
  {
  }

  /** A `.` with no `.` after it is the last dot. */
  lemma LastDotAt(s: string, n: nat)
    requires n < |s| && s[n] == '.' && '.' !in s[n + 1..]
    ensures LastDot(s) == Some(n)
  {
    var d := LastDot(s).value;
    assert forall i :: d < i < |s| ==> s[i] == s[d + 1..][i - d - 1];
    assert forall i :: n < i < |s| ==> s[i] == s[n + 1..][i - n - 1];
  }

  /** The last component of `dir + t` is `t` when `t` has no `/` and `dir` is empty or ends in one. */
  lemma LastComponentOf(dir: string, t: string)
    requires dir == "" || dir[|dir| - 1] == '/'
    requires '/' !in t
    ensures AfterLastSlash(dir + t) == t
  {
    var p := dir + t;
    assert p[|dir|..] == t;
    assert |dir| > 0 ==> p[|dir| - 1] == '/';
    SlashFreeSuffixPinned(p, AfterLastSlash(p), |dir|);
  }

  /** Two slash-free suffixes that each start just after a `/` (or at the start) are the same suffix. */
  lemma SlashFreeSuffixPinned(p: string, r: string, n: nat)
    requires |r| <= |p| && r == p[|p| - |r|..] && '/' !in r
    requires |r| < |p| ==> p[|p| - |r| - 1] == '/'
    requires n <= |p| && '/' !in p[n..]
    requires n > 0 ==> p[n - 1] == '/'
    ensures r == p[n..]
  {
    var k := |p| - |r|;
    assert forall i :: k <= i < |p| ==> p[i] == r[i - k];
    assert forall i :: n <= i < |p| ==> p[i] == p[n..][i - n];
    assert k == n;
  }

  /** A component that starts with its only dot, like `.env`, has no extension. */
  lemma DotFileHasNoExtension(dir: string, name: string)
    requires dir == "" || dir[|dir| - 1] == '/'
    requires '/' !in name && '.' !in name
    ensures ExtName(dir + "." + name) == ""
  {
    var t := "." + name;
    assert dir + "." + name == dir + t;
    ComponentEndsPath(dir, t);
    LastComponentOf(dir, t);
    DotFileComponent(name);
  }

  /** A component made of one leading dot and a dot-free name has no extension. */
  lemma DotFileComponent(name: string)
    requires '/' !in name && '.' !in name
    ensures ComponentExtension("." + name) == ""
  {
    var t := "." + name;
    assert t[1..] == name;
    LastDotAt(t, 0);
  }

  /** A trailing `/` does not change the extension. */
  lemma TrailingSlashIgnored(path: string)
    ensures ExtName(path + "/") == ExtName(path)
  {
    assert (path + "/")[..|path|] == path;
  }

  const TextPlainExtensions: seq<string> := [".txt", ".md", ".json", ".xml", ".html", ".csv"]
  const PdfExtension := ".pdf"
  const TextPlainTypes: seq<string> := [
    "application/x-www-form-urlencoded", "application/json", "application/xml",
    "text/markdown", "text/plain", "text/html", "text/csv"]
  const PdfType := "application/pdf"

  const NoGuidelines := "No guidelines provided for analysis."
  const FileNotFound := "Guidelines file not found at "
  const RemoteFailed := "Failed to fetch guidelines from "
  const UnsupportedLocal := "Unsupported local file type: "
  const UnsupportedRemote := "Unsupported remote file type: "
  const ForGuidelinesAt := " for guidelines at "

  /** Whether a content type mentions any of the text types, anywhere and case-sensitively. */
  predicate HasTextType(contentType: string): (b: bool)
    ensures contentType == "" ==> !b
  {
    NoTypeInEmpty();
    exists t :: t in TextPlainTypes && Contains(contentType, t)
  }

  /** How the guidelines would be obtained. */
  datatype ContentAction =
    | ReadLocalText(path: string)
    | ExtractLocalPdf(path: string)
    | ReadRemoteText(url: string)
    | ExtractRemotePdf(url: string)
    | Verbatim(text: string)

  /** The outcome of `fetch(input)`: a rejection, or a response with its status flag and content type header. */
  datatype RemoteReply = NetworkError(message: string) | Reply(ok: bool, contentType: Option<string>)

  /** The file path a `uri` input names: the first `file:` removed. */
  function LocalPath(input: string): string {
    ReplaceFirst(input, FileProtocol, "")
  }

  /** Every text type is non-empty, so none occurs in an empty content type. */
  lemma NoTypeInEmpty()
    ensures forall t :: t in TextPlainTypes ==> !Contains("", t)
  {
    forall t | t in TextPlainTypes ensures !Contains("", t) {
      assert |t| > 0;
    }
  }

  /** A listed text type makes a content type textual wherever it occurs, parameters included. */
  lemma TextTypeAnywhere(before: string, t: string, after: string)
    requires t in TextPlainTypes
    ensures HasTextType(before + t + after)
  {
    assert OccursAt(before + t + after, t, |before|);
  }

  /** The lower-cased extension the local dispatch looks at. */
  function LocalExtension(path: string): (r: string)
    ensures |r| == |ExtName(path)|
    ensures r == "" || (r[0] == '.' && '/' !in r && '.' !in r[1..])
    ensures forall i :: 0 <= i < |r| ==> !IsAsciiUpper(r[i])
  {
    AsciiLower(ExtName(path))
  }

  /**
    The dispatch of `getContentExternal` once the input is labelled: empty
    input is rejected; inline text is the guidelines; a local file is read
    as text or as a PDF by its extension; a remote resource is read as text
    or as a PDF by its content type, a text type winning over PDF.
   */
  function Dispatch(input: string, kind: PathType, fileExists: string -> bool, remote: RemoteReply): (r: Result<ContentAction, string>)
    ensures input == "" ==> r == Failure(NoGuidelines)
    ensures input != "" && kind == Text ==> r == Success(Verbatim(input))
    ensures r.Success? && r.value.Verbatim? ==> r.value.text == input
    ensures r.Success? && (r.value.ReadLocalText? || r.value.ExtractLocalPdf?) ==>
      kind == Uri && r.value.path == LocalPath(input) && fileExists(r.value.path)
    ensures r.Success? && r.value.ReadLocalText? ==> LocalExtension(r.value.path) in TextPlainExtensions
    ensures r.Success? && r.value.ExtractLocalPdf? ==> LocalExtension(r.value.path) == PdfExtension
    ensures r.Success? && (r.value.ReadRemoteText? || r.value.ExtractRemotePdf?) ==>
      kind == Url && r.value.url == input && remote.Reply? && remote.ok
    ensures r.Success? && r.value.ReadRemoteText? ==> HasTextType(remote.contentType.GetOr(""))
    ensures r.Success? && r.value.ExtractRemotePdf? ==>
      !HasTextType(remote.contentType.GetOr("")) && Contains(remote.contentType.GetOr(""), PdfType)
    ensures input != "" && kind == Uri && !fileExists(LocalPath(input)) ==> r == Failure(FileNotFound + LocalPath(input))
    ensures input != "" && kind == Uri && fileExists(LocalPath(input)) && LocalExtension(LocalPath(input)) in TextPlainExtensions ==>
      r == Success(ReadLocalText(LocalPath(input)))
    ensures input != "" && kind == Uri && fileExists(LocalPath(input)) && LocalExtension(LocalPath(input)) == PdfExtension ==>
      r == Success(ExtractLocalPdf(LocalPath(input)))
    ensures input != "" && kind == Url && remote.NetworkError? ==> r == Failure(remote.message)
    ensures input != "" && kind == Url && remote.Reply? && !remote.ok ==> r == Failure(RemoteFailed + input)
    ensures input != "" && kind == Url && remote.Reply? && remote.ok && HasTextType(remote.contentType.GetOr("")) ==>
      r == Success(ReadRemoteText(input))
    ensures (input != "" && kind == Url && remote.Reply? && remote.ok &&
      !HasTextType(remote.contentType.GetOr("")) && Contains(remote.contentType.GetOr(""), PdfType)) ==>
      r == Success(ExtractRemotePdf(input))
  {
    if input == "" then Failure(NoGuidelines)
    else match kind
    case Uri => ResolveLocal(LocalPath(input), fileExists)
    case Url => ResolveRemote(input, remote)
    case Text => Success(Verbatim(input))
  }

  /** `getContentExternal` as written: the dispatch on the written `getPathType`. */
  function ResolveContentAsWritten(input: string, parsed: UrlParse, fileExists: string -> bool, remote: RemoteReply): (r: Result<ContentAction, string>)
    ensures input == "" ==> r == Failure(NoGuidelines)
    ensures input != "" && GetPathTypeAsWritten(input, parsed) == Text ==> r == Success(Verbatim(input))
    ensures r.Success? && r.value.Verbatim? ==> r.value.text == input
    ensures r.Success? && (r.value.ReadLocalText? || r.value.ExtractLocalPdf?) ==>
      GetPathTypeAsWritten(input, parsed) == Uri && r.value.path == LocalPath(input) && fileExists(r.value.path)
    ensures r.Success? && (r.value.ReadRemoteText? || r.value.ExtractRemotePdf?) ==>
      GetPathTypeAsWritten(input, parsed) == Url && r.value.url == input && remote.Reply? && remote.ok
    ensures r.Success? && r.value.ReadLocalText? ==> LocalExtension(r.value.path) in TextPlainExtensions
    ensures r.Success? && r.value.ExtractLocalPdf? ==> LocalExtension(r.value.path) == PdfExtension
    ensures r.Success? && r.value.ReadRemoteText? ==> HasTextType(remote.contentType.GetOr(""))
    ensures r.Success? && r.value.ExtractRemotePdf? ==>
      !HasTextType(remote.contentType.GetOr("")) && Contains(remote.contentType.GetOr(""), PdfType)
    ensures input != "" && GetPathTypeAsWritten(input, parsed) == Uri && !fileExists(LocalPath(input)) ==> r == Failure(FileNotFound + LocalPath(input))
    ensures input != "" && GetPathTypeAsWritten(input, parsed) == Uri && fileExists(LocalPath(input)) && LocalExtension(LocalPath(input)) in TextPlainExtensions ==>
      r == Success(ReadLocalText(LocalPath(input)))
    ensures input != "" && GetPathTypeAsWritten(input, parsed) == Uri && fileExists(LocalPath(input)) && LocalExtension(LocalPath(input)) == PdfExtension ==>
      r == Success(ExtractLocalPdf(LocalPath(input)))
    ensures input != "" && GetPathTypeAsWritten(input, parsed) == Url && remote.NetworkError? ==> r == Failure(remote.message)
    ensures input != "" && GetPathTypeAsWritten(input, parsed) == Url && remote.Reply? && !remote.ok ==> r == Failure(RemoteFailed + input)
    ensures input != "" && GetPathTypeAsWritten(input, parsed) == Url && remote.Reply? && remote.ok && HasTextType(remote.contentType.GetOr("")) ==>
      r == Success(ReadRemoteText(input))
    ensures (input != "" && GetPathTypeAsWritten(input, parsed) == Url && remote.Reply? && remote.ok &&
      !HasTextType(remote.contentType.GetOr("")) && Contains(remote.contentType.GetOr(""), PdfType)) ==>
      r == Success(ExtractRemotePdf(input))
  {
    Dispatch(input, GetPathTypeAsWritten(input, parsed), fileExists, remote)
  }

  /** `getContentExternal` as intended: the dispatch on the corrected `getPathType`, so drive paths are read as files. */
  function ResolveContent(input: string, parsed: UrlParse, fileExists: string -> bool, remote: RemoteReply): (r: Result<ContentAction, string>)
    ensures input == "" ==> r == Failure(NoGuidelines)
    ensures input != "" && GetPathType(input, parsed) == Text ==> r == Success(Verbatim(input))
    ensures r.Success? && r.value.Verbatim? ==> r.value.text == input
    ensures r.Success? && (r.value.ReadLocalText? || r.value.ExtractLocalPdf?) ==>
      GetPathType(input, parsed) == Uri && r.value.path == LocalPath(input) && fileExists(r.value.path)
    ensures r.Success? && (r.value.ReadRemoteText? || r.value.ExtractRemotePdf?) ==>
      GetPathType(input, parsed) == Url && r.value.url == input && remote.Reply? && remote.ok
    ensures r.Success? && r.value.ReadLocalText? ==> LocalExtension(r.value.path) in TextPlainExtensions
    ensures r.Success? && r.value.ExtractLocalPdf? ==> LocalExtension(r.value.path) == PdfExtension
    ensures r.Success? && r.value.ReadRemoteText? ==> HasTextType(remote.contentType.GetOr(""))
    ensures r.Success? && r.value.ExtractRemotePdf? ==>
      !HasTextType(remote.contentType.GetOr("")) && Contains(remote.contentType.GetOr(""), PdfType)
    ensures input != "" && GetPathType(input, parsed) == Uri && !fileExists(LocalPath(input)) ==> r == Failure(FileNotFound + LocalPath(input))
    ensures input != "" && GetPathType(input, parsed) == Uri && fileExists(LocalPath(input)) && LocalExtension(LocalPath(input)) in TextPlainExtensions ==>
      r == Success(ReadLocalText(LocalPath(input)))
    ensures input != "" && GetPathType(input, parsed) == Uri && fileExists(LocalPath(input)) && LocalExtension(LocalPath(input)) == PdfExtension ==>
      r == Success(ExtractLocalPdf(LocalPath(input)))
    ensures input != "" && GetPathType(input, parsed) == Url && remote.NetworkError? ==> r == Failure(remote.message)
    ensures input != "" && GetPathType(input, parsed) == Url && remote.Reply? && !remote.ok ==> r == Failure(RemoteFailed + input)
    ensures input != "" && GetPathType(input, parsed) == Url && remote.Reply? && remote.ok && HasTextType(remote.contentType.GetOr("")) ==>
      r == Success(ReadRemoteText(input))
    ensures (input != "" && GetPathType(input, parsed) == Url && remote.Reply? && remote.ok &&
      !HasTextType(remote.contentType.GetOr("")) && Contains(remote.contentType.GetOr(""), PdfType)) ==>
      r == Success(ExtractRemotePdf(input))
  {
    Dispatch(input, GetPathType(input, parsed), fileExists, remote)
  }

  /** The two readings of `getContentExternal` agree on every input that is not a drive path. */
  lemma ResolversAgreeOffDrivePaths(input: string, parsed: UrlParse, fileExists: string -> bool, remote: RemoteReply)
    requires !IsDrivePath(input)
    ensures ResolveContentAsWritten(input, parsed, fileExists, remote) == ResolveContent(input, parsed, fileExists, remote)
  {
    ClassifiersAgreeOffDrivePaths(input, parsed);
  }

  /**
    A drive path that the URL parser accepts with its drive letter as the
    scheme is returned verbatim as written, and looked up as a local file
    as intended.
   */
  lemma DrivePathResolved(input: string, fileExists: string -> bool, remote: RemoteReply)
    requires IsDrivePath(input)
    ensures ResolveContentAsWritten(input, ParsedUrl([LowerChar(input[0]), ':']), fileExists, remote)
         == Success(Verbatim(input))
    ensures ResolveContent(input, ParsedUrl([LowerChar(input[0]), ':']), fileExists, remote)
         == ResolveLocal(LocalPath(input), fileExists)
  {
    DrivePathParsedAsText(input);
    DrivePathIsUri(input, ParsedUrl([LowerChar(input[0]), ':']));
  }

  /** The local branch: a missing file is an error naming it; otherwise the extension picks the reader. */
  function ResolveLocal(path: string, fileExists: string -> bool): (r: Result<ContentAction, string>)
    ensures !fileExists(path) ==> r == Failure(FileNotFound + path)
    ensures r.Success? ==> fileExists(path) && (r.value.ReadLocalText? || r.value.ExtractLocalPdf?) && r.value.path == path
    ensures r.Success? && r.value.ReadLocalText? ==> LocalExtension(path) in TextPlainExtensions
    ensures r.Success? && r.value.ExtractLocalPdf? ==> LocalExtension(path) == PdfExtension
    ensures fileExists(path) && LocalExtension(path) in TextPlainExtensions ==> r == Success(ReadLocalText(path))
    ensures fileExists(path) && LocalExtension(path) == PdfExtension ==> r == Success(ExtractLocalPdf(path))
    ensures fileExists(path) && LocalExtension(path) !in TextPlainExtensions && LocalExtension(path) != PdfExtension ==>
      r == Failure(UnsupportedLocal + LocalExtension(path) + ForGuidelinesAt + path)
  {
    if !fileExists(path) then Failure(FileNotFound + path)
    else
      var ext := LocalExtension(path);
      if ext in TextPlainExtensions then Success(ReadLocalText(path))
      else if ext == PdfExtension then Success(ExtractLocalPdf(path))
      else Failure(UnsupportedLocal + ext + ForGuidelinesAt + path)
  }

  /** The remote branch: network and HTTP failures are errors; otherwise the content type picks the reader. */
  function ResolveRemote(input: string, remote: RemoteReply): (r: Result<ContentAction, string>)
    ensures remote.NetworkError? ==> r == Failure(remote.message)
    ensures remote.Reply? && !remote.ok ==> r == Failure(RemoteFailed + input)
    ensures r.Success? ==> remote.Reply? && remote.ok && (r.value.ReadRemoteText? || r.value.ExtractRemotePdf?) && r.value.url == input
    ensures r.Success? && r.value.ReadRemoteText? ==> HasTextType(remote.contentType.GetOr(""))
    ensures r.Success? && r.value.ExtractRemotePdf? ==>
      !HasTextType(remote.contentType.GetOr("")) && Contains(remote.contentType.GetOr(""), PdfType)
    ensures remote.Reply? && remote.ok && HasTextType(remote.contentType.GetOr("")) ==> r == Success(ReadRemoteText(input))
    ensures remote.Reply? && remote.ok && !HasTextType(remote.contentType.GetOr("")) && Contains(remote.contentType.GetOr(""), PdfType) ==>
      r == Success(ExtractRemotePdf(input))
    ensures remote.Reply? && remote.ok && !HasTextType(remote.contentType.GetOr("")) && !Contains(remote.contentType.GetOr(""), PdfType) ==>
      r == Failure(UnsupportedRemote + remote.contentType.GetOr("") + ForGuidelinesAt + input)
  {
    match remote
    case NetworkError(m) => Failure(m)
    case Reply(ok, header) =>
      if !ok then Failure(RemoteFailed + input)
      else
        var contentType := header.GetOr("");
        if HasTextType(contentType) then Success(ReadRemoteText(input))
        else if Contains(contentType, PdfType) then Success(ExtractRemotePdf(input))
        else Failure(UnsupportedRemote + contentType + ForGuidelinesAt + input)
  }

  /** A `file:` URL names the path after the scheme. */
  lemma FileUrlPath(rest: string)
    ensures LocalPath(FileProtocol + rest) == rest
  {
    ReplaceFirstSplits("", FileProtocol, rest, "");
    assert "" + FileProtocol + rest == FileProtocol + rest;
  }

  /**
    Local dispatch: a missing file is reported with its path; an existing
    one is read as text for a listed extension, as a PDF for `.pdf`, and
    refused with its extension otherwise.
   */
  lemma LocalDispatch(path: string, fileExists: string -> bool, remote: RemoteReply)
    requires StartsWith(path, "/") && !Contains(path, FileProtocol)
    ensures var r := ResolveContentAsWritten(path, NotAUrl, fileExists, remote);
      var ext := LocalExtension(path);
      && (!fileExists(path) ==> r == Failure(FileNotFound + path))
      && (fileExists(path) && ext in TextPlainExtensions ==> r == Success(ReadLocalText(path)))
      && (fileExists(path) && ext == PdfExtension ==> r == Success(ExtractLocalPdf(path)))
      && (fileExists(path) && ext !in TextPlainExtensions && ext != PdfExtension ==>
            r == Failure(UnsupportedLocal + ext + ForGuidelinesAt + path))
  {
    assert GetPathTypeAsWritten(path, NotAUrl) == Uri;
    NoFileSchemeIn(path);
  }

  /** The extension the local dispatch sees for `dir/stem.ext` is `.ext` lower-cased, so `Guide.PDF` is a PDF. */
  lemma LocalExtensionOfFileName(dir: string, stem: string, ext: string)
    requires dir == "" || dir[|dir| - 1] == '/'
    requires '/' !in stem && '/' !in ext && '.' !in ext
    requires stem != "" && stem[0] != '.'
    ensures LocalExtension(dir + stem + "." + ext) == AsciiLower("." + ext)
  {
    ExtNameOfFileName(dir, stem, ext);
  }

  /** A path without `file:` is its own local path. */
  lemma NoFileSchemeIn(path: string)
    requires !Contains(path, FileProtocol)
    ensures LocalPath(path) == path
  {
    ReplaceFirstAbsent(path, FileProtocol, "");
  }

  /** A content type naming both a text type and PDF is read as text. */
  lemma TextTypeWinsOverPdf(input: string, parsed: UrlParse, fileExists: string -> bool, contentType: string, t: string)
    requires input != "" && GetPathTypeAsWritten(input, parsed) == Url
    requires t in TextPlainTypes && Contains(contentType, t) && Contains(contentType, PdfType)
    ensures ResolveContentAsWritten(input, parsed, fileExists, Reply(true, Some(contentType))) == Success(ReadRemoteText(input))
  {
  }

  /** A failed response or a missing content type is an error naming the input. */
  lemma RemoteErrors(input: string, parsed: UrlParse, fileExists: string -> bool, ok: bool, header: Option<string>)
    requires input != "" && GetPathTypeAsWritten(input, parsed) == Url
    ensures !ok ==> ResolveContentAsWritten(input, parsed, fileExists, Reply(ok, header)) == Failure(RemoteFailed + input)
    ensures ok && header.GetOr("") == "" ==>
      ResolveContentAsWritten(input, parsed, fileExists, Reply(ok, header))
        == Failure(UnsupportedRemote + "" + ForGuidelinesAt + input)
  {
    if ok && header.GetOr("") == "" {
      assert !HasTextType("") by {
        forall t | t in TextPlainTypes ensures !Contains("", t) {
          assert |t| > 0;
        }
      }
    }
  }
}
