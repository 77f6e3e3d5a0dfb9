/**
  How both clients turn a fetched message into an output record: sender
  rendering, the two placeholders, the empty snippet and the optional date.
 */
module Projection {
  import opened Wrappers
  import opened JsText
  import opened Imap
  import opened EmailTypes

  const UnknownSender := "Unknown Sender"
  const NoSubject := "No Subject"

  /**
    One sender as the template renders it: `name <address>` when the name is
    truthy, otherwise the address value itself (which may be missing).
   */
  function RenderAddress(a: Address): (r: Option<string>)
    ensures r.None? <==> !Truthy(a.name) && a.address.None?
    ensures !Truthy(a.name) ==> r == a.address
    ensures Truthy(a.name) && a.address.Some? ==> r == Some(a.name.value + " <" + a.address.value + ">")
    ensures Truthy(a.name) && a.address.None? ==> r == Some(a.name.value + " <undefined>")
  {
    if Truthy(a.name) then
      assert a.name.value + " <" + "undefined" + ">" == a.name.value + " <undefined>";
      Some(a.name.value + " <" + StringOf(a.address) + ">")
    else a.address
  }

  function RenderAll(xs: seq<Address>): (r: seq<Option<string>>)
    ensures |r| == |xs|
    ensures forall k :: 0 <= k < |xs| ==> r[k] == RenderAddress(xs[k])
  {
    seq(|xs|, k requires 0 <= k < |xs| => RenderAddress(xs[k]))
  }

  /** The envelope's sender list, rendered and joined with ", ", when there is a list. */
  function JoinedSenders(env: Option<Envelope>): Option<string> {
    if env.Some? && env.value.sender.Some? then Some(Join(RenderAll(env.value.sender.value), ", "))
    else None
  }

  /** `...join(', ') || 'Unknown Sender'`. */
  function SenderText(env: Option<Envelope>): (r: string)
    ensures r != ""
  {
    var j := JoinedSenders(env);
    if Truthy(j) then j.value else UnknownSender
  }

  /** The sender placeholder is used exactly in these cases: no list, an empty list, or one entry rendering as "". */
  predicate UsesSenderFallback(env: Option<Envelope>) {
    || env.None?
    || env.value.sender.None?
    || |env.value.sender.value| == 0
    || (|env.value.sender.value| == 1 && JoinPiece(RenderAddress(env.value.sender.value[0])) == "")
  }

  /**
    The sender text is the placeholder in the fallback cases and the joined
    rendering otherwise.
   */
  lemma SenderFallbackExactly(env: Option<Envelope>)
    ensures UsesSenderFallback(env) ==> SenderText(env) == UnknownSender
    ensures !UsesSenderFallback(env) ==> SenderText(env) == JoinedSenders(env).value
  {
    if env.Some? && env.value.sender.Some? {
      var xs := env.value.sender.value;
      JoinEmptyIff(RenderAll(xs), ", ");
    }
  }

  /** A named sender renders as `name <address>`; an unnamed one as the bare address. */
  lemma SingleSenderRendering(env: Envelope, a: Address)
    requires env.sender == Some([a])
    ensures Truthy(a.name) ==> SenderText(Some(env)) == a.name.value + " <" + StringOf(a.address) + ">"
    ensures !Truthy(a.name) && Truthy(a.address) ==> SenderText(Some(env)) == a.address.value
    ensures !Truthy(a.name) && !Truthy(a.address) ==> SenderText(Some(env)) == UnknownSender
  {
    assert RenderAll([a]) == [RenderAddress(a)];
  }

  /** Two senders are joined with ", ", even when both render as "". */
  lemma TwoSendersJoined(env: Envelope, a: Address, b: Address)
    requires env.sender == Some([a, b])
    ensures SenderText(Some(env)) == JoinPiece(RenderAddress(a)) + ", " + JoinPiece(RenderAddress(b))
  {
    var r := RenderAll([a, b]);
    assert r == [RenderAddress(a), RenderAddress(b)];
    assert r[1..] == [RenderAddress(b)];
    assert Join(r[1..], ", ") == JoinPiece(RenderAddress(b));
    assert Join(r, ", ") == JoinPiece(RenderAddress(a)) + ", " + JoinPiece(RenderAddress(b));
    assert JoinedSenders(Some(env)) == Some(Join(r, ", "));
  }

  /** `subject || 'No Subject'`. */
  function SubjectText(env: Option<Envelope>): (r: string)
    ensures r != ""
    ensures r == NoSubject <==> !(env.Some? && Truthy(env.value.subject)) || env.value.subject.value == NoSubject
    ensures env.Some? && Truthy(env.value.subject) ==> r == env.value.subject.value
  {
    if env.Some? && Truthy(env.value.subject) then env.value.subject.value else NoSubject
  }

  /** The output record for one surviving message. */
  function Project(c: Candidate, formatIso: int -> string): (r: EmailRecord)
    ensures r.id == c.uid
    ensures r.snippet == ""
    ensures r.subject != "" && r.sender != ""
    ensures r.subject == SubjectText(c.envelope) && r.sender == SenderText(c.envelope)
    ensures r.date.Some? <==> DateOf(c).Some?
    ensures DateOf(c).Some? ==> r.date.value == formatIso(DateOf(c).value)
  {
    EmailRecord(
      c.uid,
      SubjectText(c.envelope),
      SenderText(c.envelope),
      "",
      if DateOf(c).Some? then Some(formatIso(DateOf(c).value)) else None)
  }

  /** Projection of a whole list, one record per message in the same order. */
  function ProjectAll(cs: seq<Candidate>, formatIso: int -> string): (r: seq<EmailRecord>)
    ensures |r| == |cs|
    ensures forall k :: 0 <= k < |cs| ==> r[k] == Project(cs[k], formatIso)
  {
    if |cs| == 0 then [] else [Project(cs[0], formatIso)] + ProjectAll(cs[1..], formatIso)
  }

  function IdsOf(es: seq<EmailRecord>): (r: seq<int>)
    ensures |r| == |es|
    ensures forall k :: 0 <= k < |es| ==> r[k] == es[k].id
  {
    seq(|es|, k requires 0 <= k < |es| => es[k].id)
  }

  /** The ids of a concatenation are the ids of its parts, in order. */
  lemma IdsOfConcat(a: seq<EmailRecord>, b: seq<EmailRecord>)
    ensures IdsOf(a + b) == IdsOf(a) + IdsOf(b)
  {
  }

  /** The ids of projected records are the UIDs of the messages, in order. */
  lemma ProjectedIds(cs: seq<Candidate>, formatIso: int -> string)
    ensures IdsOf(ProjectAll(cs, formatIso)) == UidsOf(cs)
  {
  }

  lemma {:induction false} ProjectAllAppend(a: seq<Candidate>, b: seq<Candidate>, formatIso: int -> string)
    ensures ProjectAll(a + b, formatIso) == ProjectAll(a, formatIso) + ProjectAll(b, formatIso)
  {
    var l := ProjectAll(a + b, formatIso);
    var r := ProjectAll(a, formatIso) + ProjectAll(b, formatIso);
    assert |l| == |r|;
    forall k | 0 <= k < |l| ensures l[k] == r[k] {
      if k < |a| {
        assert (a + b)[k] == a[k];
      } else {
        assert (a + b)[k] == b[k - |a|];
      }
    }
  }
}
