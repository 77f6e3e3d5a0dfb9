/**
  What the IMAP connection gives back. The session itself (connect, open,
  search, fetch, logout) is not modelled: its replies are inputs.
 */
module Imap {
  import opened Wrappers
  import opened Time
  import opened Sequences

  /** A message UID as returned by a UID search. */
  type Uid = nat

  /** One envelope sender: display name and mailbox address, either possibly missing. */
  datatype Address = Address(name: Option<string>, address: Option<string>)

  /** The envelope fields the clients read. */
  datatype Envelope = Envelope(date: Option<int>, subject: Option<string>, sender: Option<seq<Address>>)

  /** One `{from: sender}` term of the OR clause. */
  datatype FromClause = FromClause(from: string)

  /** One `{from: s}` term per sender, in the senders' order. */
  function FromClauses(senders: seq<string>): (r: seq<FromClause>)
    ensures |r| == |senders|
    ensures forall k :: 0 <= k < |senders| ==> r[k].from == senders[k]
  {
    seq(|senders|, k requires 0 <= k < |senders| => FromClause(senders[k]))
  }

  /** The search criteria handed to the server (day-granular on its side). */
  datatype SearchQuery = SearchQuery(
    mailbox: string,
    subject: Option<string>,
    since: DateTime,
    before: DateTime,
    or: Option<seq<FromClause>>)

  /** The reply to a UID search: it throws, comes back falsy, or lists UIDs in server order. */
  datatype SearchReply = SearchThrew | Falsy | Uids(uids: seq<Uid>)

  /** The reply to fetching one UID; a UID missing from the fetch map returned nothing. */
  datatype FetchReply = FetchThrew | Message(envelope: Option<Envelope>)

  /**
    One connection as seen by `fetchEmails`: whether connecting and opening
    the mailbox succeed, the search reply, and the per-UID fetch replies.
   */
  datatype Connector = Connector(opens: bool, search: SearchReply, fetch: map<Uid, FetchReply>)

  /** A fetched message: the UID it was fetched by and its envelope, if any. */
  datatype Candidate = Candidate(uid: Uid, envelope: Option<Envelope>)

  /** The envelope date of a candidate, when it has one. */
  function DateOf(c: Candidate): Option<int> {
    if c.envelope.Some? then c.envelope.value.date else None
  }

  /** Some fetch of one of `uids` throws. */
  predicate SomeFetchThrows(uids: seq<Uid>, fetch: map<Uid, FetchReply>) {
    exists i :: 0 <= i < |uids| && uids[i] in fetch && fetch[uids[i]].FetchThrew?
  }

  /** The UID was fetched and a message came back. */
  predicate Fetched(u: Uid, fetch: map<Uid, FetchReply>) {
    u in fetch && fetch[u].Message?
  }

  function UidsOf(cs: seq<Candidate>): (r: seq<Uid>)
    ensures |r| == |cs|
    ensures forall k :: 0 <= k < |cs| ==> r[k] == cs[k].uid
  {
    seq(|cs|, k requires 0 <= k < |cs| => cs[k].uid)
  }

  /** The searched UIDs whose fetch returned a message, in search order. */
  function FetchedOnly(uids: seq<Uid>, fetch: map<Uid, FetchReply>): (r: seq<Uid>)
    ensures IsSubsequence(r, uids)
    ensures forall u :: u in r <==> u in uids && Fetched(u, fetch)
  {
    if |uids| == 0 then []
    else
      var rest := FetchedOnly(uids[1..], fetch);
      assert forall u :: u in uids <==> u == uids[0] || u in uids[1..] by {
        assert uids == [uids[0]] + uids[1..];
      }

      if Fetched(uids[0], fetch) then
        assert ([uids[0]] + rest)[1..] == rest;
        [uids[0]] + rest
      else
        rest
  }
  /** Each fetched UID is kept as often as the search returned it, and an unfetched one never. */
  lemma {:induction false} FetchedOnlyCounts(uids: seq<Uid>, fetch: map<Uid, FetchReply>, u: Uid)
    ensures multiset(FetchedOnly(uids, fetch))[u] == (if Fetched(u, fetch) then multiset(uids)[u] else 0)
  {
    if |uids| > 0 {
      FetchedOnlyCounts(uids[1..], fetch, u);
      assert uids == [uids[0]] + uids[1..];
      assert multiset(uids) == multiset([uids[0]]) + multiset(uids[1..]);
      if Fetched(uids[0], fetch) {
        var rest := FetchedOnly(uids[1..], fetch);
        assert multiset([uids[0]] + rest) == multiset([uids[0]]) + multiset(rest);
      }
    }
  }


  /**
    The fetch loop of both clients without the date filter: the messages
    fetched for `uids`, in search order, skipping UIDs whose fetch returned
    nothing; `None` when any fetch throws, because the exception abandons the
    whole loop.
   */
  function Candidates(uids: seq<Uid>, fetch: map<Uid, FetchReply>): (r: Option<seq<Candidate>>)
    ensures r.None? <==> SomeFetchThrows(uids, fetch)
    ensures r.Some? ==> |r.value| <= |uids|
    ensures r.Some? ==> forall c :: c in r.value ==> Fetched(c.uid, fetch) && c.envelope == fetch[c.uid].envelope
    ensures r.Some? ==> UidsOf(r.value) == FetchedOnly(uids, fetch)
  {
    if |uids| == 0 then Some([])
    else
      var u := uids[0];
      var rest := Candidates(uids[1..], fetch);
      assert SomeFetchThrows(uids, fetch) <==> (u in fetch && fetch[u].FetchThrew?) || SomeFetchThrows(uids[1..], fetch) by {
        if SomeFetchThrows(uids[1..], fetch) {
          var i :| 0 <= i < |uids[1..]| && uids[1..][i] in fetch && fetch[uids[1..][i]].FetchThrew?;
          assert uids[i + 1] == uids[1..][i];
        }
        if SomeFetchThrows(uids, fetch) && !(u in fetch && fetch[u].FetchThrew?) {
          var i :| 0 <= i < |uids| && uids[i] in fetch && fetch[uids[i]].FetchThrew?;
          assert i > 0 && uids[1..][i - 1] == uids[i];
        }
      }
      if u !in fetch then rest
      else match fetch[u]
        case FetchThrew => None
        case Message(env) =>
          if rest.None? then None
          else
            assert UidsOf([Candidate(u, env)] + rest.value) == [u] + UidsOf(rest.value);
            Some([Candidate(u, env)] + rest.value)
  }
}
