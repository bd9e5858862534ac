/** `sendMessage`: the guard on the message, the parsing of the recipient
    list and the send requests issued for it. */
module Notify {
  import opened Wrappers
  import opened Text

  /** One call of the messaging client: a recipient as `parseInt` read it
      (`None` for NaN, which is still passed to the client) and the text. */
  datatype Request = Request(recipient: Option<int>, text: string)

  /** How one call of `sendMessage` ends before the client's promises
      settle: nothing to send, the "at least one user" error, or the list of
      requests issued, one per recipient. */
  datatype Dispatch = Skipped | NoRecipients | Sent(requests: seq<Request>)

  /** The recipient ids read from the users variable: an unset or empty
      variable is read as the empty string, which is then split at commas
      and each field parsed. */
  function Recipients(users: Option<string>): (ids: seq<Option<int>>)
    ensures |ids| == Occurrences(users.GetOr(""), ',') + 1
    ensures forall i :: 0 <= i < |ids| ==> ids[i] == ParseInt(Split(users.GetOr(""), ',')[i])
  {
    var fields := Split(users.GetOr(""), ',');
    seq(|fields|, i requires 0 <= i < |fields| => ParseInt(fields[i]))
  }

  /** One request per recipient, in the order of the list. */
  function Requests(ids: seq<Option<int>>, text: string): seq<Request>
  {
    seq(|ids|, i requires 0 <= i < |ids| => Request(ids[i], text))
  }

  /** `sendMessage(message)`: an absent or empty message sends nothing;
      otherwise every recipient gets the message. The "at least one user"
      error is never raised: splitting any string, even the empty one,
      yields at least one field, so a non-empty message always leads to at
      least one request. */
  function SendMessage(message: Option<string>, users: Option<string>): (d: Dispatch)
    ensures d.Skipped? <==> (message.None? || message.value == "")
    ensures !d.NoRecipients?
    ensures d.Sent? ==> |d.requests| == Occurrences(users.GetOr(""), ',') + 1
    ensures d.Sent? ==>
      (forall i :: 0 <= i < |d.requests| ==>
         d.requests[i] == Request(Recipients(users)[i], message.value))
  {
    if message.None? || message.value == "" then Skipped
    else
      var ids := Recipients(users);
      if |ids| == 0 then NoRecipients
      else Sent(Requests(ids, message.value))
  }

  /** A users value that is the comma-join of rendered ids is parsed back
      into exactly those ids. */
  lemma RecipientsOfRenderedIds(ids: seq<int>)
    requires |ids| > 0
    ensures Recipients(Some(Join(seq(|ids|, i requires 0 <= i < |ids| => Decimal(ids[i])), ","))) ==
      seq(|ids|, i requires 0 <= i < |ids| => Some(ids[i]))
  {
    var fields := seq(|ids|, i requires 0 <= i < |ids| => Decimal(ids[i]));
    forall i | 0 <= i < |fields|
      ensures ',' !in fields[i]
    {
      var n := ids[i];
      var d := NatDigits(if n < 0 then -n else n);
      assert forall k :: 0 <= k < |d| ==> d[k] != ',';
    }
    assert "," == [','];
    SplitJoin(fields, ',');
    forall i | 0 <= i < |ids|
      ensures ParseInt(fields[i]) == Some(ids[i])
    {
      ParseIntOfDecimal(ids[i]);
    }
  }
}
