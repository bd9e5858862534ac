/** One run of `startPolling` as a pure step: the stored snapshot and the
    API answer come in, the snapshot to write and the messages to send come
    out. */
module Polling {
  import opened Wrappers
  import opened Sessions
  import opened Text
  import opened Availability
  import opened Message
  import opened Notify
  import opened SnapshotDiff

  /** The outward effects of a cycle, in the order they are issued: the
      read of the stored snapshot, the request to the availability API, the
      write of the new snapshot, and the messages. */
  datatype Effect =
    | GetSnapshot
    | FetchAvailability
    | PutSnapshot(snapshot: seq<Session>)
    | SendText(request: Request)

  /** What one cycle does: the snapshot it writes back, the sessions it
      formats into a message (`None` when it returns before building one),
      and how `sendMessage` ends. */
  datatype CycleResult = CycleResult(stored: seq<Session>, delta: Option<seq<Session>>, dispatch: Dispatch)

  /** The message the cycle passes to `sendMessage`, if any. */
  function Notification(r: CycleResult): Option<string>
  {
    match r.delta
    case None => None
    case Some(d) => Some(Format(d))
  }

  /** `startPolling`. `prior` is the stored snapshot, `None` when there is
      none or the read failed; `response` is the API's list of sessions,
      `None` when the request or its decoding failed; `users` is the
      recipients variable. The fresh list is written back whatever happens
      next; with no snapshot the whole list is announced; with an empty
      snapshot the cycle ends silently; otherwise the diff is announced. */
  function Cycle(prior: Option<seq<Session>>, response: Option<seq<Session>>, users: Option<string>): (r: CycleResult)
    ensures r.stored == Normalise(response)
    ensures prior.None? ==> r.delta == Some(r.stored)
    ensures prior == Some([]) ==> r.delta.None? && r.dispatch.Skipped?
    ensures prior.Some? && prior.value != [] ==> r.delta == Some(Diff(prior.value, r.stored))
    ensures r.dispatch.Sent? <==> r.delta.Some? && r.delta.value != []
    ensures !r.dispatch.NoRecipients?
    ensures r.dispatch.Sent? ==>
      (forall i :: 0 <= i < |r.dispatch.requests| ==> r.dispatch.requests[i].text == Format(r.delta.value))
  {
    var current := Normalise(response);
    var delta :=
      match prior
      case None => Some(current)
      case Some(p) => if |p| > 0 then Some(Diff(p, current)) else None;
    var r := CycleResult(current, delta, Skipped);
    CycleResult(current, delta, SendMessage(Notification(r), users))
  }

  /** The effects in issue order: the two reads, the snapshot write, then
      one send per request. */
  function Effects(r: CycleResult): (es: seq<Effect>)
    ensures |es| >= 3 && es[..3] == [GetSnapshot, FetchAvailability, PutSnapshot(r.stored)]
    ensures forall k :: 3 <= k < |es| ==> es[k].SendText?
  {
    var sends :=
      if r.dispatch.Sent? then
        seq(|r.dispatch.requests|, i requires 0 <= i < |r.dispatch.requests| => SendText(r.dispatch.requests[i]))
      else [];
    [GetSnapshot, FetchAvailability, PutSnapshot(r.stored)] + sends
  }

  /** The effects of a cycle in terms of its inputs: after the two reads
      comes the write of the normalised fetch, whatever the snapshot was;
      then, if the announced list is non-empty, one send per comma-separated
      recipient field, in order, each carrying the formatted list, and no
      send otherwise. */
  lemma CycleEffects(prior: Option<seq<Session>>, response: Option<seq<Session>>, users: Option<string>)
    ensures
      var es := Effects(Cycle(prior, response, users));
      var announced :=
        match prior
        case None => Normalise(response)
        case Some(p) => if p == [] then [] else Diff(p, Normalise(response));
      && es[..3] == [GetSnapshot, FetchAvailability, PutSnapshot(Normalise(response))]
      && |es| == 3 + (if announced != [] then Occurrences(users.GetOr(""), ',') + 1 else 0)
      && forall k :: 3 <= k < |es| ==>
           es[k] == SendText(Request(Recipients(users)[k - 3], Format(announced)))
  {
    var r := Cycle(prior, response, users);
    var announced :=
      match prior
      case None => Normalise(response)
      case Some(p) => if p == [] then [] else Diff(p, Normalise(response));
    AnnouncedList(prior, response, users);
    var es := Effects(r);
    if r.dispatch.Sent? {
      assert forall k :: 3 <= k < |es| ==> es[k] == SendText(r.dispatch.requests[k - 3]);
    } else {
      assert |es| == 3;
    }
  }

  /** A cycle sends exactly when the list it would announce is non-empty,
      and then sends that list. */
  lemma AnnouncedList(prior: Option<seq<Session>>, response: Option<seq<Session>>, users: Option<string>)
    ensures
      var r := Cycle(prior, response, users);
      var announced :=
        match prior
        case None => Normalise(response)
        case Some(p) => if p == [] then [] else Diff(p, Normalise(response));
      && (r.dispatch.Sent? <==> announced != [])
      && (r.dispatch.Sent? ==> r.delta == Some(announced))
  {
  }

  /** The snapshot written by a cycle is the fetched list with free
      capacity, highest first, whatever the stored snapshot was and
      whether or not anything is sent; and it is written before any send. */
  lemma StoredSnapshotSpec(prior: Option<seq<Session>>, sessions: seq<Session>, users: Option<string>)
    ensures
      var r := Cycle(prior, Some(sessions), users);
      && Effects(r)[2] == PutSnapshot(r.stored)
      && NonIncreasing(r.stored)
      && (forall x :: multiset(r.stored)[x] == (if x.available_capacity > 0 then multiset(sessions)[x] else 0))
  {
    NormaliseSpec(sessions);
  }

  /** Two cycles in a row on the same API answer: the second sends
      nothing, provided the answer lists each centre once. */
  lemma SecondCycleQuiet(prior: Option<seq<Session>>, response: Option<seq<Session>>, users: Option<string>)
    requires response.Some? ==> DistinctIds(response.value)
    ensures Cycle(Some(Cycle(prior, response, users).stored), response, users).dispatch.Skipped?
  {
    var s := Normalise(response);
    if response.Some? {
      NormaliseDistinct(response.value);
    }
    if s != [] {
      SelfDiffEmpty(s);
    }
  }

  /** The sample session used by the scenarios below. */
  function SampleSession(capacity: int): Session
  {
    Session(5, "X", "Y", capacity, 18, "Z")
  }

  /** The five lines of the sample session. */
  lemma SampleLines()
    ensures Lines(SampleSession(3)) ==
      ["Center : X", "Address : Y", "Available Capacity : 3", "Age Limit : 18", "Vaccine : Z"]
  {
    assert Decimal(3) == "3" by { assert DigitChar(3) == '3'; }
    assert Decimal(18) == "18" by {
      assert DigitChar(1) == '1' && DigitChar(8) == '8';
      assert NatDigits(18) == NatDigits(1) + [DigitChar(8)];
    }
    var l := Lines(SampleSession(3));
    assert l[2] == "Available Capacity : 3";
    assert l[3] == "Age Limit : 18";
    assert l[0] == "Center : X";
    assert l[1] == "Address : Y";
    assert l[4] == "Vaccine : Z";
  }

  /** The message for the sample session, read line by line. */
  lemma SampleMessageLines()
    ensures Split(Format([SampleSession(3)]), '\n') ==
      ["Center : X", "Address : Y", "Available Capacity : 3", "Age Limit : 18", "Vaccine : Z"]
  {
    var a := SampleSession(3);
    assert SingleLine(a);
    FormatLines([a]);
    SampleLines();
  }

  /** Two comma-separated ids are read as two recipients. */
  lemma SampleRecipients()
    ensures Recipients(Some("11,22")) == [Some(11), Some(22)]
  {
    assert Decimal(11) == "11" by { assert NatDigits(11) == NatDigits(1) + [DigitChar(1)]; }
    assert Decimal(22) == "22" by { assert NatDigits(22) == NatDigits(2) + [DigitChar(2)]; }
    var fields := ["11", "22"];
    assert Join(fields, ",") == "11,22";
    RecipientsOfRenderedIds([11, 22]);
    assert seq(2, i requires 0 <= i < 2 => Decimal([11, 22][i])) == fields;
  }

  /** First cycle of the day with one open centre: it is stored and
      announced to every recipient, the text made of the template's five
      lines. */
  lemma ScenarioFirstCycle()
    ensures
      var r := Cycle(None, Some([SampleSession(3)]), Some("11,22"));
      && r.stored == [SampleSession(3)]
      && r.delta == Some([SampleSession(3)])
      && Notification(r).Some?
      && Split(Notification(r).value, '\n') ==
           ["Center : X", "Address : Y", "Available Capacity : 3", "Age Limit : 18", "Vaccine : Z"]
      && r.dispatch.Sent?
      && |r.dispatch.requests| == 2
      && r.dispatch.requests[0].recipient == Some(11)
      && r.dispatch.requests[1].recipient == Some(22)
  {
    var a := SampleSession(3);
    assert Positive([a]) == [a];
    assert SortByCapacity([a]) == [a];
    SampleMessageLines();
    SampleRecipients();
  }

  /** Unchanged availability: nothing is sent and the same list is stored
      again. */
  lemma ScenarioUnchanged(users: Option<string>)
    ensures
      var r := Cycle(Some([SampleSession(3)]), Some([SampleSession(3)]), users);
      r.stored == [SampleSession(3)] && r.delta == Some([]) && r.dispatch.Skipped?
  {
  }

  /** A capacity change reports the stored session with its old capacity,
      while the new one is stored. */
  lemma ScenarioCapacityChanged(users: Option<string>)
    ensures
      var r := Cycle(Some([SampleSession(3)]), Some([SampleSession(10)]), users);
      r.stored == [SampleSession(10)] && r.delta == Some([SampleSession(3)]) && r.dispatch.Sent?
  {
    var a := SampleSession(3);
    var b := SampleSession(10);
    assert Positive([b]) == [b];
    assert SortByCapacity([b]) == [b];
    assert FirstWithId([a], 5) == Some(a);
    assert Diff([a], [b]) == [a];
  }

  /** With the recipients variable unset, `sendMessage` does not raise the
      "at least one user" error: it sends once, to the NaN that `parseInt`
      makes of the empty string. */
  lemma ScenarioNoUsersConfigured(text: string)
    requires text != ""
    ensures SendMessage(Some(text), None) == Sent([Request(None, text)])
  {
  }

  /** The cycle as written drops a centre that opens right after a fetch
      that found nothing: the empty list is stored, the next cycle sees an
      empty snapshot and ends silently while storing the centre, and from
      then on the centre is in the snapshot and unchanged. */
  lemma EmptySnapshotHidesNewCentre(a: Session, users: Option<string>)
    requires a.available_capacity > 0
    ensures
      var r1 := Cycle(None, Some([]), users);
      var r2 := Cycle(Some(r1.stored), Some([a]), users);
      var r3 := Cycle(Some(r2.stored), Some([a]), users);
      && r1.dispatch.Skipped? && r2.dispatch.Skipped? && r3.dispatch.Skipped?
      && r3.stored == [a]
  {
    assert Positive([a]) == [a];
    assert SortByCapacity([a]) == [a];
    assert FirstWithId([a], a.center_id) == Some(a);
  }

  /** The cycle with the empty-snapshot short cut removed: any stored
      snapshot, empty or not, is compared with the fresh list, so an empty
      one announces everything, as a missing one does. */
  function CycleIntended(prior: Option<seq<Session>>, response: Option<seq<Session>>, users: Option<string>): (r: CycleResult)
    ensures r.stored == Normalise(response)
    ensures r.delta.Some?
    ensures prior != Some([]) ==> r == Cycle(prior, response, users)
  {
    var current := Normalise(response);
    var delta :=
      match prior
      case None => current
      case Some(p) => Diff(p, current);
    CycleResult(current, Some(delta), SendMessage(Some(Format(delta)), users))
  }

  /** Under the intended cycle no centre is ever absorbed silently: every
      stored session whose centre the snapshot did not hold is announced. */
  lemma IntendedAnnouncesNewCentres(prior: Option<seq<Session>>, response: Option<seq<Session>>, users: Option<string>, k: nat)
    requires k < |Normalise(response)|
    requires Normalise(response)[k].center_id !in Ids(prior.GetOr([]))
    ensures
      var r := CycleIntended(prior, response, users);
      r.stored[k] in r.delta.value && r.dispatch.Sent?
  {
    var current := Normalise(response);
    if prior.Some? {
      NewSessionReported(prior.value, current, k);
    }
  }

  /** The intended cycle announces the centre of the scenario above in the
      second cycle, the first one that fetches it. */
  lemma IntendedAnnouncesAfterEmptyFetch(a: Session, users: Option<string>)
    requires a.available_capacity > 0
    ensures
      var r1 := CycleIntended(None, Some([]), users);
      var r2 := CycleIntended(Some(r1.stored), Some([a]), users);
      r2.delta == Some([a]) && r2.dispatch.Sent?
  {
    assert Positive([a]) == [a];
    assert SortByCapacity([a]) == [a];
    DiffAgainstNothing([a]);
  }
}
