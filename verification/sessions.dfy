/** The session record returned by the availability API and stored in the
    snapshot, together with the per-centre lookup the diff relies on. */
module Sessions {
  import opened Wrappers

  /** One vaccination centre's slot for the day. Only `center_id` and
      `available_capacity` take part in any decision; the other fields are
      carried through to the notification text. */
  datatype Session = Session(
    center_id: int,
    name: string,
    address: string,
    available_capacity: int,
    min_age_limit: int,
    vaccine: string)

  /** The centre ids occurring in a list of sessions. */
  function Ids(s: seq<Session>): set<int>
  {
    set x | x in s :: x.center_id
  }

  /** No two sessions of the list belong to the same centre. */
  predicate DistinctIds(s: seq<Session>)
  {
    forall i, j :: 0 <= i < j < |s| ==> s[i].center_id != s[j].center_id
  }

  /** `Array.prototype.find` with the predicate `x.center_id === id`: the
      first session of `s` for that centre, if any. */
  function FirstWithId(s: seq<Session>, id: int): (r: Option<Session>)
    ensures r.None? <==> id !in Ids(s)
    ensures r.Some? ==>
      exists i :: 0 <= i < |s| && s[i] == r.value && s[i].center_id == id &&
        forall j :: 0 <= j < i ==> s[j].center_id != id
  {
    if |s| == 0 then None
    else if s[0].center_id == id then Some(s[0])
    else
      var r := FirstWithId(s[1..], id);
      assert Ids(s) == {s[0].center_id} + Ids(s[1..]) by {
        assert forall x :: x in s <==> x == s[0] || x in s[1..];
      }
      if r.Some? then
        var i :| 0 <= i < |s[1..]| && s[1..][i] == r.value && s[1..][i].center_id == id &&
          forall j :: 0 <= j < i ==> s[1..][j].center_id != id;
        assert s[i + 1] == r.value;
        r
      else r
  }

  /** In a list without repeated centres, looking up the centre of one of
      its sessions finds that very session. */
  lemma FirstWithIdOfMember(s: seq<Session>, k: nat)
    requires DistinctIds(s)
    requires k < |s|
    ensures FirstWithId(s, s[k].center_id) == Some(s[k])
  {
  }

  /** A list headed by `x` has no repeated centre exactly when its tail has
      none and does not contain `x`'s centre. */
  lemma DistinctCons(x: Session, s: seq<Session>)
    ensures DistinctIds([x] + s) <==> x.center_id !in Ids(s) && DistinctIds(s)
  {
    var t := [x] + s;
    assert forall k :: 0 <= k < |s| ==> t[k + 1] == s[k];
    if x.center_id in Ids(s) {
      var y :| y in s && y.center_id == x.center_id;
      var k :| 0 <= k < |s| && s[k] == y;
      assert t[0].center_id == t[k + 1].center_id;
    }
    if DistinctIds(t) {
      forall i, j | 0 <= i < j < |s|
        ensures s[i].center_id != s[j].center_id
      {
        assert t[i + 1].center_id != t[j + 1].center_id;
      }
    }
  }
}
