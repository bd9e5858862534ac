/** The comparison `startPolling` makes between the stored snapshot and the
    freshly fetched sessions when the snapshot is non-empty. */
module SnapshotDiff {
  import opened Wrappers
  import opened Sessions

  /** What one fetched session contributes: itself when its centre is not
      in the snapshot, the snapshot's first session for that centre when
      the capacity differs, nothing when the capacity is the same. */
  function Emit(prior: seq<Session>, c: Session): (e: seq<Session>)
    ensures |e| <= 1
    ensures e == [] <==>
      c.center_id in Ids(prior) &&
      FirstWithId(prior, c.center_id).value.available_capacity == c.available_capacity
    ensures |e| == 1 ==> Explains(prior, c, e[0])
  {
    match FirstWithId(prior, c.center_id)
    case None => [c]
    case Some(m) => if m.available_capacity != c.available_capacity then [m] else []
  }

  /** The delta: the contributions of the fetched sessions, in fetch order. */
  function Diff(prior: seq<Session>, current: seq<Session>): (d: seq<Session>)
    ensures |d| <= |current|
  {
    if |current| == 0 then []
    else Emit(prior, current[0]) + Diff(prior, current[1..])
  }

  /** `x` is what fetched session `c` contributes to the delta. */
  predicate Explains(prior: seq<Session>, c: Session, x: Session)
  {
    || (c.center_id !in Ids(prior) && x == c)
    || (FirstWithId(prior, c.center_id) == Some(x) && x.available_capacity != c.available_capacity)
  }

  lemma {:induction false} DiffAppend(prior: seq<Session>, a: seq<Session>, b: seq<Session>)
    ensures Diff(prior, a + b) == Diff(prior, a) + Diff(prior, b)
  {
    if |a| > 0 {
      DiffAppend(prior, a[1..], b);
      assert (a + b)[1..] == a[1..] + b;
    } else {
      assert a + b == b;
    }
  }

  /** The `for ... of` loop of `startPolling`, pushing onto `output`. */
  method DiffLoop(prior: seq<Session>, current: seq<Session>) returns (output: seq<Session>)
    ensures output == Diff(prior, current)
  {
    output := [];
    for i := 0 to |current|
      invariant output == Diff(prior, current[..i])
    {
      var center := current[i];
      var matched := FirstWithId(prior, center.center_id);
      if matched.None? {
        output := output + [center];
      } else if matched.value.available_capacity != center.available_capacity {
        output := output + [matched.value];
      }
      DiffAppend(prior, current[..i], [center]);
      assert current[..i + 1] == current[..i] + [center];
    }
    assert current[..|current|] == current;
  }

  /** A fetched session whose centre is not in the snapshot is reported
      unchanged. */
  lemma {:induction false} NewSessionReported(prior: seq<Session>, current: seq<Session>, k: nat)
    requires k < |current|
    requires current[k].center_id !in Ids(prior)
    ensures current[k] in Diff(prior, current)
  {
    if k > 0 {
      NewSessionReported(prior, current[1..], k - 1);
    }
  }

  /** A fetched session whose capacity differs from the snapshot's first
      session for its centre makes that snapshot session, with its old
      capacity, appear in the delta. */
  lemma {:induction false} ChangedSessionReportsPrior(prior: seq<Session>, current: seq<Session>, k: nat, m: Session)
    requires k < |current|
    requires FirstWithId(prior, current[k].center_id) == Some(m)
    requires m.available_capacity != current[k].available_capacity
    ensures m in Diff(prior, current)
  {
    if k > 0 {
      ChangedSessionReportsPrior(prior, current[1..], k - 1, m);
    }
  }

  /** Every session of the delta is explained by some fetched session. */
  lemma {:induction false} DiffSound(prior: seq<Session>, current: seq<Session>, x: Session)
    requires x in Diff(prior, current)
    ensures exists k :: 0 <= k < |current| && Explains(prior, current[k], x)
  {
    if x in Emit(prior, current[0]) {
      assert Explains(prior, current[0], x);
    } else {
      DiffSound(prior, current[1..], x);
      var k :| 0 <= k < |current[1..]| && Explains(prior, current[1..][k], x);
      assert current[k + 1] == current[1..][k];
    }
  }

  /** The delta is empty exactly when every fetched session's centre is in
      the snapshot and its first session there has the same capacity. */
  lemma {:induction false} DiffEmptyIff(prior: seq<Session>, current: seq<Session>)
    ensures Diff(prior, current) == [] <==>
      forall k :: 0 <= k < |current| ==>
        FirstWithId(prior, current[k].center_id).Some? &&
        FirstWithId(prior, current[k].center_id).value.available_capacity == current[k].available_capacity
  {
    if |current| > 0 {
      DiffEmptyIff(prior, current[1..]);
      assert forall k :: 1 <= k < |current| ==> current[k] == current[1..][k - 1];
    }
  }

  /** Every reported session belongs to the centre of the fetched session
      it stands for, so the delta's centres are among the fetched ones. */
  lemma {:induction false} DiffIdsWithin(prior: seq<Session>, current: seq<Session>)
    ensures Ids(Diff(prior, current)) <= Ids(current)
  {
    if |current| > 0 {
      DiffIdsWithin(prior, current[1..]);
      var e := Emit(prior, current[0]);
      assert Ids(e) <= {current[0].center_id};
      assert Ids(current) == {current[0].center_id} + Ids(current[1..]) by {
        assert current == [current[0]] + current[1..];
      }
      var d := Diff(prior, current);
      assert forall y :: y in d ==> y in e || y in Diff(prior, current[1..]);
    }
  }

  /** When the fetch lists each centre once, the delta reports each centre
      at most once. */
  lemma {:induction false} DiffDistinct(prior: seq<Session>, current: seq<Session>)
    requires DistinctIds(current)
    ensures DistinctIds(Diff(prior, current))
  {
    if |current| > 0 {
      assert current == [current[0]] + current[1..];
      DistinctCons(current[0], current[1..]);
      DiffDistinct(prior, current[1..]);
      DiffIdsWithin(prior, current[1..]);
      var e := Emit(prior, current[0]);
      if |e| == 1 {
        assert e[0].center_id == current[0].center_id;
        DistinctCons(e[0], Diff(prior, current[1..]));
        assert e == [e[0]];
      }
    }
  }

  /** Against an empty list every fetched session is new. */
  lemma {:induction false} DiffAgainstNothing(current: seq<Session>)
    ensures Diff([], current) == current
  {
    if |current| > 0 {
      DiffAgainstNothing(current[1..]);
      assert current == [current[0]] + current[1..];
    }
  }

  /** Comparing a list without repeated centres with itself reports
      nothing. */
  lemma SelfDiffEmpty(s: seq<Session>)
    requires DistinctIds(s)
    ensures Diff(s, s) == []
  {
    forall k | 0 <= k < |s|
      ensures FirstWithId(s, s[k].center_id) == Some(s[k])
    {
      FirstWithIdOfMember(s, k);
    }
    DiffEmptyIff(s, s);
  }

  /** Without distinct centres the self-comparison is not quiet: two
      sessions of one centre with different capacities make the second
      report the first. */
  lemma SelfDiffWithRepeatedCentre()
    ensures
      var a := Session(1, "A", "Street", 3, 18, "X");
      var b := Session(1, "A", "Street", 5, 18, "X");
      Diff([a, b], [a, b]) == [a]
  {
  }
}
