/** What `fetchTodayVaccineData` makes of the availability API's answer:
    the sessions with free capacity, highest capacity first. */
module Availability {
  import opened Wrappers
  import opened Sessions

  /** `sessions.filter(x => x.available_capacity > 0)`. */
  function Positive(s: seq<Session>): seq<Session>
  {
    if |s| == 0 then []
    else if s[0].available_capacity > 0 then [s[0]] + Positive(s[1..])
    else Positive(s[1..])
  }

  /** The sessions of `s` with capacity `c`, in their order in `s`. */
  function WithCapacity(s: seq<Session>, c: int): seq<Session>
  {
    if |s| == 0 then []
    else if s[0].available_capacity == c then [s[0]] + WithCapacity(s[1..], c)
    else WithCapacity(s[1..], c)
  }

  /** The order the comparator `(a, b) => b.available_capacity -
      a.available_capacity` asks for: capacity never increases. */
  predicate NonIncreasing(s: seq<Session>)
  {
    forall i, j :: 0 <= i < j < |s| ==> s[i].available_capacity >= s[j].available_capacity
  }

  /** Places `x`, which comes before every element of `s` in the input,
      ahead of the first session whose capacity does not exceed its own, so
      that sessions of equal capacity keep their input order. */
  function Insert(x: Session, s: seq<Session>): (r: seq<Session>)
    requires NonIncreasing(s)
    ensures NonIncreasing(r)
    ensures multiset(r) == multiset(s) + multiset{x}
  {
    if |s| == 0 || x.available_capacity >= s[0].available_capacity then [x] + s
    else
      var rest := Insert(x, s[1..]);
      assert s == [s[0]] + s[1..];
      assert forall j :: 0 <= j < |s[1..]| ==> s[1..][j] == s[j + 1];
      BoundedByHead(rest, s[1..], x, s[0].available_capacity);
      [s[0]] + rest
  }

  /** A rearrangement of `s` plus `x` stays within any capacity bound that
      `s` and `x` respect. */
  lemma BoundedByHead(r: seq<Session>, s: seq<Session>, x: Session, top: int)
    requires multiset(r) == multiset(s) + multiset{x}
    requires forall j :: 0 <= j < |s| ==> s[j].available_capacity <= top
    requires x.available_capacity <= top
    ensures forall i :: 0 <= i < |r| ==> r[i].available_capacity <= top
  {
    forall i | 0 <= i < |r|
      ensures r[i].available_capacity <= top
    {
      assert r[i] in multiset(r);
      if r[i] != x {
        assert r[i] in s;
      }
    }
  }

  /** `Array.prototype.sort` with the capacity comparator, a stable sort. */
  function SortByCapacity(s: seq<Session>): (r: seq<Session>)
    ensures NonIncreasing(r)
    ensures multiset(r) == multiset(s)
  {
    if |s| == 0 then []
    else
      assert s == [s[0]] + s[1..];
      Insert(s[0], SortByCapacity(s[1..]))
  }

  /** The sessions the fetcher returns for one API answer; a failed request
      or an unreadable body (`None`) yields the empty list. */
  function Normalise(response: Option<seq<Session>>): (r: seq<Session>)
    ensures response.None? ==> r == []
    ensures NonIncreasing(r)
    ensures forall i :: 0 <= i < |r| ==> r[i].available_capacity > 0
  {
    if response.Some? then
      var p := Positive(response.value);
      forall i | 0 <= i < |SortByCapacity(p)|
        ensures SortByCapacity(p)[i].available_capacity > 0
      {
        var y := SortByCapacity(p)[i];
        assert y in multiset(SortByCapacity(p));
        PositiveCounts(response.value, y);
      }
      SortByCapacity(p)
    else []
  }

  /** The filter keeps the order of the sessions it keeps: for a positive
      capacity it keeps all sessions of that capacity in input order, and
      for any other capacity none. */
  lemma {:induction false} PositiveWithCapacity(s: seq<Session>, c: int)
    ensures WithCapacity(Positive(s), c) == if c > 0 then WithCapacity(s, c) else []
  {
    if |s| > 0 {
      PositiveWithCapacity(s[1..], c);
      if s[0].available_capacity > 0 {
        assert ([s[0]] + Positive(s[1..]))[1..] == Positive(s[1..]);
      }
    }
  }

  /** Each session occurs in the filtered list exactly as often as in the
      input if it has free capacity, and not at all otherwise. */
  lemma {:induction false} PositiveCounts(s: seq<Session>, x: Session)
    ensures multiset(Positive(s))[x] == if x.available_capacity > 0 then multiset(s)[x] else 0
  {
    if |s| > 0 {
      PositiveCounts(s[1..], x);
      assert s == [s[0]] + s[1..];
    }
  }

  /** The filter introduces no centre that the input does not hold. */
  lemma {:induction false} PositiveIdsWithin(s: seq<Session>)
    ensures Ids(Positive(s)) <= Ids(s)
  {
    if |s| > 0 {
      PositiveIdsWithin(s[1..]);
      assert s == [s[0]] + s[1..];
      assert Ids(s) == {s[0].center_id} + Ids(s[1..]);
      if s[0].available_capacity > 0 {
        var r := Positive(s);
        assert forall y :: y in r <==> y == s[0] || y in Positive(s[1..]);
      }
    }
  }

  lemma {:induction false} PositiveDistinct(s: seq<Session>)
    requires DistinctIds(s)
    ensures DistinctIds(Positive(s))
  {
    if |s| > 0 {
      assert s == [s[0]] + s[1..];
      DistinctCons(s[0], s[1..]);
      PositiveDistinct(s[1..]);
      if s[0].available_capacity > 0 {
        PositiveIdsWithin(s[1..]);
        DistinctCons(s[0], Positive(s[1..]));
      }
    }
  }

  lemma {:induction false} InsertDistinct(x: Session, s: seq<Session>)
    requires NonIncreasing(s)
    requires DistinctIds(s)
    requires x.center_id !in Ids(s)
    ensures DistinctIds(Insert(x, s))
  {
    DistinctCons(x, s);
    if |s| > 0 && x.available_capacity < s[0].available_capacity {
      assert s == [s[0]] + s[1..];
      DistinctCons(s[0], s[1..]);
      assert Ids(s) == {s[0].center_id} + Ids(s[1..]);
      InsertDistinct(x, s[1..]);
      var rest := Insert(x, s[1..]);
      assert Ids(rest) == {x.center_id} + Ids(s[1..]) by {
        forall y ensures y in rest <==> y == x || y in s[1..] {
          assert y in rest <==> y in multiset(rest);
          assert y in s[1..] <==> y in multiset(s[1..]);
        }
      }
      DistinctCons(s[0], rest);
    }
  }

  lemma {:induction false} SortDistinct(s: seq<Session>)
    requires DistinctIds(s)
    ensures DistinctIds(SortByCapacity(s))
  {
    if |s| > 0 {
      assert s == [s[0]] + s[1..];
      DistinctCons(s[0], s[1..]);
      SortDistinct(s[1..]);
      var t := SortByCapacity(s[1..]);
      assert Ids(t) == Ids(s[1..]) by {
        forall y ensures y in t <==> y in s[1..] {
          assert y in t <==> y in multiset(t);
          assert y in s[1..] <==> y in multiset(s[1..]);
        }
      }
      InsertDistinct(s[0], t);
    }
  }

  /** When each centre occurs at most once in the answer, it occurs at most
      once in what the fetcher returns. */
  lemma NormaliseDistinct(sessions: seq<Session>)
    requires DistinctIds(sessions)
    ensures DistinctIds(Normalise(Some(sessions)))
  {
    PositiveDistinct(sessions);
    SortDistinct(Positive(sessions));
  }

  lemma {:induction false} InsertStable(x: Session, s: seq<Session>, c: int)
    requires NonIncreasing(s)
    ensures WithCapacity(Insert(x, s), c) == WithCapacity([x] + s, c)
  {
    if |s| == 0 || x.available_capacity >= s[0].available_capacity {
    } else {
      InsertStable(x, s[1..], c);
      var rest := Insert(x, s[1..]);
      assert ([s[0]] + rest)[1..] == rest;
      assert ([x] + s[1..])[1..] == s[1..];
      assert ([x] + s)[1..] == s;
      assert s == [s[0]] + s[1..];
    }
  }

  /** The sort is stable: for every capacity, the sessions with that
      capacity appear in the same relative order as in the input. */
  lemma {:induction false} SortStable(s: seq<Session>, c: int)
    ensures WithCapacity(SortByCapacity(s), c) == WithCapacity(s, c)
  {
    if |s| > 0 {
      SortStable(s[1..], c);
      InsertStable(s[0], SortByCapacity(s[1..]), c);
      var t := SortByCapacity(s[1..]);
      assert ([s[0]] + t)[1..] == t;
    }
  }

  /** The fetcher's result for a readable answer: exactly the sessions with
      free capacity (each as often as in the answer), highest capacity
      first, and sessions of equal capacity in their order in the answer. */
  lemma NormaliseSpec(sessions: seq<Session>)
    ensures NonIncreasing(Normalise(Some(sessions)))
    ensures forall x :: multiset(Normalise(Some(sessions)))[x] ==
                        (if x.available_capacity > 0 then multiset(sessions)[x] else 0)
    ensures forall c :: WithCapacity(Normalise(Some(sessions)), c) ==
                        (if c > 0 then WithCapacity(sessions, c) else [])
  {
    forall x
      ensures multiset(Normalise(Some(sessions)))[x] ==
        if x.available_capacity > 0 then multiset(sessions)[x] else 0
    {
      PositiveCounts(sessions, x);
    }
    forall c
      ensures WithCapacity(Normalise(Some(sessions)), c) ==
        (if c > 0 then WithCapacity(sessions, c) else [])
    {
      SortStable(Positive(sessions), c);
      PositiveWithCapacity(sessions, c);
    }
  }
}
