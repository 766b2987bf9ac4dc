/** The order in which `report` lists the seats: a stable sort of the seats
    0, 1, 2, 3 on the key (final points descending, prior points
    descending). Stability makes the seat number the last tie-breaker, so
    the ranking is a strict total order on the seats. */
module Ranking {
  import opened Seats
  import opened Indexing

  /** Every entry names a seat. */
  predicate AllSeats(r: seq<nat>)
  {
    forall p :: 0 <= p < |r| ==> r[p] < 4
  }

  /** The sort key of `a` is smaller than that of `b`: `a` has more final
      points, or as many and more prior points. This is the only
      comparison the sort makes. */
  predicate KeyBefore(points: Vec4, prior: Vec4, a: nat, b: nat)
    requires a < 4 && b < 4
  {
    points[a] > points[b] || (points[a] == points[b] && prior[a] > prior[b])
  }

  /** Seat `a` is listed before seat `b`: by key, and on equal keys by the
      lower seat number. */
  predicate Outranks(points: Vec4, prior: Vec4, a: nat, b: nat)
    requires a < 4 && b < 4
  {
    KeyBefore(points, prior, a, b)
    || (points[a] == points[b] && prior[a] == prior[b] && a < b)
  }

  /** Every seat listed earlier outranks every seat listed later. */
  predicate Ordered(points: Vec4, prior: Vec4, r: seq<nat>)
    requires AllSeats(r)
  {
    forall p, q :: 0 <= p < q < |r| ==> Outranks(points, prior, r[p], r[q])
  }

  /** A ranking lists each of the four seats once, best first. */
  predicate IsRanking(points: Vec4, prior: Vec4, r: seq<nat>)
  {
    && |r| == 4
    && AllSeats(r)
    && multiset(r) == multiset{0, 1, 2, 3}
    && Ordered(points, prior, r)
  }

  lemma OutranksTransitive(points: Vec4, prior: Vec4, a: nat, b: nat, c: nat)
    requires a < 4 && b < 4 && c < 4
    requires Outranks(points, prior, a, b) && Outranks(points, prior, b, c)
    ensures Outranks(points, prior, a, c)
  {
  }

  /** Stable insertion of seat `x` into a sorted list: it moves in front of
      a listed seat only when its key is strictly smaller. */
  function InsertSeat(points: Vec4, prior: Vec4, x: nat, r: seq<nat>): (q: seq<nat>)
    requires x < 4 && AllSeats(r)
    ensures |q| == |r| + 1
    ensures AllSeats(q)
    ensures multiset(q) == multiset(r) + multiset{x}
  {
    if r == [] then [x]
    else
      var last := r[|r| - 1];
      if !KeyBefore(points, prior, x, last) then
        r + [x]
      else
        assert r == r[..|r| - 1] + [last];
        InsertSeat(points, prior, x, r[..|r| - 1]) + [last]
  }

  /** Inserting a seat numbered above every listed seat keeps the list
      ordered: equal keys leave it behind the lower-numbered seats. */
  lemma {:induction false} InsertOrdered(points: Vec4, prior: Vec4, x: nat, r: seq<nat>)
    requires x < 4 && AllSeats(r)
    requires Ordered(points, prior, r)
    requires forall p :: 0 <= p < |r| ==> r[p] < x
    ensures Ordered(points, prior, InsertSeat(points, prior, x, r))
  {
    if r != [] {
      var last := r[|r| - 1];
      var init := r[..|r| - 1];
      var q := InsertSeat(points, prior, x, r);
      if !KeyBefore(points, prior, x, last) {
        assert Outranks(points, prior, last, x);
        forall p | 0 <= p < |r|
          ensures Outranks(points, prior, r[p], x)
        {
          if p < |r| - 1 {
            OutranksTransitive(points, prior, r[p], last, x);
          }
        }
        assert q == r + [x];
      } else {
        InsertOrdered(points, prior, x, init);
        var front := InsertSeat(points, prior, x, init);
        assert q == front + [last];
        forall p | 0 <= p < |front|
          ensures Outranks(points, prior, front[p], last)
        {
          assert front[p] in multiset(init) + multiset{x};
          if front[p] != x {
            var m :| 0 <= m < |init| && init[m] == front[p];
          }
        }
      }
    }
  }

  /** Insertion sort of the seats in the order given. */
  function SortSeats(points: Vec4, prior: Vec4, seats: seq<nat>): (r: seq<nat>)
    requires AllSeats(seats)
    ensures |r| == |seats|
    ensures AllSeats(r)
    ensures multiset(r) == multiset(seats)
  {
    if seats == [] then []
    else
      assert seats == seats[..|seats| - 1] + [seats[|seats| - 1]];
      InsertSeat(points, prior, seats[|seats| - 1], SortSeats(points, prior, seats[..|seats| - 1]))
  }

  /** Sorting seats given in increasing order lists them by rank. */
  lemma {:induction false} SortSeatsOrdered(points: Vec4, prior: Vec4, seats: seq<nat>)
    requires AllSeats(seats) && Increasing(seats)
    ensures Ordered(points, prior, SortSeats(points, prior, seats))
  {
    if seats != [] {
      var init := seats[..|seats| - 1];
      var x := seats[|seats| - 1];
      SortSeatsOrdered(points, prior, init);
      var sorted := SortSeats(points, prior, init);
      forall p | 0 <= p < |sorted|
        ensures sorted[p] < x
      {
        assert sorted[p] in multiset(init);
        var m :| 0 <= m < |init| && init[m] == sorted[p];
      }
      InsertOrdered(points, prior, x, sorted);
    }
  }

  /** The ranking `report` computes from the final and the prior points. */
  function RankSeats(points: Vec4, prior: Vec4): (r: seq<nat>)
    ensures IsRanking(points, prior, r)
  {
    SortSeatsOrdered(points, prior, [0, 1, 2, 3]);
    SortSeats(points, prior, [0, 1, 2, 3])
  }

  /** Two lists of the same seats, each ordered by rank, are the same list:
      the ranking does not depend on how the stable sort proceeds. */
  lemma {:induction false} OrderedUnique(points: Vec4, prior: Vec4, a: seq<nat>, b: seq<nat>)
    requires AllSeats(a) && AllSeats(b)
    requires Ordered(points, prior, a) && Ordered(points, prior, b)
    requires multiset(a) == multiset(b)
    ensures a == b
  {
    assert |a| == |multiset(a)| == |multiset(b)| == |b|;
    if a != [] {
      FirstAgree(points, prior, a, b);
      TailsAgree(a, b);
      OrderedTail(points, prior, a);
      OrderedTail(points, prior, b);
      OrderedUnique(points, prior, a[1..], b[1..]);
      assert a == [a[0]] + a[1..] && b == [b[0]] + b[1..];
    }
  }

  /** Two ordered lists of the same seats start with the same seat. */
  lemma FirstAgree(points: Vec4, prior: Vec4, a: seq<nat>, b: seq<nat>)
    requires a != [] && AllSeats(a) && AllSeats(b)
    requires Ordered(points, prior, a) && Ordered(points, prior, b)
    requires multiset(a) == multiset(b)
    ensures b != [] && a[0] == b[0]
  {
    assert a[0] in multiset(b) && b[0] in multiset(a);
    OrderedFirst(points, prior, a, b[0]);
    OrderedFirst(points, prior, b, a[0]);
  }

  /** Removing the same first element leaves the same multiset. */
  lemma TailsAgree(a: seq<nat>, b: seq<nat>)
    requires a != [] && b != [] && a[0] == b[0]
    requires multiset(a) == multiset(b)
    ensures multiset(a[1..]) == multiset(b[1..])
  {
    assert a == [a[0]] + a[1..] && b == [b[0]] + b[1..];
    assert multiset(a[1..]) == multiset(a) - multiset{a[0]};
    assert multiset(b[1..]) == multiset(b) - multiset{b[0]};
  }

  /** The first seat of an ordered list outranks every other seat in it. */
  lemma OrderedFirst(points: Vec4, prior: Vec4, a: seq<nat>, x: nat)
    requires AllSeats(a) && Ordered(points, prior, a)
    requires x in multiset(a)
    ensures a[0] == x || (x < 4 && Outranks(points, prior, a[0], x))
  {
    var j :| 0 <= j < |a| && a[j] == x;
  }

  lemma OrderedTail(points: Vec4, prior: Vec4, a: seq<nat>)
    requires a != [] && AllSeats(a) && Ordered(points, prior, a)
    ensures AllSeats(a[1..]) && Ordered(points, prior, a[1..])
  {
    var t := a[1..];
    assert forall p :: 0 <= p < |t| ==> t[p] == a[p + 1];
  }

  /** Exactly one list is a ranking. */
  lemma RankingUnique(points: Vec4, prior: Vec4, r: seq<nat>)
    requires IsRanking(points, prior, r)
    ensures r == RankSeats(points, prior)
  {
    OrderedUnique(points, prior, r, RankSeats(points, prior));
  }
}
