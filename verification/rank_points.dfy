/** The rank-based redistribution of the last game (`GameConfig` and
    `GameConfig::to_points`): raw scores are sorted, every distinct score
    forms a tie group, and each group receives the rank awards of the sorted
    positions it occupies, plus the deposit if it holds first place, split
    among its seats by Euclidean division. */
module RankPoints {
  import opened Seats
  import opened Order
  import opened Indexing

  /** Point awards for finishing 1st, 2nd, 3rd and 4th. */
  datatype GameConfig = GameConfig(rankScores: Vec4)
  {
    /** The invariant `GameConfig::new` enforces: the awards sum to -1000,
        cancelling the 1000 units of raw score on the table. */
    predicate Valid()
    {
      Sum(rankScores) == -1000
    }
  }

  /** `GameConfig::new`: accepts exactly the award vectors summing to -1000. */
  function NewConfig(rankScores: Vec4): (r: Option<GameConfig>)
    ensures r.Some? <==> Sum(rankScores) == -1000
    ensures r.Some? ==> r.value.rankScores == rankScores && r.value.Valid()
  {
    if Sum(rankScores) == -1000 then Some(GameConfig(rankScores)) else None
  }

  /** The M-League preset, built through the validating constructor. */
  function MLeague(): (c: GameConfig)
    ensures c.Valid()
    ensures c.rankScores == [200, -200, -400, -600]
  {
    Sum4([200, -200, -400, -600]);
    NewConfig([200, -200, -400, -600]).value
  }

  // ---------------------------------------------------------------------
  // The algorithm as `to_points` runs it
  // ---------------------------------------------------------------------

  /** The inner loop of `distribute`: adds `d` to every seat listed in
      `people` (AddToEachSeat and AddToEachSum state its effect). */
  function AddToEach(points: Vec4, people: seq<nat>, d: int): Vec4
    requires forall m :: 0 <= m < |people| ==> people[m] < 4
    decreases |people|
  {
    if people == [] then points
    else AddToEach(points[people[0] := points[people[0]] + d], people[1..], d)
  }

  /** A listed seat gains `d` once, any other seat nothing. */
  lemma {:induction false} AddToEachSeat(points: Vec4, people: seq<nat>, d: int, k: nat)
    requires Increasing(people) && forall m :: 0 <= m < |people| ==> people[m] < 4
    requires k < 4
    ensures AddToEach(points, people, d)[k] == points[k] + (if k in people then d else 0)
    decreases |people|
  {
    if people != [] {
      var next := points[people[0] := points[people[0]] + d];
      assert Increasing(people[1..]);
      assert k in people <==> k == people[0] || k in people[1..];
      assert k == people[0] ==> k !in people[1..];
      AddToEachSeat(next, people[1..], d, k);
    }
  }

  /** The total gains `d` per listed seat. */
  lemma {:induction false} AddToEachSum(points: Vec4, people: seq<nat>, d: int)
    requires forall m :: 0 <= m < |people| ==> people[m] < 4
    ensures Sum(AddToEach(points, people, d)) == Sum(points) + |people| * d
    decreases |people|
  {
    if people != [] {
      var next := points[people[0] := points[people[0]] + d];
      SumAdd(points, people[0], d);
      AddToEachSum(next, people[1..], d);
      assert |people| * d == d + |people[1..]| * d;
    }
  }

  /** The `distribute` closure: every seat of `people` receives
      `amount div |people|` and the first listed seat, the lowest index,
      also receives `amount mod |people|`. */
  function Distribute(points: Vec4, people: seq<nat>, amount: int): (r: Vec4)
    requires 0 < |people|
    requires Increasing(people) && forall m :: 0 <= m < |people| ==> people[m] < 4
    ensures Sum(r) == Sum(points) + amount
    ensures forall k :: 0 <= k < 4 ==>
      r[k] == points[k] + (if k in people then amount / |people| else 0)
                        + (if k == people[0] then amount % |people| else 0)
  {
    var count := |people|;
    var q, m := amount / count, amount % count;
    var shared := AddToEach(points, people, q);
    AddToEachSum(points, people, q);
    SumAdd(shared, people[0], m);
    assert count * q + m == amount;
    assert forall k :: 0 <= k < 4 ==> shared[k] == points[k] + (if k in people then q else 0) by {
      forall k | 0 <= k < 4 {
        AddToEachSeat(points, people, q, k);
      }
    }
    shared[people[0] := shared[people[0]] + m]
  }

  /** One pass of the loop over distinct scores: the group holding `score`
      occupies the sorted positions `ranks` and the seats `people`. Seats
      outside the group keep their points. */
  function AwardGroup(cfg: GameConfig, scores: Vec4, sorted: Vec4, deposit: int,
                      score: int, points: Vec4): (r: Vec4)
    requires SortedOf(sorted, scores) && score in scores
  {
    SortedSameValues(sorted, scores);
    var ranks := Positions(sorted, score);
    var people := Positions(scores, score);
    PositionsSpec(sorted, score);
    PositionsSpec(scores, score);
    var afterRank := Distribute(points, people, SumAt(cfg.rankScores, ranks));
    if ranks[0] == 0 then Distribute(afterRank, people, deposit * 10) else afterRank
  }

  /** The loop over the distinct scores `values`, in order. A seat whose
      score is not among them is never touched. */
  function AwardGroups(cfg: GameConfig, scores: Vec4, sorted: Vec4, deposit: int,
                       values: seq<int>, points: Vec4): (r: Vec4)
    requires SortedOf(sorted, scores)
    requires forall m :: 0 <= m < |values| ==> values[m] in scores
    decreases |values|
  {
    if values == [] then points
    else
      AwardGroups(cfg, scores, sorted, deposit, values[1..],
                  AwardGroup(cfg, scores, sorted, deposit, values[0], points))
  }

  /** `GameConfig::to_points`: the final points of the four seats. They
      always sum to zero, and they are exactly the points described without
      sorting by ReferencePoints. */
  method ToPoints(cfg: GameConfig, scores: Vec4, deposit: int) returns (r: Vec4)
    requires cfg.Valid()
    requires deposit >= 0
    requires Sum(scores) + deposit * 10 == 1000
    ensures Sum(r) == 0
    ensures r == ReferencePoints(cfg, scores, deposit)
  {
    var sorted: Vec4 := SortDesc(scores);
    r := PointsFromSorted(cfg, scores, sorted, deposit);
  }

  /** The loop of `to_points` once the scores have been sorted. */
  function PointsFromSorted(cfg: GameConfig, scores: Vec4, sorted: Vec4, deposit: int): (r: Vec4)
    requires cfg.Valid()
    requires SortedOf(sorted, scores)
    requires Sum(scores) + deposit * 10 == 1000
    ensures Sum(r) == 0
    ensures r == ReferencePoints(cfg, scores, deposit)
  {
    SortedSameValues(sorted, scores);
    AllGroupsSum(cfg, scores, sorted, deposit);
    AllGroupsSeats(cfg, scores, sorted, deposit);
    AwardGroups(cfg, scores, sorted, deposit, Dedup(sorted), scores)
  }

  /** Zero-sum stated of the points described without sorting. */
  lemma ReferenceZeroSum(cfg: GameConfig, scores: Vec4, deposit: int)
    requires cfg.Valid()
    requires Sum(scores) + deposit * 10 == 1000
    ensures Sum(ReferencePoints(cfg, scores, deposit)) == 0
  {
    var sorted: Vec4 := SortDesc(scores);
    var r := PointsFromSorted(cfg, scores, sorted, deposit);
  }

  // ---------------------------------------------------------------------
  // The outcome described without sorting
  // ---------------------------------------------------------------------

  /** Number of seats with a strictly higher raw score than seat `i`: the
      first sorted position of seat i's tie group. */
  function Above(scores: Vec4, i: nat): nat
    requires i < 4
  {
    CountAbove(scores, scores[i])
  }

  /** Number of seats sharing seat i's raw score, seat i included. */
  function Tied(scores: Vec4, i: nat): (n: nat)
    requires i < 4
    ensures 1 <= n && Above(scores, i) + n <= 4
  {
    CountAtLeast(scores, scores[i]);
    CountEq(scores, scores[i])
  }

  /** Seat `i` is the lowest-numbered seat of its tie group. */
  predicate LeadsTie(scores: Vec4, i: nat)
    requires i < 4
  {
    forall j :: 0 <= j < i ==> scores[j] != scores[i]
  }

  /** One seat's part of `amount` split among `count` seats. */
  function Split(amount: int, count: nat, lead: bool): int
    requires count > 0
  {
    amount / count + (if lead then amount % count else 0)
  }

  /** The rank awards of the sorted positions occupied by the seats holding
      `v`: the block that starts after the seats above `v` and is as long as
      the number of seats holding `v`. */
  function GroupAward(cfg: GameConfig, scores: Vec4, v: int): int
  {
    CountAtLeast(scores, v);
    var a := CountAbove(scores, v);
    SumRange(cfg.rankScores, a, a + CountEq(scores, v))
  }

  function RankShare(cfg: GameConfig, scores: Vec4, i: nat): int
    requires i < 4
  {
    Split(GroupAward(cfg, scores, scores[i]), Tied(scores, i), LeadsTie(scores, i))
  }

  /** Only a seat with nobody above it shares the deposit. */
  function DepositShare(scores: Vec4, deposit: int, i: nat): int
    requires i < 4
  {
    if Above(scores, i) == 0 then Split(deposit * 10, Tied(scores, i), LeadsTie(scores, i)) else 0
  }

  /** Raw score plus rank share plus deposit share. */
  function SeatPoints(cfg: GameConfig, scores: Vec4, deposit: int, i: nat): int
    requires i < 4
  {
    scores[i] + RankShare(cfg, scores, i) + DepositShare(scores, deposit, i)
  }

  /** The final points of the four seats, described without sorting: the
      reference ToPoints is proved to compute. */
  function ReferencePoints(cfg: GameConfig, scores: Vec4, deposit: int): Vec4
  {
    [SeatPoints(cfg, scores, deposit, 0), SeatPoints(cfg, scores, deposit, 1),
     SeatPoints(cfg, scores, deposit, 2), SeatPoints(cfg, scores, deposit, 3)]
  }

  /** Within a tie group, the seats other than the lowest-numbered one end
      level with each other, and the lowest-numbered one ends at least as
      high as any of them: its extra is the non-negative Euclidean
      remainders. */
  lemma TiedSeatsLevel(cfg: GameConfig, scores: Vec4, deposit: int, a: nat, b: nat)
    requires a < 4 && b < 4 && scores[a] == scores[b]
    ensures !LeadsTie(scores, a) && !LeadsTie(scores, b) ==>
      ReferencePoints(cfg, scores, deposit)[a] == ReferencePoints(cfg, scores, deposit)[b]
    ensures LeadsTie(scores, a) ==>
      ReferencePoints(cfg, scores, deposit)[a] >= ReferencePoints(cfg, scores, deposit)[b]
  {
  }

  // ---------------------------------------------------------------------
  // Proof that the algorithm meets the description
  // ---------------------------------------------------------------------

  /** The distinct values of the sorted scores are the scores' values, each
      once, starting with the highest. */
  lemma SortedSameValues(sorted: seq<int>, scores: seq<int>)
    requires SortedOf(sorted, scores)
    ensures var values := Dedup(sorted);
      && NoDuplicates(values)
      && (forall x :: x in values <==> x in scores)
      && (forall x :: x in sorted <==> x in scores)
  {
    forall x
      ensures x in sorted <==> x in scores
    {
      assert x in sorted <==> x in multiset(sorted);
      assert x in scores <==> x in multiset(scores);
    }
  }

  lemma SumAtAll(w: Vec4)
    ensures SumAt(w, RangeSeq(0, 4)) == Sum(w)
  {
    SumRangeAt(w, 0, 4);
    assert SumRange(w, 0, 1) == w[0];
    assert SumRange(w, 0, 2) == w[0] + w[1];
    assert SumRange(w, 0, 3) == w[0] + w[1] + w[2];
    assert SumRange(w, 0, 4) == w[0] + w[1] + w[2] + w[3];
    Sum4(w);
  }

  /** The loop over every distinct score hands out all rank awards and the
      whole deposit, so the points sum to zero. */
  lemma AllGroupsSum(cfg: GameConfig, scores: Vec4, sorted: Vec4, deposit: int)
    requires cfg.Valid()
    requires SortedOf(sorted, scores)
    requires Sum(scores) + deposit * 10 == 1000
    ensures var values := Dedup(sorted);
      && (forall m :: 0 <= m < |values| ==> values[m] in scores)
      && Sum(AwardGroups(cfg, scores, sorted, deposit, values, scores)) == 0
  {
    var values := Dedup(sorted);
    SortedSameValues(sorted, scores);
    AwardGroupsSum(cfg, scores, sorted, deposit, values, scores);
    GroupsTotal(cfg.rankScores, sorted);
  }

  /** The groups of the distinct values of a four-seat vector cover all
      four positions, so their weights add up to the whole weight vector. */
  lemma GroupsTotal(w: Vec4, sorted: Vec4)
    requires Descending(sorted)
    ensures GroupsSum(w, sorted, Dedup(sorted), 4) == Sum(w)
  {
    var values := Dedup(sorted);
    assert forall k :: 0 <= k < 4 ==> sorted[k] in values;
    GroupsCover(w, sorted, values, 4);
    SumAtAll(w);
  }

  /** The loop over every distinct score gives each seat its group's
      share. */
  lemma AllGroupsSeats(cfg: GameConfig, scores: Vec4, sorted: Vec4, deposit: int)
    requires SortedOf(sorted, scores)
    ensures var values := Dedup(sorted);
      && (forall m :: 0 <= m < |values| ==> values[m] in scores)
      && AwardGroups(cfg, scores, sorted, deposit, values, scores)
         == ReferencePoints(cfg, scores, deposit)
  {
    var values := Dedup(sorted);
    SortedSameValues(sorted, scores);
    AwardGroupsSeats(cfg, scores, sorted, deposit, values, scores);
    var r := AwardGroups(cfg, scores, sorted, deposit, values, scores);
    forall k | 0 <= k < 4
      ensures r[k] == SeatPoints(cfg, scores, deposit, k)
    {
      assert scores[k] in values;
    }
    ReferenceSeats(cfg, scores, deposit, r);
  }

  /** A vector that agrees with every seat's reference points is the
      reference vector. */
  lemma ReferenceSeats(cfg: GameConfig, scores: Vec4, deposit: int, r: Vec4)
    requires forall k :: 0 <= k < 4 ==> r[k] == SeatPoints(cfg, scores, deposit, k)
    ensures r == ReferencePoints(cfg, scores, deposit)
  {
    var e := ReferencePoints(cfg, scores, deposit);
    assert forall k :: 0 <= k < 4 ==> r[k] == e[k];
  }

  /** What one group pass does to one seat. */
  lemma AwardGroupSeat(cfg: GameConfig, scores: Vec4, sorted: Vec4, deposit: int, v: int,
                       points: Vec4, k: nat)
    requires SortedOf(sorted, scores) && v in scores && k < 4
    ensures AwardGroup(cfg, scores, sorted, deposit, v, points)[k]
        == points[k] + (if scores[k] == v
                        then RankShare(cfg, scores, k) + DepositShare(scores, deposit, k)
                        else 0)
  {
    if scores[k] == v {
      AwardGroupMember(cfg, scores, sorted, deposit, v, points, k);
    } else {
      AwardGroupOther(cfg, scores, sorted, deposit, v, points, k);
    }
  }

  /** A group pass leaves every seat outside the group as it was. */
  lemma AwardGroupOther(cfg: GameConfig, scores: Vec4, sorted: Vec4, deposit: int, v: int,
                        points: Vec4, k: nat)
    requires SortedOf(sorted, scores) && v in scores && k < 4 && scores[k] != v
    ensures AwardGroup(cfg, scores, sorted, deposit, v, points)[k] == points[k]
  {
    var people := Positions(scores, v);
    PositionsSpec(scores, v);
    assert k !in people;
    assert k != people[0];
  }

  /** What one group pass gives a seat of that group. */
  lemma AwardGroupMember(cfg: GameConfig, scores: Vec4, sorted: Vec4, deposit: int, v: int,
                         points: Vec4, k: nat)
    requires SortedOf(sorted, scores) && k < 4 && scores[k] == v
    ensures AwardGroup(cfg, scores, sorted, deposit, v, points)[k]
        == points[k] + RankShare(cfg, scores, k) + DepositShare(scores, deposit, k)
  {
    SortedSameValues(sorted, scores);
    var a, c := CountAbove(scores, v), CountEq(scores, v);
    GroupRanks(sorted, scores, v);
    var ranks := Positions(sorted, v);
    var people := Positions(scores, v);
    PositionsSpec(scores, v);
    var award := SumAt(cfg.rankScores, ranks);
    var afterRank := Distribute(points, people, award);
    assert |people| == c > 0;
    var lead := people[0] == k;
    assert k in people;
    assert ranks[0] == a;
    var result := AwardGroup(cfg, scores, sorted, deposit, v, points);
    assert result == if a == 0 then Distribute(afterRank, people, deposit * 10) else afterRank;
    assert afterRank[k] == points[k] + award / c + (if lead then award % c else 0);
    if a == 0 {
      var final := Distribute(afterRank, people, deposit * 10);
      assert final[k] == afterRank[k] + (deposit * 10) / c + (if lead then (deposit * 10) % c else 0);
    }
    GroupAwardOfSeat(cfg, scores, sorted, k);
    PositionsFirst(scores, v, k);
    assert lead <==> LeadsTie(scores, k);
  }

  /** The sorted positions of a score are its tie block. */
  lemma GroupRanks(sorted: Vec4, scores: Vec4, v: int)
    requires SortedOf(sorted, scores)
    ensures CountAbove(scores, v) + CountEq(scores, v) <= 4
    ensures var a := CountAbove(scores, v);
      Positions(sorted, v) == RangeSeq(a, a + CountEq(scores, v))
  {
    SortedOfCounts(sorted, scores, v);
    TieBlockPositions(sorted, v);
  }

  /** GroupAward is what `to_points` sums for the group of seat `k`. */
  lemma GroupAwardOfSeat(cfg: GameConfig, scores: Vec4, sorted: Vec4, k: nat)
    requires SortedOf(sorted, scores) && k < 4
    ensures GroupAward(cfg, scores, scores[k]) == SumAt(cfg.rankScores, Positions(sorted, scores[k]))
  {
    GroupRanks(sorted, scores, scores[k]);
    CountAtLeast(scores, scores[k]);
    var a := CountAbove(scores, scores[k]);
    SumRangeAt(cfg.rankScores, a, a + CountEq(scores, scores[k]));
  }

  /** What the whole loop does to one seat: only its own group touches it. */
  lemma {:induction false} AwardGroupsSeats(cfg: GameConfig, scores: Vec4, sorted: Vec4,
                                            deposit: int, values: seq<int>, points: Vec4)
    requires SortedOf(sorted, scores) && NoDuplicates(values)
    requires forall m :: 0 <= m < |values| ==> values[m] in scores
    ensures forall k :: 0 <= k < 4 ==>
        AwardGroups(cfg, scores, sorted, deposit, values, points)[k]
          == points[k] + (if scores[k] in values
                          then RankShare(cfg, scores, k) + DepositShare(scores, deposit, k)
                          else 0)
    decreases |values|
  {
    if values != [] {
      var next := AwardGroup(cfg, scores, sorted, deposit, values[0], points);
      assert NoDuplicates(values[1..]);
      AwardGroupsSeats(cfg, scores, sorted, deposit, values[1..], next);
      forall k | 0 <= k < 4
        ensures AwardGroups(cfg, scores, sorted, deposit, values, points)[k]
          == points[k] + (if scores[k] in values
                          then RankShare(cfg, scores, k) + DepositShare(scores, deposit, k)
                          else 0)
      {
        AwardGroupSeat(cfg, scores, sorted, deposit, values[0], points, k);
        assert scores[k] in values <==> scores[k] == values[0] || scores[k] in values[1..];
        if scores[k] == values[0] {
          assert scores[k] !in values[1..];
        }
      }
    }
  }

  /** One group pass adds its rank awards, and the deposit when it holds
      the first sorted position, to the total. */
  lemma AwardGroupSum(cfg: GameConfig, scores: Vec4, sorted: Vec4, deposit: int, v: int,
                      points: Vec4)
    requires SortedOf(sorted, scores) && v in scores
    ensures Sum(AwardGroup(cfg, scores, sorted, deposit, v, points))
        == Sum(points) + SumAt(cfg.rankScores, Positions(sorted, v))
           + (if sorted[0] == v then deposit * 10 else 0)
  {
    SortedSameValues(sorted, scores);
    var ranks := Positions(sorted, v);
    PositionsSpec(sorted, v);
    var j :| 0 <= j < 4 && sorted[j] == v;
    PositionsFirst(sorted, v, j);
    if sorted[0] == v {
      PositionsFirst(sorted, v, 0);
    }
    assert ranks[0] == 0 <==> sorted[0] == v;
  }

  /** The whole loop adds the rank awards of every group it visits, and the
      deposit once if it visits the top score. */
  lemma {:induction false} AwardGroupsSum(cfg: GameConfig, scores: Vec4, sorted: Vec4,
                                          deposit: int, values: seq<int>, points: Vec4)
    requires SortedOf(sorted, scores) && NoDuplicates(values)
    requires forall m :: 0 <= m < |values| ==> values[m] in scores
    ensures Sum(AwardGroups(cfg, scores, sorted, deposit, values, points))
        == Sum(points) + GroupsSum(cfg.rankScores, sorted, values, 4)
           + (if sorted[0] in values then deposit * 10 else 0)
    decreases |values|
  {
    if values != [] {
      var next := AwardGroup(cfg, scores, sorted, deposit, values[0], points);
      assert NoDuplicates(values[1..]);
      AwardGroupSum(cfg, scores, sorted, deposit, values[0], points);
      AwardGroupsSum(cfg, scores, sorted, deposit, values[1..], next);
      assert sorted[0] in values <==> sorted[0] == values[0] || sorted[0] in values[1..];
      if sorted[0] == values[0] {
        assert sorted[0] !in values[1..];
      }
    }
  }
}
