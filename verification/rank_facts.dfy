/** Consequences of the per-seat description of `GameConfig::to_points`:
    what a seat alone in its place receives, what a whole tie group
    receives, the all-tied table, and the worked examples of the library's
    unit test. */
module RankFacts {
  import opened Seats
  import opened Order
  import opened Indexing
  import opened RankPoints

  /** The total of `x` over the seats whose raw score is `v`. */
  function GroupSum(x: Vec4, scores: Vec4, v: int): int
  {
    (if scores[0] == v then x[0] else 0) + (if scores[1] == v then x[1] else 0)
    + (if scores[2] == v then x[2] else 0) + (if scores[3] == v then x[3] else 0)
  }

  /** The number of seats holding `v`, seat by seat. */
  lemma CountEq4(s: Vec4, v: int)
    ensures CountEq(s, v) == (if s[0] == v then 1 else 0) + (if s[1] == v then 1 else 0)
                           + (if s[2] == v then 1 else 0) + (if s[3] == v then 1 else 0)
  {
    var t1, t2, t3 := s[1..], s[2..], s[3..];
    assert t1[1..] == t2 && t2[1..] == t3 && t3[1..] == [];
    assert CountEq(t3, v) == if s[3] == v then 1 else 0;
    assert CountEq(t2, v) == (if s[2] == v then 1 else 0) + CountEq(t3, v);
    assert CountEq(t1, v) == (if s[1] == v then 1 else 0) + CountEq(t2, v);
  }

  /** The number of seats above `v`, seat by seat. */
  lemma CountAbove4(s: Vec4, v: int)
    ensures CountAbove(s, v) == (if s[0] > v then 1 else 0) + (if s[1] > v then 1 else 0)
                              + (if s[2] > v then 1 else 0) + (if s[3] > v then 1 else 0)
  {
    var t1, t2, t3 := s[1..], s[2..], s[3..];
    assert t1[1..] == t2 && t2[1..] == t3 && t3[1..] == [];
    assert CountAbove(t3, v) == if s[3] > v then 1 else 0;
    assert CountAbove(t2, v) == (if s[2] > v then 1 else 0) + CountAbove(t3, v);
    assert CountAbove(t1, v) == (if s[1] > v then 1 else 0) + CountAbove(t2, v);
  }

  /** Both counts of seat `k`'s score, seat by seat. */
  lemma Counts4(s: Vec4, k: nat)
    requires k < 4
    ensures CountAbove(s, s[k]) == (if s[0] > s[k] then 1 else 0) + (if s[1] > s[k] then 1 else 0)
                                 + (if s[2] > s[k] then 1 else 0) + (if s[3] > s[k] then 1 else 0)
    ensures CountEq(s, s[k]) == (if s[0] == s[k] then 1 else 0) + (if s[1] == s[k] then 1 else 0)
                              + (if s[2] == s[k] then 1 else 0) + (if s[3] == s[k] then 1 else 0)
  {
    CountAbove4(s, s[k]);
    CountEq4(s, s[k]);
  }

  /** Which seats lead their tie group, seat by seat. */
  lemma LeadsTie4(scores: Vec4)
    ensures LeadsTie(scores, 0)
    ensures LeadsTie(scores, 1) <==> scores[0] != scores[1]
    ensures LeadsTie(scores, 2) <==> scores[0] != scores[2] && scores[1] != scores[2]
    ensures LeadsTie(scores, 3) <==>
      scores[0] != scores[3] && scores[1] != scores[3] && scores[2] != scores[3]
  {
  }

  /** Seat `k` of the group holding `v` gets its split of the group's rank
      awards and of the group's part of the deposit: ten times the deposit
      when the group is on top, nothing otherwise. This is ReferencePoints
      unfolded for one seat; what makes it a fact about `to_points` is
      ToPoints' guarantee that it returns exactly ReferencePoints. */
  lemma GroupMemberGain(cfg: GameConfig, scores: Vec4, deposit: int, v: int, k: nat)
    requires k < 4 && scores[k] == v
    ensures CountEq(scores, v) > 0
    ensures ReferencePoints(cfg, scores, deposit)[k] - scores[k]
      == Split(GroupAward(cfg, scores, v), CountEq(scores, v), LeadsTie(scores, k))
         + Split(if CountAbove(scores, v) == 0 then deposit * 10 else 0,
                 CountEq(scores, v), LeadsTie(scores, k))
  {
    var c := Tied(scores, k);
    if CountAbove(scores, v) != 0 {
      SplitZero(c, LeadsTie(scores, k));
    }
  }

  /** Nothing split is nothing for everyone. */
  lemma SplitZero(count: nat, lead: bool)
    requires count > 0
    ensures Split(0, count, lead) == 0
  {
  }

  /** Gains that give every member of the group holding `v` the same
      quotient and its lowest seat also the remainder add up to the group
      size times the quotient, plus the remainder once (written out for each
      possible group size, which keeps the arithmetic linear). */
  lemma GroupShares(scores: Vec4, v: int, q: int, m: int, x: Vec4, base: Vec4)
    requires v in scores
    requires forall j :: 0 <= j < 4 && scores[j] == v ==>
      x[j] - base[j] == q + (if LeadsTie(scores, j) then m else 0)
    ensures CountEq(scores, v) == 1 ==> GroupSum(x, scores, v) - GroupSum(base, scores, v) == q + m
    ensures CountEq(scores, v) == 2 ==> GroupSum(x, scores, v) - GroupSum(base, scores, v) == 2 * q + m
    ensures CountEq(scores, v) == 3 ==> GroupSum(x, scores, v) - GroupSum(base, scores, v) == 3 * q + m
    ensures CountEq(scores, v) == 4 ==> GroupSum(x, scores, v) - GroupSum(base, scores, v) == 4 * q + m
  {
    CountEq4(scores, v);
    LeadsTie4(scores);
  }

  /** Splitting two amounts among the group holding `v` hands out exactly
      the two amounts. */
  lemma SplitAmongGroup(scores: Vec4, v: int, award: int, pool: int, x: Vec4, base: Vec4)
    requires v in scores
    requires forall j :: 0 <= j < 4 && scores[j] == v ==>
      x[j] - base[j] == Split(award, CountEq(scores, v), LeadsTie(scores, j))
                        + Split(pool, CountEq(scores, v), LeadsTie(scores, j))
    ensures GroupSum(x, scores, v) - GroupSum(base, scores, v) == award + pool
  {
    var c := CountEq(scores, v);
    assert 1 <= c <= 4;
    if c == 1 {
      GroupShares(scores, v, award + pool, 0, x, base);
    } else if c == 2 {
      GroupShares(scores, v, award / 2 + pool / 2, award % 2 + pool % 2, x, base);
    } else if c == 3 {
      GroupShares(scores, v, award / 3 + pool / 3, award % 3 + pool % 3, x, base);
    } else {
      assert c == 4;
      GroupShares(scores, v, award / 4 + pool / 4, award % 4 + pool % 4, x, base);
    }
  }

  /** A tie group as a whole receives exactly the rank awards of the sorted
      positions it occupies, plus ten times the deposit if and only if it
      holds first place: the deposit reaches no other group. */
  lemma GroupTotal(cfg: GameConfig, scores: Vec4, deposit: int, v: int)
    requires v in scores
    ensures GroupSum(ReferencePoints(cfg, scores, deposit), scores, v) - GroupSum(scores, scores, v)
      == GroupAward(cfg, scores, v) + (if CountAbove(scores, v) == 0 then deposit * 10 else 0)
  {
    var r := ReferencePoints(cfg, scores, deposit);
    forall j | 0 <= j < 4 && scores[j] == v
      ensures r[j] - scores[j]
        == Split(GroupAward(cfg, scores, v), CountEq(scores, v), LeadsTie(scores, j))
           + Split(if CountAbove(scores, v) == 0 then deposit * 10 else 0,
                   CountEq(scores, v), LeadsTie(scores, j))
    {
      GroupMemberGain(cfg, scores, deposit, v, j);
    }
    SplitAmongGroup(scores, v, GroupAward(cfg, scores, v),
                    if CountAbove(scores, v) == 0 then deposit * 10 else 0, r, scores);
  }

  /** The deposit reaches no seat below the top score: such a seat ends
      with the same points whatever the deposit. Like GroupMemberGain this
      follows from the definition of ReferencePoints; ToPoints carries it
      over to `to_points`. */
  lemma DepositOnlyTop(cfg: GameConfig, scores: Vec4, deposit: int, k: nat)
    requires k < 4 && Above(scores, k) > 0
    ensures ReferencePoints(cfg, scores, deposit)[k] == ReferencePoints(cfg, scores, 0)[k]
  {
    GroupMemberGain(cfg, scores, deposit, scores[k], k);
    GroupMemberGain(cfg, scores, 0, scores[k], k);
  }

  /** A seat whose raw score nobody shares takes its place alone: it gets
      the rank award of its sorted position (the number of seats above it)
      and, in first place, ten times the whole deposit. */
  lemma UniqueSeat(cfg: GameConfig, scores: Vec4, deposit: int, i: nat)
    requires i < 4 && Tied(scores, i) == 1
    ensures ReferencePoints(cfg, scores, deposit)[i]
      == scores[i] + cfg.rankScores[Above(scores, i)]
         + (if Above(scores, i) == 0 then deposit * 10 else 0)
  {
    var v, a := scores[i], Above(scores, i);
    GroupMemberGain(cfg, scores, deposit, v, i);
    assert GroupAward(cfg, scores, v) == SumRange(cfg.rankScores, a, a + 1);
  }

  /** The sorted position `Above(scores, i)` holds seat i's raw score: the
      number of seats above a seat is its place in the descending order. */
  lemma SortedPlace(scores: Vec4, sorted: Vec4, i: nat)
    requires SortedOf(sorted, scores) && i < 4
    ensures Above(scores, i) < 4 && sorted[Above(scores, i)] == scores[i]
  {
    var v := scores[i];
    SortedOfCounts(sorted, scores, v);
    TieBlock(sorted, v);
    CountAtLeast(scores, v);
    var c := Tied(scores, i);
  }

  /** The rank awards of all four places add up to the whole award vector. */
  lemma SumRangeAll(w: Vec4)
    ensures SumRange(w, 0, 4) == Sum(w)
  {
    SumAtAll(w);
    SumRangeAt(w, 0, 4);
  }

  /** When all four raw scores are equal the table is a four-way tie for
      first place and every seat ends on zero. */
  lemma AllTiedZero(cfg: GameConfig, scores: Vec4, deposit: int)
    requires cfg.Valid() && Sum(scores) + deposit * 10 == 1000
    requires scores[0] == scores[1] == scores[2] == scores[3]
    ensures ReferencePoints(cfg, scores, deposit) == [0, 0, 0, 0]
  {
    var v := scores[0];
    CountEq4(scores, v);
    Sum4(scores);
    SumRangeAll(cfg.rankScores);
    CountAtLeast(scores, v);
    assert CountAbove(scores, v) == 0;
    assert GroupAward(cfg, scores, v) == -1000;
    var r := ReferencePoints(cfg, scores, deposit);
    forall j | 0 <= j < 4
      ensures r[j] == 0
    {
      GroupMemberGain(cfg, scores, deposit, v, j);
    }
  }

  /** One worked example: raw scores, deposit, and the points expected. */
  datatype Example = Example(scores: Vec4, deposit: int, expected: Vec4)

  /** The worked examples of the unit test of `to_points`. */
  const Examples: seq<Example> := [
    Example([453, 426, 182, -61], 0, [653, 226, -218, -661]),
    Example([383, 274, 184, 159], 0, [583, 74, -216, -441]),
    Example([237, 263, 263, 237], 0, [-263, 263, 263, -263]),
    Example([263, 263, 232, 232], 1, [268, 268, -268, -268]),
    Example([229, 235, 263, 263], 1, [229 - 600, 235 - 400, 268, 268]),
    Example([257, 219, 257, 257], 1, [257 - 132 + 4, 219 - 600, 257 - 134 + 3, 257 - 134 + 3]),
    Example([209, 257, 257, 257], 2, [209 - 600, 257 - 132 + 8, 257 - 134 + 6, 257 - 134 + 6]),
    Example([257, 257, 257, 199], 3, [257 - 132 + 10, 257 - 134 + 10, 257 - 134 + 10, 199 - 600]),
    Example([250, 250, 250, 250], 0, [0, 0, 0, 0]),
    Example([245, 245, 245, 245], 2, [0, 0, 0, 0])
  ]

  /** The example is an input ToPoints accepts and, under the M-League
      awards, the points ToPoints returns for it are the expected ones. */
  predicate Holds(x: Example)
  {
    && x.deposit >= 0
    && Sum(x.scores) + x.deposit * 10 == 1000
    && ReferencePoints(MLeague(), x.scores, x.deposit) == x.expected
  }

  /** Every worked example of the unit test holds. */
  lemma GoldenCases()
    ensures forall n :: 0 <= n < |Examples| ==> Holds(Examples[n])
  {
    forall n | 0 <= n < |Examples|
      ensures Holds(Examples[n])
    {
      var x := Examples[n];
      Sum4(x.scores);
      if n == 0 {
        Example0(x.scores, x.deposit);
      } else if n == 1 {
        Example1(x.scores, x.deposit);
      } else if n == 2 {
        Example2(x.scores, x.deposit);
      } else if n == 3 {
        Example3(x.scores, x.deposit);
      } else if n == 4 {
        Example4(x.scores, x.deposit);
      } else if n == 5 {
        Example5(x.scores, x.deposit);
      } else if n == 6 {
        Example6(x.scores, x.deposit);
      } else if n == 7 {
        Example7(x.scores, x.deposit);
      } else {
        AllTiedZero(MLeague(), x.scores, x.deposit);
      }
    }
  }

  lemma Example0(s: Vec4, d: int)
    requires s == [453, 426, 182, -61] && d == 0
    ensures ReferencePoints(MLeague(), s, d) == [653, 226, -218, -661]
  {
    LeadsTie4(s);
    Counts4(s, 0);
    Counts4(s, 1);
    Counts4(s, 2);
    Counts4(s, 3);
  }

  lemma Example1(s: Vec4, d: int)
    requires s == [383, 274, 184, 159] && d == 0
    ensures ReferencePoints(MLeague(), s, d) == [583, 74, -216, -441]
  {
    LeadsTie4(s);
    Counts4(s, 0);
    Counts4(s, 1);
    Counts4(s, 2);
    Counts4(s, 3);
  }

  lemma Example2(s: Vec4, d: int)
    requires s == [237, 263, 263, 237] && d == 0
    ensures ReferencePoints(MLeague(), s, d) == [-263, 263, 263, -263]
  {
    LeadsTie4(s);
    Counts4(s, 0);
    Counts4(s, 1);
    Counts4(s, 2);
    Counts4(s, 3);
  }

  lemma Example3(s: Vec4, d: int)
    requires s == [263, 263, 232, 232] && d == 1
    ensures ReferencePoints(MLeague(), s, d) == [268, 268, -268, -268]
  {
    LeadsTie4(s);
    Counts4(s, 0);
    Counts4(s, 1);
    Counts4(s, 2);
    Counts4(s, 3);
  }

  lemma Example4(s: Vec4, d: int)
    requires s == [229, 235, 263, 263] && d == 1
    ensures ReferencePoints(MLeague(), s, d) == [229 - 600, 235 - 400, 268, 268]
  {
    LeadsTie4(s);
    Counts4(s, 0);
    Counts4(s, 1);
    Counts4(s, 2);
    Counts4(s, 3);
  }

  lemma Example5(s: Vec4, d: int)
    requires s == [257, 219, 257, 257] && d == 1
    ensures ReferencePoints(MLeague(), s, d) == [257 - 132 + 4, 219 - 600, 257 - 134 + 3, 257 - 134 + 3]
  {
    LeadsTie4(s);
    Counts4(s, 0);
    Counts4(s, 1);
    Counts4(s, 2);
    Counts4(s, 3);
  }

  lemma Example6(s: Vec4, d: int)
    requires s == [209, 257, 257, 257] && d == 2
    ensures ReferencePoints(MLeague(), s, d) == [209 - 600, 257 - 132 + 8, 257 - 134 + 6, 257 - 134 + 6]
  {
    LeadsTie4(s);
    Counts4(s, 0);
    Counts4(s, 1);
    Counts4(s, 2);
    Counts4(s, 3);
  }

  lemma Example7(s: Vec4, d: int)
    requires s == [257, 257, 257, 199] && d == 3
    ensures ReferencePoints(MLeague(), s, d) == [257 - 132 + 10, 257 - 134 + 10, 257 - 134 + 10, 199 - 600]
  {
    LeadsTie4(s);
    Counts4(s, 0);
    Counts4(s, 1);
    Counts4(s, 2);
    Counts4(s, 3);
  }
}
