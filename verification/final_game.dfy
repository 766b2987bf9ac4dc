/** The last game of a match (`FinalGameState`): the standing before it,
    the score transfers of every way it can end, and the report of the
    final points and the ranking that each ending produces. Nothing is
    printed: every report becomes a value, listed in the order `calc`
    prints them. */
module FinalGame {
  import opened Seats
  import opened RankPoints
  import opened Ranking

  /** Points carried into the last game, its raw scores, the counter
      (honba) stack and the number of deposit sticks on the table. */
  datatype FinalGameState = FinalGameState(points: Vec4, scores: Vec4, stack: int, deposit: int)
  {
    /** What `FinalGameState::new` checks: the points carried in sum to
        zero, and the raw scores plus the deposit sticks make 1000. */
    predicate Valid()
    {
      Sum(points) == 0 && Sum(scores) + deposit * 10 == 1000
    }
  }

  /** `FinalGameState::new`: accepts exactly the valid standings. */
  function NewState(points: Vec4, scores: Vec4, stack: int, deposit: int): (r: Option<FinalGameState>)
    ensures r.Some? <==> Sum(points) == 0 && Sum(scores) + deposit * 10 == 1000
    ensures r.Some? ==> r.value.Valid()
    ensures r.Some? ==>
      r.value.points == points && r.value.scores == scores
      && r.value.stack == stack && r.value.deposit == deposit
  {
    if Sum(points) == 0 && Sum(scores) + deposit * 10 == 1000 then
      Some(FinalGameState(points, scores, stack, deposit))
    else
      None
  }

  /** Integer division by 100 rounding toward zero, as `/` on `i32` does:
      the remainder has the sign of the dividend. */
  function Div100(x: int): (q: int)
    ensures x >= 0 ==> 0 <= x - 100 * q < 100
    ensures x < 0 ==> -100 < x - 100 * q <= 0
  {
    if x >= 0 then x / 100 else -((-x) / 100)
  }

  // ---------------------------------------------------------------------
  // Score transfers
  // ---------------------------------------------------------------------

  /** What seat `j` pays on a self-draw: the dealer's part `y` if `j` is
      the dealer, the non-dealer part `x` otherwise, in units of 100 rounded toward
      zero, plus the counter stack. */
  function TsumoPayment(st: FinalGameState, j: nat, x: int, y: int): (p: int)
    ensures var v, q := if j == Dealer then y else x, p - st.stack;
      (v >= 0 ==> 0 <= v - 100 * q < 100) && (v < 0 ==> -100 < v - 100 * q <= 0)
  {
    Div100(if j == Dealer then y else x) + st.stack
  }

  /** What the seats below `n` other than the winner `i` pay together. */
  function PaidBelow(st: FinalGameState, i: nat, x: int, y: int, n: nat): int
  {
    if n == 0 then 0
    else PaidBelow(st, i, x, y, n - 1) + (if n - 1 == i then 0 else TsumoPayment(st, n - 1, x, y))
  }

  /** The raw scores after seat `i` wins by self-draw, seat by seat: every
      other seat pays its part and the winner collects all three. */
  function TsumoScores(st: FinalGameState, i: nat, x: int, y: int): (r: Vec4)
  {
    var s := st.scores;
    [if i == 0 then s[0] + PaidBelow(st, i, x, y, 4) else s[0] - TsumoPayment(st, 0, x, y),
     if i == 1 then s[1] + PaidBelow(st, i, x, y, 4) else s[1] - TsumoPayment(st, 1, x, y),
     if i == 2 then s[2] + PaidBelow(st, i, x, y, 4) else s[2] - TsumoPayment(st, 2, x, y),
     if i == 3 then s[3] + PaidBelow(st, i, x, y, 4) else s[3] - TsumoPayment(st, 3, x, y)]
  }

  /** The `tsumo` closure: the loop over the paying seats. Every payer
      loses its part, the winner gains exactly what the others lose, and
      the total is unchanged. */
  method Tsumo(st: FinalGameState, i: nat, x: int, y: int) returns (r: Vec4)
    requires i < 4
    ensures r == TsumoScores(st, i, x, y)
    ensures forall j :: 0 <= j < 4 && j != i ==> r[j] == st.scores[j] - TsumoPayment(st, j, x, y)
    ensures r[i] - st.scores[i] == PaidBelow(st, i, x, y, 4)
    ensures Sum(r) == Sum(st.scores)
  {
    r := st.scores;
    for j := 0 to 4
      invariant forall k :: 0 <= k < 4 && k != i ==>
        r[k] == st.scores[k] - (if k < j then TsumoPayment(st, k, x, y) else 0)
      invariant r[i] == st.scores[i] + PaidBelow(st, i, x, y, j)
      invariant Sum(r) == Sum(st.scores)
    {
      if j != i {
        r := Pay(r, i, j, TsumoPayment(st, j, x, y));
      }
    }
    TsumoSeats(st, i, x, y, r);
  }

  /** A vector with the self-draw's effect on every seat is TsumoScores. */
  lemma TsumoSeats(st: FinalGameState, i: nat, x: int, y: int, r: Vec4)
    requires i < 4
    requires forall j :: 0 <= j < 4 && j != i ==> r[j] == st.scores[j] - TsumoPayment(st, j, x, y)
    requires r[i] == st.scores[i] + PaidBelow(st, i, x, y, 4)
    ensures r == TsumoScores(st, i, x, y)
  {
    var e := TsumoScores(st, i, x, y);
    assert forall k :: 0 <= k < 4 ==> r[k] == e[k];
  }

  /** What the discarder pays on a win by discard: `x` in units of 100
      rounded toward zero, plus three times the counter stack. */
  function RongPayment(st: FinalGameState, x: int): (p: int)
    ensures var q := p - st.stack * 3;
      (x >= 0 ==> 0 <= x - 100 * q < 100) && (x < 0 ==> -100 < x - 100 * q <= 0)
  {
    Div100(x) + st.stack * 3
  }

  /** The `rong` closure: seat `j` pays seat `i`. */
  function RongScores(st: FinalGameState, i: nat, j: nat, x: int): (r: Vec4)
    requires i < 4 && j < 4
    ensures i != j ==> r[i] == st.scores[i] + RongPayment(st, x)
    ensures i != j ==> r[j] == st.scores[j] - RongPayment(st, x)
    ensures forall k :: 0 <= k < 4 && k != i && k != j ==> r[k] == st.scores[k]
    ensures Sum(r) == Sum(st.scores)
  {
    Pay(st.scores, i, j, RongPayment(st, x))
  }

  /** Seat `i` gains `amount` and then seat `j` loses it: only these two
      seats change, each by exactly `amount`, and the total is unchanged. */
  function Pay(s: Vec4, i: nat, j: nat, amount: int): (r: Vec4)
    requires i < 4 && j < 4
    ensures Sum(r) == Sum(s)
    ensures forall k :: 0 <= k < 4 && k != i && k != j ==> r[k] == s[k]
    ensures i != j ==> r[i] == s[i] + amount && r[j] == s[j] - amount
    ensures i == j ==> r == s
  {
    var paid: Vec4 := s[i := s[i] + amount];
    SumAdd(s, i, amount);
    SumAdd(paid, j, -amount);
    paid[j := paid[j] - amount]
  }

  // ---------------------------------------------------------------------
  // Report
  // ---------------------------------------------------------------------

  /** Seat-wise sum of two point vectors. */
  function AddPoints(a: Vec4, b: Vec4): (r: Vec4)
    ensures forall k :: 0 <= k < 4 ==> r[k] == a[k] + b[k]
    ensures Sum(r) == Sum(a) + Sum(b)
  {
    Sum4(a);
    Sum4(b);
    var r: Vec4 := [a[0] + b[0], a[1] + b[1], a[2] + b[2], a[3] + b[3]];
    Sum4(r);
    r
  }

  /** The `report` closure for winner `i`: the winner takes the deposit
      sticks, the raw scores (which must then make 1000) are turned into
      final points with no deposit left, the points carried in are added,
      and the seats are ranked. */
  method Report(cfg: GameConfig, st: FinalGameState, i: nat, scores: Vec4)
    returns (settled: Vec4, points: Vec4, ranking: seq<nat>)
    requires cfg.Valid() && i < 4
    requires Sum(scores) + st.deposit * 10 == 1000
    ensures settled == scores[i := scores[i] + st.deposit * 10]
    ensures Sum(settled) == 1000
    ensures points == AddPoints(ReferencePoints(cfg, settled, 0), st.points)
    ensures Sum(points) == Sum(st.points)
    ensures IsRanking(points, st.points, ranking)
  {
    SumAdd(scores, i, st.deposit * 10);
    settled := scores[i := scores[i] + st.deposit * 10];
    var gained := ToPoints(cfg, settled, 0);
    points := AddPoints(gained, st.points);
    ranking := RankSeats(points, st.points);
  }

  // ---------------------------------------------------------------------
  // The enumeration of endings
  // ---------------------------------------------------------------------

  /** The winning-hand catalogs the enumeration walks: self-draw payments
      of a non-dealer winner (non-dealer part, dealer part), self-draw
      payments of the dealer (paid by each), and the discard values for a
      non-dealer and for the dealer. Their contents are not part of this
      model. */
  datatype Catalogs = Catalogs(
    childTsumo: seq<(int, int)>, parentTsumo: seq<int>,
    childRong: seq<int>, parentRong: seq<int>)

  /** One way the last game ends: seat `winner` by self-draw, or by a
      discard of seat `loser`. */
  datatype Win =
    | TsumoWin(winner: nat, x: int, y: int)
    | RongWin(winner: nat, loser: nat, x: int)

  /** The endings of bucket (i, j): self-draws when `i == j`, discards of
      seat `j` otherwise, from the dealer's or the non-dealer's catalog. */
  function Bucket(cat: Catalogs, i: nat, j: nat): (r: seq<Win>)
    ensures i == j && i == Dealer ==> |r| == |cat.parentTsumo|
    ensures i == j && i != Dealer ==> |r| == |cat.childTsumo|
    ensures i != j && i == Dealer ==> |r| == |cat.parentRong|
    ensures i != j && i != Dealer ==> |r| == |cat.childRong|
    ensures forall n :: 0 <= n < |r| ==> r[n].winner == i && (r[n].RongWin? <==> i != j)
    ensures forall n :: 0 <= n < |r| && r[n].RongWin? ==> r[n].loser == j
  {
    if i == j then
      if i == Dealer then
        seq(|cat.parentTsumo|, n requires 0 <= n < |cat.parentTsumo| =>
          TsumoWin(i, cat.parentTsumo[n], cat.parentTsumo[n]))
      else
        seq(|cat.childTsumo|, n requires 0 <= n < |cat.childTsumo| =>
          TsumoWin(i, cat.childTsumo[n].0, cat.childTsumo[n].1))
    else
      if i == Dealer then
        seq(|cat.parentRong|, n requires 0 <= n < |cat.parentRong| => RongWin(i, j, cat.parentRong[n]))
      else
        seq(|cat.childRong|, n requires 0 <= n < |cat.childRong| => RongWin(i, j, cat.childRong[n]))
  }

  /** The seat `j` of the bucket an ending belongs to: the discarder, or the
      winner itself on a self-draw. */
  function Column(w: Win): nat
  {
    if w.RongWin? then w.loser else w.winner
  }

  /** The endings of the buckets (i, 0), ..., (i, j - 1), in order: all won
      by `i`, discards exactly when the bucket's seat is not `i`, by
      non-decreasing bucket seat. */
  function Row(cat: Catalogs, i: nat, j: nat): (r: seq<Win>)
    ensures forall n :: 0 <= n < |r| ==>
      r[n].winner == i && Column(r[n]) < j && (r[n].RongWin? <==> Column(r[n]) != i)
    ensures forall n, m :: 0 <= n < m < |r| ==> Column(r[n]) <= Column(r[m])
  {
    if j == 0 then [] else Row(cat, i, j - 1) + Bucket(cat, i, j - 1)
  }

  /** Ending `a` comes no later than ending `b` in the order of the loops
      over the winner and then the bucket seat. */
  predicate NotAfter(a: Win, b: Win)
  {
    a.winner < b.winner || (a.winner == b.winner && Column(a) <= Column(b))
  }

  /** An ending names a winner seat and, on a discard, a different seat as
      the discarder. */
  predicate WellFormed(w: Win)
  {
    w.winner < 4 && (w.RongWin? ==> w.loser < 4 && w.loser != w.winner)
  }

  /** The endings of the rows 0, ..., i - 1, in order. */
  function Rows(cat: Catalogs, i: nat): (r: seq<Win>)
    requires i <= 4
    ensures forall n :: 0 <= n < |r| ==> WellFormed(r[n]) && r[n].winner < i
    ensures forall n, m :: 0 <= n < m < |r| ==> NotAfter(r[n], r[m])
  {
    if i == 0 then []
    else
      var prev, row := Rows(cat, i - 1), Row(cat, i - 1, 4);
      assert forall n, m :: 0 <= n < |prev| && 0 <= m < |row| ==> NotAfter(prev[n], row[m]);
      assert forall n, m :: 0 <= n < m < |row| ==> NotAfter(row[n], row[m]);
      assert forall m :: 0 <= m < |row| ==> WellFormed(row[m]) && row[m].winner < i;
      OrderedAppend(prev, row);
      prev + row
  }

  /** Two ordered runs, the second starting no earlier than the first ends,
      make one ordered run. */
  lemma OrderedAppend(a: seq<Win>, b: seq<Win>)
    requires forall n, m :: 0 <= n < m < |a| ==> NotAfter(a[n], a[m])
    requires forall n, m :: 0 <= n < m < |b| ==> NotAfter(b[n], b[m])
    requires forall n, m :: 0 <= n < |a| && 0 <= m < |b| ==> NotAfter(a[n], b[m])
    ensures forall n, m :: 0 <= n < m < |a + b| ==> NotAfter((a + b)[n], (a + b)[m])
  {
  }

  /** Every ending `calc` reports, in the order it reports them: each is
      well formed, and they come by winner and then by bucket seat. */
  function Endings(cat: Catalogs): (r: seq<Win>)
    ensures forall n :: 0 <= n < |r| ==> WellFormed(r[n])
    ensures forall n, m :: 0 <= n < m < |r| ==> NotAfter(r[n], r[m])
  {
    Rows(cat, 4)
  }

  /** The raw scores after an ending, before the deposit is taken. */
  function Transferred(st: FinalGameState, w: Win): Vec4
    requires w.winner < 4 && (w.RongWin? ==> w.loser < 4)
  {
    match w
    case TsumoWin(i, x, y) => TsumoScores(st, i, x, y)
    case RongWin(i, j, x) => RongScores(st, i, j, x)
  }

  /** One reported line. */
  datatype Line = Line(win: Win, scores: Vec4, points: Vec4, ranking: seq<nat>)

  /** The line is what `report` produces for its ending. */
  predicate Reports(cfg: GameConfig, st: FinalGameState, line: Line)
  {
    var w := line.win;
    && w.winner < 4 && (w.RongWin? ==> w.loser < 4 && w.loser != w.winner)
    && line.scores == Transferred(st, w)[w.winner := Transferred(st, w)[w.winner] + st.deposit * 10]
    && line.points == AddPoints(ReferencePoints(cfg, line.scores, 0), st.points)
    && IsRanking(line.points, st.points, line.ranking)
  }

  /** `lines` reports the endings `wins`, one line each, in order. */
  predicate ReportsAll(cfg: GameConfig, st: FinalGameState, lines: seq<Line>, wins: seq<Win>)
  {
    |lines| == |wins| && forall n :: 0 <= n < |lines| ==> lines[n].win == wins[n] && Reports(cfg, st, lines[n])
  }

  /** Two reports in a row report the endings of both, in order. */
  lemma ReportsAllAppend(cfg: GameConfig, st: FinalGameState,
                         lines1: seq<Line>, wins1: seq<Win>, lines2: seq<Line>, wins2: seq<Win>)
    requires ReportsAll(cfg, st, lines1, wins1)
    requires ReportsAll(cfg, st, lines2, wins2)
    ensures ReportsAll(cfg, st, lines1 + lines2, wins1 + wins2)
  {
    var l, w := lines1 + lines2, wins1 + wins2;
    forall n | 0 <= n < |l|
      ensures l[n].win == w[n] && Reports(cfg, st, l[n])
    {
      if n < |lines1| {
        assert l[n] == lines1[n] && w[n] == wins1[n];
      } else {
        assert l[n] == lines2[n - |lines1|] && w[n] == wins2[n - |lines1|];
      }
    }
  }

  lemma ReportsOne(cfg: GameConfig, st: FinalGameState, line: Line)
    requires Reports(cfg, st, line)
    ensures ReportsAll(cfg, st, [line], [line.win])
  {
  }

  lemma TakeOneMore(b: seq<Win>, k: nat)
    requires k < |b|
    ensures b[..k + 1] == b[..k] + [b[k]]
  {
  }

  lemma TakeAll(b: seq<Win>)
    ensures b[..|b|] == b
  {
  }

  /** Every ending moves raw score between seats without creating any. */
  lemma TransferredSum(st: FinalGameState, w: Win)
    requires w.winner < 4 && (w.RongWin? ==> w.loser < 4)
    ensures Sum(Transferred(st, w)) == Sum(st.scores)
  {
    if w.TsumoWin? {
      var i, x, y := w.winner, w.x, w.y;
      var r := TsumoScores(st, i, x, y);
      Sum4(r);
      Sum4(st.scores);
      assert PaidBelow(st, i, x, y, 1) == (if i == 0 then 0 else TsumoPayment(st, 0, x, y));
      assert PaidBelow(st, i, x, y, 2) == PaidBelow(st, i, x, y, 1) + (if i == 1 then 0 else TsumoPayment(st, 1, x, y));
      assert PaidBelow(st, i, x, y, 3) == PaidBelow(st, i, x, y, 2) + (if i == 2 then 0 else TsumoPayment(st, 2, x, y));
      assert PaidBelow(st, i, x, y, 4) ==
        (if i == 0 then 0 else TsumoPayment(st, 0, x, y)) + (if i == 1 then 0 else TsumoPayment(st, 1, x, y))
        + (if i == 2 then 0 else TsumoPayment(st, 2, x, y)) + (if i == 3 then 0 else TsumoPayment(st, 3, x, y));
    }
  }

  /** A reported line of a valid standing has raw scores making 1000 and
      final points summing to zero. */
  lemma LineSums(cfg: GameConfig, st: FinalGameState, line: Line)
    requires cfg.Valid() && st.Valid()
    requires Reports(cfg, st, line)
    ensures Sum(line.scores) == 1000
    ensures Sum(line.points) == 0
  {
    SettledSum(st, line.win, line.scores);
    ReferenceZeroSum(cfg, line.scores, 0);
  }

  /** After an ending and the winner taking the deposit, the raw scores
      make 1000: the sum `report` checks always holds. */
  lemma SettledSum(st: FinalGameState, w: Win, settled: Vec4)
    requires st.Valid()
    requires w.winner < 4 && (w.RongWin? ==> w.loser < 4)
    requires settled == Transferred(st, w)[w.winner := Transferred(st, w)[w.winner] + st.deposit * 10]
    ensures Sum(settled) == 1000
  {
    TransferredSum(st, w);
    SumAdd(Transferred(st, w), w.winner, st.deposit * 10);
  }

  /** The transfer of an ending, by the closure that handles it. */
  method Transfer(st: FinalGameState, w: Win) returns (scores: Vec4)
    requires w.winner < 4 && (w.RongWin? ==> w.loser < 4)
    ensures scores == Transferred(st, w)
    ensures Sum(scores) == Sum(st.scores)
  {
    match w {
      case TsumoWin(i, x, y) =>
        scores := Tsumo(st, i, x, y);
      case RongWin(i, j, x) =>
        scores := RongScores(st, i, j, x);
    }
  }

  /** Settles one ending and reports it. */
  method Settle(cfg: GameConfig, st: FinalGameState, w: Win) returns (line: Line)
    requires cfg.Valid() && st.Valid()
    requires w.winner < 4 && (w.RongWin? ==> w.loser < 4 && w.loser != w.winner)
    ensures line.win == w && Reports(cfg, st, line)
  {
    var scores := Transfer(st, w);
    var settled, points, ranking := Report(cfg, st, w.winner, scores);
    ReportsIntro(cfg, st, w, scores, settled, points, ranking);
    line := Line(w, settled, points, ranking);
  }

  lemma ReportsIntro(cfg: GameConfig, st: FinalGameState, w: Win, scores: Vec4,
                     settled: Vec4, points: Vec4, ranking: seq<nat>)
    requires w.winner < 4 && (w.RongWin? ==> w.loser < 4 && w.loser != w.winner)
    requires scores == Transferred(st, w)
    requires settled == scores[w.winner := scores[w.winner] + st.deposit * 10]
    requires points == AddPoints(ReferencePoints(cfg, settled, 0), st.points)
    requires IsRanking(points, st.points, ranking)
    ensures Reports(cfg, st, Line(w, settled, points, ranking))
  {
  }

  /** The innermost loops of `calc`: every ending of bucket (i, j), in
      catalog order. */
  method ReportBucket(cfg: GameConfig, st: FinalGameState, cat: Catalogs, i: nat, j: nat)
    returns (lines: seq<Line>)
    requires cfg.Valid() && st.Valid() && i < 4 && j < 4
    ensures ReportsAll(cfg, st, lines, Bucket(cat, i, j))
  {
    var bucket := Bucket(cat, i, j);
    lines := [];
    for k := 0 to |bucket|
      invariant ReportsAll(cfg, st, lines, bucket[..k])
    {
      var line := Settle(cfg, st, bucket[k]);
      ReportsOne(cfg, st, line);
      ReportsAllAppend(cfg, st, lines, bucket[..k], [line], [bucket[k]]);
      TakeOneMore(bucket, k);
      lines := lines + [line];
    }
    TakeAll(bucket);
  }

  /** One pass of the loop over `j` in `calc`, for winner `i`. */
  method ReportRow(cfg: GameConfig, st: FinalGameState, cat: Catalogs, i: nat)
    returns (lines: seq<Line>)
    requires cfg.Valid() && st.Valid() && i < 4
    ensures ReportsAll(cfg, st, lines, Row(cat, i, 4))
  {
    lines := [];
    for j := 0 to 4
      invariant ReportsAll(cfg, st, lines, Row(cat, i, j))
    {
      var more := ReportBucket(cfg, st, cat, i, j);
      ReportsAllAppend(cfg, st, lines, Row(cat, i, j), more, Bucket(cat, i, j));
      lines := lines + more;
    }
  }

  /** `FinalGameState::calc`: for every winner `i` and every seat `j`, the
      self-draws (`i == j`) or the wins on `j`'s discard, from the dealer's
      catalogs when `i` is the dealer, each settled and reported in catalog
      order. */
  method Calc(cfg: GameConfig, st: FinalGameState, cat: Catalogs) returns (lines: seq<Line>)
    requires cfg.Valid() && st.Valid()
    ensures ReportsAll(cfg, st, lines, Endings(cat))
    ensures forall n :: 0 <= n < |lines| ==> Sum(lines[n].scores) == 1000 && Sum(lines[n].points) == 0
  {
    lines := [];
    for i := 0 to 4
      invariant ReportsAll(cfg, st, lines, Rows(cat, i))
    {
      var more := ReportRow(cfg, st, cat, i);
      ReportsAllAppend(cfg, st, lines, Rows(cat, i), more, Row(cat, i, 4));
      lines := lines + more;
    }
    forall n | 0 <= n < |lines|
      ensures Sum(lines[n].scores) == 1000 && Sum(lines[n].points) == 0
    {
      LineSums(cfg, st, lines[n]);
    }
  }

  /** How many endings `calc` reports: three non-dealer winners each with
      one self-draw bucket and three discard buckets, and the dealer
      likewise from the dealer's catalogs. */
  lemma EndingsCount(cat: Catalogs)
    ensures |Endings(cat)| ==
      3 * |cat.childTsumo| + 9 * |cat.childRong| + |cat.parentTsumo| + 3 * |cat.parentRong|
  {
    var ct, cr, pt, pr := |cat.childTsumo|, |cat.childRong|, |cat.parentTsumo|, |cat.parentRong|;
    assert |Row(cat, 0, 4)| == ct + 3 * cr by { RowCount(cat, 0); }
    assert |Row(cat, 1, 4)| == ct + 3 * cr by { RowCount(cat, 1); }
    assert |Row(cat, 2, 4)| == ct + 3 * cr by { RowCount(cat, 2); }
    assert |Row(cat, 3, 4)| == pt + 3 * pr by { RowCount(cat, 3); }
    assert Rows(cat, 1) == Row(cat, 0, 4);
    assert Rows(cat, 2) == Rows(cat, 1) + Row(cat, 1, 4);
    assert Rows(cat, 3) == Rows(cat, 2) + Row(cat, 2, 4);
    assert Rows(cat, 4) == Rows(cat, 3) + Row(cat, 3, 4);
  }

  lemma RowCount(cat: Catalogs, i: nat)
    requires i < 4
    ensures |Row(cat, i, 4)| == |Bucket(cat, i, 0)| + |Bucket(cat, i, 1)| + |Bucket(cat, i, 2)| + |Bucket(cat, i, 3)|
  {
    assert Row(cat, i, 1) == Bucket(cat, i, 0);
    assert Row(cat, i, 2) == Row(cat, i, 1) + Bucket(cat, i, 1);
    assert Row(cat, i, 3) == Row(cat, i, 2) + Bucket(cat, i, 2);
  }
}
