/** Index lists: the positions at which a sequence holds a value, ranges of
    positions, and sums of weights taken at a list of positions. */
module Indexing {
  import opened Seats
  import opened Order

  predicate Increasing(idx: seq<nat>)
  {
    forall p, q :: 0 <= p < q < |idx| ==> idx[p] < idx[q]
  }

  /** The positions lo, lo+1, ..., hi-1. */
  function RangeSeq(lo: nat, hi: nat): (r: seq<nat>)
    ensures |r| == if lo <= hi then hi - lo else 0
    ensures forall m :: 0 <= m < |r| ==> lo <= r[m] < hi
    ensures lo < hi ==> r[0] == lo
  {
    if hi <= lo then [] else RangeSeq(lo, hi - 1) + [hi - 1]
  }

  /** The positions below `n` at which `s` holds `v`, in increasing order. */
  function PositionsBelow(s: seq<int>, v: int, n: nat): (r: seq<nat>)
    requires n <= |s|
    ensures forall m :: 0 <= m < |r| ==> r[m] < n
  {
    if n == 0 then []
    else PositionsBelow(s, v, n - 1) + (if s[n - 1] == v then [n - 1] else [])
  }

  /** PositionsBelow selects only positions holding `v`, in increasing
      order. */
  lemma {:induction false} PositionsBelowSound(s: seq<int>, v: int, n: nat)
    requires n <= |s|
    ensures Increasing(PositionsBelow(s, v, n))
    ensures forall m :: 0 <= m < |PositionsBelow(s, v, n)| ==> s[PositionsBelow(s, v, n)[m]] == v
  {
    if n > 0 {
      PositionsBelowSound(s, v, n - 1);
    }
  }

  /** PositionsBelow selects every position below `n` holding `v`. */
  lemma {:induction false} PositionsBelowComplete(s: seq<int>, v: int, n: nat, k: nat)
    requires k < n <= |s| && s[k] == v
    ensures k in PositionsBelow(s, v, n)
  {
    var prev := PositionsBelow(s, v, n - 1);
    if k < n - 1 {
      PositionsBelowComplete(s, v, n - 1, k);
      var m :| 0 <= m < |prev| && prev[m] == k;
      assert PositionsBelow(s, v, n)[m] == k;
    } else {
      assert PositionsBelow(s, v, n) == prev + [k];
    }
  }

  /** PositionsBelow selects as many positions as `v` occurs below `n`. */
  lemma {:induction false} PositionsBelowCount(s: seq<int>, v: int, n: nat)
    requires n <= |s|
    ensures |PositionsBelow(s, v, n)| == CountEq(s[..n], v)
  {
    if n > 0 {
      PositionsBelowCount(s, v, n - 1);
      assert s[..n] == s[..n - 1] + [s[n - 1]];
      CountEqAppend(s[..n - 1], [s[n - 1]], v);
    }
  }

  /** All positions at which `s` holds `v`, in increasing order. */
  function Positions(s: seq<int>, v: int): (r: seq<nat>)
    ensures forall m :: 0 <= m < |r| ==> r[m] < |s|
  {
    PositionsBelow(s, v, |s|)
  }

  /** Positions selects exactly the positions holding `v`, each once and in
      increasing order, as many as `v` occurs. */
  lemma PositionsSpec(s: seq<int>, v: int)
    ensures Increasing(Positions(s, v))
    ensures forall m :: 0 <= m < |Positions(s, v)| ==> s[Positions(s, v)[m]] == v
    ensures forall k :: 0 <= k < |s| && s[k] == v ==> k in Positions(s, v)
    ensures |Positions(s, v)| == CountEq(s, v)
  {
    assert s[..|s|] == s;
    PositionsBelowSound(s, v, |s|);
    PositionsBelowCount(s, v, |s|);
    forall k | 0 <= k < |s| && s[k] == v
      ensures k in Positions(s, v)
    {
      PositionsBelowComplete(s, v, |s|, k);
    }
  }

  /** The first position holding `v` is the lowest one. */
  lemma PositionsFirst(s: seq<int>, v: int, k: nat)
    requires k < |s| && s[k] == v
    ensures |Positions(s, v)| > 0
    ensures Positions(s, v)[0] == k <==> forall j :: 0 <= j < k ==> s[j] != v
  {
    var r := Positions(s, v);
    PositionsSpec(s, v);
    assert k in r;
    if forall j :: 0 <= j < k ==> s[j] != v {
      var m :| 0 <= m < |r| && r[m] == k;
      assert r[0] <= k && s[r[0]] == v;
    }
  }

  /** Sum of the weights `w` taken at the positions `idx`. */
  function SumAt(w: seq<int>, idx: seq<nat>): int
    requires forall m :: 0 <= m < |idx| ==> idx[m] < |w|
  {
    if idx == [] then 0 else SumAt(w, idx[..|idx| - 1]) + w[idx[|idx| - 1]]
  }

  lemma SumAtSnoc(w: seq<int>, idx: seq<nat>, k: nat)
    requires forall m :: 0 <= m < |idx| ==> idx[m] < |w|
    requires k < |w|
    ensures SumAt(w, idx + [k]) == SumAt(w, idx) + w[k]
  {
    assert (idx + [k])[..|idx|] == idx;
  }

  /** Sum of the weights at positions lo, lo+1, ..., hi-1. */
  function SumRange(w: seq<int>, lo: nat, hi: nat): int
    requires hi <= |w|
  {
    if hi <= lo then 0 else SumRange(w, lo, hi - 1) + w[hi - 1]
  }

  /** Summing over a range of positions is summing over its index list. */
  lemma {:induction false} SumRangeAt(w: seq<int>, lo: nat, hi: nat)
    requires hi <= |w|
    ensures SumAt(w, RangeSeq(lo, hi)) == SumRange(w, lo, hi)
  {
    if lo < hi {
      var prev := RangeSeq(lo, hi - 1);
      assert RangeSeq(lo, hi) == prev + [hi - 1];
      calc {
        SumAt(w, RangeSeq(lo, hi));
        SumAt(w, prev + [hi - 1]);
        { SumAtSnoc(w, prev, hi - 1); }
        SumAt(w, prev) + w[hi - 1];
        { SumRangeAt(w, lo, hi - 1); }
        SumRange(w, lo, hi - 1) + w[hi - 1];
      }
    } else {
      assert RangeSeq(lo, hi) == [];
    }
  }

  /** In a descending sequence the positions of `v` below `n` are the tie
      block of `v` cut off at `n`. */
  lemma {:induction false} TieBlockBelow(s: seq<int>, v: int, n: nat)
    requires Descending(s) && n <= |s|
    ensures CountAbove(s, v) + CountEq(s, v) <= |s|
    ensures var a, c := CountAbove(s, v), CountEq(s, v);
      PositionsBelow(s, v, n) ==
        RangeSeq(if a < n then a else n, if a + c < n then a + c else n)
  {
    var a, c := CountAbove(s, v), CountEq(s, v);
    if n == 0 {
      TieBlock(s, v);
    } else {
      TieBlockBelow(s, v, n - 1);
      TieBlockAt(s, v, n - 1);
      var prev := PositionsBelow(s, v, n - 1);
      if s[n - 1] == v {
        assert PositionsBelow(s, v, n) == prev + [n - 1];
        assert RangeSeq(a, n) == RangeSeq(a, n - 1) + [n - 1];
      } else {
        assert PositionsBelow(s, v, n) == prev + [];
      }
    }
  }

  /** In a descending sequence the positions of `v` are one block. */
  lemma TieBlockPositions(s: seq<int>, v: int)
    requires Descending(s)
    ensures CountAbove(s, v) + CountEq(s, v) <= |s|
    ensures Positions(s, v) == RangeSeq(CountAbove(s, v), CountAbove(s, v) + CountEq(s, v))
  {
    var a, c := CountAbove(s, v), CountEq(s, v);
    TieBlockBelow(s, v, |s|);
    assert (if a < |s| then a else |s|) == a;
    assert (if a + c < |s| then a + c else |s|) == a + c;
    assert PositionsBelow(s, v, |s|) == RangeSeq(a, a + c);
  }

  /** Sum over the distinct values `d` of the weights at the positions
      below `n` where `s` holds that value. */
  function GroupsSum(w: seq<int>, s: seq<int>, d: seq<int>, n: nat): int
    requires n <= |s| <= |w|
  {
    if d == [] then 0 else SumAt(w, PositionsBelow(s, d[0], n)) + GroupsSum(w, s, d[1..], n)
  }

  /** Moving the bound up by one adds the weight at the new position to
      the group holding it. */
  lemma {:induction false} GroupsStep(w: seq<int>, s: seq<int>, d: seq<int>, n: nat)
    requires n < |s| <= |w|
    requires NoDuplicates(d)
    ensures GroupsSum(w, s, d, n + 1) == GroupsSum(w, s, d, n) + (if s[n] in d then w[n] else 0)
  {
    if d != [] {
      assert NoDuplicates(d[1..]);
      GroupsStep(w, s, d[1..], n);
      var prev := PositionsBelow(s, d[0], n);
      if s[n] == d[0] {
        assert PositionsBelow(s, d[0], n + 1) == prev + [n];
        SumAtSnoc(w, prev, n);
        assert s[n] !in d[1..];
      } else {
        assert prev + [] == prev;
        assert PositionsBelow(s, d[0], n + 1) == prev;
        assert s[n] in d <==> s[n] in d[1..];
      }
    }
  }

  /** When every position below `n` holds one of the distinct values `d`,
      the groups together cover each position exactly once. */
  lemma {:induction false} GroupsCover(w: seq<int>, s: seq<int>, d: seq<int>, n: nat)
    requires n <= |s| <= |w|
    requires NoDuplicates(d)
    requires forall k :: 0 <= k < n ==> s[k] in d
    ensures GroupsSum(w, s, d, n) == SumAt(w, RangeSeq(0, n))
  {
    if n == 0 {
      GroupsEmpty(w, s, d);
    } else {
      GroupsCover(w, s, d, n - 1);
      GroupsStep(w, s, d, n - 1);
      SumAtSnoc(w, RangeSeq(0, n - 1), n - 1);
    }
  }

  lemma {:induction false} GroupsEmpty(w: seq<int>, s: seq<int>, d: seq<int>)
    requires |s| <= |w|
    ensures GroupsSum(w, s, d, 0) == 0
  {
    if d != [] {
      GroupsEmpty(w, s, d[1..]);
    }
  }
}
