/** Descending sort and consecutive de-duplication of scores, and the
    counting facts that tie a value's positions in the sorted sequence to
    plain counts over the unsorted input. */
module Order {

  /** Non-increasing from left to right. */
  predicate Descending(s: seq<int>)
  {
    forall p, q :: 0 <= p < q < |s| ==> s[p] >= s[q]
  }

  /** Strictly decreasing from left to right. */
  predicate StrictlyDescending(s: seq<int>)
  {
    forall p, q :: 0 <= p < q < |s| ==> s[p] > s[q]
  }

  predicate NoDuplicates(s: seq<int>)
  {
    forall p, q :: 0 <= p < q < |s| ==> s[p] != s[q]
  }

  /** Number of elements strictly greater than `v`. */
  function CountAbove(s: seq<int>, v: int): (n: nat)
    ensures n <= |s|
  {
    if s == [] then 0 else (if s[0] > v then 1 else 0) + CountAbove(s[1..], v)
  }

  /** Number of elements equal to `v`. */
  function CountEq(s: seq<int>, v: int): (n: nat)
    ensures n <= |s|
    ensures n > 0 <==> v in s
  {
    if s == [] then 0
    else
      assert s == [s[0]] + s[1..];
      (if s[0] == v then 1 else 0) + CountEq(s[1..], v)
  }

  /** "At least v" splits into "above v" and "equal to v". */
  lemma {:induction false} CountAtLeast(s: seq<int>, v: int)
    ensures CountAbove(s, v - 1) == CountAbove(s, v) + CountEq(s, v)
  {
    if s != [] {
      CountAtLeast(s[1..], v);
    }
  }

  lemma {:induction false} CountEqAppend(a: seq<int>, b: seq<int>, v: int)
    ensures CountEq(a + b, v) == CountEq(a, v) + CountEq(b, v)
  {
    if a == [] {
      assert a + b == b;
    } else {
      assert (a + b)[1..] == a[1..] + b;
      CountEqAppend(a[1..], b, v);
    }
  }

  /** Insert `x` into a descending sequence, before the first element not
      above it. */
  function Insert(x: int, s: seq<int>): (r: seq<int>)
    requires Descending(s)
    ensures |r| == |s| + 1
    ensures r[0] == if s == [] || x >= s[0] then x else s[0]
    ensures Descending(r)
  {
    if s == [] || x >= s[0] then
      [x] + s
    else
      assert s == [s[0]] + s[1..];
      var rest := Insert(x, s[1..]);
      assert forall q :: 0 <= q < |rest| ==> rest[q] <= rest[0] <= s[0];
      [s[0]] + rest
  }

  lemma {:induction false} InsertPermutes(x: int, s: seq<int>)
    requires Descending(s)
    ensures multiset(Insert(x, s)) == multiset(s) + multiset{x}
  {
    if s != [] && x < s[0] {
      InsertPermutes(x, s[1..]);
      assert s == [s[0]] + s[1..];
    }
  }

  /** The scores in descending order (`to_points` sorts ascending and then
      reverses, which yields the same sequence: see DescendingUnique). */
  function SortDesc(s: seq<int>): (r: seq<int>)
    ensures |r| == |s|
    ensures Descending(r)
    ensures multiset(r) == multiset(s)
  {
    if s == [] then []
    else
      assert s == [s[0]] + s[1..];
      InsertPermutes(s[0], SortDesc(s[1..]));
      Insert(s[0], SortDesc(s[1..]))
  }

  /** Two descending arrangements of the same multiset are the same
      sequence, so the descending order of the scores is determined by the
      scores alone. */
  lemma {:induction false} DescendingUnique(a: seq<int>, b: seq<int>)
    requires Descending(a) && Descending(b)
    requires multiset(a) == multiset(b)
    ensures a == b
  {
    assert |a| == |multiset(a)| == |multiset(b)| == |b|;
    if a != [] {
      assert b[0] in multiset(a) && a[0] in multiset(b);
      var i :| 0 <= i < |a| && a[i] == b[0];
      var j :| 0 <= j < |b| && b[j] == a[0];
      assert a[0] >= a[i] && b[0] >= b[j];
      assert a[0] == b[0];
      MultisetTail(a);
      MultisetTail(b);
      DescendingUnique(a[1..], b[1..]);
    }
  }

  lemma MultisetTail(a: seq<int>)
    requires a != []
    ensures multiset(a[1..]) == multiset(a) - multiset{a[0]}
  {
    assert a == [a[0]] + a[1..];
  }

  /** Consecutive duplicates removed, the first of each run kept. */
  function Dedup(s: seq<int>): (r: seq<int>)
    ensures forall x :: x in r <==> x in s
    ensures forall k :: 0 <= k < |r| - 1 ==> r[k] != r[k + 1]
    ensures |s| > 0 ==> |r| > 0 && r[0] == s[0]
    ensures Descending(s) ==> StrictlyDescending(r)
  {
    if |s| <= 1 then s
    else if s[0] == s[1] then
      assert s == [s[0]] + s[1..];
      Dedup(s[1..])
    else
      var rest := Dedup(s[1..]);
      assert s == [s[0]] + s[1..];
      assert Descending(s) ==> forall q :: 0 <= q < |rest| ==> rest[q] in s[1..];
      [s[0]] + rest
  }

  /** In a descending sequence the elements above `t` form a prefix whose
      length is their count. */
  lemma {:induction false} AbovePrefix(s: seq<int>, t: int)
    requires Descending(s)
    ensures forall k :: 0 <= k < |s| ==> (s[k] > t <==> k < CountAbove(s, t))
  {
    if s != [] {
      AbovePrefix(s[1..], t);
      assert forall k :: 1 <= k < |s| ==> s[k] == s[1..][k - 1];
    }
  }

  /** In a descending sequence, `v` occupies exactly the block of positions
      that starts after the elements above it and is as long as its count. */
  lemma TieBlock(s: seq<int>, v: int)
    requires Descending(s)
    ensures CountAbove(s, v) + CountEq(s, v) <= |s|
    ensures forall k :: 0 <= k < |s| ==>
      (s[k] == v <==> CountAbove(s, v) <= k < CountAbove(s, v) + CountEq(s, v))
  {
    AbovePrefix(s, v);
    AbovePrefix(s, v - 1);
    CountAtLeast(s, v);
  }

  /** TieBlock at one position. */
  lemma TieBlockAt(s: seq<int>, v: int, k: nat)
    requires Descending(s) && k < |s|
    ensures CountAbove(s, v) + CountEq(s, v) <= |s|
    ensures s[k] == v <==> CountAbove(s, v) <= k < CountAbove(s, v) + CountEq(s, v)
  {
    TieBlock(s, v);
  }

  /** `sorted` is the scores arranged in descending order. */
  predicate SortedOf(sorted: seq<int>, scores: seq<int>)
  {
    Descending(sorted) && multiset(sorted) == multiset(scores)
  }

  lemma {:induction false} CountAboveAppend(a: seq<int>, b: seq<int>, v: int)
    ensures CountAbove(a + b, v) == CountAbove(a, v) + CountAbove(b, v)
  {
    if a == [] {
      assert a + b == b;
    } else {
      assert (a + b)[1..] == a[1..] + b;
      CountAboveAppend(a[1..], b, v);
    }
  }

  /** Rearranging a sequence keeps the number of elements above any value. */
  lemma {:induction false} PermutationKeepsAbove(a: seq<int>, b: seq<int>, v: int)
    requires multiset(a) == multiset(b)
    ensures CountAbove(a, v) == CountAbove(b, v)
    decreases |a|
  {
    assert |a| == |multiset(a)| == |multiset(b)| == |b|;
    if a != [] {
      assert a[0] in multiset(b);
      var i :| 0 <= i < |b| && b[i] == a[0];
      var rest := b[..i] + b[i + 1..];
      assert b == b[..i] + [b[i]] + b[i + 1..];
      assert b[..i] + [b[i]] + b[i + 1..] == b[..i] + ([b[i]] + b[i + 1..]);
      MultisetTail(a);
      assert multiset(rest) == multiset(b) - multiset{b[i]};
      PermutationKeepsAbove(a[1..], rest, v);
      CountAboveAppend(b[..i], [b[i]] + b[i + 1..], v);
      CountAboveAppend(b[..i], b[i + 1..], v);
      assert ([b[i]] + b[i + 1..])[1..] == b[i + 1..];
    }
  }

  /** The sorted scores have the same values, with the same counts, as the
      scores. */
  lemma SortedOfCounts(sorted: seq<int>, scores: seq<int>, v: int)
    requires SortedOf(sorted, scores)
    ensures CountAbove(sorted, v) == CountAbove(scores, v)
    ensures CountEq(sorted, v) == CountEq(scores, v)
    ensures v in sorted <==> v in scores
  {
    PermutationKeepsAbove(sorted, scores, v);
    PermutationKeepsAbove(sorted, scores, v - 1);
    CountAtLeast(sorted, v);
    CountAtLeast(scores, v);
    assert v in sorted <==> v in multiset(sorted);
  }
}
