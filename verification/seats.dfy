/** The four seats of the table, the fixed-size score vectors that hold one
    value per seat, and the optional value returned by the validating
    constructors. Seat 3 is always the dealer. */
module Seats {

  /** The value of a constructor that either accepts its arguments or
      rejects them (the Rust library aborts with a failed assertion instead). */
  datatype Option<+T> = None | Some(value: T)

  /** One integer per seat, indexed by seat number 0..3. */
  type Vec4 = s: seq<int> | |s| == 4 witness [0, 0, 0, 0]

  /** The dealer's seat. */
  const Dealer: nat := 3

  /** Sum of a sequence, accumulated from the back. */
  function Sum(s: seq<int>): int
  {
    if s == [] then 0 else Sum(s[..|s| - 1]) + s[|s| - 1]
  }

  /** The sum of a four-seat vector written out. */
  lemma Sum4(s: seq<int>)
    requires |s| == 4
    ensures Sum(s) == s[0] + s[1] + s[2] + s[3]
  {
    assert s[..3][..2] == s[..2];
    assert s[..2][..1] == s[..1];
    assert s[..1][..0] == [];
    assert Sum(s[..1]) == s[0];
    assert Sum(s[..2]) == s[0] + s[1];
    assert Sum(s[..3]) == s[0] + s[1] + s[2];
  }

  /** Adding `d` to one seat raises the total by exactly `d`. */
  lemma SumAdd(s: Vec4, k: nat, d: int)
    requires k < 4
    ensures Sum(s[k := s[k] + d]) == Sum(s) + d
  {
    Sum4(s);
    Sum4(s[k := s[k] + d]);
  }
}
