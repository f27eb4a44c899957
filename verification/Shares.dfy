/** How one expense is dealt out in integer cents among its participants. */
module Shares {

  ghost predicate Increasing(s: seq<int>) {
    forall i, j :: 0 <= i < j < |s| ==> s[i] < s[j]
  }

  function InsertDistinct(x: int, s: seq<int>): (r: seq<int>)
    requires Increasing(s)
    ensures Increasing(r)
    ensures forall y :: y in r <==> y == x || y in s
  {
    if s == [] then [x]
    else if x < s[0] then [x] + s
    else if x == s[0] then s
    else
      assert Increasing(s[1..]);
      assert s == [s[0]] + s[1..];
      var rest := InsertDistinct(x, s[1..]);
      assert forall i :: 0 <= i < |rest| ==> rest[i] in rest && s[0] < rest[i];
      [s[0]] + rest
  }

  /** `sort_unstable` followed by `dedup`. */
  function SortDedup(s: seq<int>): (r: seq<int>)
    ensures Increasing(r)
    ensures forall y :: y in r <==> y in s
  {
    if s == [] then []
    else
      assert forall y :: y in s <==> y == s[0] || y in s[1..];
      InsertDistinct(s[0], SortDedup(s[1..]))
  }

  /** An increasing sequence is determined by the set of its elements. */
  lemma {:induction false} IncreasingUnique(a: seq<int>, b: seq<int>)
    requires Increasing(a) && Increasing(b)
    requires forall y :: y in a <==> y in b
    ensures a == b
  {
    assert (a != [] ==> a[0] in a) && (b != [] ==> b[0] in b);
    if a != [] && b != [] {
      var i :| 0 <= i < |b| && b[i] == a[0];
      var j :| 0 <= j < |a| && a[j] == b[0];
      assert i == 0 && j == 0;
      assert a == [a[0]] + a[1..] && b == [b[0]] + b[1..];
      forall y ensures y in a[1..] <==> y in b[1..] {
        if y in a[1..] { assert y in a && y != a[0]; }
        if y in b[1..] { assert y in b && y != b[0]; }
      }
      IncreasingUnique(a[1..], b[1..]);
    }
  }

  /** The cents charged to the participant at position `index` of `count`. */
  function Share(amount: int, count: int, index: int): int
    requires 0 < count
  {
    amount / count + if index < amount % count then 1 else 0
  }

  /** The cents charged to the first `k` participants together. */
  ghost function FirstShares(amount: int, count: int, k: nat): int
    requires 0 < count
  {
    if k == 0 then 0 else FirstShares(amount, count, k - 1) + Share(amount, count, k - 1)
  }

  lemma {:induction false} FirstSharesClosed(amount: int, count: int, k: nat)
    requires 0 < count
    ensures FirstShares(amount, count, k) ==
            k * (amount / count) + if k <= amount % count then k else amount % count
  {
    if k != 0 {
      FirstSharesClosed(amount, count, k - 1);
      assert k * (amount / count) == (k - 1) * (amount / count) + amount / count;
    }
  }

  /** No cent is lost or invented, and any two shares differ by at most one cent. */
  lemma {:induction false} SharesAreExactAndFair(amount: int, count: int)
    requires 0 < count
    ensures FirstShares(amount, count, count) == amount
    ensures forall i, j {:trigger Share(amount, count, i), Share(amount, count, j)} ::
              0 <= i <= j < count ==> 0 <= Share(amount, count, i) - Share(amount, count, j) <= 1
  {
    FirstSharesClosed(amount, count, count);
    assert count * (amount / count) + amount % count == amount;
  }

  /** While a non-negative expense is being dealt, the running total stays between 0 and its amount. */
  lemma {:induction false} FirstSharesBounded(amount: int, count: int, k: nat)
    requires 0 < count && 0 <= amount && k <= count
    ensures 0 <= FirstShares(amount, count, k) <= amount
    decreases count - k
  {
    if k == count {
      SharesAreExactAndFair(amount, count);
    } else {
      FirstSharesBounded(amount, count, k + 1);
      FirstSharesClosed(amount, count, k);
      assert 0 <= amount / count;
      assert 0 <= k * (amount / count);
    }
  }
}
