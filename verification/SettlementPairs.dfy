/** Who pays whom in the settlement: creditors and debtors lie side by side on one line of cents. */
module SettlementPairs {
  import opened Options
  import opened Settlement

  /** The cents that `from` pays `to`. */
  ghost function Moved(ts: seq<Transfer>, from: int, to: int): int {
    if ts == [] then 0
    else (if ts[0].fromUser == from && ts[0].toUser == to then ts[0].amount else 0) + Moved(ts[1..], from, to)
  }

  /** The common length of the intervals of lengths `m` and `n` that start at `a` and `b`. */
  function Overlap(a: int, m: int, b: int, n: int): int {
    var common := Min(a + m, b + n) - if a >= b then a else b;
    if common < 0 then 0 else common
  }

  lemma {:induction false} MovedStep(cs: seq<Claim>, ds: seq<Claim>, from: int, to: int)
    requires cs != [] && ds != [] && Positive(cs) && Positive(ds)
    ensures var t := Min(cs[0].amount, ds[0].amount);
            && Positive(Settle(cs, t)) && Positive(Settle(ds, t))
            && Moved(Greedy(cs, ds), from, to) ==
                 (if ds[0].user == from && cs[0].user == to then t else 0) + Moved(Greedy(Settle(cs, t), Settle(ds, t)), from, to)
  {
    var t := Min(cs[0].amount, ds[0].amount);
    SettleKeeps(cs, t);
    SettleKeeps(ds, t);
    assert Greedy(cs, ds)[1..] == Greedy(Settle(cs, t), Settle(ds, t));
  }

  lemma {:induction false} NothingForStrangers(cs: seq<Claim>, ds: seq<Claim>, from: int, to: int)
    requires Positive(cs) && Positive(ds) && (!Names(ds, from) || !Names(cs, to))
    ensures Moved(Greedy(cs, ds), from, to) == 0
    decreases |cs| + |ds|
  {
    if cs != [] && ds != [] {
      var t := Min(cs[0].amount, ds[0].amount);
      SettleKeeps(cs, t);
      SettleKeeps(ds, t);
      MovedStep(cs, ds, from, to);
      assert Names(ds, ds[0].user) && Names(cs, cs[0].user);
      NothingForStrangers(Settle(cs, t), Settle(ds, t), from, to);
    }
  }

  /** Where the claims before the one at `i` end, and where it moves to when `cents` are settled. */
  lemma {:induction false} Shifted(s: seq<Claim>, cents: int, i: nat)
    requires s != [] && Positive(s) && 0 < cents <= s[0].amount && i < |s| && (i == 0 ==> cents < s[0].amount)
    ensures var r, k := Settle(s, cents), if s[0].amount == cents then i - 1 else i;
            && 0 <= k < |r| && r[k].user == s[i].user
            && (i > 0 ==> r[k] == s[i] && SumClaims(r[..k]) == SumClaims(s[..i]) - cents && s[0].amount <= SumClaims(s[..i]))
            && (i == 0 ==> r[k].amount == s[i].amount - cents && SumClaims(r[..k]) == 0 == SumClaims(s[..i]))
  {
    if i > 0 {
      PrefixSettled(s, cents, i);
      SumPrefix(s[1..], i - 1);
      assert s[..i][1..] == s[1..][..i - 1];
    }
  }

  /** Both stretches move by `t`, or the one that starts at zero loses its first `t` cents, which the
      other does not reach. */
  lemma {:induction false} OverlapStays(a: int, m: int, a': int, m': int, b: int, n: int, b': int, n': int, t: int)
    requires 0 < t && 0 <= a && 0 <= b
    requires (a' == a - t && m' == m) || (a' == a == 0 && m' == m - t && b' == b - t && t <= b)
    requires (b' == b - t && n' == n) || (b' == b == 0 && n' == n - t && a' == a - t && t <= a)
    ensures Overlap(a', m', b', n') == Overlap(a, m, b, n)
  {
  }

  /** Lay the credits end to end, and the debts end to end beside them: debtor `j` pays creditor `i`
      exactly the cents that their two stretches share. */
  lemma {:induction false} PairsOverlap(cs: seq<Claim>, ds: seq<Claim>, i: nat, j: nat)
    requires Claims(cs, ds) && i < |cs| && j < |ds|
    ensures Moved(Greedy(cs, ds), ds[j].user, cs[i].user) ==
            Overlap(SumClaims(cs[..i]), cs[i].amount, SumClaims(ds[..j]), ds[j].amount)
    decreases |cs| + |ds|
  {
    var t := Min(cs[0].amount, ds[0].amount);
    var cs', ds' := Settle(cs, t), Settle(ds, t);
    SettleKeeps(cs, t);
    SettleKeeps(ds, t);
    MovedStep(cs, ds, ds[j].user, cs[i].user);
    if (i == 0 && cs[0].amount == t) || (j == 0 && ds[0].amount == t) {
      NothingForStrangers(cs', ds', ds[j].user, cs[i].user);
      FirstIsDone(cs, ds, i, j);
    } else {
      Shifted(cs, t, i);
      Shifted(ds, t, j);
      var k, l := if cs[0].amount == t then i - 1 else i, if ds[0].amount == t then j - 1 else j;
      PairsOverlap(cs', ds', k, l);
      SumPrefix(cs, i);
      SumPrefix(ds, j);
      OverlapStays(SumClaims(cs[..i]), cs[i].amount, SumClaims(cs'[..k]), cs'[k].amount,
                   SumClaims(ds[..j]), ds[j].amount, SumClaims(ds'[..l]), ds'[l].amount, t);
    }
  }

  lemma {:induction false} FirstIsDone(cs: seq<Claim>, ds: seq<Claim>, i: nat, j: nat)
    requires Claims(cs, ds) && i < |cs| && j < |ds|
    requires var t := Min(cs[0].amount, ds[0].amount); (i == 0 && cs[0].amount == t) || (j == 0 && ds[0].amount == t)
    ensures Overlap(SumClaims(cs[..i]), cs[i].amount, SumClaims(ds[..j]), ds[j].amount) ==
            if i == 0 && j == 0 then Min(cs[0].amount, ds[0].amount) else 0
  {
    assert cs[..0] == [] && ds[..0] == [];
    if i > 0 { FirstCovered(cs, i); }
    if j > 0 { FirstCovered(ds, j); }
  }

  lemma {:induction false} FirstCovered(s: seq<Claim>, i: nat)
    requires Positive(s) && 0 < i < |s|
    ensures s[0].amount <= SumClaims(s[..i])
  {
    SumPrefix(s[1..], i - 1);
    assert s[..i][1..] == s[1..][..i - 1];
  }

  // ----- The list itself -----

  /** The transfer joins these two claims, with their handles. */
  predicate Joins(t: Transfer, c: Claim, d: Claim) {
    t.fromUser == d.user && t.fromHandle == d.handle && t.toUser == c.user && t.toHandle == c.handle
  }

  /** Where the claim at `k` of the rest stood before. */
  function Place(s: seq<Claim>, cents: int, k: nat): (i: nat)
    requires s != [] && k < |Settle(s, cents)|
    ensures i < |s| && Settle(s, cents)[k].user == s[i].user && Settle(s, cents)[k].handle == s[i].handle
  {
    if s[0].amount == cents then k + 1 else k
  }

  lemma {:induction false} RestOfGreedy(cs: seq<Claim>, ds: seq<Claim>)
    requires cs != [] && ds != [] && Positive(cs) && Positive(ds)
    ensures var t := Min(cs[0].amount, ds[0].amount);
            && Positive(Settle(cs, t)) && Positive(Settle(ds, t))
            && |Settle(cs, t)| + |Settle(ds, t)| < |cs| + |ds|
            && Greedy(cs, ds) == [Transfer(ds[0].user, ds[0].handle, cs[0].user, cs[0].handle, t)] +
                                 Greedy(Settle(cs, t), Settle(ds, t))
  {
    var t := Min(cs[0].amount, ds[0].amount);
    SettleKeeps(cs, t);
    SettleKeeps(ds, t);
  }

  /** The claims that the transfer at `k` joins. */
  lemma {:induction false} Joined(cs: seq<Claim>, ds: seq<Claim>, k: nat) returns (i: nat, j: nat)
    requires Positive(cs) && Positive(ds) && k < |Greedy(cs, ds)|
    ensures i < |cs| && j < |ds| && Joins(Greedy(cs, ds)[k], cs[i], ds[j])
    decreases |cs| + |ds|
  {
    RestOfGreedy(cs, ds);
    if k == 0 {
      i, j := 0, 0;
    } else {
      var t := Min(cs[0].amount, ds[0].amount);
      i, j := Joined(Settle(cs, t), Settle(ds, t), k - 1);
      i, j := Place(cs, t, i), Place(ds, t, j);
    }
  }

  /** The two transfers join claims of which neither side goes back. */
  ghost predicate Forward(cs: seq<Claim>, ds: seq<Claim>, t: Transfer, u: Transfer, at: (nat, nat), then_: (nat, nat)) {
    && at.0 <= then_.0 < |cs| && at.1 <= then_.1 < |ds|
    && Joins(t, cs[at.0], ds[at.1]) && Joins(u, cs[then_.0], ds[then_.1])
  }

  /** Transfers are listed creditor by creditor and debtor by debtor. */
  lemma {:induction false} ListedInOrder(cs: seq<Claim>, ds: seq<Claim>, k: nat, l: nat)
    returns (at: (nat, nat), then_: (nat, nat))
    requires Positive(cs) && Positive(ds) && k <= l < |Greedy(cs, ds)|
    ensures Forward(cs, ds, Greedy(cs, ds)[k], Greedy(cs, ds)[l], at, then_)
    decreases |cs| + |ds|
  {
    RestOfGreedy(cs, ds);
    if k == 0 {
      var i, j := Joined(cs, ds, l);
      at, then_ := (0, 0), (i, j);
    } else {
      var t := Min(cs[0].amount, ds[0].amount);
      at, then_ := ListedInOrder(Settle(cs, t), Settle(ds, t), k - 1, l - 1);
      at, then_ := (Place(cs, t, at.0), Place(ds, t, at.1)), (Place(cs, t, then_.0), Place(ds, t, then_.1));
    }
  }
}
