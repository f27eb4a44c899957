/** The two-pointer settlement: debtors pay creditors in order until one side is exhausted. */
module Settlement {
  import opened Options

  /** What one user still has to receive (a creditor) or to pay (a debtor). */
  datatype Claim = Claim(user: int, handle: Option<string>, amount: int)

  datatype Transfer = Transfer(
    fromUser: int, fromHandle: Option<string>, toUser: int, toHandle: Option<string>, amount: int)

  function Min(a: int, b: int): int { if a <= b then a else b }

  function Clamp(x: int, hi: int): int { if x < 0 then 0 else Min(x, hi) }

  /** The claims left once `cents` of the first one are settled. */
  function Settle(s: seq<Claim>, cents: int): (r: seq<Claim>)
    requires s != []
  {
    if s[0].amount == cents then s[1..] else [s[0].(amount := s[0].amount - cents)] + s[1..]
  }

  ghost predicate Positive(s: seq<Claim>) {
    forall i :: 0 <= i < |s| ==> 0 < s[i].amount
  }

  ghost predicate Distinct(s: seq<Claim>) {
    forall i, j :: 0 <= i < j < |s| ==> s[i].user != s[j].user
  }

  ghost predicate Claims(creditors: seq<Claim>, debtors: seq<Claim>) {
    Positive(creditors) && Positive(debtors) && Distinct(creditors) && Distinct(debtors)
  }

  /** The transfers of the greedy settlement. */
  function Greedy(creditors: seq<Claim>, debtors: seq<Claim>): seq<Transfer>
    requires Positive(creditors) && Positive(debtors)
    decreases |creditors| + |debtors|
  {
    if creditors == [] || debtors == [] then []
    else
      var c, d := creditors[0], debtors[0];
      var t := Min(c.amount, d.amount);
      [Transfer(d.user, d.handle, c.user, c.handle, t)] + Greedy(Settle(creditors, t), Settle(debtors, t))
  }

  ghost function SumClaims(s: seq<Claim>): int {
    if s == [] then 0 else s[0].amount + SumClaims(s[1..])
  }

  ghost function Sent(ts: seq<Transfer>, user: int): int {
    if ts == [] then 0 else (if ts[0].fromUser == user then ts[0].amount else 0) + Sent(ts[1..], user)
  }

  ghost function Received(ts: seq<Transfer>, user: int): int {
    if ts == [] then 0 else (if ts[0].toUser == user then ts[0].amount else 0) + Received(ts[1..], user)
  }

  ghost predicate Names(s: seq<Claim>, user: int) {
    exists i :: 0 <= i < |s| && s[i].user == user
  }

  lemma {:induction false} SumNonNegative(s: seq<Claim>)
    requires Positive(s)
    ensures 0 <= SumClaims(s)
    ensures s != [] ==> s[0].amount <= SumClaims(s)
  {
    if s != [] { SumNonNegative(s[1..]); }
  }

  lemma {:induction false} SumPrefix(s: seq<Claim>, i: nat)
    requires Positive(s) && i <= |s|
    ensures 0 <= SumClaims(s[..i]) <= SumClaims(s)
    ensures i < |s| ==> SumClaims(s[..i]) + s[i].amount <= SumClaims(s)
  {
    if i == 0 {
      SumNonNegative(s);
    } else {
      SumPrefix(s[1..], i - 1);
      assert s[..i][1..] == s[1..][..i - 1];
    }
  }

  lemma {:induction false} SettleKeeps(s: seq<Claim>, cents: int)
    requires s != [] && Positive(s) && 0 < cents <= s[0].amount
    ensures Positive(Settle(s, cents))
    ensures Distinct(s) ==> Distinct(Settle(s, cents))
    ensures SumClaims(Settle(s, cents)) == SumClaims(s) - cents
    ensures forall u :: Names(Settle(s, cents), u) ==> Names(s, u)
    ensures Distinct(s) && s[0].amount == cents ==> !Names(Settle(s, cents), s[0].user)
  {
    var r := Settle(s, cents);
    if s[0].amount == cents {
      forall u | Names(r, u) ensures Names(s, u) {
        var i :| 0 <= i < |r| && r[i].user == u;
        assert s[i + 1].user == u;
      }
    } else {
      assert r[1..] == s[1..];
      forall u | Names(r, u) ensures Names(s, u) {
        var i :| 0 <= i < |r| && r[i].user == u;
        assert s[i].user == u;
      }
    }
  }

  /** Every transfer moves a positive amount from a debtor to a creditor. */
  lemma {:induction false} TransfersAreSound(cs: seq<Claim>, ds: seq<Claim>)
    requires Positive(cs) && Positive(ds)
    ensures forall k :: 0 <= k < |Greedy(cs, ds)| ==>
              var t := Greedy(cs, ds)[k];
              0 < t.amount && Names(ds, t.fromUser) && Names(cs, t.toUser)
    decreases |cs| + |ds|
  {
    if cs != [] && ds != [] {
      var t := Min(cs[0].amount, ds[0].amount);
      SettleKeeps(cs, t);
      SettleKeeps(ds, t);
      TransfersAreSound(Settle(cs, t), Settle(ds, t));
      assert Names(ds, ds[0].user) && Names(cs, cs[0].user);
      var rest := Greedy(Settle(cs, t), Settle(ds, t));
      assert Greedy(cs, ds)[1..] == rest;
      forall k | 1 <= k < |Greedy(cs, ds)| ensures Greedy(cs, ds)[k] == rest[k - 1] {}
    }
  }

  /** Every transfer closes a claim, and the last one of a balanced side closes two. */
  lemma {:induction false} TransferCount(cs: seq<Claim>, ds: seq<Claim>)
    requires Positive(cs) && Positive(ds)
    ensures cs == [] || ds == [] ==> Greedy(cs, ds) == []
    ensures cs != [] && ds != [] ==> 1 <= |Greedy(cs, ds)| <= |cs| + |ds| - 1
    decreases |cs| + |ds|
  {
    if cs != [] && ds != [] {
      var t := Min(cs[0].amount, ds[0].amount);
      SettleKeeps(cs, t);
      SettleKeeps(ds, t);
      TransferCount(Settle(cs, t), Settle(ds, t));
    }
  }

  lemma {:induction false} NoneForStrangers(cs: seq<Claim>, ds: seq<Claim>, user: int)
    requires Positive(cs) && Positive(ds)
    ensures !Names(ds, user) ==> Sent(Greedy(cs, ds), user) == 0
    ensures !Names(cs, user) ==> Received(Greedy(cs, ds), user) == 0
    decreases |cs| + |ds|
  {
    if cs != [] && ds != [] {
      var t := Min(cs[0].amount, ds[0].amount);
      SettleKeeps(cs, t);
      SettleKeeps(ds, t);
      NoneForStrangers(Settle(cs, t), Settle(ds, t), user);
      assert cs[0].user == user ==> Names(cs, user);
      assert ds[0].user == user ==> Names(ds, user);
    }
  }

  lemma {:induction false} PrefixSettled(s: seq<Claim>, cents: int, i: nat)
    requires s != [] && 0 < i < |s|
    ensures var r := Settle(s, cents);
            if s[0].amount == cents then r[i - 1] == s[i] && SumClaims(s[..i]) == cents + SumClaims(r[..i - 1])
            else r[i] == s[i] && SumClaims(r[..i]) == SumClaims(s[..i]) - cents
  {
    var r := Settle(s, cents);
    if s[0].amount == cents {
      assert s[..i][1..] == r[..i - 1];
    } else {
      assert s[..i][1..] == r[..i][1..];
    }
  }

  lemma {:induction false} ReceivedStep(cs: seq<Claim>, ds: seq<Claim>, user: int)
    requires cs != [] && ds != [] && Positive(cs) && Positive(ds)
    ensures var t := Min(cs[0].amount, ds[0].amount);
            && Positive(Settle(cs, t)) && Positive(Settle(ds, t))
            && Received(Greedy(cs, ds), user) ==
                 (if cs[0].user == user then t else 0) + Received(Greedy(Settle(cs, t), Settle(ds, t)), user)
  {
    var t := Min(cs[0].amount, ds[0].amount);
    SettleKeeps(cs, t);
    SettleKeeps(ds, t);
    assert Greedy(cs, ds)[1..] == Greedy(Settle(cs, t), Settle(ds, t));
  }

  lemma {:induction false} FirstCreditorServed(cs: seq<Claim>, ds: seq<Claim>)
    requires Claims(cs, ds) && cs != []
    ensures Received(Greedy(cs, ds), cs[0].user) == Clamp(SumClaims(ds), cs[0].amount)
    decreases |cs| + |ds|
  {
    SumNonNegative(ds);
    if ds != [] {
      var t := Min(cs[0].amount, ds[0].amount);
      var cs', ds' := Settle(cs, t), Settle(ds, t);
      SettleKeeps(cs, t);
      SettleKeeps(ds, t);
      SumNonNegative(ds');
      ReceivedStep(cs, ds, cs[0].user);
      if cs[0].amount == t {
        NoneForStrangers(cs', ds', cs[0].user);
      } else {
        FirstCreditorServed(cs', ds');
      }
    }
  }

  /**
   * Creditors are served in order out of the whole debt: creditor `i` receives what the debt
   * leaves after the creditors before it, up to its own claim.
   */
  lemma {:induction false} CreditorsServedInOrder(cs: seq<Claim>, ds: seq<Claim>, i: nat)
    requires Claims(cs, ds) && i < |cs|
    ensures Received(Greedy(cs, ds), cs[i].user) ==
            Clamp(SumClaims(ds) - SumClaims(cs[..i]), cs[i].amount)
    decreases |cs| + |ds|
  {
    if i == 0 {
      FirstCreditorServed(cs, ds);
      assert cs[..0] == [];
    } else if ds == [] {
      SumPrefix(cs, i);
    } else {
      var t := Min(cs[0].amount, ds[0].amount);
      var cs', ds' := Settle(cs, t), Settle(ds, t);
      SettleKeeps(cs, t);
      SettleKeeps(ds, t);
      ReceivedStep(cs, ds, cs[i].user);
      PrefixSettled(cs, t, i);
      CreditorsServedInOrder(cs', ds', if cs[0].amount == t then i - 1 else i);
    }
  }

  /** Swapping the two sides swaps the roles in every transfer. */
  lemma {:induction false} Mirror(cs: seq<Claim>, ds: seq<Claim>, user: int)
    requires Positive(cs) && Positive(ds)
    ensures Sent(Greedy(cs, ds), user) == Received(Greedy(ds, cs), user)
    decreases |cs| + |ds|
  {
    if cs != [] && ds != [] {
      var t := Min(cs[0].amount, ds[0].amount);
      SettleKeeps(cs, t);
      SettleKeeps(ds, t);
      Mirror(Settle(cs, t), Settle(ds, t), user);
      ReceivedStep(ds, cs, user);
      assert Greedy(cs, ds)[1..] == Greedy(Settle(cs, t), Settle(ds, t));
    }
  }

  /** Debtors pay in order up to the whole credit. */
  lemma {:induction false} DebtorsPayInOrder(cs: seq<Claim>, ds: seq<Claim>, j: nat)
    requires Claims(cs, ds) && j < |ds|
    ensures Sent(Greedy(cs, ds), ds[j].user) ==
            Clamp(SumClaims(cs) - SumClaims(ds[..j]), ds[j].amount)
  {
    Mirror(cs, ds, ds[j].user);
    CreditorsServedInOrder(ds, cs, j);
  }

  ghost predicate CreditServed(cs: seq<Claim>, ds: seq<Claim>, ts: seq<Transfer>, i: nat)
    requires i < |cs|
  {
    Received(ts, cs[i].user) == Clamp(SumClaims(ds) - SumClaims(cs[..i]), cs[i].amount)
  }

  ghost predicate DebtServed(cs: seq<Claim>, ds: seq<Claim>, ts: seq<Transfer>, j: nat)
    requires j < |ds|
  {
    Sent(ts, ds[j].user) == Clamp(SumClaims(cs) - SumClaims(ds[..j]), ds[j].amount)
  }

  /** A user outside a side takes no part on that side. */
  ghost predicate IdleOutside(cs: seq<Claim>, ds: seq<Claim>, ts: seq<Transfer>, user: int) {
    (!Names(cs, user) ==> Received(ts, user) == 0) && (!Names(ds, user) ==> Sent(ts, user) == 0)
  }

  /** Both sides are served in order, and nobody outside a side takes part on that side. */
  ghost predicate Served(cs: seq<Claim>, ds: seq<Claim>, ts: seq<Transfer>) {
    && (forall i :: 0 <= i < |cs| ==> CreditServed(cs, ds, ts, i))
    && (forall j :: 0 <= j < |ds| ==> DebtServed(cs, ds, ts, j))
    && (forall u :: IdleOutside(cs, ds, ts, u))
  }

  lemma {:induction false} GreedyServes(cs: seq<Claim>, ds: seq<Claim>)
    requires Claims(cs, ds)
    ensures Served(cs, ds, Greedy(cs, ds))
  {
    var ts := Greedy(cs, ds);
    forall i | 0 <= i < |cs| ensures CreditServed(cs, ds, ts, i) {
      CreditorsServedInOrder(cs, ds, i);
    }
    forall j | 0 <= j < |ds| ensures DebtServed(cs, ds, ts, j) {
      DebtorsPayInOrder(cs, ds, j);
    }
    forall u ensures IdleOutside(cs, ds, ts, u) {
      NoneForStrangers(cs, ds, u);
    }
  }

  ghost predicate NoPairRepeats(ts: seq<Transfer>) {
    forall i, j :: 0 <= i < j < |ts| ==> (ts[i].fromUser, ts[i].toUser) != (ts[j].fromUser, ts[j].toUser)
  }

  /** No two transfers join the same pair of users. */
  lemma {:induction false} PairsAreDistinct(cs: seq<Claim>, ds: seq<Claim>)
    requires Claims(cs, ds)
    ensures NoPairRepeats(Greedy(cs, ds))
    decreases |cs| + |ds|
  {
    if cs != [] && ds != [] {
      var t := Min(cs[0].amount, ds[0].amount);
      var cs', ds' := Settle(cs, t), Settle(ds, t);
      SettleKeeps(cs, t);
      SettleKeeps(ds, t);
      PairsAreDistinct(cs', ds');
      TransfersAreSound(cs', ds');
      var rest := Greedy(cs', ds');
      assert forall k :: 0 <= k < |rest| ==> (rest[k].fromUser, rest[k].toUser) != (ds[0].user, cs[0].user);
      assert Greedy(cs, ds) == [Greedy(cs, ds)[0]] + rest;
    }
  }

  // ----- The loop over the two vectors -----

  /** An open claim: an index into the sorted balances and the cents still open. */
  datatype Entry = Entry(index: nat, amount: int)

  ghost predicate InRange(s: seq<Entry>, n: nat) {
    forall i :: 0 <= i < |s| ==> s[i].index < n && 0 < s[i].amount
  }

  /** The claims that entries stand for, given the users of the sorted balances. */
  ghost function Named(s: seq<Entry>, users: seq<(int, Option<string>)>): (r: seq<Claim>)
    requires InRange(s, |users|)
    ensures |r| == |s| && Positive(r)
    ensures forall i :: 0 <= i < |s| ==>
      r[i] == Claim(users[s[i].index].0, users[s[i].index].1, s[i].amount)
  {
    seq(|s|, i requires 0 <= i < |s| => Claim(users[s[i].index].0, users[s[i].index].1, s[i].amount))
  }

  ghost function SettleEntries(s: seq<Entry>, cents: int): seq<Entry>
    requires s != []
  {
    if s[0].amount == cents then s[1..] else [s[0].(amount := s[0].amount - cents)] + s[1..]
  }

  lemma {:induction false} EntriesClosed(s: seq<Entry>, users: seq<(int, Option<string>)>)
    requires s != [] && InRange(s, |users|)
    ensures InRange(s[1..], |users|) && Named(s[1..], users) == Named(s, users)[1..]
  {
    assert forall i :: 0 <= i < |s[1..]| ==> s[1..][i] == s[i + 1];
  }

  lemma {:induction false} EntriesReduced(s: seq<Entry>, users: seq<(int, Option<string>)>, cents: int)
    requires s != [] && InRange(s, |users|) && 0 < cents < s[0].amount
    ensures var r, named := [s[0].(amount := s[0].amount - cents)] + s[1..], Named(s, users);
            InRange(r, |users|) && Named(r, users) == [named[0].(amount := named[0].amount - cents)] + named[1..]
  {
    var r := [s[0].(amount := s[0].amount - cents)] + s[1..];
    assert forall i :: 1 <= i < |r| ==> r[i] == s[i];
  }

  lemma {:induction false} EntriesSettle(s: seq<Entry>, users: seq<(int, Option<string>)>, cents: int)
    requires s != [] && InRange(s, |users|) && 0 < cents <= s[0].amount
    ensures InRange(SettleEntries(s, cents), |users|)
    ensures Named(SettleEntries(s, cents), users) == Settle(Named(s, users), cents)
  {
    if s[0].amount == cents {
      EntriesClosed(s, users);
    } else {
      EntriesReduced(s, users, cents);
    }
  }

  function Payment(users: seq<(int, Option<string>)>, c: Entry, d: Entry, amount: int): Transfer
    requires c.index < |users| && d.index < |users|
  {
    Transfer(users[d.index].0, users[d.index].1, users[c.index].0, users[c.index].1, amount)
  }

  lemma {:induction false} LoopStep(users: seq<(int, Option<string>)>, cs: seq<Entry>, ds: seq<Entry>)
    requires cs != [] && ds != [] && InRange(cs, |users|) && InRange(ds, |users|)
    ensures var amount := Min(cs[0].amount, ds[0].amount);
            && InRange(SettleEntries(cs, amount), |users|) && InRange(SettleEntries(ds, amount), |users|)
            && Greedy(Named(cs, users), Named(ds, users)) == [Payment(users, cs[0], ds[0], amount)] +
                 Greedy(Named(SettleEntries(cs, amount), users), Named(SettleEntries(ds, amount), users))
  {
    var amount := Min(cs[0].amount, ds[0].amount);
    EntriesSettle(cs, users, amount);
    EntriesSettle(ds, users, amount);
  }

  /** Decrements the open claim at `i` in place and steps over it once it reaches zero. */
  method Decrement(a: array<Entry>, i: nat, amount: int) returns (next: nat)
    requires i < a.Length
    modifies a
    ensures i <= next <= a.Length && a[next..] == SettleEntries(old(a[i..]), amount)
    ensures next == if old(a[i]).amount == amount then i + 1 else i
  {
    a[i] := a[i].(amount := a[i].amount - amount);
    next := if a[i].amount == 0 then i + 1 else i;
  }

  ghost predicate Open(users: seq<(int, Option<string>)>, cs: seq<Entry>, ds: seq<Entry>,
                       settlements: seq<Transfer>, all: seq<Transfer>)
  {
    && InRange(cs, |users|) && InRange(ds, |users|)
    && settlements + Greedy(Named(cs, users), Named(ds, users)) == all
  }

  lemma {:induction false} OpenStep(users: seq<(int, Option<string>)>, cs: seq<Entry>, ds: seq<Entry>,
                 settlements: seq<Transfer>, all: seq<Transfer>)
    requires Open(users, cs, ds, settlements, all) && cs != [] && ds != []
    ensures var amount := Min(cs[0].amount, ds[0].amount);
            Open(users, SettleEntries(cs, amount), SettleEntries(ds, amount),
                 settlements + [Payment(users, cs[0], ds[0], amount)], all)
  {
    LoopStep(users, cs, ds);
  }

  /** The settlement loop: both vectors are decremented in place while two indices advance. */
  method SettleInPlace(users: seq<(int, Option<string>)>, creditors: array<Entry>, debtors: array<Entry>)
    returns (settlements: seq<Transfer>)
    requires creditors != debtors
    requires InRange(creditors[..], |users|) && InRange(debtors[..], |users|)
    modifies creditors, debtors
    ensures settlements == Greedy(Named(old(creditors[..]), users), Named(old(debtors[..]), users))
  {
    settlements := [];
    var ci, di := 0, 0;
    ghost var all := Greedy(Named(creditors[..], users), Named(debtors[..], users));
    assert creditors[0..] == creditors[..] && debtors[0..] == debtors[..];
    while ci < creditors.Length && di < debtors.Length
      invariant 0 <= ci <= creditors.Length && 0 <= di <= debtors.Length
      invariant Open(users, creditors[ci..], debtors[di..], settlements, all)
      decreases creditors.Length - ci + debtors.Length - di
    {
      ghost var cs, ds := creditors[ci..], debtors[di..];
      var c, d := creditors[ci], debtors[di];
      assert cs[0] == c && ds[0] == d;
      OpenStep(users, cs, ds, settlements, all);
      var amount := Min(c.amount, d.amount);
      settlements := settlements + [Payment(users, c, d, amount)];
      ci := Decrement(creditors, ci, amount);
      di := Decrement(debtors, di, amount);
    }
  }
}
