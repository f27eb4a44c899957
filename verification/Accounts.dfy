/** What every user has paid and owes after a list of shared expenses. */
module Accounts {
  import opened Shares
  import Sums

  const I64_MAX: int := 0x7FFF_FFFF_FFFF_FFFF

  /** A stored expense; its participants are read back in no particular order. */
  datatype Expense = Expense(paidBy: int, amount: int, participants: seq<int>)

  datatype Account = Account(paid: int, owed: int)

  type Ledger = map<int, Account>

  // ----- One expense at a time, as the summary builds it -----

  function Get(m: Ledger, user: int): Account {
    if user in m then m[user] else Account(0, 0)
  }

  function Credit(m: Ledger, user: int, cents: int): Ledger {
    m[user := Account(Get(m, user).paid + cents, Get(m, user).owed)]
  }

  function Charge(m: Ledger, user: int, cents: int): Ledger {
    m[user := Account(Get(m, user).paid, Get(m, user).owed + cents)]
  }

  /** The ledger once the first `k` of `ids` have been charged their share. */
  function Deal(m: Ledger, ids: seq<int>, amount: int, k: nat): Ledger
    requires k <= |ids|
  {
    if k == 0 then m else Charge(Deal(m, ids, amount, k - 1), ids[k - 1], Share(amount, |ids|, k - 1))
  }

  /** The ledger after crediting the payer and dealing `k` shares of one expense. */
  function Dealt(m: Ledger, e: Expense, k: nat): Ledger
    requires k <= |SortDedup(e.participants)|
  {
    Deal(Credit(m, e.paidBy, e.amount), SortDedup(e.participants), e.amount, k)
  }

  function Opened(members: set<int>): Ledger {
    map user | user in members :: Account(0, 0)
  }

  function After(members: set<int>, es: seq<Expense>): Ledger {
    if es == [] then Opened(members)
    else
      var e := es[|es| - 1];
      Dealt(After(members, es[..|es| - 1]), e, |SortDedup(e.participants)|)
  }

  function Total(es: seq<Expense>): int {
    if es == [] then 0 else Total(es[..|es| - 1]) + es[|es| - 1].amount
  }

  /** Accumulates all expenses; a map entry is opened the first time a user appears. */
  method Accumulate(members: set<int>, es: seq<Expense>) returns (ledger: Ledger, total: int)
    ensures ledger == After(members, es) && total == Total(es)
  {
    ledger, total := Opened(members), 0;
    for i := 0 to |es|
      invariant ledger == After(members, es[..i]) && total == Total(es[..i])
    {
      var e := es[i];
      assert es[..i + 1][..i] == es[..i];
      ghost var before := ledger;
      total := total + e.amount;
      ledger := Credit(ledger, e.paidBy, e.amount);
      var ids := SortDedup(e.participants);
      if ids == [] {
        continue;
      }
      var share, remainder := e.amount / |ids|, e.amount % |ids|;
      for index := 0 to |ids|
        invariant ledger == Dealt(before, e, index)
      {
        var extra := if index < remainder then 1 else 0;
        ledger := Charge(ledger, ids[index], share + extra);
      }
    }
    assert es[..|es|] == es;
  }

  // ----- The same figures, user by user -----

  ghost function SumOf(f: Expense -> int, es: seq<Expense>): int {
    if es == [] then 0 else SumOf(f, es[..|es| - 1]) + f(es[|es| - 1])
  }

  ghost function IndexOf(ids: seq<int>, user: int): (i: int)
    requires user in ids
    ensures 0 <= i < |ids| && ids[i] == user
  {
    var i :| 0 <= i < |ids| && ids[i] == user;
    i
  }

  ghost function PaidIn(user: int): Expense -> int {
    (e: Expense) => if e.paidBy == user then e.amount else 0
  }

  ghost function OwedIn(user: int): Expense -> int {
    (e: Expense) =>
      var ids := SortDedup(e.participants);
      if user in ids then Share(e.amount, |ids|, IndexOf(ids, user)) else 0
  }

  ghost function UnsharedIn(): Expense -> int {
    (e: Expense) => if e.participants == [] then e.amount else 0
  }

  /** The part of the expenses that nobody is charged for. */
  ghost function Unshared(es: seq<Expense>): int {
    SumOf(UnsharedIn(), es)
  }

  ghost function UsersOf(es: seq<Expense>): set<int> {
    set e, user | e in es && user in [e.paidBy] + e.participants :: user
  }

  /** Every member and everyone named by an expense, with what they paid and what they owe. */
  ghost function Statement(members: set<int>, es: seq<Expense>): Ledger {
    map user | user in members + UsersOf(es) :: Account(SumOf(PaidIn(user), es), SumOf(OwedIn(user), es))
  }

  lemma {:induction false} DealKeys(m: Ledger, ids: seq<int>, amount: int, k: nat)
    requires k <= |ids|
    ensures Deal(m, ids, amount, k).Keys == m.Keys + set i | 0 <= i < k :: ids[i]
  {
    if k != 0 {
      DealKeys(m, ids, amount, k - 1);
      assert (set i | 0 <= i < k :: ids[i]) == (set i | 0 <= i < k - 1 :: ids[i]) + {ids[k - 1]};
    }
  }

  lemma {:induction false} DealByUser(m: Ledger, ids: seq<int>, amount: int, k: nat, user: int)
    requires k <= |ids| && Increasing(ids)
    ensures Get(Deal(m, ids, amount, k), user).paid == Get(m, user).paid
    ensures Get(Deal(m, ids, amount, k), user).owed == Get(m, user).owed +
            if user in ids && IndexOf(ids, user) < k then Share(amount, |ids|, IndexOf(ids, user)) else 0
  {
    if k != 0 {
      DealByUser(m, ids, amount, k - 1, user);
      OneIndex(ids, k - 1, user);
    }
  }

  lemma {:induction false} OneIndex(ids: seq<int>, i: nat, user: int)
    requires Increasing(ids) && i < |ids|
    ensures ids[i] == user <==> user in ids && IndexOf(ids, user) == i
  {
  }

  lemma {:induction false} UsersOfAppend(es: seq<Expense>, e: Expense)
    ensures UsersOf(es + [e]) == UsersOf(es) + {e.paidBy} + set p | p in e.participants
  {
    forall u | u in UsersOf(es) + {e.paidBy} + set p | p in e.participants ensures u in UsersOf(es + [e]) {
      if u in UsersOf(es) {
        var d :| d in es && u in [d.paidBy] + d.participants;
        assert d in es + [e];
      } else {
        assert e in es + [e] && u in [e.paidBy] + e.participants;
      }
    }
  }

  lemma {:induction false} IndexSet(participants: seq<int>)
    ensures var ids := SortDedup(participants);
            (set i | 0 <= i < |ids| :: ids[i]) == set p | p in participants
  {
    var ids := SortDedup(participants);
    forall p | p in participants ensures exists i :: 0 <= i < |ids| && ids[i] == p { assert p in ids; }
    forall i | 0 <= i < |ids| ensures ids[i] in participants { assert ids[i] in ids; }
  }

  lemma {:induction false} AfterKeys(members: set<int>, es: seq<Expense>)
    ensures After(members, es).Keys == members + UsersOf(es)
  {
    if es != [] {
      var e, before := es[|es| - 1], es[..|es| - 1];
      AfterKeys(members, before);
      assert es == before + [e];
      UsersOfAppend(before, e);
      IndexSet(e.participants);
      var ids := SortDedup(e.participants);
      DealKeys(Credit(After(members, before), e.paidBy, e.amount), ids, e.amount, |ids|);
    }
  }

  lemma {:induction false} AfterByUser(members: set<int>, es: seq<Expense>, user: int)
    ensures Get(After(members, es), user) == Account(SumOf(PaidIn(user), es), SumOf(OwedIn(user), es))
  {
    if es != [] {
      var e, before := es[|es| - 1], es[..|es| - 1];
      AfterByUser(members, before, user);
      var ids := SortDedup(e.participants);
      DealByUser(Credit(After(members, before), e.paidBy, e.amount), ids, e.amount, |ids|, user);
    }
  }

  /** The map grown expense by expense is the statement computed for each user alone. */
  lemma {:induction false} AfterIsStatement(members: set<int>, es: seq<Expense>)
    ensures After(members, es) == Statement(members, es)
  {
    AfterKeys(members, es);
    forall user | user in After(members, es)
      ensures After(members, es)[user] == Statement(members, es)[user]
    {
      AfterByUser(members, es, user);
    }
  }

  // ----- Conservation -----

  ghost function PaidColumn(m: Ledger): map<int, int> { map u | u in m :: m[u].paid }

  ghost function OwedColumn(m: Ledger): map<int, int> { map u | u in m :: m[u].owed }

  ghost function BalanceColumn(m: Ledger): map<int, int> { map u | u in m :: m[u].paid - m[u].owed }

  lemma {:induction false} PaidUpdate(m: Ledger, user: int, a: Account)
    ensures Sums.Sum(PaidColumn(m[user := a])) == Sums.Sum(PaidColumn(m)) - Get(m, user).paid + a.paid
  {
    assert PaidColumn(m[user := a]) == PaidColumn(m)[user := a.paid];
    Sums.SumUpdate(PaidColumn(m), user, a.paid);
  }

  lemma {:induction false} OwedUpdate(m: Ledger, user: int, a: Account)
    ensures Sums.Sum(OwedColumn(m[user := a])) == Sums.Sum(OwedColumn(m)) - Get(m, user).owed + a.owed
  {
    assert OwedColumn(m[user := a]) == OwedColumn(m)[user := a.owed];
    Sums.SumUpdate(OwedColumn(m), user, a.owed);
  }

  lemma {:induction false} BalanceUpdate(m: Ledger, user: int, a: Account)
    ensures Sums.Sum(BalanceColumn(m[user := a])) ==
            Sums.Sum(BalanceColumn(m)) - (Get(m, user).paid - Get(m, user).owed) + (a.paid - a.owed)
  {
    assert BalanceColumn(m[user := a]) == BalanceColumn(m)[user := a.paid - a.owed];
    Sums.SumUpdate(BalanceColumn(m), user, a.paid - a.owed);
  }

  lemma {:induction false} CreditMovesSums(m: Ledger, user: int, cents: int)
    ensures var m' := Credit(m, user, cents);
            && Sums.Sum(PaidColumn(m')) == Sums.Sum(PaidColumn(m)) + cents
            && Sums.Sum(OwedColumn(m')) == Sums.Sum(OwedColumn(m))
            && Sums.Sum(BalanceColumn(m')) == Sums.Sum(BalanceColumn(m)) + cents
  {
    var a := Account(Get(m, user).paid + cents, Get(m, user).owed);
    PaidUpdate(m, user, a);
    OwedUpdate(m, user, a);
    BalanceUpdate(m, user, a);
  }

  lemma {:induction false} ChargeMovesSums(m: Ledger, user: int, cents: int)
    ensures var m' := Charge(m, user, cents);
            && Sums.Sum(PaidColumn(m')) == Sums.Sum(PaidColumn(m))
            && Sums.Sum(OwedColumn(m')) == Sums.Sum(OwedColumn(m)) + cents
            && Sums.Sum(BalanceColumn(m')) == Sums.Sum(BalanceColumn(m)) - cents
  {
    var a := Account(Get(m, user).paid, Get(m, user).owed + cents);
    PaidUpdate(m, user, a);
    OwedUpdate(m, user, a);
    BalanceUpdate(m, user, a);
  }

  lemma {:induction false} DealMovesSums(m: Ledger, ids: seq<int>, amount: int, k: nat)
    requires k <= |ids|
    ensures var m' := Deal(m, ids, amount, k);
            var dealt := if k == 0 then 0 else FirstShares(amount, |ids|, k);
            && Sums.Sum(PaidColumn(m')) == Sums.Sum(PaidColumn(m))
            && Sums.Sum(OwedColumn(m')) == Sums.Sum(OwedColumn(m)) + dealt
            && Sums.Sum(BalanceColumn(m')) == Sums.Sum(BalanceColumn(m)) - dealt
  {
    if k != 0 {
      DealMovesSums(m, ids, amount, k - 1);
      ChargeMovesSums(Deal(m, ids, amount, k - 1), ids[k - 1], Share(amount, |ids|, k - 1));
    }
  }

  /** Sums over all users after all expenses: what was paid, what is owed, and the difference. */
  lemma {:induction false} Conservation(members: set<int>, es: seq<Expense>)
    ensures var m := After(members, es);
            && Sums.Sum(PaidColumn(m)) == Total(es)
            && Sums.Sum(OwedColumn(m)) == Total(es) - Unshared(es)
            && Sums.Sum(BalanceColumn(m)) == Unshared(es)
  {
    if es == [] {
      var m := Opened(members);
      Sums.SumZero(PaidColumn(m));
      Sums.SumZero(OwedColumn(m));
      Sums.SumZero(BalanceColumn(m));
    } else {
      var e, before := es[|es| - 1], es[..|es| - 1];
      Conservation(members, before);
      CreditMovesSums(After(members, before), e.paidBy, e.amount);
      var ids := SortDedup(e.participants);
      DealMovesSums(Credit(After(members, before), e.paidBy, e.amount), ids, e.amount, |ids|);
      assert e.participants != [] ==> e.participants[0] in ids;
      if ids != [] {
        assert ids[0] in e.participants;
        SharesAreExactAndFair(e.amount, |ids|);
      }
    }
  }

  // ----- 64-bit range -----

  predicate FitsI64(x: int) {
    -I64_MAX - 1 <= x <= I64_MAX
  }

  ghost predicate AllFit(m: Ledger) {
    forall u :: u in m ==>
      FitsI64(m[u].paid) && FitsI64(m[u].owed) && FitsI64(m[u].paid - m[u].owed) && FitsI64(m[u].owed - m[u].paid)
  }

  /** Every running total and every account at every moment of the accumulation is an i64. */
  ghost predicate EveryStepFits(members: set<int>, es: seq<Expense>) {
    && (forall i :: 0 <= i <= |es| ==> FitsI64(Total(es[..i])))
    && (forall i, k :: 0 <= i < |es| && 0 <= k <= |SortDedup(es[i].participants)| ==>
          AllFit(Dealt(After(members, es[..i]), es[i], k)))
  }

  ghost predicate Amounts(es: seq<Expense>) {
    forall e :: e in es ==> 0 < e.amount
  }

  ghost predicate NonNegative(m: Ledger) {
    forall u :: u in m ==> 0 <= m[u].paid && 0 <= m[u].owed
  }

  lemma {:induction false} DealNonNegative(m: Ledger, ids: seq<int>, amount: int, k: nat)
    requires k <= |ids| && 0 <= amount && NonNegative(m)
    ensures NonNegative(Deal(m, ids, amount, k))
  {
    if k != 0 {
      DealNonNegative(m, ids, amount, k - 1);
    }
  }

  lemma {:induction false} AfterNonNegative(members: set<int>, es: seq<Expense>)
    requires Amounts(es)
    ensures NonNegative(After(members, es))
  {
    if es != [] {
      var e, before := es[|es| - 1], es[..|es| - 1];
      assert e in es && forall d :: d in before ==> d in es;
      AfterNonNegative(members, before);
      var ids := SortDedup(e.participants);
      DealNonNegative(Credit(After(members, before), e.paidBy, e.amount), ids, e.amount, |ids|);
    }
  }

  lemma {:induction false} TotalGrows(es: seq<Expense>, i: nat)
    requires Amounts(es) && i <= |es|
    ensures 0 <= Total(es[..i]) <= Total(es)
  {
    if es == [] {
      assert es[..i] == es;
    } else {
      var e, before := es[|es| - 1], es[..|es| - 1];
      assert e in es && forall d :: d in before ==> d in es;
      if i < |es| {
        TotalGrows(before, i);
        assert before[..i] == es[..i];
      } else {
        TotalGrows(before, |before|);
        assert before[..|before|] == before && es[..i] == es;
      }
    }
  }

  lemma {:induction false} UnsharedNonNegative(es: seq<Expense>)
    requires Amounts(es)
    ensures 0 <= Unshared(es)
  {
    if es != [] {
      assert es[|es| - 1] in es && forall d :: d in es[..|es| - 1] ==> d in es;
      UnsharedNonNegative(es[..|es| - 1]);
    }
  }

  lemma {:induction false} DealtNonNegative(members: set<int>, es: seq<Expense>, i: nat, k: nat)
    requires Amounts(es) && i < |es| && k <= |SortDedup(es[i].participants)|
    ensures NonNegative(Dealt(After(members, es[..i]), es[i], k))
  {
    var e, before := es[i], After(members, es[..i]);
    assert e in es && forall d :: d in es[..i] ==> d in es;
    AfterNonNegative(members, es[..i]);
    DealNonNegative(Credit(before, e.paidBy, e.amount), SortDedup(e.participants), e.amount, k);
  }

  lemma {:induction false} StepSums(members: set<int>, es: seq<Expense>, i: nat, k: nat)
    requires Amounts(es) && i < |es| && k <= |SortDedup(es[i].participants)|
    ensures var m := Dealt(After(members, es[..i]), es[i], k);
            && Sums.Sum(PaidColumn(m)) <= Total(es[..i + 1])
            && Sums.Sum(OwedColumn(m)) <= Total(es[..i + 1])
  {
    var e, before := es[i], After(members, es[..i]);
    var ids, credited := SortDedup(e.participants), Credit(before, e.paidBy, e.amount);
    assert e in es && forall d :: d in es[..i] ==> d in es;
    Conservation(members, es[..i]);
    UnsharedNonNegative(es[..i]);
    CreditMovesSums(before, e.paidBy, e.amount);
    DealMovesSums(credited, ids, e.amount, k);
    if k != 0 {
      FirstSharesBounded(e.amount, |ids|, k);
    }
    assert es[..i + 1][..i] == es[..i];
  }

  lemma {:induction false} StepBounded(members: set<int>, es: seq<Expense>, i: nat, k: nat)
    requires Amounts(es) && i < |es| && k <= |SortDedup(es[i].participants)|
    ensures var m := Dealt(After(members, es[..i]), es[i], k);
            NonNegative(m) && forall u :: u in m ==> m[u].paid <= Total(es) && m[u].owed <= Total(es)
  {
    var m := Dealt(After(members, es[..i]), es[i], k);
    DealtNonNegative(members, es, i, k);
    StepSums(members, es, i, k);
    TotalGrows(es, i + 1);
    assert forall u :: u in m ==> 0 <= m[u].paid && 0 <= m[u].owed;
    Sums.SumNonNegative(PaidColumn(m));
    Sums.SumNonNegative(OwedColumn(m));
    forall u | u in m ensures m[u].paid <= Total(es) && m[u].owed <= Total(es) {
      assert u in PaidColumn(m) && u in OwedColumn(m);
    }
  }

  /** No 64-bit operation of the accumulation can overflow exactly when the grand total fits. */
  lemma {:induction false} NoOverflowIffTotalFits(members: set<int>, es: seq<Expense>)
    requires Amounts(es)
    ensures EveryStepFits(members, es) <==> Total(es) <= I64_MAX
  {
    assert es[..|es|] == es;
    if Total(es) <= I64_MAX {
      forall i | 0 <= i <= |es| ensures FitsI64(Total(es[..i])) { TotalGrows(es, i); }
      forall i, k | 0 <= i < |es| && 0 <= k <= |SortDedup(es[i].participants)|
        ensures AllFit(Dealt(After(members, es[..i]), es[i], k))
      {
        StepBounded(members, es, i, k);
      }
    }
  }

  // ----- Independence of order -----

  /** The expense with its participants in canonical order. */
  ghost function Canonical(e: Expense): Expense {
    e.(participants := SortDedup(e.participants))
  }

  ghost function CanonicalAll(es: seq<Expense>): seq<Expense> {
    seq(|es|, i requires 0 <= i < |es| => Canonical(es[i]))
  }

  /** The same expenses, listed in any order with their participants in any order. */
  ghost predicate SameExpenses(a: seq<Expense>, b: seq<Expense>) {
    multiset(CanonicalAll(a)) == multiset(CanonicalAll(b))
  }

  lemma {:induction false} RestIsPermutation(a: seq<Expense>, b: seq<Expense>, j: nat)
    requires a != [] && multiset(a) == multiset(b) && j < |b| && b[j] == a[|a| - 1]
    ensures multiset(a[..|a| - 1]) == multiset(b[..j] + b[j + 1..])
  {
    assert a == a[..|a| - 1] + [a[|a| - 1]];
    assert b == b[..j] + [b[j]] + b[j + 1..];
    assert multiset(b[..j] + b[j + 1..]) == multiset(b) - multiset{b[j]};
    assert multiset(a[..|a| - 1]) == multiset(a) - multiset{b[j]};
  }

  lemma {:induction false} SumOfPermutation(f: Expense -> int, a: seq<Expense>, b: seq<Expense>)
    requires multiset(a) == multiset(b)
    ensures SumOf(f, a) == SumOf(f, b)
    decreases |a|
  {
    if a == [] {
      assert |multiset(b)| == 0;
    } else {
      assert a[|a| - 1] in multiset(b);
      var j :| 0 <= j < |b| && b[j] == a[|a| - 1];
      RestIsPermutation(a, b, j);
      SumOfPermutation(f, a[..|a| - 1], b[..j] + b[j + 1..]);
      SumOfRemove(f, b, j);
    }
  }

  lemma {:induction false} SumOfRemove(f: Expense -> int, s: seq<Expense>, j: nat)
    requires j < |s|
    ensures SumOf(f, s) == SumOf(f, s[..j] + s[j + 1..]) + f(s[j])
  {
    var last := |s| - 1;
    if j == last {
      assert s[..j] + s[j + 1..] == s[..last];
    } else {
      SumOfRemove(f, s[..last], j);
      var rest := s[..j] + s[j + 1..];
      assert rest[..|rest| - 1] == s[..last][..j] + s[..last][j + 1..];
      assert rest[|rest| - 1] == s[last];
    }
  }

  lemma {:induction false} SortDedupIdempotent(s: seq<int>)
    ensures SortDedup(SortDedup(s)) == SortDedup(s)
  {
    IncreasingUnique(SortDedup(SortDedup(s)), SortDedup(s));
  }

  lemma {:induction false} SumOfCanonical(f: Expense -> int, es: seq<Expense>)
    requires forall e :: f(e) == f(Canonical(e))
    ensures SumOf(f, CanonicalAll(es)) == SumOf(f, es)
  {
    if es != [] {
      SumOfCanonical(f, es[..|es| - 1]);
      assert CanonicalAll(es)[..|es| - 1] == CanonicalAll(es[..|es| - 1]);
    }
  }

  lemma {:induction false} UsersOfCanonical(a: seq<Expense>, b: seq<Expense>)
    requires SameExpenses(a, b)
    ensures UsersOf(a) <= UsersOf(b)
  {
    forall u | u in UsersOf(a) ensures u in UsersOf(b) {
      var e :| e in a && u in [e.paidBy] + e.participants;
      var i :| 0 <= i < |a| && a[i] == e;
      assert CanonicalAll(a)[i] in multiset(CanonicalAll(a));
      assert Canonical(e) in multiset(CanonicalAll(b));
      assert Canonical(e) in CanonicalAll(b);
      var j :| 0 <= j < |b| && Canonical(b[j]) == Canonical(e);
      assert b[j] in b;
      assert u in e.participants ==> u in SortDedup(e.participants) && u in b[j].participants;
      assert u in [b[j].paidBy] + b[j].participants;
    }
  }

  /** The ledger does not depend on the order of the expenses, nor of anyone in them. */
  lemma {:induction false} LedgerIgnoresOrder(members: set<int>, a: seq<Expense>, b: seq<Expense>)
    requires SameExpenses(a, b)
    ensures After(members, a) == After(members, b)
  {
    AfterIsStatement(members, a);
    AfterIsStatement(members, b);
    UsersOfCanonical(a, b);
    UsersOfCanonical(b, a);
    forall u, f | f == PaidIn(u) || f == OwedIn(u) ensures SumOf(f, a) == SumOf(f, b) {
      forall e ensures f(e) == f(Canonical(e)) { SortDedupIdempotent(e.participants); }
      SumOfCanonical(f, a);
      SumOfCanonical(f, b);
      SumOfPermutation(f, CanonicalAll(a), CanonicalAll(b));
    }
    assert Statement(members, a) == Statement(members, b);
  }
}
