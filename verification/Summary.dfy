/** The shared-expense summary of an event: balances in a fixed order and the settling transfers. */
module Summary {
  import opened Options
  import opened Shares
  import opened Accounts
  import opened Settlement
  import Sets
  import Sums

  /** The event's members with their handles. */
  type Members = map<int, Option<string>>

  datatype Balance = Balance(user: int, handle: Option<string>, paid: int, owed: int, balance: int)

  // ----- Accepting an expense -----

  datatype ExpenseError = BlankTitle | AmountNotPositive | NoParticipant | UnknownPayer | UnknownParticipant

  function CreateExpense(members: set<int>, requester: int, blankTitle: bool, amount: int,
                         payer: Option<int>, participants: seq<int>): Result<Expense, ExpenseError>
  {
    var ids := SortDedup(participants);
    var paidBy := if payer.Some? then payer.value else requester;
    if blankTitle then Err(BlankTitle)
    else if amount <= 0 then Err(AmountNotPositive)
    else if ids == [] then Err(NoParticipant)
    else if paidBy !in members then Err(UnknownPayer)
    else if exists id :: id in ids && id !in members then Err(UnknownParticipant)
    else Ok(Expense(paidBy, amount, ids))
  }

  /** Only expenses that come out of `CreateExpense`, against any members. */
  ghost predicate AllCreated(es: seq<Expense>) {
    forall e :: e in es ==> exists members, requester, amount, payer, participants ::
      CreateExpense(members, requester, false, amount, payer, participants) == Ok(e)
  }

  // ----- The order of the balances -----

  predicate StringLess(a: string, b: string) {
    b != [] && (a == [] || a[0] < b[0] || (a[0] == b[0] && StringLess(a[1..], b[1..])))
  }

  predicate HandleLess(a: Option<string>, b: Option<string>) {
    match (a, b)
    case (_, None) => false
    case (None, Some(_)) => true
    case (Some(x), Some(y)) => StringLess(x, y)
  }

  /** Larger balances first, then handles, then user identifiers. */
  predicate Before(a: Balance, b: Balance) {
    || b.balance < a.balance
    || (a.balance == b.balance && HandleLess(a.handle, b.handle))
    || (a.balance == b.balance && a.handle == b.handle && a.user < b.user)
  }

  lemma {:induction false} StringOrder(a: string, b: string, c: string)
    ensures !StringLess(a, a)
    ensures StringLess(a, b) || StringLess(b, a) || a == b
    ensures StringLess(a, b) && StringLess(b, c) ==> StringLess(a, c)
  {
    if a != [] {
      StringOrder(a[1..], if b == [] then [] else b[1..], if c == [] then [] else c[1..]);
      if b != [] && a[0] == b[0] && a[1..] == b[1..] {
        assert a == [a[0]] + a[1..] == [b[0]] + b[1..] == b;
      }
    }
  }

  /** The comparison is a strict order that ties no two different users. */
  lemma {:induction false} BeforeIsTotalOrder(a: Balance, b: Balance, c: Balance)
    ensures !Before(a, a)
    ensures a.user != b.user ==> Before(a, b) || Before(b, a)
    ensures Before(a, b) && Before(b, c) ==> Before(a, c)
  {
    var x, y, z := if a.handle.Some? then a.handle.value else [],
                   if b.handle.Some? then b.handle.value else [],
                   if c.handle.Some? then c.handle.value else [];
    StringOrder(x, y, z);
  }

  ghost predicate Ordered(s: seq<Balance>) {
    forall i, j :: 0 <= i < j < |s| ==> Before(s[i], s[j])
  }

  ghost predicate DistinctUsers(s: seq<Balance>) {
    forall i, j :: 0 <= i < j < |s| ==> s[i].user != s[j].user
  }

  function Insert(b: Balance, s: seq<Balance>): (r: seq<Balance>)
    requires Ordered(s) && forall x :: x in s ==> x.user != b.user
    ensures Ordered(r)
    ensures forall x :: x in r <==> x == b || x in s
  {
    if s == [] then [b]
    else if Before(b, s[0]) then
      assert forall i :: 0 <= i < |s| ==> Before(b, s[i]) by {
        forall i | 0 <= i < |s| ensures Before(b, s[i]) { BeforeIsTotalOrder(b, s[0], s[i]); }
      }
      [b] + s
    else
      assert s[0] in s && s == [s[0]] + s[1..];
      var rest := Insert(b, s[1..]);
      assert forall i :: 0 <= i < |rest| ==> Before(s[0], rest[i]) by {
        BeforeIsTotalOrder(b, s[0], s[0]);
        forall i | 0 <= i < |rest| ensures Before(s[0], rest[i]) { assert rest[i] in rest; }
      }
      [s[0]] + rest
  }

  /** `sort_by` on balances of different users. */
  function Sort(s: seq<Balance>): (r: seq<Balance>)
    requires DistinctUsers(s)
    ensures Ordered(r)
    ensures forall x :: x in r <==> x in s
  {
    if s == [] then []
    else
      assert s == [s[0]] + s[1..];
      Insert(s[0], Sort(s[1..]))
  }

  /** The sorted list is determined by the set of balances in it. */
  lemma {:induction false} OrderedUnique(a: seq<Balance>, b: seq<Balance>)
    requires Ordered(a) && Ordered(b)
    requires forall x :: x in a <==> x in b
    ensures a == b
  {
    assert (a != [] ==> a[0] in a) && (b != [] ==> b[0] in b);
    if a != [] && b != [] {
      var i :| 0 <= i < |b| && b[i] == a[0];
      var j :| 0 <= j < |a| && a[j] == b[0];
      BeforeIsTotalOrder(a[0], b[0], a[0]);
      assert a[0] == b[0];
      assert a == [a[0]] + a[1..] && b == [b[0]] + b[1..];
      forall x ensures x in a[1..] <==> x in b[1..] {
        BeforeIsTotalOrder(x, x, x);
        if x in a[1..] { assert x in a && Before(a[0], x); }
        if x in b[1..] { assert x in b && Before(b[0], x); }
      }
      OrderedUnique(a[1..], b[1..]);
    }
  }

  // ----- Building the summary -----

  function View(members: Members, m: Ledger, user: int): Balance {
    var a := Get(m, user);
    Balance(user, if user in members then members[user] else None, a.paid, a.owed, a.paid - a.owed)
  }

  /** `s` lists the ledger's users in `users` once each. */
  ghost predicate Lists(s: seq<Balance>, members: Members, m: Ledger, users: set<int>) {
    && DistinctUsers(s)
    && (forall b :: b in s <==> b.user in users && b == View(members, m, b.user))
  }

  /** The balance seen from one side: positive for a creditor, or for a debtor. */
  function Side(credit: bool, b: Balance): int {
    if credit then b.balance else -b.balance
  }

  /** The open claims of one side among the first `k` balances: `enumerate` then `filter_map`. */
  function Entries(s: seq<Balance>, credit: bool, k: nat): (r: seq<Entry>)
    requires k <= |s|
    ensures forall n :: 0 <= n < |r| ==> r[n].index < k && r[n].amount == Side(credit, s[r[n].index]) > 0
    ensures forall n, o :: 0 <= n < o < |r| ==> r[n].index < r[o].index
  {
    if k == 0 then []
    else
      var side := Side(credit, s[k - 1]);
      Entries(s, credit, k - 1) + if side > 0 then [Entry(k - 1, side)] else []
  }

  function Users(s: seq<Balance>): (r: seq<(int, Option<string>)>)
    ensures |r| == |s| && forall i :: 0 <= i < |s| ==> r[i] == (s[i].user, s[i].handle)
  {
    seq(|s|, i requires 0 <= i < |s| => (s[i].user, s[i].handle))
  }

  ghost function ClaimsOf(s: seq<Balance>, credit: bool): (r: seq<Claim>)
    ensures |r| == |Entries(s, credit, |s|)| && Positive(r)
    ensures forall n :: 0 <= n < |r| ==>
              var b := s[Entries(s, credit, |s|)[n].index];
              r[n] == Claim(b.user, b.handle, Side(credit, b))
  {
    Named(Entries(s, credit, |s|), Users(s))
  }

  ghost function Credits(s: seq<Balance>): seq<Claim> { ClaimsOf(s, true) }

  ghost function Debts(s: seq<Balance>): seq<Claim> { ClaimsOf(s, false) }

  /** The sorted balances of these members and expenses. */
  ghost predicate AreBalances(members: Members, es: seq<Expense>, balances: seq<Balance>) {
    var m := After(members.Keys, es);
    Lists(balances, members, m, m.Keys) && Ordered(balances)
  }

  /** The settlement of sorted balances. */
  ghost function Settlements(balances: seq<Balance>): seq<Transfer> {
    Greedy(Credits(balances), Debts(balances))
  }

  /** What the summary endpoint answers for these members and expenses. */
  ghost predicate IsSummary(members: Members, es: seq<Expense>,
                            total: int, balances: seq<Balance>, settlements: seq<Transfer>)
  {
    total == Total(es) && AreBalances(members, es, balances) && settlements == Settlements(balances)
  }

  /** Turns the hash map into a list in whatever order the map yields its keys. */
  method Collect(members: Members, m: Ledger) returns (balances: seq<Balance>)
    ensures Lists(balances, members, m, m.Keys)
  {
    balances := [];
    var pending: set<int> := m.Keys;
    while pending != {}
      invariant pending <= m.Keys
      invariant Lists(balances, members, m, m.Keys - pending)
      decreases pending
    {
      ghost var some := Sets.Pick(pending);
      var user :| user in pending;
      pending := pending - {user};
      assert forall b :: b in balances ==> b.user != user;
      balances := balances + [View(members, m, user)];
    }
    assert m.Keys - pending == m.Keys;
  }

  lemma {:induction false} SortLists(s: seq<Balance>, members: Members, m: Ledger, users: set<int>)
    requires Lists(s, members, m, users)
    ensures Lists(Sort(s), members, m, users)
  {
    var r := Sort(s);
    forall i, j | 0 <= i < j < |r| ensures r[i].user != r[j].user {
      BeforeIsTotalOrder(r[i], r[j], r[i]);
      assert r[i] in s && r[j] in s;
    }
  }

  method SettleBalances(balances: seq<Balance>) returns (settlements: seq<Transfer>)
    ensures settlements == Greedy(Credits(balances), Debts(balances))
  {
    var credits, debits := Entries(balances, true, |balances|), Entries(balances, false, |balances|);
    var creditors := new Entry[|credits|](i requires 0 <= i < |credits| => credits[i]);
    var debtors := new Entry[|debits|](i requires 0 <= i < |debits| => debits[i]);
    assert creditors[..] == credits && debtors[..] == debits;
    settlements := SettleInPlace(Users(balances), creditors, debtors);
  }

  method BuildSummary(members: Members, es: seq<Expense>)
    returns (total: int, balances: seq<Balance>, settlements: seq<Transfer>)
    ensures IsSummary(members, es, total, balances, settlements)
  {
    var ledger;
    ledger, total := Accumulate(members.Keys, es);
    balances := Collect(members, ledger);
    SortLists(balances, members, ledger, ledger.Keys);
    balances := Sort(balances);
    settlements := SettleBalances(balances);
  }

  // ----- Exactness -----

  /** What is left on a balance once every transfer of the summary is carried out. */
  ghost function Remaining(b: Balance, ts: seq<Transfer>): int {
    b.balance + Sent(ts, b.user) - Received(ts, b.user)
  }

  ghost function SumBalances(s: seq<Balance>, k: nat): int
    requires k <= |s|
  {
    if k == 0 then 0 else SumBalances(s, k - 1) + s[k - 1].balance
  }

  ghost function SumRemaining(s: seq<Balance>, ts: seq<Transfer>, k: nat): int
    requires k <= |s|
  {
    if k == 0 then 0 else SumRemaining(s, ts, k - 1) + Remaining(s[k - 1], ts)
  }

  lemma {:induction false} ClaimsAreDistinct(s: seq<Balance>)
    requires DistinctUsers(s)
    ensures Claims(Credits(s), Debts(s))
  {
  }

  lemma {:induction false} SumClaimsAppend(s: seq<Claim>, c: Claim)
    ensures SumClaims(s + [c]) == SumClaims(s) + c.amount
  {
    if s != [] {
      SumClaimsAppend(s[1..], c);
      assert (s + [c])[1..] == s[1..] + [c];
    } else {
      assert s + [c] == [c];
    }
  }

  /** The claims of one side among the first `k` balances are a prefix of all of them. */
  lemma {:induction false} EntriesPrefix(s: seq<Balance>, credit: bool, k: nat, n: nat)
    requires k <= n <= |s|
    ensures Entries(s, credit, k) <= Entries(s, credit, n)
    decreases n
  {
    if k < n { EntriesPrefix(s, credit, k, n - 1); }
  }

  /** The claims of one side among the first `k` balances. */
  ghost function FirstClaims(s: seq<Balance>, credit: bool, k: nat): seq<Claim>
    requires k <= |s|
  {
    EntriesPrefix(s, credit, k, |s|);
    ClaimsOf(s, credit)[..|Entries(s, credit, k)|]
  }

  /** The `k`th balance adds its claim to its side, if it has one. */
  lemma {:induction false} FirstClaimsStep(s: seq<Balance>, credit: bool, k: nat)
    requires 0 < k <= |s|
    ensures var before, b, side := FirstClaims(s, credit, k - 1), s[k - 1], Side(credit, s[k - 1]);
            if side > 0 then
              && |before| < |ClaimsOf(s, credit)| && ClaimsOf(s, credit)[|before|] == Claim(b.user, b.handle, side)
              && FirstClaims(s, credit, k) == before + [Claim(b.user, b.handle, side)]
            else FirstClaims(s, credit, k) == before
  {
    var before, side := FirstClaims(s, credit, k - 1), Side(credit, s[k - 1]);
    EntriesPrefix(s, credit, k, |s|);
    EntriesPrefix(s, credit, k - 1, |s|);
    if side > 0 {
      var n := |before|;
      assert Entries(s, credit, k)[n] == Entry(k - 1, side) == Entries(s, credit, |s|)[n];
    }
  }

  lemma {:induction false} FirstSumsStep(s: seq<Balance>, credit: bool, k: nat)
    requires 0 < k <= |s|
    ensures SumClaims(FirstClaims(s, credit, k)) == SumClaims(FirstClaims(s, credit, k - 1)) +
            if Side(credit, s[k - 1]) > 0 then Side(credit, s[k - 1]) else 0
  {
    FirstClaimsStep(s, credit, k);
    var b, side := s[k - 1], Side(credit, s[k - 1]);
    if side > 0 { SumClaimsAppend(FirstClaims(s, credit, k - 1), Claim(b.user, b.handle, side)); }
  }

  /** The cents that the first `k` balances claim on one side. */
  ghost function UpTo(s: seq<Balance>, credit: bool, k: nat): int
    requires k <= |s|
  {
    if k == 0 then 0 else UpTo(s, credit, k - 1) + if Side(credit, s[k - 1]) > 0 then Side(credit, s[k - 1]) else 0
  }

  lemma {:induction false} UpToSumsStep(s: seq<Balance>, credit: bool, k: nat, before: int)
    requires 0 < k <= |s| && SumClaims(FirstClaims(s, credit, k - 1)) == before == UpTo(s, credit, k - 1)
    ensures SumClaims(FirstClaims(s, credit, k)) == UpTo(s, credit, k)
  {
    FirstSumsStep(s, credit, k);
  }

  lemma {:induction false} UpToSums(s: seq<Balance>, credit: bool, k: nat)
    requires k <= |s|
    ensures SumClaims(FirstClaims(s, credit, k)) == UpTo(s, credit, k)
  {
    if k > 0 {
      UpToSums(s, credit, k - 1);
      UpToSumsStep(s, credit, k, UpTo(s, credit, k - 1));
    }
  }

  lemma {:induction false} AllClaims(s: seq<Balance>, credit: bool)
    ensures SumClaims(ClaimsOf(s, credit)) == UpTo(s, credit, |s|)
  {
    UpToSums(s, credit, |s|);
    assert FirstClaims(s, credit, |s|) == ClaimsOf(s, credit);
  }

  lemma {:induction false} UpToDifference(s: seq<Balance>, k: nat)
    requires k <= |s|
    ensures UpTo(s, true, k) - UpTo(s, false, k) == SumBalances(s, k)
  {
    if k > 0 { UpToDifference(s, k - 1); }
  }

  /** A claim fits in the whole of its side after the claims before it. */
  lemma {:induction false} UpToFits(s: seq<Balance>, credit: bool, i: nat, k: nat)
    requires i < k <= |s|
    ensures 0 <= UpTo(s, credit, i)
    ensures UpTo(s, credit, i) + (if Side(credit, s[i]) > 0 then Side(credit, s[i]) else 0) <= UpTo(s, credit, k)
  {
    if k == i + 1 {
      if i > 0 { UpToFits(s, credit, i - 1, i); }
    } else {
      UpToFits(s, credit, i, k - 1);
    }
  }

  /** Where the claim of a balance stands on its side. */
  lemma {:induction false} ClaimAt(s: seq<Balance>, credit: bool, i: nat) returns (n: nat)
    requires i < |s| && Side(credit, s[i]) > 0
    ensures n < |ClaimsOf(s, credit)| && ClaimsOf(s, credit)[n] == Claim(s[i].user, s[i].handle, Side(credit, s[i]))
    ensures SumClaims(ClaimsOf(s, credit)[..n]) == UpTo(s, credit, i)
  {
    n := |FirstClaims(s, credit, i)|;
    FirstClaimsStep(s, credit, i + 1);
    UpToSums(s, credit, i);
    assert FirstClaims(s, credit, i) == ClaimsOf(s, credit)[..n];
  }

  ghost function Column(m: Ledger, users: set<int>): map<int, int>
    requires users <= m.Keys
  {
    map u | u in users :: m[u].paid - m[u].owed
  }

  lemma {:induction false} ColumnSplits(m: Ledger, users: set<int>, user: int)
    requires users <= m.Keys && user in users
    ensures Sums.Sum(Column(m, users)) == m[user].paid - m[user].owed + Sums.Sum(Column(m, users - {user}))
  {
    Sums.SumSplit(Column(m, users), user);
    assert Column(m, users) - {user} == Column(m, users - {user});
  }

  /** Without its last balance a list is the list of the other users. */
  lemma {:induction false} ListedPrefix(s: seq<Balance>, members: Members, m: Ledger, users: set<int>)
    requires s != [] && users <= m.Keys && Lists(s, members, m, users)
    ensures var last := s[|s| - 1];
            && last.user in users && last.balance == m[last.user].paid - m[last.user].owed
            && Lists(s[..|s| - 1], members, m, users - {last.user})
  {
    var last, before := s[|s| - 1], s[..|s| - 1];
    assert last in s && s == before + [last];
    forall b | b in before ensures b.user != last.user && b in s {}
  }

  /** A list of the ledger's users sums to the ledger's balance column. */
  lemma {:induction false} ListedSum(s: seq<Balance>, members: Members, m: Ledger, users: set<int>, k: nat)
    requires k == |s| && users <= m.Keys && Lists(s, members, m, users)
    ensures SumBalances(s, k) == Sums.Sum(Column(m, users))
    decreases k
  {
    if k == 0 {
      assert users != {} ==> View(members, m, Sets.Pick(users)) in s;
      Sums.SumZero(Column(m, users));
    } else {
      var last := s[k - 1];
      ListedPrefix(s, members, m, users);
      ListedSum(s[..k - 1], members, m, users - {last.user}, k - 1);
      ColumnSplits(m, users, last.user);
      SumBalancesPrefix(s, k - 1);
    }
  }

  lemma {:induction false} SumBalancesPrefix(s: seq<Balance>, k: nat)
    requires k < |s|
    ensures SumBalances(s[..|s| - 1], k) == SumBalances(s, k)
  {
    if k != 0 { SumBalancesPrefix(s, k - 1); }
  }

  /** The credit of a summary exceeds its debt by what nobody was charged for. */
  lemma {:induction false} CreditExceedsDebt(members: Members, es: seq<Expense>, balances: seq<Balance>)
    requires AreBalances(members, es, balances)
    ensures UpTo(balances, true, |balances|) == UpTo(balances, false, |balances|) + Unshared(es)
  {
    UpToDifference(balances, |balances|);
    ListedBalances(members, es, balances);
  }

  lemma {:induction false} ListedBalances(members: Members, es: seq<Expense>, balances: seq<Balance>)
    requires var m := After(members.Keys, es); Lists(balances, members, m, m.Keys)
    ensures SumBalances(balances, |balances|) == Unshared(es)
  {
    var m := After(members.Keys, es);
    ListedSum(balances, members, m, m.Keys, |balances|);
    assert BalanceColumn(m) == Column(m, m.Keys);
    Conservation(members.Keys, es);
  }

  lemma {:induction false} NoClaim(s: seq<Balance>, credit: bool, i: nat)
    requires DistinctUsers(s) && i < |s| && Side(credit, s[i]) <= 0
    ensures !Names(ClaimsOf(s, credit), s[i].user)
  {
  }

  /** What one user sends and receives when the whole debt is `debt`. */
  ghost predicate Moves(s: seq<Balance>, ts: seq<Transfer>, debt: int, i: nat)
    requires i < |s|
  {
    var b := s[i];
    if b.balance > 0 then Sent(ts, b.user) == 0 && Received(ts, b.user) == Clamp(debt - UpTo(s, true, i), b.balance)
    else Sent(ts, b.user) == -b.balance && Received(ts, b.user) == 0
  }

  lemma {:induction false} CreditorMoves(s: seq<Balance>, ts: seq<Transfer>, i: nat)
    requires DistinctUsers(s) && Served(Credits(s), Debts(s), ts) && i < |s| && s[i].balance > 0
    ensures Moves(s, ts, SumClaims(Debts(s)), i)
  {
    NoClaim(s, false, i);
    assert IdleOutside(Credits(s), Debts(s), ts, s[i].user);
    var n := ClaimAt(s, true, i);
    assert CreditServed(Credits(s), Debts(s), ts, n);
  }

  lemma {:induction false} DebtorMoves(s: seq<Balance>, ts: seq<Transfer>, i: nat)
    requires DistinctUsers(s) && Served(Credits(s), Debts(s), ts) && i < |s| && s[i].balance < 0
    requires UpTo(s, false, |s|) <= SumClaims(Credits(s))
    ensures Sent(ts, s[i].user) == -s[i].balance && Received(ts, s[i].user) == 0
  {
    NoClaim(s, true, i);
    assert IdleOutside(Credits(s), Debts(s), ts, s[i].user);
    var n := ClaimAt(s, false, i);
    assert DebtServed(Credits(s), Debts(s), ts, n);
    UpToFits(s, false, i, |s|);
  }

  lemma {:induction false} SettledStays(s: seq<Balance>, ts: seq<Transfer>, i: nat)
    requires DistinctUsers(s) && Served(Credits(s), Debts(s), ts) && i < |s| && s[i].balance == 0
    ensures Sent(ts, s[i].user) == 0 && Received(ts, s[i].user) == 0
  {
    NoClaim(s, true, i);
    NoClaim(s, false, i);
    assert IdleOutside(Credits(s), Debts(s), ts, s[i].user);
  }

  lemma {:induction false} EveryoneMoves(s: seq<Balance>, ts: seq<Transfer>, i: nat)
    requires DistinctUsers(s) && Served(Credits(s), Debts(s), ts) && i < |s|
    requires UpTo(s, false, |s|) <= UpTo(s, true, |s|)
    ensures Moves(s, ts, UpTo(s, false, |s|), i)
  {
    AllClaims(s, true);
    AllClaims(s, false);
    if s[i].balance > 0 {
      CreditorMoves(s, ts, i);
    } else if s[i].balance < 0 {
      DebtorMoves(s, ts, i);
    } else {
      SettledStays(s, ts, i);
    }
  }

  /** A debt is paid in full and a credit never overpaid; it is paid in full if nothing stays open. */
  ghost predicate Exact(b: Balance, sent: int, received: int, open: int) {
    && sent == (if b.balance < 0 then -b.balance else 0)
    && 0 <= received <= (if b.balance > 0 then b.balance else 0)
    && (open == 0 ==> b.balance + sent - received == 0)
  }

  /** A debtor pays exactly the debt; a creditor receives at most the credit; nobody does both. */
  lemma {:induction false} OneBalance(s: seq<Balance>, ts: seq<Transfer>, debt: int, i: nat)
    requires i < |s| && 0 <= debt <= UpTo(s, true, |s|) && Moves(s, ts, debt, i)
    ensures Exact(s[i], Sent(ts, s[i].user), Received(ts, s[i].user), UpTo(s, true, |s|) - debt)
  {
    UpToFits(s, true, i, |s|);
  }

  /** The part of a credit that the debt does not cover. */
  ghost function Uncovered(credit: int, debt: int): int {
    if credit <= debt then 0 else credit - debt
  }

  /** What one balance keeps is the credit it leaves open. */
  lemma {:induction false} RemainingStep(s: seq<Balance>, ts: seq<Transfer>, debt: int, i: nat)
    requires i < |s| && 0 <= debt && Moves(s, ts, debt, i)
    ensures Remaining(s[i], ts) == Uncovered(UpTo(s, true, i + 1), debt) - Uncovered(UpTo(s, true, i), debt)
  {
    UpToFits(s, true, i, |s|);
  }

  lemma {:induction false} RemainingSum(s: seq<Balance>, ts: seq<Transfer>, debt: int, k: nat)
    requires k <= |s| && 0 <= debt && forall i :: 0 <= i < |s| ==> Moves(s, ts, debt, i)
    ensures SumRemaining(s, ts, k) == Uncovered(UpTo(s, true, k), debt)
  {
    if k > 0 {
      RemainingSum(s, ts, debt, k - 1);
      RemainingStep(s, ts, debt, k - 1);
    }
  }

  /** The settlement is exact: after every transfer all debts are paid, no creditor is overpaid,
      and what stays open is what nobody was charged for. */
  lemma {:induction false} SettlementIsExact(members: Members, es: seq<Expense>, balances: seq<Balance>)
    requires Amounts(es) && AreBalances(members, es, balances)
    ensures var settlements := Settlements(balances);
            && (forall b :: b in balances ==>
                  Exact(b, Sent(settlements, b.user), Received(settlements, b.user), Unshared(es)))
            && SumRemaining(balances, settlements, |balances|) == Unshared(es)
  {
    CreditExceedsDebt(members, es, balances);
    UnsharedNonNegative(es);
    SummaryServes(balances);
    ServedIsExact(balances, Settlements(balances));
  }

  lemma {:induction false} SummaryServes(balances: seq<Balance>)
    requires DistinctUsers(balances)
    ensures Served(Credits(balances), Debts(balances), Settlements(balances))
  {
    ClaimsAreDistinct(balances);
    GreedyServes(Credits(balances), Debts(balances));
  }

  lemma {:induction false} ServedIsExact(s: seq<Balance>, ts: seq<Transfer>)
    requires DistinctUsers(s) && Served(Credits(s), Debts(s), ts)
    requires UpTo(s, false, |s|) <= UpTo(s, true, |s|)
    ensures var open := UpTo(s, true, |s|) - UpTo(s, false, |s|);
            && (forall b :: b in s ==> Exact(b, Sent(ts, b.user), Received(ts, b.user), open))
            && SumRemaining(s, ts, |s|) == open
  {
    forall i | 0 <= i < |s| ensures Moves(s, ts, UpTo(s, false, |s|), i) { EveryoneMoves(s, ts, i); }
    MovesAreExact(s, ts);
  }

  lemma {:induction false} MovesAreExact(s: seq<Balance>, ts: seq<Transfer>)
    requires UpTo(s, false, |s|) <= UpTo(s, true, |s|)
    requires forall i :: 0 <= i < |s| ==> Moves(s, ts, UpTo(s, false, |s|), i)
    ensures var open := UpTo(s, true, |s|) - UpTo(s, false, |s|);
            && (forall b :: b in s ==> Exact(b, Sent(ts, b.user), Received(ts, b.user), open))
            && SumRemaining(s, ts, |s|) == open
  {
    var debt := UpTo(s, false, |s|);
    if s != [] { UpToFits(s, false, 0, |s|); }
    forall b | b in s ensures Exact(b, Sent(ts, b.user), Received(ts, b.user), UpTo(s, true, |s|) - debt) {
      var i :| 0 <= i < |s| && s[i] == b;
      OneBalance(s, ts, debt, i);
    }
    RemainingSum(s, ts, debt, |s|);
  }

  /** Transfers go from debtors to creditors, are positive, join no pair twice, and are few. */
  lemma {:induction false} SettlementIsSmall(balances: seq<Balance>)
    requires DistinctUsers(balances)
    ensures NoPairRepeats(Settlements(balances))
    ensures |Settlements(balances)| <= if balances == [] then 0 else |balances| - 1
    ensures forall t :: t in Settlements(balances) ==>
              && 0 < t.amount
              && (exists b :: b in balances && b.user == t.fromUser && b.balance < 0)
              && (exists b :: b in balances && b.user == t.toUser && b.balance > 0)
  {
    var cs, ds := Credits(balances), Debts(balances);
    ClaimsAreDistinct(balances);
    PairsAreDistinct(cs, ds);
    TransferCount(cs, ds);
    EntryCount(balances, |balances|);
    TransfersAreSound(cs, ds);
    forall t | t in Settlements(balances)
      ensures 0 < t.amount
      ensures exists b :: b in balances && b.user == t.fromUser && b.balance < 0
      ensures exists b :: b in balances && b.user == t.toUser && b.balance > 0
    {
      NamedBalance(balances, false, t.fromUser);
      NamedBalance(balances, true, t.toUser);
    }
  }

  lemma {:induction false} NamedBalance(s: seq<Balance>, credit: bool, user: int)
    requires Names(ClaimsOf(s, credit), user)
    ensures exists b :: b in s && b.user == user && Side(credit, b) > 0
  {
    var n :| 0 <= n < |ClaimsOf(s, credit)| && ClaimsOf(s, credit)[n].user == user;
    assert s[Entries(s, credit, |s|)[n].index] in s;
  }

  lemma {:induction false} EntryCount(s: seq<Balance>, k: nat)
    requires k <= |s|
    ensures |Entries(s, true, k)| + |Entries(s, false, k)| <= k
  {
    if k != 0 { EntryCount(s, k - 1); }
  }

  /** Expenses that were accepted at creation always settle to zero, for every member. */
  lemma {:induction false} CreatedExpensesSettleToZero(members: Members, es: seq<Expense>, balances: seq<Balance>)
    requires AllCreated(es) && AreBalances(members, es, balances)
    ensures forall b :: b in balances ==> Remaining(b, Settlements(balances)) == 0
  {
    CreatedAreShared(es);
    SettlementIsExact(members, es, balances);
  }

  lemma {:induction false} CreatedAreShared(es: seq<Expense>)
    requires AllCreated(es)
    ensures Amounts(es) && Unshared(es) == 0
  {
    if es != [] {
      var e, before := es[|es| - 1], es[..|es| - 1];
      assert e in es && forall d :: d in before ==> d in es;
      CreatedAreShared(before);
      assert es == before + [e];
    }
  }

  // ----- Determinism -----

  /** Two answers for the same members and the same expenses are equal, whatever order the
      expenses, the participants and the hash map came in. */
  lemma {:induction false} SummaryIsDeterministic(members: Members, es1: seq<Expense>, es2: seq<Expense>,
                               total1: int, balances1: seq<Balance>, settlements1: seq<Transfer>,
                               total2: int, balances2: seq<Balance>, settlements2: seq<Transfer>)
    requires SameExpenses(es1, es2)
    requires IsSummary(members, es1, total1, balances1, settlements1)
    requires IsSummary(members, es2, total2, balances2, settlements2)
    ensures total1 == total2 && balances1 == balances2 && settlements1 == settlements2
  {
    LedgerIgnoresOrder(members.Keys, es1, es2);
    OrderedUnique(balances1, balances2);
    Conservation(members.Keys, es1);
    Conservation(members.Keys, es2);
  }
}
