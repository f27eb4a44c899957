/** What a reader of the expense summary can rely on, in terms of the figures it shows. */
module SummaryMeaning {
  import opened Options
  import opened Shares
  import opened Accounts
  import opened Settlement
  import opened SettlementPairs
  import opened Summary

  // ----- The order of the balances -----

  /** `a` is a proper prefix of `b`, or has the smaller character where the two first differ. */
  ghost predicate Lexical(a: string, b: string) {
    a < b || exists k :: 0 <= k < |a| && k < |b| && a[..k] == b[..k] && a[k] < b[k]
  }

  lemma {:induction false} StringLessIsLexical(a: string, b: string)
    ensures StringLess(a, b) ==> Lexical(a, b)
  {
    if a != [] && b != [] && a[0] == b[0] && StringLess(a[1..], b[1..]) {
      StringLessIsLexical(a[1..], b[1..]);
      assert a == [a[0]] + a[1..] && b == [b[0]] + b[1..];
      if k :| 0 <= k < |a[1..]| && k < |b[1..]| && a[1..][..k] == b[1..][..k] && a[1..][k] < b[1..][k] {
        assert a[..k + 1] == [a[0]] + a[1..][..k] && b[..k + 1] == [b[0]] + b[1..][..k];
        assert a[..k + 1] == b[..k + 1] && a[k + 1] < b[k + 1];
      }
    } else if StringLess(a, b) && a != [] {
      assert a[..0] == b[..0];
    }
  }

  /** Balances stand from the largest to the smallest; equal ones by handle, a missing handle first;
      equal handles by user. */
  lemma {:induction false} BalancesStand(members: Members, es: seq<Expense>, total: int, balances: seq<Balance>,
                                         settlements: seq<Transfer>, i: nat, j: nat)
    requires IsSummary(members, es, total, balances, settlements) && i < j < |balances|
    ensures var a, b := balances[i], balances[j];
            && a.balance >= b.balance
            && (a.balance == b.balance && a.handle != b.handle ==>
                  b.handle.Some? && (a.handle.Some? ==> Lexical(a.handle.value, b.handle.value)))
            && (a.balance == b.balance && a.handle == b.handle ==> a.user < b.user)
  {
    var a, b := balances[i], balances[j];
    assert Before(a, b);
    if a.handle.Some? && b.handle.Some? { StringLessIsLexical(a.handle.value, b.handle.value); }
  }

  // ----- The figures -----

  /** The members and everybody an expense names are listed once each, with what they paid, what they
      owe, the difference, and their handle if they are members. */
  lemma {:induction false} BalancesMean(members: Members, es: seq<Expense>, total: int, balances: seq<Balance>,
                                        settlements: seq<Transfer>)
    requires IsSummary(members, es, total, balances, settlements)
    ensures forall i, j :: 0 <= i < j < |balances| ==> balances[i].user != balances[j].user
    ensures forall u :: (exists b :: b in balances && b.user == u) <==>
              (u in members || exists e :: e in es && (u == e.paidBy || u in e.participants))
    ensures forall b :: b in balances ==>
              && b.paid == SumOf(PaidIn(b.user), es) && b.owed == SumOf(OwedIn(b.user), es)
              && b.balance == b.paid - b.owed
              && b.handle == if b.user in members then members[b.user] else None
  {
    var m := After(members.Keys, es);
    AfterIsStatement(members.Keys, es);
    forall u ensures u in m <==> (u in members || exists e :: e in es && (u == e.paidBy || u in e.participants)) {
      Listed(es, u);
    }
    forall u | u in m ensures exists b :: b in balances && b.user == u {
      assert View(members, m, u) in balances;
    }
  }

  lemma {:induction false} Listed(es: seq<Expense>, u: int)
    ensures u in UsersOf(es) <==> exists e :: e in es && (u == e.paidBy || u in e.participants)
  {
    if e :| e in es && (u == e.paidBy || u in e.participants) {
      assert u in [e.paidBy] + e.participants;
    }
  }

  // ----- Who is paid first -----

  lemma {:induction false} UpToGrows(s: seq<Balance>, i: nat, j: nat)
    requires i < j <= |s|
    ensures UpTo(s, true, i) + Side(true, s[i]) <= UpTo(s, true, j)
  {
    UpToFits(s, true, i, j);
  }

  /** What the creditor at `i` receives, out of the whole debt. */
  lemma {:induction false} CreditorReceives(s: seq<Balance>, i: nat)
    requires DistinctUsers(s) && i < |s| && 0 < s[i].balance
    ensures Received(Settlements(s), s[i].user) == Clamp(UpTo(s, false, |s|) - UpTo(s, true, i), s[i].balance)
  {
    SummaryServes(s);
    AllClaims(s, false);
    CreditorMoves(s, Settlements(s), i);
  }

  lemma {:induction false} ClampFills(debt: int, a: int, m: int, b: int, n: int)
    requires 0 < n && b + n <= a && 0 < Clamp(debt - a, m)
    ensures Clamp(debt - b, n) == n
  {
  }

  lemma {:induction false} EarlierIsFull(s: seq<Balance>, j: nat, i: nat)
    requires DistinctUsers(s) && j < i < |s| && 0 < s[i].balance && 0 < s[j].balance
    requires 0 < Received(Settlements(s), s[i].user)
    ensures Received(Settlements(s), s[j].user) == s[j].balance
  {
    CreditorReceives(s, i);
    CreditorReceives(s, j);
    UpToGrows(s, j, i);
    ClampFills(UpTo(s, false, |s|), UpTo(s, true, i), s[i].balance, UpTo(s, true, j), s[j].balance);
  }

  /** A creditor receives nothing until every strictly larger credit is paid in full. */
  lemma {:induction false} LargerCreditsFirst(members: Members, es: seq<Expense>, total: int, balances: seq<Balance>,
                                              settlements: seq<Transfer>, i: nat, j: nat)
    requires IsSummary(members, es, total, balances, settlements) && i < |balances| && j < |balances|
    requires 0 < balances[i].balance < balances[j].balance && 0 < Received(settlements, balances[i].user)
    ensures Received(settlements, balances[j].user) == balances[j].balance
  {
    if i < j {
      BalancesStand(members, es, total, balances, settlements, i, j);
    } else if j < i {
      EarlierIsFull(balances, j, i);
    }
  }

  /** The debtor at `j` pays the creditor at `i` exactly the cents that their stretches share when the
      credits, and beside them the debts, lie end to end in the order of the balances; and the handles
      in the settlement are those of the balances. */
  lemma {:induction false} WhoPaysWhom(balances: seq<Balance>, i: nat, j: nat)
    requires DistinctUsers(balances) && i < |balances| && j < |balances|
    requires 0 < balances[i].balance && balances[j].balance < 0
    ensures Moved(Settlements(balances), balances[j].user, balances[i].user) ==
            Overlap(UpTo(balances, true, i), balances[i].balance, UpTo(balances, false, j), -balances[j].balance)
  {
    ClaimsAreDistinct(balances);
    var n := ClaimAt(balances, true, i);
    var o := ClaimAt(balances, false, j);
    PairsOverlap(Credits(balances), Debts(balances), n, o);
  }

  lemma {:induction false} SettlementNames(balances: seq<Balance>, k: nat) returns (i: nat, j: nat)
    requires k < |Settlements(balances)|
    ensures i < |balances| && j < |balances| && 0 < balances[i].balance && balances[j].balance < 0
    ensures var t := Settlements(balances)[k];
            && (t.toUser, t.toHandle) == (balances[i].user, balances[i].handle)
            && (t.fromUser, t.fromHandle) == (balances[j].user, balances[j].handle)
  {
    var n, o := Joined(Credits(balances), Debts(balances), k);
    i := Entries(balances, true, |balances|)[n].index;
    j := Entries(balances, false, |balances|)[o].index;
  }

  // ----- Accepting an expense -----

  /** An expense is accepted exactly when it has a title, a positive amount, a participant, and only
      members as payer and participants; the requester pays unless a payer is named, and every
      participant is stored once. */
  lemma {:induction false} AcceptedIff(members: set<int>, requester: int, blankTitle: bool, amount: int,
                                       payer: Option<int>, participants: seq<int>)
    ensures var r := CreateExpense(members, requester, blankTitle, amount, payer, participants);
            var pays := if payer.Some? then payer.value else requester;
            && (r.Ok? <==>
                  (!blankTitle && 0 < amount && participants != [] && pays in members &&
                   forall p :: p in participants ==> p in members))
            && (r.Ok? ==>
                  (r.value.paidBy == pays && r.value.amount == amount && Increasing(r.value.participants) &&
                   forall p :: p in r.value.participants <==> p in participants))
  {
    var ids := SortDedup(participants);
    assert participants != [] ==> participants[0] in ids;
    assert ids != [] ==> ids[0] in participants;
  }
}
