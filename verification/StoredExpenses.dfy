/** Stored expenses when an account is deleted: what the foreign keys leave of them. */
module StoredExpenses {
  import opened Options
  import opened Shares
  import opened Accounts
  import opened Settlement
  import opened Summary

  /** An expense row with its participant rows; the payer and the creator are foreign keys too. */
  datatype Stored = Stored(expense: Expense, createdBy: int)

  function Without(ids: seq<int>, user: int): seq<int> {
    if ids == [] then []
    else
      var before := Without(ids[..|ids| - 1], user);
      if ids[|ids| - 1] == user then before else before + [ids[|ids| - 1]]
  }

  /** The user's own expenses go, and elsewhere the user's participant row. */
  function AfterDeletion(rows: seq<Stored>, user: int): seq<Expense> {
    if rows == [] then []
    else
      var before, last := AfterDeletion(rows[..|rows| - 1], user), rows[|rows| - 1];
      if last.expense.paidBy == user || last.createdBy == user then before
      else before + [last.expense.(participants := Without(last.expense.participants, user))]
  }

  /** Somebody else's expense that only this user took part in. */
  predicate OnlyFor(row: Stored, user: int) {
    && row.expense.paidBy != user && row.createdBy != user
    && forall p :: p in row.expense.participants ==> p == user
  }

  function OpenCents(rows: seq<Stored>, user: int): int {
    if rows == [] then 0
    else
      var last := rows[|rows| - 1];
      OpenCents(rows[..|rows| - 1], user) + if OnlyFor(last, user) then last.expense.amount else 0
  }

  lemma {:induction false} WithoutMeans(ids: seq<int>, user: int)
    ensures Without(ids, user) == [] <==> forall p :: p in ids ==> p == user
  {
    if ids != [] {
      var before, last := ids[..|ids| - 1], ids[|ids| - 1];
      WithoutMeans(before, user);
      assert last in ids && forall p :: p in before ==> p in ids;
      if forall p :: p in before ==> p == user {
        forall p | p in ids && p !in before ensures p == last {
          assert ids == before + [last];
        }
      }
    }
  }

  /** The row survives the account: it was neither paid nor created by the user. */
  predicate Stays(row: Stored, user: int) { row.expense.paidBy != user && row.createdBy != user }

  /** The expense of the row, without the user among its participants. */
  ghost predicate LeftOf(e: Expense, row: Stored, user: int) {
    && Stays(row, user) && e.paidBy == row.expense.paidBy && e.amount == row.expense.amount
    && forall p :: p in e.participants <==> p in row.expense.participants && p != user
  }

  lemma {:induction false} WithoutDrops(ids: seq<int>, user: int, p: int)
    ensures p in Without(ids, user) <==> p in ids && p != user
  {
    if ids != [] {
      WithoutDrops(ids[..|ids| - 1], user, p);
      assert ids == ids[..|ids| - 1] + [ids[|ids| - 1]];
    }
  }

  /** The rows that stay, in their order. */
  function Staying(rows: seq<Stored>, user: int): seq<Stored> {
    if rows == [] then []
    else Staying(rows[..|rows| - 1], user) + if Stays(rows[|rows| - 1], user) then [rows[|rows| - 1]] else []
  }

  /** Exactly the expenses that the user neither paid nor created are left, each without the user. */
  lemma {:induction false} DeletionKeeps(rows: seq<Stored>, user: int)
    ensures |AfterDeletion(rows, user)| == |Staying(rows, user)|
    ensures forall i :: 0 <= i < |Staying(rows, user)| ==> LeftOf(AfterDeletion(rows, user)[i], Staying(rows, user)[i], user)
  {
    if rows != [] {
      var last := rows[|rows| - 1];
      DeletionKeeps(rows[..|rows| - 1], user);
      forall p ensures p in Without(last.expense.participants, user) <==> p in last.expense.participants && p != user {
        WithoutDrops(last.expense.participants, user, p);
      }
    }
  }

  lemma {:induction false} UnsharedAppend(es: seq<Expense>, e: Expense)
    ensures Unshared(es + [e]) == Unshared(es) + if e.participants == [] then e.amount else 0
  {
    assert (es + [e])[..|es|] == es;
    assert UnsharedIn()(e) == if e.participants == [] then e.amount else 0;
  }

  lemma {:induction false} UnsharedLeft(rows: seq<Stored>, user: int)
    ensures Unshared(AfterDeletion(rows, user)) == OpenCents(rows, user)
  {
    if rows != [] {
      var before, last := rows[..|rows| - 1], rows[|rows| - 1];
      UnsharedLeft(before, user);
      WithoutMeans(last.expense.participants, user);
      UnsharedAppend(AfterDeletion(before, user), last.expense.(participants := Without(last.expense.participants, user)));
    }
  }

  lemma {:induction false} OpenCentsIff(rows: seq<Stored>, user: int)
    requires forall i :: 0 <= i < |rows| ==> 0 < rows[i].expense.amount
    ensures 0 <= OpenCents(rows, user)
    ensures OpenCents(rows, user) == 0 <==> forall i :: 0 <= i < |rows| ==> !OnlyFor(rows[i], user)
  {
    if rows != [] {
      var before := rows[..|rows| - 1];
      assert forall i :: 0 <= i < |before| ==> before[i] == rows[i];
      OpenCentsIff(before, user);
    }
  }

  function Expenses(rows: seq<Stored>): seq<Expense> {
    seq(|rows|, i requires 0 <= i < |rows| => rows[i].expense)
  }

  lemma {:induction false} AmountsLeft(rows: seq<Stored>, user: int)
    requires Amounts(Expenses(rows))
    ensures Amounts(AfterDeletion(rows, user))
  {
    if rows != [] {
      var before := rows[..|rows| - 1];
      assert Expenses(rows) == Expenses(before) + [rows[|rows| - 1].expense];
      assert rows[|rows| - 1].expense in Expenses(rows) && forall e :: e in Expenses(before) ==> e in Expenses(rows);
      AmountsLeft(before, user);
    }
  }

  /** The summary shown after the deletion settles all but the cents of the expenses that only the
      deleted user took part in, and the creditors are owed exactly those. */
  lemma {:induction false} DeletionLeaves(members: Members, rows: seq<Stored>, user: int, balances: seq<Balance>)
    requires Amounts(Expenses(rows)) && AreBalances(members, AfterDeletion(rows, user), balances)
    ensures var settlements := Settlements(balances);
            && (forall b :: b in balances ==>
                  Exact(b, Sent(settlements, b.user), Received(settlements, b.user), OpenCents(rows, user)))
            && SumRemaining(balances, settlements, |balances|) == OpenCents(rows, user)
  {
    AmountsLeft(rows, user);
    UnsharedLeft(rows, user);
    SettlementIsExact(members, AfterDeletion(rows, user), balances);
  }

  lemma {:induction false} AllZeroSum(balances: seq<Balance>, ts: seq<Transfer>, k: nat)
    requires k <= |balances| && forall b :: b in balances ==> Remaining(b, ts) == 0
    ensures SumRemaining(balances, ts, k) == 0
  {
    if k > 0 {
      AllZeroSum(balances, ts, k - 1);
      assert balances[k - 1] in balances;
    }
  }

  /** Expenses that were accepted at creation still settle every balance to zero after an account is
      deleted exactly when none of them was somebody else's expense for that user alone. */
  lemma {:induction false} StillSettledIff(members: Members, rows: seq<Stored>, user: int, balances: seq<Balance>)
    requires AllCreated(Expenses(rows)) && AreBalances(members, AfterDeletion(rows, user), balances)
    ensures (forall b :: b in balances ==> Remaining(b, Settlements(balances)) == 0) <==>
            (forall i :: 0 <= i < |rows| ==> !OnlyFor(rows[i], user))
  {
    forall i | 0 <= i < |rows| ensures 0 < rows[i].expense.amount { assert Expenses(rows)[i] in Expenses(rows); }
    CreatedAreShared(Expenses(rows));
    DeletionLeaves(members, rows, user, balances);
    OpenCentsIff(rows, user);
    if forall b :: b in balances ==> Remaining(b, Settlements(balances)) == 0 {
      AllZeroSum(balances, Settlements(balances), |balances|);
    }
  }

  /** It happens: one user pays 10 cents for another, whose account is then deleted. Ten cents stay
      open in every summary after that. */
  lemma {:induction false} PaidForSomeoneGone(members: Members, balances: seq<Balance>)
    requires AreBalances(members, AfterDeletion([Stored(Expense(1, 10, [2]), 1)], 2), balances)
    ensures CreateExpense({1, 2}, 1, false, 10, None, [2]) == Ok(Expense(1, 10, [2]))
    ensures SumRemaining(balances, Settlements(balances), |balances|) == 10
  {
    var rows := [Stored(Expense(1, 10, [2]), 1)];
    assert SortDedup([2]) == [2] by { IncreasingUnique(SortDedup([2]), [2]); }
    assert rows[..0] == [];
    DeletionLeaves(members, rows, 2, balances);
  }
}
