/** What the balance queries, the settlement update and the settlement-history
    queries compute, stated over the tables. The ledger's methods are proved
    against these functions; the lemmas here say what the results mean:
    per-pair sums, antisymmetry, and what a settlement clears. */
module Balances {
  import opened Common
  import opened Tables

  /** `participant` has an unpaid split on an expense created by `creator`:
      an obligation still owed from participant to creator. */
  predicate Owes(expenses: seq<ExpenseRow>, creator: int, participant: int, s: SplitRow)
  {
    !s.isPaid && s.userId == participant && CreatorOf(expenses, s.expenseId) == Some(creator)
  }

  /** Sum of what `participant` still owes `creator` over the splits `ss`. */
  function PairSum(expenses: seq<ExpenseRow>, creator: int, participant: int, ss: seq<SplitRow>): real
  {
    if ss == [] then 0.0
    else
      var s := ss[|ss| - 1];
      PairSum(expenses, creator, participant, ss[..|ss| - 1]) + (if Owes(expenses, creator, participant, s) then s.amount else 0.0)
  }

  /** Whether any such obligation exists. */
  predicate PairHas(expenses: seq<ExpenseRow>, creator: int, participant: int, ss: seq<SplitRow>)
  {
    ss != [] && (PairHas(expenses, creator, participant, ss[..|ss| - 1]) || Owes(expenses, creator, participant, ss[|ss| - 1]))
  }

  lemma {:induction false} NoPairNoSum(expenses: seq<ExpenseRow>, creator: int, participant: int, ss: seq<SplitRow>)
    requires !PairHas(expenses, creator, participant, ss)
    ensures PairSum(expenses, creator, participant, ss) == 0.0
  {
    if ss != [] {
      NoPairNoSum(expenses, creator, participant, ss[..|ss| - 1]);
    }
  }

  /** A row of the first balance query ("what others owe the user"):
      unpaid, its expense created by `u`, its participant not `u`, and the
      participant joins a `users` row. */
  predicate OwedToUserRow(users: seq<UserRow>, expenses: seq<ExpenseRow>, u: int, s: SplitRow)
  {
    !s.isPaid && CreatorOf(expenses, s.expenseId) == Some(u) && s.userId != u && NameOf(users, s.userId).Some?
  }

  /** A row of the second balance query ("what the user owes"): unpaid, its
      participant is `u`, its expense created by someone else who joins a
      `users` row. */
  predicate UserOwesRow(users: seq<UserRow>, expenses: seq<ExpenseRow>, u: int, s: SplitRow)
  {
    && !s.isPaid && s.userId == u
    && CreatorOf(expenses, s.expenseId).Some?
    && CreatorOf(expenses, s.expenseId).value != u
    && NameOf(users, CreatorOf(expenses, s.expenseId).value).Some?
  }

  /** Add `x` to the group `k` of a `GROUP BY ... SUM(amount)` result. */
  function AddTo(m: map<string, real>, k: string, x: real): map<string, real>
  {
    m[k := (if k in m then m[k] else 0.0) + x]
  }

  /** The first query's result: participant username to SUM(amount). */
  function OwedToUser(users: seq<UserRow>, expenses: seq<ExpenseRow>, u: int, ss: seq<SplitRow>): map<string, real>
  {
    if ss == [] then map[]
    else
      var s := ss[|ss| - 1];
      var m := OwedToUser(users, expenses, u, ss[..|ss| - 1]);
      if OwedToUserRow(users, expenses, u, s) then AddTo(m, NameOf(users, s.userId).value, s.amount) else m
  }

  /** The second query's result: creator username to SUM(amount). */
  function UserOwes(users: seq<UserRow>, expenses: seq<ExpenseRow>, u: int, ss: seq<SplitRow>): map<string, real>
  {
    if ss == [] then map[]
    else
      var s := ss[|ss| - 1];
      var m := UserOwes(users, expenses, u, ss[..|ss| - 1]);
      if UserOwesRow(users, expenses, u, s)
      then AddTo(m, NameOf(users, CreatorOf(expenses, s.expenseId).value).value, s.amount)
      else m
  }

  /** The balance map: every counterparty of either query, with what it owes
      the user minus what the user owes it. Positive: the counterparty owes
      the user; negative: the user owes the counterparty. */
  function BalancesOf(users: seq<UserRow>, expenses: seq<ExpenseRow>, ss: seq<SplitRow>, u: int): map<string, real>
  {
    var owed := OwedToUser(users, expenses, u, ss);
    var owes := UserOwes(users, expenses, u, ss);
    map n | n in owed.Keys + owes.Keys :: (if n in owed then owed[n] else 0.0) - (if n in owes then owes[n] else 0.0)
  }

  /** The first query's group of counterparty `c` is exactly what `c` owes `u`. */
  lemma {:induction false} OwedToUserByPair(users: seq<UserRow>, expenses: seq<ExpenseRow>, ss: seq<SplitRow>, u: int, c: int, n: string)
    requires UniqueNames(users) && c != u && NameOf(users, c) == Some(n)
    ensures n in OwedToUser(users, expenses, u, ss) <==> PairHas(expenses, u, c, ss)
    ensures n in OwedToUser(users, expenses, u, ss) ==> OwedToUser(users, expenses, u, ss)[n] == PairSum(expenses, u, c, ss)
  {
    if ss != [] {
      var s := ss[|ss| - 1];
      OwedToUserByPair(users, expenses, ss[..|ss| - 1], u, c, n);
      if OwedToUserRow(users, expenses, u, s) && NameOf(users, s.userId) == Some(n) {
        NameOfInjective(users, s.userId, c, n);
        if !PairHas(expenses, u, c, ss[..|ss| - 1]) { NoPairNoSum(expenses, u, c, ss[..|ss| - 1]); }
      }
    }
  }

  /** The second query's group of counterparty `c` is exactly what `u` owes `c`. */
  lemma {:induction false} UserOwesByPair(users: seq<UserRow>, expenses: seq<ExpenseRow>, ss: seq<SplitRow>, u: int, c: int, n: string)
    requires UniqueNames(users) && c != u && NameOf(users, c) == Some(n)
    ensures n in UserOwes(users, expenses, u, ss) <==> PairHas(expenses, c, u, ss)
    ensures n in UserOwes(users, expenses, u, ss) ==> UserOwes(users, expenses, u, ss)[n] == PairSum(expenses, c, u, ss)
  {
    if ss != [] {
      var s := ss[|ss| - 1];
      UserOwesByPair(users, expenses, ss[..|ss| - 1], u, c, n);
      if UserOwesRow(users, expenses, u, s) {
        var cr := CreatorOf(expenses, s.expenseId).value;
        if NameOf(users, cr) == Some(n) {
          NameOfInjective(users, cr, c, n);
          if !PairHas(expenses, c, u, ss[..|ss| - 1]) { NoPairNoSum(expenses, c, u, ss[..|ss| - 1]); }
        }
      }
    }
  }

  /** The balance with counterparty `c`: present iff either of them still owes
      the other something, and equal to what `c` owes `u` minus what `u` owes `c`. */
  lemma BalanceAt(users: seq<UserRow>, expenses: seq<ExpenseRow>, ss: seq<SplitRow>, u: int, c: int, n: string)
    requires UniqueNames(users) && c != u && NameOf(users, c) == Some(n)
    ensures n in BalancesOf(users, expenses, ss, u) <==> PairHas(expenses, u, c, ss) || PairHas(expenses, c, u, ss)
    ensures n in BalancesOf(users, expenses, ss, u) ==>
              BalancesOf(users, expenses, ss, u)[n] == PairSum(expenses, u, c, ss) - PairSum(expenses, c, u, ss)
  {
    OwedToUserByPair(users, expenses, ss, u, c, n);
    UserOwesByPair(users, expenses, ss, u, c, n);
    if !PairHas(expenses, u, c, ss) { NoPairNoSum(expenses, u, c, ss); }
    if !PairHas(expenses, c, u, ss) { NoPairNoSum(expenses, c, u, ss); }
  }

  /** Balances are antisymmetric: `b` appears in `a`'s balances iff `a` appears
      in `b`'s, with the opposite sign. */
  lemma Antisymmetric(users: seq<UserRow>, expenses: seq<ExpenseRow>, ss: seq<SplitRow>, a: int, b: int, na: string, nb: string)
    requires UniqueNames(users) && a != b
    requires NameOf(users, a) == Some(na) && NameOf(users, b) == Some(nb)
    ensures nb in BalancesOf(users, expenses, ss, a) <==> na in BalancesOf(users, expenses, ss, b)
    ensures nb in BalancesOf(users, expenses, ss, a) ==>
              BalancesOf(users, expenses, ss, a)[nb] == -BalancesOf(users, expenses, ss, b)[na]
  {
    BalanceAt(users, expenses, ss, a, b, nb);
    BalanceAt(users, expenses, ss, b, a, na);
  }

  lemma {:induction false} OwedToUserKeys(users: seq<UserRow>, expenses: seq<ExpenseRow>, ss: seq<SplitRow>, u: int, n: string)
    requires n in OwedToUser(users, expenses, u, ss)
    ensures exists c :: c != u && NameOf(users, c) == Some(n)
  {
    var s := ss[|ss| - 1];
    if OwedToUserRow(users, expenses, u, s) && NameOf(users, s.userId) == Some(n) {
      assert s.userId != u;
    } else {
      OwedToUserKeys(users, expenses, ss[..|ss| - 1], u, n);
    }
  }

  lemma {:induction false} UserOwesKeys(users: seq<UserRow>, expenses: seq<ExpenseRow>, ss: seq<SplitRow>, u: int, n: string)
    requires n in UserOwes(users, expenses, u, ss)
    ensures exists c :: c != u && NameOf(users, c) == Some(n)
  {
    var s := ss[|ss| - 1];
    if UserOwesRow(users, expenses, u, s) && NameOf(users, CreatorOf(expenses, s.expenseId).value) == Some(n) {
      assert CreatorOf(expenses, s.expenseId).value != u;
    } else {
      UserOwesKeys(users, expenses, ss[..|ss| - 1], u, n);
    }
  }

  /** Every key of a balance map is the username of some other existing user;
      in particular the user's own name never appears. */
  lemma BalanceKeys(users: seq<UserRow>, expenses: seq<ExpenseRow>, ss: seq<SplitRow>, u: int, n: string)
    requires UniqueNames(users)
    requires n in BalancesOf(users, expenses, ss, u)
    ensures exists c :: c != u && NameOf(users, c) == Some(n)
    ensures NameOf(users, u) != Some(n)
  {
    if n in OwedToUser(users, expenses, u, ss) {
      OwedToUserKeys(users, expenses, ss, u, n);
    } else {
      UserOwesKeys(users, expenses, ss, u, n);
    }
    var c :| c != u && NameOf(users, c) == Some(n);
    if NameOf(users, u) == Some(n) {
      NameOfInjective(users, u, c, n);
    }
  }

  /** A split that is already paid, or whose participant is the expense's own
      creator, never contributes to anyone's balances. */
  lemma IgnoredSplit(users: seq<UserRow>, expenses: seq<ExpenseRow>, ss: seq<SplitRow>, s: SplitRow, u: int)
    requires s.isPaid || CreatorOf(expenses, s.expenseId) == Some(s.userId)
    ensures BalancesOf(users, expenses, ss + [s], u) == BalancesOf(users, expenses, ss, u)
  {
    assert (ss + [s])[..|ss|] == ss;
  }

  /** `UPDATE splits SET is_paid = 1 WHERE user_id = payer AND expense_id IN
      (SELECT id FROM expenses WHERE created_by = receiver) AND is_paid = 0`.
      Only `is_paid` can change; it becomes set on exactly the payer's unpaid
      splits on the receiver's expenses, and is never cleared. */
  function MarkPaid(expenses: seq<ExpenseRow>, ss: seq<SplitRow>, payer: int, receiver: int): (r: seq<SplitRow>)
    ensures |r| == |ss|
    ensures forall i :: 0 <= i < |ss| ==> r[i].(isPaid := false) == ss[i].(isPaid := false)
    ensures forall i :: 0 <= i < |ss| ==> r[i].isPaid == (ss[i].isPaid || Owes(expenses, receiver, payer, ss[i]))
  {
    if ss == [] then []
    else
      var s := ss[|ss| - 1];
      MarkPaid(expenses, ss[..|ss| - 1], payer, receiver)
        + [if Owes(expenses, receiver, payer, s) then s.(isPaid := true) else s]
  }

  lemma MarkPaidPrefix(expenses: seq<ExpenseRow>, ss: seq<SplitRow>, payer: int, receiver: int)
    requires ss != []
    ensures MarkPaid(expenses, ss, payer, receiver)[..|ss| - 1] == MarkPaid(expenses, ss[..|ss| - 1], payer, receiver)
  {
  }

  /** After a settlement the payer owes the receiver nothing any more. */
  lemma {:induction false} SettleClearsPair(expenses: seq<ExpenseRow>, ss: seq<SplitRow>, payer: int, receiver: int)
    ensures !PairHas(expenses, receiver, payer, MarkPaid(expenses, ss, payer, receiver))
  {
    if ss != [] {
      MarkPaidPrefix(expenses, ss, payer, receiver);
      SettleClearsPair(expenses, ss[..|ss| - 1], payer, receiver);
    }
  }

  /** Every other ordered pair keeps exactly what it owed. */
  lemma {:induction false} SettleKeepsOtherPairs(expenses: seq<ExpenseRow>, ss: seq<SplitRow>, payer: int, receiver: int, creator: int, participant: int)
    requires creator != receiver || participant != payer
    ensures PairHas(expenses, creator, participant, MarkPaid(expenses, ss, payer, receiver)) == PairHas(expenses, creator, participant, ss)
    ensures PairSum(expenses, creator, participant, MarkPaid(expenses, ss, payer, receiver)) == PairSum(expenses, creator, participant, ss)
  {
    if ss != [] {
      MarkPaidPrefix(expenses, ss, payer, receiver);
      SettleKeepsOtherPairs(expenses, ss[..|ss| - 1], payer, receiver, creator, participant);
    }
  }

  /** After the payer settles with the receiver, the receiver appears in the
      payer's balances only if the receiver still owes the payer, and then with
      exactly that amount: the payer's debt to the receiver
      is gone, whatever amount was paid. */
  lemma SettledBalance(users: seq<UserRow>, expenses: seq<ExpenseRow>, ss: seq<SplitRow>, payer: int, receiver: int, nr: string)
    requires UniqueNames(users) && payer != receiver && NameOf(users, receiver) == Some(nr)
    ensures var after := BalancesOf(users, expenses, MarkPaid(expenses, ss, payer, receiver), payer);
            && (nr in after <==> PairHas(expenses, payer, receiver, ss))
            && (nr in after ==> after[nr] == PairSum(expenses, payer, receiver, ss))
  {
    var ss' := MarkPaid(expenses, ss, payer, receiver);
    SettleClearsPair(expenses, ss, payer, receiver);
    NoPairNoSum(expenses, receiver, payer, ss');
    SettleKeepsOtherPairs(expenses, ss, payer, receiver, payer, receiver);
    BalanceAt(users, expenses, ss', payer, receiver, nr);
  }

  /** A settlement between two users leaves every third user's balances as
      they were. */
  lemma {:induction false} SettleInvisibleToOthers(users: seq<UserRow>, expenses: seq<ExpenseRow>, ss: seq<SplitRow>, payer: int, receiver: int, w: int)
    requires w != payer && w != receiver
    ensures OwedToUser(users, expenses, w, MarkPaid(expenses, ss, payer, receiver)) == OwedToUser(users, expenses, w, ss)
    ensures UserOwes(users, expenses, w, MarkPaid(expenses, ss, payer, receiver)) == UserOwes(users, expenses, w, ss)
    ensures BalancesOf(users, expenses, MarkPaid(expenses, ss, payer, receiver), w) == BalancesOf(users, expenses, ss, w)
  {
    if ss != [] {
      MarkPaidPrefix(expenses, ss, payer, receiver);
      SettleInvisibleToOthers(users, expenses, ss[..|ss| - 1], payer, receiver, w);
    }
  }

  /** One entry of `getSettlementHistory`: the settlement's id, amount, time
      and the other party's username. */
  datatype HistoryEntry = HistoryEntry(id: int, amount: real, settledAt: string, otherUser: string)

  /** The "paid" list: settlements with `payer_id = u`, joined to the receiver's name. */
  function PaidHistory(users: seq<UserRow>, sts: seq<SettlementRow>, u: int): seq<HistoryEntry>
  {
    if sts == [] then []
    else
      var row := sts[|sts| - 1];
      PaidHistory(users, sts[..|sts| - 1], u)
        + (if row.payerId == u && NameOf(users, row.receiverId).Some?
           then [HistoryEntry(row.id, row.amount, row.settledAt, NameOf(users, row.receiverId).value)]
           else [])
  }

  /** The "received" list: settlements with `receiver_id = u`, joined to the payer's name. */
  function ReceivedHistory(users: seq<UserRow>, sts: seq<SettlementRow>, u: int): seq<HistoryEntry>
  {
    if sts == [] then []
    else
      var row := sts[|sts| - 1];
      ReceivedHistory(users, sts[..|sts| - 1], u)
        + (if row.receiverId == u && NameOf(users, row.payerId).Some?
           then [HistoryEntry(row.id, row.amount, row.settledAt, NameOf(users, row.payerId).value)]
           else [])
  }

  /** The "paid" list holds an entry for every settlement `u` paid whose
      receiver joins a user, and nothing else. */
  lemma {:induction false} PaidHistoryMembers(users: seq<UserRow>, sts: seq<SettlementRow>, u: int)
    ensures forall row :: row in sts && row.payerId == u && NameOf(users, row.receiverId).Some? ==>
              HistoryEntry(row.id, row.amount, row.settledAt, NameOf(users, row.receiverId).value) in PaidHistory(users, sts, u)
    ensures forall x :: x in PaidHistory(users, sts, u) ==>
              (exists row :: row in sts && row.payerId == u && NameOf(users, row.receiverId) == Some(x.otherUser)
                             && x == HistoryEntry(row.id, row.amount, row.settledAt, x.otherUser))
  {
    if sts != [] {
      var pre := sts[..|sts| - 1];
      PaidHistoryMembers(users, pre, u);
      assert forall row :: row in sts ==> row in pre || row == sts[|sts| - 1];
      assert forall row :: row in pre ==> row in sts;
    }
  }

  /** The "received" list holds an entry for every settlement `u` received
      whose payer joins a user, and nothing else. */
  lemma {:induction false} ReceivedHistoryMembers(users: seq<UserRow>, sts: seq<SettlementRow>, u: int)
    ensures forall row :: row in sts && row.receiverId == u && NameOf(users, row.payerId).Some? ==>
              HistoryEntry(row.id, row.amount, row.settledAt, NameOf(users, row.payerId).value) in ReceivedHistory(users, sts, u)
    ensures forall x :: x in ReceivedHistory(users, sts, u) ==>
              (exists row :: row in sts && row.receiverId == u && NameOf(users, row.payerId) == Some(x.otherUser)
                             && x == HistoryEntry(row.id, row.amount, row.settledAt, x.otherUser))
  {
    if sts != [] {
      var pre := sts[..|sts| - 1];
      ReceivedHistoryMembers(users, pre, u);
      assert forall row :: row in sts ==> row in pre || row == sts[|sts| - 1];
      assert forall row :: row in pre ==> row in sts;
    }
  }

  /** Appending a settlement only extends every user's history: earlier
      entries stay, in place. */
  lemma HistoryAppendOnly(users: seq<UserRow>, sts: seq<SettlementRow>, row: SettlementRow, u: int)
    ensures PaidHistory(users, sts, u) <= PaidHistory(users, sts + [row], u)
    ensures ReceivedHistory(users, sts, u) <= ReceivedHistory(users, sts + [row], u)
  {
    assert (sts + [row])[..|sts|] == sts;
  }
}
