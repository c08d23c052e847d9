/** The expense database as one object: the four tables and their
    AUTOINCREMENT counters. Its methods are the JDBC operations that
    `DatabaseManager` and the `UserService`, `ExpenseService` and
    `BalanceService` classes issue (they share the same SQL). A statement
    that throws `SQLException` is modelled by a boolean `...Fails` parameter
    that the environment chooses. */
module LedgerStore {
  import opened Common
  import opened Tables
  import opened Balances
  import opened Model

  /** The username the `JOIN users` of a read attaches to a user id. */
  function JoinedName(users: seq<UserRow>, id: int): string
  {
    match NameOf(users, id)
    case Some(n) => n
    case None => ""
  }

  /** Rows of `SELECT ... FROM splits s JOIN users u ON s.user_id = u.id WHERE s.expense_id = ?`. */
  function SplitOfExpense(users: seq<UserRow>, expenseId: int): SplitRow -> bool
  {
    (s: SplitRow) => s.expenseId == expenseId && NameOf(users, s.userId).Some?
  }

  /** Rows of `SELECT ... FROM expenses e JOIN users u ON e.created_by = u.id WHERE e.created_by = ?`. */
  function ExpenseOfUser(users: seq<UserRow>, userId: int): ExpenseRow -> bool
  {
    (e: ExpenseRow) => e.createdBy == userId && NameOf(users, e.createdBy).Some?
  }

  /** Rows of `SELECT ... FROM expenses e JOIN users u ON e.created_by = u.id WHERE e.id = ?`. */
  function ExpenseWithId(users: seq<UserRow>, expenseId: int): ExpenseRow -> bool
  {
    (e: ExpenseRow) => e.id == expenseId && NameOf(users, e.createdBy).Some?
  }

  /** What `DELETE FROM splits WHERE expense_id = ?` leaves. */
  function SplitNotOf(expenseId: int): SplitRow -> bool
  {
    (s: SplitRow) => s.expenseId != expenseId
  }

  /** What `DELETE FROM expenses WHERE id = ?` leaves. */
  function ExpenseNotWithId(expenseId: int): ExpenseRow -> bool
  {
    (e: ExpenseRow) => e.id != expenseId
  }

  /** A `Split` object filled from a row of the splits query; `expenseId` is
      never set by that query and keeps its default 0. */
  ghost predicate SplitLoaded(sp: Split, row: SplitRow, username: string)
    reads sp
  {
    && sp.id == row.id && sp.userId == row.userId && sp.username == username
    && sp.amount == row.amount && sp.isPaid == row.isPaid && sp.expenseId == 0
  }

  /** The split objects are, one for one and in order, the rows `rows`. */
  ghost predicate SplitsLoaded(objs: seq<Split>, rows: seq<SplitRow>, users: seq<UserRow>)
    reads objs
  {
    |objs| == |rows| &&
    forall k :: 0 <= k < |objs| ==> SplitLoaded(objs[k], rows[k], JoinedName(users, rows[k].userId))
  }

  /** An `Expense` object filled from an expense row, carrying the objects of
      that expense's splits; `createdById` is never set by the reads and keeps
      its default 0. */
  ghost predicate ExpenseLoaded(x: Expense, row: ExpenseRow, users: seq<UserRow>, ss: seq<SplitRow>)
    reads x, x.splits
  {
    && x.id == row.id && x.description == row.description && x.amount == row.amount
    && x.createdAt == row.createdAt && x.createdBy == JoinedName(users, row.createdBy) && x.createdById == 0
    && SplitsLoaded(x.splits, Filter(ss, SplitOfExpense(users, row.id)), users)
  }

  /** Builds the `Split` object for one row of the splits query. */
  method LoadSplit(row: SplitRow, username: string) returns (split: Split)
    ensures fresh(split) && SplitLoaded(split, row, username)
  {
    split := new Split();
    split.SetId(row.id);
    split.SetUserId(row.userId);
    split.SetUsername(username);
    split.SetAmount(row.amount);
    split.SetPaid(row.isPaid);
  }

  class Ledger {
    var users: seq<UserRow>
    var expenses: seq<ExpenseRow>
    var splits: seq<SplitRow>
    var settlements: seq<SettlementRow>
    var nextUserId: int
    var nextExpenseId: int
    var nextSplitId: int
    var nextSettlementId: int

    /** The table constraints: AUTOINCREMENT primary keys on all four tables,
        UNIQUE usernames and UNIQUE emails. */
    ghost predicate Valid()
      reads this
    {
      && nextUserId >= 1 && nextExpenseId >= 1 && nextSplitId >= 1 && nextSettlementId >= 1
      && KeysIncreasing(users, UserKey, nextUserId)
      && KeysIncreasing(expenses, ExpenseKey, nextExpenseId)
      && KeysIncreasing(splits, SplitKey, nextSplitId)
      && KeysIncreasing(settlements, SettlementKey, nextSettlementId)
      && UniqueNames(users) && UniqueEmails(users)
    }

    /** A freshly created database: four empty tables. */
    constructor ()
      ensures Valid()
      ensures users == [] && expenses == [] && splits == [] && settlements == []
    {
      users, expenses, splits, settlements := [], [], [], [];
      nextUserId, nextExpenseId, nextSplitId, nextSettlementId := 1, 1, 1, 1;
    }

    /** `INSERT INTO users`: refused when the username or the email is already
        taken (UNIQUE) or the statement fails; otherwise one new row. */
    method RegisterUser(username: string, password: string, email: string, fails: bool) returns (ok: bool)
      requires Valid()
      modifies this`users, this`nextUserId
      ensures Valid()
      ensures ok <==> !fails && forall i :: 0 <= i < |old(users)| ==>
                        old(users)[i].username != username && old(users)[i].email != email
      ensures ok ==> users == old(users) + [UserRow(old(nextUserId), username, password, email)]
                     && nextUserId == old(nextUserId) + 1
      ensures !ok ==> users == old(users) && nextUserId == old(nextUserId)
    {
      if fails || UserByName(users, username).Some? || FirstWhere(users, HasEmail(email)).Some? {
        return false;
      }
      KeysIncreasingAppend(users, UserKey, nextUserId, UserRow(nextUserId, username, password, email));
      users := users + [UserRow(nextUserId, username, password, email)];
      nextUserId := nextUserId + 1;
      ok := true;
    }

    /** `SELECT * FROM users WHERE username = ? AND password = ?`: a user iff
        some row carries both, built without the password. */
    method AuthenticateUser(username: string, password: string) returns (user: Option<User>)
      ensures user.None? <==> forall i :: 0 <= i < |users| ==> users[i].username != username || users[i].password != password
      ensures user.Some? ==> exists i :: 0 <= i < |users| && users[i].username == username && users[i].password == password
                                        && user.value == User(users[i].id, username, users[i].email)
    {
      match FirstWhere(users, HasCredentials(username, password))
      case None => user := None;
      case Some(row) => user := Some(ToUser(row));
    }

    /** `SELECT * FROM users WHERE username = ?`: the unique user with that
        name, or none. */
    method GetUserByUsername(username: string) returns (user: Option<User>)
      requires Valid()
      ensures user.None? <==> forall i :: 0 <= i < |users| ==> users[i].username != username
      ensures user.Some? ==> forall i :: 0 <= i < |users| && users[i].username == username ==>
                               user.value == User(users[i].id, username, users[i].email)
    {
      match UserByName(users, username)
      case None => user := None;
      case Some(row) => user := Some(ToUser(row));
    }

    /** `SELECT * FROM users`: one `User` per row, in table order. */
    method GetAllUsers() returns (all: seq<User>)
      ensures |all| == |users|
      ensures forall i :: 0 <= i < |users| ==>
                all[i].id == users[i].id && all[i].username == users[i].username && all[i].email == users[i].email
    {
      all := [];
      var i := 0;
      while i < |users|
        invariant 0 <= i <= |users| && |all| == i
        invariant forall k :: 0 <= k < i ==> all[k] == ToUser(users[k])
      {
        all := all + [ToUser(users[i])];
        i := i + 1;
      }
    }

    /** `INSERT INTO expenses`: on success the generated id, fresh and
        positive, and one new row; on failure -1 and no row. */
    method AddExpense(description: string, amount: real, createdById: int, now: string, fails: bool) returns (id: int)
      requires Valid()
      modifies this`expenses, this`nextExpenseId
      ensures Valid()
      ensures id == -1 <==> fails
      ensures !fails ==> id == old(nextExpenseId) >= 1 && (forall i :: 0 <= i < |old(expenses)| ==> old(expenses)[i].id != id)
                         && expenses == old(expenses) + [ExpenseRow(id, description, amount, createdById, now)]
                         && nextExpenseId == old(nextExpenseId) + 1
      ensures fails ==> expenses == old(expenses) && nextExpenseId == old(nextExpenseId)
    {
      if fails {
        return -1;
      }
      id := nextExpenseId;
      KeysIncreasingAppend(expenses, ExpenseKey, nextExpenseId, ExpenseRow(id, description, amount, createdById, now));
      expenses := expenses + [ExpenseRow(id, description, amount, createdById, now)];
      nextExpenseId := nextExpenseId + 1;
    }

    /** `INSERT INTO splits (expense_id, user_id, amount)`: one new row,
        unpaid by the column default; on failure false and no row. */
    method AddSplit(expenseId: int, userId: int, amount: real, fails: bool) returns (ok: bool)
      requires Valid()
      modifies this`splits, this`nextSplitId
      ensures Valid()
      ensures ok == !fails
      ensures ok ==> splits == old(splits) + [SplitRow(old(nextSplitId), expenseId, userId, amount, false)]
                     && nextSplitId == old(nextSplitId) + 1
      ensures !ok ==> splits == old(splits) && nextSplitId == old(nextSplitId)
    {
      if fails {
        return false;
      }
      KeysIncreasingAppend(splits, SplitKey, nextSplitId, SplitRow(nextSplitId, expenseId, userId, amount, false));
      splits := splits + [SplitRow(nextSplitId, expenseId, userId, amount, false)];
      nextSplitId := nextSplitId + 1;
      ok := true;
    }

    /** The splits of one expense whose participant joins a user, as new
        `Split` objects in table order. */
    method GetExpenseSplits(expenseId: int) returns (result: seq<Split>)
      ensures SplitsLoaded(result, Filter(splits, SplitOfExpense(users, expenseId)), users)
      ensures forall k :: 0 <= k < |result| ==> fresh(result[k])
    {
      ghost var keep := SplitOfExpense(users, expenseId);
      result := [];
      var i := 0;
      while i < |splits|
        invariant 0 <= i <= |splits|
        invariant SplitsLoaded(result, Filter(splits[..i], keep), users)
        invariant forall k :: 0 <= k < |result| ==> fresh(result[k])
      {
        var row := splits[i];
        assert splits[..i + 1][..i] == splits[..i];
        assert Filter(splits[..i + 1], keep) == Filter(splits[..i], keep) + (if keep(row) then [row] else []);
        if row.expenseId == expenseId {
          match NameOf(users, row.userId)
          case None =>
          case Some(name) =>
            var split := LoadSplit(row, name);
            result := result + [split];
        }
        i := i + 1;
      }
      assert splits[..i] == splits;
    }

    /** The expenses created by `userId` (who must join a user), each a new
        `Expense` object carrying its own splits, in table order. */
    method GetUserExpenses(userId: int) returns (result: seq<Expense>)
      ensures |result| == |Filter(expenses, ExpenseOfUser(users, userId))|
      ensures forall k :: 0 <= k < |result| ==>
                fresh(result[k]) && ExpenseLoaded(result[k], Filter(expenses, ExpenseOfUser(users, userId))[k], users, splits)
    {
      ghost var keep := ExpenseOfUser(users, userId);
      result := [];
      var i := 0;
      while i < |expenses|
        invariant 0 <= i <= |expenses|
        invariant |result| == |Filter(expenses[..i], keep)|
        invariant forall k :: 0 <= k < |result| ==>
                    fresh(result[k]) && ExpenseLoaded(result[k], Filter(expenses[..i], keep)[k], users, splits)
      {
        var row := expenses[i];
        assert expenses[..i + 1][..i] == expenses[..i];
        if row.createdBy == userId {
          match NameOf(users, row.createdBy)
          case None =>
          case Some(name) =>
            var expense := LoadExpense(row, name);
            result := result + [expense];
        }
        i := i + 1;
      }
      assert expenses[..i] == expenses;
    }

    /** Builds the `Expense` object for one row of an expense query. */
    method LoadExpense(row: ExpenseRow, creatorName: string) returns (expense: Expense)
      requires NameOf(users, row.createdBy) == Some(creatorName)
      ensures fresh(expense) && ExpenseLoaded(expense, row, users, splits)
    {
      expense := new Expense();
      expense.SetId(row.id);
      expense.SetDescription(row.description);
      expense.SetAmount(row.amount);
      expense.SetCreatedAt(row.createdAt);
      expense.SetCreatedBy(creatorName);
      var splitObjects := GetExpenseSplits(expense.id);
      expense.SetSplits(splitObjects);
    }

    /** One expense with its splits, or `null` when no row has that id (or
        its creator joins no user). */
    method GetExpenseById(expenseId: int) returns (expense: Expense?)
      ensures expense == null <==> FirstWhere(expenses, ExpenseWithId(users, expenseId)).None?
      ensures expense != null ==>
                fresh(expense) && ExpenseLoaded(expense, FirstWhere(expenses, ExpenseWithId(users, expenseId)).value, users, splits)
    {
      match FirstWhere(expenses, ExpenseWithId(users, expenseId))
      case None => expense := null;
      case Some(row) =>
        expense := LoadExpense(row, NameOf(users, row.createdBy).value);
    }

    /** Deletes an expense's splits and then the expense, in one transaction:
        either both deletions are applied (also when no row has that id) or,
        when a statement fails, the rollback leaves both tables as they were. */
    method DeleteExpense(expenseId: int, splitsDeleteFails: bool, expenseDeleteFails: bool) returns (ok: bool)
      requires Valid()
      modifies this`splits, this`expenses
      ensures Valid()
      ensures ok == (!splitsDeleteFails && !expenseDeleteFails)
      ensures ok ==> splits == Filter(old(splits), SplitNotOf(expenseId))
                     && expenses == Filter(old(expenses), ExpenseNotWithId(expenseId))
      ensures !ok ==> splits == old(splits) && expenses == old(expenses)
    {
      var savedSplits, savedExpenses := splits, expenses;
      ok := false;
      if !splitsDeleteFails {
        KeysIncreasingFilter(splits, SplitKey, nextSplitId, SplitNotOf(expenseId));
        splits := Filter(splits, SplitNotOf(expenseId));
        if !expenseDeleteFails {
          KeysIncreasingFilter(expenses, ExpenseKey, nextExpenseId, ExpenseNotWithId(expenseId));
          expenses := Filter(expenses, ExpenseNotWithId(expenseId));
          ok := true;
        }
      }
      if !ok {
        splits, expenses := savedSplits, savedExpenses;
      }
    }

    /** The balance map of `userId`: the grouped result of the first query is
        put into the map, then each group of the second query is merged in,
        subtracted from an existing entry or inserted negated. */
    method GetUserBalances(userId: int) returns (balances: map<string, real>)
      ensures balances == BalancesOf(users, expenses, splits, userId)
    {
      var owed := OwedToUser(users, expenses, userId, splits);
      balances := map[];
      var rows := owed.Keys;
      while rows != {}
        invariant rows <= owed.Keys
        invariant balances.Keys == owed.Keys - rows
        invariant forall n :: n in balances ==> balances[n] == owed[n]
        decreases rows
      {
        var n :| n in rows;
        balances := balances[n := owed[n]];
        rows := rows - {n};
      }
      var owes := UserOwes(users, expenses, userId, splits);
      rows := owes.Keys;
      while rows != {}
        invariant rows <= owes.Keys
        invariant balances.Keys == owed.Keys + (owes.Keys - rows)
        invariant forall n :: n in balances ==>
                    balances[n] == (if n in owed then owed[n] else 0.0) - (if n in owes && n !in rows then owes[n] else 0.0)
        decreases rows
      {
        var n :| n in rows;
        if n in balances {
          balances := balances[n := balances[n] - owes[n]];
        } else {
          balances := balances[n := -owes[n]];
        }
        rows := rows - {n};
      }
    }

    /** Records a settlement and marks the payer's unpaid splits on the
        receiver's expenses as paid, in one transaction. On success exactly one
        settlement row is appended and `is_paid` is set on exactly those
        splits, whatever `amount` is; when either statement fails, the
        rollback leaves both tables as they were. */
    method SettleDebt(payerId: int, receiverId: int, amount: real, now: string, insertFails: bool, updateFails: bool)
      returns (ok: bool)
      requires Valid()
      modifies this`settlements, this`nextSettlementId, this`splits
      ensures Valid()
      ensures ok == (!insertFails && !updateFails)
      ensures ok ==> settlements == old(settlements) + [SettlementRow(old(nextSettlementId), payerId, receiverId, amount, now)]
                     && nextSettlementId == old(nextSettlementId) + 1
                     && splits == MarkPaid(expenses, old(splits), payerId, receiverId)
      ensures !ok ==> settlements == old(settlements) && nextSettlementId == old(nextSettlementId) && splits == old(splits)
    {
      var savedSettlements, savedNext, savedSplits := settlements, nextSettlementId, splits;
      ok := false;
      if !insertFails {
        var row := SettlementRow(nextSettlementId, payerId, receiverId, amount, now);
        KeysIncreasingAppend(settlements, SettlementKey, nextSettlementId, row);
        settlements := settlements + [row];
        nextSettlementId := nextSettlementId + 1;
        if !updateFails {
          var marked := MarkPaid(expenses, splits, payerId, receiverId);
          assert forall i :: 0 <= i < |splits| ==> marked[i].id == splits[i].id;
          splits := marked;
          ok := true;
        }
      }
      if !ok {
        settlements, nextSettlementId, splits := savedSettlements, savedNext, savedSplits;
      }
    }

    /** The settlement history of `userId`: always both keys; "paid" lists the
        settlements it paid (other user = receiver), "received" those it
        received (other user = payer). */
    method GetSettlementHistory(userId: int) returns (history: map<string, seq<HistoryEntry>>)
      ensures history.Keys == {"paid", "received"}
      ensures history["paid"] == PaidHistory(users, settlements, userId)
      ensures history["received"] == ReceivedHistory(users, settlements, userId)
    {
      var paid := PaidSettlements(userId);
      var received := ReceivedSettlements(userId);
      history := map["paid" := paid, "received" := received];
    }

    /** The first history query: settlements paid by `userId`, in table order. */
    method PaidSettlements(userId: int) returns (paid: seq<HistoryEntry>)
      ensures paid == PaidHistory(users, settlements, userId)
    {
      paid := [];
      var i := 0;
      while i < |settlements|
        invariant 0 <= i <= |settlements|
        invariant paid == PaidHistory(users, settlements[..i], userId)
      {
        var row := settlements[i];
        assert settlements[..i + 1][..i] == settlements[..i];
        if row.payerId == userId && NameOf(users, row.receiverId).Some? {
          paid := paid + [HistoryEntry(row.id, row.amount, row.settledAt, NameOf(users, row.receiverId).value)];
        }
        i := i + 1;
      }
      assert settlements[..i] == settlements;
    }

    /** The second history query: settlements received by `userId`, in table order. */
    method ReceivedSettlements(userId: int) returns (received: seq<HistoryEntry>)
      ensures received == ReceivedHistory(users, settlements, userId)
    {
      received := [];
      var i := 0;
      while i < |settlements|
        invariant 0 <= i <= |settlements|
        invariant received == ReceivedHistory(users, settlements[..i], userId)
      {
        var row := settlements[i];
        assert settlements[..i + 1][..i] == settlements[..i];
        if row.receiverId == userId && NameOf(users, row.payerId).Some? {
          received := received + [HistoryEntry(row.id, row.amount, row.settledAt, NameOf(users, row.payerId).value)];
        }
        i := i + 1;
      }
      assert settlements[..i] == settlements;
    }
  }
}
