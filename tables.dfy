/** The four tables of the expense database (users, expenses, splits,
    settlements) as rows, with the lookups the SQL joins perform. Timestamps
    are abstract strings supplied by the caller. */
module Tables {
  import opened Common

  /** A row of `users`; `username` and `email` are UNIQUE columns. */
  datatype UserRow = UserRow(id: int, username: string, password: string, email: string)

  /** A row of `expenses`; `created_by` is the creator's user id. */
  datatype ExpenseRow = ExpenseRow(id: int, description: string, amount: real, createdBy: int, createdAt: string)

  /** A row of `splits`: `userId` owes `amount` to the creator of expense `expenseId`. */
  datatype SplitRow = SplitRow(id: int, expenseId: int, userId: int, amount: real, isPaid: bool)

  /** A row of `settlements`, an audit record that is never updated. */
  datatype SettlementRow = SettlementRow(id: int, payerId: int, receiverId: int, amount: real, settledAt: string)

  /** The `User` object the user queries build: id, username and email only;
      the password column is never copied into it. */
  datatype User = User(id: int, username: string, email: string)

  function ToUser(row: UserRow): User
  {
    User(row.id, row.username, row.email)
  }

  function UserKey(row: UserRow): int { row.id }
  function ExpenseKey(row: ExpenseRow): int { row.id }
  function SplitKey(row: SplitRow): int { row.id }
  function SettlementKey(row: SettlementRow): int { row.id }

  function HasUserId(id: int): UserRow -> bool { (row: UserRow) => row.id == id }
  function HasUsername(name: string): UserRow -> bool { (row: UserRow) => row.username == name }
  function HasEmail(email: string): UserRow -> bool { (row: UserRow) => row.email == email }
  function HasCredentials(name: string, password: string): UserRow -> bool
  {
    (row: UserRow) => row.username == name && row.password == password
  }
  function HasExpenseId(id: int): ExpenseRow -> bool { (row: ExpenseRow) => row.id == id }

  /** `SELECT * FROM users WHERE username = ?`, first row. */
  function UserByName(users: seq<UserRow>, name: string): Option<UserRow>
  {
    FirstWhere(users, HasUsername(name))
  }

  /** The username a `JOIN users u ON ... = u.id` attaches to a user id. */
  function NameOf(users: seq<UserRow>, id: int): Option<string>
  {
    match FirstWhere(users, HasUserId(id))
    case None => None
    case Some(row) => Some(row.username)
  }

  /** The creator a `JOIN expenses e ON s.expense_id = e.id` attaches to a split. */
  function CreatorOf(expenses: seq<ExpenseRow>, expenseId: int): Option<int>
  {
    match FirstWhere(expenses, HasExpenseId(expenseId))
    case None => None
    case Some(row) => Some(row.createdBy)
  }

  /** The UNIQUE constraint on `users.username`. */
  ghost predicate UniqueNames(users: seq<UserRow>)
  {
    forall i, j :: 0 <= i < j < |users| ==> users[i].username != users[j].username
  }

  /** The UNIQUE constraint on `users.email`. */
  ghost predicate UniqueEmails(users: seq<UserRow>)
  {
    forall i, j :: 0 <= i < j < |users| ==> users[i].email != users[j].email
  }

  /** With unique usernames, the join from user id to username never gives two
      users the same name. */
  lemma NameOfInjective(users: seq<UserRow>, a: int, b: int, n: string)
    requires UniqueNames(users)
    requires NameOf(users, a) == Some(n) && NameOf(users, b) == Some(n)
    ensures a == b
  {
    var ra := FirstWhere(users, HasUserId(a)).value;
    var rb := FirstWhere(users, HasUserId(b)).value;
    var i :| 0 <= i < |users| && users[i] == ra;
    var j :| 0 <= j < |users| && users[j] == rb;
    assert users[i].username == users[j].username;
    assert i == j;
  }

  /** With unique user ids, the user found by name is the one whose id joins to
      that name. */
  lemma UserByNameJoinsBack(users: seq<UserRow>, next: int, n: string)
    requires KeysIncreasing(users, UserKey, next)
    requires UserByName(users, n).Some?
    ensures NameOf(users, UserByName(users, n).value.id) == Some(n)
  {
    var row := UserByName(users, n).value;
    var i :| 0 <= i < |users| && users[i] == row && HasUsername(n)(users[i]);
    var first := FirstWhere(users, HasUserId(row.id));
    var j :| 0 <= j < |users| && users[j] == first.value && HasUserId(row.id)(users[j])
                              && forall k :: 0 <= k < j ==> !HasUserId(row.id)(users[k]);
    assert i == j;
  }
}
