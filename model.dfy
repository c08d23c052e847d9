/** The mutable records the ledger's reads return: `Split` and `Expense`.
    Java's `null` strings are modelled as the empty string; getters are plain
    reads of the fields. An expense's `List<Split>` is a `seq<Split>` field that
    `SetSplits` and `AddSplit` reassign. */
module Model {

  class Split {
    var id: int
    var expenseId: int
    var userId: int
    var username: string
    var amount: real
    var isPaid: bool

    /** `new Split()`: every field at Java's default, so the split is unpaid. */
    constructor ()
      ensures id == 0 && expenseId == 0 && userId == 0 && username == "" && amount == 0.0
      ensures !isPaid
    {
      id, expenseId, userId, username, amount, isPaid := 0, 0, 0, "", 0.0, false;
    }

    /** `new Split(userId, username, amount)`: stores the three values, unpaid. */
    constructor Of(userId: int, username: string, amount: real)
      ensures this.userId == userId && this.username == username && this.amount == amount
      ensures !isPaid && id == 0 && expenseId == 0
    {
      this.userId, this.username, this.amount := userId, username, amount;
      id, expenseId, isPaid := 0, 0, false;
    }

    method SetId(id: int)
      modifies this`id
      ensures this.id == id
    {
      this.id := id;
    }

    method SetExpenseId(expenseId: int)
      modifies this`expenseId
      ensures this.expenseId == expenseId
    {
      this.expenseId := expenseId;
    }

    method SetUserId(userId: int)
      modifies this`userId
      ensures this.userId == userId
    {
      this.userId := userId;
    }

    method SetUsername(username: string)
      modifies this`username
      ensures this.username == username
    {
      this.username := username;
    }

    method SetAmount(amount: real)
      modifies this`amount
      ensures this.amount == amount
    {
      this.amount := amount;
    }

    method SetPaid(paid: bool)
      modifies this`isPaid
      ensures isPaid == paid
    {
      isPaid := paid;
    }
  }

  /** Sum of the amounts the split objects currently hold, in list order. */
  ghost function SumAmounts(ss: seq<Split>): real
    reads ss
  {
    if ss == [] then 0.0 else SumAmounts(ss[..|ss| - 1]) + ss[|ss| - 1].amount
  }

  class Expense {
    var id: int
    var description: string
    var amount: real
    var createdAt: string
    var createdBy: string
    var createdById: int
    var splits: seq<Split>

    /** `new Expense()`: no splits, every other field at Java's default. */
    constructor ()
      ensures splits == []
      ensures id == 0 && description == "" && amount == 0.0 && createdAt == "" && createdBy == "" && createdById == 0
    {
      id, description, amount, createdAt, createdBy, createdById := 0, "", 0.0, "", "", 0;
      splits := [];
    }

    method SetId(id: int)
      modifies this`id
      ensures this.id == id
    {
      this.id := id;
    }

    method SetDescription(description: string)
      modifies this`description
      ensures this.description == description
    {
      this.description := description;
    }

    method SetAmount(amount: real)
      modifies this`amount
      ensures this.amount == amount
    {
      this.amount := amount;
    }

    method SetCreatedAt(createdAt: string)
      modifies this`createdAt
      ensures this.createdAt == createdAt
    {
      this.createdAt := createdAt;
    }

    method SetCreatedBy(createdBy: string)
      modifies this`createdBy
      ensures this.createdBy == createdBy
    {
      this.createdBy := createdBy;
    }

    method SetCreatedById(createdById: int)
      modifies this`createdById
      ensures this.createdById == createdById
    {
      this.createdById := createdById;
    }

    /** Replaces the whole list. */
    method SetSplits(splits: seq<Split>)
      modifies this`splits
      ensures this.splits == splits
    {
      this.splits := splits;
    }

    /** Appends one split at the end; the earlier ones stay where they were. */
    method AddSplit(split: Split)
      modifies this`splits
      ensures splits == old(splits) + [split]
    {
      splits := splits + [split];
    }

    /** The total of the split amounts; 0 when there are no splits. */
    method GetTotalSplitAmount() returns (total: real)
      ensures total == SumAmounts(splits)
      ensures splits == [] ==> total == 0.0
    {
      total := 0.0;
      for i := 0 to |splits|
        invariant total == SumAmounts(splits[..i])
      {
        assert splits[..i + 1][..i] == splits[..i];
        total := total + splits[i].amount;
      }
      assert splits[..|splits|] == splits;
    }
  }

  /** Adding a split raises the total by exactly that split's amount. */
  lemma AddSplitTotal(ss: seq<Split>, s: Split)
    ensures SumAmounts(ss + [s]) == SumAmounts(ss) + s.amount
  {
    assert (ss + [s])[..|ss|] == ss;
  }
}
