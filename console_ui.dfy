/** The logic of the console screens that decides what is written to the
    ledger: logging in and out, recording an expense with its splits,
    listing balances, and picking a debt to settle. Prompts, printing and
    pauses are left to the caller: what a user types arrives as parameters. */
module Console {
  import opened Common
  import opened Tables
  import opened Balances
  import opened SplitRules
  import opened LedgerStore

  /** The assumed console width that subtitles are centred in. */
  const ConsoleWidth: int := 80

  /** Java's `int` division by a positive divisor: it truncates toward zero,
      so the remainder takes the sign of the dividend. */
  function JavaDiv(a: int, b: int): (q: int)
    requires b > 0
    ensures a >= 0 ==> 0 <= a - q * b < b
    ensures a < 0 ==> -b < a - q * b <= 0
  {
    if a >= 0 then a / b else -((-a) / b)
  }

  /** A subtitle between two stars. */
  function Framed(subtitle: string): string
  {
    "★ " + subtitle + " ★"
  }

  /** The subtitle line: as many spaces as centre the framed subtitle in
      the console width, none when it does not fit. */
  method SubtitleLine(subtitle: string) returns (line: string)
    ensures |line| >= |Framed(subtitle)|
    ensures line[|line| - |Framed(subtitle)|..] == Framed(subtitle)
    ensures forall i :: 0 <= i < |line| - |Framed(subtitle)| ==> line[i] == ' '
    ensures |Framed(subtitle)| <= ConsoleWidth ==>
              0 <= ConsoleWidth - (2 * (|line| - |Framed(subtitle)|) + |Framed(subtitle)|) <= 1
    ensures |Framed(subtitle)| >= ConsoleWidth - 1 ==> line == Framed(subtitle)
  {
    var formatted := Framed(subtitle);
    var padding := JavaDiv(ConsoleWidth - |formatted|, 2);
    var spaces := "";
    var i := 0;
    while i < padding
      invariant 0 <= i && (padding >= 0 ==> i <= padding) && (padding <= 0 ==> i == 0)
      invariant |spaces| == i
      invariant forall k :: 0 <= k < i ==> spaces[k] == ' '
    {
      spaces := spaces + " ";
      i := i + 1;
    }
    line := spaces + formatted;
    assert line[|spaces|..] == formatted;
  }

  /** One line of the balances screen. */
  datatype BalanceLine = OwesYou(username: string, amount: real) | YouOwe(username: string, amount: real)

  /** What the balances screen shows. */
  datatype BalanceScreen = NoOutstanding | Listed(lines: seq<BalanceLine>)

  /** The line shown for one balance: who owes whom, with the absolute
      amount, and nothing for a zero balance. */
  function LineFor(username: string, amount: real): (r: Option<BalanceLine>)
    ensures r.Some? <==> amount != 0.0
    ensures r.Some? ==> r.value.username == username && r.value.amount == Abs(amount) && r.value.amount > 0.0
    ensures r.Some? ==> (r.value.OwesYou? <==> amount > 0.0)
  {
    if amount > 0.0 then Some(OwesYou(username, amount))
    else if amount < 0.0 then Some(YouOwe(username, -amount))
    else None
  }

  /** The lines for a balance map, in whatever order its entries come: one
      per non-zero balance, none for a zero one. */
  method ListBalances(balances: map<string, real>) returns (lines: seq<BalanceLine>)
    ensures forall j :: 0 <= j < |lines| ==>
              lines[j].username in balances && LineFor(lines[j].username, balances[lines[j].username]) == Some(lines[j])
    ensures forall n :: n in balances && balances[n] != 0.0 ==> exists j :: 0 <= j < |lines| && lines[j].username == n
    ensures forall i, j :: 0 <= i < j < |lines| ==> lines[i].username != lines[j].username
  {
    lines := [];
    ghost var names: seq<string> := [];
    var rest := balances.Keys;
    while rest != {}
      invariant rest <= balances.Keys
      invariant |names| == |lines| && forall j :: 0 <= j < |lines| ==> names[j] == lines[j].username
      invariant forall j :: 0 <= j < |lines| ==>
                  names[j] in balances.Keys - rest && LineFor(names[j], balances[names[j]]) == Some(lines[j])
      invariant forall n :: n in balances.Keys - rest && balances[n] != 0.0 ==> n in names
      invariant forall i, j :: 0 <= i < j < |names| ==> names[i] != names[j]
      decreases rest
    {
      var n :| n in rest;
      match LineFor(n, balances[n]) {
        case None =>
        case Some(line) =>
          lines := lines + [line];
          names := names + [n];
      }
      rest := rest - {n};
    }
  }

  /** The balances the user owes: the negative entries. */
  function Debts(balances: map<string, real>): set<string>
  {
    set n | n in balances && balances[n] < 0.0
  }

  /** The numbered debt list of the settle screen: the names and absolute
      amounts of exactly the negative balances, each once, in arrays sized
      for the whole map. */
  method CollectDebts(balances: map<string, real>) returns (usernames: array<string>, amounts: array<real>, count: nat)
    ensures fresh(usernames) && fresh(amounts)
    ensures usernames.Length == amounts.Length == |balances|
    ensures count == |Debts(balances)| <= |balances|
    ensures forall j :: 0 <= j < count ==>
              usernames[j] in Debts(balances) && amounts[j] == Abs(balances[usernames[j]])
    ensures forall n :: n in Debts(balances) ==> exists j :: 0 <= j < count && usernames[j] == n
    ensures forall i, j :: 0 <= i < j < count ==> usernames[i] != usernames[j]
  {
    usernames := new string[|balances|](_ => "");
    amounts := new real[|balances|](_ => 0.0);
    count := 0;
    var rest := balances.Keys;
    ghost var seen: nat := 0;
    ghost var names: seq<string> := [];
    ghost var owed: seq<real> := [];
    while rest != {}
      invariant rest <= balances.Keys && seen + |rest| == |balances.Keys|
      invariant count == |names| <= seen
      invariant DebtsListedSoFar(balances, rest, names, owed)
      invariant usernames[..count] == names && amounts[..count] == owed
      decreases rest
    {
      var n :| n in rest;
      DebtsListedStep(balances, rest, names, owed, n);
      if balances[n] < 0.0 {
        PlaceDebt(usernames, amounts, count, n, Abs(balances[n]));
        names, owed := names + [n], owed + [Abs(balances[n])];
        count := count + 1;
      }
      seen := seen + 1;
      rest := rest - {n};
    }
    assert |balances| == |balances.Keys|;
    assert forall j :: 0 <= j < count ==> usernames[j] == names[j] && amounts[j] == owed[j];
    ListedDebtsCount(balances, names, owed);
  }

  /** Stores one debt in slot `count` of both arrays, keeping the slots before it. */
  method PlaceDebt(usernames: array<string>, amounts: array<real>, count: nat, username: string, amount: real)
    requires count < usernames.Length && count < amounts.Length
    modifies usernames, amounts
    ensures usernames[..count + 1] == old(usernames[..count]) + [username]
    ensures amounts[..count + 1] == old(amounts[..count]) + [amount]
  {
    usernames[count] := username;
    amounts[count] := amount;
  }

  /** The debt list after visiting every key outside `rest`: each listed
      name is a visited debt, listed with its absolute amount, each visited
      debt is listed, and none twice. */
  ghost predicate DebtsListedSoFar(balances: map<string, real>, rest: set<string>, names: seq<string>, owed: seq<real>)
  {
    && |owed| == |names|
    && (forall j :: 0 <= j < |names| ==>
          names[j] in balances && names[j] !in rest && balances[names[j]] < 0.0 && owed[j] == Abs(balances[names[j]]))
    && (forall n :: n in balances && n !in rest && balances[n] < 0.0 ==> n in names)
    && (forall i, j :: 0 <= i < j < |names| ==> names[i] != names[j])
  }

  /** Visiting one more key lists it, with its absolute amount, exactly when
      it is a debt. */
  lemma DebtsListedStep(balances: map<string, real>, rest: set<string>, names: seq<string>, owed: seq<real>, n: string)
    requires DebtsListedSoFar(balances, rest, names, owed) && n in rest && rest <= balances.Keys
    ensures balances[n] < 0.0 ==>
              DebtsListedSoFar(balances, rest - {n}, names + [n], owed + [Abs(balances[n])])
    ensures balances[n] >= 0.0 ==> DebtsListedSoFar(balances, rest - {n}, names, owed)
  {
  }

  /** Once every key is visited the list holds exactly the debts, each once,
      so it has one entry per debt. */
  lemma ListedDebtsCount(balances: map<string, real>, names: seq<string>, owed: seq<real>)
    requires DebtsListedSoFar(balances, {}, names, owed)
    ensures forall j :: 0 <= j < |names| ==> names[j] in Debts(balances) && owed[j] == Abs(balances[names[j]])
    ensures forall n :: n in Debts(balances) ==> exists j :: 0 <= j < |names| && names[j] == n
    ensures |names| == |Debts(balances)|
  {
    assert (set x | x in names) == Debts(balances);
    DistinctCardinality(names);
  }

  /** The debt picked by the choice typed on the settle screen, as the
      guard is written: 0 or a number above the count cancels, and every
      other choice is turned into the array index `choice - 1`. */
  function SelectionAsWritten(choice: int, count: nat): Option<int>
  {
    if choice == 0 || choice > count then None else Some(choice - 1)
  }

  /** Every negative choice passes the guard as written and yields an index
      below 0, which the debt arrays reject with an exception. */
  lemma NegativeChoicePassesGuard(count: nat)
    ensures forall choice :: choice < 0 ==>
              SelectionAsWritten(choice, count) == Some(choice - 1) && choice - 1 < 0
  {
  }

  /** The debt picked by the choice, with the guard the cancel message
      promises: only 1 to `count` pick a debt, and the index is in range. */
  function Selection(choice: int, count: nat): (r: Option<int>)
    ensures r.Some? <==> 1 <= choice <= count
    ensures r.Some? ==> r.value == choice - 1 && 0 <= r.value < count
  {
    if choice < 1 || choice > count then None else Some(choice - 1)
  }

  /** The two guards agree on every choice that is not negative. */
  lemma SelectionAgreesOnNonNegative(choice: int, count: nat)
    requires choice >= 0
    ensures Selection(choice, count) == SelectionAsWritten(choice, count)
  {
  }

  /** `equalsIgnoreCase("Y")`. */
  predicate Confirms(answer: string)
  {
    answer == "Y" || answer == "y"
  }

  /** How an attempt to add an expense ends. */
  datatype AddOutcome =
    | TooFewUsers
    | InvalidSplitType
    | Cancelled
    | Restarted
    | ExpenseNotCreated
    | Recorded(expenseId: int, allSplitsAdded: bool)

  /** How the settle screen ends. */
  datatype SettleOutcome =
    | NoBalances
    | NoDebts
    | SelectionCancelled
    | Declined(receiver: string, amount: real)
    | Settled(receiver: string, receiverId: int, amount: real, ok: bool)

  /** Split type 1 is the equal split, 2 the custom split. */
  const EqualSplit: int := 1
  const CustomSplit: int := 2

  /** The entered custom shares miss the amount by more than the tolerance. */
  predicate Mismatch(entered: seq<real>, amount: real)
  {
    Abs(Sum(entered) - amount) > Tolerance
  }

  /** The choices made so far lead to writing the expense: enough
      participants, and either an equal split or a custom split that matches
      or is adjusted (choice 1 on the mismatch menu). */
  predicate Proceeds(splitType: int, numUsers: int, entered: seq<real>, amount: real, mismatchChoice: int)
  {
    numUsers >= MinParticipants
    && (splitType == EqualSplit || (splitType == CustomSplit && (!Mismatch(entered, amount) || mismatchChoice == 1)))
  }

  /** Every name typed for the other participants is a registered user (the
      prompt repeats until it is). */
  ghost predicate AllResolve(users: seq<UserRow>, names: seq<string>)
  {
    forall k :: 0 <= k < |names| ==> UserByName(users, names[k]).Some?
  }

  /** The participant ids: the creator first, then the users the typed
      names resolve to. */
  function ParticipantIds(users: seq<UserRow>, creatorId: int, others: seq<string>): (r: seq<int>)
    requires AllResolve(users, others)
    ensures |r| == |others| + 1 && r[0] == creatorId
  {
    [creatorId] + seq(|others|, k requires 0 <= k < |others| => UserByName(users, others[k]).value.id)
  }

  /** Some user row has id `id` and username `name`. */
  ghost predicate IsUserNamed(users: seq<UserRow>, id: int, name: string)
  {
    exists i :: 0 <= i < |users| && users[i].id == id && users[i].username == name
  }

  /** Each participant after the creator is a user row carrying the typed name. */
  lemma ParticipantIdsNamed(users: seq<UserRow>, creatorId: int, others: seq<string>)
    requires AllResolve(users, others)
    ensures forall k :: 0 <= k < |others| ==>
              IsUserNamed(users, ParticipantIds(users, creatorId, others)[k + 1], others[k])
  {
    forall k | 0 <= k < |others|
      ensures IsUserNamed(users, ParticipantIds(users, creatorId, others)[k + 1], others[k])
    {
      var row := UserByName(users, others[k]).value;
      assert ParticipantIds(users, creatorId, others)[k + 1] == row.id;
      var i :| 0 <= i < |users| && users[i] == row && HasUsername(others[k])(users[i]);
    }
  }

  /** The shares an expense is recorded with. */
  function RecordedShares(splitType: int, amount: real, numUsers: int, entered: seq<real>): (r: seq<real>)
    requires numUsers >= 1
    requires splitType != EqualSplit ==> |entered| == numUsers && (Mismatch(entered, amount) ==> Sum(entered) != 0.0)
    ensures |r| == numUsers
    ensures Abs(Sum(r) - amount) <= Tolerance
  {
    if splitType == EqualSplit then EqualShares(amount, numUsers) else CustomShares(entered, amount)
  }

  /** A name in a user's balance map is another user's name, and looking it
      up by username finds that user. */
  lemma CounterpartyResolves(users: seq<UserRow>, next: int, expenses: seq<ExpenseRow>, ss: seq<SplitRow>, u: int, n: string)
    requires KeysIncreasing(users, UserKey, next) && UniqueNames(users)
    requires n in BalancesOf(users, expenses, ss, u)
    ensures UserByName(users, n).Some?
    ensures NameOf(users, UserByName(users, n).value.id) == Some(n)
    ensures UserByName(users, n).value.id != u
  {
    BalanceKeys(users, expenses, ss, u, n);
    var c :| c != u && NameOf(users, c) == Some(n);
    var row := FirstWhere(users, HasUserId(c)).value;
    var i :| 0 <= i < |users| && users[i] == row;
    assert HasUsername(n)(users[i]);
    UserByNameJoinsBack(users, next, n);
  }

  class ConsoleUI {
    const db: Ledger
    var currentUser: Option<User>

    /** A console over a database, with nobody logged in. */
    constructor (db: Ledger)
      ensures this.db == db && currentUser.None?
    {
      this.db := db;
      currentUser := None;
    }

    /** Logs in when some user has these credentials; a failed login keeps
        whoever was logged in. */
    method Login(username: string, password: string) returns (ok: bool)
      modifies this`currentUser
      ensures ok <==> exists i :: 0 <= i < |db.users| && db.users[i].username == username && db.users[i].password == password
      ensures ok ==> currentUser.Some? &&
                     (exists i :: 0 <= i < |db.users| && db.users[i].username == username
                                  && db.users[i].password == password && currentUser.value == ToUser(db.users[i]))
      ensures !ok ==> currentUser == old(currentUser)
    {
      var user := db.AuthenticateUser(username, password);
      ok := user.Some?;
      if ok {
        currentUser := user;
      }
    }

    /** Logs out. */
    method Logout()
      modifies this`currentUser
      ensures currentUser.None?
    {
      currentUser := None;
    }

    /** The balances screen of the logged-in user. */
    method ViewBalances() returns (screen: BalanceScreen)
      requires currentUser.Some?
      ensures screen.NoOutstanding? <==> BalancesOf(db.users, db.expenses, db.splits, currentUser.value.id) == map[]
      ensures screen.Listed? ==>
                var balances := BalancesOf(db.users, db.expenses, db.splits, currentUser.value.id);
                && (forall j :: 0 <= j < |screen.lines| ==>
                      screen.lines[j].username in balances
                      && LineFor(screen.lines[j].username, balances[screen.lines[j].username]) == Some(screen.lines[j]))
                && (forall n :: n in balances && balances[n] != 0.0 ==>
                      exists j :: 0 <= j < |screen.lines| && screen.lines[j].username == n)
                && (forall i, j :: 0 <= i < j < |screen.lines| ==> screen.lines[i].username != screen.lines[j].username)
    {
      var balances := db.GetUserBalances(currentUser.value.id);
      if balances == map[] {
        return NoOutstanding;
      }
      var lines := ListBalances(balances);
      screen := Listed(lines);
    }

    /** Registers a user; the screen only reports the outcome. */
    method Register(username: string, password: string, email: string, fails: bool) returns (ok: bool)
      requires db.Valid()
      modifies db`users, db`nextUserId
      ensures db.Valid()
      ensures ok <==> !fails && forall i :: 0 <= i < |old(db.users)| ==>
                        old(db.users)[i].username != username && old(db.users)[i].email != email
      ensures ok ==> db.users == old(db.users) + [UserRow(old(db.nextUserId), username, password, email)]
      ensures !ok ==> db.users == old(db.users)
    {
      ok := db.RegisterUser(username, password, email, fails);
    }

    /** Fills in the ids of the other participants, looking each typed name
        up; slot 0 keeps the creator. */
    method ResolveParticipants(userIds: array<int>, others: seq<string>)
      requires db.Valid() && userIds.Length == |others| + 1 && AllResolve(db.users, others)
      modifies userIds
      ensures userIds[..] == ParticipantIds(db.users, old(userIds[0]), others)
    {
      ghost var ids := ParticipantIds(db.users, userIds[0], others);
      for i := 1 to userIds.Length
        invariant userIds[..i] == ids[..i]
      {
        var user := db.GetUserByUsername(others[i - 1]);
        ghost var row := UserByName(db.users, others[i - 1]).value;
        ghost var j :| 0 <= j < |db.users| && db.users[j] == row && HasUsername(others[i - 1])(db.users[j]);
        assert user.value.id == ids[i];
        userIds[i] := user.value.id;
        assert userIds[..i + 1] == ids[..i + 1];
      }
      assert userIds[..] == ids;
    }

    /** The persistence loop: one `addSplit` per participant, skipping the
        creator's share of an equal split, going on after a failure; the
        result says whether every attempted insert succeeded. */
    method PersistSplits(expenseId: int, userIds: array<int>, shares: array<real>, skipCreator: bool, fails: seq<bool>)
      returns (allAdded: bool)
      requires db.Valid() && userIds.Length == shares.Length == |fails|
      modifies db`splits, db`nextSplitId
      ensures db.Valid()
      ensures db.splits == old(db.splits)
                + SplitRows(old(db.nextSplitId), expenseId, Written(userIds[..], shares[..], fails, skipCreator, |fails|))
      ensures db.nextSplitId == old(db.nextSplitId) + |Written(userIds[..], shares[..], fails, skipCreator, |fails|)|
      ensures allAdded <==> NoneFailed(fails, skipCreator, |fails|)
    {
      ghost var ids, amounts := userIds[..], shares[..];
      ghost var base, next := db.splits, db.nextSplitId;
      allAdded := true;
      for i := 0 to userIds.Length
        invariant db.Valid()
        invariant db.splits == base + SplitRows(next, expenseId, Written(ids, amounts, fails, skipCreator, i))
        invariant db.nextSplitId == next + |Written(ids, amounts, fails, skipCreator, i)|
        invariant allAdded <==> NoneFailed(fails, skipCreator, i)
      {
        ghost var before := Written(ids, amounts, fails, skipCreator, i);
        assert NoneFailed(fails, skipCreator, i + 1) <==> NoneFailed(fails, skipCreator, i) && (Attempted(i, skipCreator) ==> !fails[i]);
        if Attempted(i, skipCreator) {
          var success := db.AddSplit(expenseId, userIds[i], shares[i], fails[i]);
          if !success {
            allAdded := false;
            assert Written(ids, amounts, fails, skipCreator, i + 1) == before;
          } else {
            assert Written(ids, amounts, fails, skipCreator, i + 1) == before + [Share(ids[i], amounts[i])];
            SplitRowsAppend(base, next, expenseId, before, Share(ids[i], amounts[i]));
          }
        } else {
          assert Written(ids, amounts, fails, skipCreator, i + 1) == before;
        }
      }
    }

    /** Writes an expense and then its splits: no split is written when the
        expense insert fails; otherwise the persistence loop runs. */
    method Record(description: string, amount: real, creatorId: int, userIds: array<int>, shares: array<real>,
                  skipCreator: bool, now: string, expenseFails: bool, splitFails: seq<bool>)
      returns (outcome: AddOutcome)
      requires db.Valid() && userIds.Length == shares.Length == |splitFails|
      modifies db`expenses, db`nextExpenseId, db`splits, db`nextSplitId
      ensures db.Valid()
      ensures outcome.ExpenseNotCreated? || outcome.Recorded?
      ensures outcome.ExpenseNotCreated? <==> expenseFails
      ensures outcome.ExpenseNotCreated? ==>
                db.expenses == old(db.expenses) && db.nextExpenseId == old(db.nextExpenseId)
                && db.splits == old(db.splits) && db.nextSplitId == old(db.nextSplitId)
      ensures outcome.Recorded? ==>
                && outcome.expenseId == old(db.nextExpenseId)
                && db.expenses == old(db.expenses) + [ExpenseRow(outcome.expenseId, description, amount, creatorId, now)]
                && db.splits == old(db.splits)
                     + SplitRows(old(db.nextSplitId), outcome.expenseId, Written(userIds[..], shares[..], splitFails, skipCreator, |splitFails|))
                && (outcome.allSplitsAdded <==> NoneFailed(splitFails, skipCreator, |splitFails|))
    {
      var expenseId := db.AddExpense(description, amount, creatorId, now, expenseFails);
      if expenseId == -1 {
        return ExpenseNotCreated;
      }
      var allAdded := PersistSplits(expenseId, userIds, shares, skipCreator, splitFails);
      outcome := Recorded(expenseId, allAdded);
    }

    /** The "Add Expense" screen. Fewer than two participants, an unknown
        split type, or a mismatched custom split that the user cancels or
        re-enters write nothing. Otherwise the expense row is inserted, and
        unless that fails, the split rows follow one insert at a time, not
        rolled back when one of them fails. */
    method AddExpense(description: string, amount: real, splitType: int, numUsers: int, others: seq<string>,
                      entered: seq<real>, mismatchChoice: int, now: string, expenseFails: bool, splitFails: seq<bool>)
      returns (outcome: AddOutcome)
      requires db.Valid() && currentUser.Some?
      requires numUsers >= MinParticipants && (splitType == EqualSplit || splitType == CustomSplit) ==>
                 |others| == numUsers - 1 && |splitFails| == numUsers && AllResolve(db.users, others)
      requires numUsers >= MinParticipants && splitType == CustomSplit ==>
                 |entered| == numUsers && (Mismatch(entered, amount) && mismatchChoice == 1 ==> Sum(entered) != 0.0)
      modifies db`expenses, db`nextExpenseId, db`splits, db`nextSplitId
      ensures db.Valid()
      ensures outcome.TooFewUsers? <==> numUsers < MinParticipants
      ensures outcome.InvalidSplitType? <==> numUsers >= MinParticipants && splitType != EqualSplit && splitType != CustomSplit
      ensures outcome.Restarted? <==>
                numUsers >= MinParticipants && splitType == CustomSplit && Mismatch(entered, amount) && mismatchChoice == 2
      ensures outcome.Cancelled? <==>
                numUsers >= MinParticipants && splitType == CustomSplit && Mismatch(entered, amount)
                && mismatchChoice != 1 && mismatchChoice != 2
      ensures outcome.ExpenseNotCreated? <==> Proceeds(splitType, numUsers, entered, amount, mismatchChoice) && expenseFails
      ensures !outcome.Recorded? ==>
                db.expenses == old(db.expenses) && db.nextExpenseId == old(db.nextExpenseId)
                && db.splits == old(db.splits) && db.nextSplitId == old(db.nextSplitId)
      ensures outcome.Recorded? ==>
                && Proceeds(splitType, numUsers, entered, amount, mismatchChoice) && !expenseFails
                && outcome.expenseId == old(db.nextExpenseId)
                && db.expenses == old(db.expenses) + [ExpenseRow(outcome.expenseId, description, amount, currentUser.value.id, now)]
                && db.splits == old(db.splits)
                     + SplitRows(old(db.nextSplitId), outcome.expenseId,
                                 Written(ParticipantIds(db.users, currentUser.value.id, others),
                                         RecordedShares(splitType, amount, numUsers, entered),
                                         splitFails, splitType == EqualSplit, |splitFails|))
                && (outcome.allSplitsAdded <==> NoneFailed(splitFails, splitType == EqualSplit, |splitFails|))
    {
      if numUsers < MinParticipants {
        return TooFewUsers;
      }
      var shares := new real[numUsers];
      var userIds := new int[numUsers];
      userIds[0] := currentUser.value.id;
      var stopped := EnterSplit(userIds, shares, amount, splitType, others, entered, mismatchChoice);
      if stopped.Some? {
        return stopped.value;
      }
      outcome := Record(description, amount, currentUser.value.id, userIds, shares, splitType == EqualSplit, now, expenseFails, splitFails);
    }

    /** The split entry of the "Add Expense" screen: fills in the participant
        ids after the creator's and the shares, equal or as entered, adjusted
        automatically when the user picks option 1 after a mismatch. Ends the
        screen early on an unknown split type or when the user re-enters or
        cancels after a mismatch. */
    method EnterSplit(userIds: array<int>, shares: array<real>, amount: real, splitType: int, others: seq<string>,
                      entered: seq<real>, mismatchChoice: int)
      returns (stopped: Option<AddOutcome>)
      requires db.Valid() && userIds.Length == shares.Length >= MinParticipants
      requires splitType == EqualSplit || splitType == CustomSplit ==>
                 |others| == userIds.Length - 1 && AllResolve(db.users, others)
      requires splitType == CustomSplit ==>
                 |entered| == shares.Length && (Mismatch(entered, amount) && mismatchChoice == 1 ==> Sum(entered) != 0.0)
      modifies userIds, shares
      ensures stopped.None? <==> Proceeds(splitType, shares.Length, entered, amount, mismatchChoice)
      ensures stopped.None? ==>
                && userIds[..] == ParticipantIds(db.users, old(userIds[0]), others)
                && shares[..] == RecordedShares(splitType, amount, shares.Length, entered)
      ensures stopped.Some? ==>
                stopped.value == (if splitType != EqualSplit && splitType != CustomSplit then InvalidSplitType
                                  else if mismatchChoice == 2 then Restarted
                                  else Cancelled)
    {
      if splitType == EqualSplit {
        FillEqualShares(shares, amount);
        ResolveParticipants(userIds, others);
      } else if splitType == CustomSplit {
        ResolveParticipants(userIds, others);
        var total := EnterShares(shares, entered);
        if Abs(total - amount) > Tolerance {
          if mismatchChoice == 1 {
            AutoAdjust(shares, amount, total);
          } else if mismatchChoice == 2 {
            return Some(Restarted);
          } else {
            return Some(Cancelled);
          }
        }
      } else {
        return Some(InvalidSplitType);
      }
      stopped := None;
    }

    /** Settles `amount` with the user named `receiver`, a counterparty in
        the payer's balances: looks the receiver up by name and runs the
        settlement transaction. */
    method SettleWith(payerId: int, receiver: string, amount: real, now: string, insertFails: bool, updateFails: bool)
      returns (outcome: SettleOutcome)
      requires db.Valid() && receiver in BalancesOf(db.users, db.expenses, db.splits, payerId)
      modifies db`settlements, db`nextSettlementId, db`splits
      ensures db.Valid()
      ensures outcome.Settled? && outcome.receiver == receiver && outcome.amount == amount
      ensures NameOf(db.users, outcome.receiverId) == Some(receiver) && outcome.receiverId != payerId
      ensures outcome.ok == (!insertFails && !updateFails)
      ensures outcome.ok ==>
                && db.settlements == old(db.settlements)
                     + [SettlementRow(old(db.nextSettlementId), payerId, outcome.receiverId, amount, now)]
                && db.splits == MarkPaid(db.expenses, old(db.splits), payerId, outcome.receiverId)
                && var after := BalancesOf(db.users, db.expenses, db.splits, payerId);
                   && (receiver in after <==> PairHas(db.expenses, payerId, outcome.receiverId, old(db.splits)))
                   && (receiver in after ==> after[receiver] == PairSum(db.expenses, payerId, outcome.receiverId, old(db.splits)))
      ensures !outcome.ok ==>
                db.settlements == old(db.settlements) && db.nextSettlementId == old(db.nextSettlementId)
                && db.splits == old(db.splits)
    {
      CounterpartyResolves(db.users, db.nextUserId, db.expenses, db.splits, payerId, receiver);
      var user := db.GetUserByUsername(receiver);
      ghost var row := UserByName(db.users, receiver).value;
      ghost var j :| 0 <= j < |db.users| && db.users[j] == row && HasUsername(receiver)(db.users[j]);
      var receiverId := user.value.id;
      ghost var before := db.splits;
      var ok := db.SettleDebt(payerId, receiverId, amount, now, insertFails, updateFails);
      if ok {
        SettledBalance(db.users, db.expenses, before, payerId, receiverId, receiver);
      }
      outcome := Settled(receiver, receiverId, amount, ok);
    }

    /** The "Settle Debts" screen: the debts are the negative balances; a
        valid choice picks one, and a confirmation settles its absolute
        amount with that user. Every other ending writes nothing. After a
        successful settlement the user no longer owes the receiver: the
        receiver stays in the user's balances only if it still owes the user,
        and then with exactly that amount. The choice is checked with the
        corrected guard; on every non-negative choice it cancels exactly when
        the guard as written does. */
    method SettleDebts(choice: int, answer: string, now: string, insertFails: bool, updateFails: bool)
      returns (outcome: SettleOutcome)
      requires db.Valid() && currentUser.Some?
      modifies db`settlements, db`nextSettlementId, db`splits
      ensures db.Valid()
      ensures var balances := BalancesOf(db.users, db.expenses, old(db.splits), currentUser.value.id);
              && (outcome.NoBalances? <==> balances == map[])
              && (outcome.NoDebts? <==> balances != map[] && Debts(balances) == {})
              && (outcome.SelectionCancelled? <==> Debts(balances) != {} && Selection(choice, |Debts(balances)|).None?)
              && (choice >= 0 ==>
                    (outcome.SelectionCancelled? <==> Debts(balances) != {} && SelectionAsWritten(choice, |Debts(balances)|).None?))
              && (outcome.Declined? <==>
                    Debts(balances) != {} && Selection(choice, |Debts(balances)|).Some? && !Confirms(answer))
              && ((outcome.Declined? || outcome.Settled?) ==>
                    outcome.receiver in Debts(balances) && outcome.amount == -balances[outcome.receiver])
      ensures outcome.Settled? ==>
                && NameOf(db.users, outcome.receiverId) == Some(outcome.receiver)
                && outcome.receiverId != currentUser.value.id
                && outcome.ok == (!insertFails && !updateFails)
      ensures outcome.Settled? && outcome.ok ==>
                && db.settlements == old(db.settlements)
                     + [SettlementRow(old(db.nextSettlementId), currentUser.value.id, outcome.receiverId, outcome.amount, now)]
                && db.splits == MarkPaid(db.expenses, old(db.splits), currentUser.value.id, outcome.receiverId)
                && var after := BalancesOf(db.users, db.expenses, db.splits, currentUser.value.id);
                   && (outcome.receiver in after <==> PairHas(db.expenses, currentUser.value.id, outcome.receiverId, old(db.splits)))
                   && (outcome.receiver in after ==>
                         after[outcome.receiver] == PairSum(db.expenses, currentUser.value.id, outcome.receiverId, old(db.splits)))
      ensures !(outcome.Settled? && outcome.ok) ==>
                db.settlements == old(db.settlements) && db.nextSettlementId == old(db.nextSettlementId)
                && db.splits == old(db.splits)
    {
      var me := currentUser.value;
      var balances := db.GetUserBalances(me.id);
      if balances == map[] {
        return NoBalances;
      }
      var usernames, amounts, count := CollectDebts(balances);
      if count == 0 {
        return NoDebts;
      }
      match Selection(choice, count) {
        case None =>
          return SelectionCancelled;
        case Some(index) =>
          var selectedUsername := usernames[index];
          var selectedAmount := amounts[index];
          if !Confirms(answer) {
            return Declined(selectedUsername, selectedAmount);
          }
          outcome := SettleWith(me.id, selectedUsername, selectedAmount, now, insertFails, updateFails);
      }
    }
  }
}
