/** The split-entry rules of the console's "Add Expense" screen: equal
    shares, custom shares checked against the amount with a one-cent
    tolerance, the proportional auto-adjustment, and which split rows the
    persistence loop writes. The shares live in an array, as in the source. */
module SplitRules {
  import opened Common
  import opened Tables

  /** The largest difference between the entered total and the amount that
      is accepted as floating-point noise. */
  const Tolerance: real := 0.01

  /** An expense needs the creator and at least one other participant. */
  const MinParticipants: int := 2

  /** `Math.round(x * 100) / 100.0` on exact reals: to the nearest cent, a
      half cent rounding up. */
  function RoundCents(x: real): (r: real)
    ensures x - 0.005 < r <= x + 0.005
    ensures (r * 100.0).Floor as real == r * 100.0
  {
    var cents := (x * 100.0 + 0.5).Floor;
    assert cents as real <= x * 100.0 + 0.5 < cents as real + 1.0;
    cents as real / 100.0
  }

  /** The equal split: `n` shares of `amount / n`, which add up to `amount`. */
  function EqualShares(amount: real, n: nat): (r: seq<real>)
    requires n >= 1
    ensures |r| == n
    ensures forall i :: 0 <= i < n ==> r[i] == amount / n as real
    ensures Sum(r) == amount
  {
    var share := amount / n as real;
    SumConstant(share, n);
    assert n as real * share == amount;
    seq(n, _ => share)
  }

  /** One share scaled by `factor` and rounded to cents. */
  function ScaledShare(share: real, factor: real): real
  {
    RoundCents(share * factor)
  }

  /** Every share scaled by `factor` and rounded to cents: each result is a
      whole number of cents within half a cent of the exact proportional
      share. */
  function Rescaled(shares: seq<real>, factor: real): (r: seq<real>)
    ensures |r| == |shares|
    ensures forall i :: 0 <= i < |r| ==>
              && shares[i] * factor - 0.005 < r[i] <= shares[i] * factor + 0.005
              && (r[i] * 100.0).Floor as real == r[i] * 100.0
  {
    seq(|shares|, i requires 0 <= i < |shares| => ScaledShare(shares[i], factor))
  }

  /** The rounding fix: when the shares miss `amount` by more than the
      tolerance, the whole difference goes to share 0 (the creator's);
      otherwise nothing changes. Either way the total ends up within the
      tolerance, and only share 0 can move. */
  function Adjusted(shares: seq<real>, amount: real): (r: seq<real>)
    requires |shares| >= 1
    ensures |r| == |shares|
    ensures forall i :: 1 <= i < |r| ==> r[i] == shares[i]
    ensures Abs(Sum(shares) - amount) <= Tolerance ==> r == shares
    ensures Abs(Sum(shares) - amount) > Tolerance ==> Sum(r) == amount
    ensures Abs(Sum(r) - amount) <= Tolerance
  {
    var total := Sum(shares);
    if Abs(total - amount) > Tolerance then
      SumUpdate(shares, 0, shares[0] + (amount - total));
      shares[0 := shares[0] + (amount - total)]
    else shares
  }

  /** The shares a custom split is recorded with: the entered shares when
      they total `amount` within the tolerance, otherwise (when the user
      picks the automatic adjustment) the shares scaled by
      `amount / total`, rounded to cents and fixed up on share 0. */
  function CustomShares(entered: seq<real>, amount: real): (r: seq<real>)
    requires |entered| >= 1
    requires Abs(Sum(entered) - amount) > Tolerance ==> Sum(entered) != 0.0
    ensures |r| == |entered|
    ensures Abs(Sum(entered) - amount) <= Tolerance ==> r == entered
    ensures Abs(Sum(r) - amount) <= Tolerance
  {
    if Abs(Sum(entered) - amount) <= Tolerance then entered
    else Adjusted(Rescaled(entered, amount / Sum(entered)), amount)
  }

  /** Whether the persistence loop tries to insert participant `k`: an equal
      split skips the creator's own share at index 0. */
  predicate Attempted(k: int, skipCreator: bool)
  {
    !(skipCreator && k == 0)
  }

  /** No attempted insert among the first `n` failed. */
  predicate NoneFailed(fails: seq<bool>, skipCreator: bool, n: nat)
    requires n <= |fails|
  {
    n == 0 || (NoneFailed(fails, skipCreator, n - 1) && (Attempted(n - 1, skipCreator) ==> !fails[n - 1]))
  }

  /** Equivalently: no attempted insert among the first `n` failed, one by one. */
  lemma {:induction false} NoneFailedAt(fails: seq<bool>, skipCreator: bool, n: nat)
    requires n <= |fails|
    ensures NoneFailed(fails, skipCreator, n) <==> forall k :: 0 <= k < n && Attempted(k, skipCreator) ==> !fails[k]
  {
    if n > 0 {
      NoneFailedAt(fails, skipCreator, n - 1);
    }
  }

  /** One share the persistence loop tries to write: a participant and the
      amount they owe. */
  datatype Share = Share(userId: int, amount: real)

  /** The shares among the first `n` participants whose `addSplit`
      succeeds, in participant order: every attempted participant whose
      insert does not fail. A failure does not stop the later inserts. */
  function Written(userIds: seq<int>, shares: seq<real>, fails: seq<bool>, skipCreator: bool, n: nat): (r: seq<Share>)
    requires n <= |userIds| == |shares| == |fails|
    ensures |r| <= n
  {
    if n == 0 then []
    else
      Written(userIds, shares, fails, skipCreator, n - 1)
        + (if Attempted(n - 1, skipCreator) && !fails[n - 1] then [Share(userIds[n - 1], shares[n - 1])] else [])
  }

  /** Exactly the attempted shares whose insert succeeds are written,
      whichever others fail. */
  lemma {:induction false} WrittenMembers(userIds: seq<int>, shares: seq<real>, fails: seq<bool>, skipCreator: bool, n: nat)
    requires n <= |userIds| == |shares| == |fails|
    ensures forall k :: 0 <= k < n && Attempted(k, skipCreator) && !fails[k] ==>
              Share(userIds[k], shares[k]) in Written(userIds, shares, fails, skipCreator, n)
    ensures forall x :: x in Written(userIds, shares, fails, skipCreator, n) ==>
              (exists k :: 0 <= k < n && Attempted(k, skipCreator) && !fails[k]
                           && x == Share(userIds[k], shares[k]))
  {
    if n > 0 {
      WrittenMembers(userIds, shares, fails, skipCreator, n - 1);
    }
  }

  /** The unpaid split rows of `expenseId` that writing `written` appends
      to a splits table whose next AUTOINCREMENT id is `next`. */
  function SplitRows(next: int, expenseId: int, written: seq<Share>): (r: seq<SplitRow>)
    ensures |r| == |written|
  {
    seq(|written|, j requires 0 <= j < |written| =>
      SplitRow(next + j, expenseId, written[j].userId, written[j].amount, false))
  }

  /** Writing one more share appends one more row, after whatever rows
      the table already held. */
  lemma SplitRowsAppend(table: seq<SplitRow>, next: int, expenseId: int, written: seq<Share>, x: Share)
    ensures table + SplitRows(next, expenseId, written + [x])
              == table + SplitRows(next, expenseId, written) + [SplitRow(next + |written|, expenseId, x.userId, x.amount, false)]
  {
    assert SplitRows(next, expenseId, written + [x])
             == SplitRows(next, expenseId, written) + [SplitRow(next + |written|, expenseId, x.userId, x.amount, false)];
  }

  /** Writing the split rows of one expense, ids drawn from the counter,
      keeps the splits table's ids positive, increasing and below the
      advanced counter. */
  lemma {:induction false} SplitRowsKeepKeys(table: seq<SplitRow>, next: int, expenseId: int, written: seq<Share>)
    requires KeysIncreasing(table, SplitKey, next) && next >= 1
    ensures KeysIncreasing(table + SplitRows(next, expenseId, written), SplitKey, next + |written|)
  {
    if written != [] {
      var pre, x := written[..|written| - 1], written[|written| - 1];
      assert pre + [x] == written;
      SplitRowsKeepKeys(table, next, expenseId, pre);
      SplitRowsAppend(table, next, expenseId, pre, x);
      KeysIncreasingAppend(table + SplitRows(next, expenseId, pre), SplitKey, next + |pre|,
                           SplitRow(next + |pre|, expenseId, x.userId, x.amount, false));
    }
  }

  /** 1 when the creator's share is skipped, else 0. */
  function Skipped(skipCreator: bool): nat
  {
    if skipCreator then 1 else 0
  }

  /** When no insert fails, every attempted participant's share among the
      first `n` is written, at its own position after the skipped creator. */
  lemma {:induction false} WrittenAll(userIds: seq<int>, shares: seq<real>, fails: seq<bool>, skipCreator: bool, n: nat)
    requires 1 <= n <= |userIds| == |shares| == |fails|
    requires NoneFailed(fails, skipCreator, n)
    ensures |Written(userIds, shares, fails, skipCreator, n)| == n - Skipped(skipCreator)
    ensures forall k :: Skipped(skipCreator) <= k < n ==>
              Written(userIds, shares, fails, skipCreator, n)[k - Skipped(skipCreator)] == Share(userIds[k], shares[k])
  {
    if n > 1 {
      WrittenAll(userIds, shares, fails, skipCreator, n - 1);
    }
  }

  /** The amounts of some shares. */
  function Amounts(written: seq<Share>): (r: seq<real>)
    ensures |r| == |written|
    ensures forall i :: 0 <= i < |written| ==> r[i] == written[i].amount
  {
    seq(|written|, i requires 0 <= i < |written| => written[i].amount)
  }

  /** When no insert fails, the shares written for the first `n`
      participants add up to their shares except a skipped creator's. */
  lemma {:induction false} WrittenTotal(userIds: seq<int>, shares: seq<real>, fails: seq<bool>, skipCreator: bool, n: nat)
    requires 1 <= n <= |userIds| == |shares| == |fails|
    requires NoneFailed(fails, skipCreator, n)
    ensures Sum(Amounts(Written(userIds, shares, fails, skipCreator, n)))
              == Sum(shares[..n]) - (if skipCreator then shares[0] else 0.0)
    ensures n == |shares| ==>
              Sum(Amounts(Written(userIds, shares, fails, skipCreator, n)))
                == Sum(shares) - (if skipCreator then shares[0] else 0.0)
  {
    assert shares[..|shares|] == shares;
    var w := Written(userIds, shares, fails, skipCreator, n);
    if n == 1 {
      assert shares[..0] == [];
      if !skipCreator {
        assert Amounts(w) == [shares[0]];
      } else {
        assert Amounts(w) == [];
      }
    } else {
      var earlier := Written(userIds, shares, fails, skipCreator, n - 1);
      WrittenTotal(userIds, shares, fails, skipCreator, n - 1);
      assert w == earlier + [Share(userIds[n - 1], shares[n - 1])];
      assert Amounts(w)[..|Amounts(w)| - 1] == Amounts(earlier);
      assert shares[..n][..n - 1] == shares[..n - 1];
    }
  }

  /** With an equal split and no failed insert, the shares written add up
      to what the other participants owe: the amount minus the creator's own
      share. */
  lemma EqualSplitPersistsOthersShares(userIds: seq<int>, amount: real, fails: seq<bool>)
    requires |userIds| == |fails| >= MinParticipants
    requires NoneFailed(fails, true, |fails|)
    ensures Sum(Amounts(Written(userIds, EqualShares(amount, |userIds|), fails, true, |userIds|)))
              == amount - amount / |userIds| as real
  {
    var shares := EqualShares(amount, |userIds|);
    WrittenTotal(userIds, shares, fails, true, |fails|);
  }

  /** Fills the array with the equal split of `amount`. */
  method FillEqualShares(shares: array<real>, amount: real)
    requires shares.Length >= 1
    modifies shares
    ensures shares[..] == EqualShares(amount, shares.Length)
  {
    var share := amount / shares.Length as real;
    for i := 0 to shares.Length
      invariant forall k :: 0 <= k < i ==> shares[k] == share
    {
      shares[i] := share;
    }
  }

  /** Stores the custom shares as they are entered and accumulates their
      total. */
  method EnterShares(shares: array<real>, entered: seq<real>) returns (total: real)
    requires shares.Length == |entered|
    modifies shares
    ensures shares[..] == entered
    ensures total == Sum(entered)
  {
    total := 0.0;
    for i := 0 to shares.Length
      invariant shares[..i] == entered[..i]
      invariant total == Sum(entered[..i])
    {
      shares[i] := entered[i];
      total := total + shares[i];
      assert entered[..i + 1][..i] == entered[..i];
      assert shares[..i + 1] == entered[..i + 1];
    }
    assert entered[..shares.Length] == entered;
  }

  /** The total of the shares in the array. */
  method Total(shares: array<real>) returns (total: real)
    ensures total == Sum(shares[..])
  {
    total := 0.0;
    for i := 0 to shares.Length
      invariant total == Sum(shares[..i])
    {
      assert shares[..i + 1][..i] == shares[..i];
      total := total + shares[i];
    }
    assert shares[..shares.Length] == shares[..];
  }

  /** Scales every share by `factor` and rounds it to cents, in place. */
  method Rescale(shares: array<real>, factor: real)
    modifies shares
    ensures shares[..] == Rescaled(old(shares[..]), factor)
  {
    ghost var original := shares[..];
    for i := 0 to shares.Length
      invariant forall k :: 0 <= k < i ==> shares[k] == ScaledShare(original[k], factor)
      invariant forall k :: i <= k < shares.Length ==> shares[k] == original[k]
    {
      shares[i] := ScaledShare(shares[i], factor);
    }
    assert shares[..] == Rescaled(original, factor);
  }

  /** The automatic adjustment of a custom split whose entered shares total
      `total`: rescale to `amount`, then move any leftover beyond the
      tolerance onto share 0. */
  method AutoAdjust(shares: array<real>, amount: real, total: real)
    requires shares.Length >= 1 && total != 0.0
    modifies shares
    ensures shares[..] == Adjusted(Rescaled(old(shares[..]), amount / total), amount)
    ensures Abs(Sum(shares[..]) - amount) <= Tolerance
  {
    Rescale(shares, amount / total);
    var adjustedTotal := Total(shares);
    if Abs(adjustedTotal - amount) > Tolerance {
      var diff := amount - adjustedTotal;
      shares[0] := shares[0] + diff;
    }
  }
}
