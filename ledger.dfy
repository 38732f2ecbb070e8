/**
 * What one operation does to one month snapshot: the rollover that builds a
 * month from its predecessor, the three mutators (expense, transfer between own
 * accounts, transfer from an external account) and the balance deltas the
 * forward propagation applies to every later month.
 *
 * A mutator or delta that names an account or category the snapshot lacks
 * yields `None`: the source then throws before it puts the snapshot back, so
 * nothing of that step is written.
 */
module Ledger {
  import opened Wrappers
  import opened MonthKeys
  import opened Models

  /** The snapshot with the account at position `i` replaced. */
  function UpdateAt(mo: MonthOverView, i: nat, a: Account): MonthOverView
    requires i < |mo.accounts|
  {
    mo.(accounts := mo.accounts[i := a])
  }

  /* ---------- rollover ---------- */

  /** What the loop of `createNewMonthOverview` does to each account. */
  function CarryForward(a: Account): Account {
    a.(initialBalance := a.finalBalance)
  }

  function ClearTransactions(a: Account): Account {
    a.(transactions := [])
  }

  /** `clearTransactionsFromAccounts`. */
  function ClearTransactionsFromAccounts(mo: MonthOverView): MonthOverView {
    mo.(accounts := seq(|mo.accounts|, i requires 0 <= i < |mo.accounts| => ClearTransactions(mo.accounts[i])))
  }

  /** `clearExpensesFromCategories`. */
  function ClearExpensesFromCategories(mo: MonthOverView): MonthOverView {
    mo.(categories := seq(|mo.categories|, i requires 0 <= i < |mo.categories| =>
      mo.categories[i].(expenses := [])))
  }

  /** `clearCurrentAmountSpentInBudget`. */
  function ClearCurrentAmountSpentInBudget(mo: MonthOverView): MonthOverView {
    mo.(categories := seq(|mo.categories|, i requires 0 <= i < |mo.categories| =>
      mo.categories[i].(budget := mo.categories[i].budget.(amountSpentInBudget := 0))))
  }

  /** The accounts after the balance carry-over of `createNewMonthOverview`. */
  function CarriedForward(accs: seq<Account>): (r: seq<Account>)
    ensures |r| == |accs|
  {
    seq(|accs|, i requires 0 <= i < |accs| => CarryForward(accs[i]))
  }

  /**
   * The snapshot `createNewMonthOverview` builds for month `m` from the stored
   * snapshot `prev` of the month before.
   */
  function Rollover(prev: MonthOverView, m: MonthKey): (r: MonthOverView)
    ensures r.id == m && r.usedTags == prev.usedTags
    ensures SameNames(prev.accounts, r.accounts)
    ensures forall i :: 0 <= i < |r.accounts| ==>
      && r.accounts[i].initialBalance == prev.accounts[i].finalBalance
      && r.accounts[i].finalBalance == prev.accounts[i].finalBalance
      && r.accounts[i].owner == prev.accounts[i].owner
      && r.accounts[i].transactions == []
    ensures |r.categories| == |prev.categories|
    ensures forall i :: 0 <= i < |r.categories| ==>
      && r.categories[i].categoryName == prev.categories[i].categoryName
      && r.categories[i].categoryColor == prev.categories[i].categoryColor
      && r.categories[i].iconName == prev.categories[i].iconName
      && r.categories[i].budget.limit == prev.categories[i].budget.limit
      && r.categories[i].budget.amountSpentInBudget == 0
      && r.categories[i].expenses == []
  {
    var carried := MonthOverView(m, CarriedForward(prev.accounts), prev.categories, prev.usedTags);
    ClearCurrentAmountSpentInBudget(ClearTransactionsFromAccounts(ClearExpensesFromCategories(carried)))
  }

  /**
   * Rollover chains the months: every account of the previous month is in the
   * new one (and no other), opening with the balance the previous month closed
   * with, and the closing balance is carried unchanged.
   */
  lemma RolloverChains(prev: MonthOverView, m: MonthKey, name: string)
    ensures HasAccount(Rollover(prev, m), name) <==> HasAccount(prev, name)
    ensures HasAccount(prev, name) ==>
      && InitialOf(Rollover(prev, m), name) == FinalOf(prev, name)
      && FinalOf(Rollover(prev, m), name) == FinalOf(prev, name)
  {
    assert AccountNames(Rollover(prev, m).accounts) == AccountNames(prev.accounts);
    FindAccountSameNames(prev.accounts, Rollover(prev, m).accounts, name);
  }

  /* ---------- the three mutators of one month ---------- */

  /**
   * `transferBetweenOwnAccounts` on the fetched snapshot: A's final balance goes
   * down by `amount`, B's up, and each gets one transaction from A to B.
   */
  function Transfer(mo: MonthOverView, nameA: string, nameB: string, amount: int,
                    date: Option<string>, idA: string, idB: string): (r: Option<MonthOverView>)
    ensures r.Some? <==> HasAccount(mo, nameA) && HasAccount(mo, nameB)
    ensures r.Some? ==> r.value.id == mo.id && r.value.categories == mo.categories && r.value.usedTags == mo.usedTags
  {
    match (FindAccount(mo.accounts, nameA), FindAccount(mo.accounts, nameB))
    case (Some(i), Some(j)) =>
      var m1 := UpdateAt(mo, i, UpdateFinalBalance(mo.accounts[i], Decrease, amount));
      var m2 := UpdateAt(m1, j, UpdateFinalBalance(m1.accounts[j], Increase, amount));
      var m3 := UpdateAt(m2, i, AddTransaction(m2.accounts[i], Transaction(amount, nameA, nameB, Decrease, date, idA)));
      var m4 := UpdateAt(m3, j, AddTransaction(m3.accounts[j], Transaction(amount, nameA, nameB, Increase, date, idB)));
      Some(m4)
    case _ => None
  }

  /**
   * `transferFromExternalAccount` on the fetched snapshot: only the receiving
   * account changes, and only its final balance and its transactions.
   */
  function TransferFromExternal(mo: MonthOverView, holderName: string, receiverName: string, amount: int,
                                date: Option<string>, id: string): (r: Option<MonthOverView>)
    ensures r.Some? <==> HasAccount(mo, receiverName)
    ensures r.Some? ==> r.value.id == mo.id && r.value.categories == mo.categories && r.value.usedTags == mo.usedTags
  {
    match FindAccount(mo.accounts, receiverName)
    case Some(j) =>
      var m1 := UpdateAt(mo, j, UpdateFinalBalance(mo.accounts[j], Increase, amount));
      Some(UpdateAt(m1, j, AddTransaction(m1.accounts[j], Transaction(amount, holderName, receiverName, Increase, date, id))))
    case None => None
  }

  /**
   * `addExpenseToCategoryToMonthOverview` on the fetched snapshot: the paying
   * account's final balance goes down by the cost, the category gains the
   * expense and its budget's spent amount grows by the cost, the expense's tags
   * join the used tags.
   */
  function AddExpense(mo: MonthOverView, categoryName: string, e: Expense): (r: Option<MonthOverView>)
    ensures r.Some? <==> HasAccount(mo, e.usedAccountName) && ContainsCategory(mo, categoryName)
    ensures r.Some? ==> r.value.id == mo.id && r.value.usedTags == mo.usedTags + TagSet(e.tags)
  {
    match FindAccount(mo.accounts, e.usedAccountName)
    case None => None
    case Some(i) =>
      var m1 := UpdateAt(mo, i, UpdateFinalBalance(mo.accounts[i], Decrease, e.cost));
      match FindCategory(m1.categories, categoryName)
      case None => None
      case Some(c) =>
        var cat := m1.categories[c];
        var spent := cat.budget.amountSpentInBudget + e.cost;
        var cat' := cat.(expenses := cat.expenses + [e], budget := cat.budget.(amountSpentInBudget := spent));
        Some(AddTagsToUsedTags(m1.(categories := m1.categories[c := cat']), e.tags))
  }

  /* ---------- deltas replayed on later months ---------- */

  /** The balance change one operation causes, replayed unchanged across later months. */
  datatype Delta =
    | TransferDelta(from: string, to: string, amount: int)
    | ExternalDelta(receiver: string, amount: int)
    | ExpenseDelta(expense: Expense, oldAccountName: Option<string>)

  /** `if (oldAccountName)`: an absent or empty name is falsy. */
  predicate HasOldAccount(d: Delta) {
    d.ExpenseDelta? && d.oldAccountName.Some? && d.oldAccountName.value != ""
  }

  /** The signed amount by which a delta is meant to move the balances of account `name`. */
  function Shift(d: Delta, name: string): int {
    match d
    case TransferDelta(a, b, x) => (if name == a then -x else 0) + (if name == b then x else 0)
    case ExternalDelta(b, x) => if name == b then x else 0
    case ExpenseDelta(e, _) =>
      (if name == e.usedAccountName then -e.cost else 0)
      + (if HasOldAccount(d) && name == d.oldAccountName.value then e.cost else 0)
  }

  /**
   * The snapshot `after` has the same accounts as `before`, every final balance
   * moved by the delta's shift and every initial balance as it was: the effect
   * a mutator has on the month it records into.
   */
  ghost predicate FinalShifted(before: MonthOverView, after: MonthOverView, d: Delta) {
    && SameNames(before.accounts, after.accounts)
    && forall n :: HasAccount(before, n) ==>
         && FinalOf(after, n) == FinalOf(before, n) + Shift(d, n)
         && InitialOf(after, n) == InitialOf(before, n)
  }

  /**
   * The snapshot `after` has the same accounts as `before` and both balances of
   * every account moved by the delta's shift: the effect meant for a later month.
   */
  ghost predicate BothShifted(before: MonthOverView, after: MonthOverView, d: Delta) {
    && SameNames(before.accounts, after.accounts)
    && forall n :: HasAccount(before, n) ==>
         && FinalOf(after, n) == FinalOf(before, n) + Shift(d, n)
         && InitialOf(after, n) == InitialOf(before, n) + Shift(d, n)
  }

  /**
   * What one iteration of the `updateBalanceInFollowingMonths*` loops does to the
   * snapshot it fetched, as written. For an expense moved away from an old
   * account, the second initial-balance update goes to the paying account.
   */
  function ApplyDelta(mo: MonthOverView, d: Delta): (r: Option<MonthOverView>)
    ensures r.Some? ==> r.value.id == mo.id && r.value.categories == mo.categories
  {
    match d
    case TransferDelta(a, b, x) =>
      (match (FindAccount(mo.accounts, a), FindAccount(mo.accounts, b))
       case (Some(i), Some(j)) =>
         var m1 := UpdateAt(mo, i, UpdateInitialBalance(mo.accounts[i], Decrease, x));
         var m2 := UpdateAt(m1, i, UpdateFinalBalance(m1.accounts[i], Decrease, x));
         var m3 := UpdateAt(m2, j, UpdateInitialBalance(m2.accounts[j], Increase, x));
         Some(UpdateAt(m3, j, UpdateFinalBalance(m3.accounts[j], Increase, x)))
       case _ => None)
    case ExternalDelta(b, x) =>
      (match FindAccount(mo.accounts, b)
       case Some(j) => Some(UpdateAt(mo, j, UpdateFinalBalance(mo.accounts[j], Increase, x)))
       case None => None)
    case ExpenseDelta(e, oldName) =>
      match FindAccount(mo.accounts, e.usedAccountName)
      case None => None
      case Some(i) =>
        var m1 := UpdateAt(mo, i, UpdateFinalBalance(mo.accounts[i], Decrease, e.cost));
        var m2 := UpdateAt(m1, i, UpdateInitialBalance(m1.accounts[i], Decrease, e.cost));
        var m3 := AddTagsToUsedTags(m2, e.tags);
        if !HasOldAccount(d) then Some(m3)
        else
          match FindAccount(m3.accounts, oldName.value)
          case None => None
          case Some(j) =>
            var m4 := UpdateAt(m3, j, UpdateFinalBalance(m3.accounts[j], Increase, e.cost));
            Some(UpdateAt(m4, i, UpdateInitialBalance(m4.accounts[i], Increase, e.cost)))
  }

  /**
   * The delta with the old-account branch corrected: the old account gets the
   * cost back in both its balances. Every other delta is applied as written.
   */
  function ApplyDeltaFixed(mo: MonthOverView, d: Delta): (r: Option<MonthOverView>)
    ensures r.Some? ==> r.value.id == mo.id && r.value.categories == mo.categories
  {
    if !HasOldAccount(d) then ApplyDelta(mo, d)
    else
      var e := d.expense;
      match (FindAccount(mo.accounts, e.usedAccountName), FindAccount(mo.accounts, d.oldAccountName.value))
      case (Some(i), Some(j)) =>
        var m1 := UpdateAt(mo, i, UpdateFinalBalance(mo.accounts[i], Decrease, e.cost));
        var m2 := UpdateAt(m1, i, UpdateInitialBalance(m1.accounts[i], Decrease, e.cost));
        var m3 := AddTagsToUsedTags(m2, e.tags);
        var m4 := UpdateAt(m3, j, UpdateFinalBalance(m3.accounts[j], Increase, e.cost));
        Some(UpdateAt(m4, j, UpdateInitialBalance(m4.accounts[j], Increase, e.cost)))
      case _ => None
  }
}
