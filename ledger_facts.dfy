/**
 * What the single-month operations of the ledger promise: which balances move
 * and by how much, which records are appended, and that nothing else changes.
 */
module LedgerFacts {
  import opened Wrappers
  import opened MonthKeys
  import opened Models
  import opened Ledger

  /* ---------- transfer between own accounts ---------- */

  /**
   * A transfer moves `amount` out of A's and into B's final balance and touches
   * no initial balance and no other account's balances.
   */
  lemma TransferShifts(mo: MonthOverView, a: string, b: string, x: int, date: Option<string>, idA: string, idB: string)
    requires HasAccount(mo, a) && HasAccount(mo, b)
    ensures FinalShifted(mo, Transfer(mo, a, b, x, date, idA, idB).value, TransferDelta(a, b, x))
  {
    var i, j := FindAccount(mo.accounts, a).value, FindAccount(mo.accounts, b).value;
    var m1 := UpdateAt(mo, i, UpdateFinalBalance(mo.accounts[i], Decrease, x));
    var m2 := UpdateAt(m1, j, UpdateFinalBalance(m1.accounts[j], Increase, x));
    var m3 := UpdateAt(m2, i, AddTransaction(m2.accounts[i], Transaction(x, a, b, Decrease, date, idA)));
    var m4 := UpdateAt(m3, j, AddTransaction(m3.accounts[j], Transaction(x, a, b, Increase, date, idB)));
    assert Transfer(mo, a, b, x, date, idA, idB) == Some(m4);
    ReplaceAccount(mo, i, m1.accounts[i], b);
    ReplaceAccount(m1, j, m2.accounts[j], a);
    ReplaceAccount(m2, i, m3.accounts[i], b);
    forall n | HasAccount(mo, n)
      ensures HasAccount(m4, n) && FinalOf(m4, n) == FinalOf(mo, n) + Shift(TransferDelta(a, b, x), n)
      ensures InitialOf(m4, n) == InitialOf(mo, n)
    {
      ReplaceAccount(mo, i, m1.accounts[i], n);
      ReplaceAccount(m1, j, m2.accounts[j], n);
      ReplaceAccount(m2, i, m3.accounts[i], n);
      ReplaceAccount(m3, j, m4.accounts[j], n);
    }
    ReplaceAccount(m3, j, m4.accounts[j], a);
  }

  /** A transfer between own accounts conserves the sum of all final and of all initial balances. */
  lemma TransferConservesTotals(mo: MonthOverView, a: string, b: string, x: int, date: Option<string>, idA: string, idB: string)
    requires HasAccount(mo, a) && HasAccount(mo, b)
    ensures TotalFinal(Transfer(mo, a, b, x, date, idA, idB).value) == TotalFinal(mo)
    ensures TotalInitial(Transfer(mo, a, b, x, date, idA, idB).value) == TotalInitial(mo)
  {
    var i, j := FindAccount(mo.accounts, a).value, FindAccount(mo.accounts, b).value;
    var m1 := UpdateAt(mo, i, UpdateFinalBalance(mo.accounts[i], Decrease, x));
    var m2 := UpdateAt(m1, j, UpdateFinalBalance(m1.accounts[j], Increase, x));
    var m3 := UpdateAt(m2, i, AddTransaction(m2.accounts[i], Transaction(x, a, b, Decrease, date, idA)));
    var m4 := UpdateAt(m3, j, AddTransaction(m3.accounts[j], Transaction(x, a, b, Increase, date, idB)));
    assert Transfer(mo, a, b, x, date, idA, idB) == Some(m4);
    TotalsAfterReplace(mo, i, m1.accounts[i]);
    TotalsAfterReplace(m1, j, m2.accounts[j]);
    TotalsAfterReplace(m2, i, m3.accounts[i]);
    TotalsAfterReplace(m3, j, m4.accounts[j]);
  }

  /**
   * Between two distinct accounts, each gains exactly one transaction from A to
   * B for the amount, `decrease` on A and `increase` on B; every account named
   * neither A nor B is unchanged.
   */
  lemma TransferRecords(mo: MonthOverView, a: string, b: string, x: int, date: Option<string>, idA: string, idB: string)
    requires HasAccount(mo, a) && HasAccount(mo, b) && a != b
    ensures var r := Transfer(mo, a, b, x, date, idA, idB).value;
      var i, j := FindAccount(mo.accounts, a).value, FindAccount(mo.accounts, b).value;
      && |r.accounts| == |mo.accounts|
      && r.accounts[i].transactions == mo.accounts[i].transactions + [Transaction(x, a, b, Decrease, date, idA)]
      && r.accounts[j].transactions == mo.accounts[j].transactions + [Transaction(x, a, b, Increase, date, idB)]
      && (forall k :: 0 <= k < |mo.accounts| && mo.accounts[k].accountName != a && mo.accounts[k].accountName != b ==>
            r.accounts[k] == mo.accounts[k])
  {
  }

  /* ---------- transfer from an external account ---------- */

  /** An external deposit raises only the receiver's final balance, by the amount. */
  lemma ExternalShifts(mo: MonthOverView, holder: string, receiver: string, x: int, date: Option<string>, id: string)
    requires HasAccount(mo, receiver)
    ensures FinalShifted(mo, TransferFromExternal(mo, holder, receiver, x, date, id).value, ExternalDelta(receiver, x))
  {
    var j := FindAccount(mo.accounts, receiver).value;
    var m1 := UpdateAt(mo, j, UpdateFinalBalance(mo.accounts[j], Increase, x));
    var m2 := UpdateAt(m1, j, AddTransaction(m1.accounts[j], Transaction(x, holder, receiver, Increase, date, id)));
    assert TransferFromExternal(mo, holder, receiver, x, date, id) == Some(m2);
    forall n | HasAccount(mo, n)
      ensures HasAccount(m2, n) && FinalOf(m2, n) == FinalOf(mo, n) + Shift(ExternalDelta(receiver, x), n)
      ensures InitialOf(m2, n) == InitialOf(mo, n)
    {
      ReplaceAccount(mo, j, m1.accounts[j], n);
      ReplaceAccount(m1, j, m2.accounts[j], n);
    }
    ReplaceAccount(mo, j, m1.accounts[j], receiver);
  }

  /**
   * The receiver gains one `increase` transaction sent by the external holder,
   * the total of final balances grows by the amount, and every other account is
   * unchanged.
   */
  lemma ExternalRecords(mo: MonthOverView, holder: string, receiver: string, x: int, date: Option<string>, id: string)
    requires HasAccount(mo, receiver)
    ensures var r := TransferFromExternal(mo, holder, receiver, x, date, id).value;
      var j := FindAccount(mo.accounts, receiver).value;
      && |r.accounts| == |mo.accounts|
      && r.accounts[j].transactions == mo.accounts[j].transactions + [Transaction(x, holder, receiver, Increase, date, id)]
      && TotalFinal(r) == TotalFinal(mo) + x
      && TotalInitial(r) == TotalInitial(mo)
      && (forall k :: 0 <= k < |mo.accounts| && k != j ==> r.accounts[k] == mo.accounts[k])
  {
    var j := FindAccount(mo.accounts, receiver).value;
    var m1 := UpdateAt(mo, j, UpdateFinalBalance(mo.accounts[j], Increase, x));
    var m2 := UpdateAt(m1, j, AddTransaction(m1.accounts[j], Transaction(x, holder, receiver, Increase, date, id)));
    TotalsAfterReplace(mo, j, m1.accounts[j]);
    TotalsAfterReplace(m1, j, m2.accounts[j]);
  }

  /* ---------- expense ---------- */

  /** An expense lowers only the paying account's final balance, by the cost. */
  lemma ExpenseShifts(mo: MonthOverView, cat: string, e: Expense)
    requires HasAccount(mo, e.usedAccountName) && ContainsCategory(mo, cat)
    ensures FinalShifted(mo, AddExpense(mo, cat, e).value, ExpenseDelta(e, None))
  {
    var i := FindAccount(mo.accounts, e.usedAccountName).value;
    var m1 := UpdateAt(mo, i, UpdateFinalBalance(mo.accounts[i], Decrease, e.cost));
    var r := AddExpense(mo, cat, e).value;
    assert r.accounts == m1.accounts;
    forall n | HasAccount(mo, n)
      ensures HasAccount(r, n) && FinalOf(r, n) == FinalOf(mo, n) + Shift(ExpenseDelta(e, None), n)
      ensures InitialOf(r, n) == InitialOf(mo, n)
    {
      ReplaceAccount(mo, i, m1.accounts[i], n);
    }
    ReplaceAccount(mo, i, m1.accounts[i], e.usedAccountName);
  }

  /**
   * The category the name finds gains the expense, and its budget's spent amount
   * grows by the cost whatever its limit; its name, colour, icon and limit stay,
   * every other category is unchanged and the total of final balances falls by
   * the cost.
   */
  lemma ExpenseRecorded(mo: MonthOverView, cat: string, e: Expense)
    requires HasAccount(mo, e.usedAccountName) && ContainsCategory(mo, cat)
    ensures var r := AddExpense(mo, cat, e).value;
      var c := FindCategory(mo.categories, cat).value;
      && |r.categories| == |mo.categories|
      && FindCategory(r.categories, cat) == Some(c)
      && r.categories[c].expenses == mo.categories[c].expenses + [e]
      && r.categories[c].budget.amountSpentInBudget == mo.categories[c].budget.amountSpentInBudget + e.cost
      && r.categories[c].budget.limit == mo.categories[c].budget.limit
      && r.categories[c].categoryName == mo.categories[c].categoryName
      && r.categories[c].categoryColor == mo.categories[c].categoryColor
      && r.categories[c].iconName == mo.categories[c].iconName
      && (forall k :: 0 <= k < |mo.categories| && k != c ==> r.categories[k] == mo.categories[k])
      && SpentIn(r, cat) == SpentIn(mo, cat) + e.cost
      && TotalFinal(r) == TotalFinal(mo) - e.cost
      && TotalInitial(r) == TotalInitial(mo)
  {
    var i := FindAccount(mo.accounts, e.usedAccountName).value;
    var m1 := UpdateAt(mo, i, UpdateFinalBalance(mo.accounts[i], Decrease, e.cost));
    var r := AddExpense(mo, cat, e).value;
    assert SameCategoryNames(mo.categories, r.categories);
    FindCategorySameNames(mo.categories, r.categories, cat);
    TotalsAfterReplace(mo, i, m1.accounts[i]);
  }

  /**
   * Budget accumulation: two expenses recorded against the same category add
   * both costs to what was spent in its budget.
   */
  lemma TwoExpensesAccumulate(mo: MonthOverView, cat: string, e1: Expense, e2: Expense)
    requires HasAccount(mo, e1.usedAccountName) && HasAccount(mo, e2.usedAccountName) && ContainsCategory(mo, cat)
    ensures AddExpense(mo, cat, e1).Some?
    ensures AddExpense(AddExpense(mo, cat, e1).value, cat, e2).Some?
    ensures SpentIn(AddExpense(AddExpense(mo, cat, e1).value, cat, e2).value, cat)
         == SpentIn(mo, cat) + e1.cost + e2.cost
  {
    var r1 := AddExpense(mo, cat, e1).value;
    ExpenseRecorded(mo, cat, e1);
    ExpenseShifts(mo, cat, e1);
    FindAccountSameNames(mo.accounts, r1.accounts, e2.usedAccountName);
    ExpenseRecorded(r1, cat, e2);
  }

  /* ---------- both balances of one account ---------- */

  /**
   * `after` has the accounts of `before`, found at the same positions under
   * the same names, with both balances of the account `name` moved by `s`
   * and the balances of every other account as they were.
   */
  ghost predicate MovedBoth(before: MonthOverView, after: MonthOverView, name: string, s: int) {
    && SameNames(before.accounts, after.accounts)
    && (forall n :: FindAccount(after.accounts, n) == FindAccount(before.accounts, n))
    && forall n :: HasAccount(before, n) ==>
         && FinalOf(after, n) == FinalOf(before, n) + (if n == name then s else 0)
         && InitialOf(after, n) == InitialOf(before, n) + (if n == name then s else 0)
  }

  /** The initial balance, then the final balance, of the account at `i` (the first under its name). */
  lemma InitialThenFinal(mo: MonthOverView, i: nat, op: Operation, x: int)
    requires i < |mo.accounts| && FindAccount(mo.accounts, mo.accounts[i].accountName) == Some(i)
    ensures var m1 := UpdateAt(mo, i, UpdateInitialBalance(mo.accounts[i], op, x));
      MovedBoth(mo, UpdateAt(m1, i, UpdateFinalBalance(m1.accounts[i], op, x)), mo.accounts[i].accountName, Signed(op, x))
  {
    var m1 := UpdateAt(mo, i, UpdateInitialBalance(mo.accounts[i], op, x));
    var m2 := UpdateAt(m1, i, UpdateFinalBalance(m1.accounts[i], op, x));
    ReplaceAccount(mo, i, m1.accounts[i], "");
    ReplaceAccount(m1, i, m2.accounts[i], "");
    forall n
      ensures FindAccount(m2.accounts, n) == FindAccount(mo.accounts, n)
      ensures HasAccount(mo, n) ==> FinalOf(m2, n) == FinalOf(mo, n) + (if n == mo.accounts[i].accountName then Signed(op, x) else 0)
      ensures HasAccount(mo, n) ==> InitialOf(m2, n) == InitialOf(mo, n) + (if n == mo.accounts[i].accountName then Signed(op, x) else 0)
    {
      ReplaceAccount(mo, i, m1.accounts[i], n);
      ReplaceAccount(m1, i, m2.accounts[i], n);
    }
  }

  /** The final balance, then the initial balance, of the account at `i` (the first under its name). */
  lemma FinalThenInitial(mo: MonthOverView, i: nat, op: Operation, x: int)
    requires i < |mo.accounts| && FindAccount(mo.accounts, mo.accounts[i].accountName) == Some(i)
    ensures var m1 := UpdateAt(mo, i, UpdateFinalBalance(mo.accounts[i], op, x));
      MovedBoth(mo, UpdateAt(m1, i, UpdateInitialBalance(m1.accounts[i], op, x)), mo.accounts[i].accountName, Signed(op, x))
  {
    var m1 := UpdateAt(mo, i, UpdateFinalBalance(mo.accounts[i], op, x));
    var m2 := UpdateAt(m1, i, UpdateInitialBalance(m1.accounts[i], op, x));
    ReplaceAccount(mo, i, m1.accounts[i], "");
    ReplaceAccount(m1, i, m2.accounts[i], "");
    forall n
      ensures FindAccount(m2.accounts, n) == FindAccount(mo.accounts, n)
      ensures HasAccount(mo, n) ==> FinalOf(m2, n) == FinalOf(mo, n) + (if n == mo.accounts[i].accountName then Signed(op, x) else 0)
      ensures HasAccount(mo, n) ==> InitialOf(m2, n) == InitialOf(mo, n) + (if n == mo.accounts[i].accountName then Signed(op, x) else 0)
    {
      ReplaceAccount(mo, i, m1.accounts[i], n);
      ReplaceAccount(m1, i, m2.accounts[i], n);
    }
  }

  /** Two such moves, one after the other, with the accounts left alone in between. */
  lemma MovedTwice(mo: MonthOverView, m2: MonthOverView, m3: MonthOverView, m5: MonthOverView, a: string, s: int, b: string, t: int)
    requires MovedBoth(mo, m2, a, s) && m3.accounts == m2.accounts && MovedBoth(m3, m5, b, t)
    ensures SameNames(mo.accounts, m5.accounts)
    ensures forall n :: HasAccount(mo, n) ==>
      && HasAccount(m5, n)
      && FinalOf(m5, n) == FinalOf(mo, n) + (if n == a then s else 0) + (if n == b then t else 0)
      && InitialOf(m5, n) == InitialOf(mo, n) + (if n == a then s else 0) + (if n == b then t else 0)
  {
    forall n | HasAccount(mo, n)
      ensures HasAccount(m5, n)
      ensures FinalOf(m5, n) == FinalOf(mo, n) + (if n == a then s else 0) + (if n == b then t else 0)
      ensures InitialOf(m5, n) == InitialOf(mo, n) + (if n == a then s else 0) + (if n == b then t else 0)
    {
      assert FinalOf(m3, n) == FinalOf(m2, n) && InitialOf(m3, n) == InitialOf(m2, n);
    }
  }

  /* ---------- deltas on later months ---------- */

  /** In a later month a transfer moves both balances of A down and of B up. */
  lemma TransferDeltaShifts(mo: MonthOverView, a: string, b: string, x: int)
    requires HasAccount(mo, a) && HasAccount(mo, b)
    ensures ApplyDelta(mo, TransferDelta(a, b, x)).Some?
    ensures BothShifted(mo, ApplyDelta(mo, TransferDelta(a, b, x)).value, TransferDelta(a, b, x))
  {
    var i, j := FindAccount(mo.accounts, a).value, FindAccount(mo.accounts, b).value;
    var m1 := UpdateAt(mo, i, UpdateInitialBalance(mo.accounts[i], Decrease, x));
    var m2 := UpdateAt(m1, i, UpdateFinalBalance(m1.accounts[i], Decrease, x));
    var m3 := UpdateAt(m2, j, UpdateInitialBalance(m2.accounts[j], Increase, x));
    var m4 := UpdateAt(m3, j, UpdateFinalBalance(m3.accounts[j], Increase, x));
    assert ApplyDelta(mo, TransferDelta(a, b, x)) == Some(m4);
    InitialThenFinal(mo, i, Decrease, x);
    assert FindAccount(m2.accounts, b) == Some(j);
    InitialThenFinal(m2, j, Increase, x);
    MovedTwice(mo, m2, m2, m4, a, -x, b, x);
  }

  /** In a later month a transfer conserves the sums of final and of initial balances. */
  lemma TransferDeltaConservesTotals(mo: MonthOverView, a: string, b: string, x: int)
    requires HasAccount(mo, a) && HasAccount(mo, b)
    ensures ApplyDelta(mo, TransferDelta(a, b, x)).Some?
    ensures TotalFinal(ApplyDelta(mo, TransferDelta(a, b, x)).value) == TotalFinal(mo)
    ensures TotalInitial(ApplyDelta(mo, TransferDelta(a, b, x)).value) == TotalInitial(mo)
  {
    var i, j := FindAccount(mo.accounts, a).value, FindAccount(mo.accounts, b).value;
    var m1 := UpdateAt(mo, i, UpdateInitialBalance(mo.accounts[i], Decrease, x));
    var m2 := UpdateAt(m1, i, UpdateFinalBalance(m1.accounts[i], Decrease, x));
    var m3 := UpdateAt(m2, j, UpdateInitialBalance(m2.accounts[j], Increase, x));
    var m4 := UpdateAt(m3, j, UpdateFinalBalance(m3.accounts[j], Increase, x));
    assert ApplyDelta(mo, TransferDelta(a, b, x)) == Some(m4);
    TotalsAfterReplace(mo, i, m1.accounts[i]);
    TotalsAfterReplace(m1, i, m2.accounts[i]);
    TotalsAfterReplace(m2, j, m3.accounts[j]);
    TotalsAfterReplace(m3, j, m4.accounts[j]);
  }

  /**
   * In a later month an external deposit raises only the receiver's final
   * balance; its initial balance is left as it was.
   */
  lemma ExternalDeltaShiftsFinalOnly(mo: MonthOverView, receiver: string, x: int)
    requires HasAccount(mo, receiver)
    ensures ApplyDelta(mo, ExternalDelta(receiver, x)).Some?
    ensures FinalShifted(mo, ApplyDelta(mo, ExternalDelta(receiver, x)).value, ExternalDelta(receiver, x))
  {
    var j := FindAccount(mo.accounts, receiver).value;
    var m1 := UpdateAt(mo, j, UpdateFinalBalance(mo.accounts[j], Increase, x));
    assert ApplyDelta(mo, ExternalDelta(receiver, x)) == Some(m1);
    forall n | HasAccount(mo, n)
      ensures HasAccount(m1, n) && FinalOf(m1, n) == FinalOf(mo, n) + Shift(ExternalDelta(receiver, x), n)
      ensures InitialOf(m1, n) == InitialOf(mo, n)
    {
      ReplaceAccount(mo, j, m1.accounts[j], n);
    }
    ReplaceAccount(mo, j, m1.accounts[j], receiver);
  }

  /**
   * In a later month a plain expense lowers both balances of the paying account
   * by the cost and unions its tags into the used tags.
   */
  lemma ExpenseDeltaShifts(mo: MonthOverView, e: Expense, oldName: Option<string>)
    requires !HasOldAccount(ExpenseDelta(e, oldName))
    requires HasAccount(mo, e.usedAccountName)
    ensures ApplyDelta(mo, ExpenseDelta(e, oldName)).Some?
    ensures BothShifted(mo, ApplyDelta(mo, ExpenseDelta(e, oldName)).value, ExpenseDelta(e, oldName))
    ensures ApplyDelta(mo, ExpenseDelta(e, oldName)).value.usedTags == mo.usedTags + TagSet(e.tags)
  {
    var d := ExpenseDelta(e, oldName);
    var i := FindAccount(mo.accounts, e.usedAccountName).value;
    var m1 := UpdateAt(mo, i, UpdateFinalBalance(mo.accounts[i], Decrease, e.cost));
    var m2 := UpdateAt(m1, i, UpdateInitialBalance(m1.accounts[i], Decrease, e.cost));
    var m3 := AddTagsToUsedTags(m2, e.tags);
    assert ApplyDelta(mo, d) == Some(m3);
    forall n | HasAccount(mo, n)
      ensures HasAccount(m3, n) && FinalOf(m3, n) == FinalOf(mo, n) + Shift(d, n)
      ensures InitialOf(m3, n) == InitialOf(mo, n) + Shift(d, n)
    {
      ReplaceAccount(mo, i, m1.accounts[i], n);
      ReplaceAccount(m1, i, m2.accounts[i], n);
    }
    ReplaceAccount(mo, i, m1.accounts[i], e.usedAccountName);
  }

  /**
   * The corrected delta of an expense moved from an old account shifts both
   * balances of both accounts: the paying one down, the old one back up.
   */
  lemma OldAccountDeltaFixedShifts(mo: MonthOverView, e: Expense, oldName: string)
    requires HasOldAccount(ExpenseDelta(e, Some(oldName)))
    requires HasAccount(mo, e.usedAccountName) && HasAccount(mo, oldName)
    ensures ApplyDeltaFixed(mo, ExpenseDelta(e, Some(oldName))).Some?
    ensures BothShifted(mo, ApplyDeltaFixed(mo, ExpenseDelta(e, Some(oldName))).value, ExpenseDelta(e, Some(oldName)))
  {
    var d := ExpenseDelta(e, Some(oldName));
    var i, j := FindAccount(mo.accounts, e.usedAccountName).value, FindAccount(mo.accounts, oldName).value;
    var m1 := UpdateAt(mo, i, UpdateFinalBalance(mo.accounts[i], Decrease, e.cost));
    var m2 := UpdateAt(m1, i, UpdateInitialBalance(m1.accounts[i], Decrease, e.cost));
    var m3 := AddTagsToUsedTags(m2, e.tags);
    var m4 := UpdateAt(m3, j, UpdateFinalBalance(m3.accounts[j], Increase, e.cost));
    var m5 := UpdateAt(m4, j, UpdateInitialBalance(m4.accounts[j], Increase, e.cost));
    assert ApplyDeltaFixed(mo, d) == Some(m5);
    FinalThenInitial(mo, i, Decrease, e.cost);
    assert FindAccount(m3.accounts, oldName) == Some(j);
    FinalThenInitial(m3, j, Increase, e.cost);
    MovedTwice(mo, m2, m3, m5, e.usedAccountName, -e.cost, oldName, e.cost);
    assert forall n :: Shift(d, n) == (if n == e.usedAccountName then -e.cost else 0) + (if n == oldName then e.cost else 0);
    assert BothShifted(mo, m5, d);
  }

  /**
   * The corrected deltas of transfers and expenses all shift both balances of
   * every account by the same amount.
   */
  lemma DeltaFixedShifts(mo: MonthOverView, d: Delta)
    requires !d.ExternalDelta?
    requires ApplyDeltaFixed(mo, d).Some?
    ensures BothShifted(mo, ApplyDeltaFixed(mo, d).value, d)
  {
    match d
    case TransferDelta(a, b, x) =>
      TransferDeltaShifts(mo, a, b, x);
    case ExpenseDelta(e, oldName) =>
      if HasOldAccount(d) {
        OldAccountDeltaFixedShifts(mo, e, oldName.value);
      } else {
        ExpenseDeltaShifts(mo, e, oldName);
      }
  }
}
