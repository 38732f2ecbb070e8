/**
 * Concrete stores: the three-month expense example, and the two-month store
 * in which the propagation as written counts an expense twice in the month
 * it creates.
 */
module Scenarios {
  import opened Wrappers
  import opened MonthKeys
  import opened Models
  import opened Ledger
  import opened Store
  import opened PropagationFacts

  const April: MonthKey := YearMonth(2024, 4)
  const May: MonthKey := YearMonth(2024, 5)
  const June: MonthKey := YearMonth(2024, 6)

  function Checking(initial: int, final: int): Account {
    Account("ana", "Checking", initial, final, [])
  }

  /** A month holding the one account and a "Food" category with a limit of 100. */
  function MonthOf(k: MonthKey, acc: Account): MonthOverView {
    MonthOverView(k, [acc], [Category("Food", "#33aa33", "restaurant", Budget(Some(100), 0), [])], {})
  }

  /** An expense of 20 paid from Checking. */
  function Lunch(): Expense {
    Expense(20, "lunch", "Checking", ["work"], "restaurant", "2024-04-10")
  }

  /**
   * Current month June 2024, April to June stored with Checking opening and
   * closing at `b`: recording the expense of 20 in April leaves Checking
   * closing April at `b - 20` and opening and closing May and June there.
   */
  lemma ThreeMonthExpense(b: int)
    ensures var db0 := map[April := MonthOf(April, Checking(b, b)), May := MonthOf(May, Checking(b, b)),
                           June := MonthOf(June, Checking(b, b))];
      var r := Service(db0, April, June, ExpenseOp("Food", Lunch()));
      && April in r && May in r && June in r
      && HasAccount(r[April], "Checking") && HasAccount(r[May], "Checking") && HasAccount(r[June], "Checking")
      && FinalOf(r[April], "Checking") == b - 20
      && InitialOf(r[May], "Checking") == b - 20 && FinalOf(r[May], "Checking") == b - 20
      && InitialOf(r[June], "Checking") == b - 20 && FinalOf(r[June], "Checking") == b - 20
  {
    var db0 := map[April := MonthOf(April, Checking(b, b)), May := MonthOf(May, Checking(b, b)),
                   June := MonthOf(June, Checking(b, b))];
    var op := ExpenseOp("Food", Lunch());
    assert Mutate(db0[April], op).Some?;
    MonthsAfterApril();
    ExpenseReach(db0, April, June, "Food", Lunch());
    var r := Service(db0, April, June, op);
    CheckingLowered(db0[April], r[April], April, b, false);
    CheckingLowered(db0[May], r[May], May, b, true);
    CheckingLowered(db0[June], r[June], June, b, true);
  }

  /** The months after April up to June are May and June. */
  lemma MonthsAfterApril()
    ensures forall k: MonthKey :: Index(April) < Index(k) <= Index(June) ==> k == May || k == June
  {
    forall k: MonthKey | Index(April) < Index(k) <= Index(June)
      ensures k == May || k == June
    {
      if Index(k) == Index(May) {
        IndexInjective(k, May);
      } else {
        IndexInjective(k, June);
      }
    }
  }

  /** Checking at `b` in a month the lunch shifts: it ends at `b - 20`, and opens there too when `both`. */
  lemma CheckingLowered(before: MonthOverView, after: MonthOverView, k: MonthKey, b: int, both: bool)
    requires before == MonthOf(k, Checking(b, b))
    requires if both then BothShifted(before, after, ExpenseDelta(Lunch(), None))
             else FinalShifted(before, after, ExpenseDelta(Lunch(), None))
    ensures HasAccount(after, "Checking") && FinalOf(after, "Checking") == b - 20
    ensures both ==> InitialOf(after, "Checking") == b - 20
  {
    assert HasAccount(before, "Checking");
    FindAccountSameNames(before.accounts, after.accounts, "Checking");
  }

  /**
   * The double count: only April is stored and the current month is May.
   * Recording the expense of 20 in April and propagating it creates May from
   * the already lowered April (80) and then lowers it again, so May opens at
   * 60 although April closes at 80.
   */
  lemma DoubleCountInCreatedMonth()
    ensures var r := Service(map[April := MonthOf(April, Checking(100, 100))], April, May, ExpenseOp("Food", Lunch()));
      && April in r && May in r
      && HasAccount(r[April], "Checking") && HasAccount(r[May], "Checking")
      && FinalOf(r[April], "Checking") == 80
      && InitialOf(r[May], "Checking") == 60 && FinalOf(r[May], "Checking") == 60
      && !Linked(r, April)
  {
    var db0 := map[April := MonthOf(April, Checking(100, 100))];
    var op := ExpenseOp("Food", Lunch());
    var db1 := Record(db0, April, op);
    assert db1[April].accounts == [Checking(100, 80)];
    assert Prev(May) == April;
    var created := Rollover(db1[April], May);
    assert created.accounts == [Checking(80, 80)];
    var lowered := ApplyDelta(created, DeltaOf(op)).value;
    PropagateCreatesLast(db1, May, DeltaOf(op));
    assert lowered.accounts == [Checking(60, 60)];
  }

  /** The same store under the corrected propagation: May opens and closes at 80, linked to April. */
  lemma CreatedMonthFixed()
    ensures var r := ServiceFixed(map[April := MonthOf(April, Checking(100, 100))], April, May, ExpenseOp("Food", Lunch()));
      && April in r && May in r
      && HasAccount(r[April], "Checking") && HasAccount(r[May], "Checking")
      && FinalOf(r[April], "Checking") == 80
      && InitialOf(r[May], "Checking") == 80 && FinalOf(r[May], "Checking") == 80
      && Linked(r, April)
  {
    var db0 := map[April := MonthOf(April, Checking(100, 100))];
    var op := ExpenseOp("Food", Lunch());
    var db1 := Record(db0, April, op);
    assert db1[April].accounts == [Checking(100, 80)];
    assert Prev(May) == April;
    var created := Rollover(db1[April], May);
    assert created.accounts == [Checking(80, 80)];
    assert PropagateFixed(db1, May, June, DeltaOf(op)) == db1[May := created];
  }

  /**
   * Propagating a delta through one missing month: the month is created from
   * the month before it and the delta is applied to the created copy.
   */
  lemma PropagateCreatesLast(db: Store, cur: MonthKey, d: Delta)
    requires WellKeyed(db) && cur !in db && Prev(cur) in db
    requires ApplyDelta(Rollover(db[Prev(cur)], cur), d).Some?
    ensures Propagate(db, cur, Next(cur), d) == db[cur := ApplyDelta(Rollover(db[Prev(cur)], cur), d).value]
  {
    PrevNext(cur);
    var created := Rollover(db[Prev(cur)], cur);
    assert ReadThrough(db, cur) == (db[cur := created], Some(created));
  }
}
