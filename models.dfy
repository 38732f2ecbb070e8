/**
 * The documents kept in the store: a month snapshot (`MonthOverView`) with its
 * accounts, categories and used tags. They are values: the ledger fetches a copy,
 * changes it locally and puts the copy back.
 * Amounts are whole cents.
 */
module Models {
  import opened Wrappers
  import opened MonthKeys

  /** The `'increase'` / `'decrease'` argument of the balance updates. */
  datatype Operation = Increase | Decrease

  datatype Transaction = Transaction(
    amount: int,
    sendingAccountName: string,
    recievingAccountName: string,
    operation: Operation,
    transactionDate: Option<string>,
    uniqId: string)

  datatype Account = Account(
    owner: string,
    accountName: string,
    initialBalance: int,
    finalBalance: int,
    transactions: seq<Transaction>)

  datatype Budget = Budget(limit: Option<int>, amountSpentInBudget: int)

  datatype Expense = Expense(
    cost: int,
    description: string,
    usedAccountName: string,
    tags: seq<string>,
    iconName: string,
    createdAt: string)

  datatype Category = Category(
    categoryName: string,
    categoryColor: string,
    iconName: string,
    budget: Budget,
    expenses: seq<Expense>)

  datatype MonthOverView = MonthOverView(
    id: MonthKey,
    accounts: seq<Account>,
    categories: seq<Category>,
    usedTags: set<string>)

  /* ---------- balance updates of Account ---------- */

  function Signed(op: Operation, x: int): int {
    if op == Increase then x else -x
  }

  /** `account.updateFinalBalance(op, x)`. */
  function UpdateFinalBalance(a: Account, op: Operation, x: int): (r: Account)
    ensures r.accountName == a.accountName
  {
    a.(finalBalance := a.finalBalance + Signed(op, x))
  }

  /** `account.updateInitialBalance(op, x)`. */
  function UpdateInitialBalance(a: Account, op: Operation, x: int): (r: Account)
    ensures r.accountName == a.accountName
  {
    a.(initialBalance := a.initialBalance + Signed(op, x))
  }

  /** `account.addTransaction(t)`. */
  function AddTransaction(a: Account, t: Transaction): (r: Account)
    ensures r.accountName == a.accountName
  {
    a.(transactions := a.transactions + [t])
  }

  /**
   * What the account methods change: `'increase'` adds and `'decrease'`
   * subtracts the amount from one balance, `addTransaction` appends; nothing
   * else of the account changes.
   */
  lemma AccountUpdates(a: Account, op: Operation, x: int, t: Transaction)
    ensures UpdateFinalBalance(a, op, x).finalBalance - a.finalBalance == (if op == Increase then x else -x)
    ensures UpdateFinalBalance(a, op, x).(finalBalance := a.finalBalance) == a
    ensures UpdateInitialBalance(a, op, x).initialBalance - a.initialBalance == (if op == Increase then x else -x)
    ensures UpdateInitialBalance(a, op, x).(initialBalance := a.initialBalance) == a
    ensures AddTransaction(a, t).transactions == a.transactions + [t]
    ensures AddTransaction(a, t).(transactions := a.transactions) == a
  {
  }

  /* ---------- lookups by name ---------- */

  /** The position `getAccByName` finds: the first account with that name. */
  function FindAccount(accs: seq<Account>, name: string): (r: Option<nat>)
    ensures r.Some? ==> r.value < |accs| && accs[r.value].accountName == name
    ensures r.Some? ==> forall j :: 0 <= j < r.value ==> accs[j].accountName != name
    ensures r.None? ==> forall j :: 0 <= j < |accs| ==> accs[j].accountName != name
  {
    if |accs| == 0 then None
    else if accs[0].accountName == name then Some(0)
    else match FindAccount(accs[1..], name)
      case None => None
      case Some(i) => Some(i + 1)
  }

  /** The position `getCategoryByName` finds: the first category with that name. */
  function FindCategory(cats: seq<Category>, name: string): (r: Option<nat>)
    ensures r.Some? ==> r.value < |cats| && cats[r.value].categoryName == name
    ensures r.Some? ==> forall j :: 0 <= j < r.value ==> cats[j].categoryName != name
    ensures r.None? ==> forall j :: 0 <= j < |cats| ==> cats[j].categoryName != name
  {
    if |cats| == 0 then None
    else if cats[0].categoryName == name then Some(0)
    else match FindCategory(cats[1..], name)
      case None => None
      case Some(i) => Some(i + 1)
  }

  predicate HasAccount(mo: MonthOverView, name: string) {
    FindAccount(mo.accounts, name).Some?
  }

  /** `containsCategory`. */
  predicate ContainsCategory(mo: MonthOverView, name: string) {
    FindCategory(mo.categories, name).Some?
  }

  function FinalOf(mo: MonthOverView, name: string): int
    requires HasAccount(mo, name)
  {
    mo.accounts[FindAccount(mo.accounts, name).value].finalBalance
  }

  function InitialOf(mo: MonthOverView, name: string): int
    requires HasAccount(mo, name)
  {
    mo.accounts[FindAccount(mo.accounts, name).value].initialBalance
  }

  function AccountNames(s: seq<Account>): (r: seq<string>)
    ensures |r| == |s| && forall i :: 0 <= i < |s| ==> r[i] == s[i].accountName
  {
    seq(|s|, i requires 0 <= i < |s| => s[i].accountName)
  }

  /** Two account lists that agree position by position on the names. */
  ghost predicate SameNames(s: seq<Account>, t: seq<Account>) {
    AccountNames(s) == AccountNames(t)
  }

  /** Lookups by name only see names, so lists with the same names answer alike. */
  lemma {:induction false} FindAccountSameNames(s: seq<Account>, t: seq<Account>, name: string)
    requires SameNames(s, t)
    ensures FindAccount(s, name) == FindAccount(t, name)
  {
    assert |s| == |AccountNames(s)| == |t|;
    if |s| > 0 {
      assert s[0].accountName == AccountNames(s)[0] == t[0].accountName;
      if s[0].accountName != name {
        assert AccountNames(s[1..]) == AccountNames(s)[1..];
        assert AccountNames(t[1..]) == AccountNames(t)[1..];
        FindAccountSameNames(s[1..], t[1..], name);
      }
    }
  }

  /** Two category lists that agree position by position on the names. */
  ghost predicate SameCategoryNames(s: seq<Category>, t: seq<Category>) {
    |s| == |t| && forall i :: 0 <= i < |s| ==> s[i].categoryName == t[i].categoryName
  }

  lemma {:induction false} FindCategorySameNames(s: seq<Category>, t: seq<Category>, name: string)
    requires SameCategoryNames(s, t)
    ensures FindCategory(s, name) == FindCategory(t, name)
  {
    if |s| > 0 && s[0].categoryName != name {
      FindCategorySameNames(s[1..], t[1..], name);
    }
  }

  /**
   * Replacing the account that a name finds by one with the same name leaves
   * every lookup as it was; only the balances seen under that name change.
   */
  lemma ReplaceAccount(mo: MonthOverView, i: nat, a: Account, name: string)
    requires FindAccount(mo.accounts, a.accountName) == Some(i)
    ensures var mo' := mo.(accounts := mo.accounts[i := a]);
      && SameNames(mo.accounts, mo'.accounts)
      && FindAccount(mo'.accounts, name) == FindAccount(mo.accounts, name)
      && (HasAccount(mo', name) <==> HasAccount(mo, name))
      && (HasAccount(mo, name) ==>
            && FinalOf(mo', name) == (if name == a.accountName then a.finalBalance else FinalOf(mo, name))
            && InitialOf(mo', name) == (if name == a.accountName then a.initialBalance else InitialOf(mo, name)))
  {
    var mo' := mo.(accounts := mo.accounts[i := a]);
    assert AccountNames(mo'.accounts) == AccountNames(mo.accounts);
    FindAccountSameNames(mo.accounts, mo'.accounts, name);
  }

  /* ---------- totals ---------- */

  function Sum(xs: seq<int>): int {
    if xs == [] then 0 else xs[0] + Sum(xs[1..])
  }

  lemma {:induction false} SumUpdate(xs: seq<int>, i: nat, v: int)
    requires i < |xs|
    ensures Sum(xs[i := v]) == Sum(xs) - xs[i] + v
  {
    if i == 0 {
      assert xs[i := v][1..] == xs[1..];
    } else {
      SumUpdate(xs[1..], i - 1, v);
      assert xs[i := v][1..] == xs[1..][i - 1 := v];
    }
  }

  function Finals(accs: seq<Account>): (r: seq<int>)
    ensures |r| == |accs| && forall i :: 0 <= i < |accs| ==> r[i] == accs[i].finalBalance
  {
    seq(|accs|, i requires 0 <= i < |accs| => accs[i].finalBalance)
  }

  function Initials(accs: seq<Account>): (r: seq<int>)
    ensures |r| == |accs| && forall i :: 0 <= i < |accs| ==> r[i] == accs[i].initialBalance
  {
    seq(|accs|, i requires 0 <= i < |accs| => accs[i].initialBalance)
  }

  /** Sum of the final balances of all accounts of a snapshot. */
  function TotalFinal(mo: MonthOverView): int {
    Sum(Finals(mo.accounts))
  }

  /** Sum of the initial balances of all accounts of a snapshot. */
  function TotalInitial(mo: MonthOverView): int {
    Sum(Initials(mo.accounts))
  }

  /** Replacing one account moves the totals by exactly that account's change. */
  lemma TotalsAfterReplace(mo: MonthOverView, i: nat, a: Account)
    requires i < |mo.accounts|
    ensures var mo' := mo.(accounts := mo.accounts[i := a]);
      && TotalFinal(mo') == TotalFinal(mo) - mo.accounts[i].finalBalance + a.finalBalance
      && TotalInitial(mo') == TotalInitial(mo) - mo.accounts[i].initialBalance + a.initialBalance
  {
    var accs' := mo.accounts[i := a];
    assert Finals(accs') == Finals(mo.accounts)[i := a.finalBalance];
    assert Initials(accs') == Initials(mo.accounts)[i := a.initialBalance];
    SumUpdate(Finals(mo.accounts), i, a.finalBalance);
    SumUpdate(Initials(mo.accounts), i, a.initialBalance);
  }

  /* ---------- tags and budgets ---------- */

  function TagSet(tags: seq<string>): set<string> {
    set t | t in tags
  }

  /** `addTagsToUsedTags`: the used tags become their union with the given ones. */
  function AddTagsToUsedTags(mo: MonthOverView, tags: seq<string>): (r: MonthOverView)
    ensures r.usedTags == mo.usedTags + TagSet(tags)
    ensures r.accounts == mo.accounts && r.categories == mo.categories && r.id == mo.id
  {
    mo.(usedTags := mo.usedTags + TagSet(tags))
  }

  /** Amount spent in the budget of the category the name finds; 0 when there is none. */
  function SpentIn(mo: MonthOverView, name: string): int {
    match FindCategory(mo.categories, name)
    case None => 0
    case Some(i) => mo.categories[i].budget.amountSpentInBudget
  }
}
