/**
 * `DbProvider`: the ledger engine over the document store. The store is a
 * field the methods update in place; each method is proved against the
 * function of `Store`, `History` or `CategoryRewrites` that specifies it, and
 * what those functions promise is proved in `LedgerFacts`,
 * `PropagationFacts`, `History` and `CategoryRewrites`.
 *
 * The current month (`_id_now`, read from the clock once) is a parameter of
 * the methods that need it.
 */
module Db {
  import opened Wrappers
  import opened MonthKeys
  import opened Models
  import opened Ledger
  import opened Store
  import opened History
  import opened CategoryRewrites

  class DbProvider {
    /** The PouchDB database: the month snapshots under their keys. */
    var db: Store

    ghost predicate Valid()
      reads this
    {
      WellKeyed(db)
    }

    /**
     * A provider over the database `initSignIn` opens: whatever month
     * snapshots it already holds, each under its own key.
     */
    constructor (stored: Store)
      requires WellKeyed(stored)
      ensures Valid() && db == stored
    {
      db := stored;
    }

    /** `saveMonthOverview`: put the snapshot under its id. */
    method SaveMonthOverview(mo: MonthOverView)
      modifies this
      requires Valid()
      ensures Valid() && db == Put(old(db), mo)
    {
      db := Put(db, mo);
    }

    /**
     * `setupFirstMonthOverview`: the current month with the accounts given at
     * registration. `categories` stands for the categories the `MonthOverView`
     * constructor fills in; that constructor is not part of this model.
     */
    method SetupFirstMonthOverview(now: MonthKey, accounts: seq<Account>, categories: seq<Category>)
      modifies this
      requires Valid()
      ensures Valid() && db == Put(old(db), MonthOverView(now, accounts, categories, {}))
      ensures now in db && db[now].accounts == accounts && db[now].usedTags == {}
    {
      db := Put(db, MonthOverView(now, accounts, categories, {}));
    }

    /**
     * `createNewMonthOverview`: a plain get of the previous month; its
     * accounts carry their closing balance forward, expenses, transactions and
     * budget spend are cleared, and the new snapshot is put. A missing
     * previous month is swallowed: nothing is written and nothing returned.
     */
    method CreateNewMonthOverview(m: MonthKey) returns (r: Option<MonthOverView>)
      modifies this
      requires Valid()
      ensures Valid() && (db, r) == CreateNew(old(db), m)
    {
      var previous := Prev(m);
      if previous !in db {
        return None;
      }
      var doc := db[previous];
      var accounts := doc.accounts;
      var i := 0;
      while i < |accounts|
        invariant 0 <= i <= |accounts| == |doc.accounts|
        invariant forall j :: 0 <= j < i ==> accounts[j] == CarryForward(doc.accounts[j])
        invariant forall j :: i <= j < |accounts| ==> accounts[j] == doc.accounts[j]
      {
        accounts := accounts[i := accounts[i].(initialBalance := accounts[i].finalBalance)];
        i := i + 1;
      }
      assert accounts == CarriedForward(doc.accounts);
      var mo := MonthOverView(m, accounts, doc.categories, doc.usedTags);
      mo := ClearExpensesFromCategories(mo);
      mo := ClearTransactionsFromAccounts(mo);
      mo := ClearCurrentAmountSpentInBudget(mo);
      db := Put(db, mo);
      return Some(mo);
    }

    /** `getMonthOverviewObject`: the stored snapshot, or on `not_found` a new one by rollover. */
    method GetMonthOverviewObject(m: MonthKey) returns (r: Option<MonthOverView>)
      modifies this
      requires Valid()
      ensures Valid() && (db, r) == ReadThrough(old(db), m)
    {
      if m in db {
        return Some(db[m]);
      }
      r := CreateNewMonthOverview(m);
    }

    /* ---------- the single-month mutators ---------- */

    /**
     * `transferFromExternalAccount`: the receiving account's final balance
     * goes up and it gains one transaction; a missing month or account
     * aborts before the put.
     */
    method TransferFromExternalAccount(m: MonthKey, holder: string, receiver: string, amount: int,
                                       date: Option<string>, id: string)
      modifies this
      requires Valid()
      ensures Valid() && db == Record(old(db), m, ExternalOp(holder, receiver, amount, date, id))
    {
      var fetched := GetMonthOverviewObject(m);
      if fetched.None? {
        return;
      }
      var mo := fetched.value;
      var j := FindAccount(mo.accounts, receiver);
      if j.None? {
        return;
      }
      mo := UpdateAt(mo, j.value, UpdateFinalBalance(mo.accounts[j.value], Increase, amount));
      mo := UpdateAt(mo, j.value, AddTransaction(mo.accounts[j.value], Transaction(amount, holder, receiver, Increase, date, id)));
      db := Put(db, mo);
    }

    /**
     * `transferBetweenOwnAccounts`: A's final balance goes down, B's up, each
     * gains one transaction from A to B; a missing month or account aborts
     * before the put.
     */
    method TransferBetweenOwnAccounts(m: MonthKey, nameA: string, nameB: string, amount: int,
                                      date: Option<string>, idA: string, idB: string)
      modifies this
      requires Valid()
      ensures Valid() && db == Record(old(db), m, TransferOp(nameA, nameB, amount, date, idA, idB))
    {
      var fetched := GetMonthOverviewObject(m);
      if fetched.None? {
        return;
      }
      var mo := fetched.value;
      var i := FindAccount(mo.accounts, nameA);
      var j := FindAccount(mo.accounts, nameB);
      if i.None? || j.None? {
        return;
      }
      mo := UpdateAt(mo, i.value, UpdateFinalBalance(mo.accounts[i.value], Decrease, amount));
      mo := UpdateAt(mo, j.value, UpdateFinalBalance(mo.accounts[j.value], Increase, amount));
      mo := UpdateAt(mo, i.value, AddTransaction(mo.accounts[i.value], Transaction(amount, nameA, nameB, Decrease, date, idA)));
      mo := UpdateAt(mo, j.value, AddTransaction(mo.accounts[j.value], Transaction(amount, nameA, nameB, Increase, date, idB)));
      db := Put(db, mo);
    }

    /**
     * `addExpenseToCategoryToMonthOverview`: the paying account's final balance
     * goes down by the cost, the category gains the expense and its spend
     * grows by the cost, the tags join the used tags; a missing month,
     * account or category aborts before the put.
     */
    method AddExpenseToCategoryToMonthOverview(m: MonthKey, categoryName: string, e: Expense)
      modifies this
      requires Valid()
      ensures Valid() && db == Record(old(db), m, ExpenseOp(categoryName, e))
    {
      var fetched := GetMonthOverviewObject(m);
      if fetched.None? {
        return;
      }
      var mo := fetched.value;
      var i := FindAccount(mo.accounts, e.usedAccountName);
      if i.None? {
        return;
      }
      mo := UpdateAt(mo, i.value, UpdateFinalBalance(mo.accounts[i.value], Decrease, e.cost));
      var c := FindCategory(mo.categories, categoryName);
      if c.None? {
        return;
      }
      var category := mo.categories[c.value];
      category := category.(expenses := category.expenses + [e]);
      category := category.(budget := category.budget.(amountSpentInBudget := category.budget.amountSpentInBudget + e.cost));
      mo := mo.(categories := mo.categories[c.value := category]);
      mo := AddTagsToUsedTags(mo, e.tags);
      db := Put(db, mo);
    }

    /* ---------- forward propagation ---------- */

    /**
     * The loop the three `updateBalanceInFollowingMonths*` methods share: from
     * the month after `m` until the key is the month after `now`, fetch
     * (creating by rollover if missing), apply the delta, put. A missing
     * month or account ends the walk.
     */
    method UpdateBalanceInFollowingMonths(m: MonthKey, now: MonthKey, d: Delta)
      modifies this
      requires Valid() && Index(m) <= Index(now)
      ensures Valid() && db == Propagate(old(db), Next(m), Next(now), d)
    {
      var cur := Next(m);
      var stop := Next(now);
      while cur != stop
        invariant Valid() && Index(cur) <= Index(stop)
        invariant Propagate(db, cur, stop, d) == Propagate(old(db), Next(m), stop, d)
        decreases Index(stop) - Index(cur)
      {
        IndexDistinct(cur, stop);
        var fetched := GetMonthOverviewObject(cur);
        if fetched.None? {
          return;
        }
        var updated := ApplyDelta(fetched.value, d);
        if updated.None? {
          return;
        }
        db := Put(db, updated.value);
        cur := Next(cur);
      }
    }

    /** `updateBalanceInFollowingMonthsAfterTransfer`. */
    method UpdateBalanceInFollowingMonthsAfterTransfer(m: MonthKey, now: MonthKey, nameA: string, nameB: string, amount: int)
      modifies this
      requires Valid() && Index(m) <= Index(now)
      ensures Valid() && db == Propagate(old(db), Next(m), Next(now), TransferDelta(nameA, nameB, amount))
    {
      UpdateBalanceInFollowingMonths(m, now, TransferDelta(nameA, nameB, amount));
    }

    /** `updateBalanceInFollowingMonthsAfterExternalTransfer`: the holder plays no part. */
    method UpdateBalanceInFollowingMonthsAfterExternalTransfer(m: MonthKey, now: MonthKey, holder: string, receiver: string, amount: int)
      modifies this
      requires Valid() && Index(m) <= Index(now)
      ensures Valid() && db == Propagate(old(db), Next(m), Next(now), ExternalDelta(receiver, amount))
    {
      UpdateBalanceInFollowingMonths(m, now, ExternalDelta(receiver, amount));
    }

    /** `updateBalanceInFollowingMonthsAfterExpense`, with its optional old account name. */
    method UpdateBalanceInFollowingMonthsAfterExpense(m: MonthKey, now: MonthKey, e: Expense, oldAccountName: Option<string>)
      modifies this
      requires Valid() && Index(m) <= Index(now)
      ensures Valid() && db == Propagate(old(db), Next(m), Next(now), ExpenseDelta(e, oldAccountName))
    {
      UpdateBalanceInFollowingMonths(m, now, ExpenseDelta(e, oldAccountName));
    }

    /* ---------- the public entry points ---------- */

    /** `addExpenseToCategory`: record, then propagate unless `m` is the current month. */
    method AddExpenseToCategory(m: MonthKey, now: MonthKey, categoryName: string, e: Expense)
      modifies this
      requires Valid() && Index(m) <= Index(now)
      ensures Valid() && db == Service(old(db), m, now, ExpenseOp(categoryName, e))
    {
      AddExpenseToCategoryToMonthOverview(m, categoryName, e);
      if m != now {
        IndexDistinct(m, now);
        UpdateBalanceInFollowingMonthsAfterExpense(m, now, e, None);
      }
    }

    /** `addTransfer`. */
    method AddTransfer(m: MonthKey, now: MonthKey, nameA: string, nameB: string, amount: int,
                       date: Option<string>, idA: string, idB: string)
      modifies this
      requires Valid() && Index(m) <= Index(now)
      ensures Valid() && db == Service(old(db), m, now, TransferOp(nameA, nameB, amount, date, idA, idB))
    {
      TransferBetweenOwnAccounts(m, nameA, nameB, amount, date, idA, idB);
      if m != now {
        IndexDistinct(m, now);
        UpdateBalanceInFollowingMonthsAfterTransfer(m, now, nameA, nameB, amount);
      }
    }

    /** `addTransferFromExternalAccount`. */
    method AddTransferFromExternalAccount(m: MonthKey, now: MonthKey, holder: string, receiver: string, amount: int,
                                          date: Option<string>, id: string)
      modifies this
      requires Valid() && Index(m) <= Index(now)
      ensures Valid() && db == Service(old(db), m, now, ExternalOp(holder, receiver, amount, date, id))
    {
      TransferFromExternalAccount(m, holder, receiver, amount, date, id);
      if m != now {
        IndexDistinct(m, now);
        UpdateBalanceInFollowingMonthsAfterExternalTransfer(m, now, holder, receiver, amount);
      }
    }

    /* ---------- reading every month ---------- */

    /** `allDocs({descending: true})`: every key, latest month first. */
    method AllDocsDescending() returns (keys: seq<MonthKey>)
      ensures keys == KeysDescending(db.Keys)
    {
      var remaining := db.Keys;
      ghost var all := KeysDescending(db.Keys);
      keys := [];
      while remaining != {}
        invariant keys + KeysDescending(remaining) == all
        decreases |remaining|
      {
        keys, remaining := TakeLatest(keys, remaining);
      }
    }

    /** One row of the descending read: the latest key not yet read. */
    static method TakeLatest(keys: seq<MonthKey>, remaining: set<MonthKey>) returns (keys': seq<MonthKey>, remaining': set<MonthKey>)
      requires remaining != {}
      ensures keys' + KeysDescending(remaining') == keys + KeysDescending(remaining)
      ensures |remaining'| < |remaining|
    {
      LatestExists(remaining);
      var k :| IsLatest(remaining, k);
      DescendingLoopStep(keys, remaining, k, keys + KeysDescending(remaining));
      keys', remaining' := keys + [k], remaining - {k};
    }

    /**
     * `getAllAccounts`: the accounts of every month, latest month first,
     * merged by name; a later account under a known name contributes only
     * the transactions whose id the merged account lacks.
     */
    method GetAllAccounts() returns (merged: seq<Account>)
      ensures merged == MergeAll([], HistoryOf(db))
      ensures UniqueNames(merged)
      ensures forall n :: n in Names(merged) <==> exists k :: k in db && n in Names(db[k].accounts)
      ensures forall n, k :: LatestHolder(db, k, n) ==>
        FindAccount(merged, n).Some? && Summary(At(merged, n)) == Summary(At(db[k].accounts, n))
    {
      var rows := AllDocsDescending();
      merged := MergeMonths(rows);
      HistoryFacts(db);
    }

    /** The outer `forEach` over the month documents `rows`, in the order given. */
    method MergeMonths(rows: seq<MonthKey>) returns (merged: seq<Account>)
      requires forall k :: k in rows ==> k in db
      ensures merged == MergeAll([], AccountsOf(db, rows))
    {
      merged := [];
      var i := 0;
      while i < |rows|
        invariant 0 <= i <= |rows|
        invariant MergeAll(merged, AccountsOf(db, rows[i..])) == MergeAll([], AccountsOf(db, rows))
      {
        var accounts := db[rows[i]].accounts;
        AccountsOfStep(db, rows, i);
        assert accounts[0..] == accounts;
        var j := 0;
        while j < |accounts|
          invariant 0 <= j <= |accounts|
          invariant MergeAll(merged, accounts[j..] + AccountsOf(db, rows[i + 1..])) == MergeAll([], AccountsOf(db, rows))
        {
          MergeAllStep(merged, accounts, AccountsOf(db, rows[i + 1..]), j);
          merged := MergeAccountInPlace(merged, accounts[j]);
          j := j + 1;
        }
        assert accounts[j..] + AccountsOf(db, rows[i + 1..]) == AccountsOf(db, rows[i + 1..]);
        i := i + 1;
      }
    }

    /** The body of the outer `forEach`, with the inner `forEach` over the incoming transactions. */
    method MergeAccountInPlace(merged: seq<Account>, account: Account) returns (r: seq<Account>)
      ensures r == MergeAccount(merged, account)
    {
      var idx := FindAccount(merged, account.accountName);
      if idx.None? {
        return merged + [account];
      }
      var target := merged[idx.value];
      var transactions := target.transactions;
      var t := 0;
      while t < |account.transactions|
        invariant 0 <= t <= |account.transactions|
        invariant AddMissing(transactions, account.transactions[t..]) == AddMissing(target.transactions, account.transactions)
      {
        var tr := account.transactions[t];
        assert account.transactions[t..][1..] == account.transactions[t + 1..];
        if tr.uniqId !in Ids(transactions) {
          transactions := transactions + [tr];
        }
        t := t + 1;
      }
      r := merged[idx.value := target.(transactions := transactions)];
    }

    /* ---------- bulk category rewrites ---------- */

    /** `updateCategoryAndExpensesIconName`. */
    method UpdateCategoryAndExpensesIconName(categoryName: string, iconName: string)
      modifies this
      requires Valid()
      ensures Valid() && db == RewriteStore(old(db), SetIcon(categoryName, iconName))
    {
      RewriteAllMonths(SetIcon(categoryName, iconName));
    }

    /** `updateCategoryColor`. */
    method UpdateCategoryColor(categoryName: string, newColor: string)
      modifies this
      requires Valid()
      ensures Valid() && db == RewriteStore(old(db), SetColor(categoryName, newColor))
    {
      RewriteAllMonths(SetColor(categoryName, newColor));
    }

    /** `updateCategoryName`. */
    method UpdateCategoryName(categoryName: string, newCategoryName: string)
      modifies this
      requires Valid()
      ensures Valid() && db == RewriteStore(old(db), SetName(categoryName, newCategoryName))
    {
      RewriteAllMonths(SetName(categoryName, newCategoryName));
    }

    /**
     * The loop the three rewrites share: every month is copied, rewritten when
     * it holds the category, pushed onto the new documents, and the new
     * documents are written back in bulk.
     */
    method RewriteAllMonths(rw: Rewrite)
      modifies this
      requires Valid()
      ensures Valid() && db == RewriteStore(old(db), rw)
    {
      var rows := AllDocsDescending();
      var newDocs := RewrittenDocs(rows, rw);
      KeysDescendingSorted(db.Keys);
      BulkRewriteWrites(db, rows, newDocs, rw);
      BulkDocs(newDocs);
    }

    /** The `forEach` that pushes the rewritten copy of every month onto the new documents. */
    method RewrittenDocs(rows: seq<MonthKey>, rw: Rewrite) returns (newDocs: seq<MonthOverView>)
      requires forall k :: k in rows ==> k in db
      ensures |newDocs| == |rows|
      ensures forall j :: 0 <= j < |rows| ==> newDocs[j] == RewriteMonth(db[rows[j]], rw)
    {
      newDocs := [];
      var i := 0;
      while i < |rows|
        invariant 0 <= i <= |rows| && |newDocs| == i
        invariant forall j :: 0 <= j < i ==> newDocs[j] == RewriteMonth(db[rows[j]], rw)
      {
        var mo := RewriteMonthObject(db[rows[i]], rw);
        newDocs := newDocs + [mo];
        i := i + 1;
      }
    }

    /** One month of a rewrite: the category `getCategoryByName` finds, when there is one. */
    method RewriteMonthObject(mo: MonthOverView, rw: Rewrite) returns (r: MonthOverView)
      ensures r == RewriteMonth(mo, rw)
    {
      r := mo;
      var c := FindCategory(mo.categories, rw.categoryName);
      if c.None? {
        return;
      }
      var category := mo.categories[c.value];
      match rw {
        case SetIcon(_, icon) =>
          category := category.(iconName := icon);
          var expenses := category.expenses;
          var j := 0;
          while j < |expenses|
            invariant 0 <= j <= |expenses| == |category.expenses|
            invariant forall t :: 0 <= t < j ==> expenses[t] == category.expenses[t].(iconName := icon)
            invariant forall t :: j <= t < |expenses| ==> expenses[t] == category.expenses[t]
          {
            expenses := expenses[j := expenses[j].(iconName := icon)];
            j := j + 1;
          }
          assert expenses == ExpensesWithIcon(mo.categories[c.value].expenses, icon);
          category := category.(expenses := expenses);
        case SetColor(_, color) =>
          category := category.(categoryColor := color);
        case SetName(_, newName) =>
          category := category.(categoryName := newName);
      }
      r := mo.(categories := mo.categories[c.value := category]);
    }

    /** `bulkDocs`: the documents put in turn. */
    method BulkDocs(docs: seq<MonthOverView>)
      modifies this
      requires Valid()
      ensures Valid() && db == PutAll(old(db), docs)
    {
      var i := 0;
      while i < |docs|
        invariant 0 <= i <= |docs|
        invariant Valid() && db == PutAll(old(db), docs[..i])
      {
        assert docs[..i + 1][..i] == docs[..i];
        db := Put(db, docs[i]);
        i := i + 1;
      }
      assert docs[..i] == docs;
    }
  }

  lemma AccountsOfStep(db: Store, rows: seq<MonthKey>, i: nat)
    requires i < |rows| && forall k :: k in rows ==> k in db
    ensures AccountsOf(db, rows[i..]) == db[rows[i]].accounts + AccountsOf(db, rows[i + 1..])
  {
    assert rows[i..][1..] == rows[i + 1..];
  }

  lemma MergeAllStep(merged: seq<Account>, accs: seq<Account>, rest: seq<Account>, j: nat)
    requires j < |accs|
    ensures MergeAll(merged, accs[j..] + rest) == MergeAll(MergeAccount(merged, accs[j]), accs[j + 1..] + rest)
  {
    assert (accs[j..] + rest)[1..] == accs[j + 1..] + rest;
  }

  /** `KeysDescending` starts with the latest key. */
  lemma KeysDescendingStep(s: set<MonthKey>, k: MonthKey)
    requires IsLatest(s, k)
    ensures KeysDescending(s) == [k] + KeysDescending(s - {k})
  {
    IndexInjective(k, Latest(s));
  }

  /** One step of the loop of `AllDocsDescending`: the latest remaining key moves to the end of the keys read. */
  lemma DescendingLoopStep(keys: seq<MonthKey>, remaining: set<MonthKey>, k: MonthKey, all: seq<MonthKey>)
    requires keys + KeysDescending(remaining) == all
    requires IsLatest(remaining, k)
    ensures (keys + [k]) + KeysDescending(remaining - {k}) == all
  {
    KeysDescendingStep(remaining, k);
    var rest := KeysDescending(remaining - {k});
    assert keys + ([k] + rest) == (keys + [k]) + rest;
  }

  /** Writing back the rewritten copy of every month read, once each, is the rewritten store. */
  lemma BulkRewriteWrites(db: Store, rows: seq<MonthKey>, newDocs: seq<MonthOverView>, rw: Rewrite)
    requires WellKeyed(db) && forall k :: k in rows <==> k in db
    requires forall i, j :: 0 <= i < j < |rows| ==> rows[i] != rows[j]
    requires |newDocs| == |rows| && forall j :: 0 <= j < |rows| ==> newDocs[j] == RewriteMonth(db[rows[j]], rw)
    ensures PutAll(db, newDocs) == RewriteStore(db, rw)
  {
    RewrittenIds(db, rows, newDocs, rw);
    PutAllOver(db, rows, newDocs, RewriteStore(db, rw));
  }

  /** The rewritten copies keep the keys they were read under. */
  lemma RewrittenIds(db: Store, rows: seq<MonthKey>, newDocs: seq<MonthOverView>, rw: Rewrite)
    requires WellKeyed(db) && forall k :: k in rows ==> k in db
    requires forall i, j :: 0 <= i < j < |rows| ==> rows[i] != rows[j]
    requires |newDocs| == |rows| && forall j :: 0 <= j < |rows| ==> newDocs[j] == RewriteMonth(db[rows[j]], rw)
    ensures forall j :: 0 <= j < |rows| ==> newDocs[j].id == rows[j]
    ensures forall i, j :: 0 <= i < j < |newDocs| ==> newDocs[i].id != newDocs[j].id
  {
    forall j | 0 <= j < |rows| ensures newDocs[j].id == rows[j] {
      RewriteFrame(db[rows[j]], rw);
    }
  }
}
