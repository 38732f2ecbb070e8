/**
 * The bulk category rewrites: every month holding a category under the given
 * name has that category (the first one under the name) recoloured, renamed,
 * or given a new icon together with all of its expenses. Nothing else in any
 * month changes.
 */
module CategoryRewrites {
  import opened Wrappers
  import opened MonthKeys
  import opened Models
  import opened Store
  import opened PropagationFacts

  /** The three rewrites, each naming the category it applies to. */
  datatype Rewrite =
    | SetIcon(categoryName: string, iconName: string)
    | SetColor(categoryName: string, color: string)
    | SetName(categoryName: string, newName: string)

  /** `expenses.forEach(e => e.setIconName(icon))`. */
  function ExpensesWithIcon(es: seq<Expense>, icon: string): (r: seq<Expense>)
    ensures |r| == |es|
    ensures forall i :: 0 <= i < |es| ==> r[i] == es[i].(iconName := icon)
  {
    seq(|es|, i requires 0 <= i < |es| => es[i].(iconName := icon))
  }

  /** The rewrite of one category. */
  function RewriteCategory(c: Category, rw: Rewrite): Category {
    match rw
    case SetIcon(_, icon) => c.(iconName := icon, expenses := ExpensesWithIcon(c.expenses, icon))
    case SetColor(_, color) => c.(categoryColor := color)
    case SetName(_, newName) => c.(categoryName := newName)
  }

  /** One month: the category `getCategoryByName` finds is rewritten, when there is one. */
  function RewriteMonth(mo: MonthOverView, rw: Rewrite): MonthOverView {
    match FindCategory(mo.categories, rw.categoryName)
    case None => mo
    case Some(i) => mo.(categories := mo.categories[i := RewriteCategory(mo.categories[i], rw)])
  }

  /** The whole store after the rewrite of every month and the bulk write-back. */
  function RewriteStore(db: Store, rw: Rewrite): (r: Store)
    ensures r.Keys == db.Keys
  {
    map k | k in db :: RewriteMonth(db[k], rw)
  }

  /**
   * Only the first category under the name changes, in place: the id, the
   * accounts, the used tags and every other category stay, and a month
   * without the category is untouched.
   */
  lemma RewriteFrame(mo: MonthOverView, rw: Rewrite)
    ensures var r := RewriteMonth(mo, rw);
      && r.id == mo.id && r.accounts == mo.accounts && r.usedTags == mo.usedTags
      && |r.categories| == |mo.categories|
      && (!ContainsCategory(mo, rw.categoryName) ==> r == mo)
      && (ContainsCategory(mo, rw.categoryName) ==>
            var i := FindCategory(mo.categories, rw.categoryName).value;
            && r.categories[i] == RewriteCategory(mo.categories[i], rw)
            && forall j :: 0 <= j < |mo.categories| && j != i ==> r.categories[j] == mo.categories[j])
  {
  }

  /**
   * What each rewrite does to the category: the new colour, the new name, or
   * the new icon on the category and on each of its expenses; every other
   * field of the category, and everything but the icon of every expense, stay.
   */
  lemma RewriteCategoryEffect(c: Category, rw: Rewrite)
    ensures var c' := RewriteCategory(c, rw);
      && c'.budget == c.budget && |c'.expenses| == |c.expenses|
      && (forall j :: 0 <= j < |c.expenses| ==> c'.expenses[j].(iconName := c.expenses[j].iconName) == c.expenses[j])
      && (rw.SetIcon? ==> c' == c.(iconName := rw.iconName, expenses := c'.expenses))
      && (rw.SetIcon? ==> c'.iconName == rw.iconName && forall e :: e in c'.expenses ==> e.iconName == rw.iconName)
      && (rw.SetColor? ==> c' == c.(categoryColor := rw.color))
      && (rw.SetName? ==> c' == c.(categoryName := rw.newName))
  {
  }

  /** Recolouring and re-iconing keep the names, so doing either twice is doing it once. */
  lemma RewriteIdempotent(mo: MonthOverView, rw: Rewrite)
    requires !rw.SetName?
    ensures RewriteMonth(RewriteMonth(mo, rw), rw) == RewriteMonth(mo, rw)
  {
    var r := RewriteMonth(mo, rw);
    if ContainsCategory(mo, rw.categoryName) {
      var i := FindCategory(mo.categories, rw.categoryName).value;
      var c := RewriteCategory(mo.categories[i], rw);
      assert SameCategoryNames(mo.categories, r.categories);
      FindCategorySameNames(mo.categories, r.categories, rw.categoryName);
      if rw.SetIcon? {
        assert ExpensesWithIcon(c.expenses, rw.iconName) == c.expenses;
      }
      assert RewriteCategory(c, rw) == c;
      assert r.categories[i := c] == r.categories;
    }
  }

  /**
   * Renaming to a name no category holds, then renaming back, gives the
   * month it started from.
   */
  lemma RenameBack(mo: MonthOverView, a: string, b: string)
    requires !ContainsCategory(mo, b)
    ensures RewriteMonth(RewriteMonth(mo, SetName(a, b)), SetName(b, a)) == mo
  {
    var r := RewriteMonth(mo, SetName(a, b));
    if ContainsCategory(mo, a) {
      var i := FindCategory(mo.categories, a).value;
      assert FindCategory(r.categories, b) == Some(i) by {
        FindCategoryFirst(r.categories, b, i);
      }
      assert r.categories[i := mo.categories[i]] == mo.categories;
    }
  }

  /** `FindCategory` is the first position holding the name. */
  lemma FindCategoryFirst(cats: seq<Category>, name: string, i: nat)
    requires i < |cats| && cats[i].categoryName == name
    requires forall j :: 0 <= j < i ==> cats[j].categoryName != name
    ensures FindCategory(cats, name) == Some(i)
  {
  }

  /**
   * The rewrites leave every account of every month as it was, so the ledger's
   * month-to-month balance links survive them.
   */
  lemma RewriteKeepsLinks(db: Store, rw: Rewrite, k: MonthKey)
    requires WellKeyed(db)
    ensures WellKeyed(RewriteStore(db, rw))
    ensures Linked(db, k) <==> Linked(RewriteStore(db, rw), k)
  {
    var r := RewriteStore(db, rw);
    forall k': MonthKey | k' in db ensures r[k'].accounts == db[k'].accounts && r[k'].id == db[k'].id {
      RewriteFrame(db[k'], rw);
    }
    if k in db && Next(k) in db {
      ChainedSameAccounts(db[k], db[Next(k)], r[k], r[Next(k)]);
    }
  }

  lemma ChainedSameAccounts(a: MonthOverView, b: MonthOverView, a': MonthOverView, b': MonthOverView)
    requires a.accounts == a'.accounts && b.accounts == b'.accounts
    ensures Chained(a, b) <==> Chained(a', b')
  {
    assert forall n :: HasAccount(a, n) == HasAccount(a', n) && HasAccount(b, n) == HasAccount(b', n);
  }
}
