/**
 * The account history `getAllAccounts` builds: every account of every month,
 * latest month first, merged by name. The first account met under a name is
 * copied with its balances; a later one only contributes the transactions
 * whose unique id the merged account does not hold yet.
 */
module History {
  import opened Wrappers
  import opened MonthKeys
  import opened Models
  import opened Store

  /* ---------- transactions by unique id ---------- */

  function Ids(ts: seq<Transaction>): set<string> {
    set t | t in ts :: t.uniqId
  }

  ghost predicate UniqueIds(ts: seq<Transaction>) {
    forall i, j :: 0 <= i < j < |ts| ==> ts[i].uniqId != ts[j].uniqId
  }

  /**
   * The inner `forEach`: each incoming transaction is appended unless a
   * transaction with its id is already in the list, which grows as it goes.
   */
  function AddMissing(ts: seq<Transaction>, incoming: seq<Transaction>): seq<Transaction>
    decreases |incoming|
  {
    if incoming == [] then ts
    else AddMissing(if incoming[0].uniqId in Ids(ts) then ts else ts + [incoming[0]], incoming[1..])
  }

  /**
   * De-duplication by id: the ids after merging are those of both lists, the
   * list merged into is kept as a prefix, and a list without repeated ids
   * stays without, whatever the incoming list repeats.
   */
  lemma {:induction false} AddMissingFacts(ts: seq<Transaction>, incoming: seq<Transaction>)
    ensures Ids(AddMissing(ts, incoming)) == Ids(ts) + Ids(incoming)
    ensures |ts| <= |AddMissing(ts, incoming)| && AddMissing(ts, incoming)[..|ts|] == ts
    ensures UniqueIds(ts) ==> UniqueIds(AddMissing(ts, incoming))
    decreases |incoming|
  {
    if incoming != [] {
      var x := incoming[0];
      var ts' := if x.uniqId in Ids(ts) then ts else ts + [x];
      assert Ids(ts') == Ids(ts) + {x.uniqId} by {
        if x.uniqId !in Ids(ts) {
          assert x in ts';
          assert forall t :: t in ts' <==> t in ts || t == x;
        }
      }
      assert incoming == [x] + incoming[1..];
      assert Ids(incoming) == {x.uniqId} + Ids(incoming[1..]) by {
        assert forall t :: t in incoming <==> t == x || t in incoming[1..];
      }
      AddMissingFacts(ts', incoming[1..]);
      assert ts'[..|ts|] == ts;
      if UniqueIds(ts) && x.uniqId !in Ids(ts) {
        forall i, j | 0 <= i < j < |ts'|
          ensures ts'[i].uniqId != ts'[j].uniqId
        {
          if j == |ts| {
            assert ts[i] in ts;
          }
        }
      }
    }
  }

  /** Two lists that share a transaction id yield it once, and keep every id of both. */
  lemma SharedIdOnce(ts: seq<Transaction>, incoming: seq<Transaction>, id: string)
    requires UniqueIds(ts) && id in Ids(ts) && id in Ids(incoming)
    ensures UniqueIds(AddMissing(ts, incoming)) && id in Ids(AddMissing(ts, incoming))
    ensures |set i | 0 <= i < |AddMissing(ts, incoming)| && AddMissing(ts, incoming)[i].uniqId == id| == 1
  {
    AddMissingFacts(ts, incoming);
    var r := AddMissing(ts, incoming);
    var t :| t in r && t.uniqId == id;
    var i0 :| 0 <= i0 < |r| && r[i0] == t;
    var s := set i | 0 <= i < |r| && r[i].uniqId == id;
    forall i | 0 <= i < |r| && i != i0
      ensures r[i].uniqId != id
    {
      if i < i0 {
        assert r[i].uniqId != r[i0].uniqId;
      } else {
        assert r[i0].uniqId != r[i].uniqId;
      }
    }
    assert s == {i0};
  }

  /* ---------- accounts by name ---------- */

  function Names(accs: seq<Account>): set<string> {
    set a | a in accs :: a.accountName
  }

  ghost predicate UniqueNames(accs: seq<Account>) {
    forall i, j :: 0 <= i < j < |accs| ==> accs[i].accountName != accs[j].accountName
  }

  lemma NamesCons(accs: seq<Account>)
    requires accs != []
    ensures Names(accs) == {accs[0].accountName} + Names(accs[1..])
  {
    assert forall b :: b in accs <==> b == accs[0] || b in accs[1..];
  }

  /** An account without its transactions: owner, name and both balances. */
  function Summary(a: Account): Account {
    a.(transactions := [])
  }

  lemma HasAccountNames(accs: seq<Account>, n: string)
    ensures FindAccount(accs, n).Some? <==> n in Names(accs)
  {
    if n in Names(accs) {
      var a :| a in accs && a.accountName == n;
      var i :| 0 <= i < |accs| && accs[i] == a;
    }
  }

  /**
   * One step of the outer `forEach`: an account under a new name is appended
   * as a copy; under a known name, the merged account gains the incoming
   * transactions whose ids it lacks.
   */
  function MergeAccount(merged: seq<Account>, acc: Account): seq<Account> {
    match FindAccount(merged, acc.accountName)
    case None => merged + [acc]
    case Some(j) => merged[j := merged[j].(transactions := AddMissing(merged[j].transactions, acc.transactions))]
  }

  /** The outer `forEach` over a list of accounts. */
  function MergeAll(merged: seq<Account>, accs: seq<Account>): seq<Account>
    decreases |accs|
  {
    if accs == [] then merged else MergeAll(MergeAccount(merged, accs[0]), accs[1..])
  }

  /** The transaction ids of every account under name `n`. */
  function IdsNamed(accs: seq<Account>, n: string): set<string>
    decreases |accs|
  {
    if accs == [] then {}
    else (if accs[0].accountName == n then Ids(accs[0].transactions) else {}) + IdsNamed(accs[1..], n)
  }

  /** Accounts met for the first time under their name in `accs`, after `merged`. */
  ghost predicate FirstsUnique(merged: seq<Account>, accs: seq<Account>) {
    forall i :: 0 <= i < |accs| && accs[i].accountName !in Names(merged) && FindAccount(accs, accs[i].accountName) == Some(i) ==>
      UniqueIds(accs[i].transactions)
  }

  ghost predicate AllUniqueIds(accs: seq<Account>) {
    forall i :: 0 <= i < |accs| ==> UniqueIds(accs[i].transactions)
  }

  /**
   * One merge step: the names grow by the incoming name, names stay unique,
   * the merged accounts keep their position, name and balances, and the
   * transaction ids under a name grow by the incoming account's.
   */
  lemma MergeAccountFacts(merged: seq<Account>, acc: Account)
    ensures var r := MergeAccount(merged, acc);
      && Names(r) == Names(merged) + {acc.accountName}
      && |merged| <= |r|
      && (forall j :: 0 <= j < |merged| ==> Summary(r[j]) == Summary(merged[j]))
      && (acc.accountName !in Names(merged) ==> r == merged + [acc])
      && (UniqueNames(merged) ==> UniqueNames(r))
      && (AllUniqueIds(merged) && (acc.accountName !in Names(merged) ==> UniqueIds(acc.transactions)) ==> AllUniqueIds(r))
  {
    HasAccountNames(merged, acc.accountName);
    var r := MergeAccount(merged, acc);
    match FindAccount(merged, acc.accountName)
    case None =>
      assert forall a :: a in r <==> a in merged || a == acc;
    case Some(j) =>
      AddMissingFacts(merged[j].transactions, acc.transactions);
      NamesPointwise(merged, r);
  }

  /** Lists holding the same names position by position hold the same set of names. */
  lemma NamesPointwise(s: seq<Account>, t: seq<Account>)
    requires |s| == |t| && forall k :: 0 <= k < |s| ==> s[k].accountName == t[k].accountName
    ensures Names(s) == Names(t)
  {
    forall x | x in Names(t) ensures x in Names(s) {
      var a :| a in t && a.accountName == x;
      var k :| 0 <= k < |t| && t[k] == a;
      assert s[k] in s;
    }
    forall x | x in Names(s) ensures x in Names(t) {
      var a :| a in s && a.accountName == x;
      var k :| 0 <= k < |s| && s[k] == a;
      assert t[k] in t;
    }
  }

  /** The first account under name `n`. */
  function At(accs: seq<Account>, n: string): (a: Account)
    requires FindAccount(accs, n).Some?
    ensures a in accs && a.accountName == n
  {
    accs[FindAccount(accs, n).value]
  }

  /** `FindAccount` is the first position holding the name. */
  lemma FindAccountAt(accs: seq<Account>, n: string, i: nat)
    requires i < |accs| && accs[i].accountName == n
    requires forall j :: 0 <= j < i ==> accs[j].accountName != n
    ensures FindAccount(accs, n) == Some(i)
  {
  }

  lemma {:induction false} IdsNamedAppend(s: seq<Account>, t: seq<Account>, n: string)
    ensures IdsNamed(s + t, n) == IdsNamed(s, n) + IdsNamed(t, n)
    decreases |s|
  {
    if s != [] {
      assert (s + t)[1..] == s[1..] + t;
      IdsNamedAppend(s[1..], t, n);
    } else {
      assert s + t == t;
    }
  }

  lemma {:induction false} IdsNamedContains(s: seq<Account>, j: nat, n: string)
    requires j < |s| && s[j].accountName == n
    ensures Ids(s[j].transactions) <= IdsNamed(s, n)
    decreases |s|
  {
    if j > 0 {
      IdsNamedContains(s[1..], j - 1, n);
    }
  }

  /** Replacing an account by one under the same name holding at least its ids. */
  lemma {:induction false} IdsNamedUpdate(s: seq<Account>, j: nat, x: Account, n: string)
    requires j < |s| && x.accountName == s[j].accountName
    requires Ids(s[j].transactions) <= Ids(x.transactions)
    ensures IdsNamed(s[j := x], n) == IdsNamed(s, n) + (if x.accountName == n then Ids(x.transactions) else {})
    decreases |s|
  {
    if j == 0 {
      assert s[j := x][1..] == s[1..];
    } else {
      assert s[j := x][1..] == s[1..][j - 1 := x];
      IdsNamedUpdate(s[1..], j - 1, x, n);
    }
  }

  /** Under unique names, the ids under a name are those of its one account. */
  lemma {:induction false} IdsNamedUnique(s: seq<Account>, n: string)
    requires UniqueNames(s) && FindAccount(s, n).Some?
    ensures IdsNamed(s, n) == Ids(At(s, n).transactions)
    decreases |s|
  {
    if s[0].accountName == n {
      assert IdsNamed(s[1..], n) == {} by {
        forall j | 0 <= j < |s[1..]| ensures s[1..][j].accountName != n {
          assert s[0].accountName != s[j + 1].accountName;
        }
        IdsNamedAbsent(s[1..], n);
      }
    } else {
      assert UniqueNames(s[1..]) by {
        forall i, j | 0 <= i < j < |s[1..]| ensures s[1..][i].accountName != s[1..][j].accountName {
          assert s[i + 1].accountName != s[j + 1].accountName;
        }
      }
      IdsNamedUnique(s[1..], n);
    }
  }

  lemma {:induction false} IdsNamedAbsent(s: seq<Account>, n: string)
    requires forall j :: 0 <= j < |s| ==> s[j].accountName != n
    ensures IdsNamed(s, n) == {}
    decreases |s|
  {
    if s != [] {
      IdsNamedAbsent(s[1..], n);
    }
  }

  /**
   * Merging a whole list: names are the union, unique names stay unique, and
   * the accounts merged into keep their position and balances.
   */
  lemma MergeAllFacts(merged: seq<Account>, accs: seq<Account>)
    ensures var r := MergeAll(merged, accs);
      && Names(r) == Names(merged) + Names(accs)
      && |merged| <= |r|
      && (forall j :: 0 <= j < |merged| ==> Summary(r[j]) == Summary(merged[j]))
      && (UniqueNames(merged) ==> UniqueNames(r))
  {
    MergeAllNames(merged, accs);
    MergeAllKeeps(merged, accs);
  }

  /** The names after merging a list: those of both lists. */
  lemma {:induction false} MergeAllNames(merged: seq<Account>, accs: seq<Account>)
    ensures Names(MergeAll(merged, accs)) == Names(merged) + Names(accs)
    decreases |accs|
  {
    if accs != [] {
      var a, rest := accs[0], accs[1..];
      MergeAccountFacts(merged, a);
      MergeAllNames(MergeAccount(merged, a), rest);
      NamesCons(accs);
    }
  }

  /** Merging a list keeps the accounts merged into, in place and with their balances, and keeps names unique. */
  lemma {:induction false} MergeAllKeeps(merged: seq<Account>, accs: seq<Account>)
    ensures var r := MergeAll(merged, accs);
      && |merged| <= |r|
      && (forall j :: 0 <= j < |merged| ==> Summary(r[j]) == Summary(merged[j]))
      && (UniqueNames(merged) ==> UniqueNames(r))
    decreases |accs|
  {
    if accs != [] {
      MergeAccountFacts(merged, accs[0]);
      MergeAllKeeps(MergeAccount(merged, accs[0]), accs[1..]);
    }
  }

  /**
   * No transaction id is repeated in any merged account, provided none is in
   * the accounts merged into and in each account met first under its name.
   */
  lemma {:induction false} MergeAllUniqueIds(merged: seq<Account>, accs: seq<Account>)
    requires AllUniqueIds(merged) && FirstsUnique(merged, accs)
    ensures AllUniqueIds(MergeAll(merged, accs))
    decreases |accs|
  {
    if accs != [] {
      var a, rest := accs[0], accs[1..];
      var m' := MergeAccount(merged, a);
      MergeAccountFacts(merged, a);
      FirstsUniqueTail(merged, m', accs);
      MergeAllUniqueIds(m', rest);
    }
  }

  /** The first account of the list, then the rest against the names grown by its name. */
  lemma FirstsUniqueTail(merged: seq<Account>, m': seq<Account>, accs: seq<Account>)
    requires accs != [] && FirstsUnique(merged, accs)
    requires Names(m') == Names(merged) + {accs[0].accountName}
    ensures accs[0].accountName !in Names(merged) ==> UniqueIds(accs[0].transactions)
    ensures FirstsUnique(m', accs[1..])
  {
    if accs[0].accountName !in Names(merged) {
      FindAccountAt(accs, accs[0].accountName, 0);
    }
    var rest := accs[1..];
    forall i | 0 <= i < |rest| && rest[i].accountName !in Names(m') && FindAccount(rest, rest[i].accountName) == Some(i)
      ensures UniqueIds(rest[i].transactions)
    {
      FindAccountAt(accs, rest[i].accountName, i + 1);
    }
  }

  /** The transaction ids under each name after merging: those of both lists. */
  lemma {:induction false} MergeAllIds(merged: seq<Account>, accs: seq<Account>, n: string)
    ensures IdsNamed(MergeAll(merged, accs), n) == IdsNamed(merged, n) + IdsNamed(accs, n)
    decreases |accs|
  {
    if accs != [] {
      var a, rest := accs[0], accs[1..];
      var m' := MergeAccount(merged, a);
      MergeAllIds(m', rest, n);
      match FindAccount(merged, a.accountName)
      case None =>
        IdsNamedAppend(merged, [a], n);
      case Some(j) =>
        AddMissingFacts(merged[j].transactions, a.transactions);
        IdsNamedUpdate(merged, j, merged[j].(transactions := AddMissing(merged[j].transactions, a.transactions)), n);
        if a.accountName == n {
          IdsNamedContains(merged, j, n);
        }
    }
  }

  /**
   * The first account under a name after merging: the one merged into when
   * the name was already there, else the first one under that name in the list.
   */
  lemma {:induction false} MergeAllFirst(merged: seq<Account>, accs: seq<Account>, n: string)
    requires FindAccount(merged, n).Some? || FindAccount(accs, n).Some?
    ensures FindAccount(MergeAll(merged, accs), n).Some?
    ensures Summary(At(MergeAll(merged, accs), n)) ==
      if FindAccount(merged, n).Some? then Summary(At(merged, n)) else Summary(At(accs, n))
    decreases |accs|
  {
    if FindAccount(merged, n).Some? {
      var r := MergeAll(merged, accs);
      MergeAllKeeps(merged, accs);
      var i := FindAccount(merged, n).value;
      assert Summary(r[i]) == Summary(merged[i]);
      forall j | 0 <= j < i ensures r[j].accountName != n {
        assert Summary(r[j]) == Summary(merged[j]);
      }
      FindAccountAt(r, n, i);
    } else {
      var a, rest := accs[0], accs[1..];
      var m' := MergeAccount(merged, a);
      MergeAccountFacts(merged, a);
      HasAccountNames(merged, a.accountName);
      if a.accountName == n {
        FindAccountAt(m', n, |merged|);
        MergeAllFirst(m', rest, n);
      } else {
        HasAccountNames(merged, n);
        HasAccountNames(m', n);
        MergeAllFirst(m', rest, n);
      }
    }
  }

  /* ---------- the store read latest month first ---------- */

  /** `k` is the latest month of `s`. */
  predicate IsLatest(s: set<MonthKey>, k: MonthKey) {
    k in s && forall k' :: k' in s ==> Index(k') <= Index(k)
  }

  lemma {:induction false} LatestExists(s: set<MonthKey>)
    requires s != {}
    ensures exists k :: IsLatest(s, k)
    decreases |s|
  {
    var x :| x in s;
    if s != {x} {
      LatestExists(s - {x});
      var k :| IsLatest(s - {x}, k);
      if Index(k) < Index(x) {
        assert IsLatest(s, x);
      } else {
        assert IsLatest(s, k);
      }
    } else {
      assert IsLatest(s, x);
    }
  }

  /** The latest month of a non-empty set of keys. */
  ghost function Latest(s: set<MonthKey>): (k: MonthKey)
    requires s != {}
    ensures IsLatest(s, k)
  {
    LatestExists(s);
    var k :| IsLatest(s, k);
    k
  }

  /** `allDocs({descending: true})`: the keys, latest month first. */
  ghost function KeysDescending(s: set<MonthKey>): (ks: seq<MonthKey>)
    ensures forall k :: k in ks <==> k in s
    decreases |s|
  {
    if s == {} then []
    else
      var k := Latest(s);
      [k] + KeysDescending(s - {k})
  }

  /** Keys strictly latest first. */
  ghost predicate Descending(ks: seq<MonthKey>) {
    forall i, j :: 0 <= i < j < |ks| ==> Index(ks[j]) < Index(ks[i])
  }

  /** The keys come strictly latest first, so none is read twice. */
  lemma {:induction false} KeysDescendingSorted(s: set<MonthKey>)
    ensures Descending(KeysDescending(s))
    decreases |s|
  {
    if s != {} {
      var k := Latest(s);
      var rest := KeysDescending(s - {k});
      KeysDescendingSorted(s - {k});
      forall j | 0 <= j < |rest| ensures Index(rest[j]) < Index(k) {
        assert rest[j] in s - {k};
        IndexDistinct(rest[j], k);
      }
      DescendingCons(k, rest);
    }
  }

  lemma DescendingCons(k: MonthKey, rest: seq<MonthKey>)
    requires Descending(rest) && forall j :: 0 <= j < |rest| ==> Index(rest[j]) < Index(k)
    ensures Descending([k] + rest)
  {
    var ks := [k] + rest;
    forall i, j | 0 <= i < j < |ks| ensures Index(ks[j]) < Index(ks[i]) {
      assert ks[j] == rest[j - 1];
      if i > 0 {
        assert ks[i] == rest[i - 1];
      }
    }
  }

  /** The accounts of the months `ks`, in that order. */
  ghost function AccountsOf(db: Store, ks: seq<MonthKey>): seq<Account>
    requires forall k :: k in ks ==> k in db
    decreases |ks|
  {
    if ks == [] then [] else db[ks[0]].accounts + AccountsOf(db, ks[1..])
  }

  /** Every account of every month, latest month first. */
  ghost function HistoryOf(db: Store): seq<Account> {
    AccountsOf(db, KeysDescending(db.Keys))
  }

  /** The union, over the months `ks`, of the ids under name `n`. */
  lemma {:induction false} AccountsOfIds(db: Store, ks: seq<MonthKey>, n: string)
    requires forall k :: k in ks ==> k in db
    ensures forall id :: id in IdsNamed(AccountsOf(db, ks), n) <==>
      exists k :: k in ks && id in IdsNamed(db[k].accounts, n)
    decreases |ks|
  {
    if ks != [] {
      AccountsOfIds(db, ks[1..], n);
      IdsNamedAppend(db[ks[0]].accounts, AccountsOf(db, ks[1..]), n);
      assert forall k :: k in ks <==> k == ks[0] || k in ks[1..];
    }
  }

  lemma {:induction false} AccountsOfNames(db: Store, ks: seq<MonthKey>, n: string)
    requires forall k :: k in ks ==> k in db
    ensures n in Names(AccountsOf(db, ks)) <==> exists k :: k in ks && n in Names(db[k].accounts)
    decreases |ks|
  {
    if ks != [] {
      AccountsOfNames(db, ks[1..], n);
      var s, t := db[ks[0]].accounts, AccountsOf(db, ks[1..]);
      assert forall a :: a in s + t <==> a in s || a in t;
      assert Names(s + t) == Names(s) + Names(t);
      assert forall k :: k in ks <==> k == ks[0] || k in ks[1..];
    }
  }

  lemma {:induction false} AccountsOfUniqueIds(db: Store, ks: seq<MonthKey>)
    requires forall k :: k in ks ==> k in db && AllUniqueIds(db[k].accounts)
    ensures AllUniqueIds(AccountsOf(db, ks))
    decreases |ks|
  {
    if ks != [] {
      AccountsOfUniqueIds(db, ks[1..]);
      var s: seq<Account>, t: seq<Account> := db[ks[0]].accounts, AccountsOf(db, ks[1..]);
      forall i | 0 <= i < |s + t| ensures UniqueIds((s + t)[i].transactions) {
        if i >= |s| {
          assert (s + t)[i] == t[i - |s|];
        }
      }
    }
  }

  /** The first account under a name, reading months in the order `ks`, is in the first month holding it. */
  lemma {:induction false} AccountsOfFirst(db: Store, ks: seq<MonthKey>, k: MonthKey, n: string)
    requires forall k' :: k' in ks ==> k' in db
    requires Descending(ks)
    requires k in ks && FindAccount(db[k].accounts, n).Some?
    requires forall k' :: k' in ks && Index(k) < Index(k') ==> FindAccount(db[k'].accounts, n).None?
    ensures FindAccount(AccountsOf(db, ks), n).Some?
    ensures At(AccountsOf(db, ks), n) == At(db[k].accounts, n)
    decreases |ks|
  {
    var s, t := db[ks[0]].accounts, AccountsOf(db, ks[1..]);
    if ks[0] == k {
      FirstInFront(s, t, n);
    } else {
      assert Index(k) < Index(ks[0]) by {
        var j :| 0 <= j < |ks| && ks[j] == k;
      }
      assert k in ks[1..];
      forall i, j | 0 <= i < j < |ks[1..]| ensures Index(ks[1..][j]) < Index(ks[1..][i]) {
        assert Index(ks[j + 1]) < Index(ks[i + 1]);
      }
      assert Descending(ks[1..]);
      AccountsOfFirst(db, ks[1..], k, n);
      FirstInBack(s, t, n);
    }
  }

  /** The first account under a name in `s + t`, when `s` holds the name. */
  lemma FirstInFront(s: seq<Account>, t: seq<Account>, n: string)
    requires FindAccount(s, n).Some?
    ensures FindAccount(s + t, n).Some? && At(s + t, n) == At(s, n)
  {
    var i := FindAccount(s, n).value;
    assert (s + t)[i] == s[i];
    FindAccountAt(s + t, n, i);
  }

  /** The first account under a name in `s + t`, when only `t` holds the name. */
  lemma FirstInBack(s: seq<Account>, t: seq<Account>, n: string)
    requires FindAccount(s, n).None? && FindAccount(t, n).Some?
    ensures FindAccount(s + t, n).Some? && At(s + t, n) == At(t, n)
  {
    var i := FindAccount(t, n).value;
    assert (s + t)[|s| + i] == t[i];
    forall x | 0 <= x < |s| + i ensures (s + t)[x].accountName != n {
      if x >= |s| {
        assert (s + t)[x] == t[x - |s|];
      }
    }
    FindAccountAt(s + t, n, |s| + i);
  }

  /** Month `k` holds an account under `n` and no later month does. */
  ghost predicate LatestHolder(db: Store, k: MonthKey, n: string) {
    && k in db && FindAccount(db[k].accounts, n).Some?
    && forall k' :: k' in db && Index(k) < Index(k') ==> FindAccount(db[k'].accounts, n).None?
  }

  /**
   * `getAllAccounts`, as a value: every account name of every month, once;
   * under each name the owner and balances of the latest month holding it;
   * and every transaction id recorded under that name in any month, each
   * once when no month repeats an id within one account.
   */
  lemma HistoryFacts(db: Store)
    ensures var r := MergeAll([], HistoryOf(db));
      && UniqueNames(r)
      && (forall n :: n in Names(r) <==> exists k :: k in db && n in Names(db[k].accounts))
      && (forall n, id :: FindAccount(r, n).Some? ==>
            (id in Ids(At(r, n).transactions) <==> exists k :: k in db && id in IdsNamed(db[k].accounts, n)))
      && (forall n, k :: LatestHolder(db, k, n) ==>
            FindAccount(r, n).Some? && Summary(At(r, n)) == Summary(At(db[k].accounts, n)))
      && ((forall k :: k in db ==> AllUniqueIds(db[k].accounts)) ==> AllUniqueIds(r))
  {
    var ks := KeysDescending(db.Keys);
    KeysDescendingSorted(db.Keys);
    var h := HistoryOf(db);
    var r := MergeAll([], h);
    MergeAllFacts([], h);
    assert Names([]) == {};
    forall n ensures n in Names(r) <==> exists k :: k in db && n in Names(db[k].accounts) {
      AccountsOfNames(db, ks, n);
    }
    forall n, id | FindAccount(r, n).Some?
      ensures id in Ids(At(r, n).transactions) <==> exists k :: k in db && id in IdsNamed(db[k].accounts, n)
    {
      MergeAllIds([], h, n);
      IdsNamedUnique(r, n);
      AccountsOfIds(db, ks, n);
    }
    forall n, k | LatestHolder(db, k, n)
      ensures FindAccount(r, n).Some? && Summary(At(r, n)) == Summary(At(db[k].accounts, n))
    {
      AccountsOfFirst(db, ks, k, n);
      MergeAllFirst([], h, n);
    }
    if forall k :: k in db ==> AllUniqueIds(db[k].accounts) {
      AccountsOfUniqueIds(db, ks);
      MergeAllUniqueIds([], h);
    }
  }
}
