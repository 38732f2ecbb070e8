/**
 * The document store as a map from month key to month snapshot, and what the
 * ledger does to it: the read-through creation of a missing month, recording
 * one operation into one month, and the forward propagation of its delta
 * through the later months up to and including the current one.
 *
 * These functions are the specifications the methods of `DbProvider` are
 * proved against. `Propagate` and `Service` follow the source as written;
 * `PropagateFixed` and `ServiceFixed` are the corrected forms (see
 * `PropagationFacts`).
 */
module Store {
  import opened Wrappers
  import opened MonthKeys
  import opened Models
  import opened Ledger

  /** The month snapshots, each under its `YYYY-MM` key. */
  type Store = map<MonthKey, MonthOverView>

  /**
   * Every snapshot is stored under its own id: the store's key is the
   * document's `_id`, so this holds of every store the ledger sees.
   */
  ghost predicate WellKeyed(db: Store) {
    forall k: MonthKey :: k in db ==> db[k].id == k
  }

  /** `db.put(doc)`: an unconditional overwrite of the entry under the document's id. */
  function Put(db: Store, mo: MonthOverView): (r: Store)
    ensures mo.id in r && r[mo.id] == mo
    ensures forall k: MonthKey :: k != mo.id ==> (k in r <==> k in db) && (k in db ==> r[k] == db[k])
  {
    db[mo.id := mo]
  }

  /** A put keeps every entry under its own id. */
  lemma PutWellKeyed(db: Store, mo: MonthOverView)
    requires WellKeyed(db)
    ensures WellKeyed(Put(db, mo))
  {
  }

  /**
   * `createNewMonthOverview(m)`: a plain get of the previous month (no
   * read-through); when it is stored, its rollover is put under `m` and
   * returned; when it is missing, the error is swallowed and nothing is written.
   */
  function CreateNew(db: Store, m: MonthKey): (r: (Store, Option<MonthOverView>))
    ensures r.1.Some? <==> Prev(m) in db
    ensures r.1.None? ==> r.0 == db
    ensures r.1.Some? ==> r.1.value.id == m && r.0 == Put(db, r.1.value)
  {
    if Prev(m) in db then
      var mo := Rollover(db[Prev(m)], m);
      (Put(db, mo), Some(mo))
    else (db, None)
  }

  /** `getMonthOverviewObject(m)`: the stored snapshot, or else `CreateNew`. */
  function ReadThrough(db: Store, m: MonthKey): (r: (Store, Option<MonthOverView>))
    ensures r.1.Some? <==> m in db || Prev(m) in db
    ensures m in db ==> r == (db, Some(db[m]))
    ensures r.1.Some? ==> r.1.value.id == m || m in db
  {
    if m in db then (db, Some(db[m])) else CreateNew(db, m)
  }

  /** `db.bulkDocs(docs)`: each document put in turn under its id. */
  function PutAll(db: Store, docs: seq<MonthOverView>): (r: Store)
    ensures forall k: MonthKey :: k in r <==> k in db || exists j :: 0 <= j < |docs| && docs[j].id == k
    decreases |docs|
  {
    if docs == [] then db else Put(PutAll(db, docs[..|docs| - 1]), docs[|docs| - 1])
  }

  /**
   * With distinct ids, every document ends up stored under its id and every
   * other entry is as it was.
   */
  lemma {:induction false} PutAllDistinct(db: Store, docs: seq<MonthOverView>)
    requires forall i, j :: 0 <= i < j < |docs| ==> docs[i].id != docs[j].id
    ensures forall j :: 0 <= j < |docs| ==> PutAll(db, docs)[docs[j].id] == docs[j]
    ensures forall k: MonthKey :: k in db && (forall j :: 0 <= j < |docs| ==> docs[j].id != k) ==> PutAll(db, docs)[k] == db[k]
    decreases |docs|
  {
    if docs != [] {
      var front := docs[..|docs| - 1];
      PutAllDistinct(db, front);
      forall j | 0 <= j < |docs| - 1 ensures PutAll(db, docs)[docs[j].id] == docs[j] {
        assert front[j] == docs[j];
        assert docs[j].id != docs[|docs| - 1].id;
      }
      forall k: MonthKey | k in db && (forall j :: 0 <= j < |docs| ==> docs[j].id != k)
        ensures PutAll(db, docs)[k] == db[k]
      {
        assert forall j :: 0 <= j < |front| ==> front[j].id != k;
        assert docs[|docs| - 1].id != k;
      }
    }
  }

  /**
   * Writing back one document for each stored key, under that key and once
   * per key, gives the store that holds exactly those documents.
   */
  lemma PutAllOver(db: Store, rows: seq<MonthKey>, docs: seq<MonthOverView>, target: Store)
    requires forall k :: k in rows <==> k in db
    requires forall i, j :: 0 <= i < j < |rows| ==> rows[i] != rows[j]
    requires target.Keys == db.Keys
    requires |docs| == |rows| && forall j :: 0 <= j < |rows| ==> docs[j].id == rows[j] && docs[j] == target[rows[j]]
    ensures PutAll(db, docs) == target
  {
    var r := PutAll(db, docs);
    PutAllDistinct(db, docs);
    forall k: MonthKey | k in db ensures r[k] == target[k] {
      var j :| 0 <= j < |rows| && rows[j] == k;
    }
  }

  /* ---------- one operation in one month ---------- */

  /** The three operations a user records into a month. */
  datatype Op =
    | ExpenseOp(categoryName: string, expense: Expense)
    | TransferOp(from: string, to: string, amount: int, date: Option<string>, idFrom: string, idTo: string)
    | ExternalOp(holder: string, receiver: string, amount: int, date: Option<string>, id: string)

  /** The single-month mutator an operation runs on the fetched snapshot. */
  function Mutate(mo: MonthOverView, op: Op): (r: Option<MonthOverView>)
    ensures r.Some? ==> r.value.id == mo.id
  {
    match op
    case ExpenseOp(c, e) => AddExpense(mo, c, e)
    case TransferOp(a, b, x, date, ia, ib) => Transfer(mo, a, b, x, date, ia, ib)
    case ExternalOp(h, b, x, date, i) => TransferFromExternal(mo, h, b, x, date, i)
  }

  /**
   * The delta the entry points hand to the propagators. `addExpenseToCategory`
   * passes no old account name.
   */
  function DeltaOf(op: Op): (d: Delta)
    ensures !HasOldAccount(d)
  {
    match op
    case ExpenseOp(_, e) => ExpenseDelta(e, None)
    case TransferOp(a, b, x, _, _, _) => TransferDelta(a, b, x)
    case ExternalOp(_, b, x, _, _) => ExternalDelta(b, x)
  }

  /**
   * Recording into month `m`: read-through, mutate the copy, put it back. A
   * missing snapshot, account or category aborts before the put; a month
   * created by the read-through stays written.
   */
  function Record(db: Store, m: MonthKey, op: Op): (r: Store)
    requires WellKeyed(db)
    ensures WellKeyed(r)
    ensures forall k: MonthKey :: k != m ==> (k in r <==> k in db) && (k in db ==> r[k] == db[k])
  {
    var (db1, mo) := ReadThrough(db, m);
    if mo.None? then db1
    else match Mutate(mo.value, op)
      case None => db1
      case Some(v) => Put(db1, v)
  }

  /* ---------- forward propagation ---------- */

  /**
   * The `updateBalanceInFollowingMonths*` loops as written, from month `cur`
   * until the key equals `stop`: read-through (which may create the month by
   * rollover), apply the delta, put. A missing snapshot or account throws and
   * ends the walk; the months already visited stay written.
   */
  function Propagate(db: Store, cur: MonthKey, stop: MonthKey, d: Delta): (r: Store)
    requires WellKeyed(db) && Index(cur) <= Index(stop)
    ensures WellKeyed(r)
    ensures forall k: MonthKey :: !(Index(cur) <= Index(k) < Index(stop)) ==>
      (k in r <==> k in db) && (k in db ==> r[k] == db[k])
    decreases Index(stop) - Index(cur)
  {
    if cur == stop then db
    else
      IndexDistinct(cur, stop);
      var (db1, mo) := ReadThrough(db, cur);
      if mo.None? then db1
      else match ApplyDelta(mo.value, d)
        case None => db1
        case Some(v) => Propagate(Put(db1, v), Next(cur), stop, d)
  }

  /**
   * `addExpenseToCategory`, `addTransfer`, `addTransferFromExternalAccount`:
   * record into month `m`, then, unless `m` is the current month, propagate the
   * delta from the month after `m` through the current month. The mutation is
   * not awaited in the source; here it completes first.
   */
  function Service(db: Store, m: MonthKey, now: MonthKey, op: Op): (r: Store)
    requires WellKeyed(db) && Index(m) <= Index(now)
    ensures WellKeyed(r)
    ensures forall k: MonthKey :: (Index(k) < Index(m) || Index(now) < Index(k)) ==>
      (k in r <==> k in db) && (k in db ==> r[k] == db[k])
  {
    var db1 := Record(db, m, op);
    if m == now then db1 else Propagate(db1, Next(m), Next(now), DeltaOf(op))
  }

  /* ---------- corrected propagation ---------- */

  /**
   * Propagation as intended: a month that already exists gets the (corrected)
   * delta; a missing month is created by rollover from the month before, which
   * already carries the change, and gets no delta of its own.
   */
  function PropagateFixed(db: Store, cur: MonthKey, stop: MonthKey, d: Delta): (r: Store)
    requires WellKeyed(db) && Index(cur) <= Index(stop)
    ensures WellKeyed(r)
    ensures forall k: MonthKey :: !(Index(cur) <= Index(k) < Index(stop)) ==>
      (k in r <==> k in db) && (k in db ==> r[k] == db[k])
    decreases Index(stop) - Index(cur)
  {
    if cur == stop then db
    else
      IndexDistinct(cur, stop);
      if cur in db then
        match ApplyDeltaFixed(db[cur], d)
        case None => db
        case Some(v) => PropagateFixed(Put(db, v), Next(cur), stop, d)
      else
        var (db1, mo) := CreateNew(db, cur);
        if mo.None? then db1 else PropagateFixed(db1, Next(cur), stop, d)
  }

  /** The entry points with the corrected propagation. */
  function ServiceFixed(db: Store, m: MonthKey, now: MonthKey, op: Op): (r: Store)
    requires WellKeyed(db) && Index(m) <= Index(now)
    ensures WellKeyed(r)
    ensures forall k: MonthKey :: (Index(k) < Index(m) || Index(now) < Index(k)) ==>
      (k in r <==> k in db) && (k in db ==> r[k] == db[k])
  {
    var db1 := Record(db, m, op);
    if m == now then db1 else PropagateFixed(db1, Next(m), Next(now), DeltaOf(op))
  }
}
