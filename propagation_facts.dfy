/**
 * What recording an operation and propagating it promise across months: the
 * read-through is idempotent, propagation reaches every month up to the
 * current one exactly once, and, in the corrected form, the opening balance
 * of each month stays equal to the closing balance of the month before.
 * Two counterexamples show where the code as written breaks that chain.
 */
module PropagationFacts {
  import opened Wrappers
  import opened MonthKeys
  import opened Models
  import opened Ledger
  import opened LedgerFacts
  import opened Store

  /* ---------- chaining of consecutive months ---------- */

  /** Every account of both snapshots opens in `b` with the balance it closed with in `a`. */
  ghost predicate Chained(a: MonthOverView, b: MonthOverView) {
    forall n :: HasAccount(a, n) && HasAccount(b, n) ==> InitialOf(b, n) == FinalOf(a, n)
  }

  /** Month `k` and the month after it are both stored and chained. */
  ghost predicate Linked(db: Store, k: MonthKey) {
    k in db && Next(k) in db && Chained(db[k], db[Next(k)])
  }

  /** Same accounts, and every final balance moved by the delta's shift. */
  ghost predicate FinalMoved(before: MonthOverView, after: MonthOverView, d: Delta) {
    && SameNames(before.accounts, after.accounts)
    && forall n :: HasAccount(before, n) ==> HasAccount(after, n) && FinalOf(after, n) == FinalOf(before, n) + Shift(d, n)
  }

  /** The snapshot holds every account the delta names. */
  predicate Covers(mo: MonthOverView, d: Delta) {
    match d
    case TransferDelta(a, b, _) => HasAccount(mo, a) && HasAccount(mo, b)
    case ExternalDelta(b, _) => HasAccount(mo, b)
    case ExpenseDelta(e, oldName) => HasAccount(mo, e.usedAccountName) && (HasOldAccount(d) ==> HasAccount(mo, oldName.value))
  }

  /** A delta applies exactly when the snapshot holds the accounts it names. */
  lemma CoversApplies(mo: MonthOverView, d: Delta)
    ensures ApplyDeltaFixed(mo, d).Some? <==> Covers(mo, d)
    ensures ApplyDelta(mo, d).Some? <==> Covers(mo, d)
  {
    match d
    case TransferDelta(a, b, x) =>
    case ExternalDelta(b, x) =>
    case ExpenseDelta(e, oldName) =>
      if HasAccount(mo, e.usedAccountName) {
        var i := FindAccount(mo.accounts, e.usedAccountName).value;
        var m1 := UpdateAt(mo, i, UpdateFinalBalance(mo.accounts[i], Decrease, e.cost));
        var m2 := UpdateAt(m1, i, UpdateInitialBalance(m1.accounts[i], Decrease, e.cost));
        if HasOldAccount(d) {
          ReplaceAccount(mo, i, m1.accounts[i], oldName.value);
          ReplaceAccount(m1, i, m2.accounts[i], oldName.value);
        }
      }
  }

  lemma CoversSameNames(mo: MonthOverView, mo': MonthOverView, d: Delta)
    requires SameNames(mo.accounts, mo'.accounts) && Covers(mo, d)
    ensures Covers(mo', d)
  {
    match d
    case TransferDelta(a, b, _) =>
      FindAccountSameNames(mo.accounts, mo'.accounts, a);
      FindAccountSameNames(mo.accounts, mo'.accounts, b);
    case ExternalDelta(b, _) =>
      FindAccountSameNames(mo.accounts, mo'.accounts, b);
    case ExpenseDelta(e, oldName) =>
      FindAccountSameNames(mo.accounts, mo'.accounts, e.usedAccountName);
      if HasOldAccount(d) {
        FindAccountSameNames(mo.accounts, mo'.accounts, oldName.value);
      }
  }

  /** A rolled-over month opens every account with the previous month's closing balance. */
  lemma RolloverChained(prev: MonthOverView, m: MonthKey)
    ensures Chained(prev, Rollover(prev, m))
    ensures SameNames(prev.accounts, Rollover(prev, m).accounts)
  {
    forall n | HasAccount(prev, n) && HasAccount(Rollover(prev, m), n)
      ensures InitialOf(Rollover(prev, m), n) == FinalOf(prev, n)
    {
      RolloverChains(prev, m, n);
    }
  }

  /** Moving both balances moves the final ones. */
  lemma BothShiftedFinalMoved(before: MonthOverView, after: MonthOverView, d: Delta)
    requires BothShifted(before, after, d)
    ensures FinalMoved(before, after, d)
  {
    forall n | HasAccount(before, n) ensures HasAccount(after, n) {
      FindAccountSameNames(before.accounts, after.accounts, n);
    }
  }

  /** A change of final balances only keeps the link to the month before. */
  lemma ChainedAfterFinalShift(a: MonthOverView, b: MonthOverView, b': MonthOverView, d: Delta)
    requires Chained(a, b) && FinalShifted(b, b', d)
    ensures Chained(a, b')
  {
    forall n | HasAccount(a, n) && HasAccount(b', n)
      ensures InitialOf(b', n) == FinalOf(a, n)
    {
      FindAccountSameNames(b.accounts, b'.accounts, n);
    }
  }

  /**
   * When the earlier month's final balances and the later month's initial
   * balances move by the same shift, a link between them survives.
   */
  lemma ChainedAfterShift(a: MonthOverView, a': MonthOverView, b: MonthOverView, b': MonthOverView, d: Delta)
    requires Chained(a, b) && FinalMoved(a, a', d) && BothShifted(b, b', d)
    ensures Chained(a', b')
  {
    forall n | HasAccount(a', n) && HasAccount(b', n)
      ensures InitialOf(b', n) == FinalOf(a', n)
    {
      FindAccountSameNames(a.accounts, a'.accounts, n);
      FindAccountSameNames(b.accounts, b'.accounts, n);
    }
  }

  /* ---------- read-through ---------- */

  /**
   * Reading a month twice gives what reading it once gave and writes nothing
   * more: a month created by the first read is found by the second.
   */
  lemma ReadThroughIdempotent(db: Store, m: MonthKey)
    ensures var (db1, mo) := ReadThrough(db, m);
      ReadThrough(db1, m) == (db1, mo)
  {
  }

  /**
   * A read-through miss with the previous month stored creates the month by
   * rollover, linked to the month before, and changes no other entry.
   */
  lemma ReadThroughCreatesLinked(db: Store, m: MonthKey)
    requires m !in db && Prev(m) in db
    ensures var (db1, mo) := ReadThrough(db, m);
      && mo == Some(Rollover(db[Prev(m)], m))
      && db1 == db[m := mo.value]
      && Linked(db1, Prev(m))
  {
    PrevNext(m);
    RolloverChained(db[Prev(m)], m);
  }

  /* ---------- reach of the propagation as written ---------- */

  /**
   * When every month from `cur` up to `stop` is stored and holds the accounts
   * the delta names, the walk applies the delta exactly once to each of them.
   */
  lemma {:induction false} PropagateReach(db: Store, cur: MonthKey, stop: MonthKey, d: Delta)
    requires WellKeyed(db) && Index(cur) <= Index(stop)
    requires forall k: MonthKey :: Index(cur) <= Index(k) < Index(stop) ==> k in db && ApplyDelta(db[k], d).Some?
    ensures forall k: MonthKey :: Index(cur) <= Index(k) < Index(stop) ==>
      k in Propagate(db, cur, stop, d) && Propagate(db, cur, stop, d)[k] == ApplyDelta(db[k], d).value
    decreases Index(stop) - Index(cur)
  {
    if cur != stop {
      var v := ApplyDelta(db[cur], d).value;
      var db1 := Put(db, v);
      PropagateUnfold(db, cur, stop, d);
      forall k: MonthKey | Index(Next(cur)) <= Index(k) < Index(stop)
        ensures k in db1 && ApplyDelta(db1[k], d).Some?
      {
        assert k != cur;
      }
      PropagateReach(db1, Next(cur), stop, d);
      var r := Propagate(db1, Next(cur), stop, d);
      assert cur in r && r[cur] == v;
      forall k: MonthKey | Index(cur) <= Index(k) < Index(stop)
        ensures k in r && r[k] == ApplyDelta(db[k], d).value
      {
        if k != cur {
          IndexDistinct(k, cur);
          assert db1[k] == db[k];
        }
      }
    }
  }

  /** The first step of the walk as written, at a stored month the delta applies to. */
  lemma PropagateUnfold(db: Store, cur: MonthKey, stop: MonthKey, d: Delta)
    requires WellKeyed(db) && Index(cur) < Index(stop) && cur in db && ApplyDelta(db[cur], d).Some?
    ensures var db1 := Put(db, ApplyDelta(db[cur], d).value);
      && WellKeyed(db1) && ApplyDelta(db[cur], d).value.id == cur
      && Propagate(db, cur, stop, d) == Propagate(db1, Next(cur), stop, d)
  {
    IndexDistinct(cur, stop);
    assert ReadThrough(db, cur) == (db, Some(db[cur]));
    PutWellKeyed(db, ApplyDelta(db[cur], d).value);
  }

  /* ---------- the chain under the corrected propagation ---------- */

  /**
   * One step of the corrected walk at month `cur`: it yields the store the
   * rest of the walk starts from, in which `cur` holds the existing month
   * with both balances shifted, or the rollover of the month before.
   */
  lemma FixedStep(db0: Store, db: Store, cur: MonthKey, stop: MonthKey, d: Delta) returns (db1: Store)
    requires !d.ExternalDelta?
    requires WellKeyed(db0) && WellKeyed(db) && Index(cur) < Index(stop)
    requires Prev(cur) in db && Covers(db[Prev(cur)], d)
    requires forall k: MonthKey :: Index(cur) <= Index(k) ==> (k in db <==> k in db0) && (k in db ==> db[k] == db0[k])
    requires cur in db0 ==> Covers(db0[cur], d)
    ensures WellKeyed(db1) && PropagateFixed(db, cur, stop, d) == PropagateFixed(db1, Next(cur), stop, d)
    ensures cur in db1 && Covers(db1[cur], d)
    ensures forall k: MonthKey :: k != cur ==> (k in db1 <==> k in db) && (k in db ==> db1[k] == db[k])
    ensures cur in db0 ==> BothShifted(db0[cur], db1[cur], d)
    ensures cur !in db0 ==> Chained(db[Prev(cur)], db1[cur])
  {
    if cur in db {
      db1 := ShiftStep(db, cur, stop, d);
    } else {
      db1 := CreateStep(db, cur, stop, d);
    }
  }

  /** The corrected step at a stored month: the delta moves both of its balances. */
  lemma ShiftStep(db: Store, cur: MonthKey, stop: MonthKey, d: Delta) returns (db1: Store)
    requires !d.ExternalDelta?
    requires WellKeyed(db) && Index(cur) < Index(stop) && cur in db && Covers(db[cur], d)
    ensures WellKeyed(db1) && PropagateFixed(db, cur, stop, d) == PropagateFixed(db1, Next(cur), stop, d)
    ensures cur in db1 && Covers(db1[cur], d) && BothShifted(db[cur], db1[cur], d)
    ensures forall k: MonthKey :: k != cur ==> (k in db1 <==> k in db) && (k in db ==> db1[k] == db[k])
  {
    IndexDistinct(cur, stop);
    CoversApplies(db[cur], d);
    var v := ApplyDeltaFixed(db[cur], d).value;
    db1 := Put(db, v);
    PutWellKeyed(db, v);
    DeltaFixedShifts(db[cur], d);
    CoversSameNames(db[cur], v, d);
  }

  /** The corrected step at a missing month: the rollover of the month before, linked to it. */
  lemma CreateStep(db: Store, cur: MonthKey, stop: MonthKey, d: Delta) returns (db1: Store)
    requires WellKeyed(db) && Index(cur) < Index(stop) && cur !in db
    requires Prev(cur) in db && Covers(db[Prev(cur)], d)
    ensures WellKeyed(db1) && PropagateFixed(db, cur, stop, d) == PropagateFixed(db1, Next(cur), stop, d)
    ensures cur in db1 && Covers(db1[cur], d) && Chained(db[Prev(cur)], db1[cur])
    ensures forall k: MonthKey :: k != cur ==> (k in db1 <==> k in db) && (k in db ==> db1[k] == db[k])
  {
    IndexDistinct(cur, stop);
    var v := Rollover(db[Prev(cur)], cur);
    db1 := Put(db, v);
    PutWellKeyed(db, v);
    RolloverChained(db[Prev(cur)], cur);
    CoversSameNames(db[Prev(cur)], v, d);
  }

  /**
   * The corrected walk from `cur` keeps months chained. `db0` is the store
   * before the operation; `db` agrees with it from `cur` on, and the month
   * before `cur` has had its final balances moved by the delta. Then every
   * pair whose later month the walk visits is linked afterwards, provided it
   * was linked before or its later month is created by the walk.
   */
  lemma {:induction false} PropagateFixedChain(db0: Store, db: Store, cur: MonthKey, stop: MonthKey, d: Delta)
    requires !d.ExternalDelta?
    requires WellKeyed(db0) && WellKeyed(db) && Index(cur) <= Index(stop)
    requires Prev(cur) in db && Covers(db[Prev(cur)], d)
    requires forall k: MonthKey :: Index(cur) <= Index(k) ==> (k in db <==> k in db0) && (k in db ==> db[k] == db0[k])
    requires forall k: MonthKey :: k in db0 && Index(cur) <= Index(k) < Index(stop) ==> Covers(db0[k], d)
    requires Prev(cur) in db0 ==> FinalMoved(db0[Prev(cur)], db[Prev(cur)], d)
    ensures forall k: MonthKey :: Index(cur) <= Index(Next(k)) < Index(stop) && (Linked(db0, k) || Next(k) !in db0) ==>
      Linked(PropagateFixed(db, cur, stop, d), k)
    decreases Index(stop) - Index(cur)
  {
    if cur != stop {
      IndexDistinct(cur, stop);
      var p := Prev(cur);
      PrevNext(cur);
      PrevNext(Next(cur));
      var db1 := FixedStep(db0, db, cur, stop, d);
      assert forall k: MonthKey :: Index(Next(cur)) <= Index(k) ==> (k in db1 <==> k in db0) && (k in db1 ==> db1[k] == db0[k]) by {
        forall k: MonthKey | Index(Next(cur)) <= Index(k)
          ensures (k in db1 <==> k in db0) && (k in db1 ==> db1[k] == db0[k])
        {
          assert k != cur;
        }
      }
      assert cur in db0 ==> FinalMoved(db0[cur], db1[cur], d) by {
        if cur in db0 {
          BothShiftedFinalMoved(db0[cur], db1[cur], d);
        }
      }
      PropagateFixedChain(db0, db1, Next(cur), stop, d);
      var r := PropagateFixed(db, cur, stop, d);
      assert (Linked(db0, p) || cur !in db0) ==> Linked(r, p) by {
        if Linked(db0, p) || cur !in db0 {
          assert p in r && cur in r && r[p] == db[p] && r[cur] == db1[cur];
          FrontierLinked(db0, db, db1, r, cur, d);
        }
      }
      ChainExtends(db0, r, cur, stop);
    }
  }

  /** Links from the frontier on, together with the link at the frontier. */
  lemma ChainExtends(db0: Store, r: Store, cur: MonthKey, stop: MonthKey)
    requires (Linked(db0, Prev(cur)) || cur !in db0) ==> Linked(r, Prev(cur))
    requires forall k: MonthKey :: Index(Next(cur)) <= Index(Next(k)) < Index(stop) && (Linked(db0, k) || Next(k) !in db0) ==>
      Linked(r, k)
    ensures forall k: MonthKey :: Index(cur) <= Index(Next(k)) < Index(stop) && (Linked(db0, k) || Next(k) !in db0) ==>
      Linked(r, k)
  {
    forall k: MonthKey | Index(cur) <= Index(Next(k)) < Index(stop) && (Linked(db0, k) || Next(k) !in db0)
      ensures Linked(r, k)
    {
      if Index(Next(k)) == Index(cur) {
        IndexInjective(Next(k), cur);
        PrevNext(k);
      }
    }
  }

  /** The pair of the month before `cur` and `cur` after one corrected step. */
  lemma FrontierLinked(db0: Store, db: Store, db1: Store, r: Store, cur: MonthKey, d: Delta)
    requires Prev(cur) in db && cur in db1 && Prev(cur) in r && cur in r
    requires r[Prev(cur)] == db[Prev(cur)] && r[cur] == db1[cur]
    requires cur in db0 ==> BothShifted(db0[cur], db1[cur], d)
    requires cur !in db0 ==> Chained(db[Prev(cur)], db1[cur])
    requires Prev(cur) in db0 ==> FinalMoved(db0[Prev(cur)], db[Prev(cur)], d)
    requires Linked(db0, Prev(cur)) || cur !in db0
    ensures Linked(r, Prev(cur))
  {
    PrevNext(cur);
    if cur in db0 {
      ChainedAfterShift(db0[Prev(cur)], db[Prev(cur)], db0[cur], db1[cur], d);
    }
  }

  /** A recorded operation moves the final balances of its month by its delta, and only those. */
  lemma MutateShifts(mo: MonthOverView, op: Op)
    requires Mutate(mo, op).Some?
    ensures Covers(mo, DeltaOf(op))
    ensures FinalShifted(mo, Mutate(mo, op).value, DeltaOf(op))
  {
    match op
    case ExpenseOp(c, e) => ExpenseShifts(mo, c, e);
    case TransferOp(a, b, x, date, ia, ib) => TransferShifts(mo, a, b, x, date, ia, ib);
    case ExternalOp(h, b, x, date, i) => ExternalShifts(mo, h, b, x, date, i);
  }

  /** Recording into month `m` succeeds: the month is found or created, and holds the named accounts and category. */
  ghost predicate RecordSucceeds(db: Store, m: MonthKey, op: Op) {
    ReadThrough(db, m).1.Some? && Mutate(ReadThrough(db, m).1.value, op).Some?
  }

  /**
   * Recording into month `m` moves only the final balances of `m`; the month
   * before stays linked to it if it was, and a month created by the
   * read-through is linked to the month before.
   */
  lemma RecordStep(db0: Store, m: MonthKey, op: Op)
    requires WellKeyed(db0) && RecordSucceeds(db0, m, op)
    ensures var db1 := Record(db0, m, op);
      && m in db1 && Covers(db1[m], DeltaOf(op))
      && (m in db0 ==> FinalMoved(db0[m], db1[m], DeltaOf(op)))
      && ((Linked(db0, Prev(m)) || m !in db0) ==> Prev(m) in db1 && Chained(db1[Prev(m)], db1[m]))
  {
    var d := DeltaOf(op);
    var mo := ReadThrough(db0, m).1.value;
    var v1 := Mutate(mo, op).value;
    var db1 := Record(db0, m, op);
    assert m in db1 && db1[m] == v1;
    MutateShifts(mo, op);
    CoversSameNames(mo, v1, d);
    PrevNext(m);
    var p := Prev(m);
    if m in db0 {
      if Linked(db0, p) {
        ChainedAfterFinalShift(db0[p], db0[m], v1, d);
      }
      forall n | HasAccount(mo, n)
        ensures HasAccount(v1, n)
      {
        FindAccountSameNames(mo.accounts, v1.accounts, n);
      }
    } else {
      RolloverChained(db0[p], m);
      ChainedAfterFinalShift(db0[p], mo, v1, d);
    }
  }

  /**
   * Balance conservation for the corrected entry points: after recording an
   * expense or transfer in month `m` and propagating it, every pair of months
   * that was linked is still linked, and every month the operation created
   * is linked to the month before it. The pair of the current month and the
   * month after it is excluded: only the current month moves.
   */
  lemma ServiceFixedKeepsChain(db0: Store, m: MonthKey, now: MonthKey, op: Op)
    requires WellKeyed(db0) && Index(m) <= Index(now) && !op.ExternalOp?
    requires RecordSucceeds(db0, m, op)
    requires forall k: MonthKey :: k in db0 && Index(m) < Index(k) <= Index(now) ==> Covers(db0[k], DeltaOf(op))
    ensures forall k: MonthKey :: k != now && Linked(db0, k) ==> Linked(ServiceFixed(db0, m, now, op), k)
    ensures forall k: MonthKey :: Index(m) <= Index(Next(k)) <= Index(now) && Next(k) !in db0 ==>
      Linked(ServiceFixed(db0, m, now, op), k)
  {
    var d := DeltaOf(op);
    var db1 := Record(db0, m, op);
    var r := ServiceFixed(db0, m, now, op);
    RecordStep(db0, m, op);
    PrevNext(m);
    assert (Linked(db0, Prev(m)) || m !in db0) ==> Linked(r, Prev(m)) by {
      assert Prev(m) in db1 ==> Prev(m) in r && r[Prev(m)] == db1[Prev(m)];
      assert m in r && r[m] == db1[m];
    }
    if m != now {
      WalkAfterRecord(db0, db1, m, now, d);
    }
    ServiceChainCombine(db0, r, m, now);
  }

  /**
   * The walk as written and the corrected walk agree wherever they meet no
   * missing month: the entry points never pass an old account name, so the
   * only correction that remains, creating a month without a second delta,
   * never comes into play.
   */
  lemma {:induction false} PropagateMatchesFixed(db: Store, cur: MonthKey, stop: MonthKey, d: Delta)
    requires WellKeyed(db) && Index(cur) <= Index(stop) && !HasOldAccount(d)
    requires forall k: MonthKey :: Index(cur) <= Index(k) < Index(stop) ==> k in db
    ensures Propagate(db, cur, stop, d) == PropagateFixed(db, cur, stop, d)
    decreases Index(stop) - Index(cur)
  {
    if cur != stop {
      IndexDistinct(cur, stop);
      assert ReadThrough(db, cur) == (db, Some(db[cur]));
      match ApplyDelta(db[cur], d)
      case None =>
      case Some(v) =>
        PutWellKeyed(db, v);
        PropagateMatchesFixed(Put(db, v), Next(cur), stop, d);
    }
  }

  /**
   * When every month after the edited one through the current one is
   * stored, the entry points as written give exactly the corrected result.
   */
  lemma ServiceMatchesFixed(db0: Store, m: MonthKey, now: MonthKey, op: Op)
    requires WellKeyed(db0) && Index(m) <= Index(now)
    requires forall k: MonthKey :: Index(m) < Index(k) <= Index(now) ==> k in db0
    ensures Service(db0, m, now, op) == ServiceFixed(db0, m, now, op)
  {
    if m != now {
      var db1 := Record(db0, m, op);
      forall k: MonthKey | Index(Next(m)) <= Index(k) < Index(Next(now)) ensures k in db1 {
        IndexDistinct(k, m);
      }
      PropagateMatchesFixed(db1, Next(m), Next(now), DeltaOf(op));
    }
  }

  /**
   * Balance conservation for the entry points as written: with every later
   * month through the current one stored and holding the accounts, an
   * expense or own transfer keeps every linked pair linked, except the
   * current month with the next.
   */
  lemma ServiceKeepsChain(db0: Store, m: MonthKey, now: MonthKey, op: Op)
    requires WellKeyed(db0) && Index(m) <= Index(now) && !op.ExternalOp?
    requires RecordSucceeds(db0, m, op)
    requires forall k: MonthKey :: Index(m) < Index(k) <= Index(now) ==> k in db0 && Covers(db0[k], DeltaOf(op))
    ensures forall k: MonthKey :: k != now && Linked(db0, k) ==> Linked(Service(db0, m, now, op), k)
  {
    ServiceMatchesFixed(db0, m, now, op);
    ServiceFixedKeepsChain(db0, m, now, op);
  }

  /** The corrected walk that follows a recording in month `m`, from the month after it through `now`. */
  lemma WalkAfterRecord(db0: Store, db1: Store, m: MonthKey, now: MonthKey, d: Delta)
    requires !d.ExternalDelta? && WellKeyed(db0) && WellKeyed(db1) && Index(m) < Index(now)
    requires m in db1 && Covers(db1[m], d)
    requires forall k: MonthKey :: k != m ==> (k in db1 <==> k in db0) && (k in db0 ==> db1[k] == db0[k])
    requires forall k: MonthKey :: k in db0 && Index(m) < Index(k) <= Index(now) ==> Covers(db0[k], d)
    requires m in db0 ==> FinalMoved(db0[m], db1[m], d)
    ensures forall k: MonthKey :: Index(Next(m)) <= Index(Next(k)) < Index(Next(now)) && (Linked(db0, k) || Next(k) !in db0) ==>
      Linked(PropagateFixed(db1, Next(m), Next(now), d), k)
  {
    PrevNext(m);
    PrevNext(Next(m));
    forall k: MonthKey | Index(Next(m)) <= Index(k)
      ensures (k in db1 <==> k in db0) && (k in db1 ==> db1[k] == db0[k])
    {
      assert k != m;
    }
    PropagateFixedChain(db0, db1, Next(m), Next(now), d);
  }

  /**
   * The links of the whole store after an operation in month `m`: outside
   * `m`..`now` nothing moved, the link into `m` holds, and the links the walk
   * establishes hold.
   */
  lemma ServiceChainCombine(db0: Store, r: Store, m: MonthKey, now: MonthKey)
    requires Index(m) <= Index(now)
    requires forall k: MonthKey :: (Index(k) < Index(m) || Index(now) < Index(k)) ==>
      (k in r <==> k in db0) && (k in db0 ==> r[k] == db0[k])
    requires (Linked(db0, Prev(m)) || m !in db0) ==> Linked(r, Prev(m))
    requires forall k: MonthKey :: Index(Next(m)) <= Index(Next(k)) < Index(Next(now)) && (Linked(db0, k) || Next(k) !in db0) ==>
      Linked(r, k)
    ensures forall k: MonthKey :: k != now && Linked(db0, k) ==> Linked(r, k)
    ensures forall k: MonthKey :: Index(m) <= Index(Next(k)) <= Index(now) && Next(k) !in db0 ==> Linked(r, k)
  {
    forall k: MonthKey | k != now && Linked(db0, k)
      ensures Linked(r, k)
    {
      if Index(Next(k)) == Index(m) {
        IndexInjective(Next(k), m);
        PrevNext(k);
      } else if Index(k) > Index(now) {
      } else if Index(k) == Index(now) {
        IndexInjective(k, now);
      }
    }
    forall k: MonthKey | Index(m) <= Index(Next(k)) <= Index(now) && Next(k) !in db0
      ensures Linked(r, k)
    {
      if Index(Next(k)) == Index(m) {
        IndexInjective(Next(k), m);
        PrevNext(k);
      }
    }
  }

  /* ---------- the entry points as written ---------- */

  /** One recorded month and all later months up to `now` are stored and hold the accounts `op` names. */
  ghost predicate Reachable(db: Store, m: MonthKey, now: MonthKey, op: Op) {
    && m in db && Mutate(db[m], op).Some?
    && forall k: MonthKey :: Index(m) < Index(k) <= Index(now) ==> k in db && Covers(db[k], DeltaOf(op))
  }

  /**
   * Propagation reach: when the recorded month and every later month up to
   * `now` exist, the recorded month gets the mutation, every later month up
   * to and including `now` gets the delta exactly once, and no other month
   * changes.
   */
  lemma ServiceReach(db0: Store, m: MonthKey, now: MonthKey, op: Op)
    requires WellKeyed(db0) && Index(m) <= Index(now) && Reachable(db0, m, now, op)
    ensures var r := Service(db0, m, now, op);
      && m in r && r[m] == Mutate(db0[m], op).value
      && (forall k: MonthKey :: Index(m) < Index(k) <= Index(now) ==>
            k in r && ApplyDelta(db0[k], DeltaOf(op)).Some? && r[k] == ApplyDelta(db0[k], DeltaOf(op)).value)
      && (forall k: MonthKey :: (Index(k) < Index(m) || Index(now) < Index(k)) ==>
            (k in r <==> k in db0) && (k in db0 ==> r[k] == db0[k]))
  {
    var d := DeltaOf(op);
    var db1 := Record(db0, m, op);
    var r := Service(db0, m, now, op);
    assert m in db1 && db1[m] == Mutate(db0[m], op).value;
    forall k: MonthKey | Index(m) < Index(k) <= Index(now)
      ensures ApplyDelta(db0[k], d).Some? && k in db1 && db1[k] == db0[k]
    {
      CoversApplies(db0[k], d);
    }
    if m != now {
      PropagateReach(db1, Next(m), Next(now), d);
    }
  }

  /**
   * An expense of cost `c` recorded in month `m` from account `A`, with every
   * month up to `now` stored: `A`'s final balance is `c` lower in `m` and in
   * every later month through `now`, its initial balance is `c` lower in
   * every later month, and every other account keeps its balances.
   */
  lemma ExpenseReach(db0: Store, m: MonthKey, now: MonthKey, cat: string, e: Expense)
    requires WellKeyed(db0) && Index(m) <= Index(now) && Reachable(db0, m, now, ExpenseOp(cat, e))
    ensures var r := Service(db0, m, now, ExpenseOp(cat, e));
      && m in r && FinalShifted(db0[m], r[m], ExpenseDelta(e, None))
      && (forall k: MonthKey :: Index(m) < Index(k) <= Index(now) ==>
            k in r && BothShifted(db0[k], r[k], ExpenseDelta(e, None)))
  {
    var op := ExpenseOp(cat, e);
    var r := Service(db0, m, now, op);
    ServiceReach(db0, m, now, op);
    assert r[m] == Mutate(db0[m], op).value;
    MutateShifts(db0[m], op);
    forall k: MonthKey | Index(m) < Index(k) <= Index(now)
      ensures k in r && BothShifted(db0[k], r[k], ExpenseDelta(e, None))
    {
      assert r[k] == ApplyDelta(db0[k], DeltaOf(op)).value;
      ExpenseDeltaShifts(db0[k], e, None);
    }
  }

  /**
   * The external-deposit asymmetry: a deposit of `x` into `b` recorded in
   * month `m` raises `b`'s final balance by `x` in `m` and in every later
   * month through `now`, and leaves every initial balance as it was.
   */
  lemma ExternalReach(db0: Store, m: MonthKey, now: MonthKey, holder: string, b: string, x: int,
                      date: Option<string>, id: string)
    requires WellKeyed(db0) && Index(m) <= Index(now) && Reachable(db0, m, now, ExternalOp(holder, b, x, date, id))
    ensures var r := Service(db0, m, now, ExternalOp(holder, b, x, date, id));
      forall k: MonthKey :: Index(m) <= Index(k) <= Index(now) ==> k in r && FinalShifted(db0[k], r[k], ExternalDelta(b, x))
  {
    var op := ExternalOp(holder, b, x, date, id);
    var d := ExternalDelta(b, x);
    assert DeltaOf(op) == d;
    var r := Service(db0, m, now, op);
    ServiceReach(db0, m, now, op);
    MutateShifts(db0[m], op);
    assert m in r && FinalShifted(db0[m], r[m], d);
    forall k: MonthKey | Index(m) < Index(k) <= Index(now)
      ensures k in r && FinalShifted(db0[k], r[k], d)
    {
      assert Covers(db0[k], d);
      ExternalDeltaShiftsFinalOnly(db0[k], b, x);
    }
    forall k: MonthKey | Index(k) == Index(m) ensures k == m {
      IndexInjective(k, m);
    }
  }

  /**
   * Because of that asymmetry, a non-zero deposit in a month before `now`
   * unlinks the recorded month from the month after it for the receiving
   * account: its closing balance moves, the next opening balance does not.
   */
  lemma ExternalUnlinks(db0: Store, m: MonthKey, now: MonthKey, holder: string, b: string, x: int,
                        date: Option<string>, id: string)
    requires WellKeyed(db0) && Index(m) < Index(now) && Reachable(db0, m, now, ExternalOp(holder, b, x, date, id))
    requires Linked(db0, m) && x != 0
    ensures !Linked(Service(db0, m, now, ExternalOp(holder, b, x, date, id)), m)
  {
    var r := Service(db0, m, now, ExternalOp(holder, b, x, date, id));
    ExternalReach(db0, m, now, holder, b, x, date, id);
    assert Index(m) < Index(Next(m)) <= Index(now);
    assert FinalShifted(db0[m], r[m], ExternalDelta(b, x));
    assert FinalShifted(db0[Next(m)], r[Next(m)], ExternalDelta(b, x));
    assert HasAccount(r[m], b) && HasAccount(r[Next(m)], b) by {
      FindAccountSameNames(db0[m].accounts, r[m].accounts, b);
      FindAccountSameNames(db0[Next(m)].accounts, r[Next(m)].accounts, b);
    }
    assert InitialOf(r[Next(m)], b) == FinalOf(r[m], b) - x;
  }

  /* ---------- findings ---------- */

  /**
   * Line 314 as written: for an expense moved away from a different old
   * account, the paying account's initial balance is lowered and raised
   * again, and the old account's initial balance is not touched, so a
   * non-zero cost does not shift both balances as meant.
   */
  lemma OldAccountDeltaAsWritten(mo: MonthOverView, e: Expense, oldName: string)
    requires HasOldAccount(ExpenseDelta(e, Some(oldName))) && e.usedAccountName != oldName
    requires HasAccount(mo, e.usedAccountName) && HasAccount(mo, oldName)
    ensures ApplyDelta(mo, ExpenseDelta(e, Some(oldName))).Some?
    ensures var r := ApplyDelta(mo, ExpenseDelta(e, Some(oldName))).value;
      && HasAccount(r, e.usedAccountName) && HasAccount(r, oldName)
      && FinalOf(r, e.usedAccountName) == FinalOf(mo, e.usedAccountName) - e.cost
      && InitialOf(r, e.usedAccountName) == InitialOf(mo, e.usedAccountName)
      && FinalOf(r, oldName) == FinalOf(mo, oldName) + e.cost
      && InitialOf(r, oldName) == InitialOf(mo, oldName)
      && (e.cost != 0 ==> !BothShifted(mo, r, ExpenseDelta(e, Some(oldName))))
  {
    var d := ExpenseDelta(e, Some(oldName));
    var u := e.usedAccountName;
    var i := FindAccount(mo.accounts, u).value;
    var m1 := UpdateAt(mo, i, UpdateFinalBalance(mo.accounts[i], Decrease, e.cost));
    var m2 := UpdateAt(m1, i, UpdateInitialBalance(m1.accounts[i], Decrease, e.cost));
    var m3 := AddTagsToUsedTags(m2, e.tags);
    ReplaceAccount(mo, i, m1.accounts[i], oldName);
    ReplaceAccount(m1, i, m2.accounts[i], oldName);
    ReplaceAccount(mo, i, m1.accounts[i], u);
    ReplaceAccount(m1, i, m2.accounts[i], u);
    var j := FindAccount(m3.accounts, oldName).value;
    var m4 := UpdateAt(m3, j, UpdateFinalBalance(m3.accounts[j], Increase, e.cost));
    var m5 := UpdateAt(m4, i, UpdateInitialBalance(m4.accounts[i], Increase, e.cost));
    assert ApplyDelta(mo, d) == Some(m5);
    ReplaceAccount(m3, j, m4.accounts[j], u);
    ReplaceAccount(m3, j, m4.accounts[j], oldName);
    ReplaceAccount(m4, i, m5.accounts[i], u);
    ReplaceAccount(m4, i, m5.accounts[i], oldName);
    assert Shift(d, u) == -e.cost;
  }
}
