/** Query results over a run's tables. SQL promises an order only where a query asks for one, so a
    reading lists a run's items, and the rows of each item, in any order. */
module RunReadings {
  import opened Options
  import opened Sequences
  import opened RunTables
  import opened WorkerSafety

  datatype Reading = Reading(
    id: ItemId,
    caseId: CaseId,
    status: ItemStatus,
    latencyMs: Option<int>,
    costUsd: Option<real>,
    rows: seq<EvalRow>)

  /** Item `i` with its rows in stored order. */
  function Stored(db: Db, i: ItemId): Reading
    requires i in db.items
  {
    var item := db.items[i];
    Reading(i, item.caseId, item.status, item.latencyMs, item.costUsd, PlainRows(RowsOf(db, i)))
  }

  predicate Reordered(a: Reading, b: Reading) {
    a.(rows := b.rows) == b && multiset(a.rows) == multiset(b.rows)
  }

  function Ids(view: seq<Reading>): (r: seq<ItemId>)
    ensures |r| == |view| && forall k | 0 <= k < |view| :: r[k] == view[k].id
  {
    seq(|view|, k requires 0 <= k < |view| => view[k].id)
  }

  function Cases(view: seq<Reading>): (r: seq<CaseId>)
    ensures |r| == |view| && forall k | 0 <= k < |view| :: r[k] == view[k].caseId
  {
    seq(|view|, k requires 0 <= k < |view| => view[k].caseId)
  }

  /** `view` lists every item of run `r` once, with all its rows. */
  predicate Reads(view: seq<Reading>, db: Db, r: RunId) {
    && Distinct(Ids(view))
    && (forall k | 0 <= k < |view| :: view[k].id in ItemsOf(db, r) && Reordered(view[k], Stored(db, view[k].id)))
    && (forall i | i in ItemsOf(db, r) :: i in Ids(view))
  }

  lemma {:induction false} AtMostOnce<T>(s: seq<T>, x: T)
    requires Distinct(s)
    ensures multiset(s)[x] == if x in s then 1 else 0
  {
    if s == [] {
    } else {
      AtMostOnce(s[1..], x);
      assert s == [s[0]] + s[1..];
    }
  }

  lemma SameListing<T>(a: seq<T>, b: seq<T>)
    requires Distinct(a) && Distinct(b) && forall x :: x in a <==> x in b
    ensures multiset(a) == multiset(b)
  {
    forall x ensures multiset(a)[x] == multiset(b)[x] {
      AtMostOnce(a, x);
      AtMostOnce(b, x);
    }
  }

  // ---- Gathering one value per item ----

  /** A measurement that does not depend on the order rows are read in. */
  ghost predicate OrderFree<V(!new)>(f: Reading -> Option<V>, db: Db, r: RunId) {
    forall reading: Reading ::
      reading.id in ItemsOf(db, r) && Reordered(reading, Stored(db, reading.id)) ==>
        f(reading) == f(Stored(db, reading.id))
  }

  function StoredView(db: Db, ids: seq<ItemId>): (r: seq<Reading>)
    requires forall k | 0 <= k < |ids| :: ids[k] in db.items
    ensures |r| == |ids| && forall k | 0 <= k < |ids| :: r[k] == Stored(db, ids[k])
  {
    seq(|ids|, k requires 0 <= k < |ids| => Stored(db, ids[k]))
  }

  lemma StoredDistinct(db: Db, ids: seq<ItemId>)
    requires Distinct(ids) && forall k | 0 <= k < |ids| :: ids[k] in db.items
    ensures Distinct(StoredView(db, ids))
  {
    var view := StoredView(db, ids);
    forall j, k | 0 <= j < k < |view| ensures view[j] != view[k] {
      assert view[j].id != view[k].id;
    }
  }

  predicate KnownIds(view: seq<Reading>, db: Db) {
    forall k | 0 <= k < |view| :: Ids(view)[k] in db.items
  }

  lemma ReadKnown(view: seq<Reading>, db: Db, r: RunId)
    requires Reads(view, db, r)
    ensures KnownIds(view, db)
  {
    forall k | 0 <= k < |view| ensures Ids(view)[k] in db.items { assert view[k].id in ItemsOf(db, r); }
  }

  lemma SameStored(db: Db, r: RunId, a: seq<Reading>, b: seq<Reading>)
    requires Reads(a, db, r) && Reads(b, db, r)
    requires KnownIds(a, db) && KnownIds(b, db)
    ensures multiset(StoredView(db, Ids(a))) == multiset(StoredView(db, Ids(b)))
  {
    hide Stored, ItemsOf, Reordered;
    var va, vb := StoredView(db, Ids(a)), StoredView(db, Ids(b));
    StoredDistinct(db, Ids(a));
    StoredDistinct(db, Ids(b));
    forall x | x in va ensures x in vb { StoredIn(db, r, a, b, x); }
    forall x | x in vb ensures x in va { StoredIn(db, r, b, a, x); }
    SameListing(va, vb);
  }

  lemma StoredIn(db: Db, r: RunId, a: seq<Reading>, b: seq<Reading>, x: Reading)
    requires Reads(a, db, r) && Reads(b, db, r) && KnownIds(a, db) && KnownIds(b, db) && x in StoredView(db, Ids(a))
    ensures x in StoredView(db, Ids(b))
  {
    hide Stored, Reordered;
    var k :| 0 <= k < |a| && StoredView(db, Ids(a))[k] == x;
    assert a[k].id in Ids(b);
    var j :| 0 <= j < |b| && Ids(b)[j] == a[k].id;
    assert StoredView(db, Ids(b))[j] == x;
  }

  /** Two readings of the same tables gather the same values, up to order, by any order-free
      measurements that agree on stored items. */
  lemma ReadingsAgree<V(!new)>(db: Db, r: RunId, a: seq<Reading>, b: seq<Reading>,
      f: Reading -> Option<V>, g: Reading -> Option<V>)
    requires Reads(a, db, r) && Reads(b, db, r)
    requires OrderFree(f, db, r) && OrderFree(g, db, r)
    requires forall i | i in ItemsOf(db, r) :: f(Stored(db, i)) == g(Stored(db, i))
    ensures multiset(Gather(a, f)) == multiset(Gather(b, g))
  {
    ReadKnown(a, db, r);
    ReadKnown(b, db, r);
    hide Stored, ItemsOf, Reordered;
    var va, vb := StoredView(db, Ids(a)), StoredView(db, Ids(b));
    assert forall k | 0 <= k < |a| :: a[k].id in ItemsOf(db, r);
    GatherEqual(a, va, f, f);
    SameStored(db, r, a, b);
    GatherPermutation(va, vb, f);
    forall k | 0 <= k < |b| ensures f(vb[k]) == g(b[k]) { assert b[k].id in ItemsOf(db, r); }
    GatherEqual(vb, b, f, g);
  }
}
