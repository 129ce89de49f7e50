/**
  The collector's store server and the cron job that lists, publishes and marks
  the pending microblobs.
*/
module Bundler {
  import opened Prelude
  import opened Rlp
  import opened Ordering
  import opened Kv
  import opened Publisher

  // ---- index listings -------------------------------------------------------

  function StatusKeys(kv: Store, status: Status): set<Pos> {
    set k | k in kv.entries && k.ByStatus? && k.status == status :: Pos(k.at, k.id)
  }

  function TxKeys(kv: Store, txHash: string): set<Pos> {
    set k | k in kv.entries && k.ByTx? && k.txHash == txHash :: Pos(k.createdAt, k.id)
  }

  // getMany over the ids, dropping missing records.
  function Fetch(kv: Store, ids: seq<Pos>): seq<Microblob> {
    if ids == [] then []
    else
      var front := Fetch(kv, ids[..|ids| - 1]);
      var r := RecordOf(kv, ids[|ids| - 1].id);
      if r.Some? then front + [r.value] else front
  }

  function Take<T>(s: seq<T>, limit: nat): seq<T> {
    if |s| <= limit then s else s[..limit]
  }

  // `ms` is the answer to listMicroblobs: newest first, at most `limit`.
  ghost predicate IsStatusList(kv: Store, status: Status, limit: nat, ms: seq<Microblob>) {
    exists listing :: IsListing(listing, StatusKeys(kv, status)) && ms == Fetch(kv, Take(Reverse(listing), limit))
  }

  // Array.prototype.sort by createdAt, which is stable: insertion from the left.
  function InsertByTime(ms: seq<Microblob>, m: Microblob): (r: seq<Microblob>)
    ensures |r| == |ms| + 1
  {
    if ms == [] || ms[|ms| - 1].createdAt <= m.createdAt then ms + [m]
    else InsertByTime(ms[..|ms| - 1], m) + [ms[|ms| - 1]]
  }

  function SortByTime(ms: seq<Microblob>): seq<Microblob> {
    if ms == [] then [] else InsertByTime(SortByTime(ms[..|ms| - 1]), ms[|ms| - 1])
  }

  // The records created at time `t`, in their order.
  function CreatedAt(ms: seq<Microblob>, t: nat): seq<Microblob> {
    if ms == [] then []
    else
      var front := CreatedAt(ms[..|ms| - 1], t);
      var last := ms[|ms| - 1];
      if last.createdAt == t then front + [last] else front
  }

  predicate SortedByTime(ms: seq<Microblob>) {
    forall i, j :: 0 <= i < j < |ms| ==> ms[i].createdAt <= ms[j].createdAt
  }

  lemma CreatedAtAppend(ms: seq<Microblob>, m: Microblob, t: nat)
    ensures CreatedAt(ms + [m], t) == CreatedAt(ms, t) + if m.createdAt == t then [m] else []
  {
    assert (ms + [m])[..|ms|] == ms;
    assert CreatedAt(ms, t) + [] == CreatedAt(ms, t);
  }

  lemma {:induction false} InsertKeepsOrder(ms: seq<Microblob>, m: Microblob)
    requires SortedByTime(ms)
    ensures SortedByTime(InsertByTime(ms, m))
    ensures var latest := InsertByTime(ms, m)[|ms|];
      latest == m || (ms != [] && latest == ms[|ms| - 1])
  {
    if ms != [] && ms[|ms| - 1].createdAt > m.createdAt {
      InsertKeepsOrder(ms[..|ms| - 1], m);
    }
  }

  lemma {:induction false} InsertKeepsTimes(ms: seq<Microblob>, m: Microblob, t: nat)
    ensures CreatedAt(InsertByTime(ms, m), t) == CreatedAt(ms + [m], t)
    decreases |ms|
  {
    CreatedAtAppend(ms, m, t);
    if ms != [] && ms[|ms| - 1].createdAt > m.createdAt {
      var front, last := ms[..|ms| - 1], ms[|ms| - 1];
      InsertKeepsTimes(front, m, t);
      CreatedAtAppend(InsertByTime(front, m), last, t);
      CreatedAtAppend(front, m, t);
      assert ms == front + [last];
      CreatedAtAppend(front, last, t);
    }
  }

  lemma {:induction false} SortKeepsTimes(ms: seq<Microblob>, t: nat)
    ensures CreatedAt(SortByTime(ms), t) == CreatedAt(ms, t)
  {
    if ms != [] {
      var front, last := ms[..|ms| - 1], ms[|ms| - 1];
      SortKeepsTimes(front, t);
      InsertKeepsTimes(SortByTime(front), last, t);
      CreatedAtAppend(SortByTime(front), last, t);
      CreatedAtAppend(front, last, t);
      assert ms == front + [last];
    }
  }

  lemma {:induction false} SortOrders(ms: seq<Microblob>)
    ensures SortedByTime(SortByTime(ms))
  {
    if ms != [] {
      SortOrders(ms[..|ms| - 1]);
      InsertKeepsOrder(SortByTime(ms[..|ms| - 1]), ms[|ms| - 1]);
    }
  }

  /** The sort is stable: ascending by time, and records of one time keep their order. */
  lemma SortIsStable(ms: seq<Microblob>)
    ensures SortedByTime(SortByTime(ms))
    ensures forall t :: CreatedAt(SortByTime(ms), t) == CreatedAt(ms, t)
  {
    SortOrders(ms);
    forall t ensures CreatedAt(SortByTime(ms), t) == CreatedAt(ms, t) {
      SortKeepsTimes(ms, t);
    }
  }

  lemma {:induction false} SortOfSorted(ms: seq<Microblob>)
    requires SortedByTime(ms)
    ensures SortByTime(ms) == ms
  {
    if ms != [] {
      SortOfSorted(ms[..|ms| - 1]);
      assert ms == ms[..|ms| - 1] + [ms[|ms| - 1]];
    }
  }

  function PosOf(m: Microblob): Pos {
    Pos(m.createdAt, m.id)
  }

  lemma {:induction false} FetchAll(kv: Store, ids: seq<Pos>)
    requires forall i :: 0 <= i < |ids| ==> RecordOf(kv, ids[i].id).Some?
    ensures |Fetch(kv, ids)| == |ids|
    ensures forall i :: 0 <= i < |ids| ==> Fetch(kv, ids)[i] == RecordOf(kv, ids[i].id).value
  {
    if ids != [] {
      FetchAll(kv, ids[..|ids| - 1]);
    }
  }

  // ---- what the pending list looks like -------------------------------------

  // Strictly descending positions.
  ghost predicate Descending(ms: seq<Microblob>) {
    forall i, j :: 0 <= i < j < |ms| ==> PosLess(PosOf(ms[j]), PosOf(ms[i]))
  }

  // By creation time, the latest first, and ids of one time in descending order.
  ghost predicate NewestFirst(ms: seq<Microblob>) {
    forall i, j :: 0 <= i < j < |ms| ==>
      ms[i].createdAt > ms[j].createdAt || (ms[i].createdAt == ms[j].createdAt && TextLess(ms[j].id, ms[i].id))
  }

  lemma DescendingIsNewestFirst(ms: seq<Microblob>)
    requires Descending(ms)
    ensures NewestFirst(ms)
  {
    forall i, j | 0 <= i < j < |ms|
      ensures ms[i].createdAt > ms[j].createdAt || (ms[i].createdAt == ms[j].createdAt && TextLess(ms[j].id, ms[i].id))
    {
      assert PosLess(PosOf(ms[j]), PosOf(ms[i]));
    }
  }

  ghost predicate StoredPending(kv: Store, ms: seq<Microblob>) {
    forall i :: 0 <= i < |ms| ==> RecordOf(kv, ms[i].id) == Some(ms[i]) && ms[i].status == Pending
  }

  lemma PendingKey(kv: Store, p: Pos)
    requires Agrees(kv)
    ensures p in StatusKeys(kv, Pending) <==>
      IsPending(RecordOf(kv, p.id)) && RecordOf(kv, p.id).value.createdAt == p.at
  {
    assert p in StatusKeys(kv, Pending) <==> ByStatus(Pending, p.at, p.id) in kv.entries;
    assert ByStatus(Pending, p.at, p.id) in kv.entries <==> Belongs(kv, ByStatus(Pending, p.at, p.id));
  }

  lemma TxKey(kv: Store, txHash: string, p: Pos)
    requires Agrees(kv)
    ensures p in TxKeys(kv, txHash) <==>
      var r := RecordOf(kv, p.id);
      r.Some? && r.value.status == Bundled && r.value.bundleTxHash == Some(txHash) && r.value.createdAt == p.at
  {
    assert p in TxKeys(kv, txHash) <==> ByTx(txHash, p.at, p.id) in kv.entries;
    assert ByTx(txHash, p.at, p.id) in kv.entries <==> Belongs(kv, ByTx(txHash, p.at, p.id));
  }

  lemma ListedIsPending(kv: Store, listing: seq<Pos>, k: nat)
    requires Agrees(kv) && IsListing(listing, StatusKeys(kv, Pending)) && k < |listing|
    ensures IsPending(RecordOf(kv, listing[k].id)) && PosOf(RecordOf(kv, listing[k].id).value) == listing[k]
  {
    assert listing[k] in listing;
    PendingKey(kv, listing[k]);
  }

  lemma FetchedPending(kv: Store, listing: seq<Pos>, ids: seq<Pos>)
    requires Agrees(kv) && IsListing(listing, StatusKeys(kv, Pending))
    requires |ids| <= |listing| && forall i :: 0 <= i < |ids| ==> ids[i] == listing[|listing| - 1 - i]
    ensures Descending(Fetch(kv, ids)) && StoredPending(kv, Fetch(kv, ids))
  {
    forall i | 0 <= i < |ids|
      ensures IsPending(RecordOf(kv, ids[i].id)) && PosOf(RecordOf(kv, ids[i].id).value) == ids[i]
    {
      ListedIsPending(kv, listing, |listing| - 1 - i);
    }
    FetchAll(kv, ids);
    var ms := Fetch(kv, ids);
    forall i, j | 0 <= i < j < |ms| ensures PosLess(PosOf(ms[j]), PosOf(ms[i])) {
      assert PosLess(listing[|listing| - 1 - j], listing[|listing| - 1 - i]);
    }
  }

  // A pending record that is not listed: the list is full, and all it holds is newer.
  ghost predicate LeftOut(kv: Store, limit: nat, ms: seq<Microblob>, id: string) {
    && IsPending(RecordOf(kv, id)) && |ms| == limit
    && forall i :: 0 <= i < |ms| ==> PosLess(PosOf(RecordOf(kv, id).value), PosOf(ms[i]))
  }

  function Ids(ms: seq<Microblob>): (r: seq<string>)
    ensures |r| == |ms| && forall i :: 0 <= i < |ms| ==> r[i] == ms[i].id
  {
    seq(|ms|, i requires 0 <= i < |ms| => ms[i].id)
  }

  lemma ListedOrLeftOut(kv: Store, listing: seq<Pos>, limit: nat, id: string)
    requires Agrees(kv) && IsListing(listing, StatusKeys(kv, Pending)) && IsPending(RecordOf(kv, id))
    ensures var ms := Fetch(kv, Take(Reverse(listing), limit));
      id in Ids(ms) || LeftOut(kv, limit, ms, id)
  {
    var ids := Take(Reverse(listing), limit);
    var ms := Fetch(kv, ids);
    var p := PosOf(RecordOf(kv, id).value);
    PendingKey(kv, p);
    assert p in listing;
    var j :| 0 <= j < |listing| && listing[j] == p;
    forall i | 0 <= i < |ids|
      ensures IsPending(RecordOf(kv, ids[i].id)) && PosOf(RecordOf(kv, ids[i].id).value) == ids[i]
    {
      ListedIsPending(kv, listing, |listing| - 1 - i);
    }
    FetchAll(kv, ids);
    var r := |listing| - 1 - j;
    if r < |ids| {
      assert ms[r] == RecordOf(kv, ids[r].id).value && Ids(ms)[r] == id;
    } else {
      forall i | 0 <= i < |ms| ensures PosLess(p, PosOf(ms[i])) {
        assert ids[i] == listing[|listing| - 1 - i];
      }
    }
  }

  lemma AllListedOrLeftOut(kv: Store, listing: seq<Pos>, limit: nat)
    requires Agrees(kv) && IsListing(listing, StatusKeys(kv, Pending))
    ensures var ms := Fetch(kv, Take(Reverse(listing), limit));
      forall id :: IsPending(RecordOf(kv, id)) ==> id in Ids(ms) || LeftOut(kv, limit, ms, id)
  {
    var ms := Fetch(kv, Take(Reverse(listing), limit));
    forall id | IsPending(RecordOf(kv, id)) ensures id in Ids(ms) || LeftOut(kv, limit, ms, id) {
      ListedOrLeftOut(kv, listing, limit, id);
    }
  }

  lemma {:induction false} FetchLength(kv: Store, ids: seq<Pos>)
    ensures |Fetch(kv, ids)| <= |ids|
  {
    if ids != [] {
      FetchLength(kv, ids[..|ids| - 1]);
    }
  }

  /**
    The pending list holds stored pending records, newest first; a pending record
    is left out only if the list is full, and then it is older than all listed ones.
  */
  lemma PendingListing(kv: Store, limit: nat, ms: seq<Microblob>)
    requires Agrees(kv) && IsStatusList(kv, Pending, limit, ms)
    ensures Descending(ms) && StoredPending(kv, ms) && |ms| <= limit
    ensures NewestFirst(ms)
    ensures forall id :: IsPending(RecordOf(kv, id)) ==> id in Ids(ms) || LeftOut(kv, limit, ms, id)
  {
    var listing :| IsListing(listing, StatusKeys(kv, Pending)) && ms == Fetch(kv, Take(Reverse(listing), limit));
    FetchedPending(kv, listing, Take(Reverse(listing), limit));
    FetchLength(kv, Take(Reverse(listing), limit));
    DescendingIsNewestFirst(ms);
    AllListedOrLeftOut(kv, listing, limit);
  }

  // ---- the order of the by-transaction answer -------------------------------

  // `found` holds the records of `used` as they stand in the store, last one first.
  ghost predicate ReadsBackwards(kv: Store, used: seq<Microblob>, found: seq<Microblob>) {
    |found| == |used|
    && forall i :: 0 <= i < |found| ==> RecordOf(kv, used[|used| - 1 - i].id) == Some(found[i])
  }

  function Positions(ms: seq<Microblob>): (r: seq<Pos>)
    ensures |r| == |ms| && forall i :: 0 <= i < |ms| ==> r[i] == PosOf(ms[i])
  {
    seq(|ms|, i requires 0 <= i < |ms| => PosOf(ms[i]))
  }

  // The payloads of `found` are those of `used`, last one first.
  ghost predicate PayloadsBackwards(used: seq<Microblob>, found: seq<Microblob>) {
    |found| == |used| && forall i :: 0 <= i < |found| ==> found[i].payload == Payloads(used)[|used| - 1 - i]
  }

  lemma InListing(used: seq<Microblob>, p: Pos)
    ensures p in Reverse(Positions(used)) <==> exists i :: 0 <= i < |used| && PosOf(used[i]) == p
  {
    var l := Reverse(Positions(used));
    if p in l {
      var j :| 0 <= j < |l| && l[j] == p;
      assert PosOf(used[|used| - 1 - j]) == p;
    }
    if i :| 0 <= i < |used| && PosOf(used[i]) == p {
      assert l[|used| - 1 - i] == p;
    }
  }

  // The by-transaction index after marking lists the published batch backwards.
  lemma TxListing(before: Store, used: seq<Microblob>, txHash: string, times: seq<nat>)
    requires Agrees(before) && Normalize(txHash) == txHash && TxKeys(before, txHash) == {}
    requires Descending(used) && StoredPending(before, used) && |times| >= |used|
    ensures var after := MarkAll(before, Ids(used), txHash, times).0;
      && Agrees(after)
      && (forall i :: 0 <= i < |used| ==> Marked(Some(used[i]), RecordOf(after, used[i].id), true, txHash))
      && IsListing(Reverse(Positions(used)), TxKeys(after, txHash))
  {
    var after := MarkAll(before, Ids(used), txHash, times).0;
    MarkAllEffect(before, Ids(used), txHash, times);
    forall i | 0 <= i < |used| ensures Marked(Some(used[i]), RecordOf(after, used[i].id), true, txHash) {
      assert used[i].id == Ids(used)[i];
      assert Marked(RecordOf(before, used[i].id), RecordOf(after, used[i].id), used[i].id in Ids(used), txHash);
    }
    var listing := Reverse(Positions(used));
    forall p ensures p in listing <==> p in TxKeys(after, txHash) {
      TxKey(before, txHash, p);
      TxKey(after, txHash, p);
      assert p in TxKeys(before, txHash) <==> false;
      assert Marked(RecordOf(before, p.id), RecordOf(after, p.id), p.id in Ids(used), txHash);
      InListing(used, p);
      if p.id in Ids(used) {
        var i :| 0 <= i < |used| && used[i].id == p.id;
        assert RecordOf(before, p.id) == Some(used[i]);
      }
    }
  }

  lemma FoundBackwards(after: Store, used: seq<Microblob>, txHash: string, listing: seq<Pos>)
    requires Descending(used) && listing == Reverse(Positions(used))
    requires forall i :: 0 <= i < |used| ==> Marked(Some(used[i]), RecordOf(after, used[i].id), true, txHash)
    requires forall i :: 0 <= i < |used| ==> used[i].status == Pending
    ensures ReadsBackwards(after, used, Fetch(after, listing))
    ensures SortedByTime(Fetch(after, listing))
  {
    forall i | 0 <= i < |listing|
      ensures listing[i] == PosOf(used[|used| - 1 - i])
      ensures RecordOf(after, listing[i].id).Some? && RecordOf(after, listing[i].id).value.createdAt == listing[i].at
    {
      var m := used[|used| - 1 - i];
      assert Marked(Some(m), RecordOf(after, m.id), true, txHash);
    }
    FetchAll(after, listing);
    var found := Fetch(after, listing);
    forall i, j | 0 <= i < j < |found| ensures found[i].createdAt <= found[j].createdAt {
      assert PosLess(PosOf(used[|used| - 1 - i]), PosOf(used[|used| - 1 - j]));
    }
  }

  lemma FoundPayloads(after: Store, used: seq<Microblob>, txHash: string, found: seq<Microblob>)
    requires ReadsBackwards(after, used, found) && forall i :: 0 <= i < |used| ==> used[i].status == Pending
    requires forall i :: 0 <= i < |used| ==> Marked(Some(used[i]), RecordOf(after, used[i].id), true, txHash)
    ensures PayloadsBackwards(used, found)
  {
    forall i | 0 <= i < |found| ensures found[i].payload == used[|used| - 1 - i].payload {
      var m := used[|used| - 1 - i];
      assert Marked(Some(m), RecordOf(after, m.id), true, txHash);
      assert RecordOf(after, m.id) == Some(found[i]);
    }
  }

  /**
    After an uninterrupted mark under a fresh transaction hash, the lookup by
    transaction returns exactly the published records, in the reverse of their
    published order, with the payloads that were encoded.
  */
  lemma LookupReverses(before: Store, used: seq<Microblob>, txHash: string, times: seq<nat>, listing: seq<Pos>)
    requires Agrees(before) && Normalize(txHash) == txHash && TxKeys(before, txHash) == {}
    requires Descending(used) && StoredPending(before, used) && |times| >= |used|
    requires IsListing(listing, TxKeys(MarkAll(before, Ids(used), txHash, times).0, txHash))
    ensures var after := MarkAll(before, Ids(used), txHash, times).0;
      && (forall i :: 0 <= i < |used| ==> Marked(Some(used[i]), RecordOf(after, used[i].id), true, txHash))
      && ReadsBackwards(after, used, SortByTime(Fetch(after, listing)))
      && PayloadsBackwards(used, SortByTime(Fetch(after, listing)))
  {
    var after := MarkAll(before, Ids(used), txHash, times).0;
    TxListing(before, used, txHash, times);
    ListingUnique(listing, Reverse(Positions(used)), TxKeys(after, txHash));
    FoundBackwards(after, used, txHash, listing);
    SortOfSorted(Fetch(after, listing));
    FoundPayloads(after, used, txHash, SortByTime(Fetch(after, listing)));
  }

  lemma FirstDiffers(before: Store, after: Store, used: seq<Microblob>, found: seq<Microblob>)
    requires Descending(used) && StoredPending(before, used) && |used| >= 2
    requires RecordsOk(after) && ReadsBackwards(after, used, found)
    ensures found[0].id != used[0].id
  {
    var n := |used| - 1;
    assert PosLess(PosOf(used[n]), PosOf(used[0]));
    PosTotal(PosOf(used[0]), PosOf(used[0]));
    assert RecordOf(after, used[n - 0].id) == Some(found[0]);
  }

  /** So the documented claim that the two orders agree holds exactly for batches of at most one record. */
  lemma SameOrderIffSingle(before: Store, after: Store, used: seq<Microblob>, found: seq<Microblob>)
    requires Descending(used) && StoredPending(before, used)
    requires RecordsOk(after) && ReadsBackwards(after, used, found)
    ensures Ids(found) == Ids(used) <==> |used| <= 1
  {
    if |used| == 1 {
      assert RecordOf(after, used[0].id) == Some(found[0]);
      assert Ids(found) == [used[0].id] == Ids(used);
    } else if |used| >= 2 {
      FirstDiffers(before, after, used, found);
    }
  }

  // ---- marking a published batch --------------------------------------------

  lemma PublishedReadBackwards(before: Store, used: seq<Microblob>, txHash: string, times: seq<nat>)
    requires Agrees(before) && Descending(used) && StoredPending(before, used)
    requires Normalize(txHash) == txHash && |times| >= |used|
    ensures TxKeys(before, txHash) == {} ==>
      var after := MarkAll(before, Ids(used), txHash, times).0;
      forall listing :: IsListing(listing, TxKeys(after, txHash)) ==>
        && ReadsBackwards(after, used, SortByTime(Fetch(after, listing)))
        && PayloadsBackwards(used, SortByTime(Fetch(after, listing)))
  {
    var after := MarkAll(before, Ids(used), txHash, times).0;
    if TxKeys(before, txHash) == {} {
      forall listing | IsListing(listing, TxKeys(after, txHash))
        ensures ReadsBackwards(after, used, SortByTime(Fetch(after, listing)))
        ensures PayloadsBackwards(used, SortByTime(Fetch(after, listing)))
      {
        LookupReverses(before, used, txHash, times, listing);
      }
    }
  }

  lemma {:induction false} PublishedAreDistinct(kv: Store, used: seq<Microblob>)
    requires Descending(used) && StoredPending(kv, used)
    ensures |PendingIds(kv, Ids(used))| == |used|
  {
    if used != [] {
      var n := |used| - 1;
      PublishedAreDistinct(kv, used[..n]);
      assert Ids(used) == Ids(used[..n]) + [used[n].id];
      PendingIdsStep(kv, Ids(used[..n]), used[n].id);
      forall i | 0 <= i < n ensures used[i].id != used[n].id {
        PosTotal(PosOf(used[n]), PosOf(used[n]));
        assert PosLess(PosOf(used[n]), PosOf(used[i]));
      }
    }
  }

  lemma MarkedBatch(before: Store, used: seq<Microblob>, txHash: string, times: seq<nat>)
    requires Agrees(before) && Descending(used) && StoredPending(before, used)
    requires Normalize(txHash) == txHash && |times| >= |used|
    ensures var (after, count) := MarkAll(before, Ids(used), txHash, times);
      && Agrees(after) && count == |used| && MarksRecords(before, after, Ids(used), txHash, times)
  {
    MarkAllEffect(before, Ids(used), txHash, times);
    PublishedAreDistinct(before, used);
  }

  // Exactly the records of the batch, which were pending, are bundled now, and if
  // the hash is fresh, the lookup by transaction finds them last one first.
  ghost predicate IsPublished(before: Store, after: Store, used: seq<Microblob>, txHash: string, times: seq<nat>)
    requires |times| >= |used|
  {
    && Descending(used) && StoredPending(before, used)
    && after == MarkAll(before, Ids(used), txHash, times).0
    && MarksRecords(before, after, Ids(used), txHash, times)
    && (TxKeys(before, txHash) == {} ==>
          forall listing :: IsListing(listing, TxKeys(after, txHash)) ==>
            && ReadsBackwards(after, used, SortByTime(Fetch(after, listing)))
            && PayloadsBackwards(used, SortByTime(Fetch(after, listing))))
  }

  lemma Published(before: Store, used: seq<Microblob>, txHash: string, times: seq<nat>)
    requires Agrees(before) && Descending(used) && StoredPending(before, used)
    requires Normalize(txHash) == txHash && |times| >= |used|
    ensures var (after, count) := MarkAll(before, Ids(used), txHash, times);
      Agrees(after) && count == |used| && IsPublished(before, after, used, txHash, times)
  {
    MarkedBatch(before, used, txHash, times);
    PublishedReadBackwards(before, used, txHash, times);
  }

  lemma PrefixOfPending(kv: Store, ms: seq<Microblob>, used: seq<Microblob>)
    requires Descending(ms) && StoredPending(kv, ms) && |used| <= |ms| && used == ms[..|used|]
    ensures Descending(used) && StoredPending(kv, used)
  {
  }

  // The batch that a run sends from the pending list: the longest prefix that
  // fits, and none if nothing is pending, nothing can be sent, or nothing fits.
  ghost predicate IsBatch(
    publisher: Option<nat -> nat>, sent: Option<string>, pending: seq<Microblob>, used: seq<Microblob>
  ) {
    if pending == [] || publisher.None? || sent.None? then used == []
    else
      && (forall k :: 0 <= k <= |pending| ==> Fits(Payloads(pending)[..k]))
      && IsTrimmed(publisher.value, pending, if used == [] then Err(TooLarge(0)) else Ok(used))
  }

  // ---- the documented order fails -------------------------------------------

  lemma TwoPending(a: Microblob, b: Microblob)
    requires a.status == b.status == Pending && WellFormed(a) && WellFormed(b)
    requires a.id != b.id && a.createdAt < b.createdAt
    ensures var kv := Put(Put(EMPTY, a), b);
      && Agrees(kv) && RecordOf(kv, a.id) == Some(a) && RecordOf(kv, b.id) == Some(b)
      && StatusKeys(kv, Pending) == {PosOf(a), PosOf(b)}
      && forall txHash :: TxKeys(kv, txHash) == {}
  {
    assert Agrees(EMPTY) by {
      forall k ensures !Belongs(EMPTY, k) {
      }
    }
    PutAgrees(EMPTY, a);
    PutAgrees(Put(EMPTY, a), b);
    var kv := Put(Put(EMPTY, a), b);
    forall p ensures p in StatusKeys(kv, Pending) <==> p in {PosOf(a), PosOf(b)} {
      PendingKey(kv, p);
    }
  }

  lemma TwoListed(a: Microblob, b: Microblob, kv: Store)
    requires a.status == b.status == Pending && a.createdAt < b.createdAt
    requires RecordOf(kv, a.id) == Some(a) && RecordOf(kv, b.id) == Some(b)
    requires StatusKeys(kv, Pending) == {PosOf(a), PosOf(b)}
    ensures IsStatusList(kv, Pending, 100, [b, a]) && Descending([b, a]) && StoredPending(kv, [b, a])
  {
    var listing, newest := [PosOf(a), PosOf(b)], [PosOf(b), PosOf(a)];
    assert IsListing(listing, StatusKeys(kv, Pending));
    assert Reverse(listing) == newest == Take(newest, 100);
    assert newest[..1] == [PosOf(b)] && newest[..1][..0] == [];
    assert Fetch(kv, newest[..1]) == [b];
    assert Fetch(kv, newest) == [b] + [a];
  }

  lemma TwoBackwards(after: Store, used: seq<Microblob>, found: seq<Microblob>)
    requires |used| == 2 && RecordsOk(after) && ReadsBackwards(after, used, found)
    ensures Ids(found) == [used[1].id, used[0].id]
  {
    assert RecordOf(after, used[1].id) == Some(found[0]) && RecordOf(after, used[0].id) == Some(found[1]);
  }

  /** Of any two pending records the newer is published first, and the lookup by transaction returns the older first. */
  lemma NewerSentOlderFound(a: Microblob, b: Microblob, txHash: string, times: seq<nat>) returns (listing: seq<Pos>)
    requires a.status == b.status == Pending && WellFormed(a) && WellFormed(b)
    requires a.id != b.id && a.createdAt < b.createdAt && Normalize(txHash) == txHash && |times| >= 2
    ensures var kv := Put(Put(EMPTY, a), b);
      && Agrees(kv) && IsStatusList(kv, Pending, 100, [b, a])
      && var after := MarkAll(kv, [b.id, a.id], txHash, times).0;
         IsListing(listing, TxKeys(after, txHash)) && Ids(SortByTime(Fetch(after, listing))) == [a.id, b.id]
  {
    var kv, used := Put(Put(EMPTY, a), b), [b, a];
    TwoPending(a, b);
    TwoListed(a, b, kv);
    listing := Reverse(Positions(used));
    assert Ids(used) == [b.id, a.id];
    TxListing(kv, used, txHash, times);
    LookupReverses(kv, used, txHash, times, listing);
    TwoBackwards(MarkAll(kv, Ids(used), txHash, times).0, used, SortByTime(
      Fetch(MarkAll(kv, Ids(used), txHash, times).0, listing)));
  }

  lemma SmallPayloads(used: seq<Microblob>)
    requires |used| == 2 && forall i :: 0 <= i < 2 ==> |used[i].payload| == 1
    ensures Fits(Payloads(used)) && forall k :: 0 <= k <= |used| ==> Fits(Payloads(used)[..k])
  {
    var es := Payloads(used);
    assert |EncodeItems(es[1..][1..])| == 0;
    assert |EncodeItems(es[1..])| == |EncodeString(es[1])|;
    assert |EncodeItems(es)| == |EncodeString(es[0])| + |EncodeString(es[1])|;
    PrefixesFit(used);
  }

  lemma OneBlobEnough(used: seq<Microblob>, txHash: string)
    requires |used| == 2 && forall i :: 0 <= i < 2 ==> |used[i].payload| == 1
    ensures IsBatch(Some((_: nat) => 1), Some(txHash), used, used)
  {
    SmallPayloads(used);
  }

  // A pending record with one byte of payload.
  function SmallRecord(id: string, createdAt: nat): Microblob {
    Microblob(id, "", [1], "", "", Pending, createdAt, None, None)
  }

  lemma HexIsNormal(txHash: string)
    requires txHash == "0x1"
    ensures Normalize(txHash) == txHash
  {
  }

  /** Two small records: the job sends "b" before "a", both fit one blob, and the lookup returns "a" before "b". */
  lemma OrdersDiffer(a: Microblob, b: Microblob, txHash: string, times: seq<nat>) returns (listing: seq<Pos>)
    requires a == SmallRecord("a", 1) && b == SmallRecord("b", 2) && txHash == "0x1" && times == [3, 4]
    ensures var kv := Put(Put(EMPTY, a), b);
      && Agrees(kv) && IsStatusList(kv, Pending, 100, [b, a])
      && IsBatch(Some((_: nat) => 1), Some(txHash), [b, a], [b, a])
      && var after := MarkAll(kv, [b.id, a.id], txHash, times).0;
         IsListing(listing, TxKeys(after, txHash)) && Ids(SortByTime(Fetch(after, listing))) == [a.id, b.id] != [b.id, a.id]
  {
    HexIsNormal(txHash);
    OneBlobEnough([b, a], txHash);
    listing := NewerSentOlderFound(a, b, txHash, times);
  }

  // ---- the server -----------------------------------------------------------

  class KvServer {
    var store: Store

    // openKv: whatever store is found at the path.
    constructor (found: Store)
      ensures store == found
    {
      store := found;
    }

    method PutMicroblob(m: Microblob)
      modifies this
      ensures store == Put(old(store), m)
    {
      var entries := store.entries[ById(m.id) := Entry(Record(m), store.clock)];
      var indexKey := if m.status == Pending then ByStatus(Pending, m.createdAt, m.id)
                      else ByStatus(Bundled, m.createdAt, m.id);
      entries := entries[indexKey := Entry(IdRef(m.id), store.clock)];
      store := Store(entries, store.clock + 1);
    }

    method GetMany(ids: seq<Pos>) returns (ms: seq<Microblob>)
      ensures ms == Fetch(store, ids)
    {
      ms := [];
      for i := 0 to |ids|
        invariant ms == Fetch(store, ids[..i])
      {
        assert ids[..i + 1][..i] == ids[..i];
        var r := RecordOf(store, ids[i].id);
        if r.Some? {
          ms := ms + [r.value];
        }
      }
      assert ids[..|ids|] == ids;
    }

    method ListMicroblobs(status: Status, limit: nat) returns (ms: seq<Microblob>)
      ensures IsStatusList(store, status, limit, ms)
    {
      var listing := List(StatusKeys(store, status));
      ms := GetMany(Take(Reverse(listing), limit));
    }

    // `times[i]` is what the clock shows in round `i`.
    method MarkBundled(ids: seq<string>, bundleTxHash: string, times: seq<nat>) returns (updated: nat)
      requires |times| >= |ids|
      modifies this
      ensures (store, updated) == MarkAll(old(store), ids, Normalize(bundleTxHash), times)
      ensures forall txHash :: Lowers(bundleTxHash, txHash) ==> MarksRecords(old(store), store, ids, txHash, times)
      ensures updated == |PendingIds(old(store), ids)|
      ensures Agrees(old(store)) ==> Agrees(store)
    {
      var txHash := Normalize(bundleTxHash);
      updated := 0;
      for i := 0 to |ids|
        invariant (store, updated) == MarkAll(old(store), ids[..i], txHash, times)
      {
        assert ids[..i + 1][..i] == ids[..i];
        var id := ids[i];
        var r := RecordOf(store, id);
        if r.None? || r.value.status != Pending {
          continue;
        }
        var entry := store.entries[ById(id)];
        var (next, ok) := CommitBundled(store, id, entry, txHash, times[i]);
        store := next;
        if ok {
          updated := updated + 1;
        }
      }
      assert ids[..|ids|] == ids;
      MarkAllEffect(old(store), ids, txHash, times);
      NormalizeTwice(bundleTxHash);
      forall lowered | Lowers(bundleTxHash, lowered) ensures lowered == txHash {
        NormalizeLowers(bundleTxHash, lowered);
      }
    }

    method ListMicroblobsByTx(txHash: string) returns (ms: seq<Microblob>)
      ensures exists listing ::
        IsListing(listing, TxKeys(store, Normalize(txHash))) && ms == SortByTime(Fetch(store, listing))
    {
      var listing := List(TxKeys(store, Normalize(txHash)));
      ms := GetMany(listing);
      ms := SortByTime(ms);
    }

    /**
      One run of the cron job without interference. `publisher` is toBlobs as a
      function of the encoded length, absent when no key is configured; `sent` is
      the hash the chain returns, absent when sending fails. Either nothing
      changes, or exactly the records of the published batch become bundled, and
      the lookup by transaction then finds them last one first. The batch is the
      longest prefix that fits of the newest 100 pending records; it is empty only
      if nothing is pending, nothing can be sent, or not even one record fits.
    */
    method ProcessPending(publisher: Option<nat -> nat>, sent: Option<string>, times: seq<nat>)
      returns (used: seq<Microblob>, bundled: nat, ghost pending: seq<Microblob>)
      requires Agrees(store) && |times| >= 100
      requires forall ms :: IsStatusList(store, Pending, 100, ms) ==> Fits(Payloads(ms))
      modifies this
      ensures IsStatusList(old(store), Pending, 100, pending) && IsBatch(publisher, sent, pending, used)
      ensures Agrees(store) && |used| <= 100 && bundled == |used|
      ensures used == [] ==> store == old(store)
      ensures used != [] ==> sent.Some? && IsPublished(old(store), store, used, Normalize(sent.value), times)
    {
      ghost var before := store;
      used, bundled := [], 0;
      var listed := ListMicroblobs(Pending, 100);
      pending := listed;
      PendingListing(store, 100, listed);
      if listed == [] || publisher.None? {
        return;
      }
      var fitted := PublishMicroblobs(publisher.value, listed);
      if fitted.Err? || sent.None? {
        return;
      }
      used := fitted.value;
      PrefixOfPending(before, listed, used);
      bundled := MarkBundled(Ids(used), sent.value, times);
      NormalizeTwice(sent.value);
      Published(before, used, Normalize(sent.value), times);
    }
  }
}
