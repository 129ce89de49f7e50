/**
  Repeated runs of the cron job without new submissions: what they bundle in the
  end, and what they leave pending for ever.
*/
module Draining {
  import opened Prelude
  import opened Rlp
  import opened Ordering
  import opened Kv
  import opened Publisher
  import opened Bundler

  // ---- one run ----------------------------------------------------------------

  // What a run may do to the store when it has a publisher and sending succeeds:
  // the promises of processPending.
  ghost predicate RunShows(
    f: nat -> nat, before: Store, after: Store, pending: seq<Microblob>, used: seq<Microblob>, txHash: string,
    times: seq<nat>
  ) {
    && IsStatusList(before, Pending, 100, pending) && |times| >= |used|
    && IsBatch(Some(f), Some(txHash), pending, used)
    && (used == [] ==> after == before)
    && (used != [] ==> IsPublished(before, after, used, Normalize(txHash), times))
  }

  // The record fits a transaction of its own.
  ghost predicate FitsAlone(f: nat -> nat, m: Microblob) {
    Fits([m.payload]) && f(|EncodeList([m.payload])|) <= 6
  }

  ghost predicate TooLarge(f: nat -> nat, kv: Store, id: string) {
    IsPending(RecordOf(kv, id)) && !FitsAlone(f, RecordOf(kv, id).value)
  }

  ghost predicate NotNewer(kv: Store, id: string, big: string)
    requires RecordOf(kv, id).Some? && RecordOf(kv, big).Some?
  {
    big == id || PosLess(PosOf(RecordOf(kv, id).value), PosOf(RecordOf(kv, big).value))
  }

  // Pending, and too large or older than a pending record that is.
  ghost predicate Stuck(f: nat -> nat, kv: Store, id: string) {
    && IsPending(RecordOf(kv, id))
    && exists big :: TooLarge(f, kv, big) && NotNewer(kv, id, big)
  }

  // Every pending record is stuck.
  ghost predicate Drained(f: nat -> nat, kv: Store) {
    forall id :: IsPending(RecordOf(kv, id)) ==> Stuck(f, kv, id)
  }

  ghost function PendingSet(kv: Store): set<string> {
    set k | k in kv.entries && k.ById? && IsPending(RecordOf(kv, k.id)) :: k.id
  }

  lemma InPendingSet(kv: Store, id: string)
    ensures id in PendingSet(kv) <==> IsPending(RecordOf(kv, id))
  {
    if IsPending(RecordOf(kv, id)) {
      assert ById(id) in kv.entries;
    }
  }

  // ---- what a run bundles -----------------------------------------------------

  lemma UsedFitsAlone(f: nat -> nat, pending: seq<Microblob>, used: seq<Microblob>, i: nat)
    requires Monotone(f) && i < |used|
    requires forall k :: 0 <= k <= |pending| ==> Fits(Payloads(pending)[..k])
    requires IsTrimmed(f, pending, Ok(used))
    ensures FitsAlone(f, used[i])
  {
    var es := Payloads(pending)[..|used|];
    assert es[i] == used[i].payload;
    EntryAlone(es, i);
  }

  ghost predicate PendingList(kv: Store, ms: seq<Microblob>) {
    && Descending(ms) && StoredPending(kv, ms)
    && forall id :: IsPending(RecordOf(kv, id)) ==> id in Ids(ms) || LeftOut(kv, 100, ms, id)
  }

  lemma NotSent(f: nat -> nat, used: seq<Microblob>, m: Microblob)
    requires (forall k :: 0 <= k < |used| ==> FitsAlone(f, used[k])) && !FitsAlone(f, m)
    ensures m !in used
  {
  }

  lemma BeyondPrefix(ms: seq<Microblob>, used: seq<Microblob>, b: nat)
    requires b < |ms| && |used| <= |ms| && used == ms[..|used|] && ms[b] !in used
    ensures b >= |used|
  {
  }

  // A record that is too large is older than the whole batch: the batch stops before it.
  lemma BatchIsNewer(f: nat -> nat, kv: Store, pending: seq<Microblob>, used: seq<Microblob>, big: string, i: nat)
    requires Monotone(f) && PendingList(kv, pending) && |used| <= |pending| && used == pending[..|used|]
    requires forall k :: 0 <= k < |used| ==> FitsAlone(f, used[k])
    requires TooLarge(f, kv, big) && i < |used|
    ensures PosLess(PosOf(RecordOf(kv, big).value), PosOf(used[i]))
  {
    if big in Ids(pending) {
      var b :| 0 <= b < |pending| && Ids(pending)[b] == big;
      assert RecordOf(kv, pending[b].id) == Some(pending[b]);
      NotSent(f, used, pending[b]);
      BeyondPrefix(pending, used, b);
    } else {
      assert LeftOut(kv, 100, pending, big);
      assert pending[i] == used[i];
    }
  }

  lemma BatchNotStuck(f: nat -> nat, kv: Store, pending: seq<Microblob>, used: seq<Microblob>, i: nat)
    requires Monotone(f) && PendingList(kv, pending) && |used| <= |pending| && used == pending[..|used|]
    requires forall k :: 0 <= k < |used| ==> FitsAlone(f, used[k])
    requires i < |used|
    ensures !Stuck(f, kv, used[i].id)
  {
    assert RecordOf(kv, pending[i].id) == Some(pending[i]);
    if Stuck(f, kv, used[i].id) {
      var big :| TooLarge(f, kv, big) && NotNewer(kv, used[i].id, big);
      BatchIsNewer(f, kv, pending, used, big, i);
      PosTotal(PosOf(used[i]), PosOf(RecordOf(kv, big).value));
    }
  }

  // If even the newest pending record is too large, all pending records are stuck.
  lemma StuckBehindNewest(f: nat -> nat, kv: Store, pending: seq<Microblob>)
    requires PendingList(kv, pending) && pending != [] && !FitsAlone(f, pending[0])
    ensures Drained(f, kv)
  {
    var big := pending[0].id;
    assert RecordOf(kv, pending[0].id) == Some(pending[0]);
    assert TooLarge(f, kv, big);
    forall id | IsPending(RecordOf(kv, id)) ensures Stuck(f, kv, id) {
      if id in Ids(pending) {
        var b :| 0 <= b < |pending| && Ids(pending)[b] == id;
        assert RecordOf(kv, pending[b].id) == Some(pending[b]);
      } else {
        assert LeftOut(kv, 100, pending, id);
      }
      assert NotNewer(kv, id, big);
    }
  }

  lemma NothingSentMeansDrained(f: nat -> nat, kv: Store, pending: seq<Microblob>, txHash: string)
    requires Agrees(kv) && PendingList(kv, pending) && IsBatch(Some(f), Some(txHash), pending, [])
    ensures Drained(f, kv)
  {
    if pending == [] {
      forall id ensures !IsPending(RecordOf(kv, id)) {
        assert !LeftOut(kv, 100, pending, id);
      }
    } else {
      assert Payloads(pending)[..1] == [pending[0].payload];
      assert BlobsNeeded(f, pending, 1) > MAX_BLOBS_PER_TX;
      StuckBehindNewest(f, kv, pending);
    }
  }

  // ---- what a run leaves ------------------------------------------------------

  // Every record is as it was, or was pending and is bundled with the same content.
  ghost predicate OnlyBundles(before: Store, after: Store) {
    forall id :: RecordOf(after, id) == RecordOf(before, id)
      || (IsPending(RecordOf(before, id)) && IsBundled(RecordOf(after, id))
          && KeepsContent(RecordOf(before, id).value, RecordOf(after, id).value))
  }

  // The batch of a run: which records it bundles.
  ghost predicate Bundles(before: Store, after: Store, ids: seq<string>) {
    OnlyBundles(before, after) && forall id :: RecordOf(after, id) == RecordOf(before, id) <==> id !in ids
  }

  lemma RunBundles(before: Store, after: Store, used: seq<Microblob>, txHash: string, times: seq<nat>)
    requires |times| >= |used| && StoredPending(before, used)
    requires used == [] ==> after == before
    requires used != [] ==> IsPublished(before, after, used, txHash, times)
    ensures Bundles(before, after, Ids(used))
  {
    forall id
      ensures RecordOf(after, id) == RecordOf(before, id) <==> id !in Ids(used)
      ensures id in Ids(used) ==>
        && IsPending(RecordOf(before, id)) && IsBundled(RecordOf(after, id))
        && KeepsContent(RecordOf(before, id).value, RecordOf(after, id).value)
    {
      if used != [] {
        assert Marked(RecordOf(before, id), RecordOf(after, id), id in Ids(used), txHash);
      }
      if id in Ids(used) {
        var i :| 0 <= i < |used| && Ids(used)[i] == id;
        assert RecordOf(before, used[i].id) == Some(used[i]);
      }
    }
  }

  // Bundling records that are not stuck frees none that are, and makes none stuck.
  lemma StuckRemains(f: nat -> nat, before: Store, after: Store, ids: seq<string>, id: string)
    requires Bundles(before, after, ids) && forall x :: x in ids ==> !Stuck(f, before, x)
    ensures Stuck(f, before, id) <==> Stuck(f, after, id)
  {
    if Stuck(f, before, id) {
      var big :| TooLarge(f, before, big) && NotNewer(before, id, big);
      assert Stuck(f, before, big) by {
        assert NotNewer(before, big, big);
      }
      assert RecordOf(after, id) == RecordOf(before, id) && RecordOf(after, big) == RecordOf(before, big);
      assert TooLarge(f, after, big) && NotNewer(after, id, big);
    }
    if Stuck(f, after, id) {
      var big :| TooLarge(f, after, big) && NotNewer(after, id, big);
      assert RecordOf(after, id) == RecordOf(before, id) && RecordOf(after, big) == RecordOf(before, big);
      assert TooLarge(f, before, big) && NotNewer(before, id, big);
    }
  }

  lemma Shrinks(a: set<string>, b: set<string>)
    requires a <= b
    ensures |a| <= |b|
  {
    assert b == a + (b - a);
  }

  lemma ShrinksBy(a: set<string>, b: set<string>, x: string)
    requires a <= b && x in b && x !in a
    ensures |a| < |b|
  {
    Shrinks(a + {x}, b);
  }

  lemma FewerPending(before: Store, after: Store, ids: seq<string>)
    requires Bundles(before, after, ids)
    ensures |PendingSet(after)| <= |PendingSet(before)|
    ensures ids != [] ==> |PendingSet(after)| < |PendingSet(before)|
  {
    forall id | id in PendingSet(after) ensures id in PendingSet(before) {
      InPendingSet(after, id);
      InPendingSet(before, id);
    }
    Shrinks(PendingSet(after), PendingSet(before));
    if ids != [] {
      assert ids[0] in ids;
      InPendingSet(after, ids[0]);
      InPendingSet(before, ids[0]);
      ShrinksBy(PendingSet(after), PendingSet(before), ids[0]);
    }
  }

  // ---- one run, all together ----------------------------------------------------

  lemma BatchOfRun(f: nat -> nat, kv: Store, pending: seq<Microblob>, used: seq<Microblob>, txHash: string)
    requires Monotone(f) && PendingList(kv, pending) && IsBatch(Some(f), Some(txHash), pending, used)
    ensures StoredPending(kv, used) && forall id :: id in Ids(used) ==> !Stuck(f, kv, id)
  {
    if used != [] {
      forall i | 0 <= i < |used| ensures FitsAlone(f, used[i]) {
        UsedFitsAlone(f, pending, used, i);
      }
      PrefixOfPending(kv, pending, used);
      forall id | id in Ids(used) ensures !Stuck(f, kv, id) {
        var i :| 0 <= i < |used| && Ids(used)[i] == id;
        BatchNotStuck(f, kv, pending, used, i);
      }
    }
  }

  ghost predicate SameStuck(f: nat -> nat, before: Store, after: Store) {
    forall id :: Stuck(f, before, id) <==> Stuck(f, after, id)
  }

  /**
    A run bundles only records that are not stuck, keeps the same ones stuck, and
    either bundles at least one or finds that all pending records are stuck.
  */
  lemma RunDrains(
    f: nat -> nat, before: Store, after: Store, pending: seq<Microblob>, used: seq<Microblob>, txHash: string,
    times: seq<nat>
  )
    requires Agrees(before) && Monotone(f) && RunShows(f, before, after, pending, used, txHash, times)
    ensures OnlyBundles(before, after)
    ensures SameStuck(f, before, after)
    ensures Drained(f, after) || |PendingSet(after)| < |PendingSet(before)|
  {
    PendingListing(before, 100, pending);
    assert PendingList(before, pending);
    BatchOfRun(f, before, pending, used, txHash);
    RunBundles(before, after, used, Normalize(txHash), times);
    forall id ensures Stuck(f, before, id) <==> Stuck(f, after, id) {
      StuckRemains(f, before, after, Ids(used), id);
    }
    if used == [] {
      NothingSentMeansDrained(f, before, pending, txHash);
    } else {
      FewerPending(before, after, Ids(used));
    }
  }

  // ---- repeated runs --------------------------------------------------------------

  // What `n` runs have made of the store.
  ghost predicate AfterRuns(f: nat -> nat, before: Store, after: Store, n: nat) {
    && OnlyBundles(before, after)
    && SameStuck(f, before, after)
    && (Drained(f, after) || |PendingSet(after)| + n <= |PendingSet(before)|)
  }

  lemma OnlyBundlesOver(a: Store, b: Store, c: Store)
    requires OnlyBundles(a, b) && OnlyBundles(b, c)
    ensures OnlyBundles(a, c)
  {
  }

  lemma DrainedRemains(f: nat -> nat, before: Store, after: Store)
    requires Drained(f, before) && OnlyBundles(before, after)
    requires SameStuck(f, before, after)
    ensures Drained(f, after)
  {
    forall id | IsPending(RecordOf(after, id)) ensures Stuck(f, after, id) {
      assert RecordOf(after, id) == RecordOf(before, id);
    }
  }

  lemma SameStuckOver(f: nat -> nat, a: Store, b: Store, c: Store)
    requires SameStuck(f, a, b) && SameStuck(f, b, c)
    ensures SameStuck(f, a, c)
  {
    forall id ensures Stuck(f, a, id) <==> Stuck(f, c, id) {
      assert Stuck(f, a, id) <==> Stuck(f, b, id);
    }
  }

  lemma OneMoreRun(f: nat -> nat, before: Store, mid: Store, after: Store, n: nat)
    requires AfterRuns(f, before, mid, n) && OnlyBundles(mid, after) && SameStuck(f, mid, after)
    requires Drained(f, after) || |PendingSet(after)| < |PendingSet(mid)|
    ensures AfterRuns(f, before, after, n + 1)
  {
    OnlyBundlesOver(before, mid, after);
    SameStuckOver(f, before, mid, after);
    if Drained(f, mid) {
      DrainedRemains(f, mid, after);
    }
  }

  // Any hundred pending records have 64-bit encodings.
  ghost predicate AllFit(kv: Store) {
    forall ms: seq<Microblob> :: StoredPending(kv, ms) && |ms| <= 100 ==> Fits(Payloads(ms))
  }

  lemma AllFitRemains(before: Store, after: Store)
    requires AllFit(before) && OnlyBundles(before, after)
    ensures AllFit(after)
  {
    forall ms: seq<Microblob> | StoredPending(after, ms) && |ms| <= 100 ensures Fits(Payloads(ms)) {
      forall i | 0 <= i < |ms| ensures RecordOf(before, ms[i].id) == Some(ms[i]) {
        assert RecordOf(after, ms[i].id) == Some(ms[i]);
      }
      assert StoredPending(before, ms);
    }
  }

  lemma ListsFit(kv: Store)
    requires Agrees(kv) && AllFit(kv)
    ensures forall ms :: IsStatusList(kv, Pending, 100, ms) ==> Fits(Payloads(ms))
  {
    forall ms | IsStatusList(kv, Pending, 100, ms) ensures Fits(Payloads(ms)) {
      PendingListing(kv, 100, ms);
    }
  }

  lemma RunsAreEnough(f: nat -> nat, before: Store, after: Store, n: nat)
    requires AfterRuns(f, before, after, n) && n >= |PendingSet(before)|
    ensures forall id :: IsPending(RecordOf(after, id)) <==> Stuck(f, before, id)
  {
    forall id ensures IsPending(RecordOf(after, id)) <==> Stuck(f, before, id) {
      InPendingSet(after, id);
      assert Stuck(f, before, id) <==> Stuck(f, after, id);
    }
  }

  lemma StuckStaysPending(f: nat -> nat, before: Store, after: Store, n: nat)
    requires AfterRuns(f, before, after, n)
    ensures forall id :: Stuck(f, before, id) ==> IsPending(RecordOf(after, id))
  {
    forall id | Stuck(f, before, id) ensures IsPending(RecordOf(after, id)) {
      assert Stuck(f, after, id);
    }
  }

  /**
    Runs of the job, one per hash that the chain returns, without submissions in
    between and with a blob count that grows with the length. Once there have been
    as many as there were pending records, exactly the stuck ones are still
    pending: those too large on their own, and all older than one of those. The
    others are bundled; nothing else has changed.
  */
  method RunRepeatedly(server: KvServer, blobCount: nat -> nat, hashes: seq<string>, times: seq<nat>)
    requires Agrees(server.store) && AllFit(server.store) && Monotone(blobCount) && |times| >= 100
    modifies server
    ensures Agrees(server.store) && OnlyBundles(old(server.store), server.store)
    ensures forall id :: Stuck(blobCount, old(server.store), id) ==> IsPending(RecordOf(server.store, id))
    ensures |hashes| >= |PendingSet(old(server.store))| ==>
      forall id :: IsPending(RecordOf(server.store, id)) <==> Stuck(blobCount, old(server.store), id)
  {
    ghost var first := server.store;
    for n := 0 to |hashes|
      invariant Agrees(server.store) && AllFit(server.store)
      invariant AfterRuns(blobCount, first, server.store, n)
    {
      ghost var before := server.store;
      ListsFit(before);
      var used, _, pending := server.ProcessPending(Some(blobCount), Some(hashes[n]), times);
      RunDrains(blobCount, before, server.store, pending, used, hashes[n], times);
      AllFitRemains(before, server.store);
      OneMoreRun(blobCount, first, before, server.store, n);
    }
    StuckStaysPending(blobCount, first, server.store, |hashes|);
    if |hashes| >= |PendingSet(first)| {
      RunsAreEnough(blobCount, first, server.store, |hashes|);
    }
  }

  /** So the queue drains, whatever it holds, exactly when each pending record fits a transaction of its own. */
  lemma DrainsIffEachFits(f: nat -> nat, kv: Store)
    ensures (forall id :: !Stuck(f, kv, id)) <==> forall id :: IsPending(RecordOf(kv, id)) ==> FitsAlone(f, RecordOf(kv, id).value)
  {
    if forall id :: !Stuck(f, kv, id) {
      forall id | IsPending(RecordOf(kv, id)) ensures FitsAlone(f, RecordOf(kv, id).value) {
        if TooLarge(f, kv, id) {
          assert NotNewer(kv, id, id);
          assert Stuck(f, kv, id);
        }
      }
    }
  }
}
