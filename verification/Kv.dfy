/**
  The collector's key-value store: one table of microblobs and three secondary
  indexes, updated by atomic commits that may check a versionstamp.
*/
module Kv {
  import opened Prelude
  import opened Bytes

  datatype Status = Pending | Bundled

  datatype Microblob = Microblob(
    id: string, address: string, payload: seq<byte>, signature: string, hash: string,
    status: Status, createdAt: nat, bundledAt: Option<nat>, bundleTxHash: Option<string>
  )

  datatype Key =
    | ById(id: string)
    | ByStatus(status: Status, at: nat, id: string)
    | ByTx(txHash: string, createdAt: nat, id: string)

  datatype Value = Record(m: Microblob) | IdRef(id: string)

  datatype Entry = Entry(value: Value, version: nat)

  // The stored entries and the versionstamp of the next commit.
  datatype Store = Store(entries: map<Key, Entry>, clock: nat)

  // normalizeTxHash
  function LowerChar(c: char): char {
    if 'A' <= c <= 'Z' then ((c as int) + 32) as char else c
  }

  function Normalize(s: string): (r: string)
    ensures |r| == |s| && forall i :: 0 <= i < |s| ==> r[i] == LowerChar(s[i])
  {
    seq(|s|, i requires 0 <= i < |s| => LowerChar(s[i]))
  }

  // `r` is `s` with its capital ASCII letters lowered.
  ghost predicate Lowers(s: string, r: string) {
    |r| == |s| && forall i :: 0 <= i < |s| ==> r[i] as int == s[i] as int + if 'A' <= s[i] <= 'Z' then 32 else 0
  }

  lemma NormalizeLowers(s: string, r: string)
    ensures Lowers(s, r) <==> r == Normalize(s)
  {
    if Lowers(s, r) {
      forall i | 0 <= i < |s| ensures r[i] == LowerChar(s[i]) {
      }
    }
  }

  lemma NormalizeTwice(s: string)
    ensures Normalize(Normalize(s)) == Normalize(s)
  {
  }

  // ---- the two atomic commits -----------------------------------------------

  // kv.atomic().set(ID_KEY).set(indexKey).commit(): no check, so it always succeeds.
  function Put(kv: Store, m: Microblob): Store {
    Store(
      kv.entries[ById(m.id) := Entry(Record(m), kv.clock)]
                [ByStatus(m.status, m.createdAt, m.id) := Entry(IdRef(m.id), kv.clock)],
      kv.clock + 1)
  }

  function Finished(m: Microblob, txHash: string, now: nat): Microblob {
    m.(status := Bundled, bundledAt := Some(now), bundleTxHash := Some(txHash))
  }

  // What was submitted, as opposed to what bundling sets.
  ghost predicate KeepsContent(m: Microblob, m': Microblob) {
    && m'.id == m.id && m'.address == m.address && m'.payload == m.payload
    && m'.signature == m.signature && m'.hash == m.hash && m'.createdAt == m.createdAt
  }

  // The checked commit of markBundled: it takes effect only if the record still
  // has the version it was read at.
  function CommitBundled(kv: Store, id: string, held: Entry, txHash: string, now: nat): (Store, bool)
    requires held.value.Record?
  {
    if ById(id) !in kv.entries || kv.entries[ById(id)].version != held.version then (kv, false)
    else
      var m := held.value.m;
      var updated := kv.entries[ById(id) := Entry(Record(Finished(m, txHash, now)), kv.clock)];
      var without := updated - {ByStatus(Pending, m.createdAt, id)};
      var indexed := without[ByStatus(Bundled, now, id) := Entry(IdRef(id), kv.clock)]
                            [ByTx(txHash, m.createdAt, id) := Entry(IdRef(id), kv.clock)];
      (Store(indexed, kv.clock + 1), true)
  }

  // ---- index agreement ------------------------------------------------------

  // kv.get(ID_KEY(id)).value
  function RecordOf(kv: Store, id: string): Option<Microblob> {
    if ById(id) in kv.entries && kv.entries[ById(id)].value.Record? then Some(kv.entries[ById(id)].value.m) else None
  }

  predicate WellFormed(m: Microblob) {
    match m.status
    case Pending => m.bundledAt.None? && m.bundleTxHash.None?
    case Bundled => m.bundledAt.Some? && m.bundleTxHash.Some? && Normalize(m.bundleTxHash.value) == m.bundleTxHash.value
  }

  // The time a record is indexed under.
  function StatusTime(m: Microblob): nat {
    if m.status == Bundled && m.bundledAt.Some? then m.bundledAt.value else m.createdAt
  }

  ghost predicate IsPending(r: Option<Microblob>) {
    r.Some? && r.value.status == Pending
  }

  ghost predicate IsBundled(r: Option<Microblob>) {
    r.Some? && r.value.status == Bundled
  }

  // The key-value pairs that a table of records calls for.
  ghost predicate Belongs(kv: Store, k: Key) {
    match k
    case ById(id) => RecordOf(kv, id).Some?
    case ByStatus(status, at, id) =>
      var r := RecordOf(kv, id);
      r.Some? && r.value.status == status && StatusTime(r.value) == at
    case ByTx(txHash, createdAt, id) =>
      var r := RecordOf(kv, id);
      r.Some? && r.value.status == Bundled && r.value.bundleTxHash == Some(txHash) && r.value.createdAt == createdAt
  }

  ghost predicate RecordsOk(kv: Store) {
    forall id :: RecordOf(kv, id).Some? ==> RecordOf(kv, id).value.id == id && WellFormed(RecordOf(kv, id).value)
  }

  // The indexes hold exactly what the records call for.
  ghost predicate IndexesAgree(kv: Store) {
    && (forall k :: k in kv.entries <==> Belongs(kv, k))
    && (forall k :: k in kv.entries && !k.ById? ==> kv.entries[k].value == IdRef(k.id))
  }

  ghost predicate VersionsOld(kv: Store) {
    forall k :: k in kv.entries ==> kv.entries[k].version < kv.clock
  }

  ghost predicate Agrees(kv: Store) {
    RecordsOk(kv) && IndexesAgree(kv) && VersionsOld(kv)
  }

  // The index keys, in plain terms: one status key for each record, under its time of submission or of
  // bundling, and a transaction key for each bundled one.
  ghost predicate KeysMatch(kv: Store) {
    && (forall at: nat, id :: ByStatus(Pending, at, id) in kv.entries <==>
          IsPending(RecordOf(kv, id)) && at == RecordOf(kv, id).value.createdAt)
    && (forall at: nat, id :: ByStatus(Bundled, at, id) in kv.entries <==>
          IsBundled(RecordOf(kv, id)) && RecordOf(kv, id).value.bundledAt == Some(at))
    && (forall txHash, createdAt: nat, id :: ByTx(txHash, createdAt, id) in kv.entries <==>
          IsBundled(RecordOf(kv, id)) && RecordOf(kv, id).value.bundleTxHash == Some(txHash)
          && createdAt == RecordOf(kv, id).value.createdAt)
  }

  lemma AgreeingKeys(kv: Store)
    requires Agrees(kv)
    ensures KeysMatch(kv)
  {
    forall k ensures k in kv.entries <==> Belongs(kv, k) {
    }
  }

  const EMPTY := Store(map[], 0)

  // ---- what the commits do to the records -----------------------------------

  lemma RecordAfterPut(kv: Store, m: Microblob, id: string)
    ensures RecordOf(Put(kv, m), id) == if id == m.id then Some(m) else RecordOf(kv, id)
  {
  }

  lemma RecordAfterBundle(kv: Store, id: string, held: Entry, txHash: string, now: nat, other: string)
    requires held.value.Record? && CommitBundled(kv, id, held, txHash, now).1
    ensures RecordOf(CommitBundled(kv, id, held, txHash, now).0, other)
         == if other == id then Some(Finished(held.value.m, txHash, now)) else RecordOf(kv, other)
  {
  }

  /** A submission with a fresh id keeps the indexes in agreement. */
  lemma PutAgrees(kv: Store, m: Microblob)
    requires Agrees(kv) && m.status == Pending && WellFormed(m) && RecordOf(kv, m.id).None?
    ensures Agrees(Put(kv, m))
  {
    var kv' := Put(kv, m);
    assert ById(m.id) !in kv.entries by {
      assert !Belongs(kv, ById(m.id));
    }
    forall id ensures RecordOf(kv', id) == if id == m.id then Some(m) else RecordOf(kv, id) {
      RecordAfterPut(kv, m, id);
    }
    forall k ensures k in kv'.entries <==> Belongs(kv', k) {
      if k.id == m.id {
        assert !Belongs(kv, k);
      } else {
        assert Belongs(kv', k) <==> Belongs(kv, k);
      }
    }
  }

  /**
    The unchecked overwrite is safe exactly when nothing is overwritten, or a
    pending record with the same creation time is.
  */
  lemma PutAgreesIff(kv: Store, m: Microblob)
    requires Agrees(kv) && m.status == Pending && WellFormed(m)
    ensures Agrees(Put(kv, m)) <==>
      (RecordOf(kv, m.id).None?
       || (RecordOf(kv, m.id).value.status == Pending && RecordOf(kv, m.id).value.createdAt == m.createdAt))
  {
    var kv', r := Put(kv, m), RecordOf(kv, m.id);
    if r.None? {
      PutAgrees(kv, m);
    } else {
      RecordAfterPut(kv, m, m.id);
      var k := ByStatus(r.value.status, StatusTime(r.value), m.id);
      assert Belongs(kv, k);
      if r.value.status == Pending && r.value.createdAt == m.createdAt {
        forall id ensures RecordOf(kv', id) == if id == m.id then Some(m) else RecordOf(kv, id) {
          RecordAfterPut(kv, m, id);
        }
        forall k ensures k in kv'.entries <==> Belongs(kv', k) {
          assert Belongs(kv', k) <==> Belongs(kv, k);
        }
      } else {
        assert k in kv'.entries && !Belongs(kv', k);
      }
    }
  }

  /** A checked commit of a pending record moves it, with all its keys, to the bundled side. */
  lemma BundleAgrees(kv: Store, id: string, held: Entry, txHash: string, now: nat)
    requires Agrees(kv) && Normalize(txHash) == txHash
    requires ById(id) in kv.entries && kv.entries[ById(id)] == held
    requires held.value.Record? && held.value.m.status == Pending
    ensures Agrees(CommitBundled(kv, id, held, txHash, now).0)
  {
    var kv' := CommitBundled(kv, id, held, txHash, now).0;
    var m := held.value.m;
    assert RecordOf(kv, id) == Some(m);
    forall other
      ensures RecordOf(kv', other) == if other == id then Some(Finished(m, txHash, now)) else RecordOf(kv, other)
    {
      RecordAfterBundle(kv, id, held, txHash, now, other);
    }
    forall k ensures k in kv'.entries <==> Belongs(kv', k) {
      assert k in kv.entries <==> Belongs(kv, k);
      if k.id != id {
        assert Belongs(kv', k) <==> Belongs(kv, k);
      }
    }
  }

  // ---- marking a list of ids without interference ---------------------------

  // One round of the loop of markBundled, read and commit at the same state.
  function MarkOne(kv: Store, id: string, txHash: string, now: nat): (Store, bool) {
    if RecordOf(kv, id).None? || RecordOf(kv, id).value.status != Pending then (kv, false)
    else CommitBundled(kv, id, kv.entries[ById(id)], txHash, now)
  }

  function MarkAll(kv: Store, ids: seq<string>, txHash: string, times: seq<nat>): (Store, nat)
    requires |times| >= |ids|
    decreases |ids|
  {
    if ids == [] then (kv, 0) else
    var n := |ids| - 1;
    var (before, count) := MarkAll(kv, ids[..n], txHash, times);
    var (after, ok) := MarkOne(before, ids[n], txHash, times[n]);
    (after, if ok then count + 1 else count)
  }

  lemma MarkOneEffect(kv: Store, id: string, txHash: string, now: nat)
    ensures var (kv', ok) := MarkOne(kv, id, txHash, now);
      && (ok <==> IsPending(RecordOf(kv, id)))
      && (Agrees(kv) && Normalize(txHash) == txHash ==> Agrees(kv'))
      && forall other :: RecordOf(kv', other)
           == if ok && other == id then Some(Finished(RecordOf(kv, id).value, txHash, now)) else RecordOf(kv, other)
  {
    var r := RecordOf(kv, id);
    if IsPending(r) {
      var held := kv.entries[ById(id)];
      if Agrees(kv) && Normalize(txHash) == txHash {
        BundleAgrees(kv, id, held, txHash, now);
      }
      forall other ensures RecordOf(MarkOne(kv, id, txHash, now).0, other)
        == if other == id then Some(Finished(r.value, txHash, now)) else RecordOf(kv, other)
      {
        RecordAfterBundle(kv, id, held, txHash, now, other);
      }
    }
  }

  ghost function PendingIds(kv: Store, ids: seq<string>): set<string> {
    set id | id in ids && IsPending(RecordOf(kv, id))
  }

  // The record after marking: with the same content and bundled under `txHash` if it was pending and listed, else untouched.
  ghost predicate Marked(before: Option<Microblob>, after: Option<Microblob>, listed: bool, txHash: string) {
    if listed && IsPending(before) then
      && after.Some? && KeepsContent(before.value, after.value)
      && after.value.status == Bundled && after.value.bundleTxHash == Some(txHash) && after.value.bundledAt.Some?
    else after == before
  }

  // Round `k` is the first one for this id.
  ghost predicate FirstAt(ids: seq<string>, k: nat, id: string) {
    k < |ids| && ids[k] == id && id !in ids[..k]
  }

  // A record that was pending carries the time of its first round.
  ghost predicate Timed(before: Option<Microblob>, after: Option<Microblob>, ids: seq<string>, times: seq<nat>, id: string)
    requires |times| >= |ids|
  {
    IsPending(before) ==> forall k: nat :: FirstAt(ids, k, id) ==>
      after.Some? && after.value.bundledAt == Some(times[k])
  }

  // What marking does to the records.
  ghost predicate MarksRecords(before: Store, after: Store, ids: seq<string>, txHash: string, times: seq<nat>)
    requires |times| >= |ids|
  {
    forall id ::
      && Marked(RecordOf(before, id), RecordOf(after, id), id in ids, txHash)
      && Timed(RecordOf(before, id), RecordOf(after, id), ids, times, id)
  }

  lemma FirstAtAppend(front: seq<string>, last: string, k: nat, id: string)
    requires FirstAt(front + [last], k, id)
    ensures if id in front then FirstAt(front, k, id) else k == |front| && id == last
  {
    if k < |front| {
      assert (front + [last])[..k] == front[..k];
    } else {
      assert (front + [last])[..k] == front;
    }
  }

  lemma PendingIdsStep(kv: Store, ids: seq<string>, id: string)
    ensures |PendingIds(kv, ids + [id])|
         == |PendingIds(kv, ids)| + if IsPending(RecordOf(kv, id)) && id !in ids then 1 else 0
  {
    if IsPending(RecordOf(kv, id)) && id !in ids {
      assert PendingIds(kv, ids + [id]) == PendingIds(kv, ids) + {id};
    } else {
      assert PendingIds(kv, ids + [id]) == PendingIds(kv, ids);
    }
  }

  /**
    Without interference exactly the listed pending records become bundled, each
    with its content as submitted and the time of its first round, and the count
    says how many.
  */
  lemma {:induction false} MarkAllEffect(kv: Store, ids: seq<string>, txHash: string, times: seq<nat>)
    requires |times| >= |ids|
    ensures Agrees(kv) && Normalize(txHash) == txHash ==> Agrees(MarkAll(kv, ids, txHash, times).0)
    ensures MarksRecords(kv, MarkAll(kv, ids, txHash, times).0, ids, txHash, times)
    ensures MarkAll(kv, ids, txHash, times).1 == |PendingIds(kv, ids)|
    decreases |ids|
  {
    if ids != [] {
      var n := |ids| - 1;
      var front, id := ids[..n], ids[n];
      assert ids == front + [id];
      MarkAllEffect(kv, front, txHash, times);
      var before := MarkAll(kv, front, txHash, times).0;
      MarkOneEffect(before, id, txHash, times[n]);
      PendingIdsStep(kv, front, id);
      var after := MarkOne(before, id, txHash, times[n]).0;
      assert Marked(RecordOf(kv, id), RecordOf(before, id), id in front, txHash);
      forall other
        ensures Marked(RecordOf(kv, other), RecordOf(after, other), other in ids, txHash)
        ensures Timed(RecordOf(kv, other), RecordOf(after, other), ids, times, other)
      {
        assert Marked(RecordOf(kv, other), RecordOf(before, other), other in front, txHash);
        assert Timed(RecordOf(kv, other), RecordOf(before, other), front, times, other);
        forall k: nat | FirstAt(ids, k, other) && IsPending(RecordOf(kv, other))
          ensures RecordOf(after, other).Some? && RecordOf(after, other).value.bundledAt == Some(times[k])
        {
          FirstAtAppend(front, id, k, other);
        }
      }
    }
  }
}
