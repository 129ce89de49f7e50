/**
  Every interleaving of submissions and concurrent markBundled workers: a worker
  reads a record in one step and commits in a later one, with any steps of
  others in between.
*/
module Interleaving {
  import opened Prelude
  import opened Counting
  import opened Kv

  // A call of markBundled: `next` counts the rounds done, `held` is the entry
  // between its read and its commit.
  datatype Worker = Worker(ids: seq<string>, txHash: string, next: nat, held: Option<Entry>, updated: nat)

  datatype System = System(kv: Store, workers: map<nat, Worker>)

  const START := System(EMPTY, map[])

  datatype Action =
    | Submit(m: Microblob)
    | Spawn(w: nat, ids: seq<string>, txHash: string)
    | Read(w: nat)
    | Commit(w: nat, now: nat)

  // Submissions are pending records with fresh ids, as the submission route makes them.
  ghost predicate Enabled(s: System, a: Action) {
    match a
    case Submit(m) => m.status == Pending && WellFormed(m) && RecordOf(s.kv, m.id).None?
    case Spawn(w, _, _) => w !in s.workers
    case Read(w) => w in s.workers && s.workers[w].held.None? && s.workers[w].next < |s.workers[w].ids|
    case Commit(w, _) => w in s.workers && s.workers[w].held.Some? && s.workers[w].held.value.value.Record?
                         && s.workers[w].next < |s.workers[w].ids|
  }

  ghost function Step(s: System, a: Action): System
    requires Enabled(s, a)
  {
    match a
    case Submit(m) => s.(kv := Put(s.kv, m))
    case Spawn(w, ids, txHash) => s.(workers := s.workers[w := Worker(ids, Normalize(txHash), 0, None, 0)])
    case Read(w) =>
      var worker := s.workers[w];
      var id := worker.ids[worker.next];
      if IsPending(RecordOf(s.kv, id)) then
        s.(workers := s.workers[w := worker.(held := Some(s.kv.entries[ById(id)]))])
      else
        s.(workers := s.workers[w := worker.(next := worker.next + 1)])
    case Commit(w, now) =>
      var worker := s.workers[w];
      var (kv, ok) := CommitBundled(s.kv, worker.ids[worker.next], worker.held.value, worker.txHash, now);
      var done := worker.(next := worker.next + 1, held := None, updated := worker.updated + if ok then 1 else 0);
      System(kv, s.workers[w := done])
  }

  // The state after a sequence of actions, each enabled when it is taken.
  ghost predicate Reaches(s: System, actions: seq<Action>, t: System)
    decreases |actions|
  {
    if actions == [] then s == t
    else Enabled(s, actions[0]) && Reaches(Step(s, actions[0]), actions[1..], t)
  }

  // ---- the invariant --------------------------------------------------------

  ghost function BundledIds(kv: Store): set<string> {
    set k | k in kv.entries && k.ById? && RecordOf(kv, k.id).Some? && RecordOf(kv, k.id).value.status == Bundled :: k.id
  }

  ghost function Counts(workers: map<nat, Worker>): map<nat, nat> {
    map w | w in workers :: workers[w].updated
  }

  // A held entry is a pending record that is still stored unless its version moved on.
  ghost predicate HeldOk(kv: Store, worker: Worker) {
    worker.held.Some? ==>
      var held := worker.held.value;
      && worker.next < |worker.ids|
      && held.value.Record? && held.value.m.status == Pending && held.version < kv.clock
      && var key := ById(worker.ids[worker.next]);
         key in kv.entries && kv.entries[key].version == held.version ==> kv.entries[key] == held
  }

  // The worker has been through the id, and bundles under this hash.
  ghost predicate MarkedBy(worker: Worker, id: string, txHash: Option<string>) {
    txHash == Some(worker.txHash) && worker.next <= |worker.ids| && id in worker.ids[..worker.next]
  }

  ghost predicate MarkedBySome(workers: map<nat, Worker>, id: string, txHash: Option<string>) {
    exists w :: w in workers && MarkedBy(workers[w], id, txHash)
  }

  // Every bundled record carries the hash of a worker that was given its id.
  ghost predicate Attributed(s: System) {
    forall id :: RecordOf(s.kv, id).Some? && RecordOf(s.kv, id).value.status == Bundled ==>
      MarkedBySome(s.workers, id, RecordOf(s.kv, id).value.bundleTxHash)
  }

  // The workers go on: new ones may start, and none goes back.
  ghost predicate WorkersGoOn(before: map<nat, Worker>, after: map<nat, Worker>) {
    forall w :: w in before ==>
      && w in after && after[w].ids == before[w].ids && after[w].txHash == before[w].txHash
      && before[w].next <= after[w].next
      && (before[w].next <= |before[w].ids| ==> after[w].next <= |after[w].ids|)
  }

  lemma MarksRemain(before: map<nat, Worker>, after: map<nat, Worker>, id: string, txHash: Option<string>)
    requires WorkersGoOn(before, after) && MarkedBySome(before, id, txHash)
    ensures MarkedBySome(after, id, txHash)
  {
    var w :| w in before && MarkedBy(before[w], id, txHash);
    var i :| 0 <= i < before[w].next && before[w].ids[i] == id;
    assert after[w].ids[..after[w].next][i] == id;
    assert MarkedBy(after[w], id, txHash);
  }

  // Records that were bundled before keep their attribution.
  lemma AttributionRemains(s: System, t: System)
    requires Attributed(s) && WorkersGoOn(s.workers, t.workers)
    requires forall id :: RecordOf(t.kv, id).Some? && RecordOf(t.kv, id).value.status == Bundled ==>
      RecordOf(t.kv, id) == RecordOf(s.kv, id) || MarkedBySome(t.workers, id, RecordOf(t.kv, id).value.bundleTxHash)
    ensures Attributed(t)
  {
    forall id | RecordOf(t.kv, id).Some? && RecordOf(t.kv, id).value.status == Bundled
      ensures MarkedBySome(t.workers, id, RecordOf(t.kv, id).value.bundleTxHash)
    {
      if RecordOf(t.kv, id) == RecordOf(s.kv, id) {
        MarksRemain(s.workers, t.workers, id, RecordOf(t.kv, id).value.bundleTxHash);
      }
    }
  }

  ghost predicate Inv(s: System) {
    && Agrees(s.kv) && Attributed(s)
    && (forall w :: w in s.workers ==> Normalize(s.workers[w].txHash) == s.workers[w].txHash && HeldOk(s.kv, s.workers[w]))
    && Sum(Counts(s.workers)) == |BundledIds(s.kv)|
  }

  // What one step, and so every run, may do to a record: nothing, or bundle it once.
  ghost predicate Evolves(before: Store, after: Store) {
    forall id :: RecordOf(before, id).Some? ==>
      var m := RecordOf(before, id).value;
      && RecordOf(after, id).Some?
      && var m' := RecordOf(after, id).value;
         m' == m || (m.status == Pending && m'.status == Bundled && m'.bundledAt.Some? && m'.bundleTxHash.Some?
                     && KeepsContent(m, m'))
  }

  lemma StartOk()
    ensures Inv(START)
  {
    assert BundledIds(START.kv) == {};
    assert Counts(START.workers) == map[];
    forall k ensures !Belongs(START.kv, k) {
    }
  }

  lemma CountsUpdate(workers: map<nat, Worker>, w: nat, worker: Worker)
    ensures Sum(Counts(workers[w := worker]))
         == Sum(Counts(workers)) - (if w in workers then workers[w].updated else 0) + worker.updated
  {
    assert Counts(workers[w := worker]) == Counts(workers)[w := worker.updated];
    SumUpdate(Counts(workers), w, worker.updated);
  }

  lemma RecordsAfterPut(kv: Store, m: Microblob)
    requires Agrees(kv) && RecordOf(kv, m.id).None? && m.status == Pending
    ensures ById(m.id) !in kv.entries && Evolves(kv, Put(kv, m)) && BundledIds(Put(kv, m)) == BundledIds(kv)
  {
    assert !Belongs(kv, ById(m.id));
    forall id ensures RecordOf(Put(kv, m), id) == if id == m.id then Some(m) else RecordOf(kv, id) {
      RecordAfterPut(kv, m, id);
    }
  }

  lemma HeldAfterPut(kv: Store, m: Microblob, worker: Worker)
    requires ById(m.id) !in kv.entries && HeldOk(kv, worker)
    ensures HeldOk(Put(kv, m), worker)
  {
  }

  lemma SubmitAttributes(s: System, m: Microblob)
    requires Attributed(s) && m.status == Pending
    ensures Attributed(s.(kv := Put(s.kv, m)))
  {
    var t := s.(kv := Put(s.kv, m));
    forall id | RecordOf(t.kv, id).Some? && RecordOf(t.kv, id).value.status == Bundled
      ensures RecordOf(t.kv, id) == RecordOf(s.kv, id)
    {
      RecordAfterPut(s.kv, m, id);
    }
    AttributionRemains(s, t);
  }

  lemma SubmitKeeps(s: System, m: Microblob)
    requires Inv(s) && Enabled(s, Submit(m))
    ensures Inv(Step(s, Submit(m))) && Evolves(s.kv, Step(s, Submit(m)).kv)
  {
    PutAgrees(s.kv, m);
    RecordsAfterPut(s.kv, m);
    SubmitAttributes(s, m);
    forall w | w in s.workers ensures HeldOk(Put(s.kv, m), s.workers[w]) {
      HeldAfterPut(s.kv, m, s.workers[w]);
    }
  }

  lemma ReadAttributes(s: System, w: nat)
    requires Attributed(s) && Enabled(s, Read(w))
    ensures Attributed(Step(s, Read(w)))
  {
    AttributionRemains(s, Step(s, Read(w)));
  }

  lemma HeldAfterRead(s: System, w: nat)
    requires Agrees(s.kv) && Enabled(s, Read(w))
    ensures HeldOk(s.kv, Step(s, Read(w)).workers[w])
  {
  }

  lemma ReadKeeps(s: System, w: nat)
    requires Inv(s) && Enabled(s, Read(w))
    ensures Inv(Step(s, Read(w))) && Evolves(s.kv, Step(s, Read(w)).kv)
  {
    CountsUpdate(s.workers, w, Step(s, Read(w)).workers[w]);
    ReadAttributes(s, w);
    HeldAfterRead(s, w);
  }

  lemma BundledIdsAfterCommit(kv: Store, id: string, held: Entry, txHash: string, now: nat)
    requires Agrees(kv) && held.value.Record? && held.value.m.status == Pending
    requires ById(id) in kv.entries && kv.entries[ById(id)] == held
    ensures |BundledIds(CommitBundled(kv, id, held, txHash, now).0)| == |BundledIds(kv)| + 1
    ensures Evolves(kv, CommitBundled(kv, id, held, txHash, now).0)
  {
    var kv' := CommitBundled(kv, id, held, txHash, now).0;
    forall other ensures RecordOf(kv', other)
      == if other == id then Some(Finished(held.value.m, txHash, now)) else RecordOf(kv, other)
    {
      RecordAfterBundle(kv, id, held, txHash, now, other);
    }
    assert RecordOf(kv, id) == Some(held.value.m);
    forall x ensures x in BundledIds(kv') <==> x in BundledIds(kv) + {id} {
      assert ById(x) in kv'.entries <==> ById(x) in kv.entries;
      assert x in BundledIds(kv') <==> ById(x) in kv'.entries && RecordOf(kv', x).Some? && RecordOf(kv', x).value.status == Bundled;
    }
    assert BundledIds(kv') == BundledIds(kv) + {id};
    assert id !in BundledIds(kv);
  }

  lemma HeldAfterCommit(kv: Store, id: string, held: Entry, txHash: string, now: nat, worker: Worker)
    requires held.value.Record? && HeldOk(kv, worker)
    ensures HeldOk(CommitBundled(kv, id, held, txHash, now).0, worker)
  {
  }

  // What the commit of a held entry does to the store.
  lemma CommitOfHeld(kv: Store, worker: Worker, now: nat)
    requires Agrees(kv) && worker.held.Some? && HeldOk(kv, worker) && Normalize(worker.txHash) == worker.txHash
    ensures var held := worker.held.value;
      var (kv', ok) := CommitBundled(kv, worker.ids[worker.next], held, worker.txHash, now);
      && Agrees(kv') && Evolves(kv, kv')
      && |BundledIds(kv')| == |BundledIds(kv)| + if ok then 1 else 0
  {
    var id, held := worker.ids[worker.next], worker.held.value;
    if CommitBundled(kv, id, held, worker.txHash, now).1 {
      assert kv.entries[ById(id)] == held;
      BundleAgrees(kv, id, held, worker.txHash, now);
      BundledIdsAfterCommit(kv, id, held, worker.txHash, now);
    }
  }

  lemma CommitAttributes(s: System, w: nat, now: nat)
    requires Attributed(s) && Enabled(s, Commit(w, now))
    ensures Attributed(Step(s, Commit(w, now)))
  {
    var worker, t := s.workers[w], Step(s, Commit(w, now));
    var id := worker.ids[worker.next];
    var ok := CommitBundled(s.kv, id, worker.held.value, worker.txHash, now).1;
    assert t.workers[w].ids[..worker.next + 1][worker.next] == id;
    assert MarkedBy(t.workers[w], id, Some(worker.txHash));
    forall other | RecordOf(t.kv, other).Some? && RecordOf(t.kv, other).value.status == Bundled
      ensures RecordOf(t.kv, other) == RecordOf(s.kv, other)
        || MarkedBySome(t.workers, other, RecordOf(t.kv, other).value.bundleTxHash)
    {
      if ok {
        RecordAfterBundle(s.kv, id, worker.held.value, worker.txHash, now, other);
      }
    }
    AttributionRemains(s, t);
  }

  lemma CommitKeeps(s: System, w: nat, now: nat)
    requires Inv(s) && Enabled(s, Commit(w, now))
    ensures Inv(Step(s, Commit(w, now))) && Evolves(s.kv, Step(s, Commit(w, now)).kv)
  {
    var worker := s.workers[w];
    var s' := Step(s, Commit(w, now));
    CountsUpdate(s.workers, w, s'.workers[w]);
    CommitOfHeld(s.kv, worker, now);
    CommitAttributes(s, w, now);
    forall v | v in s.workers ensures HeldOk(s'.kv, s.workers[v]) {
      HeldAfterCommit(s.kv, worker.ids[worker.next], worker.held.value, worker.txHash, now, s.workers[v]);
    }
  }

  lemma StepKeeps(s: System, a: Action)
    requires Inv(s) && Enabled(s, a)
    ensures Inv(Step(s, a)) && Evolves(s.kv, Step(s, a).kv)
  {
    match a
    case Submit(m) => SubmitKeeps(s, m);
    case Spawn(w, ids, txHash) =>
      NormalizeTwice(txHash);
      CountsUpdate(s.workers, w, Worker(ids, Normalize(txHash), 0, None, 0));
      AttributionRemains(s, Step(s, a));
    case Read(w) => ReadKeeps(s, w);
    case Commit(w, now) => CommitKeeps(s, w, now);
  }

  lemma EvolvesTransitive(a: Store, b: Store, c: Store)
    requires Evolves(a, b) && Evolves(b, c)
    ensures Evolves(a, c)
  {
    forall id | RecordOf(a, id).Some?
      ensures RecordOf(c, id).Some?
      ensures var m, m' := RecordOf(a, id).value, RecordOf(c, id).value;
        m' == m || (m.status == Pending && m'.status == Bundled && m'.bundledAt.Some? && m'.bundleTxHash.Some?
                    && KeepsContent(m, m'))
    {
      assert RecordOf(b, id).Some?;
    }
  }

  // ---- over all runs --------------------------------------------------------

  /**
    Whatever the interleaving: the three indexes agree with the records, the
    workers' success counts sum to the number of bundled records, every bundled
    record carries the hash of a worker that was given its id, and no record is
    ever lost, changed, or bundled a second time.
  */
  lemma {:induction false} RunKeeps(s: System, actions: seq<Action>, t: System)
    requires Inv(s) && Reaches(s, actions, t)
    ensures Inv(t) && Evolves(s.kv, t.kv)
    decreases |actions|
  {
    if actions != [] {
      StepKeeps(s, actions[0]);
      RunKeeps(Step(s, actions[0]), actions[1..], t);
      EvolvesTransitive(s.kv, Step(s, actions[0]).kv, t.kv);
    }
  }

  lemma ReachableOk(actions: seq<Action>, t: System)
    requires Reaches(START, actions, t)
    ensures Agrees(t.kv) && KeysMatch(t.kv) && Attributed(t) && Sum(Counts(t.workers)) == |BundledIds(t.kv)|
  {
    StartOk();
    RunKeeps(START, actions, t);
    AgreeingKeys(t.kv);
  }

  // ---- where the records come from --------------------------------------------

  // The record was submitted with this content, and is still as submitted while it is pending.
  ghost predicate FromSubmit(actions: seq<Action>, m: Microblob) {
    exists m0 :: Submit(m0) in actions && KeepsContent(m0, m) && (m.status == Pending ==> m == m0)
  }

  // A call with these ids, and with a hash that is `txHash` when lower-cased.
  ghost predicate FromSpawn(actions: seq<Action>, w: nat, ids: seq<string>, txHash: string) {
    exists given :: Spawn(w, ids, given) in actions && Lowers(given, txHash)
  }

  // A commit, at the recorded time, of a call that was given the id and the recorded hash.
  ghost predicate FromCommit(actions: seq<Action>, m: Microblob) {
    m.bundleTxHash.Some? && m.bundledAt.Some?
    && exists w, ids :: Commit(w, m.bundledAt.value) in actions && FromSpawn(actions, w, ids, m.bundleTxHash.value) && m.id in ids
  }

  ghost predicate HasOrigin(actions: seq<Action>, m: Microblob) {
    FromSubmit(actions, m) && (m.status == Bundled ==> FromCommit(actions, m))
  }

  ghost predicate AllHaveOrigins(actions: seq<Action>, s: System) {
    && (forall id :: RecordOf(s.kv, id).Some? ==> HasOrigin(actions, RecordOf(s.kv, id).value))
    && (forall w :: w in s.workers ==> FromSpawn(actions, w, s.workers[w].ids, s.workers[w].txHash))
  }

  lemma SpawnRemains(actions: seq<Action>, a: Action, w: nat, ids: seq<string>, txHash: string)
    requires FromSpawn(actions, w, ids, txHash)
    ensures FromSpawn(actions + [a], w, ids, txHash)
  {
    var given :| Spawn(w, ids, given) in actions && Lowers(given, txHash);
    assert Spawn(w, ids, given) in actions + [a];
  }

  lemma OriginRemains(actions: seq<Action>, a: Action, m: Microblob)
    requires HasOrigin(actions, m)
    ensures HasOrigin(actions + [a], m)
  {
    var m0 :| Submit(m0) in actions && KeepsContent(m0, m) && (m.status == Pending ==> m == m0);
    assert Submit(m0) in actions + [a];
    if m.status == Bundled {
      var w, ids :| Commit(w, m.bundledAt.value) in actions && FromSpawn(actions, w, ids, m.bundleTxHash.value) && m.id in ids;
      assert Commit(w, m.bundledAt.value) in actions + [a];
      SpawnRemains(actions, a, w, ids, m.bundleTxHash.value);
    }
  }

  lemma OriginsRemain(actions: seq<Action>, a: Action, s: System)
    requires AllHaveOrigins(actions, s)
    ensures AllHaveOrigins(actions + [a], s)
  {
    forall id | RecordOf(s.kv, id).Some? ensures HasOrigin(actions + [a], RecordOf(s.kv, id).value) {
      OriginRemains(actions, a, RecordOf(s.kv, id).value);
    }
    forall w | w in s.workers ensures FromSpawn(actions + [a], w, s.workers[w].ids, s.workers[w].txHash) {
      SpawnRemains(actions, a, w, s.workers[w].ids, s.workers[w].txHash);
    }
  }

  lemma SubmitHasOrigin(done: seq<Action>, s: System, m: Microblob)
    requires AllHaveOrigins(done, s) && Submit(m) in done && m.status == Pending
    ensures AllHaveOrigins(done, s.(kv := Put(s.kv, m)))
  {
    forall id | RecordOf(Put(s.kv, m), id).Some? ensures HasOrigin(done, RecordOf(Put(s.kv, m), id).value) {
      RecordAfterPut(s.kv, m, id);
    }
  }

  lemma SpawnHasOrigin(done: seq<Action>, s: System, w: nat, ids: seq<string>, txHash: string)
    requires AllHaveOrigins(done, s) && Enabled(s, Spawn(w, ids, txHash)) && Spawn(w, ids, txHash) in done
    ensures AllHaveOrigins(done, Step(s, Spawn(w, ids, txHash)))
  {
    NormalizeLowers(txHash, Normalize(txHash));
    assert FromSpawn(done, w, ids, Normalize(txHash));
  }

  lemma BundledHasOrigin(done: seq<Action>, worker: Worker, w: nat, m: Microblob, now: nat)
    requires HasOrigin(done, m) && m.status == Pending && m.id in worker.ids
    requires FromSpawn(done, w, worker.ids, worker.txHash) && Commit(w, now) in done
    ensures HasOrigin(done, Finished(m, worker.txHash, now))
  {
    var m0 :| Submit(m0) in done && KeepsContent(m0, m) && m == m0;
    assert KeepsContent(m0, Finished(m, worker.txHash, now));
  }

  lemma CommitHasOrigin(done: seq<Action>, s: System, w: nat, now: nat)
    requires Inv(s) && AllHaveOrigins(done, s) && Enabled(s, Commit(w, now)) && Commit(w, now) in done
    ensures AllHaveOrigins(done, Step(s, Commit(w, now)))
  {
    var worker := s.workers[w];
    var id, held := worker.ids[worker.next], worker.held.value;
    var (kv, ok) := CommitBundled(s.kv, id, held, worker.txHash, now);
    if ok {
      assert HeldOk(s.kv, worker) && RecordOf(s.kv, id) == Some(held.value.m);
      BundledHasOrigin(done, worker, w, held.value.m, now);
    }
    forall other | RecordOf(kv, other).Some? ensures HasOrigin(done, RecordOf(kv, other).value) {
      if ok {
        RecordAfterBundle(s.kv, id, held, worker.txHash, now, other);
      }
    }
  }

  lemma StepHasOrigins(done: seq<Action>, s: System, a: Action)
    requires Inv(s) && AllHaveOrigins(done, s) && Enabled(s, a)
    ensures AllHaveOrigins(done + [a], Step(s, a))
  {
    OriginsRemain(done, a, s);
    assert a in done + [a];
    match a
    case Submit(m) => SubmitHasOrigin(done + [a], s, m);
    case Spawn(w, ids, txHash) => SpawnHasOrigin(done + [a], s, w, ids, txHash);
    case Read(w) =>
    case Commit(w, now) => CommitHasOrigin(done + [a], s, w, now);
  }

  lemma {:induction false} RunHasOrigins(done: seq<Action>, s: System, actions: seq<Action>, t: System)
    requires Inv(s) && AllHaveOrigins(done, s) && Reaches(s, actions, t)
    ensures AllHaveOrigins(done + actions, t)
    decreases |actions|
  {
    if actions == [] {
      assert done + actions == done;
    } else {
      StepKeeps(s, actions[0]);
      StepHasOrigins(done, s, actions[0]);
      RunHasOrigins(done + [actions[0]], Step(s, actions[0]), actions[1..], t);
      assert done + [actions[0]] + actions[1..] == done + actions;
    }
  }

  /**
    Nothing is invented: every stored record was submitted in the run with the
    content it has, and a bundled one carries the time of a commit and the
    lower-cased hash of a call that was given its id.
  */
  lemma StoredHasOrigin(actions: seq<Action>, t: System, id: string)
    requires Reaches(START, actions, t) && RecordOf(t.kv, id).Some?
    ensures HasOrigin(actions, RecordOf(t.kv, id).value)
  {
    StartOk();
    RunHasOrigins([], START, actions, t);
    assert [] + actions == actions;
  }

  // ---- what stays final -------------------------------------------------------

  /** Once bundled, a record never changes again: its transaction hash is final. */
  lemma BundledIsFinal(before: seq<Action>, s: System, after: seq<Action>, t: System, id: string)
    requires Reaches(START, before, s) && Reaches(s, after, t)
    requires RecordOf(s.kv, id).Some? && RecordOf(s.kv, id).value.status == Bundled
    ensures RecordOf(t.kv, id) == RecordOf(s.kv, id)
  {
    StartOk();
    RunKeeps(START, before, s);
    RunKeeps(s, after, t);
  }

  /** A commit succeeds exactly when the record it read is still the stored one, hence still pending. */
  lemma CommitSucceedsIffUntouched(actions: seq<Action>, s: System, w: nat, now: nat)
    requires Reaches(START, actions, s) && Enabled(s, Commit(w, now))
    ensures var worker := s.workers[w];
      var id := worker.ids[worker.next];
      && (Step(s, Commit(w, now)).workers[w].updated == worker.updated + 1 <==>
            ById(id) in s.kv.entries && s.kv.entries[ById(id)] == worker.held.value)
      && (Step(s, Commit(w, now)).workers[w].updated == worker.updated + 1 ==> IsPending(RecordOf(s.kv, id)))
  {
    StartOk();
    RunKeeps(START, actions, s);
    assert HeldOk(s.kv, s.workers[w]);
  }

  // ---- the uninterrupted loop is one of the runs ----------------------------

  lemma {:induction false} ReachesAppend(s: System, a: seq<Action>, t: System, b: seq<Action>, u: System)
    requires Reaches(s, a, t) && Reaches(t, b, u)
    ensures Reaches(s, a + b, u)
    decreases |a|
  {
    if a == [] {
      assert a + b == b;
    } else {
      ReachesAppend(Step(s, a[0]), a[1..], t, b, u);
      assert (a + b)[1..] == a[1..] + b;
    }
  }

  ghost predicate Fresh(s: System, w: nat, times: seq<nat>) {
    w in s.workers && s.workers[w].next == 0 && s.workers[w].held.None? && s.workers[w].updated == 0
    && |times| >= |s.workers[w].ids|
  }

  lemma OneRound(s: System, w: nat, now: nat) returns (actions: seq<Action>, t: System)
    requires w in s.workers && s.workers[w].held.None? && s.workers[w].next < |s.workers[w].ids|
    ensures Reaches(s, actions, t)
    ensures var worker := s.workers[w];
      var (kv, ok) := MarkOne(s.kv, worker.ids[worker.next], worker.txHash, now);
      t == System(kv, s.workers[w := worker.(next := worker.next + 1, updated := worker.updated + if ok then 1 else 0)])
  {
    var worker := s.workers[w];
    var read := Step(s, Read(w));
    if IsPending(RecordOf(s.kv, worker.ids[worker.next])) {
      t := Step(read, Commit(w, now));
      actions := [Read(w), Commit(w, now)];
      assert actions[1..] == [Commit(w, now)] && actions[1..][1..] == [];
    } else {
      t := read;
      actions := [Read(w)];
    }
  }

  /** A worker that nobody interrupts does what the sequential loop of markBundled does, round by round. */
  lemma {:induction false} LoopIsARun(s: System, w: nat, k: nat, times: seq<nat>) returns (actions: seq<Action>, t: System)
    requires Fresh(s, w, times) && k <= |s.workers[w].ids|
    ensures Reaches(s, actions, t)
    ensures var worker := s.workers[w];
      var (kv, count) := MarkAll(s.kv, worker.ids[..k], worker.txHash, times);
      t == System(kv, s.workers[w := worker.(next := k, updated := count)])
    decreases k
  {
    if k == 0 {
      actions, t := [], s;
      assert s.workers == s.workers[w := s.workers[w]];
    } else {
      var before, mid := LoopIsARun(s, w, k - 1, times);
      var worker := s.workers[w];
      assert worker.ids[..k][..k - 1] == worker.ids[..k - 1];
      var round, end := OneRound(mid, w, times[k - 1]);
      ReachesAppend(s, before, mid, round, end);
      actions, t := before + round, end;
    }
  }
}
