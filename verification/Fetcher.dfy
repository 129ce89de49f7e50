/**
  The blob fetcher: it resolves (block, transaction) references to blobs through
  a per-block cache, matches beacon sidecars by versioned hash, optionally checks
  KZG proofs per block, and lays the bytes out for the guest.
*/
module Fetcher {
  import opened Prelude
  import opened Bytes
  import opened Abi
  import opened Division
  import FieldPacking
  import Guest
  import Rlp

  // ---- the outside world ----------------------------------------------------

  type Blob = b: seq<byte> | |b| == FieldPacking.BLOB_RAW_BYTES witness seq(FieldPacking.BLOB_RAW_BYTES, _ => 0)

  // A transaction of a full block; `hashes` is absent for non-blob transactions.
  datatype Tx = Tx(hash: Word, signer: Address, hashes: Option<seq<Word>>)

  datatype Block = Block(timestamp: nat, txs: seq<Tx>)

  datatype Sidecar = Sidecar(blob: Blob, commitment: seq<byte>, proof: seq<byte>)

  // What the endpoints answer, and the two hash functions of the KZG layer.
  datatype World = World(
    l1: nat -> Option<Block>,
    genesisTime: nat,
    secondsPerSlot: nat,
    sidecarsAt: nat -> Option<seq<Sidecar>>,
    versionedHash: seq<byte> -> Word,
    verifyBatch: seq<Sidecar> -> bool
  )

  // One blob of a block, as listed by the execution client.
  datatype Listed = Listed(txIndex: nat, txHash: Word, txFrom: Address, blobIndexInTx: nat, versionedHash: Word)

  datatype Bundle = Bundle(blockNumber: nat, txIndex: nat, blobIndexInTx: nat, versionedHash: Word, sidecar: Sidecar)

  datatype FetchError =
    | BlockNotFound(n: nat)
    | NoBlobTxs(n: nat)
    | BeforeGenesis(n: nat)
    | ZeroSlotLength(n: nat)   // a division by zero, which panics
    | BeaconFailed(n: nat)
    | NoSidecars(n: nat)
    | NoBlobsInTx(n: nat, txIndex: nat)
    | NoMatch(versionedHash: Word)
    | KzgFailed(n: nat)

  // ---- listing the blobs of a block -----------------------------------------

  function TxHashes(tx: Tx, filter: Option<Address>): seq<Word> {
    if filter.Some? && tx.signer != filter.value then []
    else if tx.hashes.None? then [] else tx.hashes.value
  }

  // One record per hash, numbered in order.
  function ListedOf(tx: Tx, index: nat, hashes: seq<Word>): (r: seq<Listed>)
    ensures |r| == |hashes|
    ensures forall i :: 0 <= i < |r| ==> r[i] == Listed(index, tx.hash, tx.signer, i, hashes[i])
  {
    seq(|hashes|, i requires 0 <= i < |hashes| => Listed(index, tx.hash, tx.signer, i, hashes[i]))
  }

  // The listing of every transaction of the block.
  function TxListings(txs: seq<Tx>, filter: Option<Address>): (parts: seq<seq<Listed>>)
    ensures |parts| == |txs|
    ensures forall t :: 0 <= t < |txs| ==> parts[t] == ListedOf(txs[t], t, TxHashes(txs[t], filter))
  {
    seq(|txs|, t requires 0 <= t < |txs| => ListedOf(txs[t], t, TxHashes(txs[t], filter)))
  }

  // All blobs of the block, by transaction and then by position.
  function BlockListing(txs: seq<Tx>, filter: Option<Address>): seq<Listed> {
    Flatten(TxListings(txs, filter))
  }

  lemma FlattenStep<T>(parts: seq<seq<T>>, n: nat)
    requires n < |parts|
    ensures Flatten(parts[..n + 1]) == Flatten(parts[..n]) + parts[n]
  {
    assert parts[..n + 1][..n] == parts[..n];
  }

  lemma SkipPart<T>(parts: seq<seq<T>>, n: nat)
    requires n < |parts| && parts[n] == []
    ensures Flatten(parts[..n + 1]) == Flatten(parts[..n])
  {
    FlattenStep(parts, n);
    assert Flatten(parts[..n]) + [] == Flatten(parts[..n]);
  }

  lemma TakeStep<T>(before: seq<T>, part: seq<T>, i: nat)
    requires i < |part|
    ensures before + part[..i] + [part[i]] == before + part[..i + 1]
  {
  }

  method FlattenBlobs(txs: seq<Tx>, senderFilter: Option<Address>) returns (blobs: seq<Listed>)
    ensures blobs == BlockListing(txs, senderFilter)
  {
    blobs := [];
    ghost var parts := TxListings(txs, senderFilter);
    for index := 0 to |txs|
      invariant blobs == Flatten(parts[..index])
    {
      var tx := txs[index];
      ghost var part := parts[index];
      if senderFilter.Some? && tx.signer != senderFilter.value {
        SkipPart(parts, index);
        continue;
      }
      if tx.hashes.None? {
        SkipPart(parts, index);
        continue;
      }
      var hashes := tx.hashes.value;
      if hashes == [] {
        SkipPart(parts, index);
        continue;
      }
      FlattenStep(parts, index);
      ghost var before := blobs;
      assert part == ListedOf(tx, index, hashes);
      for i := 0 to |hashes|
        invariant blobs == before + part[..i]
      {
        TakeStep(before, part, i);
        blobs := blobs + [Listed(index, tx.hash, tx.signer, i, hashes[i])];
      }
      assert part[..|hashes|] == part;
    }
    assert parts[..|txs|] == parts;
  }

  function OfTx(listing: seq<Listed>, t: nat): seq<Listed> {
    if listing == [] then []
    else
      var front := OfTx(listing[..|listing| - 1], t);
      var last := listing[|listing| - 1];
      if last.txIndex == t then front + [last] else front
  }

  lemma {:induction false} OfTxConcat(a: seq<Listed>, b: seq<Listed>, t: nat)
    ensures OfTx(a + b, t) == OfTx(a, t) + OfTx(b, t)
    decreases |b|
  {
    if b == [] {
      assert a + b == a;
    } else {
      OfTxConcat(a, b[..|b| - 1], t);
      assert (a + b)[..|a + b| - 1] == a + b[..|b| - 1];
    }
  }

  lemma {:induction false} OfTxUniform(listing: seq<Listed>, u: nat, t: nat)
    requires forall i :: 0 <= i < |listing| ==> listing[i].txIndex == u
    ensures OfTx(listing, t) == if u == t then listing else []
    decreases |listing|
  {
    if listing != [] {
      OfTxUniform(listing[..|listing| - 1], u, t);
      assert listing == listing[..|listing| - 1] + [listing[|listing| - 1]];
    }
  }

  lemma OfTxStep(listing: seq<Listed>, last: seq<Listed>, index: nat, t: nat)
    requires forall i :: 0 <= i < |last| ==> last[i].txIndex == index
    ensures t != index ==> OfTx(listing + last, t) == OfTx(listing, t)
    ensures t == index && OfTx(listing, t) == [] ==> OfTx(listing + last, t) == last
  {
    OfTxConcat(listing, last, t);
    OfTxUniform(last, index, t);
    assert OfTx(listing, t) + [] == OfTx(listing, t);
    assert [] + last == last;
  }

  lemma {:induction false} OfTxFlatten(parts: seq<seq<Listed>>, t: nat)
    requires forall u, i :: 0 <= u < |parts| && 0 <= i < |parts[u]| ==> parts[u][i].txIndex == u
    ensures OfTx(Flatten(parts), t) == if t < |parts| then parts[t] else []
    decreases |parts|
  {
    if parts != [] {
      var n := |parts| - 1;
      OfTxFlatten(parts[..n], t);
      OfTxStep(Flatten(parts[..n]), parts[n], n, t);
      assert Flatten(parts) == Flatten(parts[..n]) + parts[n];
    }
  }

  // The transaction is listed under this filter.
  ghost predicate Passes(tx: Tx, filter: Option<Address>) {
    (filter == None || filter == Some(tx.signer)) && tx.hashes.Some?
  }

  /**
    Filtering a block's listing by transaction gives that transaction's hashes, numbered from 0 in order,
    and nothing if it has none, is not from the wanted sender, or is not in the block.
  */
  lemma ListingByTx(txs: seq<Tx>, filter: Option<Address>, t: nat)
    ensures t < |txs| && Passes(txs[t], filter) ==>
      var hashes, found := txs[t].hashes.value, OfTx(BlockListing(txs, filter), t);
      && |found| == |hashes|
      && forall i :: 0 <= i < |hashes| ==> found[i] == Listed(t, txs[t].hash, txs[t].signer, i, hashes[i])
    ensures !(t < |txs| && Passes(txs[t], filter)) ==> OfTx(BlockListing(txs, filter), t) == []
  {
    OfTxFlatten(TxListings(txs, filter), t);
  }

  // ---- sidecar matching -----------------------------------------------------

  predicate HasHash(w: World, sc: Sidecar, want: Word) {
    w.versionedHash(sc.commitment) == want
  }

  // The first sidecar whose commitment hashes to `want`.
  function FirstMatch(w: World, want: Word, sidecars: seq<Sidecar>): (r: Result<Sidecar, FetchError>)
    ensures r.Ok? ==> r.value in sidecars && HasHash(w, r.value, want)
    ensures r.Err? ==> r.error == NoMatch(want)
  {
    if sidecars == [] then Err(NoMatch(want))
    else if HasHash(w, sidecars[0], want) then Ok(sidecars[0])
    else FirstMatch(w, want, sidecars[1..])
  }

  ghost predicate IsFirst(w: World, want: Word, sidecars: seq<Sidecar>, i: nat)
    requires i < |sidecars|
  {
    HasHash(w, sidecars[i], want) && forall j :: 0 <= j < i ==> !HasHash(w, sidecars[j], want)
  }

  method MatchSidecar(w: World, want: Word, sidecars: seq<Sidecar>) returns (r: Result<Sidecar, FetchError>)
    ensures r == FirstMatch(w, want, sidecars)
    ensures r.Err? <==> forall i :: 0 <= i < |sidecars| ==> !HasHash(w, sidecars[i], want)
    ensures r.Err? ==> r.error == NoMatch(want)
    ensures r.Ok? ==> exists i :: 0 <= i < |sidecars| && r.value == sidecars[i] && IsFirst(w, want, sidecars, i)
  {
    assert sidecars[0..] == sidecars;
    for i := 0 to |sidecars|
      invariant FirstMatch(w, want, sidecars) == FirstMatch(w, want, sidecars[i..])
      invariant forall j :: 0 <= j < i ==> !HasHash(w, sidecars[j], want)
    {
      assert sidecars[i..][1..] == sidecars[i + 1..];
      if HasHash(w, sidecars[i], want) {
        assert IsFirst(w, want, sidecars, i);
        return Ok(sidecars[i]);
      }
    }
    return Err(NoMatch(want));
  }

  // ---- one block, and one reference, without any cache ------------------------

  datatype BlockData = BlockData(listing: seq<Listed>, sidecars: seq<Sidecar>)

  // What is fetched for a block number.
  function LoadBlock(w: World, n: nat): Result<BlockData, FetchError> {
    var block := w.l1(n);
    if block.None? then Err(BlockNotFound(n)) else
    var listing := BlockListing(block.value.txs, None);
    if listing == [] then Err(NoBlobTxs(n))
    else if block.value.timestamp < w.genesisTime then Err(BeforeGenesis(n))
    else if w.secondsPerSlot == 0 then Err(ZeroSlotLength(n))
    else
      var sidecars := w.sidecarsAt((block.value.timestamp - w.genesisTime) / w.secondsPerSlot);
      if sidecars.None? then Err(BeaconFailed(n))
      else if sidecars.value == [] then Err(NoSidecars(n))
      else Ok(BlockData(listing, sidecars.value))
  }

  // One bundle per listed blob, in order; the first blob without a sidecar is an error.
  function MatchAll(w: World, r: BlobRef, blobs: seq<Listed>, sidecars: seq<Sidecar>): Result<seq<Bundle>, FetchError> {
    if blobs == [] then Ok([]) else
    var n := |blobs| - 1;
    var front := MatchAll(w, r, blobs[..n], sidecars);
    if front.Err? then front else
    var sc := FirstMatch(w, blobs[n].versionedHash, sidecars);
    if sc.Err? then Err(sc.error) else
    Ok(front.value + [Bundle(r.blockNumber, r.txIndex, blobs[n].blobIndexInTx, blobs[n].versionedHash, sc.value)])
  }

  function Resolve(w: World, r: BlobRef, data: BlockData): Result<seq<Bundle>, FetchError> {
    var blobs := OfTx(data.listing, r.txIndex);
    if blobs == [] then Err(NoBlobsInTx(r.blockNumber, r.txIndex)) else MatchAll(w, r, blobs, data.sidecars)
  }

  // The naive lookup of one reference.
  function Lookup(w: World, r: BlobRef): Result<seq<Bundle>, FetchError> {
    var data := LoadBlock(w, r.blockNumber);
    if data.Err? then Err(data.error) else Resolve(w, r, data.value)
  }

  // All results joined in order, or the first error.
  function Collect(rs: seq<Result<seq<Bundle>, FetchError>>): Result<seq<Bundle>, FetchError> {
    if rs == [] then Ok([]) else
    var n := |rs| - 1;
    var front := Collect(rs[..n]);
    if front.Err? then front
    else if rs[n].Err? then rs[n] else Ok(front.value + rs[n].value)
  }

  lemma {:induction false} CollectFails(rs: seq<Result<seq<Bundle>, FetchError>>, i: nat)
    requires i < |rs| && Collect(rs[..i]).Ok? && rs[i].Err?
    ensures Collect(rs) == rs[i]
    decreases |rs|
  {
    var n := |rs| - 1;
    if i < n {
      assert rs[..n][..i] == rs[..i];
      CollectFails(rs[..n], i);
    }
  }

  lemma {:induction false} CollectNeeds(rs: seq<Result<seq<Bundle>, FetchError>>, i: nat)
    requires i < |rs| && Collect(rs).Ok?
    ensures rs[i].Ok?
    decreases |rs|
  {
    if i < |rs| - 1 {
      CollectNeeds(rs[..|rs| - 1], i);
    }
  }

  function Lookups(w: World, refs: seq<BlobRef>): (rs: seq<Result<seq<Bundle>, FetchError>>)
    ensures |rs| == |refs| && forall i :: 0 <= i < |refs| ==> rs[i] == Lookup(w, refs[i])
  {
    seq(|refs|, i requires 0 <= i < |refs| => Lookup(w, refs[i]))
  }

  lemma LookupsPrefix(w: World, refs: seq<BlobRef>, i: nat)
    requires i <= |refs|
    ensures Lookups(w, refs)[..i] == Lookups(w, refs[..i])
  {
  }

  // Naive lookup, reference by reference.
  function LookupAll(w: World, refs: seq<BlobRef>): Result<seq<Bundle>, FetchError> {
    Collect(Lookups(w, refs))
  }

  // The sidecars of the bundles of one block, in order: the batch checked for it.
  function BatchOf(bundles: seq<Bundle>, n: nat): seq<Sidecar> {
    if bundles == [] then []
    else
      var front := BatchOf(bundles[..|bundles| - 1], n);
      var last := bundles[|bundles| - 1];
      if last.blockNumber == n then front + [last.sidecar] else front
  }

  ghost predicate BatchesVerify(w: World, bundles: seq<Bundle>) {
    forall i :: 0 <= i < |bundles| ==> w.verifyBatch(BatchOf(bundles, bundles[i].blockNumber))
  }

  // ---- the cached fetch -----------------------------------------------------

  ghost predicate CacheOk(w: World, cache: map<nat, BlockData>) {
    forall n :: n in cache ==> LoadBlock(w, n) == Ok(cache[n])
  }

  // The beacon slot in which a block with this timestamp was proposed.
  ghost predicate IsSlot(w: World, timestamp: nat, slot: nat) {
    w.genesisTime + slot * w.secondsPerSlot <= timestamp < w.genesisTime + (slot + 1) * w.secondsPerSlot
  }

  lemma SlotIsQuotient(elapsed: nat, length: nat, slot: nat)
    requires slot * length <= elapsed < (slot + 1) * length
    ensures length > 0 && slot == elapsed / length
  {
    var q := elapsed / length;
    if slot < q {
      MulMonotone(slot + 1, q, length);
    } else if slot > q {
      MulMonotone(q + 1, slot, length);
    }
  }

  lemma QuotientIsSlot(w: World, timestamp: nat)
    requires w.secondsPerSlot > 0 && w.genesisTime <= timestamp
    ensures IsSlot(w, timestamp, (timestamp - w.genesisTime) / w.secondsPerSlot)
    ensures forall slot: nat :: IsSlot(w, timestamp, slot) ==> slot == (timestamp - w.genesisTime) / w.secondsPerSlot
  {
    var elapsed, length := timestamp - w.genesisTime, w.secondsPerSlot;
    var q := elapsed / length;
    assert elapsed == q * length + elapsed % length;
    assert (q + 1) * length == q * length + length;
    forall slot: nat | IsSlot(w, timestamp, slot) ensures slot == q {
      SlotIsQuotient(elapsed, length, slot);
    }
  }

  // What the beacon node answers for the slot of a block with this timestamp.
  ghost predicate SlotAnswers(w: World, timestamp: nat, sidecars: Option<seq<Sidecar>>) {
    exists slot: nat :: IsSlot(w, timestamp, slot) && w.sidecarsAt(slot) == sidecars
  }

  ghost predicate HasBlobs(txs: seq<Tx>) {
    exists t :: 0 <= t < |txs| && txs[t].hashes.Some? && txs[t].hashes.value != []
  }

  lemma {:induction false} EmptyParts<T>(parts: seq<seq<T>>)
    ensures Flatten(parts) == [] <==> forall i :: 0 <= i < |parts| ==> parts[i] == []
  {
    if parts != [] {
      var n := |parts| - 1;
      var front := parts[..n];
      EmptyParts(front);
      assert |Flatten(parts)| == |Flatten(front)| + |parts[n]|;
      assert forall i :: 0 <= i < n ==> front[i] == parts[i];
    }
  }

  lemma ListedIffBlobs(txs: seq<Tx>)
    ensures BlockListing(txs, None) != [] <==> HasBlobs(txs)
  {
    var parts := TxListings(txs, None);
    EmptyParts(parts);
    forall t | 0 <= t < |txs| ensures parts[t] != [] <==> txs[t].hashes.Some? && txs[t].hashes.value != [] {
      assert |parts[t]| == |TxHashes(txs[t], None)|;
    }
  }

  // The answer for a block, in plain terms: the conditions exclude each other.
  ghost predicate IsAnswer(w: World, n: nat, r: Result<BlockData, FetchError>) {
    var block := w.l1(n);
    match r
    case Err(BlockNotFound(m)) => m == n && block.None?
    case Err(NoBlobTxs(m)) => m == n && block.Some? && !HasBlobs(block.value.txs)
    case Err(BeforeGenesis(m)) =>
      m == n && block.Some? && HasBlobs(block.value.txs) && block.value.timestamp < w.genesisTime
    case Err(ZeroSlotLength(m)) =>
      && m == n && block.Some? && HasBlobs(block.value.txs)
      && w.genesisTime <= block.value.timestamp && w.secondsPerSlot == 0
    case Err(BeaconFailed(m)) =>
      m == n && block.Some? && HasBlobs(block.value.txs) && SlotAnswers(w, block.value.timestamp, None)
    case Err(NoSidecars(m)) =>
      m == n && block.Some? && HasBlobs(block.value.txs) && SlotAnswers(w, block.value.timestamp, Some([]))
    case Err(_) => false
    case Ok(data) =>
      && block.Some? && HasBlobs(block.value.txs) && data.sidecars != []
      && SlotAnswers(w, block.value.timestamp, Some(data.sidecars))
  }

  /** What loading a block answers: the sidecars of the slot its timestamp lies in, or the first thing that is missing. */
  lemma LoadBlockAnswers(w: World, n: nat)
    ensures IsAnswer(w, n, LoadBlock(w, n))
  {
    var block := w.l1(n);
    if block.Some? {
      ListedIffBlobs(block.value.txs);
      if w.genesisTime <= block.value.timestamp && w.secondsPerSlot > 0 {
        QuotientIsSlot(w, block.value.timestamp);
      }
    }
  }

  // The body of the first pass: one block and its sidecars.
  method FetchBlock(w: World, n: nat) returns (r: Result<BlockData, FetchError>)
    ensures r == LoadBlock(w, n) && IsAnswer(w, n, r)
  {
    LoadBlockAnswers(w, n);
    var block := w.l1(n);
    if block.None? {
      return Err(BlockNotFound(n));
    }
    var listing := FlattenBlobs(block.value.txs, None);
    if listing == [] {
      return Err(NoBlobTxs(n));
    }
    if block.value.timestamp < w.genesisTime {
      return Err(BeforeGenesis(n));
    }
    if w.secondsPerSlot == 0 {
      return Err(ZeroSlotLength(n));
    }
    var slot := (block.value.timestamp - w.genesisTime) / w.secondsPerSlot;
    var sidecars := w.sidecarsAt(slot);
    if sidecars.None? {
      return Err(BeaconFailed(n));
    }
    if sidecars.value == [] {
      return Err(NoSidecars(n));
    }
    return Ok(BlockData(listing, sidecars.value));
  }

  ghost predicate FirstBadBlock(w: World, refs: seq<BlobRef>, i: nat)
    requires i < |refs|
  {
    LoadBlock(w, refs[i].blockNumber).Err? && forall j :: 0 <= j < i ==> LoadBlock(w, refs[j].blockNumber).Ok?
  }

  predicate Covers(cache: map<nat, BlockData>, refs: seq<BlobRef>) {
    forall i :: 0 <= i < |refs| ==> refs[i].blockNumber in cache
  }

  function Numbers(refs: seq<BlobRef>): (ns: set<nat>)
    ensures forall n :: n in ns <==> exists i :: 0 <= i < |refs| && refs[i].blockNumber == n
  {
    set i | 0 <= i < |refs| :: refs[i].blockNumber as nat
  }

  // The requested blocks are those of the references, each requested once.
  ghost predicate RequestedOnce(loaded: seq<nat>, refs: seq<BlobRef>) {
    && (forall i, j :: 0 <= i < j < |loaded| ==> loaded[i] != loaded[j])
    && (forall n :: n in loaded <==> n in Numbers(refs))
  }

  lemma NumbersStep(refs: seq<BlobRef>, i: nat)
    requires i < |refs|
    ensures Numbers(refs[..i + 1]) == Numbers(refs[..i]) + {refs[i].blockNumber}
  {
    assert refs[..i + 1] == refs[..i] + [refs[i]];
    forall n ensures n in Numbers(refs[..i + 1]) <==> n in Numbers(refs[..i]) + {refs[i].blockNumber} {
      if n in Numbers(refs[..i]) {
        var k :| 0 <= k < i && refs[..i][k].blockNumber == n;
        assert refs[..i + 1][k].blockNumber == n;
      }
      assert refs[..i + 1][i].blockNumber == refs[i].blockNumber;
    }
  }

  lemma NewRequest(loaded: seq<nat>, refs: seq<BlobRef>, i: nat)
    requires i < |refs| && RequestedOnce(loaded, refs[..i]) && refs[i].blockNumber !in loaded
    ensures RequestedOnce(loaded + [refs[i].blockNumber], refs[..i + 1])
  {
    NumbersStep(refs, i);
    var n, more := refs[i].blockNumber, loaded + [refs[i].blockNumber];
    forall j | 0 <= j < |loaded| ensures loaded[j] != n {
      assert loaded[j] in loaded;
    }
  }

  lemma OldRequest(loaded: seq<nat>, refs: seq<BlobRef>, i: nat)
    requires i < |refs| && RequestedOnce(loaded, refs[..i]) && refs[i].blockNumber in loaded
    ensures RequestedOnce(loaded, refs[..i + 1])
  {
    NumbersStep(refs, i);
  }

  ghost predicate CacheHolds(cache: map<nat, BlockData>, loaded: seq<nat>) {
    forall n :: n in cache <==> n in loaded
  }

  lemma CacheGrows(w: World, cache: map<nat, BlockData>, loaded: seq<nat>, n: nat, data: BlockData)
    requires CacheOk(w, cache) && CacheHolds(cache, loaded) && LoadBlock(w, n) == Ok(data)
    ensures CacheOk(w, cache[n := data]) && CacheHolds(cache[n := data], loaded + [n])
  {
  }

  lemma CoversRequested(cache: map<nat, BlockData>, loaded: seq<nat>, refs: seq<BlobRef>)
    requires CacheHolds(cache, loaded) && RequestedOnce(loaded, refs)
    ensures Covers(cache, refs) && cache.Keys == Numbers(refs)
  {
    forall i | 0 <= i < |refs| ensures refs[i].blockNumber in cache {
      assert refs[i].blockNumber in Numbers(refs);
    }
  }

  lemma CoversBlocksThatLoad(w: World, cache: map<nat, BlockData>, refs: seq<BlobRef>, i: nat)
    requires i < |refs| && CacheOk(w, cache) && Covers(cache, refs[..i]) && LoadBlock(w, refs[i].blockNumber).Err?
    ensures FirstBadBlock(w, refs, i)
  {
    forall j | 0 <= j < i ensures LoadBlock(w, refs[j].blockNumber).Ok? {
      assert refs[..i][j].blockNumber in cache;
    }
  }

  // First pass: load each referenced block. `loaded` records the block requests:
  // the referenced blocks, once each; when the block of reference `bad` fails, those up to it.
  method LoadBlocks(w: World, refs: seq<BlobRef>)
    returns (r: Result<map<nat, BlockData>, FetchError>, ghost loaded: seq<nat>, ghost bad: nat)
    ensures r.Ok? ==> CacheOk(w, r.value) && Covers(r.value, refs) && r.value.Keys == Numbers(refs)
    ensures r.Ok? ==> RequestedOnce(loaded, refs)
    ensures r.Err? ==> bad < |refs| && FirstBadBlock(w, refs, bad) && LoadBlock(w, refs[bad].blockNumber) == Err(r.error)
    ensures r.Err? ==> RequestedOnce(loaded, refs[..bad + 1])
  {
    var cache: map<nat, BlockData> := map[];
    loaded, bad := [], 0;
    for i := 0 to |refs|
      invariant CacheOk(w, cache) && CacheHolds(cache, loaded) && RequestedOnce(loaded, refs[..i])
    {
      var n := refs[i].blockNumber;
      if n in cache {
        OldRequest(loaded, refs, i);
        continue;
      }
      NewRequest(loaded, refs, i);
      var data := FetchBlock(w, n);
      if data.Err? {
        CoversRequested(cache, loaded, refs[..i]);
        CoversBlocksThatLoad(w, cache, refs, i);
        return Err(data.error), loaded + [n], i;
      }
      CacheGrows(w, cache, loaded, n, data.value);
      cache, loaded := cache[n := data.value], loaded + [n];
    }
    assert refs[..|refs|] == refs;
    CoversRequested(cache, loaded, refs);
    return Ok(cache), loaded, bad;
  }

  // Buffered sidecars per block, as the verification pass needs them.
  ghost predicate BufferOk(buffer: map<nat, seq<Sidecar>>, bundles: seq<Bundle>, verify: bool) {
    && (forall n :: n in buffer <==> verify && exists i :: 0 <= i < |bundles| && bundles[i].blockNumber == n)
    && (forall n :: n in buffer ==> buffer[n] == BatchOf(bundles, n))
  }

  lemma BatchOfAppend(bundles: seq<Bundle>, b: Bundle, n: nat)
    ensures BatchOf(bundles + [b], n) == if b.blockNumber == n then BatchOf(bundles, n) + [b.sidecar] else BatchOf(bundles, n)
  {
    assert (bundles + [b])[..|bundles|] == bundles;
  }

  lemma {:induction false} BatchOfAbsent(bundles: seq<Bundle>, n: nat)
    requires forall i :: 0 <= i < |bundles| ==> bundles[i].blockNumber != n
    ensures BatchOf(bundles, n) == []
  {
    if bundles != [] {
      BatchOfAbsent(bundles[..|bundles| - 1], n);
    }
  }

  function Pushed(buffer: map<nat, seq<Sidecar>>, b: Bundle): map<nat, seq<Sidecar>> {
    buffer[b.blockNumber := (if b.blockNumber in buffer then buffer[b.blockNumber] else []) + [b.sidecar]]
  }

  lemma PushKeepsBuffer(buffer: map<nat, seq<Sidecar>>, bundles: seq<Bundle>, b: Bundle)
    requires BufferOk(buffer, bundles, true)
    ensures BufferOk(Pushed(buffer, b), bundles + [b], true)
  {
    var more := bundles + [b];
    forall n
      ensures n in Pushed(buffer, b) <==> exists i :: 0 <= i < |more| && more[i].blockNumber == n
      ensures n in Pushed(buffer, b) ==> Pushed(buffer, b)[n] == BatchOf(more, n)
    {
      BatchOfAppend(bundles, b, n);
      if n == b.blockNumber {
        assert more[|bundles|].blockNumber == n;
        if n !in buffer {
          BatchOfAbsent(bundles, n);
        }
      } else if n in buffer {
        var i :| 0 <= i < |bundles| && bundles[i].blockNumber == n;
        assert more[i].blockNumber == n;
      }
    }
  }

  lemma {:induction false} MatchAllFails(w: World, r: BlobRef, blobs: seq<Listed>, sidecars: seq<Sidecar>, i: nat)
    requires i < |blobs| && MatchAll(w, r, blobs[..i], sidecars).Ok?
    requires FirstMatch(w, blobs[i].versionedHash, sidecars).Err?
    ensures MatchAll(w, r, blobs, sidecars) == Err(FirstMatch(w, blobs[i].versionedHash, sidecars).error)
    decreases |blobs|
  {
    var n := |blobs| - 1;
    if i < n {
      assert blobs[..n][..i] == blobs[..i];
      MatchAllFails(w, r, blobs[..n], sidecars, i);
    }
  }

  // Second pass, one reference: match its blobs and push bundles and buffer entries.
  method EmitRef(w: World, r: BlobRef, data: BlockData, verify: bool, bundles: seq<Bundle>, buffer: map<nat, seq<Sidecar>>)
    returns (res: Result<seq<Bundle>, FetchError>, outBuffer: map<nat, seq<Sidecar>>)
    requires BufferOk(buffer, bundles, verify)
    ensures res == match Resolve(w, r, data) case Ok(bs) => Ok(bundles + bs) case Err(e) => Err(e)
    ensures res.Ok? ==> BufferOk(outBuffer, res.value, verify)
  {
    outBuffer := buffer;
    var txBlobs := OfTx(data.listing, r.txIndex);
    if txBlobs == [] {
      return Err(NoBlobsInTx(r.blockNumber, r.txIndex)), outBuffer;
    }
    var out := bundles;
    for i := 0 to |txBlobs|
      invariant MatchAll(w, r, txBlobs[..i], data.sidecars).Ok?
      invariant out == bundles + MatchAll(w, r, txBlobs[..i], data.sidecars).value
      invariant BufferOk(outBuffer, out, verify)
    {
      assert txBlobs[..i + 1][..i] == txBlobs[..i];
      var sc := MatchSidecar(w, txBlobs[i].versionedHash, data.sidecars);
      if sc.Err? {
        MatchAllFails(w, r, txBlobs, data.sidecars, i);
        return Err(sc.error), outBuffer;
      }
      var b := Bundle(r.blockNumber, r.txIndex, txBlobs[i].blobIndexInTx, txBlobs[i].versionedHash, sc.value);
      if verify {
        PushKeepsBuffer(outBuffer, out, b);
        outBuffer := Pushed(outBuffer, b);
      }
      out := out + [b];
    }
    assert txBlobs[..|txBlobs|] == txBlobs;
    return Ok(out), outBuffer;
  }

  lemma LeastNumber(s: set<nat>) returns (least: nat)
    requires s != {}
    ensures least in s && forall m :: m in s ==> least <= m
    decreases |s|
  {
    least :| least in s;
    var rest := s - {least};
    assert s == rest + {least};
    if rest != {} {
      var other := LeastNumber(rest);
      least := if other < least then other else least;
    }
  }

  // Third pass: the buffered batches, block by block in ascending order.
  method VerifyBuffer(w: World, buffer: map<nat, seq<Sidecar>>) returns (failed: Option<nat>)
    ensures failed.None? <==> forall n :: n in buffer ==> w.verifyBatch(buffer[n])
    ensures failed.Some? ==> failed.value in buffer && !w.verifyBatch(buffer[failed.value])
    ensures failed.Some? ==> forall n :: n in buffer && n < failed.value ==> w.verifyBatch(buffer[n])
  {
    var left := buffer.Keys;
    while left != {}
      invariant left <= buffer.Keys
      invariant forall n :: n in buffer && n !in left ==> w.verifyBatch(buffer[n])
      invariant forall n, m :: n in buffer && n !in left && m in left ==> n < m
      decreases left
    {
      ghost var least := LeastNumber(left);
      var n :| n in left && forall m :: m in left ==> n <= m;
      if !w.verifyBatch(buffer[n]) {
        return Some(n);
      }
      left := left - {n};
    }
    return None;
  }

  // The lowest block whose batch does not verify.
  ghost predicate IsFirstFailure(w: World, bundles: seq<Bundle>, n: nat) {
    && !w.verifyBatch(BatchOf(bundles, n))
    && (exists i :: 0 <= i < |bundles| && bundles[i].blockNumber == n)
    && forall i :: 0 <= i < |bundles| && bundles[i].blockNumber < n ==>
         w.verifyBatch(BatchOf(bundles, bundles[i].blockNumber))
  }

  lemma FirstFailure(w: World, buffer: map<nat, seq<Sidecar>>, bundles: seq<Bundle>, n: nat)
    requires BufferOk(buffer, bundles, true)
    requires n in buffer && !w.verifyBatch(buffer[n])
    requires forall m :: m in buffer && m < n ==> w.verifyBatch(buffer[m])
    ensures IsFirstFailure(w, bundles, n)
  {
    forall i | 0 <= i < |bundles| && bundles[i].blockNumber < n
      ensures w.verifyBatch(BatchOf(bundles, bundles[i].blockNumber))
    {
      assert bundles[i].blockNumber in buffer;
    }
  }

  ghost predicate AllLoad(w: World, refs: seq<BlobRef>) {
    forall i :: 0 <= i < |refs| ==> LoadBlock(w, refs[i].blockNumber).Ok?
  }

  lemma CachedLookup(w: World, cache: map<nat, BlockData>, r: BlobRef)
    requires CacheOk(w, cache) && r.blockNumber in cache
    ensures Lookup(w, r) == Resolve(w, r, cache[r.blockNumber])
  {
  }

  lemma CoveredLoad(w: World, cache: map<nat, BlockData>, refs: seq<BlobRef>)
    requires CacheOk(w, cache) && Covers(cache, refs)
    ensures AllLoad(w, refs)
  {
    forall i | 0 <= i < |refs| ensures LoadBlock(w, refs[i].blockNumber).Ok? {
      assert refs[i].blockNumber in cache;
    }
  }

  lemma LookupAllStep(w: World, refs: seq<BlobRef>, i: nat, bundles: seq<Bundle>)
    requires i < |refs| && LookupAll(w, refs[..i]) == Ok(bundles)
    ensures Lookup(w, refs[i]).Ok? ==> LookupAll(w, refs[..i + 1]) == Ok(bundles + Lookup(w, refs[i]).value)
  {
    assert refs[..i + 1][..i] == refs[..i];
    LookupsPrefix(w, refs[..i + 1], i);
  }

  lemma LookupAllFails(w: World, refs: seq<BlobRef>, i: nat)
    requires i < |refs| && LookupAll(w, refs[..i]).Ok? && Lookup(w, refs[i]).Err?
    ensures LookupAll(w, refs) == Lookup(w, refs[i])
  {
    LookupsPrefix(w, refs, i);
    CollectFails(Lookups(w, refs), i);
  }

  // The second pass. The lookup in the cache never misses: the first pass put every referenced block there.
  method EmitAll(w: World, verifyKzg: bool, refs: seq<BlobRef>, cache: map<nat, BlockData>)
    returns (r: Result<seq<Bundle>, FetchError>, buffer: map<nat, seq<Sidecar>>)
    requires CacheOk(w, cache) && Covers(cache, refs)
    ensures r == LookupAll(w, refs) && AllLoad(w, refs)
    ensures r.Ok? ==> BufferOk(buffer, r.value, verifyKzg)
  {
    var bundles: seq<Bundle> := [];
    buffer := map[];
    CoveredLoad(w, cache, refs);
    for i := 0 to |refs|
      invariant LookupAll(w, refs[..i]) == Ok(bundles)
      invariant BufferOk(buffer, bundles, verifyKzg)
    {
      var data := cache[refs[i].blockNumber];
      CachedLookup(w, cache, refs[i]);
      LookupAllStep(w, refs, i, bundles);
      var next, nextBuffer := EmitRef(w, refs[i], data, verifyKzg, bundles, buffer);
      if next.Err? {
        LookupAllFails(w, refs, i);
        return Err(next.error), buffer;
      }
      bundles, buffer := next.value, nextBuffer;
    }
    assert refs[..|refs|] == refs;
    return Ok(bundles), buffer;
  }

  lemma BatchesAreBuffered(w: World, buffer: map<nat, seq<Sidecar>>, bundles: seq<Bundle>)
    requires BufferOk(buffer, bundles, true)
    ensures BatchesVerify(w, bundles) <==> forall n :: n in buffer ==> w.verifyBatch(buffer[n])
  {
    if BatchesVerify(w, bundles) {
      forall n | n in buffer ensures w.verifyBatch(buffer[n]) {
        var i :| 0 <= i < |bundles| && bundles[i].blockNumber == n;
      }
    }
    if forall n :: n in buffer ==> w.verifyBatch(buffer[n]) {
      forall i | 0 <= i < |bundles| ensures w.verifyBatch(BatchOf(bundles, bundles[i].blockNumber)) {
        assert bundles[i].blockNumber in buffer;
      }
    }
  }

  lemma LookupAllNeeds(w: World, refs: seq<BlobRef>, i: nat)
    requires i < |refs|
    ensures LookupAll(w, refs).Ok? ==> Lookup(w, refs[i]).Ok?
  {
    if LookupAll(w, refs).Ok? {
      CollectNeeds(Lookups(w, refs), i);
    }
  }

  /**
    Fetching through the cache agrees with naive lookup: it succeeds exactly when
    every reference resolves (and, with verification on, every block's batch
    verifies), and returns the bundles in reference order, then blob order. Block
    errors come first, then the first unresolved reference, then verification.
  */
  method FetchBlobs(w: World, verifyKzg: bool, refs: seq<BlobRef>) returns (r: Result<seq<Bundle>, FetchError>)
    ensures r.Ok? <==> LookupAll(w, refs).Ok? && (verifyKzg ==> BatchesVerify(w, LookupAll(w, refs).value))
    ensures r.Ok? ==> r == LookupAll(w, refs)
    ensures forall i :: 0 <= i < |refs| && FirstBadBlock(w, refs, i) ==> r == Err(LoadBlock(w, refs[i].blockNumber).error)
    ensures AllLoad(w, refs) && LookupAll(w, refs).Err? ==> r == LookupAll(w, refs)
    ensures LookupAll(w, refs).Ok? && r.Err? ==>
      r.error.KzgFailed? && IsFirstFailure(w, LookupAll(w, refs).value, r.error.n)
  {
    if refs == [] {
      return Ok([]);
    }
    var cache, _, bad := LoadBlocks(w, refs);
    if cache.Err? {
      LookupAllNeeds(w, refs, bad);
      return Err(cache.error);
    }
    var bundles, buffer := EmitAll(w, verifyKzg, refs, cache.value);
    if bundles.Err? {
      return bundles;
    }
    if verifyKzg {
      BatchesAreBuffered(w, buffer, bundles.value);
      var failed := VerifyBuffer(w, buffer);
      if failed.Some? {
        FirstFailure(w, buffer, bundles.value, failed.value);
        return Err(KzgFailed(failed.value));
      }
    }
    return bundles;
  }

  // ---- what a lookup returns ------------------------------------------------

  lemma {:induction false} MatchAllShape(w: World, r: BlobRef, blobs: seq<Listed>, sidecars: seq<Sidecar>)
    requires MatchAll(w, r, blobs, sidecars).Ok?
    ensures var bs := MatchAll(w, r, blobs, sidecars).value;
      |bs| == |blobs| && forall i :: 0 <= i < |bs| ==>
        && bs[i].blockNumber == r.blockNumber && bs[i].txIndex == r.txIndex
        && bs[i].blobIndexInTx == blobs[i].blobIndexInTx && bs[i].versionedHash == blobs[i].versionedHash
        && HasHash(w, bs[i].sidecar, blobs[i].versionedHash) && bs[i].sidecar in sidecars
  {
    if blobs != [] {
      MatchAllShape(w, r, blobs[..|blobs| - 1], sidecars);
    }
  }

  // The versioned hashes of the referenced transaction.
  ghost function HashesAt(w: World, r: BlobRef): seq<Word> {
    var block := w.l1(r.blockNumber);
    if block.None? || r.txIndex >= |block.value.txs| || block.value.txs[r.txIndex].hashes.None? then []
    else block.value.txs[r.txIndex].hashes.value
  }

  lemma ListingOfRef(w: World, r: BlobRef)
    requires LoadBlock(w, r.blockNumber).Ok?
    ensures var blobs := OfTx(LoadBlock(w, r.blockNumber).value.listing, r.txIndex);
      && |blobs| == |HashesAt(w, r)|
      && forall i :: 0 <= i < |blobs| ==> blobs[i].blobIndexInTx == i && blobs[i].versionedHash == HashesAt(w, r)[i]
  {
    var txs := w.l1(r.blockNumber).value.txs;
    ListingByTx(txs, None, r.txIndex);
  }

  /**
    A resolved reference yields one bundle per blob of its transaction, numbered
    0, 1, ... in order, and each bundle's commitment hashes to the versioned hash
    the transaction carries at that place. There is at least one.
  */
  lemma LookupShape(w: World, r: BlobRef)
    requires Lookup(w, r).Ok?
    ensures var bs := Lookup(w, r).value;
      && LoadBlock(w, r.blockNumber).Ok? && |bs| == |HashesAt(w, r)| >= 1
      && forall i :: 0 <= i < |bs| ==>
        && bs[i].blockNumber == r.blockNumber && bs[i].txIndex == r.txIndex && bs[i].blobIndexInTx == i
        && bs[i].versionedHash == HashesAt(w, r)[i] == w.versionedHash(bs[i].sidecar.commitment)
        && bs[i].sidecar in LoadBlock(w, r.blockNumber).value.sidecars
  {
    var data := LoadBlock(w, r.blockNumber).value;
    ListingOfRef(w, r);
    MatchAllShape(w, r, OfTx(data.listing, r.txIndex), data.sidecars);
  }

  // ---- the bytes for the guest ----------------------------------------------

  function ConcatBlobs(bundles: seq<Bundle>): (r: seq<byte>)
    ensures |r| == FieldPacking.BLOB_RAW_BYTES * |bundles|
  {
    if bundles == [] then []
    else ConcatBlobs(bundles[..|bundles| - 1]) + bundles[|bundles| - 1].sidecar.blob
  }

  ghost predicate OneBundle(w: World, r: BlobRef) {
    Lookup(w, r).Ok? && |Lookup(w, r).value| == 1
  }

  ghost predicate AllOneBundle(w: World, refs: seq<BlobRef>) {
    forall i :: 0 <= i < |refs| ==> OneBundle(w, refs[i])
  }

  lemma AllOneBundleStep(w: World, refs: seq<BlobRef>)
    requires refs != []
    ensures AllOneBundle(w, refs) <==> AllOneBundle(w, refs[..|refs| - 1]) && OneBundle(w, refs[|refs| - 1])
  {
    var front := refs[..|refs| - 1];
    if AllOneBundle(w, front) && OneBundle(w, refs[|refs| - 1]) {
      forall i | 0 <= i < |refs| ensures OneBundle(w, refs[i]) {
        if i < |front| {
          assert front[i] == refs[i];
        }
      }
    }
  }

  lemma LookupAllSplit(w: World, refs: seq<BlobRef>)
    requires refs != [] && LookupAll(w, refs).Ok?
    ensures var n := |refs| - 1;
      && LookupAll(w, refs[..n]).Ok? && Lookup(w, refs[n]).Ok? && |Lookup(w, refs[n]).value| >= 1
      && LookupAll(w, refs).value == LookupAll(w, refs[..n]).value + Lookup(w, refs[n]).value
  {
    LookupsPrefix(w, refs, |refs| - 1);
    LookupShape(w, refs[|refs| - 1]);
  }

  lemma {:induction false} BundleCount(w: World, refs: seq<BlobRef>)
    requires LookupAll(w, refs).Ok?
    ensures |LookupAll(w, refs).value| >= |refs|
    ensures |LookupAll(w, refs).value| == |refs| <==> AllOneBundle(w, refs)
    decreases |refs|
  {
    if refs != [] {
      LookupAllSplit(w, refs);
      AllOneBundleStep(w, refs);
      BundleCount(w, refs[..|refs| - 1]);
    }
  }

  /** The fetched bytes have the length the guest demands exactly when every referenced transaction has one blob. */
  lemma GuestLengthCheck(w: World, refs: seq<BlobRef>)
    requires LookupAll(w, refs).Ok?
    ensures |ConcatBlobs(LookupAll(w, refs).value)| == FieldPacking.BLOB_RAW_BYTES * |refs| <==>
      forall i :: 0 <= i < |refs| ==> |HashesAt(w, refs[i])| == 1
  {
    BundleCount(w, refs);
    forall i | 0 <= i < |refs| ensures OneBundle(w, refs[i]) <==> |HashesAt(w, refs[i])| == 1 {
      LookupAllNeeds(w, refs, i);
      LookupShape(w, refs[i]);
    }
  }

  // The bytes hold the blobs of the bundles, one after the other.
  ghost predicate HoldsBlobs(data: seq<byte>, bundles: seq<Bundle>) {
    && |data| == 131_072 * |bundles|
    && forall k :: 0 <= k < |bundles| ==> data[131_072 * k..131_072 * k + 131_072] == bundles[k].sidecar.blob
  }

  lemma {:induction false} ConcatHoldsBlobs(bundles: seq<Bundle>)
    ensures HoldsBlobs(ConcatBlobs(bundles), bundles)
  {
    if bundles != [] {
      var n := |bundles| - 1;
      var front, data := ConcatBlobs(bundles[..n]), ConcatBlobs(bundles);
      ConcatHoldsBlobs(bundles[..n]);
      forall k | 0 <= k < |bundles| ensures data[131_072 * k..131_072 * k + 131_072] == bundles[k].sidecar.blob {
        if k < n {
          assert data[131_072 * k..131_072 * k + 131_072] == front[131_072 * k..131_072 * k + 131_072];
          assert bundles[..n][k] == bundles[k];
        }
      }
    }
  }

  // Bytes that hold a sidecar's blob, where the sidecar belongs to the only hash of the referenced transaction.
  ghost predicate IsBlobOf(w: World, r: BlobRef, raw: seq<byte>)
    requires LoadBlock(w, r.blockNumber).Ok? && |HashesAt(w, r)| == 1
  {
    exists sc :: sc in LoadBlock(w, r.blockNumber).value.sidecars
      && w.versionedHash(sc.commitment) == HashesAt(w, r)[0] && sc.blob == raw
  }

  lemma {:induction false} CollectJoins(a: seq<Result<seq<Bundle>, FetchError>>, b: seq<Result<seq<Bundle>, FetchError>>)
    requires Collect(a).Ok? && Collect(b).Ok?
    ensures Collect(a + b) == Ok(Collect(a).value + Collect(b).value)
    decreases |b|
  {
    if b == [] {
      assert a + b == a;
      assert Collect(a).value + [] == Collect(a).value;
    } else {
      var n := |b| - 1;
      CollectJoins(a, b[..n]);
      assert (a + b)[..|a + b| - 1] == a + b[..n];
      assert Collect(a).value + Collect(b[..n]).value + b[n].value == Collect(a).value + Collect(b).value;
    }
  }

  lemma CollectSplits(rs: seq<Result<seq<Bundle>, FetchError>>, i: nat)
    requires i <= |rs| && Collect(rs[..i]).Ok? && Collect(rs[i..]).Ok?
    ensures Collect(rs) == Ok(Collect(rs[..i]).value + Collect(rs[i..]).value)
  {
    CollectJoins(rs[..i], rs[i..]);
    assert rs == rs[..i] + rs[i..];
  }

  lemma LookupsSuffix(w: World, refs: seq<BlobRef>, i: nat)
    requires i <= |refs|
    ensures Lookups(w, refs)[i..] == Lookups(w, refs[i..])
  {
  }

  /** The lookup of a list of references is that of its front and that of the rest, joined in order. */
  lemma LookupAllJoins(w: World, refs: seq<BlobRef>, i: nat)
    requires i <= |refs| && LookupAll(w, refs[..i]).Ok? && LookupAll(w, refs[i..]).Ok?
    ensures LookupAll(w, refs) == Ok(LookupAll(w, refs[..i]).value + LookupAll(w, refs[i..]).value)
  {
    LookupsPrefix(w, refs, i);
    LookupsSuffix(w, refs, i);
    CollectSplits(Lookups(w, refs), i);
  }

  lemma {:induction false} CollectOfOnes(rs: seq<Result<seq<Bundle>, FetchError>>)
    requires Collect(rs).Ok? && forall i :: 0 <= i < |rs| ==> rs[i].Ok? && |rs[i].value| == 1
    ensures |Collect(rs).value| == |rs| && forall i :: 0 <= i < |rs| ==> rs[i].value[0] == Collect(rs).value[i]
  {
    if rs != [] {
      var n := |rs| - 1;
      CollectOfOnes(rs[..n]);
      forall i | 0 <= i < |rs| ensures rs[i].value[0] == Collect(rs).value[i] {
        assert i < n ==> rs[..n][i] == rs[i];
      }
    }
  }

  lemma BundleOfRef(w: World, refs: seq<BlobRef>, k: nat)
    requires LookupAll(w, refs).Ok? && AllOneBundle(w, refs) && k < |refs|
    ensures |LookupAll(w, refs).value| == |refs| && Lookup(w, refs[k]).Ok?
    ensures Lookup(w, refs[k]).value != [] && Lookup(w, refs[k]).value[0] == LookupAll(w, refs).value[k]
  {
    var rs := Lookups(w, refs);
    forall i | 0 <= i < |rs| ensures rs[i].Ok? && |rs[i].value| == 1 {
      assert OneBundle(w, refs[i]);
    }
    CollectOfOnes(rs);
  }

  lemma SliceOfRef(w: World, refs: seq<BlobRef>, data: seq<byte>, k: nat)
    requires LookupAll(w, refs).Ok? && AllOneBundle(w, refs) && k < |refs|
    requires HoldsBlobs(data, LookupAll(w, refs).value)
    ensures |data| == 131_072 * |refs| && LoadBlock(w, refs[k].blockNumber).Ok? && |HashesAt(w, refs[k])| == 1
    ensures IsBlobOf(w, refs[k], data[131_072 * k..131_072 * k + 131_072])
  {
    BundleOfRef(w, refs, k);
    LookupShape(w, refs[k]);
    assert LookupAll(w, refs).value[k].sidecar.blob == data[131_072 * k..131_072 * k + 131_072];
  }

  // Each referenced transaction has one blob, and it lies at the place of its reference.
  ghost predicate InReferenceOrder(w: World, refs: seq<BlobRef>, data: seq<byte>) {
    && |data| == 131_072 * |refs|
    && forall k :: 0 <= k < |refs| ==>
         && LoadBlock(w, refs[k].blockNumber).Ok? && |HashesAt(w, refs[k])| == 1
         && IsBlobOf(w, refs[k], data[131_072 * k..131_072 * k + 131_072])
  }

  lemma HeldInOrder(w: World, refs: seq<BlobRef>, data: seq<byte>)
    requires LookupAll(w, refs).Ok? && HoldsBlobs(data, LookupAll(w, refs).value)
    ensures (forall i :: 0 <= i < |refs| ==> |HashesAt(w, refs[i])| == 1) ==> InReferenceOrder(w, refs, data)
  {
    if forall i :: 0 <= i < |refs| ==> |HashesAt(w, refs[i])| == 1 {
      BundleCount(w, refs);
      GuestLengthCheck(w, refs);
      forall k | 0 <= k < |refs|
        ensures LoadBlock(w, refs[k].blockNumber).Ok?
        ensures IsBlobOf(w, refs[k], data[131_072 * k..131_072 * k + 131_072])
      {
        SliceOfRef(w, refs, data, k);
      }
    }
  }

  /**
    The bytes for the guest: the blobs of the naive lookup, in reference order and
    then blob order. With one blob per referenced transaction, slice k is the blob
    of reference k, and only then does the guest accept the length.
  */
  method FetchBlobData(w: World, verifyKzg: bool, refs: seq<BlobRef>) returns (r: Result<seq<byte>, FetchError>)
    ensures r.Ok? <==> LookupAll(w, refs).Ok? && (verifyKzg ==> BatchesVerify(w, LookupAll(w, refs).value))
    ensures r.Ok? ==> HoldsBlobs(r.value, LookupAll(w, refs).value)
    ensures r.Ok? && (forall i :: 0 <= i < |refs| ==> |HashesAt(w, refs[i])| == 1) ==> InReferenceOrder(w, refs, r.value)
    ensures r.Ok? ==> (|r.value| == FieldPacking.BLOB_RAW_BYTES * |refs| <==>
      forall i :: 0 <= i < |refs| ==> |HashesAt(w, refs[i])| == 1)
  {
    var bundles := FetchBlobs(w, verifyKzg, refs);
    if bundles.Err? {
      return Err(bundles.error);
    }
    var out: seq<byte> := [];
    for i := 0 to |bundles.value|
      invariant out == ConcatBlobs(bundles.value[..i])
    {
      assert bundles.value[..i + 1][..i] == bundles.value[..i];
      out := out + bundles.value[i].sidecar.blob;
    }
    assert bundles.value[..|bundles.value|] == bundles.value;
    GuestLengthCheck(w, refs);
    ConcatHoldsBlobs(bundles.value);
    HeldInOrder(w, refs, out);
    return Ok(out);
  }

  // ---- what the guest reads back ----------------------------------------------

  function BlobsOf(bundles: seq<Bundle>): (r: seq<seq<byte>>)
    ensures |r| == |bundles| && forall k :: 0 <= k < |r| ==> r[k] == bundles[k].sidecar.blob
  {
    seq(|bundles|, k requires 0 <= k < |bundles| => bundles[k].sidecar.blob)
  }

  lemma {:induction false} HeldIsFlatten(data: seq<byte>, bundles: seq<Bundle>)
    requires HoldsBlobs(data, bundles)
    ensures data == Flatten(BlobsOf(bundles))
    decreases |bundles|
  {
    if bundles == [] {
      assert data == [];
    } else {
      var n := |bundles| - 1;
      var front := data[..131_072 * n];
      forall k | 0 <= k < n ensures front[131_072 * k..131_072 * k + 131_072] == bundles[..n][k].sidecar.blob {
        assert front[131_072 * k..131_072 * k + 131_072] == data[131_072 * k..131_072 * k + 131_072];
      }
      HeldIsFlatten(front, bundles[..n]);
      assert BlobsOf(bundles)[..n] == BlobsOf(bundles[..n]);
      assert data == front + data[131_072 * n..131_072 * n + 131_072];
    }
  }

  // Blob k of the bundles packs the k-th piece of the stream.
  ghost predicate PacksPieces(stream: seq<byte>, bundles: seq<Bundle>) {
    && |stream| == 126_976 * |bundles|
    && forall k :: 0 <= k < |bundles| ==>
         FieldPacking.IsPacking(stream[126_976 * k..126_976 * (k + 1)], bundles[k].sidecar.blob, 4096)
  }

  /** If each fetched blob packs its piece of a stream, the fetched bytes pack the stream. */
  lemma FetchedPacks(bundles: seq<Bundle>, data: seq<byte>, stream: seq<byte>)
    requires HoldsBlobs(data, bundles) && PacksPieces(stream, bundles)
    ensures FieldPacking.IsPacking(stream, data, 4096 * |bundles|)
  {
    HeldIsFlatten(data, bundles);
    forall k | 0 <= k < |bundles|
      ensures FieldPacking.IsPacking(Guest.PayloadAt(stream, k), BlobsOf(bundles)[k], FieldPacking.FIELD_ELEMENTS_PER_BLOB)
    {
      assert FieldPacking.IsPacking(stream[126_976 * k..126_976 * (k + 1)], bundles[k].sidecar.blob, 4096);
    }
    Guest.PackedBlobByBlob(stream, BlobsOf(bundles));
  }

  /**
    From publisher to guest: if the blobs found for the references pack, piece by
    piece, a list of entries and its padding, the guest reads those entries out of
    the fetched bytes.
  */
  lemma FetchedCarries(w: World, refs: seq<BlobRef>, data: seq<byte>, es: seq<seq<byte>>, padding: seq<byte>)
    requires LookupAll(w, refs).Ok? && HoldsBlobs(data, LookupAll(w, refs).value)
    requires forall i :: 0 <= i < |refs| ==> |HashesAt(w, refs[i])| == 1
    requires Rlp.NonEmpty(es) && Rlp.Fits(es) && PacksPieces(Rlp.EncodeList(es) + padding, LookupAll(w, refs).value)
    ensures Guest.Carries(data, |refs|, es)
  {
    GuestLengthCheck(w, refs);
    FetchedPacks(LookupAll(w, refs).value, data, Rlp.EncodeList(es) + padding);
  }

  // ---- a fetch the guest does not accept --------------------------------------

  lemma {:induction false} FirstMatchSucceeds(w: World, want: Word, sidecars: seq<Sidecar>, i: nat)
    requires i < |sidecars| && HasHash(w, sidecars[i], want)
    ensures FirstMatch(w, want, sidecars).Ok?
    decreases i
  {
    if i > 0 {
      FirstMatchSucceeds(w, want, sidecars[1..], i - 1);
    }
  }

  // Some sidecar has a commitment that hashes to `want`.
  ghost predicate Matched(w: World, want: Word, sidecars: seq<Sidecar>) {
    exists sc :: sc in sidecars && w.versionedHash(sc.commitment) == want
  }

  lemma {:induction false} MatchAllSucceeds(w: World, r: BlobRef, blobs: seq<Listed>, sidecars: seq<Sidecar>)
    requires forall i :: 0 <= i < |blobs| ==> Matched(w, blobs[i].versionedHash, sidecars)
    ensures MatchAll(w, r, blobs, sidecars).Ok?
    decreases |blobs|
  {
    if blobs != [] {
      var n := |blobs| - 1;
      MatchAllSucceeds(w, r, blobs[..n], sidecars);
      assert Matched(w, blobs[n].versionedHash, sidecars);
      var j :| 0 <= j < |sidecars| && w.versionedHash(sidecars[j].commitment) == blobs[n].versionedHash;
      FirstMatchSucceeds(w, blobs[n].versionedHash, sidecars, j);
    }
  }

  /** A reference resolves exactly when its block loads, its transaction has blobs, and each of them has a sidecar. */
  lemma LookupSucceeds(w: World, r: BlobRef)
    ensures Lookup(w, r).Ok? <==>
      && LoadBlock(w, r.blockNumber).Ok? && HashesAt(w, r) != []
      && forall i :: 0 <= i < |HashesAt(w, r)| ==>
           Matched(w, HashesAt(w, r)[i], LoadBlock(w, r.blockNumber).value.sidecars)
  {
    if Lookup(w, r).Ok? {
      LookupShape(w, r);
      forall i | 0 <= i < |HashesAt(w, r)|
        ensures Matched(w, HashesAt(w, r)[i], LoadBlock(w, r.blockNumber).value.sidecars)
      {
        assert Lookup(w, r).value[i].sidecar in LoadBlock(w, r.blockNumber).value.sidecars;
      }
    }
    if LoadBlock(w, r.blockNumber).Ok? {
      var data := LoadBlock(w, r.blockNumber).value;
      ListingOfRef(w, r);
      if HashesAt(w, r) != [] && forall i :: 0 <= i < |HashesAt(w, r)| ==> Matched(w, HashesAt(w, r)[i], data.sidecars) {
        MatchAllSucceeds(w, r, OfTx(data.listing, r.txIndex), data.sidecars);
      }
    }
  }

  // Hash `i` is the first one of the referenced transaction without a sidecar.
  ghost predicate FirstUnmatched(w: World, hashes: seq<Word>, sidecars: seq<Sidecar>, i: nat) {
    i < |hashes| && !Matched(w, hashes[i], sidecars) && forall j :: 0 <= j < i ==> Matched(w, hashes[j], sidecars)
  }

  lemma {:induction false} FirstMatchFails(w: World, want: Word, sidecars: seq<Sidecar>)
    requires FirstMatch(w, want, sidecars).Err?
    ensures !Matched(w, want, sidecars)
  {
    if sidecars != [] {
      FirstMatchFails(w, want, sidecars[1..]);
      assert sidecars == [sidecars[0]] + sidecars[1..];
    }
  }

  lemma {:induction false} MatchAllError(w: World, r: BlobRef, blobs: seq<Listed>, sidecars: seq<Sidecar>) returns (i: nat)
    requires MatchAll(w, r, blobs, sidecars).Err?
    ensures i < |blobs| && !Matched(w, blobs[i].versionedHash, sidecars)
    ensures forall j :: 0 <= j < i ==> Matched(w, blobs[j].versionedHash, sidecars)
    ensures MatchAll(w, r, blobs, sidecars).error == NoMatch(blobs[i].versionedHash)
    decreases |blobs|
  {
    var n := |blobs| - 1;
    var front := blobs[..n];
    if MatchAll(w, r, front, sidecars).Err? {
      i := MatchAllError(w, r, front, sidecars);
    } else {
      MatchAllShape(w, r, front, sidecars);
      i := n;
      FirstMatchFails(w, blobs[n].versionedHash, sidecars);
      forall j | 0 <= j < n ensures Matched(w, blobs[j].versionedHash, sidecars) {
        var sc := MatchAll(w, r, front, sidecars).value[j].sidecar;
        assert sc in sidecars && HasHash(w, sc, front[j].versionedHash);
      }
    }
  }

  /** Why a reference does not resolve: its transaction has no blobs, or else the first hash without a sidecar. */
  lemma LookupError(w: World, r: BlobRef)
    requires LoadBlock(w, r.blockNumber).Ok? && Lookup(w, r).Err?
    ensures HashesAt(w, r) == [] ==> Lookup(w, r).error == NoBlobsInTx(r.blockNumber, r.txIndex)
    ensures HashesAt(w, r) != [] ==>
      exists i: nat :: FirstUnmatched(w, HashesAt(w, r), LoadBlock(w, r.blockNumber).value.sidecars, i)
        && Lookup(w, r).error == NoMatch(HashesAt(w, r)[i])
  {
    var data := LoadBlock(w, r.blockNumber).value;
    ListingOfRef(w, r);
    if HashesAt(w, r) != [] {
      var i := MatchAllError(w, r, OfTx(data.listing, r.txIndex), data.sidecars);
      assert FirstUnmatched(w, HashesAt(w, r), data.sidecars, i);
    }
  }

  function Filled(b: byte): Word { seq(32, _ => b) }

  function EmptyBlob(): Blob { seq(FieldPacking.BLOB_RAW_BYTES, _ => 0) }

  // A transaction with the blobs that the commitments [0] and [1] stand for.
  function TwoBlobTx(): Tx {
    Tx(Filled(9), seq(20, _ => 0), Some([Filled(0), Filled(1)]))
  }

  function TwoSidecars(): seq<Sidecar> {
    [Sidecar(EmptyBlob(), [0], []), Sidecar(EmptyBlob(), [1], [])]
  }

  // A chain of blocks that each hold that transaction alone.
  function TwoBlobWorld(): World {
    World(_ => Some(Block(0, [TwoBlobTx()])), 0, 12, _ => Some(TwoSidecars()),
          commitment => if commitment == [0] then Filled(0) else Filled(1), _ => true)
  }

  lemma TwoBlobBlockLoads(n: nat)
    ensures LoadBlock(TwoBlobWorld(), n).Ok? && LoadBlock(TwoBlobWorld(), n).value.sidecars == TwoSidecars()
  {
    var txs := [TwoBlobTx()];
    assert TwoBlobWorld().l1(n) == Some(Block(0, txs));
    ListingByTx(txs, None, 0);
    assert |OfTx(BlockListing(txs, None), 0)| == 2;
    assert BlockListing(txs, None) != [];
  }

  lemma CollectOne(r: Result<seq<Bundle>, FetchError>)
    ensures Collect([r]) == r
  {
    assert [r][..0] == [];
    assert Collect([r][..0]) == Ok([]);
    if r.Ok? {
      assert [] + r.value == r.value;
    }
  }

  lemma OneLookup(w: World, r: BlobRef)
    ensures LookupAll(w, [r]) == Lookup(w, r)
  {
    assert Lookups(w, [r]) == [Lookup(w, r)];
    CollectOne(Lookup(w, r));
  }

  /** One reference to a transaction with two blobs: the fetch succeeds, and the guest's length check fails. */
  lemma FetchedButRejected(r: BlobRef)
    requires r.txIndex == 0
    ensures var w := TwoBlobWorld();
      && LookupAll(w, [r]).Ok? && BatchesVerify(w, LookupAll(w, [r]).value)
      && |ConcatBlobs(LookupAll(w, [r]).value)| == 2 * FieldPacking.BLOB_RAW_BYTES
      && |ConcatBlobs(LookupAll(w, [r]).value)| != FieldPacking.BLOB_RAW_BYTES * |[r]|
  {
    var w := TwoBlobWorld();
    TwoBlobBlockLoads(r.blockNumber);
    assert HashesAt(w, r) == [Filled(0), Filled(1)];
    assert TwoSidecars()[0] in TwoSidecars() && TwoSidecars()[1] in TwoSidecars();
    LookupSucceeds(w, r);
    LookupShape(w, r);
    OneLookup(w, r);
  }
}
