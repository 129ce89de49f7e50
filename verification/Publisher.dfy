/** Fitting a batch of microblobs into one blob transaction by trimming its tail. */
module Publisher {
  import opened Prelude
  import opened Bytes
  import opened Rlp
  import opened Kv

  const MAX_BLOBS_PER_TX := 6

  datatype PublishError = EmptyList | TooLarge(blobs: nat)

  function Payloads(ms: seq<Microblob>): (r: seq<seq<byte>>)
    ensures |r| == |ms| && forall i :: 0 <= i < |ms| ==> r[i] == ms[i].payload
  {
    seq(|ms|, i requires 0 <= i < |ms| => ms[i].payload)
  }

  // Blobs that the first `k` microblobs need; `blobCount` is toBlobs on an encoded length.
  function BlobsNeeded(blobCount: nat -> nat, ms: seq<Microblob>, k: nat): nat
    requires k <= |ms| && Fits(Payloads(ms)[..k])
  {
    blobCount(|EncodeList(Payloads(ms)[..k])|)
  }

  ghost predicate Monotone(f: nat -> nat) {
    forall a, b :: a <= b ==> f(a) <= f(b)
  }

  lemma {:induction false} PrefixFits(es: seq<seq<byte>>, k: nat)
    requires Fits(es) && k <= |es|
    ensures Fits(es[..k]) && |EncodeList(es[..k])| <= |EncodeList(es)|
    ensures k < |es| ==> |EncodeList(es[..k])| < |EncodeList(es)|
    decreases |es|
  {
    if k < |es| {
      var n := |es| - 1;
      assert es == es[..n] + [es[n]];
      LengthStrictlyGrows(es[..n], es[n]);
      PrefixFits(es[..n], k);
      assert es[..n][..k] == es[..k];
    } else {
      assert es[..k] == es;
    }
  }

  lemma PrefixesFit(ms: seq<Microblob>)
    requires Fits(Payloads(ms))
    ensures forall k :: 0 <= k <= |ms| ==> Fits(Payloads(ms)[..k])
  {
    forall k | 0 <= k <= |ms| ensures Fits(Payloads(ms)[..k]) {
      PrefixFits(Payloads(ms), k);
    }
  }

  // The trimming loop's answer: the longest non-empty prefix that fits, or an error if none does.
  ghost predicate IsTrimmed(blobCount: nat -> nat, ms: seq<Microblob>, r: Result<seq<Microblob>, PublishError>)
    requires forall k :: 0 <= k <= |ms| ==> Fits(Payloads(ms)[..k])
  {
    match r
    case Ok(used) =>
      && 1 <= |used| <= |ms| && used == ms[..|used|]
      && BlobsNeeded(blobCount, ms, |used|) <= 6
      && forall k :: |used| < k <= |ms| ==> BlobsNeeded(blobCount, ms, k) > 6
    case Err(_) => forall k :: 1 <= k <= |ms| ==> BlobsNeeded(blobCount, ms, k) > 6
  }

  method PublishMicroblobs(blobCount: nat -> nat, microblobs: seq<Microblob>)
    returns (r: Result<seq<Microblob>, PublishError>)
    requires Fits(Payloads(microblobs))
    ensures forall k :: 0 <= k <= |microblobs| ==> Fits(Payloads(microblobs)[..k])
    ensures IsTrimmed(blobCount, microblobs, r)
    ensures r == Err(EmptyList) <==> microblobs == []
    ensures r.Err? && microblobs != [] ==> r.error == TooLarge(BlobsNeeded(blobCount, microblobs, 1))
  {
    PrefixesFit(microblobs);
    if microblobs == [] {
      return Err(EmptyList);
    }
    var used := microblobs;
    assert Payloads(microblobs)[..|used|] == Payloads(used);
    var blobs := blobCount(|EncodeList(Payloads(used))|);
    while blobs > MAX_BLOBS_PER_TX && |used| > 1
      invariant 1 <= |used| <= |microblobs| && used == microblobs[..|used|]
      invariant blobs == BlobsNeeded(blobCount, microblobs, |used|)
      invariant forall k :: |used| < k <= |microblobs| ==> BlobsNeeded(blobCount, microblobs, k) > MAX_BLOBS_PER_TX
      decreases |used|
    {
      used := used[..|used| - 1];
      assert Payloads(microblobs)[..|used|] == Payloads(used);
      blobs := blobCount(|EncodeList(Payloads(used))|);
    }
    if blobs > MAX_BLOBS_PER_TX {
      return Err(TooLarge(blobs));
    }
    return Ok(used);
  }

  lemma NeedGrows(blobCount: nat -> nat, ms: seq<Microblob>, j: nat, k: nat)
    requires Fits(Payloads(ms)) && Monotone(blobCount) && j <= k <= |ms|
    requires forall k :: 0 <= k <= |ms| ==> Fits(Payloads(ms)[..k])
    ensures BlobsNeeded(blobCount, ms, j) <= BlobsNeeded(blobCount, ms, k)
  {
    PrefixFits(Payloads(ms)[..k], j);
    assert Payloads(ms)[..k][..j] == Payloads(ms)[..j];
  }

  /**
    With a blob count that grows with the encoded length, the batch sent is the
    cut-off point: the prefixes that fit are exactly those up to its length, and
    the error is thrown exactly when the first microblob alone does not fit.
  */
  lemma TrimmingIsExact(blobCount: nat -> nat, ms: seq<Microblob>, r: Result<seq<Microblob>, PublishError>)
    requires Fits(Payloads(ms)) && Monotone(blobCount) && ms != []
    requires forall k :: 0 <= k <= |ms| ==> Fits(Payloads(ms)[..k])
    requires IsTrimmed(blobCount, ms, r)
    ensures r.Err? <==> BlobsNeeded(blobCount, ms, 1) > MAX_BLOBS_PER_TX
    ensures r.Ok? ==> forall k :: 1 <= k <= |ms| ==>
      (BlobsNeeded(blobCount, ms, k) <= MAX_BLOBS_PER_TX <==> k <= |r.value|)
  {
    if r.Ok? {
      forall k | 1 <= k <= |r.value| ensures BlobsNeeded(blobCount, ms, k) <= MAX_BLOBS_PER_TX {
        NeedGrows(blobCount, ms, k, |r.value|);
      }
    }
  }
}
