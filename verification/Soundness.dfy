/**
  What an accepted proof binds: which public inputs and which entries have a
  guest run, and which settlements the contract lets through when its verifier
  accepts exactly the digests that guest runs commit.
*/
module Soundness {
  import opened Bytes
  import opened FieldPacking
  import opened Rlp
  import opened Abi
  import opened Guest
  import S = Settlement

  // ---- which entries a run may show for given public inputs -----------------

  // Some signature recovers over the entry.
  ghost predicate HasSignature(crypto: Crypto, e: seq<byte>) {
    exists auth :: Recover(crypto, auth, e).Some?
  }

  ghost predicate Signable(crypto: Crypto, es: seq<seq<byte>>) {
    forall i :: 0 <= i < |es| ==> HasSignature(crypto, es[i])
  }

  ghost predicate IsRun(crypto: Crypto, p: PublicInputs, g: GuestInputs, es: seq<seq<byte>>) {
    Accepts(crypto, g, es) && PublicInputsOf(g) == p
  }

  lemma {:induction false} Authorities(crypto: Crypto, es: seq<seq<byte>>) returns (auths: seq<EntryAuth>)
    requires Signable(crypto, es)
    ensures AllRecover(crypto, auths, es)
    decreases |es|
  {
    if es == [] {
      auths := [];
    } else {
      var n := |es| - 1;
      var front := Authorities(crypto, es[..n]);
      assert HasSignature(crypto, es[n]);
      var auth :| Recover(crypto, auth, es[n]).Some?;
      auths := front + [auth];
    }
  }

  lemma InputsFor(p: PublicInputs, digest: Word, blobData: seq<byte>, auths: seq<EntryAuth>) returns (g: GuestInputs)
    ensures PublicInputsOf(g) == p && g.expectedPublicInputsHash == digest
    ensures g.blobData == blobData && g.entryAuths == auths
  {
    g := GuestInputs(p.blobs, p.prevRoot, p.newRoot, ToBigEndian(p.totalEtherPaid, 32), p.blockHash, p.sender,
                     digest, blobData, auths);
    Limits();
    FixedWidthValue(p.totalEtherPaid, 32);
  }

  // Entries that fit the payloads of `blobs` blobs can be carried by them.
  lemma CarriedByBlobs(es: seq<seq<byte>>, blobs: nat) returns (blobData: seq<byte>)
    requires NonEmpty(es) && Fits(es) && |EncodeList(es)| <= BLOB_PAYLOAD_BYTES * blobs
    ensures Carries(blobData, blobs, es)
  {
    var padding := Zeros(BLOB_PAYLOAD_BYTES * blobs - |EncodeList(es)|);
    blobData := PackingExists(EncodeList(es) + padding, FIELD_ELEMENTS_PER_BLOB * blobs);
  }

  lemma RunIsBounded(crypto: Crypto, p: PublicInputs, g: GuestInputs, es: seq<seq<byte>>)
    requires IsRun(crypto, p, g, es)
    ensures NonEmpty(es) && Fits(es) && |EncodeList(es)| <= BLOB_PAYLOAD_BYTES * |p.blobs| && Signable(crypto, es)
  {
    var padding: seq<byte> :| IsPacking(EncodeList(es) + padding, g.blobData, FIELD_ELEMENTS_PER_BLOB * |g.blobs|);
    assert |EncodeList(es) + padding| == 31 * (FIELD_ELEMENTS_PER_BLOB * |g.blobs|);
    forall i | 0 <= i < |es| ensures HasSignature(crypto, es[i]) {
      assert Recover(crypto, g.entryAuths[i], es[i]).Some?;
    }
  }

  lemma RunExists(crypto: Crypto, p: PublicInputs, es: seq<seq<byte>>) returns (g: GuestInputs)
    requires NonEmpty(es) && Fits(es) && |EncodeList(es)| <= BLOB_PAYLOAD_BYTES * |p.blobs| && Signable(crypto, es)
    ensures IsRun(crypto, p, g, es)
  {
    var blobData := CarriedByBlobs(es, |p.blobs|);
    var auths := Authorities(crypto, es);
    g := InputsFor(p, crypto.keccak(FlatPreimage(p)), blobData, auths);
  }

  /**
    What the public inputs bind of the entries: only their total size. A run with
    public inputs `p` may show any non-empty entries that fit the payloads of as
    many blobs as `p` references and that any signatures recover over; neither
    the contents of the referenced blobs nor the amount and the roots enter.
  */
  lemma EntriesBoundIff(crypto: Crypto, p: PublicInputs, es: seq<seq<byte>>)
    ensures (exists g :: IsRun(crypto, p, g, es)) <==>
      NonEmpty(es) && Fits(es) && |EncodeList(es)| <= BLOB_PAYLOAD_BYTES * |p.blobs| && Signable(crypto, es)
  {
    if g :| IsRun(crypto, p, g, es) {
      RunIsBounded(crypto, p, g, es);
    }
    if NonEmpty(es) && Fits(es) && |EncodeList(es)| <= BLOB_PAYLOAD_BYTES * |p.blobs| && Signable(crypto, es) {
      var g := RunExists(crypto, p, es);
    }
  }

  lemma EmptyList()
    ensures Fits([]) && EncodeList([]) == [LIST_BASE]
  {
  }

  /** Public inputs have a run exactly when they reference a blob: roots, amount, block hash and sender are free. */
  lemma InputsBoundIff(crypto: Crypto, p: PublicInputs)
    ensures (exists g, es :: IsRun(crypto, p, g, es)) <==> p.blobs != []
  {
    if g, es :| IsRun(crypto, p, g, es) {
      RunIsBounded(crypto, p, g, es);
    }
    if p.blobs != [] {
      EmptyList();
      var g := RunExists(crypto, p, []);
    }
  }

  // ---- which settlements go through -----------------------------------------

  ghost predicate Committed(crypto: Crypto, digest: Word) {
    exists g, es :: Accepts(crypto, g, es) && g.expectedPublicInputsHash == digest
  }

  // Some public inputs that reference a blob have this digest.
  ghost predicate Referenced(crypto: Crypto, digest: Word) {
    exists p: PublicInputs :: p.blobs != [] && crypto.keccak(ContractPreimage(p)) == digest
  }

  lemma CommittedIff(crypto: Crypto, digest: Word)
    ensures Committed(crypto, digest) <==> Referenced(crypto, digest)
  {
    if g, es :| Accepts(crypto, g, es) && g.expectedPublicInputsHash == digest {
      assert IsRun(crypto, PublicInputsOf(g), g, es);
      InputsBoundIff(crypto, PublicInputsOf(g));
      FlatIsContractEncoding(PublicInputsOf(g));
    }
    if p: PublicInputs :| p.blobs != [] && crypto.keccak(ContractPreimage(p)) == digest {
      InputsBoundIff(crypto, p);
      var g, es :| IsRun(crypto, p, g, es);
      FlatIsContractEncoding(p);
    }
  }

  // The verifier has a proof for exactly the digests that guest runs commit.
  ghost predicate ExactVerifier(env: S.Env, crypto: Crypto) {
    && env.keccak == crypto.keccak
    && forall digest :: (exists proof :: env.verify(proof, digest)) <==> Committed(crypto, digest)
  }

  function DigestAt(env: S.Env, block: nat, request: S.Request): Word {
    S.DigestOf(env, S.Settled(block, request, []))
  }

  ghost predicate Settles(env: S.Env, block: nat, s: S.State, request: S.Request, proof: seq<byte>) {
    S.Exec(env, block, s, S.Settle(request, proof, [], false)).1
  }

  lemma SettlesWhen(env: S.Env, block: nat, s: S.State, request: S.Request, proof: seq<byte>)
    ensures Settles(env, block, s, request, proof) <==>
      request.prevRoot == s.root && s.ether >= request.totalEtherPaid && env.verify(proof, DigestAt(env, block, request))
  {
    var r, r' := S.Settled(block, request, proof), S.Settled(block, request, []);
    assert S.InputsOf(env, r) == S.InputsOf(env, r');
  }

  /**
    With such a verifier a request can be settled in any state exactly when it
    starts at the current root, the contract can pay it, and it references a blob
    (or its digest collides with that of inputs that do).
  */
  lemma SettleableIff(env: S.Env, crypto: Crypto, block: nat, s: S.State, request: S.Request)
    requires ExactVerifier(env, crypto)
    ensures (exists proof :: Settles(env, block, s, request, proof)) <==>
      && request.prevRoot == s.root && s.ether >= request.totalEtherPaid
      && Referenced(crypto, DigestAt(env, block, request))
    ensures request.blobs != [] ==> Referenced(crypto, DigestAt(env, block, request))
  {
    var digest := DigestAt(env, block, request);
    CommittedIff(crypto, digest);
    if proof :| Settles(env, block, s, request, proof) {
      SettlesWhen(env, block, s, request, proof);
    }
    if request.prevRoot == s.root && s.ether >= request.totalEtherPaid && Referenced(crypto, digest) {
      var proof :| env.verify(proof, digest);
      SettlesWhen(env, block, s, request, proof);
    }
  }

  // One reference, an unmoved root, and the whole ether of the contract as payment.
  function WholeBalance(s: S.State, sender: Address): S.Request
    requires s.ether < U256_LIMIT
  {
    S.Request([BlobRef(0, 0)], s.root, s.root, s.ether, 0, sender)
  }

  /**
    The limits that the contract's documentation leaves to the circuit are not in
    the guest: in every state, for every sender, whatever the sender deposited,
    the request that pays out all the ether of the contract has a proof.
  */
  lemma LimitsAreNotEnforced(env: S.Env, crypto: Crypto, block: nat, s: S.State, sender: Address)
    returns (proof: seq<byte>)
    requires ExactVerifier(env, crypto) && s.ether < U256_LIMIT
    ensures Settles(env, block, s, WholeBalance(s, sender), proof)
    ensures S.Exec(env, block, s, S.Settle(WholeBalance(s, sender), proof, [], false)).0.ether == 0
  {
    var request := WholeBalance(s, sender);
    SettleableIff(env, crypto, block, s, request);
    proof :| Settles(env, block, s, request, proof);
    SettlesWhen(env, block, s, request, proof);
    S.SettleAlone(env, s, S.Settled(block, request, proof));
  }

  /** Over every run of the contract, each surviving settlement references a blob, or its digest collides with one that does. */
  lemma SettlementsReferenceBlobs(env: S.Env, crypto: Crypto, txs: seq<S.Tx>, i: nat)
    requires ExactVerifier(env, crypto) && S.Ordered(0, txs)
    requires i < |S.Run(env, S.Deployed(), txs).settled|
    ensures Referenced(crypto, S.DigestOf(env, S.Run(env, S.Deployed(), txs).settled[i]))
  {
    var settled := S.Run(env, S.Deployed(), txs).settled;
    S.PayoutsCovered(env, txs);
    S.WalkLinks(env, settled, i);
    CommittedIff(crypto, S.DigestOf(env, settled[i]));
  }
}
