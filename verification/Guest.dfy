/**
  The proof guest: one accept/reject decision over the blob bytes, the signed
  entries and the public inputs, and the output it commits. Keccak-256 and
  secp256k1 recovery are parameters.
*/
module Guest {
  import opened Prelude
  import opened Bytes
  import opened FieldPacking
  import opened Rlp
  import opened Abi
  import Text

  datatype Crypto = Crypto(
    keccak: seq<byte> -> Word,
    // digest, r, s, parity of the recovery byte
    ecrecover: (Word, nat, nat, bool) -> Option<Address>
  )

  datatype EntryAuth = EntryAuth(r: Word, s: Word, v: byte, etherAmount: Word)

  datatype GuestInputs = GuestInputs(
    blobs: seq<BlobRef>, prevRoot: Word, newRoot: Word, totalEtherPaid: Word, blockHash: Word, sender: Address,
    expectedPublicInputsHash: Word, blobData: seq<byte>, entryAuths: seq<EntryAuth>
  )

  datatype Output = Output(publicInputsHash: Word, valid: bool, totalEtherAccumulated: Word, signersHash: Word)

  // The order of secp256k1, and half of it: the largest s EIP-2 allows.
  const CURVE_ORDER := 0xFFFF_FFFF_FFFF_FFFF_FFFF_FFFF_FFFF_FFFE_BAAE_DCE6_AF48_A03B_BFD2_5E8C_D036_4141
  const HALF_ORDER := 0x7FFF_FFFF_FFFF_FFFF_FFFF_FFFF_FFFF_FFFF_5D57_6E73_57A4_501D_DFE9_2F46_681B_20A0

  // ---- signatures -----------------------------------------------------------

  function Ascii(s: string): (r: seq<byte>)
    requires forall i :: 0 <= i < |s| ==> s[i] as int < 128
    ensures |r| == |s| && forall i :: 0 <= i < |s| ==> r[i] == s[i] as int
  {
    seq(|s|, i requires 0 <= i < |s| => s[i] as int)
  }

  // The EIP-191 personal_sign message: a fixed header, the length in decimal, the data.
  function SignedMessage(data: seq<byte>): seq<byte> {
    var header := [0x19 as byte] + Ascii("Ethereum Signed Message:\n");
    header + Ascii(Text.Decimal(|data|)) + data
  }

  // EntryAuth::recover; `None` is a panic.
  function Recover(crypto: Crypto, auth: EntryAuth, data: seq<byte>): Option<Address> {
    if auth.v != 27 && auth.v != 28 then None
    else if FromBigEndian(auth.s) > HALF_ORDER then None
    else crypto.ecrecover(crypto.keccak(SignedMessage(data)), FromBigEndian(auth.r), FromBigEndian(auth.s), auth.v == 28)
  }

  // Section 5.1 of the encoding specification: `auth` is a low-s signature, with
  // recovery byte 27 or 28, of the personal_sign digest of `e`, and recovers to `a`.
  ghost predicate Signs(crypto: Crypto, auth: EntryAuth, e: seq<byte>, a: Address) {
    && (auth.v == 27 || auth.v == 28)
    && 2 * FromBigEndian(auth.s) < CURVE_ORDER
    && crypto.ecrecover(
         crypto.keccak([0x19 as byte] + Ascii("Ethereum Signed Message:\n") + Ascii(Text.Decimal(|e|)) + e),
         FromBigEndian(auth.r), FromBigEndian(auth.s), auth.v == 28) == Some(a)
  }

  /** Which signatures recover, and to whom. */
  lemma RecoverIff(crypto: Crypto, auth: EntryAuth, e: seq<byte>, a: Address)
    ensures Recover(crypto, auth, e) == Some(a) <==> Signs(crypto, auth, e, a)
  {
  }

  /** Of the two signatures with the same r and with s and n - s, for n the order of the curve, at most one is accepted. */
  lemma NotMalleable(crypto: Crypto, auth: EntryAuth, mirror: EntryAuth, e: seq<byte>, a: Address, b: Address)
    requires FromBigEndian(auth.s) + FromBigEndian(mirror.s) == CURVE_ORDER
    ensures !(Signs(crypto, auth, e, a) && Signs(crypto, mirror, e, b))
    ensures Recover(crypto, auth, e).None? || Recover(crypto, mirror, e).None?
  {
  }

  lemma {:induction false} DecimalLengthMonotone(a: nat, b: nat)
    requires a <= b
    ensures |Text.Decimal(a)| <= |Text.Decimal(b)|
    decreases b
  {
    if a >= 10 {
      DecimalLengthMonotone(a / 10, b / 10);
    }
  }

  /** The signed message determines the data: no two entries share one. */
  lemma SignedMessageInjective(a: seq<byte>, b: seq<byte>)
    requires SignedMessage(a) == SignedMessage(b)
    ensures a == b
  {
    if |a| < |b| {
      DecimalLengthMonotone(|a|, |b|);
    } else if |b| < |a| {
      DecimalLengthMonotone(|b|, |a|);
    }
    var n := |SignedMessage(a)| - |a|;
    assert |a| == |b|;
    assert SignedMessage(a)[n..] == a && SignedMessage(b)[n..] == b;
  }

  // ---- the digest -----------------------------------------------------------

  function PublicInputsOf(inputs: GuestInputs): (p: PublicInputs)
    ensures p.blobs == inputs.blobs && p.prevRoot == inputs.prevRoot && p.newRoot == inputs.newRoot
    ensures p.totalEtherPaid == FromBigEndian(inputs.totalEtherPaid)
    ensures p.blockHash == inputs.blockHash && p.sender == inputs.sender
  {
    FromBigEndianBound(inputs.totalEtherPaid);
    Limits();
    PublicInputs(inputs.blobs, inputs.prevRoot, inputs.newRoot, FromBigEndian(inputs.totalEtherPaid),
                 inputs.blockHash, inputs.sender)
  }

  function ComputePublicInputsHash(crypto: Crypto, inputs: GuestInputs): Word {
    crypto.keccak(FlatPreimage(PublicInputsOf(inputs)))
  }

  /**
    The guest's digest equals the one the contract computes for `call` exactly
    when the public inputs agree, unless the two preimages collide.
  */
  lemma DigestBindsCall(crypto: Crypto, inputs: GuestInputs, call: PublicInputs)
    requires crypto.keccak(FlatPreimage(PublicInputsOf(inputs))) == crypto.keccak(ContractPreimage(call)) ==>
      FlatPreimage(PublicInputsOf(inputs)) == ContractPreimage(call)
    ensures ComputePublicInputsHash(crypto, inputs) == crypto.keccak(ContractPreimage(call)) <==>
      PublicInputsOf(inputs) == call
  {
    FlatIsContractEncoding(PublicInputsOf(inputs));
    if ContractPreimage(PublicInputsOf(inputs)) == ContractPreimage(call) {
      PreimageInjective(PublicInputsOf(inputs), call);
    }
  }

  // ---- the ether sum --------------------------------------------------------

  function TotalEther(auths: seq<EntryAuth>): nat {
    if auths == [] then 0 else TotalEther(auths[..|auths| - 1]) + FromBigEndian(auths[|auths| - 1].etherAmount)
  }

  function Saturate(n: nat): nat {
    if n < U256_LIMIT then n else U256_LIMIT - 1
  }

  // The lesser of the number and the largest 256-bit word.
  ghost function Capped(n: nat): (r: nat)
    ensures r <= n && r < Pow256(32) && (r == n || r == Pow256(32) - 1)
  {
    if n < Pow256(32) then n else Pow256(32) - 1
  }

  lemma SaturateIs(n: nat)
    ensures Saturate(n) == Capped(n)
  {
    Limits();
  }

  /** The total is a sum: nothing for no entry, the amount for one, and additive. */
  lemma {:induction false} TotalEtherAdds(a: seq<EntryAuth>, b: seq<EntryAuth>, x: EntryAuth)
    ensures TotalEther([]) == 0 && TotalEther([x]) == FromBigEndian(x.etherAmount)
    ensures TotalEther(a + b) == TotalEther(a) + TotalEther(b)
    decreases |b|
  {
    assert [x][..0] == [];
    if b == [] {
      assert a + b == a;
    } else {
      var front := b[..|b| - 1];
      TotalEtherAdds(a, front, x);
      assert (a + b)[..|a + b| - 1] == a + front;
    }
  }

  method SumEther(auths: seq<EntryAuth>) returns (r: Word)
    ensures r == ToBigEndian(Saturate(TotalEther(auths)), 32)
    ensures FromBigEndian(r) == Saturate(TotalEther(auths))
    ensures r == ToBigEndian(Capped(TotalEther(auths)), 32)
  {
    var acc := 0;
    for i := 0 to |auths|
      invariant acc == Saturate(TotalEther(auths[..i]))
    {
      assert auths[..i + 1][..i] == auths[..i];
      acc := Saturate(acc + FromBigEndian(auths[i].etherAmount));
    }
    assert auths[..|auths|] == auths;
    Limits();
    FixedWidthValue(acc, 32);
    SaturateIs(TotalEther(auths));
    return ToBigEndian(acc, 32);
  }

  lemma {:induction false} TotalEtherRemove(auths: seq<EntryAuth>, i: nat)
    requires i < |auths|
    ensures TotalEther(auths) == TotalEther(auths[..i] + auths[i + 1..]) + FromBigEndian(auths[i].etherAmount)
    decreases |auths|
  {
    var n := |auths| - 1;
    if i < n {
      TotalEtherRemove(auths[..n], i);
      var rest := auths[..i] + auths[i + 1..];
      assert rest[..n - 1] == auths[..n][..i] + auths[..n][i + 1..];
      assert rest[n - 1] == auths[n];
    } else {
      assert auths[..i] + auths[i + 1..] == auths[..n];
    }
  }

  // Where the last element of `a` stands in a permutation `b`, and what remains.
  lemma WithoutLast(a: seq<EntryAuth>, b: seq<EntryAuth>) returns (i: nat)
    requires a != [] && multiset(a) == multiset(b)
    ensures i < |b| && b[i] == a[|a| - 1]
    ensures multiset(a[..|a| - 1]) == multiset(b[..i] + b[i + 1..])
  {
    var x := a[|a| - 1];
    assert a == a[..|a| - 1] + [x];
    assert x in multiset(b);
    i :| 0 <= i < |b| && b[i] == x;
    assert b == b[..i] + [x] + b[i + 1..];
    assert multiset(b) == multiset(b[..i]) + multiset{x} + multiset(b[i + 1..]);
    assert multiset(a) == multiset(a[..|a| - 1]) + multiset{x};
    var rest := b[..i] + b[i + 1..];
    assert multiset(rest) == multiset(b[..i]) + multiset(b[i + 1..]);
    assert multiset(rest) + multiset{x} == multiset(a[..|a| - 1]) + multiset{x};
    assert multiset(rest) == multiset(rest) + multiset{x} - multiset{x};
  }

  /** The sum, saturated or not, does not depend on the order of the entries. */
  lemma {:induction false} TotalEtherOrderFree(a: seq<EntryAuth>, b: seq<EntryAuth>)
    requires multiset(a) == multiset(b)
    ensures TotalEther(a) == TotalEther(b)
    decreases |a|
  {
    assert |a| == |multiset(a)| == |multiset(b)| == |b|;
    if a != [] {
      var n := |a| - 1;
      var i := WithoutLast(a, b);
      TotalEtherOrderFree(a[..n], b[..i] + b[i + 1..]);
      TotalEtherRemove(b, i);
    }
  }

  // ---- the signers' hash ----------------------------------------------------

  function ConcatAddresses(signers: seq<Address>): seq<byte> {
    if signers == [] then [] else ConcatAddresses(signers[..|signers| - 1]) + signers[|signers| - 1]
  }

  method KeccakSigners(crypto: Crypto, signers: seq<Address>) returns (r: Word)
    ensures r == crypto.keccak(ConcatAddresses(signers))
  {
    var absorbed: seq<byte> := [];
    for i := 0 to |signers|
      invariant absorbed == ConcatAddresses(signers[..i])
    {
      assert signers[..i + 1][..i] == signers[..i];
      absorbed := absorbed + signers[i];
    }
    assert signers[..|signers|] == signers;
    return crypto.keccak(absorbed);
  }

  // The addresses one after the other, twenty bytes each.
  ghost predicate IsConcatenation(packed: seq<byte>, signers: seq<Address>) {
    |packed| == 20 * |signers| && forall k :: 0 <= k < |signers| ==> packed[20 * k..20 * k + 20] == signers[k]
  }

  /** The bytes that are hashed hold the signers in order. */
  lemma {:induction false} ConcatAddressesIs(signers: seq<Address>)
    ensures IsConcatenation(ConcatAddresses(signers), signers)
    decreases |signers|
  {
    if signers != [] {
      var n := |signers| - 1;
      var front, packed := ConcatAddresses(signers[..n]), ConcatAddresses(signers);
      ConcatAddressesIs(signers[..n]);
      forall k | 0 <= k < |signers| ensures packed[20 * k..20 * k + 20] == signers[k] {
        if k < n {
          assert packed[20 * k..20 * k + 20] == front[20 * k..20 * k + 20] == signers[..n][k];
        }
      }
    }
  }

  lemma {:induction false} ConcatenationUnique(a: seq<byte>, b: seq<byte>, signers: seq<Address>)
    requires IsConcatenation(a, signers) && IsConcatenation(b, signers)
    ensures a == b
    decreases |signers|
  {
    if signers == [] {
      assert a == [] == b;
    } else {
      var n := |signers| - 1;
      var x, y := a[..20 * n], b[..20 * n];
      forall k | 0 <= k < n
        ensures x[20 * k..20 * k + 20] == signers[..n][k] && y[20 * k..20 * k + 20] == signers[..n][k]
      {
        assert x[20 * k..20 * k + 20] == a[20 * k..20 * k + 20];
        assert y[20 * k..20 * k + 20] == b[20 * k..20 * k + 20];
      }
      ConcatenationUnique(x, y, signers[..n]);
      assert a[20 * n..20 * n + 20] == signers[n] && b[20 * n..20 * n + 20] == signers[n];
      assert a == x + a[20 * n..20 * n + 20] && b == y + b[20 * n..20 * n + 20];
    }
  }

  /** The hashed bytes determine the signers and their order. */
  lemma {:induction false} ConcatAddressesInjective(a: seq<Address>, b: seq<Address>)
    requires ConcatAddresses(a) == ConcatAddresses(b)
    ensures a == b
    decreases |a|
  {
    if a != [] && b != [] {
      var x, y := a[..|a| - 1], b[..|b| - 1];
      var bytes := ConcatAddresses(a);
      assert bytes[|bytes| - 20..] == a[|a| - 1] == b[|b| - 1];
      assert bytes[..|bytes| - 20] == ConcatAddresses(x) == ConcatAddresses(y);
      ConcatAddressesInjective(x, y);
      assert a == x + [a[|a| - 1]] && b == y + [b[|b| - 1]];
    }
  }

  // ---- accept or reject -----------------------------------------------------

  // The blob bytes pack, blob by blob, the canonical list `es` and some padding.
  ghost predicate Carries(blobData: seq<byte>, blobs: nat, es: seq<seq<byte>>) {
    && NonEmpty(es) && Fits(es)
    && exists padding: seq<byte> :: IsPacking(EncodeList(es) + padding, blobData, FIELD_ELEMENTS_PER_BLOB * blobs)
  }

  ghost predicate AllRecover(crypto: Crypto, auths: seq<EntryAuth>, es: seq<seq<byte>>) {
    |es| == |auths| && forall i :: 0 <= i < |es| ==> Recover(crypto, auths[i], es[i]).Some?
  }

  // Everything the guest demands, for the entries `es`.
  ghost predicate Accepts(crypto: Crypto, inputs: GuestInputs, es: seq<seq<byte>>) {
    && ComputePublicInputsHash(crypto, inputs) == inputs.expectedPublicInputsHash
    && Carries(inputs.blobData, |inputs.blobs|, es)
    && AllRecover(crypto, inputs.entryAuths, es)
  }

  ghost function Signers(crypto: Crypto, auths: seq<EntryAuth>, es: seq<seq<byte>>): seq<Address>
    requires AllRecover(crypto, auths, es)
  {
    seq(|es|, i requires 0 <= i < |es| => Recover(crypto, auths[i], es[i]).value)
  }

  ghost function OutputFor(crypto: Crypto, inputs: GuestInputs, es: seq<seq<byte>>): Output
    requires Accepts(crypto, inputs, es)
  {
    Output(
      inputs.expectedPublicInputsHash, true,
      ToBigEndian(Saturate(TotalEther(inputs.entryAuths)), 32),
      crypto.keccak(ConcatAddresses(Signers(crypto, inputs.entryAuths, es))))
  }

  lemma PrefixIsCarried(blobData: seq<byte>, blobs: nat, s: seq<byte>, es: seq<seq<byte>>)
    requires IsPacking(s, blobData, FIELD_ELEMENTS_PER_BLOB * blobs)
    requires NonEmpty(es) && Fits(es) && EncodeList(es) <= s
    ensures Carries(blobData, blobs, es)
  {
    var padding := s[|EncodeList(es)|..];
    assert s == EncodeList(es) + padding;
  }

  lemma CarriedIsPrefix(blobData: seq<byte>, blobs: nat, s: seq<byte>, es: seq<seq<byte>>)
    requires IsPacking(s, blobData, FIELD_ELEMENTS_PER_BLOB * blobs) && Carries(blobData, blobs, es)
    ensures EncodeList(es) <= s
  {
    var n := FIELD_ELEMENTS_PER_BLOB * blobs;
    var padding: seq<byte> :| IsPacking(EncodeList(es) + padding, blobData, n);
    PackingUnique(EncodeList(es) + padding, blobData, s, blobData, n);
  }

  lemma CarriedIsDecoded(blobData: seq<byte>, blobs: nat, s: seq<byte>, es: seq<seq<byte>>)
    requires IsPacking(s, blobData, FIELD_ELEMENTS_PER_BLOB * blobs)
    ensures Carries(blobData, blobs, es) <==> EntriesOf(s) == Some(es)
  {
    EntriesIff(s, es);
    if Carries(blobData, blobs, es) {
      CarriedIsPrefix(blobData, blobs, s, es);
    } else if EntriesOf(s) == Some(es) {
      PrefixIsCarried(blobData, blobs, s, es);
    }
  }

  lemma CarriesNeedsPacking(blobData: seq<byte>, blobs: nat, es: seq<seq<byte>>)
    requires Carries(blobData, blobs, es)
    ensures |blobData| == BLOB_RAW_BYTES * blobs && Canonical(blobData, FIELD_ELEMENTS_PER_BLOB * blobs)
  {
  }

  /** The blob bytes carry at most one list of entries. */
  lemma CarriedUnique(blobData: seq<byte>, blobs: nat, es1: seq<seq<byte>>, es2: seq<seq<byte>>)
    requires Carries(blobData, blobs, es1) && Carries(blobData, blobs, es2)
    ensures es1 == es2
  {
    var padding: seq<byte> :| IsPacking(EncodeList(es1) + padding, blobData, FIELD_ELEMENTS_PER_BLOB * blobs);
    CarriedIsDecoded(blobData, blobs, EncodeList(es1) + padding, es1);
    CarriedIsDecoded(blobData, blobs, EncodeList(es1) + padding, es2);
  }

  // output.abi_encode(): four words.
  function CommittedBytes(o: Output): seq<byte> {
    EncTuple([Bytes32(o.publicInputsHash), Uint(if o.valid then 1 else 0),
              Bytes32(o.totalEtherAccumulated), Bytes32(o.signersHash)])
  }

  lemma FourParts(a: seq<byte>, b: seq<byte>, c: seq<byte>, d: seq<byte>)
    ensures a + (b + (c + (d + []))) + [] == a + b + c + d
  {
  }

  lemma FourStaticWords(a: Value, b: Value, c: Value, d: Value)
    requires !IsDynamic(a) && !IsDynamic(b) && !IsDynamic(c) && !IsDynamic(d)
    ensures EncTuple([a, b, c, d]) == Enc(a) + Enc(b) + Enc(c) + Enc(d)
  {
    var two := [c] + [d];
    var three := [b] + two;
    var fs := [a] + three;
    assert [d] == [d] + [] && fs == [a, b, c, d];
    StaticWord(d, [], HeadLength(fs));
    StaticWord(c, [d], HeadLength(fs));
    StaticWord(b, two, HeadLength(fs));
    StaticWord(a, three, HeadLength(fs));
    FourParts(Enc(a), Enc(b), Enc(c), Enc(d));
  }

  lemma SameWords(a: Word, b: Word, c: Word, d: Word, a2: Word, b2: Word, c2: Word, d2: Word)
    requires a + b + c + d == a2 + b2 + c2 + d2
    ensures a == a2 && b == b2 && c == c2 && d == d2
  {
    SameSplit(a + b + c, d, a2 + b2 + c2, d2);
    SameSplit(a + b, c, a2 + b2, c2);
    SameSplit(a, b, a2, b2);
  }

  /** The committed bytes: digest, verdict, total and signers' hash, one word each. */
  lemma CommittedWords(o: Output)
    ensures CommittedBytes(o)
         == o.publicInputsHash + ToBigEndian(if o.valid then 1 else 0, 32) + o.totalEtherAccumulated + o.signersHash
  {
    FourStaticWords(Bytes32(o.publicInputsHash), Uint(if o.valid then 1 else 0),
                    Bytes32(o.totalEtherAccumulated), Bytes32(o.signersHash));
  }

  /** The committed bytes are four words and determine the output. */
  lemma CommittedBytesInjective(o: Output, q: Output)
    ensures |CommittedBytes(o)| == 128
    ensures CommittedBytes(o) == CommittedBytes(q) <==> o == q
  {
    var ov, qv := if o.valid then 1 else 0, if q.valid then 1 else 0;
    FourStaticWords(Bytes32(o.publicInputsHash), Uint(ov), Bytes32(o.totalEtherAccumulated), Bytes32(o.signersHash));
    FourStaticWords(Bytes32(q.publicInputsHash), Uint(qv), Bytes32(q.totalEtherAccumulated), Bytes32(q.signersHash));
    if CommittedBytes(o) == CommittedBytes(q) {
      SameWords(o.publicInputsHash, ToBigEndian(ov, 32), o.totalEtherAccumulated, o.signersHash,
                q.publicInputsHash, ToBigEndian(qv, 32), q.totalEtherAccumulated, q.signersHash);
      NumeralInjective(ov, qv);
    }
  }

  // The loop that recovers one signer per (entry, auth) pair.
  method RecoverAll(crypto: Crypto, auths: seq<EntryAuth>, es: seq<seq<byte>>) returns (r: Option<seq<Address>>)
    requires |auths| == |es|
    ensures r.Some? <==> AllRecover(crypto, auths, es)
    ensures r.Some? ==> r.value == Signers(crypto, auths, es)
  {
    var signers: seq<Address> := [];
    for i := 0 to |es|
      invariant |signers| == i
      invariant forall j :: 0 <= j < i ==> Recover(crypto, auths[j], es[j]) == Some(signers[j])
    {
      var signer := Recover(crypto, auths[i], es[i]);
      if signer.None? {
        return None;
      }
      signers := signers + [signer.value];
    }
    return Some(signers);
  }

  // What the guest demands, in plain terms: the digest is that of the contract, the
  // blobs carry the entries, and each entry is signed, in order, by a signer.
  ghost predicate Opens(crypto: Crypto, inputs: GuestInputs, es: seq<seq<byte>>, signers: seq<Address>) {
    && crypto.keccak(ContractPreimage(PublicInputsOf(inputs))) == inputs.expectedPublicInputsHash
    && Carries(inputs.blobData, |inputs.blobs|, es)
    && |es| == |inputs.entryAuths| == |signers|
    && forall i :: 0 <= i < |es| ==> Signs(crypto, inputs.entryAuths[i], es[i], signers[i])
  }

  /** Accepting is opening, and the signers are determined. */
  lemma OpensIff(crypto: Crypto, inputs: GuestInputs, es: seq<seq<byte>>, signers: seq<Address>)
    ensures Opens(crypto, inputs, es, signers) <==>
      Accepts(crypto, inputs, es) && signers == Signers(crypto, inputs.entryAuths, es)
  {
    FlatIsContractEncoding(PublicInputsOf(inputs));
    if |es| == |inputs.entryAuths| == |signers| {
      forall i | 0 <= i < |es|
        ensures Signs(crypto, inputs.entryAuths[i], es[i], signers[i]) <==>
          Recover(crypto, inputs.entryAuths[i], es[i]) == Some(signers[i])
      {
        RecoverIff(crypto, inputs.entryAuths[i], es[i], signers[i]);
      }
    }
  }

  // The words committed for these signers.
  ghost predicate IsCommitment(crypto: Crypto, inputs: GuestInputs, signers: seq<Address>, out: seq<byte>) {
    forall packed :: IsConcatenation(packed, signers) ==>
      out == inputs.expectedPublicInputsHash + ToBigEndian(1, 32)
             + ToBigEndian(Capped(TotalEther(inputs.entryAuths)), 32) + crypto.keccak(packed)
  }

  lemma CommitmentIs(crypto: Crypto, inputs: GuestInputs, es: seq<seq<byte>>)
    requires Accepts(crypto, inputs, es)
    ensures IsCommitment(crypto, inputs, Signers(crypto, inputs.entryAuths, es), CommittedBytes(OutputFor(crypto, inputs, es)))
  {
    var signers := Signers(crypto, inputs.entryAuths, es);
    CommittedWords(OutputFor(crypto, inputs, es));
    SaturateIs(TotalEther(inputs.entryAuths));
    ConcatAddressesIs(signers);
    forall packed | IsConcatenation(packed, signers) ensures packed == ConcatAddresses(signers) {
      ConcatenationUnique(packed, ConcatAddresses(signers), signers);
    }
  }

  lemma GuestOutcome(crypto: Crypto, inputs: GuestInputs, r: Option<seq<byte>>)
    requires r.Some? <==> exists es :: Accepts(crypto, inputs, es)
    requires forall es :: Accepts(crypto, inputs, es) ==> r == Some(CommittedBytes(OutputFor(crypto, inputs, es)))
    ensures r.Some? <==> exists es, signers :: Opens(crypto, inputs, es, signers)
    ensures forall es, signers :: Opens(crypto, inputs, es, signers) ==>
      r.Some? && IsCommitment(crypto, inputs, signers, r.value)
  {
    if es :| Accepts(crypto, inputs, es) {
      OpensIff(crypto, inputs, es, Signers(crypto, inputs.entryAuths, es));
    }
    forall es, signers | Opens(crypto, inputs, es, signers)
      ensures r.Some? && IsCommitment(crypto, inputs, signers, r.value)
    {
      OpensIff(crypto, inputs, es, signers);
      CommitmentIs(crypto, inputs, es);
    }
  }

  // The sequence of checks, and the output.
  method DecideGuest(crypto: Crypto, inputs: GuestInputs) returns (r: Option<seq<byte>>)
    ensures r.Some? <==> exists es :: Accepts(crypto, inputs, es)
    ensures forall es :: Accepts(crypto, inputs, es) ==> r == Some(CommittedBytes(OutputFor(crypto, inputs, es)))
  {
    var publicInputsHash := ComputePublicInputsHash(crypto, inputs);
    if publicInputsHash != inputs.expectedPublicInputsHash {
      return None;
    }
    var s := UnpackBlobs(inputs.blobData, |inputs.blobs|);
    if s.None? {
      forall es ensures !Accepts(crypto, inputs, es) {
        if Carries(inputs.blobData, |inputs.blobs|, es) {
          CarriesNeedsPacking(inputs.blobData, |inputs.blobs|, es);
        }
      }
      return None;
    }
    var decoded := DecodeEntries(s.value);
    forall es ensures Carries(inputs.blobData, |inputs.blobs|, es) <==> decoded == Some(es) {
      CarriedIsDecoded(inputs.blobData, |inputs.blobs|, s.value, es);
    }
    if decoded.None? || |decoded.value| != |inputs.entryAuths| {
      return None;
    }
    var entries := decoded.value;
    var signers := RecoverAll(crypto, inputs.entryAuths, entries);
    if signers.None? {
      return None;
    }
    assert Accepts(crypto, inputs, entries);
    var total := SumEther(inputs.entryAuths);
    var signersHash := KeccakSigners(crypto, signers.value);
    return Some(CommittedBytes(Output(publicInputsHash, true, total, signersHash)));
  }

  /**
    The guest commits exactly for inputs it accepts, and then the committed
    bytes are determined by the unique list of entries the blobs carry.
  */
  method RunGuest(crypto: Crypto, inputs: GuestInputs) returns (r: Option<seq<byte>>)
    ensures r.Some? <==> exists es, signers :: Opens(crypto, inputs, es, signers)
    ensures forall es, signers :: Opens(crypto, inputs, es, signers) ==>
      r.Some? && IsCommitment(crypto, inputs, signers, r.value)
    ensures r.Some? <==> exists es :: Accepts(crypto, inputs, es)
    ensures forall es :: Accepts(crypto, inputs, es) ==> r == Some(CommittedBytes(OutputFor(crypto, inputs, es)))
  {
    r := DecideGuest(crypto, inputs);
    GuestOutcome(crypto, inputs, r);
  }

  // ---- end to end -----------------------------------------------------------

  // Payload `j` of a stream cut into blob payloads.
  function PayloadAt(s: seq<byte>, j: nat): seq<byte>
    requires BLOB_PAYLOAD_BYTES * (j + 1) <= |s|
  {
    s[BLOB_PAYLOAD_BYTES * j..BLOB_PAYLOAD_BYTES * (j + 1)]
  }

  lemma {:induction false} PackedBlobByBlob(s: seq<byte>, blobs: seq<seq<byte>>)
    requires |s| == BLOB_PAYLOAD_BYTES * |blobs|
    requires forall j :: 0 <= j < |blobs| ==> IsPacking(PayloadAt(s, j), blobs[j], FIELD_ELEMENTS_PER_BLOB)
    ensures IsPacking(s, Flatten(blobs), FIELD_ELEMENTS_PER_BLOB * |blobs|)
    decreases |blobs|
  {
    if blobs != [] {
      var n := |blobs| - 1;
      var front := s[..BLOB_PAYLOAD_BYTES * n];
      forall j | 0 <= j < n ensures IsPacking(PayloadAt(front, j), blobs[..n][j], FIELD_ELEMENTS_PER_BLOB) {
        assert PayloadAt(front, j) == PayloadAt(s, j);
      }
      PackedBlobByBlob(front, blobs[..n]);
      PackingConcat(front, Flatten(blobs[..n]), FIELD_ELEMENTS_PER_BLOB * n, PayloadAt(s, n), blobs[n], FIELD_ELEMENTS_PER_BLOB);
      assert s == front + PayloadAt(s, n);
    }
  }

  /**
    Encode, pad to whole blobs, cut, pack each payload, concatenate: the guest
    reads back the same entries, also those that straddle a blob boundary.
  */
  lemma EndToEnd(es: seq<seq<byte>>, padding: seq<byte>, blobs: seq<seq<byte>>)
    requires NonEmpty(es) && Fits(es)
    requires |EncodeList(es) + padding| == BLOB_PAYLOAD_BYTES * |blobs|
    requires forall j :: 0 <= j < |blobs| ==>
      IsPacking(PayloadAt(EncodeList(es) + padding, j), blobs[j], FIELD_ELEMENTS_PER_BLOB)
    ensures Carries(Flatten(blobs), |blobs|, es)
  {
    PackedBlobByBlob(EncodeList(es) + padding, blobs);
  }
}
