/**
  The preimage of `publicInputsHash`: the Solidity ABI encoding written out as
  head and tail (Contract ABI Specification, "Formal Specification of the
  Encoding"), and the flat word layout the prover side produces.
*/
module Abi {
  import opened Bytes

  type Word = w: seq<byte> | |w| == 32 witness seq(32, _ => 0)

  type Address = a: seq<byte> | |a| == 20 witness seq(20, _ => 0)

  type U64 = n: nat | n < U64_LIMIT

  type U256 = n: nat | n < U256_LIMIT

  // ---- the encoding of the ABI specification --------------------------------

  // Values of the types in use: uint<M>, bytes32, address, tuples and T[].
  datatype Value =
    | Uint(n: nat)
    | Bytes32(w: Word)
    | Addr(a: Address)
    | Tuple(fields: seq<Value>)
    | Array(elements: seq<Value>)

  predicate IsDynamic(v: Value) {
    match v
    case Array(_) => true
    case Tuple(fs) => exists i :: 0 <= i < |fs| && IsDynamic(fs[i])
    case _ => false
  }

  function PadLeft(bs: seq<byte>): (r: seq<byte>)
    requires |bs| <= 32
    ensures |r| == 32 && r[32 - |bs|..] == bs
    ensures forall i :: 0 <= i < 32 - |bs| ==> r[i] == 0
  {
    seq(32 - |bs|, _ => 0) + bs
  }

  // A static value stands in the head; a dynamic one is replaced by the offset of its tail.
  function Heads(fs: seq<Value>, offset: nat): seq<byte>
    decreases fs, 0
  {
    if fs == [] then []
    else if IsDynamic(fs[0]) then ToBigEndian(offset, 32) + Heads(fs[1..], offset + |Enc(fs[0])|)
    else Enc(fs[0]) + Heads(fs[1..], offset)
  }

  function Tails(fs: seq<Value>): seq<byte>
    decreases fs, 0
  {
    if fs == [] then [] else (if IsDynamic(fs[0]) then Enc(fs[0]) else []) + Tails(fs[1..])
  }

  // head(X1) ... head(Xk) tail(X1) ... tail(Xk)
  function EncTuple(fs: seq<Value>): seq<byte>
    decreases fs, 1
  {
    Heads(fs, HeadLength(fs)) + Tails(fs)
  }

  function Enc(v: Value): seq<byte>
    decreases v, 2
  {
    match v
    case Uint(n) => ToBigEndian(n, 32)
    case Bytes32(w) => w
    case Addr(a) => PadLeft(a)
    case Tuple(fs) => EncTuple(fs)
    case Array(es) => ToBigEndian(|es|, 32) + EncTuple(es)
  }

  function HeadLength(fs: seq<Value>): nat
    decreases fs, 0
  {
    if fs == [] then 0 else (if IsDynamic(fs[0]) then 32 else |Enc(fs[0])|) + HeadLength(fs[1..])
  }

  // ---- the public inputs ----------------------------------------------------

  datatype BlobRef = BlobRef(blockNumber: U64, txIndex: U64)

  datatype PublicInputs = PublicInputs(
    blobs: seq<BlobRef>, prevRoot: Word, newRoot: Word, totalEtherPaid: U256, blockHash: Word, sender: Address
  )

  function RefValues(refs: seq<BlobRef>): (r: seq<Value>)
    ensures |r| == |refs|
  {
    if refs == [] then []
    else [Tuple([Uint(refs[0].blockNumber), Uint(refs[0].txIndex)])] + RefValues(refs[1..])
  }

  // abi.encode(blobsReference, prevRoot, newRoot, totalEtherPaid, blockhash(blockNumber), msg.sender)
  function ContractPreimage(p: PublicInputs): seq<byte> {
    EncTuple([Array(RefValues(p.blobs)), Bytes32(p.prevRoot), Bytes32(p.newRoot),
              Uint(p.totalEtherPaid), Bytes32(p.blockHash), Addr(p.sender)])
  }

  // ---- the flat layout of the prover side -----------------------------------

  function EncRefs(refs: seq<BlobRef>): (r: seq<byte>)
    ensures |r| == 64 * |refs|
  {
    if refs == [] then []
    else ToBigEndian(refs[0].blockNumber, 32) + ToBigEndian(refs[0].txIndex, 32) + EncRefs(refs[1..])
  }

  function StaticBytes(p: PublicInputs): (r: seq<byte>)
    ensures |r| == 160
  {
    p.prevRoot + p.newRoot + ToBigEndian(p.totalEtherPaid, 32) + p.blockHash + PadLeft(p.sender)
  }

  // The fixed part: the offset of the reference array and the five static words.
  function FixedWords(p: PublicInputs, offset: nat): (r: seq<byte>)
    ensures |r| == 192
  {
    ToBigEndian(offset, 32) + StaticBytes(p)
  }

  function FlatPreimage(p: PublicInputs): seq<byte> {
    FixedWords(p, 192) + (ToBigEndian(|p.blobs|, 32) + EncRefs(p.blobs))
  }

  // ---- flat layout = head/tail encoding -------------------------------------

  // A one-word static field in front of the rest of a tuple.
  lemma StaticWord(v: Value, rest: seq<Value>, offset: nat)
    requires !IsDynamic(v)
    ensures Heads([v] + rest, offset) == Enc(v) + Heads(rest, offset)
    ensures Tails([v] + rest) == Tails(rest)
    ensures HeadLength([v] + rest) == |Enc(v)| + HeadLength(rest)
  {
    assert ([v] + rest)[1..] == rest;
    assert [] + Tails(rest) == Tails(rest);
  }

  lemma RefIsStatic(r: BlobRef)
    ensures !IsDynamic(Tuple([Uint(r.blockNumber), Uint(r.txIndex)]))
    ensures Enc(Tuple([Uint(r.blockNumber), Uint(r.txIndex)]))
         == ToBigEndian(r.blockNumber, 32) + ToBigEndian(r.txIndex, 32)
  {
    var fs := [Uint(r.blockNumber), Uint(r.txIndex)];
    assert fs[1..] == [fs[1]] && fs[1..][1..] == [];
    StaticWord(fs[0], [fs[1]], HeadLength(fs));
    StaticWord(fs[1], [], HeadLength(fs));
    assert fs == [fs[0]] + [fs[1]] && [fs[1]] == [fs[1]] + [];
    assert Enc(Tuple(fs)) == EncTuple(fs);
  }

  lemma {:induction false} RefsHeads(refs: seq<BlobRef>, offset: nat)
    ensures Heads(RefValues(refs), offset) == EncRefs(refs) && Tails(RefValues(refs)) == []
    decreases |refs|
  {
    if refs != [] {
      RefsHeads(refs[1..], offset);
      RefIsStatic(refs[0]);
      StaticWord(Tuple([Uint(refs[0].blockNumber), Uint(refs[0].txIndex)]), RefValues(refs[1..]), offset);
    }
  }

  lemma DynamicField(v: Value, rest: seq<Value>, offset: nat)
    requires IsDynamic(v)
    ensures Heads([v] + rest, offset) == ToBigEndian(offset, 32) + Heads(rest, offset + |Enc(v)|)
    ensures Tails([v] + rest) == Enc(v) + Tails(rest)
    ensures HeadLength([v] + rest) == 32 + HeadLength(rest)
  {
    assert ([v] + rest)[1..] == rest;
  }

  lemma NothingAfter(a: seq<byte>)
    ensures a + [] == a && [] + a == a
  {
  }

  // The encoding of a tuple from its heads and tails.
  lemma TupleOf(fs: seq<Value>, heads: seq<byte>, tails: seq<byte>)
    requires Heads(fs, HeadLength(fs)) == heads && Tails(fs) == tails
    ensures EncTuple(fs) == heads + tails
  {
  }

  lemma ArrayOf(vs: seq<Value>, count: nat, body: seq<byte>)
    requires |vs| == count && EncTuple(vs) == body
    ensures Enc(Array(vs)) == ToBigEndian(count, 32) + body
  {
  }

  lemma RefArray(refs: seq<BlobRef>)
    ensures Enc(Array(RefValues(refs))) == ToBigEndian(|refs|, 32) + EncRefs(refs)
  {
    var vs := RefValues(refs);
    RefsHeads(refs, HeadLength(vs));
    TupleOf(vs, EncRefs(refs), []);
    NothingAfter(EncRefs(refs));
    ArrayOf(vs, |refs|, EncRefs(refs));
  }

  // The five static fields of the call, in order.
  function StaticFields(p: PublicInputs): seq<Value> {
    [Bytes32(p.prevRoot)] + ([Bytes32(p.newRoot)] + ([Uint(p.totalEtherPaid)]
      + ([Bytes32(p.blockHash)] + [Addr(p.sender)])))
  }

  lemma FiveWords(p: PublicInputs, offset: nat)
    ensures HeadLength(StaticFields(p)) == 160 && Tails(StaticFields(p)) == []
    ensures Heads(StaticFields(p), offset) == StaticBytes(p)
  {
    var sender := [Addr(p.sender)];
    assert sender == [Addr(p.sender)] + [];
    StaticWord(Addr(p.sender), [], offset);
    var hash := [Bytes32(p.blockHash)] + sender;
    StaticWord(Bytes32(p.blockHash), sender, offset);
    var amount := [Uint(p.totalEtherPaid)] + hash;
    StaticWord(Uint(p.totalEtherPaid), hash, offset);
    var newer := [Bytes32(p.newRoot)] + amount;
    StaticWord(Bytes32(p.newRoot), amount, offset);
    StaticWord(Bytes32(p.prevRoot), newer, offset);
  }

  lemma TupleParts(fs: seq<Value>, offset: nat, first: seq<byte>, heads: seq<byte>, tail: seq<byte>)
    requires HeadLength(fs) == offset && Heads(fs, offset) == first + heads && Tails(fs) == tail + []
    ensures EncTuple(fs) == first + heads + tail
  {
    NothingAfter(tail);
    TupleOf(fs, first + heads, tail);
  }

  // A dynamic field followed by static ones: its offset, the static words, its encoding.
  lemma DynamicFirst(v: Value, rest: seq<Value>, offset: nat, heads: seq<byte>)
    requires IsDynamic(v) && Tails(rest) == [] && offset == 32 + HeadLength(rest)
    requires Heads(rest, offset + |Enc(v)|) == heads
    ensures EncTuple([v] + rest) == ToBigEndian(offset, 32) + heads + Enc(v)
  {
    DynamicField(v, rest, offset);
    TupleParts([v] + rest, offset, ToBigEndian(offset, 32), heads, Enc(v));
  }

  lemma FlatIsHeadTail(p: PublicInputs, fs: seq<Value>, offset: nat)
    requires offset == 192 && fs == [Array(RefValues(p.blobs))] + StaticFields(p)
    ensures FixedWords(p, offset) + (ToBigEndian(|p.blobs|, 32) + EncRefs(p.blobs)) == EncTuple(fs)
  {
    var refs := Array(RefValues(p.blobs));
    RefArray(p.blobs);
    FiveWords(p, offset + |Enc(refs)|);
    DynamicFirst(refs, StaticFields(p), offset, StaticBytes(p));
  }

  /** The prover's flat layout is byte for byte what the contract hashes. */
  lemma FlatIsContractEncoding(p: PublicInputs)
    ensures FlatPreimage(p) == ContractPreimage(p)
  {
    var fs := [Array(RefValues(p.blobs))] + StaticFields(p);
    assert fs == [Array(RefValues(p.blobs)), Bytes32(p.prevRoot), Bytes32(p.newRoot),
                  Uint(p.totalEtherPaid), Bytes32(p.blockHash), Addr(p.sender)];
    FlatIsHeadTail(p, fs, 192);
  }

  // ---- injectivity ----------------------------------------------------------

  lemma SameSplit(a: seq<byte>, b: seq<byte>, c: seq<byte>, d: seq<byte>)
    requires |a| == |c| && a + b == c + d
    ensures a == c && b == d
  {
    assert (a + b)[..|a|] == a && (c + d)[..|c|] == c;
    assert (a + b)[|a|..] == b && (c + d)[|c|..] == d;
  }

  lemma NumeralInjective(a: nat, b: nat)
    requires a < U256_LIMIT && b < U256_LIMIT && ToBigEndian(a, 32) == ToBigEndian(b, 32)
    ensures a == b
  {
    Limits();
    FixedWidthValue(a, 32);
    FixedWidthValue(b, 32);
  }

  lemma {:induction false} EncRefsInjective(a: seq<BlobRef>, b: seq<BlobRef>)
    requires EncRefs(a) == EncRefs(b)
    ensures a == b
    decreases |a|
  {
    assert |a| == |b|;
    if a != [] {
      var x, y := a[0], b[0];
      SameSplit(ToBigEndian(x.blockNumber, 32) + ToBigEndian(x.txIndex, 32), EncRefs(a[1..]),
                ToBigEndian(y.blockNumber, 32) + ToBigEndian(y.txIndex, 32), EncRefs(b[1..]));
      SameSplit(ToBigEndian(x.blockNumber, 32), ToBigEndian(x.txIndex, 32),
                ToBigEndian(y.blockNumber, 32), ToBigEndian(y.txIndex, 32));
      NumeralInjective(x.blockNumber, y.blockNumber);
      NumeralInjective(x.txIndex, y.txIndex);
      EncRefsInjective(a[1..], b[1..]);
      assert a == [x] + a[1..] && b == [y] + b[1..];
    }
  }

  lemma FixedWordsInjective(p: PublicInputs, q: PublicInputs, n: nat)
    requires FixedWords(p, n) == FixedWords(q, n)
    ensures p.prevRoot == q.prevRoot && p.newRoot == q.newRoot && p.totalEtherPaid == q.totalEtherPaid
    ensures p.blockHash == q.blockHash && p.sender == q.sender
  {
    SameSplit(ToBigEndian(n, 32), StaticBytes(p), ToBigEndian(n, 32), StaticBytes(q));
    var pa, qa := ToBigEndian(p.totalEtherPaid, 32), ToBigEndian(q.totalEtherPaid, 32);
    var ps, qs := PadLeft(p.sender), PadLeft(q.sender);
    SameSplit(p.prevRoot + p.newRoot + pa + p.blockHash, ps, q.prevRoot + q.newRoot + qa + q.blockHash, qs);
    SameSplit(p.prevRoot + p.newRoot + pa, p.blockHash, q.prevRoot + q.newRoot + qa, q.blockHash);
    SameSplit(p.prevRoot + p.newRoot, pa, q.prevRoot + q.newRoot, qa);
    SameSplit(p.prevRoot, p.newRoot, q.prevRoot, q.newRoot);
    NumeralInjective(p.totalEtherPaid, q.totalEtherPaid);
    assert ps[12..] == p.sender && qs[12..] == q.sender;
  }

  /** Two sets of public inputs with the same preimage are the same. */
  lemma PreimageInjective(p: PublicInputs, q: PublicInputs)
    requires ContractPreimage(p) == ContractPreimage(q)
    ensures p == q
  {
    FlatIsContractEncoding(p);
    FlatIsContractEncoding(q);
    SameSplit(FixedWords(p, 192), ToBigEndian(|p.blobs|, 32) + EncRefs(p.blobs),
              FixedWords(q, 192), ToBigEndian(|q.blobs|, 32) + EncRefs(q.blobs));
    SameSplit(ToBigEndian(|p.blobs|, 32), EncRefs(p.blobs), ToBigEndian(|q.blobs|, 32), EncRefs(q.blobs));
    FixedWordsInjective(p, q, 192);
    EncRefsInjective(p.blobs, q.blobs);
  }

  // ---- the layout, byte by byte ---------------------------------------------

  // The 32 bytes at `offset`.
  function WordAt(bs: seq<byte>, offset: nat): (w: seq<byte>)
    requires offset + 32 <= |bs|
    ensures |w| == 32
  {
    bs[offset..offset + 32]
  }

  lemma SkipWord(front: seq<byte>, rest: seq<byte>, offset: nat)
    requires offset + 32 <= |rest|
    ensures WordAt(front + rest, |front| + offset) == WordAt(rest, offset)
  {
  }

  lemma TwoWords(a: seq<byte>, b: seq<byte>, rest: seq<byte>)
    requires |a| == |b| == 32
    ensures WordAt(a + b + rest, 0) == a && WordAt(a + b + rest, 32) == b
  {
  }

  // The two words of a reference.
  function RefWord(r: BlobRef): (w: seq<byte>)
    ensures |w| == 64
  {
    ToBigEndian(r.blockNumber, 32) + ToBigEndian(r.txIndex, 32)
  }

  lemma FirstRefWords(r: BlobRef, rest: seq<byte>)
    ensures WordAt(RefWord(r) + rest, 0) == ToBigEndian(r.blockNumber, 32)
    ensures WordAt(RefWord(r) + rest, 32) == ToBigEndian(r.txIndex, 32)
  {
    TwoWords(ToBigEndian(r.blockNumber, 32), ToBigEndian(r.txIndex, 32), rest);
  }

  lemma LaterRefWords(first: seq<byte>, rest: seq<byte>, i: nat)
    requires |first| == 64 && 64 * i + 64 <= |rest|
    ensures WordAt(first + rest, 64 * (i + 1)) == WordAt(rest, 64 * i)
    ensures WordAt(first + rest, 64 * (i + 1) + 32) == WordAt(rest, 64 * i + 32)
  {
    SkipWord(first, rest, 64 * i);
    SkipWord(first, rest, 64 * i + 32);
  }

  lemma {:induction false} RefWords(refs: seq<BlobRef>, i: nat)
    requires i < |refs|
    ensures WordAt(EncRefs(refs), 64 * i) == ToBigEndian(refs[i].blockNumber, 32)
    ensures WordAt(EncRefs(refs), 64 * i + 32) == ToBigEndian(refs[i].txIndex, 32)
    decreases |refs|
  {
    assert EncRefs(refs) == RefWord(refs[0]) + EncRefs(refs[1..]);
    if i > 0 {
      RefWords(refs[1..], i - 1);
      LaterRefWords(RefWord(refs[0]), EncRefs(refs[1..]), i - 1);
    } else {
      FirstRefWords(refs[0], EncRefs(refs[1..]));
    }
  }

  lemma FixedWordsAt(p: PublicInputs, offset: nat)
    ensures var bs := FixedWords(p, offset);
      && WordAt(bs, 0) == ToBigEndian(offset, 32)
      && WordAt(bs, 32) == p.prevRoot && WordAt(bs, 64) == p.newRoot
      && WordAt(bs, 96) == ToBigEndian(p.totalEtherPaid, 32)
      && WordAt(bs, 128) == p.blockHash && WordAt(bs, 160) == PadLeft(p.sender)
  {
  }

  lemma KeepWord(front: seq<byte>, rest: seq<byte>, offset: nat)
    requires offset + 32 <= |front|
    ensures WordAt(front + rest, offset) == WordAt(front, offset)
  {
  }

  lemma RefWordOf(fixed: seq<byte>, count: seq<byte>, refs: seq<byte>, offset: nat)
    requires |fixed| == 192 && |count| == 32 && offset + 32 <= |refs|
    ensures WordAt(fixed + (count + refs), 224 + offset) == WordAt(refs, offset)
  {
    SkipWord(count, refs, offset);
    SkipWord(fixed, count + refs, 32 + offset);
  }

  lemma FixedPartOf(p: PublicInputs, fixed: seq<byte>, rest: seq<byte>)
    requires |fixed| == 192 && WordAt(fixed, 160) == PadLeft(p.sender)
    ensures forall k :: k in {0, 32, 64, 96, 128} ==> WordAt(fixed + rest, k) == WordAt(fixed, k)
    ensures (forall i :: 160 <= i < 172 ==> (fixed + rest)[i] == 0) && (fixed + rest)[172..192] == p.sender
  {
    forall k | k in {0, 32, 64, 96, 128} ensures WordAt(fixed + rest, k) == WordAt(fixed, k) {
      KeepWord(fixed, rest, k);
    }
    var word := WordAt(fixed, 160);
    assert forall i :: 160 <= i < 172 ==> (fixed + rest)[i] == word[i - 160];
    assert (fixed + rest)[172..192] == word[12..];
  }

  /**
    The preimage word by word: where the references start, the roots, the amount,
    the block hash, the sender behind twelve zero bytes, then the number of
    references and, for each, its block number and its transaction index.
  */
  lemma PreimageWords(p: PublicInputs, offset: nat)
    requires offset == 192
    ensures var bs, n := ContractPreimage(p), |p.blobs|;
      && |bs| == 224 + 64 * n
      && WordAt(bs, 0) == ToBigEndian(offset, 32)
      && WordAt(bs, 32) == p.prevRoot && WordAt(bs, 64) == p.newRoot
      && WordAt(bs, 96) == ToBigEndian(p.totalEtherPaid, 32) && WordAt(bs, 128) == p.blockHash
      && (forall i :: 160 <= i < 172 ==> bs[i] == 0) && bs[172..192] == p.sender
      && WordAt(bs, 192) == ToBigEndian(n, 32)
      && forall i :: 0 <= i < n ==>
           && WordAt(bs, 224 + 64 * i) == ToBigEndian(p.blobs[i].blockNumber, 32)
           && WordAt(bs, 256 + 64 * i) == ToBigEndian(p.blobs[i].txIndex, 32)
  {
    FlatIsContractEncoding(p);
    var fixed, count, refs := FixedWords(p, offset), ToBigEndian(|p.blobs|, 32), EncRefs(p.blobs);
    var bs := fixed + (count + refs);
    assert ContractPreimage(p) == bs;
    FixedWordsAt(p, offset);
    FixedPartOf(p, fixed, count + refs);
    SkipWord(fixed, count + refs, 0);
    assert WordAt(count + refs, 0) == count;
    forall i | 0 <= i < |p.blobs|
      ensures WordAt(bs, 224 + 64 * i) == ToBigEndian(p.blobs[i].blockNumber, 32)
      ensures WordAt(bs, 256 + 64 * i) == ToBigEndian(p.blobs[i].txIndex, 32)
    {
      RefWords(p.blobs, i);
      RefWordOf(fixed, count, refs, 64 * i);
      RefWordOf(fixed, count, refs, 64 * i + 32);
    }
  }
}
