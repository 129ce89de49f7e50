/**
  Packing of payload bytes into the field elements of EIP-4844 blobs (section 3
  of the encoding specification): 31 payload bytes behind one zero byte.
*/
module FieldPacking {
  import opened Prelude
  import opened Bytes

  const FIELD_ELEMENTS_PER_BLOB := 4096
  const BYTES_PER_FIELD_ELEMENT := 32
  const USABLE_BYTES_PER_FIELD := 31
  const BLOB_RAW_BYTES := 131_072
  const BLOB_PAYLOAD_BYTES := 126_976
  const BLS_MODULUS := 52435875175126190479447740508185965837690552500527637822603658699938581184513

  // F[i] and P[i]
  function Element(raw: seq<byte>, i: nat): seq<byte>
    requires 32 * i + 32 <= |raw|
  {
    raw[32 * i..32 * i + 32]
  }

  function Chunk(payload: seq<byte>, i: nat): seq<byte>
    requires 31 * i + 31 <= |payload|
  {
    payload[31 * i..31 * i + 31]
  }

  // The specification's packing relation over `n` field elements: F[i] = 0x00 || P[i].
  ghost predicate IsPacking(payload: seq<byte>, raw: seq<byte>, n: nat) {
    && |payload| == 31 * n && |raw| == 32 * n
    && forall i :: 0 <= i < n ==> Element(raw, i) == [0] + Chunk(payload, i)
  }

  // Every one of the first `n` field elements has a zero high byte.
  ghost predicate Canonical(raw: seq<byte>, n: nat)
    requires |raw| >= 32 * n
  {
    forall i :: 0 <= i < n ==> Element(raw, i)[0] == 0
  }

  // ---- the relation is a bijection onto canonical blobs ---------------------

  lemma {:induction false} PackingExtends(payload: seq<byte>, raw: seq<byte>, n: nat, chunk: seq<byte>)
    requires IsPacking(payload, raw, n) && |chunk| == 31
    ensures IsPacking(payload + chunk, raw + [0] + chunk, n + 1)
  {
    var p, r := payload + chunk, raw + [0] + chunk;
    forall i | 0 <= i < n + 1 ensures Element(r, i) == [0] + Chunk(p, i) {
      if i < n {
        assert Element(r, i) == Element(raw, i) && Chunk(p, i) == Chunk(payload, i);
      } else {
        assert Element(r, i) == [0] + chunk && Chunk(p, i) == chunk;
      }
    }
  }

  lemma PackingPrefix(payload: seq<byte>, raw: seq<byte>, n: nat, m: nat)
    requires IsPacking(payload, raw, n) && m <= n
    ensures IsPacking(payload[..31 * m], raw[..32 * m], m)
  {
    forall i | 0 <= i < m ensures Element(raw[..32 * m], i) == [0] + Chunk(payload[..31 * m], i) {
      assert Element(raw[..32 * m], i) == Element(raw, i);
      assert Chunk(payload[..31 * m], i) == Chunk(payload, i);
    }
  }

  /** A payload has at most one packing and a blob at most one payload. */
  lemma {:induction false} PackingUnique(p1: seq<byte>, r1: seq<byte>, p2: seq<byte>, r2: seq<byte>, n: nat)
    requires IsPacking(p1, r1, n) && IsPacking(p2, r2, n)
    ensures p1 == p2 <==> r1 == r2
  {
    if n > 0 {
      PackingPrefix(p1, r1, n, n - 1);
      PackingPrefix(p2, r2, n, n - 1);
      PackingUnique(p1[..31 * (n - 1)], r1[..32 * (n - 1)], p2[..31 * (n - 1)], r2[..32 * (n - 1)], n - 1);
      assert p1 == p1[..31 * (n - 1)] + Chunk(p1, n - 1) && p2 == p2[..31 * (n - 1)] + Chunk(p2, n - 1);
      assert r1 == r1[..32 * (n - 1)] + Element(r1, n - 1) && r2 == r2[..32 * (n - 1)] + Element(r2, n - 1);
      assert Chunk(p1, n - 1) == Element(r1, n - 1)[1..] && Chunk(p2, n - 1) == Element(r2, n - 1)[1..];
      assert Element(r1, n - 1) == [0] + Chunk(p1, n - 1) && Element(r2, n - 1) == [0] + Chunk(p2, n - 1);
    }
  }

  /** Every payload has a packing. */
  lemma {:induction false} PackingExists(payload: seq<byte>, n: nat) returns (raw: seq<byte>)
    requires |payload| == 31 * n
    ensures IsPacking(payload, raw, n)
  {
    if n == 0 {
      raw := [];
    } else {
      var front := PackingExists(payload[..31 * (n - 1)], n - 1);
      raw := front + [0] + Chunk(payload, n - 1);
      PackingExtends(payload[..31 * (n - 1)], front, n - 1, Chunk(payload, n - 1));
      assert payload == payload[..31 * (n - 1)] + Chunk(payload, n - 1);
    }
  }

  lemma {:induction false} PayloadOf(raw: seq<byte>, n: nat) returns (payload: seq<byte>)
    requires |raw| == 32 * n && Canonical(raw, n)
    ensures IsPacking(payload, raw, n)
  {
    if n == 0 {
      payload := [];
    } else {
      var front := raw[..32 * (n - 1)];
      forall i | 0 <= i < n - 1 ensures Element(front, i)[0] == 0 {
        assert Element(front, i) == Element(raw, i);
      }
      var p := PayloadOf(front, n - 1);
      var last := Element(raw, n - 1);
      payload := p + last[1..];
      PackingExtends(p, front, n - 1, last[1..]);
      assert raw == front + [0] + last[1..];
    }
  }

  /** A blob has a payload exactly when it is canonical. */
  lemma {:induction false} CanonicalIffPacked(raw: seq<byte>, n: nat)
    requires |raw| == 32 * n
    ensures Canonical(raw, n) <==> exists payload :: IsPacking(payload, raw, n)
  {
    if Canonical(raw, n) {
      var payload := PayloadOf(raw, n);
      assert IsPacking(payload, raw, n);
    }
  }

  /** Packings concatenate, so packing blob by blob packs the whole stream. */
  lemma {:induction false} PackingConcat(p1: seq<byte>, r1: seq<byte>, n1: nat, p2: seq<byte>, r2: seq<byte>, n2: nat)
    requires IsPacking(p1, r1, n1) && IsPacking(p2, r2, n2)
    ensures IsPacking(p1 + p2, r1 + r2, n1 + n2)
  {
    forall i | 0 <= i < n1 + n2 ensures Element(r1 + r2, i) == [0] + Chunk(p1 + p2, i) {
      if i < n1 {
        assert Element(r1 + r2, i) == Element(r1, i) && Chunk(p1 + p2, i) == Chunk(p1, i);
      } else {
        assert Element(r1 + r2, i) == Element(r2, i - n1) && Chunk(p1 + p2, i) == Chunk(p2, i - n1);
      }
    }
  }

  lemma ModulusBound()
    ensures Pow256(31) < BLS_MODULUS
  {
    Limits();
    assert Pow256(32) == 256 * Pow256(31);
  }

  /** Byte by byte: payload byte 31 i + j lies at place 32 i + 1 + j of the packing, behind the zero byte at 32 i. */
  lemma PackedByte(payload: seq<byte>, raw: seq<byte>, n: nat, i: nat, j: nat)
    requires IsPacking(payload, raw, n) && i < n && j < 31
    ensures 32 * i + 32 <= |raw| && 31 * i + 31 <= |payload|
    ensures raw[32 * i] == 0 && raw[32 * i + 1 + j] == payload[31 * i + j]
  {
    assert Element(raw, i) == [0] + Chunk(payload, i);
    assert raw[32 * i] == Element(raw, i)[0];
    assert raw[32 * i + 1 + j] == Element(raw, i)[1 + j];
    assert payload[31 * i + j] == Chunk(payload, i)[j];
  }

  /** Every packed field element is a canonical BLS12-381 scalar. */
  lemma PackedBelowModulus(payload: seq<byte>, raw: seq<byte>, n: nat, i: nat)
    requires IsPacking(payload, raw, n) && i < n
    ensures FromBigEndian(Element(raw, i)) < BLS_MODULUS
  {
    var e := Element(raw, i);
    LeadingByte(e);
    assert e == [0] + Chunk(payload, i);
    assert e[1..] == Chunk(payload, i);
    FromBigEndianBound(e[1..]);
    ModulusBound();
  }

  // ---- the operations -------------------------------------------------------

  function Zeros(n: nat): (r: seq<byte>)
    ensures |r| == n && forall i :: 0 <= i < n ==> r[i] == 0
  {
    seq(n, _ => 0)
  }

  // The payload zero-padded to one blob.
  function Padded(payload: seq<byte>): seq<byte>
    requires |payload| <= BLOB_PAYLOAD_BYTES
  {
    payload + Zeros(BLOB_PAYLOAD_BYTES - |payload|)
  }

  // Payload byte 31 i + j, or zero behind the payload, in its place behind the zero byte of element i.
  ghost predicate InPlace(payload: seq<byte>, blob: seq<byte>, i: nat, j: nat)
    requires |blob| == 131_072 && i < 4096 && j < 31
  {
    blob[32 * i] == 0 && blob[32 * i + 1 + j] == if 31 * i + j < |payload| then payload[31 * i + j] else 0
  }

  // The bytes of the blob of a payload: the payload in its places, and zero elsewhere.
  ghost predicate PacksWithZeros(payload: seq<byte>, blob: seq<byte>)
    requires |blob| == 131_072
  {
    forall i: nat, j: nat | i < 4096 && j < 31 :: InPlace(payload, blob, i, j)
  }

  lemma PaddingIsZero(payload: seq<byte>, blob: seq<byte>)
    requires |payload| <= BLOB_PAYLOAD_BYTES && IsPacking(Padded(payload), blob, FIELD_ELEMENTS_PER_BLOB)
    ensures |blob| == 131_072 && PacksWithZeros(payload, blob)
  {
    forall i: nat, j: nat | i < 4096 && j < 31 ensures InPlace(payload, blob, i, j) {
      PackedByte(Padded(payload), blob, FIELD_ELEMENTS_PER_BLOB, i, j);
    }
  }

  method PackBlob(payload: seq<byte>) returns (r: Option<seq<byte>>)
    ensures r.Some? <==> |payload| <= BLOB_PAYLOAD_BYTES
    ensures r.Some? ==> IsPacking(Padded(payload), r.value, FIELD_ELEMENTS_PER_BLOB)
    ensures r.Some? ==> |r.value| == 131_072 && PacksWithZeros(payload, r.value)
  {
    if |payload| > BLOB_PAYLOAD_BYTES {
      return None;
    }
    var padded := Padded(payload);
    var blob: seq<byte> := [];
    for i := 0 to FIELD_ELEMENTS_PER_BLOB
      invariant IsPacking(padded[..31 * i], blob, i)
    {
      var chunk := padded[i * USABLE_BYTES_PER_FIELD..(i + 1) * USABLE_BYTES_PER_FIELD];
      PackingExtends(padded[..31 * i], blob, i, chunk);
      assert padded[..31 * i] + chunk == padded[..31 * (i + 1)];
      blob := blob + [0];
      blob := blob + chunk;
    }
    assert padded[..31 * FIELD_ELEMENTS_PER_BLOB] == padded;
    PaddingIsZero(payload, blob);
    return Some(blob);
  }

  method UnpackBlob(blob: seq<byte>) returns (r: Option<seq<byte>>)
    ensures r.Some? <==> |blob| == BLOB_RAW_BYTES && Canonical(blob, FIELD_ELEMENTS_PER_BLOB)
    ensures r.Some? ==> IsPacking(r.value, blob, FIELD_ELEMENTS_PER_BLOB)
  {
    if |blob| != BLOB_RAW_BYTES {
      return None;
    }
    var out: seq<byte> := [];
    for i := 0 to FIELD_ELEMENTS_PER_BLOB
      invariant IsPacking(out, blob[..32 * i], i)
      invariant Canonical(blob, i)
    {
      var fe := blob[i * BYTES_PER_FIELD_ELEMENT..(i + 1) * BYTES_PER_FIELD_ELEMENT];
      assert fe == Element(blob, i);
      if fe[0] != 0 {
        return None;
      }
      PackingExtends(out, blob[..32 * i], i, fe[1..]);
      assert blob[..32 * i] + [0] + fe[1..] == blob[..32 * (i + 1)];
      out := out + fe[1..];
    }
    assert blob[..32 * FIELD_ELEMENTS_PER_BLOB] == blob;
    return Some(out);
  }

  /** Unpacking what was packed gives the payload back, zero-padded. */
  lemma UnpackAfterPack(payload: seq<byte>, blob: seq<byte>, unpacked: seq<byte>)
    requires |payload| <= BLOB_PAYLOAD_BYTES
    requires IsPacking(Padded(payload), blob, FIELD_ELEMENTS_PER_BLOB)
    requires IsPacking(unpacked, blob, FIELD_ELEMENTS_PER_BLOB)
    ensures unpacked == Padded(payload) && unpacked[..|payload|] == payload
  {
    PackingUnique(Padded(payload), blob, unpacked, blob, FIELD_ELEMENTS_PER_BLOB);
  }

  lemma SliceOfSlice(s: seq<byte>, a: nat, b: nat, c: nat, d: nat)
    requires a <= b <= |s| && c <= d <= b - a
    ensures s[a..b][c..d] == s[a + c..a + d]
  {
    var x, y := s[a..b][c..d], s[a + c..a + d];
    assert |x| == |y|;
    forall k | 0 <= k < |x| ensures x[k] == y[k] {
      assert x[k] == s[a..b][c + k] == s[a + c + k];
    }
  }

  lemma BlobElements(blobData: seq<byte>, n: nat, j: nat, raw: seq<byte>)
    requires |blobData| == BLOB_RAW_BYTES * n && j < n
    requires raw == blobData[j * BLOB_RAW_BYTES..(j + 1) * BLOB_RAW_BYTES]
    ensures Canonical(blobData, FIELD_ELEMENTS_PER_BLOB * n) ==> Canonical(raw, FIELD_ELEMENTS_PER_BLOB)
  {
    forall i | 0 <= i < FIELD_ELEMENTS_PER_BLOB
      ensures Element(raw, i) == Element(blobData, FIELD_ELEMENTS_PER_BLOB * j + i)
    {
      SliceOfSlice(blobData, j * BLOB_RAW_BYTES, (j + 1) * BLOB_RAW_BYTES, 32 * i, 32 * i + 32);
    }
  }

  // The cross-blob stream S of `n` blobs.
  method UnpackBlobs(blobData: seq<byte>, n: nat) returns (r: Option<seq<byte>>)
    ensures r.Some? <==> |blobData| == BLOB_RAW_BYTES * n && Canonical(blobData, FIELD_ELEMENTS_PER_BLOB * n)
    ensures r.Some? ==> IsPacking(r.value, blobData, FIELD_ELEMENTS_PER_BLOB * n)
  {
    if |blobData| != BLOB_RAW_BYTES * n {
      return None;
    }
    var s: seq<byte> := [];
    for j := 0 to n
      invariant IsPacking(s, blobData[..BLOB_RAW_BYTES * j], FIELD_ELEMENTS_PER_BLOB * j)
    {
      var raw := blobData[j * BLOB_RAW_BYTES..(j + 1) * BLOB_RAW_BYTES];
      BlobElements(blobData, n, j, raw);
      var p := UnpackBlob(raw);
      if p.None? {
        return None;
      }
      PackingConcat(s, blobData[..BLOB_RAW_BYTES * j], FIELD_ELEMENTS_PER_BLOB * j, p.value, raw, FIELD_ELEMENTS_PER_BLOB);
      assert blobData[..BLOB_RAW_BYTES * j] + raw == blobData[..BLOB_RAW_BYTES * (j + 1)];
      s := s + p.value;
    }
    assert blobData[..BLOB_RAW_BYTES * n] == blobData;
    CanonicalIffPacked(blobData, FIELD_ELEMENTS_PER_BLOB * n);
    return Some(s);
  }

  // ---- the fetcher's own decoder --------------------------------------------

  datatype DecodeError = NonCanonicalFieldElement(index: nat, high: byte)

  /** The second implementation of unpacking: it agrees with the first and reports the least bad element. */
  method DecodeFieldElements(blob: seq<byte>) returns (r: Result<seq<byte>, DecodeError>)
    requires |blob| == BLOB_RAW_BYTES
    ensures r.Ok? <==> Canonical(blob, FIELD_ELEMENTS_PER_BLOB)
    ensures r.Ok? ==> IsPacking(r.value, blob, FIELD_ELEMENTS_PER_BLOB)
    ensures r.Err? ==>
      && r.error.index < FIELD_ELEMENTS_PER_BLOB && Canonical(blob, r.error.index)
      && r.error.high == Element(blob, r.error.index)[0] != 0
  {
    var out: seq<byte> := [];
    for i := 0 to FIELD_ELEMENTS_PER_BLOB
      invariant IsPacking(out, blob[..32 * i], i)
      invariant Canonical(blob, i)
    {
      var fe := Element(blob, i);
      if fe[0] != 0 {
        return Err(NonCanonicalFieldElement(i, fe[0]));
      }
      PackingExtends(out, blob[..32 * i], i, fe[1..32]);
      assert blob[..32 * i] + [0] + fe[1..32] == blob[..32 * (i + 1)];
      out := out + fe[1..32];
    }
    assert blob[..32 * FIELD_ELEMENTS_PER_BLOB] == blob;
    return Ok(out);
  }
}
