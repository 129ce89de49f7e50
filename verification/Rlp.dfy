/**
  Canonical RLP (Yellow Paper, Appendix B) of lists of byte strings, as section 4
  of the encoding specification frames the entries. Lengths are 64-bit.
*/
module Rlp {
  import opened Prelude
  import opened Bytes

  const STRING_BASE := 0x80
  const LIST_BASE := 0xC0

  // ---- the encoder of the Yellow Paper --------------------------------------

  predicate IsLength(n: nat) {
    n < U64_LIMIT
  }

  // A short length is added to the base; a long one follows in minimal big-endian form.
  function Prefix(base: nat, n: nat): (r: seq<byte>)
    requires base in {STRING_BASE, LIST_BASE} && IsLength(n)
    ensures |r| >= 1 && r[0] >= base && (base == STRING_BASE ==> r[0] < LIST_BASE)
  {
    if n < 56 then [base + n]
    else
      Limits();
      MinimalLength(n, 8);
      [base + 55 + |MinimalBigEndian(n)|] + MinimalBigEndian(n)
  }

  predicate SelfEncoded(e: seq<byte>) {
    |e| == 1 && e[0] < 0x80
  }

  function EncodeString(e: seq<byte>): seq<byte>
    requires IsLength(|e|)
  {
    if SelfEncoded(e) then e else Prefix(STRING_BASE, |e|) + e
  }

  predicate StringLengths(es: seq<seq<byte>>) {
    forall i :: 0 <= i < |es| ==> IsLength(|es[i]|)
  }

  function EncodeItems(es: seq<seq<byte>>): seq<byte>
    requires StringLengths(es)
  {
    if es == [] then [] else EncodeString(es[0]) + EncodeItems(es[1..])
  }

  // The list and all its items have 64-bit lengths, as every list in memory has.
  predicate Fits(es: seq<seq<byte>>) {
    StringLengths(es) && IsLength(|EncodeItems(es)|)
  }

  function EncodeList(es: seq<seq<byte>>): seq<byte>
    requires Fits(es)
  {
    Prefix(LIST_BASE, |EncodeItems(es)|) + EncodeItems(es)
  }

  // Section 4.1: empty entries are forbidden, the empty list is not.
  predicate NonEmpty(es: seq<seq<byte>>) {
    forall i :: 0 <= i < |es| ==> es[i] != []
  }

  // ---- the header decoder ---------------------------------------------------

  datatype Header = Header(list: bool, payloadLength: nat, rest: seq<byte>)

  function Checked(h: Header): Option<Header> {
    if |h.rest| < h.payloadLength then None else Some(h)
  }

  // A header whose length stands in the next `lengthOfLength` bytes.
  function LongHeader(buf: seq<byte>, list: bool, lengthOfLength: nat): (r: Option<Header>)
    requires buf != [] && lengthOfLength >= 1
    ensures r.Some? ==> r.value.payloadLength <= |r.value.rest| < |buf|
  {
    if |buf| < 1 + lengthOfLength then None else
    var digits := buf[1..1 + lengthOfLength];
    var n := FromBigEndian(digits);
    if digits[0] == 0 || n < 56 then None else Checked(Header(list, n, buf[1 + lengthOfLength..]))
  }

  // Reads one item header and leaves the payload in `rest`; rejects every
  // non-minimal form and every truncated payload.
  function DecodeHeader(buf: seq<byte>): (r: Option<Header>)
    ensures r.Some? ==> r.value.payloadLength <= |r.value.rest| <= |buf|
    ensures r.Some? ==> buf != [] && (buf[0] >= 0x80 ==> |r.value.rest| < |buf|)
  {
    if buf == [] then None else
    var b := buf[0];
    if b < 0x80 then Some(Header(false, 1, buf))
    else if b <= 0xB7 then
      var n := b - STRING_BASE;
      if n == 1 && (|buf| < 2 || buf[1] < 0x80) then None
      else Checked(Header(false, n, buf[1..]))
    else if b < LIST_BASE then LongHeader(buf, false, b - 0xB7)
    else if b >= 0xF8 then LongHeader(buf, true, b - 0xF7)
    else Checked(Header(true, b - LIST_BASE, buf[1..]))
  }

  // One byte string and what follows it.
  function DecodeString(buf: seq<byte>): (r: Option<(seq<byte>, seq<byte>)>)
    ensures r.Some? ==> |r.value.1| < |buf|
  {
    var h := DecodeHeader(buf);
    if h.None? || h.value.list then None
    else
      var n := h.value.payloadLength;
      Some((h.value.rest[..n], h.value.rest[n..]))
  }

  // ---- headers: encoder and decoder are inverse -----------------------------

  lemma LongHeaderOfPrefix(list: bool, first: byte, n: nat, rest: seq<byte>)
    requires IsLength(n) && n >= 56 && |rest| >= n
    ensures var digits := MinimalBigEndian(n);
      1 <= |digits| <= 8 && LongHeader([first] + digits + rest, list, |digits|) == Some(Header(list, n, rest))
  {
    var digits := MinimalBigEndian(n);
    var buf := [first] + digits + rest;
    MinimalValue(n);
    Limits();
    MinimalLength(n, 8);
    assert buf[1..1 + |digits|] == digits && buf[1 + |digits|..] == rest;
  }

  lemma HeaderOfPrefix(base: nat, n: nat, rest: seq<byte>)
    requires base in {STRING_BASE, LIST_BASE} && IsLength(n) && |rest| >= n
    requires base == STRING_BASE && n == 1 ==> rest[0] >= 0x80
    ensures DecodeHeader(Prefix(base, n) + rest) == Some(Header(base == LIST_BASE, n, rest))
  {
    if n >= 56 {
      LongHeaderOfPrefix(base == LIST_BASE, Prefix(base, n)[0], n, rest);
      assert Prefix(base, n) == [Prefix(base, n)[0]] + MinimalBigEndian(n);
    } else {
      var buf := Prefix(base, n) + rest;
      assert buf[1..] == rest;
    }
  }

  // At most eight digits without a leading zero are the minimal form of a 64-bit length.
  lemma LongPrefix(base: nat, digits: seq<byte>)
    requires base in {STRING_BASE, LIST_BASE} && 1 <= |digits| <= 8 && digits[0] != 0
    ensures var n := FromBigEndian(digits);
      IsLength(n) && (n >= 56 ==> Prefix(base, n) == [base + 55 + |digits|] + digits)
  {
    FromBigEndianBound(digits);
    Pow256Monotone(|digits|, 8);
    Limits();
    MinimalNumeral(digits);
  }

  lemma LongPrefixOfHeader(buf: seq<byte>, list: bool, k: nat, base: nat)
    requires buf != [] && 1 <= k <= 8 && base in {STRING_BASE, LIST_BASE} && buf[0] == base + 55 + k
    requires LongHeader(buf, list, k).Some?
    ensures var h := LongHeader(buf, list, k).value;
      IsLength(h.payloadLength) && buf == Prefix(base, h.payloadLength) + h.rest
  {
    var digits := buf[1..1 + k];
    LongPrefix(base, digits);
    assert buf == [buf[0]] + digits + buf[1 + k..];
  }

  lemma PrefixOfHeader(buf: seq<byte>)
    requires DecodeHeader(buf).Some? && buf[0] >= 0x80
    ensures var h := DecodeHeader(buf).value;
      IsLength(h.payloadLength)
      && buf == Prefix(if h.list then LIST_BASE else STRING_BASE, h.payloadLength) + h.rest
  {
    if 0xB8 <= buf[0] < LIST_BASE {
      LongPrefixOfHeader(buf, false, buf[0] - 0xB7, STRING_BASE);
    } else if buf[0] >= 0xF8 {
      LongPrefixOfHeader(buf, true, buf[0] - 0xF7, LIST_BASE);
    } else {
      assert buf == [buf[0]] + buf[1..];
    }
  }

  lemma Regroup(p: seq<byte>, e: seq<byte>, rest: seq<byte>, both: seq<byte>)
    requires |e| <= |both| && both[..|e|] == e && both[|e|..] == rest
    ensures p + both == p + e + rest
  {
    assert both == e + rest;
  }

  // A one-byte string below 0x80 behind a prefix is rejected.
  lemma NotSelfEncoded(buf: seq<byte>, e: seq<byte>)
    requires DecodeHeader(buf).Some? && buf[0] >= 0x80 && !DecodeHeader(buf).value.list
    requires var h := DecodeHeader(buf).value; e == h.rest[..h.payloadLength]
    ensures !SelfEncoded(e)
  {
    var h := DecodeHeader(buf).value;
    if |e| == 1 {
      PrefixOfHeader(buf);
      assert Prefix(STRING_BASE, 1) == [0x81];
      assert buf[1..] == h.rest;
    }
  }

  lemma StringIsCanonical(buf: seq<byte>, e: seq<byte>, rest: seq<byte>)
    requires DecodeString(buf) == Some((e, rest))
    ensures IsLength(|e|) && buf == EncodeString(e) + rest
  {
    var h := DecodeHeader(buf).value;
    if buf[0] < 0x80 {
      assert e == [buf[0]] && buf == e + rest;
    } else {
      PrefixOfHeader(buf);
      NotSelfEncoded(buf, e);
      Regroup(Prefix(STRING_BASE, |e|), e, rest, h.rest);
    }
  }

  lemma StringDecodes(e: seq<byte>, rest: seq<byte>)
    requires IsLength(|e|)
    ensures DecodeString(EncodeString(e) + rest) == Some((e, rest))
  {
    var buf := EncodeString(e) + rest;
    if SelfEncoded(e) {
      assert buf[0] == e[0];
      assert buf[..1] == e && buf[1..] == rest;
    } else {
      assert buf == Prefix(STRING_BASE, |e|) + (e + rest);
      HeaderOfPrefix(STRING_BASE, |e|, e + rest);
      assert (e + rest)[..|e|] == e && (e + rest)[|e|..] == rest;
    }
  }

  /** A byte string decodes to `e` exactly from its own canonical encoding. */
  lemma StringIff(buf: seq<byte>, e: seq<byte>, rest: seq<byte>)
    ensures DecodeString(buf) == Some((e, rest)) <==> IsLength(|e|) && buf == EncodeString(e) + rest
  {
    if DecodeString(buf) == Some((e, rest)) {
      StringIsCanonical(buf, e, rest);
    }
    if IsLength(|e|) && buf == EncodeString(e) + rest {
      StringDecodes(e, rest);
    }
  }

  // ---- the form of the encoding, as Appendix B of the Yellow Paper states it --

  // The digits of a length: one to eight, without a leading zero.
  ghost predicate IsLengthOf(digits: seq<byte>, n: nat) {
    1 <= |digits| <= 8 && digits[0] != 0 && FromBigEndian(digits) == n
  }

  lemma LengthDigits(n: nat)
    requires n > 0 && IsLength(n)
    ensures IsLengthOf(MinimalBigEndian(n), n)
  {
    Limits();
    MinimalLength(n, 8);
    MinimalValue(n);
  }

  /**
    A byte string: itself if it is one byte below 0x80, behind 0x80 plus its
    length if it is shorter than 56, else behind 0xB7 plus the number of length digits and the digits.
  */
  lemma StringForm(e: seq<byte>)
    requires IsLength(|e|)
    ensures |e| == 1 && e[0] < 0x80 ==> EncodeString(e) == e
    ensures !(|e| == 1 && e[0] < 0x80) && |e| < 56 ==> EncodeString(e) == [0x80 + |e|] + e
    ensures |e| >= 56 ==>
      exists digits :: IsLengthOf(digits, |e|) && EncodeString(e) == [0xB7 + |digits|] + digits + e
  {
    if |e| >= 56 {
      LengthDigits(|e|);
    }
  }

  /** A list: its encoded items behind 0xC0 plus their length if that is below 56, else behind 0xF7 and length digits. */
  lemma ListForm(es: seq<seq<byte>>)
    requires Fits(es)
    ensures var items := EncodeItems(es);
      && (|items| < 56 ==> EncodeList(es) == [0xC0 + |items|] + items)
      && (|items| >= 56 ==>
            exists digits :: IsLengthOf(digits, |items|) && EncodeList(es) == [0xF7 + |digits|] + digits + items)
  {
    if |EncodeItems(es)| >= 56 {
      LengthDigits(|EncodeItems(es)|);
    }
  }

  // ---- the list body --------------------------------------------------------

  ghost function DecodeItems(payload: seq<byte>): Option<seq<seq<byte>>>
    decreases |payload|
  {
    if payload == [] then Some([]) else
    match DecodeString(payload)
    case None => None
    case Some((e, rest)) =>
      match DecodeItems(rest)
      case None => None
      case Some(es) => Some([e] + es)
  }

  lemma EncodeStringNonEmpty(e: seq<byte>)
    requires IsLength(|e|)
    ensures |EncodeString(e)| >= 1 && |EncodeString(e)| >= |e|
  {
  }

  lemma {:induction false} ItemsIff(payload: seq<byte>, es: seq<seq<byte>>)
    ensures DecodeItems(payload) == Some(es) <==> StringLengths(es) && payload == EncodeItems(es)
    decreases |payload|
  {
    if payload == [] {
      if es != [] && StringLengths(es) {
        EncodeStringNonEmpty(es[0]);
      }
    } else if es != [] {
      var tail := es[1..];
      assert es == [es[0]] + tail;
      assert StringLengths(es) <==> IsLength(|es[0]|) && StringLengths(tail);
      var d := DecodeString(payload);
      if d.Some? {
        StringIff(payload, d.value.0, d.value.1);
        ItemsIff(d.value.1, tail);
      }
      if StringLengths(es) && payload == EncodeItems(es) {
        StringIff(payload, es[0], EncodeItems(tail));
      }
    }
  }

  // ---- the whole stream -----------------------------------------------------

  // What the decoder returns for a stream; `None` is a panic.
  ghost function EntriesOf(s: seq<byte>): Option<seq<seq<byte>>> {
    var h := DecodeHeader(s);
    if h.None? || !h.value.list then None else
    var es := DecodeItems(h.value.rest[..h.value.payloadLength]);
    if es.None? || !NonEmpty(es.value) then None else es
  }

  lemma PrefixBeforePrefix(a: seq<byte>, b: seq<byte>, c: seq<byte>)
    requires b <= c
    ensures a + b <= a + c
  {
    assert (a + c)[..|a + b|] == a + b;
  }

  lemma ReadIsPrefix(s: seq<byte>, es: seq<seq<byte>>)
    requires EntriesOf(s) == Some(es)
    ensures NonEmpty(es) && Fits(es) && EncodeList(es) <= s
  {
    var h := DecodeHeader(s).value;
    ItemsIff(h.rest[..h.payloadLength], es);
    PrefixOfHeader(s);
    PrefixBeforePrefix(Prefix(LIST_BASE, h.payloadLength), EncodeItems(es), h.rest);
  }

  /** Any padding may follow a list; it reads back unless it holds an empty entry, and then nothing is accepted. */
  lemma RoundTrip(es: seq<seq<byte>>, padding: seq<byte>)
    requires Fits(es)
    ensures EntriesOf(EncodeList(es) + padding) == if NonEmpty(es) then Some(es) else None
  {
    var items := EncodeItems(es);
    assert EncodeList(es) + padding == Prefix(LIST_BASE, |items|) + (items + padding);
    HeaderOfPrefix(LIST_BASE, |items|, items + padding);
    ItemsIff(items, es);
    assert (items + padding)[..|items|] == items;
  }

  /**
    The decoder succeeds with `es` exactly when `es` has no empty entry and its
    canonical encoding is a prefix of the stream. Everything else is rejected.
  */
  lemma EntriesIff(s: seq<byte>, es: seq<seq<byte>>)
    ensures EntriesOf(s) == Some(es) <==> NonEmpty(es) && Fits(es) && EncodeList(es) <= s
  {
    if EntriesOf(s) == Some(es) {
      ReadIsPrefix(s, es);
    }
    if NonEmpty(es) && Fits(es) && EncodeList(es) <= s {
      assert s == EncodeList(es) + s[|EncodeList(es)|..];
      RoundTrip(es, s[|EncodeList(es)|..]);
    }
  }

  /** No byte stream has two readings: the encodings are prefix-free. */
  lemma ReadingUnique(s: seq<byte>, es1: seq<seq<byte>>, es2: seq<seq<byte>>)
    requires NonEmpty(es1) && Fits(es1) && EncodeList(es1) <= s
    requires NonEmpty(es2) && Fits(es2) && EncodeList(es2) <= s
    ensures es1 == es2
  {
    EntriesIff(s, es1);
    EntriesIff(s, es2);
  }

  lemma EntriesIffAll(s: seq<byte>)
    ensures forall es :: EntriesOf(s) == Some(es) <==> NonEmpty(es) && Fits(es) && EncodeList(es) <= s
  {
    forall es ensures EntriesOf(s) == Some(es) <==> NonEmpty(es) && Fits(es) && EncodeList(es) <= s {
      EntriesIff(s, es);
    }
  }

  // The final loop, which panics on an empty entry.
  method CheckNonEmpty(entries: seq<seq<byte>>) returns (good: bool)
    ensures good <==> NonEmpty(entries)
  {
    for i := 0 to |entries|
      invariant NonEmpty(entries[..i])
    {
      if entries[i] == [] {
        return false;
      }
    }
    assert entries[..|entries|] == entries;
    return true;
  }

  ghost function Prepend(es: seq<seq<byte>>, r: Option<seq<seq<byte>>>): Option<seq<seq<byte>>> {
    if r.None? then None else Some(es + r.value)
  }

  lemma PrependNothing(r: Option<seq<seq<byte>>>)
    ensures Prepend([], r) == r
  {
    if r.Some? {
      assert [] + r.value == r.value;
    }
  }

  lemma PrependStep(es: seq<seq<byte>>, e: seq<byte>, r: Option<seq<seq<byte>>>)
    ensures Prepend(es, if r.None? then None else Some([e] + r.value)) == Prepend(es + [e], r)
  {
    if r.Some? {
      assert es + ([e] + r.value) == es + [e] + r.value;
    }
  }

  // The loop over the list body: byte strings until the payload is used up.
  method DecodeBody(body: seq<byte>) returns (r: Option<seq<seq<byte>>>)
    ensures r == DecodeItems(body)
  {
    var payload := body;
    var entries: seq<seq<byte>> := [];
    PrependNothing(DecodeItems(body));
    while payload != []
      invariant DecodeItems(body) == Prepend(entries, DecodeItems(payload))
      decreases |payload|
    {
      var item := DecodeString(payload);
      if item.None? {
        return None;
      }
      PrependStep(entries, item.value.0, DecodeItems(item.value.1));
      entries := entries + [item.value.0];
      payload := item.value.1;
    }
    assert entries + [] == entries;
    return Some(entries);
  }

  method DecodeEntries(s: seq<byte>) returns (r: Option<seq<seq<byte>>>)
    ensures r == EntriesOf(s)
    ensures forall es :: r == Some(es) <==> NonEmpty(es) && Fits(es) && EncodeList(es) <= s
  {
    var h := DecodeHeader(s);
    if h.None? || !h.value.list {
      r := None;
    } else {
      r := DecodeBody(h.value.rest[..h.value.payloadLength]);
      if r.Some? {
        var good := CheckNonEmpty(r.value);
        r := if good then r else None;
      }
    }
    EntriesIffAll(s);
  }

  // ---- the encoder of the source --------------------------------------------

  // Encoded length of one byte string, computed before anything is written.
  function EncodedLength(e: seq<byte>): nat {
    if SelfEncoded(e) then 1
    else if |e| < 56 then 1 + |e|
    else 1 + |MinimalBigEndian(|e|)| + |e|
  }

  function ItemsLength(es: seq<seq<byte>>): nat {
    if es == [] then 0 else EncodedLength(es[0]) + ItemsLength(es[1..])
  }

  lemma {:induction false} ItemsLengthIs(es: seq<seq<byte>>)
    requires StringLengths(es)
    ensures |EncodeItems(es)| == ItemsLength(es)
  {
    if es != [] {
      ItemsLengthIs(es[1..]);
    }
  }

  lemma EncodeItemsCons(e: seq<byte>, rest: seq<seq<byte>>)
    requires IsLength(|e|) && StringLengths(rest)
    ensures StringLengths([e] + rest) && EncodeItems([e] + rest) == EncodeString(e) + EncodeItems(rest)
  {
    assert ([e] + rest)[1..] == rest;
  }

  lemma ConcatAssociates(a: seq<byte>, b: seq<byte>, c: seq<byte>)
    ensures a + (b + c) == a + b + c
  {
  }

  lemma {:induction false} EncodeItemsAppend(es: seq<seq<byte>>, e: seq<byte>)
    requires StringLengths(es) && IsLength(|e|)
    ensures StringLengths(es + [e]) && EncodeItems(es + [e]) == EncodeItems(es) + EncodeString(e)
    decreases |es|
  {
    if es == [] {
      EncodeItemsCons(e, []);
      assert es + [e] == [e] + [];
    } else {
      var x, rest := es[0], es[1..];
      EncodeItemsAppend(rest, e);
      EncodeItemsCons(x, rest + [e]);
      assert es + [e] == [x] + (rest + [e]);
      ConcatAssociates(EncodeString(x), EncodeItems(rest), EncodeString(e));
    }
  }

  lemma EncodeNextItem(es: seq<seq<byte>>, i: nat)
    requires StringLengths(es) && i < |es|
    ensures EncodeItems(es[..i + 1]) == EncodeItems(es[..i]) + EncodeString(es[i])
  {
    EncodeItemsAppend(es[..i], es[i]);
    assert es[..i + 1] == es[..i] + [es[i]];
  }

  method EncodeEntries(entries: seq<seq<byte>>) returns (buf: seq<byte>)
    requires Fits(entries)
    ensures buf == EncodeList(entries)
  {
    var payloadLength := ItemsLength(entries);
    ItemsLengthIs(entries);
    buf := Prefix(LIST_BASE, payloadLength);
    ghost var header := buf;
    assert header + EncodeItems([]) == header;
    for i := 0 to |entries|
      invariant buf == header + EncodeItems(entries[..i])
    {
      EncodeNextItem(entries, i);
      ConcatAssociates(header, EncodeItems(entries[..i]), EncodeString(entries[i]));
      buf := buf + EncodeString(entries[i]);
    }
    assert entries[..|entries|] == entries;
  }

  // ---- length of the encoding -----------------------------------------------

  lemma PrefixMonotone(a: nat, b: nat)
    requires a <= b && IsLength(b)
    ensures IsLength(a) && |Prefix(LIST_BASE, a)| <= |Prefix(LIST_BASE, b)|
  {
    if a >= 56 {
      MinimalLengthMonotone(a, b);
    }
  }

  /** Adding an entry makes the encoding strictly longer, also where the list prefix changes form. */
  lemma LengthStrictlyGrows(es: seq<seq<byte>>, e: seq<byte>)
    requires Fits(es + [e])
    ensures Fits(es) && |EncodeList(es)| < |EncodeList(es + [e])|
  {
    assert (es + [e])[|es|] == e;
    assert forall i :: 0 <= i < |es| ==> (es + [e])[i] == es[i];
    EncodeItemsAppend(es, e);
    EncodeStringNonEmpty(e);
    PrefixMonotone(|EncodeItems(es)|, |EncodeItems(es + [e])|);
  }

  lemma {:induction false} ItemNotLonger(es: seq<seq<byte>>, i: nat)
    requires StringLengths(es) && i < |es|
    ensures |EncodeString(es[i])| <= |EncodeItems(es)|
    decreases |es|
  {
    if i > 0 {
      ItemNotLonger(es[1..], i - 1);
    }
  }

  /** A list is at least as long as the list of any one of its entries. */
  lemma EntryAlone(es: seq<seq<byte>>, i: nat)
    requires Fits(es) && i < |es|
    ensures Fits([es[i]]) && |EncodeList([es[i]])| <= |EncodeList(es)|
  {
    ItemNotLonger(es, i);
    EncodeItemsCons(es[i], []);
    assert [es[i]] == [es[i]] + [] && EncodeItems([]) == [];
    PrefixMonotone(|EncodeItems([es[i]])|, |EncodeItems(es)|);
  }
}
