/** One data-block entry (leveldb/table/block_builder.cc:16-22):
      shared_bytes: varint32 | unshared_bytes: varint32 | value_length: varint32
      | key_delta: char[unshared_bytes] | value: char[value_length]
    EncodeEntry is what BlockBuilder::Add appends; DecodeEntry is the
    bounds-checked header reader the builder uses on its own output. */
module Entry {
  import opened Wrappers
  import opened Coding

  /** The bytes Add appends for a key that shares `shared` bytes with the
      previous key, whose remaining bytes are `delta`. */
  function EncodeEntry(shared: nat, delta: seq<Byte>, value: seq<Byte>): (r: seq<Byte>)
    ensures |r| == HeaderLength(shared, |delta|, |value|) + |delta| + |value|
    ensures r[HeaderLength(shared, |delta|, |value|)..] == delta + value
  {
    Varint32(shared) + Varint32(|delta|) + Varint32(|value|) + delta + value
  }

  /** Number of bytes of the three varint32 length fields. */
  function HeaderLength(shared: nat, nonShared: nat, valueLength: nat): (r: nat)
  {
    |Varint32(shared)| + |Varint32(nonShared)| + |Varint32(valueLength)|
  }

  /** DecodeEntry's out-parameters, with keyStart the position it returns
      (the first byte of the key delta). */
  datatype EntryHeader = EntryHeader(shared: U32, nonShared: U32, valueLength: U32, keyStart: nat)

  /** The three length fields of the entry at p, read without passing
      limit: DecodeEntry up to, not including, its final check. When the
      three first bytes are all below 128 (the source tests
      `(shared | non_shared | value_length) < 128`) each field is one byte;
      otherwise each is read by GetVarint32. */
  function DecodeLengths(data: seq<Byte>, p: nat, limit: nat): (r: Option<EntryHeader>)
    requires limit <= |data|
    ensures r.Some? ==> p + 3 <= r.value.keyStart <= limit
  {
    if limit < p + 3 then None
    else if data[p] < 128 && data[p + 1] < 128 && data[p + 2] < 128 then
      Some(EntryHeader(data[p], data[p + 1], data[p + 2], p + 3))
    else
      match GetVarint32(data, p, limit)
      case None => None
      case Some((shared, q1)) =>
        match GetVarint32(data, q1, limit)
        case None => None
        case Some((nonShared, q2)) =>
          match GetVarint32(data, q2, limit)
          case None => None
          case Some((valueLength, q3)) => Some(EntryHeader(shared, nonShared, valueLength, q3))
  }

  /** DecodeEntry with its final check made exact: it fails unless the key
      delta and the value both end at or before limit. */
  function DecodeEntry(data: seq<Byte>, p: nat, limit: nat): (r: Option<EntryHeader>)
    requires limit <= |data|
    ensures limit < p + 3 ==> r.None?
    ensures r.Some? ==> p + 3 <= r.value.keyStart
    ensures r.Some? ==> r.value.keyStart + r.value.nonShared + r.value.valueLength <= limit
    ensures p + 3 <= limit && data[p] < 128 && data[p + 1] < 128 && data[p + 2] < 128 ==>
      (r.Some? <==> p + 3 + data[p + 1] + data[p + 2] <= limit) &&
      (r.Some? ==> r.value == EntryHeader(data[p], data[p + 1], data[p + 2], p + 3))
  {
    match DecodeLengths(data, p, limit)
    case None => None
    case Some(h) => if limit - h.keyStart < h.nonShared + h.valueLength then None else Some(h)
  }

  /** DecodeEntry as leveldb/table/block_builder.cc:84 writes its final
      check: both sides are uint32_t, so `non_shared + value_length` wraps
      around (and so does `limit - p` on a region of 4 GiB or more). */
  function DecodeEntryAsWritten(data: seq<Byte>, p: nat, limit: nat): (r: Option<EntryHeader>)
    requires limit <= |data|
    ensures limit < p + 3 ==> r.None?
  {
    match DecodeLengths(data, p, limit)
    case None => None
    case Some(h) =>
      if Wrap32(limit - h.keyStart) < Wrap32(h.nonShared + h.valueLength) then None else Some(h)
  }

  /** The wrap-around lets a corrupt header through: non_shared = 2^32 - 1
      and value_length = 1 sum to 0 in uint32_t, so an entry that claims
      2^32 bytes after a header that ends exactly at limit is accepted. */
  lemma DecodeEntryAsWrittenOverruns()
    ensures var data: seq<Byte> := [0, 0xFF, 0xFF, 0xFF, 0xFF, 0x0F, 1];
      && DecodeEntryAsWritten(data, 0, 7) == Some(EntryHeader(0, 0xFFFF_FFFF, 1, 7))
      && DecodeEntry(data, 0, 7) == None
  {
    var data: seq<Byte> := [0, 0xFF, 0xFF, 0xFF, 0xFF, 0x0F, 1];
    assert GetVarint32(data, 0, 7) == Some((0, 1));
    assert VarintGroups(data, 5, 7, 1) == Some((15, 6));
    assert VarintGroups(data, 4, 7, 2) == Some((2047, 6));
    assert VarintGroups(data, 3, 7, 3) == Some((262143, 6));
    assert VarintGroups(data, 2, 7, 4) == Some((33554431, 6));
    assert VarintGroups(data, 1, 7, 5) == Some((0xFFFF_FFFF, 6));
    assert GetVarint32(data, 6, 7) == Some((1, 7));
    assert DecodeLengths(data, 0, 7) == Some(EntryHeader(0, 0xFFFF_FFFF, 1, 7));
  }

  /** The two readers differ only on headers whose lengths overflow: on a
      region below 4 GiB, whenever the exact check accepts, the source's
      check accepts the same entry, and whenever the source's check accepts
      lengths whose sum fits in 32 bits, the exact check accepts too. */
  lemma DecodeEntryAgreement(data: seq<Byte>, p: nat, limit: nat)
    requires limit <= |data| && limit < TWO32
    ensures DecodeEntry(data, p, limit).Some? ==>
      DecodeEntryAsWritten(data, p, limit) == DecodeEntry(data, p, limit)
    ensures var w := DecodeEntryAsWritten(data, p, limit);
      w.Some? && w.value.nonShared + w.value.valueLength < TWO32 ==> DecodeEntry(data, p, limit) == w
  {
  }

  /** Slicing a window that holds e. */
  lemma SliceOfWindow(data: seq<Byte>, p: nat, e: seq<Byte>, i: nat, j: nat)
    requires p + |e| <= |data| && data[p..p + |e|] == e && i <= j <= |e|
    ensures data[p + i..p + j] == e[i..j]
  {
    forall k | 0 <= k < j - i
      ensures data[p + i..p + j][k] == e[i..j][k]
    {
      assert data[p..p + |e|][i + k] == data[p + i + k];
    }
  }

  /** Where each of five consecutive parts lies once they are written at
      p: part k occupies data[q(k-1)..qk]. */
  lemma WindowParts(data: seq<Byte>, p: nat, q1: nat, q2: nat, q3: nat, q4: nat, q5: nat,
                    a: seq<Byte>, b: seq<Byte>, c: seq<Byte>, d: seq<Byte>, f: seq<Byte>)
    requires q1 == p + |a| && q2 == q1 + |b| && q3 == q2 + |c| && q4 == q3 + |d| && q5 == q4 + |f|
    requires q5 <= |data| && data[p..q5] == a + b + c + d + f
    ensures data[p..q1] == a && data[q1..q2] == b && data[q2..q3] == c
    ensures data[q3..q4] == d && data[q4..q5] == f
  {
    var e := a + b + c + d + f;
    var la, lb, lc, ld := |a|, |b|, |c|, |d|;
    SliceOfWindow(data, p, e, 0, la);
    assert e[0..la] == a;
    SliceOfWindow(data, p, e, la, la + lb);
    assert e[la..la + lb] == b;
    SliceOfWindow(data, p, e, la + lb, la + lb + lc);
    assert e[la + lb..la + lb + lc] == c;
    SliceOfWindow(data, p, e, la + lb + lc, la + lb + lc + ld);
    assert e[la + lb + lc..la + lb + lc + ld] == d;
    SliceOfWindow(data, p, e, la + lb + lc + ld, |e|);
    assert e[la + lb + lc + ld..] == f;
  }

  /** A window that holds e still holds it after more bytes are appended. */
  lemma WindowInPrefix(data: seq<Byte>, tail: seq<Byte>, p: nat, e: seq<Byte>)
    requires p + |e| <= |data| && data[p..p + |e|] == e
    ensures (data + tail)[p..p + |e|] == e
  {
    assert (data + tail)[p..p + |e|] == data[p..p + |e|];
  }

  /** DecodeLengths in terms of three successive GetVarint32 reads: on
      bytes below 128 the fast path reads what GetVarint32 would. */
  lemma DecodeLengthsByVarints(data: seq<Byte>, p: nat, limit: nat, s: U32, n: U32, v: U32, q1: nat, q2: nat, q3: nat)
    requires limit <= |data| && p + 3 <= limit
    requires GetVarint32(data, p, limit) == Some((s, q1))
    requires GetVarint32(data, q1, limit) == Some((n, q2))
    requires GetVarint32(data, q2, limit) == Some((v, q3))
    ensures DecodeLengths(data, p, limit) == Some(EntryHeader(s, n, v, q3))
  {
  }

  /** A varint32 of v written at data[p..q] is read back by GetVarint32. */
  lemma GetVarint32At(data: seq<Byte>, p: nat, q: nat, limit: nat, v: U32)
    requires q == p + |Varint32(v)| && q <= limit <= |data| && data[p..q] == Varint32(v)
    ensures GetVarint32(data, p, limit) == Some((v, q))
  {
    GetVarint32Encoded(data, p, limit, v);
  }

  /** Decoding the three length fields Add wrote at data[p..q3] returns them. */
  lemma DecodeEncodedLengths(data: seq<Byte>, p: nat, q1: nat, q2: nat, q3: nat, limit: nat,
                             shared: U32, nonShared: U32, valueLength: U32)
    requires q1 == p + |Varint32(shared)| && q2 == q1 + |Varint32(nonShared)| && q3 == q2 + |Varint32(valueLength)|
    requires q3 <= limit <= |data|
    requires data[p..q1] == Varint32(shared) && data[q1..q2] == Varint32(nonShared) && data[q2..q3] == Varint32(valueLength)
    ensures DecodeLengths(data, p, limit) == Some(EntryHeader(shared, nonShared, valueLength, q3))
  {
    GetVarint32At(data, p, q1, limit, shared);
    GetVarint32At(data, q1, q2, limit, nonShared);
    GetVarint32At(data, q2, q3, limit, valueLength);
    DecodeLengthsByVarints(data, p, limit, shared, nonShared, valueLength, q1, q2, q3);
  }

  /** DecodeEntry accepts a header whose key delta and value fit. */
  lemma DecodeEntryFits(data: seq<Byte>, p: nat, limit: nat, h: EntryHeader)
    requires limit <= |data| && DecodeLengths(data, p, limit) == Some(h)
    requires h.keyStart + h.nonShared + h.valueLength <= limit
    ensures DecodeEntry(data, p, limit) == Some(h)
  {
  }

  /** Decoding an entry that Add wrote returns the three lengths it wrote,
      and the key delta and value follow the header. */
  lemma DecodeEncodedEntry(data: seq<Byte>, p: nat, limit: nat, shared: U32, delta: seq<Byte>, value: seq<Byte>)
      returns (h: EntryHeader)
    requires |delta| < TWO32 && |value| < TWO32
    requires p + |EncodeEntry(shared, delta, value)| <= limit <= |data|
    requires data[p..p + |EncodeEntry(shared, delta, value)|] == EncodeEntry(shared, delta, value)
    ensures DecodeEntry(data, p, limit) == Some(h)
    ensures h == EntryHeader(shared, |delta|, |value|, p + HeaderLength(shared, |delta|, |value|))
    ensures data[h.keyStart..h.keyStart + h.nonShared] == delta
    ensures data[h.keyStart + h.nonShared..h.keyStart + h.nonShared + h.valueLength] == value
  {
    var a, b, c := Varint32(shared), Varint32(|delta|), Varint32(|value|);
    var q1, q2, ks := p + |a|, p + |a| + |b|, p + HeaderLength(shared, |delta|, |value|);
    WindowParts(data, p, q1, q2, ks, ks + |delta|, ks + |delta| + |value|, a, b, c, delta, value);
    h := EntryHeader(shared, |delta|, |value|, ks);
    DecodeWrittenParts(data, p, limit, q1, q2, h, delta, value);
  }

  /** The same, from where the five fields lie. */
  lemma DecodeWrittenParts(data: seq<Byte>, p: nat, limit: nat, q1: nat, q2: nat, h: EntryHeader, delta: seq<Byte>, value: seq<Byte>)
    requires h.nonShared == |delta| && h.valueLength == |value|
    requires q1 == p + |Varint32(h.shared)| && q2 == q1 + |Varint32(h.nonShared)| && h.keyStart == q2 + |Varint32(h.valueLength)|
    requires h.keyStart + |delta| + |value| <= limit <= |data|
    requires data[p..q1] == Varint32(h.shared) && data[q1..q2] == Varint32(h.nonShared) && data[q2..h.keyStart] == Varint32(h.valueLength)
    requires data[h.keyStart..h.keyStart + |delta|] == delta
    requires data[h.keyStart + |delta|..h.keyStart + |delta| + |value|] == value
    ensures DecodeEntry(data, p, limit) == Some(h)
    ensures data[h.keyStart..h.keyStart + h.nonShared] == delta
    ensures data[h.keyStart + h.nonShared..h.keyStart + h.nonShared + h.valueLength] == value
  {
    DecodeEncodedLengths(data, p, q1, q2, h.keyStart, limit, h.shared, h.nonShared, h.valueLength);
    DecodeEntryFits(data, p, limit, h);
  }
}
