/** The byte-level encoding primitives that the block builder takes from
    LevelDB's util/coding.h: fixed-width little-endian 32-bit words and
    varint32 (seven bits per byte, low group first, high bit set on every
    byte but the last). util/coding.h is not part of this model; these are
    self-written specifications of what the builder relies on. */
module Coding {
  import opened Wrappers

  type Byte = b: int | 0 <= b < 256

  const TWO32: int := 0x1_0000_0000

  type U32 = x: int | 0 <= x < 0x1_0000_0000

  /** Conversion of any integer to uint32_t: two's complement wrap-around. */
  function Wrap32(x: int): (r: U32)
    ensures 0 <= x < TWO32 ==> r == x
    ensures -TWO32 <= x < 0 ==> r == x + TWO32
    ensures (r - x) % TWO32 == 0
  {
    x % TWO32
  }

  /** PutFixed32: four bytes, least significant first, of the value
      converted to uint32_t. */
  function Fixed32(x: int): (r: seq<Byte>)
    ensures |r| == 4
    ensures DecodeFixed32(r, 0) == Wrap32(x)
  {
    var w := Wrap32(x);
    var r := [w % 256, (w / 256) % 256, (w / 0x1_0000) % 256, w / 0x100_0000];
    Fixed32Digits(w);
    r
  }

  lemma Fixed32Digits(w: U32)
    ensures w == w % 256 + 256 * ((w / 256) % 256) + 0x1_0000 * ((w / 0x1_0000) % 256) + 0x100_0000 * (w / 0x100_0000)
  {
    var a, b, c := w / 256, w / 0x1_0000, w / 0x100_0000;
    assert w == 256 * a + w % 256;
    assert a == 256 * (a / 256) + a % 256;
    assert a / 256 == b;
    assert b == 256 * (b / 256) + b % 256;
    assert b / 256 == c;
  }

  /** DecodeFixed32 on the four bytes starting at index i: each byte is one
      base-256 digit of the word, least significant first. */
  function DecodeFixed32(s: seq<Byte>, i: nat): (r: U32)
    requires i + 4 <= |s|
    ensures r % 256 == s[i] && (r / 256) % 256 == s[i + 1]
    ensures (r / 0x1_0000) % 256 == s[i + 2] && r / 0x100_0000 == s[i + 3]
  {
    var b0, b1, b2, b3: int := s[i], s[i + 1], s[i + 2], s[i + 3];
    Fixed32Bytes(b0, b1, b2, b3);
    b0 + 256 * b1 + 0x1_0000 * b2 + 0x100_0000 * b3
  }

  /** The digits of a little-endian word are its bytes. */
  lemma Fixed32Bytes(b0: Byte, b1: Byte, b2: Byte, b3: Byte)
    ensures var w := b0 + 256 * b1 + 0x1_0000 * b2 + 0x100_0000 * b3;
      && w % 256 == b0 && (w / 256) % 256 == b1
      && (w / 0x1_0000) % 256 == b2 && w / 0x100_0000 == b3
  {
    var w := b0 + 256 * b1 + 0x1_0000 * b2 + 0x100_0000 * b3;
    var m1 := b1 + 256 * b2 + 0x1_0000 * b3;
    var m2 := b2 + 256 * b3;
    assert w == b0 + 256 * m1;
    assert w / 256 == m1;
    assert m1 == b1 + 256 * m2;
    assert m1 / 256 == m2 && w / 0x1_0000 == m2;
    assert w / 0x100_0000 == b3;
  }

  lemma DecodeFixed32At(s: seq<Byte>, i: nat, x: int)
    requires i + 4 <= |s| && s[i..i + 4] == Fixed32(x)
    ensures DecodeFixed32(s, i) == Wrap32(x)
  {
    var f := Fixed32(x);
    assert s[i..i + 4][0] == s[i] && s[i..i + 4][1] == s[i + 1];
    assert s[i..i + 4][2] == s[i + 2] && s[i..i + 4][3] == s[i + 3];
  }

  /** A fixed32 word inside a prefix reads the same after appending. */
  lemma DecodeFixed32Prefix(a: seq<Byte>, b: seq<Byte>, i: nat)
    requires i + 4 <= |a|
    ensures DecodeFixed32(a + b, i) == DecodeFixed32(a, i)
  {
  }

  /** A fixed32 word inside a suffix reads the same after prepending. */
  lemma DecodeFixed32Suffix(a: seq<Byte>, b: seq<Byte>, i: nat)
    requires i + 4 <= |b|
    ensures DecodeFixed32(a + b, |a| + i) == DecodeFixed32(b, i)
  {
  }

  /** A fixed32 word inside a window reads the same as in the whole. */
  lemma DecodeFixed32Window(s: seq<Byte>, p: nat, q: nat, k: nat)
    requires p <= q <= |s| && k + 4 <= q - p
    ensures DecodeFixed32(s, p + k) == DecodeFixed32(s[p..q], k)
  {
  }

  /** PutVarint32: seven bits per byte, low group first; every byte but the
      last has its high bit set. */
  function Varint32(v: nat): (r: seq<Byte>)
    ensures 1 <= |r|
    ensures (r[0] < 128) == (v < 128)
    ensures v < 128 ==> r == [v]
    decreases v
  {
    if v < 128 then [v] else [v % 128 + 128] + Varint32(v / 128)
  }

  lemma {:induction false} Varint32Length(v: nat, groups: nat)
    requires 1 <= groups && v < Power128(groups)
    ensures |Varint32(v)| <= groups
    decreases groups
  {
    if v >= 128 {
      Varint32Length(v / 128, groups - 1);
    }
  }

  /** 128^k: the first value that needs more than k groups. */
  function Power128(k: nat): (w: nat)
    ensures w >= 1
  {
    if k == 0 then 1 else 128 * Power128(k - 1)
  }

  /** GetVarint32Ptr: decode a varint32 from data[p..limit]. At most five
      bytes are read (shift <= 28); the bits of the fifth group beyond bit 31
      are dropped, as the source's uint32_t shift drops them. None when the
      input ends first or the fifth byte still has its high bit set. On
      success, the value and the position just after it. */
  function GetVarint32(data: seq<Byte>, p: nat, limit: nat): (r: Option<(U32, nat)>)
    requires limit <= |data|
    ensures r.Some? ==> p < r.value.1 <= limit && r.value.1 <= p + 5
  {
    match VarintGroups(data, p, limit, 5)
    case None => None
    case Some((v, q)) => Some((Wrap32(v), q))
  }

  /** The value of the varint starting at data[p], read from at most
      `groups` bytes before limit: the low seven bits of this byte plus 128
      times the value of the rest. */
  function VarintGroups(data: seq<Byte>, p: nat, limit: nat, groups: nat): (r: Option<(nat, nat)>)
    requires limit <= |data|
    ensures r.Some? ==> p < r.value.1 <= limit && r.value.1 <= p + groups
    decreases groups
  {
    if groups == 0 || p >= limit then None
    else if data[p] < 128 then Some((data[p], p + 1))
    else
      match VarintGroups(data, p + 1, limit, groups - 1)
      case None => None
      case Some((rest, q)) => Some((data[p] - 128 + 128 * rest, q))
  }

  lemma {:induction false} VarintGroupsEncoded(data: seq<Byte>, p: nat, limit: nat, groups: nat, v: nat)
    requires |Varint32(v)| <= groups
    requires p + |Varint32(v)| <= limit <= |data|
    requires data[p..p + |Varint32(v)|] == Varint32(v)
    ensures VarintGroups(data, p, limit, groups) == Some((v, p + |Varint32(v)|))
    decreases v
  {
    var e := Varint32(v);
    assert data[p] == e[0] by { assert data[p..p + |e|][0] == data[p]; }
    if v >= 128 {
      var q := v / 128;
      assert e == [v % 128 + 128] + Varint32(q);
      assert data[p + 1..p + 1 + |Varint32(q)|] == Varint32(q) by {
        assert data[p + 1..p + 1 + |Varint32(q)|] == data[p..p + |e|][1..];
      }
      VarintGroupsEncoded(data, p + 1, limit, groups - 1, q);
    }
  }

  /** A varint32 written by PutVarint32 is read back by GetVarint32. */
  lemma GetVarint32Encoded(data: seq<Byte>, p: nat, limit: nat, v: U32)
    requires p + |Varint32(v)| <= limit <= |data|
    requires data[p..p + |Varint32(v)|] == Varint32(v)
    ensures GetVarint32(data, p, limit) == Some((v, p + |Varint32(v)|))
  {
    assert Power128(5) == TWO32 * 8;
    Varint32Length(v, 5);
    VarintGroupsEncoded(data, p, limit, 5, v);
  }
}
