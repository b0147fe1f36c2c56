/** Operations on keys used by the block builder: the bytewise comparator
    (LevelDB's default comparator, leveldb/comparator.h, is not part of this
    model), the shared-prefix length used for prefix compression, and the
    decimal conversions the segment trailer applies to restart keys
    (std::stoi and std::to_string). */
module Keys {
  import opened Wrappers
  import opened Coding

  /** Bytewise lexicographic order: Compare(a, b) < 0. */
  predicate Less(a: seq<Byte>, b: seq<Byte>)
    decreases |a|
  {
    if |b| == 0 then false
    else if |a| == 0 then true
    else if a[0] != b[0] then a[0] < b[0]
    else Less(a[1..], b[1..])
  }

  /** Length of the longest common prefix of a and b. */
  function CommonPrefixLength(a: seq<Byte>, b: seq<Byte>): (n: nat)
    ensures n <= |a| && n <= |b|
    ensures a[..n] == b[..n]
    ensures n < |a| && n < |b| ==> a[n] != b[n]
    decreases |a|
  {
    if |a| == 0 || |b| == 0 || a[0] != b[0] then 0
    else
      var m := CommonPrefixLength(a[1..], b[1..]);
      assert a[..m + 1] == [a[0]] + a[1..][..m];
      assert b[..m + 1] == [b[0]] + b[1..][..m];
      1 + m
  }

  /** Any common prefix that cannot be extended is the longest one. */
  lemma CommonPrefixLengthUnique(a: seq<Byte>, b: seq<Byte>, n: nat)
    requires n <= |a| && n <= |b| && a[..n] == b[..n]
    requires n == |a| || n == |b| || a[n] != b[n]
    ensures n == CommonPrefixLength(a, b)
  {
  }

  /** A key strictly greater than the previous one is never a prefix of it,
      so a non-restart entry always stores at least one key byte. */
  lemma {:induction false} LessLeavesDelta(a: seq<Byte>, b: seq<Byte>)
    requires Less(a, b)
    ensures CommonPrefixLength(a, b) < |b|
    decreases |a|
  {
    if |a| != 0 && a[0] == b[0] {
      LessLeavesDelta(a[1..], b[1..]);
    }
  }

  lemma {:induction false} LessIrreflexive(a: seq<Byte>)
    ensures !Less(a, a)
    decreases |a|
  {
    if |a| != 0 {
      LessIrreflexive(a[1..]);
    }
  }

  const INT32_MAX: int := 0x7FFF_FFFF
  const INT32_MIN: int := -0x8000_0000

  predicate IsDigit(c: Byte) { '0' as int <= c <= '9' as int }

  /** The characters isspace accepts in the C locale. */
  predicate IsSpace(c: Byte) { c == ' ' as int || 9 <= c <= 13 }

  /** Length of the run of ASCII digits at the start of s. */
  function DigitRun(s: seq<Byte>): (n: nat)
    ensures n <= |s|
    ensures forall i | 0 <= i < n :: IsDigit(s[i])
    ensures n < |s| ==> !IsDigit(s[n])
  {
    if |s| == 0 || !IsDigit(s[0]) then 0 else 1 + DigitRun(s[1..])
  }

  /** Length of the run of white space at the start of s. */
  function SpaceRun(s: seq<Byte>): (n: nat)
    ensures n <= |s|
    ensures forall i | 0 <= i < n :: IsSpace(s[i])
    ensures n < |s| ==> !IsSpace(s[n])
  {
    if |s| == 0 || !IsSpace(s[0]) then 0 else 1 + SpaceRun(s[1..])
  }

  /** The value of a string of ASCII digits, most significant first. */
  function DigitsValue(d: seq<Byte>): (r: nat)
    requires forall i | 0 <= i < |d| :: IsDigit(d[i])
  {
    if |d| == 0 then 0
    else
      assert IsDigit(d[|d| - 1]);
      DigitsValue(d[..|d| - 1]) * 10 + (d[|d| - 1] - '0' as int)
  }

  /** std::stoi on a key (strtol in base 10, then a range check against
      int): leading white space is skipped, one optional sign is read, then
      the longest run of digits; whatever follows is ignored. None stands
      for the exceptions stoi throws: no digit where one is expected
      (invalid_argument) or a value outside int (out_of_range). */
  function Stoi(s: seq<Byte>): (r: Option<int>)
    ensures r.Some? ==> INT32_MIN <= r.value <= INT32_MAX
    ensures |s| == 0 ==> r.None?
    ensures |s| > 0 && IsDigit(s[0]) && r.Some? ==> r.value >= 0
  {
    var t := s[SpaceRun(s)..];
    var negative := |t| > 0 && t[0] == '-' as int;
    var u := if |t| > 0 && (t[0] == '-' as int || t[0] == '+' as int) then t[1..] else t;
    var n := DigitRun(u);
    if n == 0 then None
    else
      var v: int := DigitsValue(u[..n]);
      var signed := if negative then -v else v;
      if signed < INT32_MIN || signed > INT32_MAX then None else Some(signed)
  }

  /** std::to_string on an unsigned value: its decimal digits without
      leading zeros ("0" for zero). */
  function DecimalString(v: nat): (r: seq<Byte>)
    ensures 1 <= |r|
    ensures forall i | 0 <= i < |r| :: IsDigit(r[i])
    decreases v
  {
    if v < 10 then ['0' as int + v] else DecimalString(v / 10) + ['0' as int + v % 10]
  }

  function DecimalLength(v: nat): (r: nat)
  {
    |DecimalString(v)|
  }

  /** stoi reads back what to_string writes, for every value stoi accepts. */
  lemma {:induction false} StoiOfDecimalString(v: nat)
    requires v <= INT32_MAX
    ensures Stoi(DecimalString(v)) == Some(v)
  {
    var s := DecimalString(v);
    assert SpaceRun(s) == 0;
    assert s[0..] == s;
    assert DigitRun(s) == |s|;
    assert s[..|s|] == s;
    DigitsValueOfDecimalString(v);
  }

  lemma {:induction false} DigitsValueOfDecimalString(v: nat)
    ensures DigitsValue(DecimalString(v)) == v
    decreases v
  {
    if v >= 10 {
      var s := DecimalString(v);
      assert s[..|s| - 1] == DecimalString(v / 10);
      DigitsValueOfDecimalString(v / 10);
    }
  }

  /** Multiplying a nonzero value by ten adds exactly one decimal digit. */
  lemma {:induction false} DecimalLengthTimesTen(v: nat)
    requires v > 0
    ensures DecimalLength(v * 10) == DecimalLength(v) + 1
    decreases v
  {
    if v >= 10 {
      assert (v * 10) / 10 == v;
    } else {
      assert (v * 10) / 10 == v;
      assert DecimalString(v) == ['0' as int + v];
    }
  }
}
