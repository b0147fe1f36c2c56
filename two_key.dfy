/** The trailer of the table_bup_0511 revision: the keys of restart 0 and
    restart high (num_restarts - 2), parsed by std::stoi into uint32_t,
    are brought to the same decimal length by multiplying the shorter one
    by (length difference * 10), and their difference is stored. */
module TwoKey {
  import opened Coding
  import opened Keys

  /** The two values after the rescaling step of Finish: the value with
      fewer decimal digits is multiplied by rest * 10, rest being the
      difference in length, all in uint32_t arithmetic. */
  function Rescale(low: U32, high: U32): (r: (U32, U32))
    ensures DecimalLength(high) >= DecimalLength(low) ==> r.1 == high
    ensures DecimalLength(low) >= DecimalLength(high) ==> r.0 == low
    ensures DecimalLength(low) == DecimalLength(high) ==> r == (low, high)
  {
    var lowLength, highLength := DecimalLength(low), DecimalLength(high);
    if lowLength == highLength then (low, high)
    else if highLength > lowLength then
      var rest := Wrap32(highLength - lowLength);
      (Wrap32(low * Wrap32(rest * 10)), high)
    else
      var rest := Wrap32(lowLength - highLength);
      (low, Wrap32(high * Wrap32(rest * 10)))
  }

  /** The value diff = skey_i_high - skey_i_low after rescaling, modulo
      2^32: adding it to the rescaled low value in uint32_t gives back the
      rescaled high value. */
  function Diff(low: U32, high: U32): (r: U32)
    ensures Wrap32(Rescale(low, high).0 + r) == Rescale(low, high).1
  {
    var r := Rescale(low, high);
    AddBackDifference(r.0, r.1);
    Wrap32(r.1 - r.0)
  }

  /** In uint32_t, a + (b - a) is b. */
  lemma AddBackDifference(a: U32, b: U32)
    ensures Wrap32(a + Wrap32(b - a)) == b
  {
    var d := Wrap32(b - a);
    assert d == b - a || d == b - a + TWO32;
  }

  /** Values of equal length are stored as they are, and their difference
      modulo 2^32 is stored. */
  lemma DiffOfEqualLengths(low: U32, high: U32)
    requires DecimalLength(low) == DecimalLength(high)
    ensures Diff(low, high) == Wrap32(high - low)
    ensures Diff(low, high) == high - low || Diff(low, high) == high - low + TWO32
  {
  }

  /** When the lengths differ by one digit and the shorter value times ten
      stays below 2^32, the rescaling brings both values to the same
      decimal length. */
  lemma RescaleAlignsOneDigit(low: U32, high: U32)
    requires low > 0 && high > 0
    requires DecimalLength(high) == DecimalLength(low) + 1 || DecimalLength(low) == DecimalLength(high) + 1
    requires DecimalLength(high) > DecimalLength(low) ==> low * 10 < TWO32
    requires DecimalLength(low) > DecimalLength(high) ==> high * 10 < TWO32
    ensures DecimalLength(Rescale(low, high).0) == DecimalLength(Rescale(low, high).1)
  {
    if DecimalLength(high) > DecimalLength(low) {
      DecimalLengthTimesTen(low);
    } else {
      DecimalLengthTimesTen(high);
    }
  }

  /** With two digits of difference the factor is 20, not 100: 1 and 100
      become 20 and 100, which still differ in length. */
  lemma RescaleTwoDigitsMisaligns()
    ensures DecimalLength(1) + 2 == DecimalLength(100)
    ensures Rescale(1, 100) == (20, 100)
    ensures DecimalLength(Rescale(1, 100).0) != DecimalLength(Rescale(1, 100).1)
  {
    assert DecimalString(1) == ['1' as int];
    assert DecimalString(10) == DecimalString(1) + ['0' as int];
    assert DecimalString(100) == DecimalString(10) + ['0' as int];
    assert DecimalString(2) == ['2' as int];
    assert DecimalString(20) == DecimalString(2) + ['0' as int];
  }
}
