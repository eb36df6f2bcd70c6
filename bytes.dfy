/** Big-endian packing of a 16-bit register value into the two bytes that the
    fuel gauge exchanges on the bus. The functions use the driver's own bit
    operations; the lemmas give their meaning as integer arithmetic. */
module Bytes {

  /** The value with high byte `hi` and low byte `lo`: what the driver builds
      from the receive buffer with `(b0 as u16) << 8 | b1 as u16`. */
  function Join(hi: bv8, lo: bv8): bv16
  {
    ((hi as bv16) << 8) | (lo as bv16)
  }

  /** The high byte of a value, as `((value & 0xFF00) >> 8) as u8`. */
  function Msb(v: bv16): bv8
  {
    ((v & 0xFF00) >> 8) as bv8
  }

  /** The low byte of a value, as `((value & 0x00FF) >> 0) as u8`. */
  function Lsb(v: bv16): bv8
  {
    ((v & 0x00FF) >> 0) as bv8
  }

  /** Splitting a value and joining the bytes again gives the value back. */
  lemma SplitJoin(v: bv16)
    ensures Join(Msb(v), Lsb(v)) == v
  {
  }

  /** Joining two bytes and splitting again gives the bytes back. */
  lemma JoinSplit(hi: bv8, lo: bv8)
    ensures Msb(Join(hi, lo)) == hi && Lsb(Join(hi, lo)) == lo
  {
  }

  /** The high byte is the value divided by 256. */
  lemma MsbValue(v: bv16)
    ensures Msb(v) as int == v as int / 256
  {
    var q := v / 256;
    assert Msb(v) as bv16 == q by { MsbIsQuotient(v); }
    assert Msb(v) as int == q as int by { WidenValue(Msb(v)); }
    assert q as int == v as int / 256 by { QuotientValue(v); }
  }

  /** The low byte is the value modulo 256. */
  lemma LsbValue(v: bv16)
    ensures Lsb(v) as int == v as int % 256
  {
    var q := v / 256;
    assert Lsb(v) as bv16 == v - q * 256 by { LsbIsRemainder(v); }
    assert Lsb(v) as int == (v - q * 256) as int by { WidenValue(Lsb(v)); }
    assert (v - q * 256) as int == v as int - q as int * 256 by { RemainderValue(v); }
    assert q as int == v as int / 256 by { QuotientValue(v); }
    EuclideanRemainder(v as int, q as int);
  }

  /** Joining is big-endian: the first byte weighs 256, the second 1. */
  lemma JoinValue(hi: bv8, lo: bv8)
    ensures Join(hi, lo) as int == hi as int * 256 + lo as int
  {
    var v := Join(hi, lo);
    assert Msb(v) == hi && Lsb(v) == lo by { JoinSplit(hi, lo); }
    assert hi as int == v as int / 256 by { MsbValue(v); }
    assert lo as int == v as int % 256 by { LsbValue(v); }
    EuclideanRecompose(v as int, hi as int, lo as int);
  }

  // Single bit-vector facts, kept apart so that each goes to the solver alone.

  lemma MsbIsQuotient(v: bv16)
    ensures Msb(v) as bv16 == v / 256
  {
  }

  lemma LsbIsRemainder(v: bv16)
    ensures Lsb(v) as bv16 == v - (v / 256) * 256
  {
  }

  lemma WidenValue(b: bv8)
    ensures (b as bv16) as int == b as int
  {
  }

  lemma QuotientValue(v: bv16)
    ensures (v / 256) as int == v as int / 256
  {
  }

  lemma EuclideanRemainder(x: int, q: int)
    requires q == x / 256
    ensures x - q * 256 == x % 256
  {
  }

  lemma EuclideanRecompose(x: int, q: int, r: int)
    requires q == x / 256 && r == x % 256
    ensures q * 256 + r == x
  {
  }

  lemma RemainderValue(v: bv16)
    ensures (v - (v / 256) * 256) as int == v as int - (v / 256) as int * 256
  {
  }
}
