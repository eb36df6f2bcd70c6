/** What each operation of the MAX17048 fuel-gauge driver does on the bus,
    as pure functions of the bus's replies: the result it returns and the
    transactions it issues. The imperative driver (module Max17048Driver) is
    proved to behave exactly as these functions say; the lemmas here state
    what that behaviour guarantees. */
module Max17048Protocol {
  import opened Bytes
  import opened I2c

  /** Bus address of the fuel gauge when none is given. */
  const DefaultAddress: bv8 := 0x36
  /** RCOMP value applied when the driver is created, and the reference
      value of the temperature compensation at 20 degrees Celsius. */
  const DefaultRcomp: bv8 := 0x97

  // Register addresses used by the driver.
  const VCellRegister: bv8 := 0x02
  const SocRegister: bv8 := 0x04
  const VersionRegister: bv8 := 0x08
  /** High byte: RCOMP; low byte: alert settings that must be preserved. */
  const ConfigRegister: bv8 := 0x0C
  const CRateRegister: bv8 := 0x16

  /** The outcome of a driver operation: what it returns and what it
      appends to the log. */
  datatype Run<T> = Run(result: Result<T>, trace: seq<Transaction>)

  /** `read`, started when `n` transactions had already been issued: one
      write-read of the register address into the two-byte receive buffer;
      on success the two bytes, big-endian. */
  function ReadRun(replies: Replies, address: bv8, reg: bv8, n: nat): Run<bv16>
  {
    var result := match replies.status(n)
      case Ok(_) => Ok(Join(replies.data(n, 0), replies.data(n, 1)))
      case Err(e) => Err(e);
    Run(result, [Transaction.WriteRead(address, [reg], 2)])
  }

  /** `write`, started when `n` transactions had already been issued: the
      register address as one write, then the value high byte
      first as a second write, which is skipped when the first one fails. */
  function WriteRun(replies: Replies, address: bv8, reg: bv8, value: bv16, n: nat): Run<()>
  {
    var selectRegister := Transaction.Write(address, [reg]);
    match replies.status(n)
    case Err(e) => Run(Err(e), [selectRegister])
    case Ok(_) =>
      Run(replies.status(n + 1), [selectRegister, Transaction.Write(address, [Msb(value), Lsb(value)])])
  }

  /** The register value with its high byte replaced by `rcomp` and its low
      byte kept. */
  function WithRcomp(v: bv16, rcomp: bv8): (w: bv16)
    ensures Msb(w) == rcomp && Lsb(w) == Lsb(v)
  {
    Join(rcomp, Lsb(v))
  }

  /** `compensation`, started when `n` transactions had already been
      issued: read the configuration register, put `rcomp` in its
      high byte and write it back; a failed read writes nothing. */
  function CompensationRun(replies: Replies, address: bv8, rcomp: bv8, n: nat): Run<()>
  {
    var read := ReadRun(replies, address, ConfigRegister, n);
    match read.result
    case Err(e) => Run(Err(e), read.trace)
    case Ok(v) =>
      var write := WriteRun(replies, address, ConfigRegister, WithRcomp(v, rcomp), n + 1);
      Run(write.result, read.trace + write.trace)
  }

  /** `soc`: the state of charge in whole percent, from the raw register. */
  function SocOf(raw: bv16): (percent: bv16)
    ensures percent == Msb(raw) as bv16
    ensures percent <= 255
  {
    raw / 256
  }

  /** The unscaled charge rate, in steps of 0.208 %/hr, as the driver
      converts it: the register taken as an unsigned 16-bit number. */
  function ChargeRateStepsAsWritten(raw: bv16): (steps: int)
    ensures 0 <= steps < 0x1_0000
  {
    raw as int
  }

  /** The unscaled charge rate with the register taken as a two's-complement
      16-bit number, so that a discharge reads as a negative rate. */
  function ChargeRateSteps(raw: bv16): (steps: int)
    ensures -0x8000 <= steps < 0x8000
    ensures steps < 0 <==> raw as int >= 0x8000
    ensures (steps + 0x1_0000) % 0x1_0000 == raw as int
  {
    var unsigned := raw as int;
    if unsigned < 0x8000 then unsigned else unsigned - 0x1_0000
  }

  /** The value of the bi-linear RCOMP formula of `temp_compensation`
      before it is cast to a byte: slope -0.5 above 20 degrees, -5.0 at or
      below. */
  function RcompEstimate(temp: real): real
  {
    if temp > 20.0 then DefaultRcomp as real + (temp - 20.0) * -0.5
    else DefaultRcomp as real + (temp - 20.0) * -5.0
  }

  /** A cast of a number to `u8`: truncation toward zero, saturating at 0
      and 255. */
  function SaturatingTruncation(x: real): (n: int)
    ensures 0 <= n <= 255
    ensures x < 0.0 ==> n == 0
    ensures x >= 255.0 ==> n == 255
    ensures 0.0 <= x < 255.0 ==> n as real <= x < n as real + 1.0
  {
    if x < 0.0 then 0
    else if x >= 255.0 then 255
    else x.Floor
  }

  /** The RCOMP byte that `temp_compensation` derives from a temperature. */
  function RcompFor(temp: real): bv8
  {
    SaturatingTruncation(RcompEstimate(temp)) as bv8
  }

  // ---------------------------------------------------------------------
  // Properties of the register protocol

  /** `read` issues one write-read of `[reg]` to the device's address for
      two bytes; on success it returns them big-endian, and on failure it
      returns the bus error unchanged. */
  lemma ReadAssemblesBigEndian(replies: Replies, address: bv8, reg: bv8, n: nat)
    ensures ReadRun(replies, address, reg, n).trace == [Transaction.WriteRead(address, [reg], 2)]
    ensures replies.status(n).Err? ==>
      ReadRun(replies, address, reg, n).result == Err(replies.status(n).error)
    ensures replies.status(n).Ok? ==>
      var v := ReadRun(replies, address, reg, n).result;
      && v.Ok?
      && v.value as int == replies.data(n, 0) as int * 256 + replies.data(n, 1) as int
      && Msb(v.value) == replies.data(n, 0) && Lsb(v.value) == replies.data(n, 1)
  {
    JoinValue(replies.data(n, 0), replies.data(n, 1));
    JoinSplit(replies.data(n, 0), replies.data(n, 1));
  }

  /** `write` first selects the register; when that fails it stops there
      with the bus error. Otherwise it sends the value as a second write of
      two bytes, high byte (value / 256) then low byte (value % 256), which
      join back to the value, and returns that write's outcome. */
  lemma WriteSplitsValue(replies: Replies, address: bv8, reg: bv8, value: bv16, n: nat)
    ensures replies.status(n).Err? ==>
      WriteRun(replies, address, reg, value, n) ==
        Run(Err(replies.status(n).error), [Transaction.Write(address, [reg])])
    ensures replies.status(n).Ok? ==>
      var run := WriteRun(replies, address, reg, value, n);
      var msb, lsb := Msb(value), Lsb(value);
      && run.result == replies.status(n + 1)
      && run.trace == [Transaction.Write(address, [reg]), Transaction.Write(address, [msb, lsb])]
      && msb as int == value as int / 256 && lsb as int == value as int % 256
      && Join(msb, lsb) == value
  {
    MsbValue(value);
    LsbValue(value);
    SplitJoin(value);
  }

  /** The value `compensation` writes back is the driver's masking
      expression `(old & 0x00FF) | (rcomp << 8)`, which in numbers is
      rcomp * 256 + old % 256. */
  lemma WithRcompValue(v: bv16, rcomp: bv8)
    ensures WithRcomp(v, rcomp) == (v & 0x00FF) | ((rcomp as bv16) << 8)
    ensures WithRcomp(v, rcomp) as int == rcomp as int * 256 + v as int % 256
  {
    JoinValue(rcomp, Lsb(v));
    LsbValue(v);
  }

  /** The worked example: old value 0x1234 with RCOMP 0xAB becomes 0xAB34. */
  lemma WithRcompExample()
    ensures WithRcomp(0x1234, 0xAB) == 0xAB34
  {
  }

  /** Applying the same RCOMP to the result changes nothing more. */
  lemma WithRcompIdempotent(v: bv16, rcomp: bv8)
    ensures WithRcomp(WithRcomp(v, rcomp), rcomp) == WithRcomp(v, rcomp)
  {
  }

  /** The values `compensation` can leave in the register are exactly
      those whose high byte is `rcomp`. */
  lemma CompensationImage(w: bv16, rcomp: bv8)
    ensures (exists v :: WithRcomp(v, rcomp) == w) <==> Msb(w) == rcomp
  {
    if Msb(w) == rcomp {
      assert WithRcomp(w, rcomp) == w;
    }
  }

  /** `WithRcomp` applied to a value once per RCOMP in `rcomps`, in order:
      the composition of the value computation of `compensation`. */
  function CompensationRounds(v: bv16, rcomps: seq<bv8>): bv16
    decreases |rcomps|
  {
    if rcomps == [] then v else CompensationRounds(WithRcomp(v, rcomps[0]), rcomps[1..])
  }

  /** A later RCOMP replaces an earlier one; the low byte stays. */
  lemma WithRcompLastWins(v: bv16, a: bv8, b: bv8)
    ensures WithRcomp(WithRcomp(v, a), b) == WithRcomp(v, b)
  {
  }

  /** However many times `WithRcomp` is composed, the low byte is the one
      the value started with, and the high byte is the last RCOMP applied. */
  lemma {:induction false} CompensationRoundsKeepLowByte(v: bv16, rcomps: seq<bv8>)
    ensures Lsb(CompensationRounds(v, rcomps)) == Lsb(v)
    ensures rcomps != [] ==> CompensationRounds(v, rcomps) == WithRcomp(v, rcomps[|rcomps| - 1])
    decreases |rcomps|
  {
    if rcomps != [] {
      var w := WithRcomp(v, rcomps[0]);
      CompensationRoundsKeepLowByte(w, rcomps[1..]);
      if rcomps[1..] != [] {
        WithRcompLastWins(v, rcomps[0], rcomps[|rcomps| - 1]);
      }
    }
  }

  /** If the configuration register cannot be read, `compensation` issues
      no write and returns the read's error. */
  lemma CompensationReadFails(replies: Replies, address: bv8, rcomp: bv8, n: nat)
    requires replies.status(n).Err?
    ensures CompensationRun(replies, address, rcomp, n) ==
      Run(Err(replies.status(n).error), [Transaction.WriteRead(address, [ConfigRegister], 2)])
    ensures forall t | t in CompensationRun(replies, address, rcomp, n).trace :: !t.Write?
  {
  }

  /** If the read succeeds but selecting the register for the write fails,
      `compensation` returns that error and sends no data bytes. */
  lemma CompensationSelectFails(replies: Replies, address: bv8, rcomp: bv8, n: nat)
    requires replies.status(n).Ok? && replies.status(n + 1).Err?
    ensures CompensationRun(replies, address, rcomp, n) ==
      Run(Err(replies.status(n + 1).error),
          [Transaction.WriteRead(address, [ConfigRegister], 2), Transaction.Write(address, [ConfigRegister])])
  {
  }

  /** After a successful read, `compensation` selects register 0x0C and
      writes two bytes: `rcomp` as the high byte and the low byte it read,
      unchanged. Its result is the outcome of that last write. */
  lemma CompensationWritesRcomp(replies: Replies, address: bv8, rcomp: bv8, n: nat)
    requires replies.status(n).Ok? && replies.status(n + 1).Ok?
    ensures CompensationRun(replies, address, rcomp, n) ==
      Run(replies.status(n + 2),
          [Transaction.WriteRead(address, [ConfigRegister], 2),
           Transaction.Write(address, [ConfigRegister]),
           Transaction.Write(address, [rcomp, replies.data(n, 1)])])
  {
  }

  /** When the register already holds `rcomp` in its high byte,
      `compensation` writes back exactly the two bytes it read. */
  lemma CompensationIdempotent(replies: Replies, address: bv8, rcomp: bv8, n: nat)
    requires replies.status(n).Ok? && replies.status(n + 1).Ok?
    requires replies.data(n, 0) == rcomp
    ensures CompensationRun(replies, address, rcomp, n).trace[2] ==
      Transaction.Write(address, [replies.data(n, 0), replies.data(n, 1)])
  {
  }

  /** `soc` is the high byte of the raw register, the raw value divided by
      256, so it never exceeds 255. */
  lemma SocIsWholePercent(raw: bv16)
    ensures SocOf(raw) as int == raw as int / 256
    ensures SocOf(raw) as int <= 255
  {
    QuotientValue(raw);
  }

  /** At the reference temperature the compensation is the default RCOMP. */
  lemma RcompAtReference()
    ensures RcompFor(20.0) == DefaultRcomp
  {
  }

  /** Points on both slopes and on both saturation limits. */
  lemma RcompExamples()
    ensures RcompFor(30.0) == 0x92
    ensures RcompFor(0.0) == 0xFB
    ensures RcompFor(-1.0) == 0xFF
    ensures RcompFor(400.0) == 0x00
  {
  }

  /** For every temperature, `temp_compensation` rewrites only the high
      byte of register 0x0C: the low byte it sends is the one it read. */
  lemma TempCompensationKeepsLowByte(replies: Replies, address: bv8, temp: real, n: nat)
    requires replies.status(n).Ok? && replies.status(n + 1).Ok?
    ensures CompensationRun(replies, address, RcompFor(temp), n).trace[2] ==
      Transaction.Write(address, [RcompFor(temp), replies.data(n, 1)])
  {
  }

  /** The charge-rate register read as unsigned turns the smallest
      discharge rate, raw 0xFFFF, into the largest charge rate. */
  lemma ChargeRateDischargeMisread()
    ensures ChargeRateStepsAsWritten(0xFFFF) == 0xFFFF
    ensures ChargeRateSteps(0xFFFF) == -1
  {
  }

  /** A warmer temperature never gives a larger RCOMP. */
  lemma RcompNonIncreasing(t1: real, t2: real)
    requires t1 <= t2
    ensures SaturatingTruncation(RcompEstimate(t2)) <= SaturatingTruncation(RcompEstimate(t1))
  {
  }
}
