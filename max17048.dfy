/** The MAX17048 fuel-gauge driver: a handle that owns the device's bus
    address and a two-byte receive buffer, and borrows the bus for each
    call. Every method is proved to issue exactly the transactions and to
    return exactly the result that the matching function of
    Max17048Protocol describes. */
module Max17048Driver {
  import opened Bytes
  import opened I2c
  import opened Max17048Protocol

  class Max17048 {
    const address: bv8
    /** Scratch space that `write_read` fills in place. */
    const recvBuffer: array<bv8>

    ghost predicate Valid()
      reads this
    {
      recvBuffer.Length == 2
    }

    /** The bare handle, before any bus traffic: the given address and a
        zeroed receive buffer. */
    constructor (address: bv8)
      ensures Valid() && this.address == address
      ensures fresh(recvBuffer) && recvBuffer[..] == [0, 0]
    {
      this.address := address;
      recvBuffer := new bv8[2](_ => 0);
    }

    /** `new`: a handle on the default address 0x36. */
    static method New(bus: Bus) returns (r: Result<Max17048>)
      modifies bus
      ensures var run := CompensationRun(bus.replies, DefaultAddress, DefaultRcomp, |old(bus.log)|);
        && bus.log == old(bus.log) + run.trace
        && (r.Ok? <==> run.result.Ok?)
        && (r.Err? ==> r.error == run.result.error)
      ensures r.Ok? ==> fresh(r.value) && fresh(r.value.recvBuffer) && r.value.Valid() && r.value.address == DefaultAddress
    {
      r := NewWithAddress(bus, DefaultAddress);
    }

    /** `new_with_address`: build the handle and apply the default RCOMP at
        once. `Err` stands for the panic of `unwrap` when that fails. */
    static method NewWithAddress(bus: Bus, address: bv8) returns (r: Result<Max17048>)
      modifies bus
      ensures var run := CompensationRun(bus.replies, address, DefaultRcomp, |old(bus.log)|);
        && bus.log == old(bus.log) + run.trace
        && (r.Ok? <==> run.result.Ok?)
        && (r.Err? ==> r.error == run.result.error)
      ensures r.Ok? ==> fresh(r.value) && fresh(r.value.recvBuffer) && r.value.Valid() && r.value.address == address
    {
      var max := new Max17048(address);
      var status := max.Compensation(bus, DefaultRcomp);
      if status.Err? {
        return Err(status.error);
      }
      return Ok(max);
    }

    /** `version`: register 0x08, unscaled. */
    method Version(bus: Bus) returns (r: Result<bv16>)
      requires Valid()
      modifies bus, recvBuffer
      ensures var run := ReadRun(bus.replies, address, VersionRegister, |old(bus.log)|);
        bus.log == old(bus.log) + run.trace && r == run.result
    {
      r := Read(bus, VersionRegister);
    }

    /** `soc`: register 0x04 divided by 256, or the read's error. */
    method Soc(bus: Bus) returns (r: Result<bv16>)
      requires Valid()
      modifies bus, recvBuffer
      ensures var run := ReadRun(bus.replies, address, SocRegister, |old(bus.log)|);
        && bus.log == old(bus.log) + run.trace
        && r == match run.result
                case Ok(raw) => Ok(SocOf(raw))
                case Err(e) => Err(e)
    {
      var read := Read(bus, SocRegister);
      match read
      case Ok(val) => r := Ok(val / 256);
      case Err(e) => r := Err(e);
    }

    /** `charge_rate`: register 0x16, as the count of 0.208 %/hr steps that
        `charge_rate` then multiplies by 0.208 in f32. The register is read
        as unsigned, as `val as f32` on a `u16` does (`ChargeRateSteps` is
        the signed reading). */
    method ChargeRate(bus: Bus) returns (r: Result<int>)
      requires Valid()
      modifies bus, recvBuffer
      ensures var run := ReadRun(bus.replies, address, CRateRegister, |old(bus.log)|);
        && bus.log == old(bus.log) + run.trace
        && r == match run.result
                case Ok(raw) => Ok(ChargeRateStepsAsWritten(raw))
                case Err(e) => Err(e)
    {
      var read := Read(bus, CRateRegister);
      match read
      case Ok(val) => r := Ok(ChargeRateStepsAsWritten(val));
      case Err(e) => r := Err(e);
    }

    /** `vcell`: register 0x02, as the count of 78.125 uV steps that
        `vcell` then multiplies by 0.000078125 in f32. */
    method VCell(bus: Bus) returns (r: Result<bv16>)
      requires Valid()
      modifies bus, recvBuffer
      ensures var run := ReadRun(bus.replies, address, VCellRegister, |old(bus.log)|);
        bus.log == old(bus.log) + run.trace && r == run.result
    {
      r := Read(bus, VCellRegister);
    }

    /** `temp_compensation`: RCOMP from the temperature, then `compensation`. */
    method TempCompensation(bus: Bus, temp: real) returns (r: Result<()>)
      requires Valid()
      modifies bus, recvBuffer
      ensures var run := CompensationRun(bus.replies, address, RcompFor(temp), |old(bus.log)|);
        bus.log == old(bus.log) + run.trace && r == run.result
    {
      r := Compensation(bus, RcompFor(temp));
    }

    /** `compensation`: read-modify-write of register 0x0C that replaces its
        high byte by `rcomp`. */
    method Compensation(bus: Bus, rcomp: bv8) returns (r: Result<()>)
      requires Valid()
      modifies bus, recvBuffer
      ensures var run := CompensationRun(bus.replies, address, rcomp, |old(bus.log)|);
        bus.log == old(bus.log) + run.trace && r == run.result
    {
      var read := Read(bus, ConfigRegister);
      match read
      case Ok(v) =>
        var value := v;
        value := value & 0x00FF;
        value := value | ((rcomp as bv16) << 8);
        WithRcompValue(v, rcomp);
        var written := Write(bus, ConfigRegister, value);
        if written.Err? {
          return Err(written.error);
        }
        assert written.value == ();
        return Ok(());
      case Err(e) =>
        return Err(e);
    }

    /** `read`: write-read of `[reg]` into the receive buffer, then the two
        bytes received, big-endian. After a failed read nothing is promised
        about the buffer, since a real bus may leave it partly written; the
        driver never reads it in that case. */
    method Read(bus: Bus, reg: bv8) returns (r: Result<bv16>)
      requires Valid()
      modifies bus, recvBuffer
      ensures var run := ReadRun(bus.replies, address, reg, |old(bus.log)|);
        bus.log == old(bus.log) + run.trace && r == run.result
      ensures r.Ok? ==> recvBuffer[..] == Received(bus.replies, |old(bus.log)|, 2)
      ensures r.Ok? ==> r.value == Join(recvBuffer[0], recvBuffer[1])
    {
      var status := bus.WriteRead(address, [reg], recvBuffer);
      match status
      case Ok(_) =>
        r := Ok(Join(recvBuffer[0], recvBuffer[1]));
      case Err(e) =>
        r := Err(e);
    }

    /** `write`: select the register, then send the value high byte first;
        the second write is skipped when the first fails. */
    method Write(bus: Bus, reg: bv8, value: bv16) returns (r: Result<()>)
      modifies bus
      ensures var run := WriteRun(bus.replies, address, reg, value, |old(bus.log)|);
        bus.log == old(bus.log) + run.trace && r == run.result
    {
      var selected := bus.Write(address, [reg]);
      if selected.Err? {
        return Err(selected.error);
      }
      var msb := ((value & 0xFF00) >> 8) as bv8;
      var lsb := ((value & 0x00FF) >> 0) as bv8;
      var sent := bus.Write(address, [msb, lsb]);
      if sent.Err? {
        return Err(sent.error);
      }
      assert sent.value == ();
      return Ok(());
    }
  }
}
