# MAX17048 fuel-gauge driver, modelled in Dafny

This project models the register driver for the MAX17048 battery fuel
gauge, found in the firmware of a battery-powered wireless sensor node. The
driver talks to the chip over a two-wire (I2C) bus. It reads 16-bit
registers as two big-endian bytes and writes them back as two separate bus
writes. It reports the version, state of charge, cell voltage and charge
rate. It also keeps the RCOMP calibration byte, which is the high byte of
configuration register 0x0C, without disturbing that register's low byte.

The model has four modules:

- `Bytes` (bytes.dfy): `Join`, `Msb` and `Lsb`, the driver's own bit
  expressions on `bv16`/`bv8`. The lemmas give their meaning as integers:
  the high byte is `v / 256`, the low byte is `v % 256`, and joining is
  big-endian.
- `I2c` (bus.dfy): the bus as an object. Its `log` field records every
  `write` and `write_read` call with the address and the bytes. Its
  `replies` field is an arbitrary script: `status(n)` is the outcome of the
  n-th transaction, so any call may fail, and `data(n, k)` is the k-th byte
  received during it. Quantifying over `replies` covers every behaviour of
  the bus and the devices on it.
- `Max17048Protocol` (protocol.dfy): the specification. `ReadRun`,
  `WriteRun` and `CompensationRun` give, as pure functions of the replies,
  the result each driver operation returns and the transactions it appends
  to the log. `WithRcomp`, `SocOf`, `ChargeRateStepsAsWritten` and `RcompFor` give the
  value computations. The lemmas state what these guarantee.
- `Max17048Driver` (max17048.dfy): the `Max17048` class. It has the
  `address` and a two-element `recvBuffer` array that `write_read` fills in
  place. Each method is proved to append exactly the trace of its protocol
  function and to return exactly its result.

## Model

| member | source | states |
|---|---|---|
| `Bytes.Join` | src/max17048.rs:114 | the driver's `(b0 as u16) << 8 \| b1 as u16`; its meaning is stated by `JoinValue` and `JoinSplit` |
| `Bytes.Msb` | src/max17048.rs:124 | the driver's `((value & 0xFF00) >> 8) as u8`; its meaning is stated by `MsbValue` |
| `Bytes.Lsb` | src/max17048.rs:125 | the driver's `((value & 0x00FF) >> 0) as u8`; its meaning is stated by `LsbValue` |
| `Max17048Protocol.ReadRun` | src/max17048.rs:109-117 | the result and trace of `read` as a function of the replies; its properties are stated by `ReadAssemblesBigEndian` |
| `Max17048Protocol.WriteRun` | src/max17048.rs:119-128 | the result and trace of `write`; its properties are stated by `WriteSplitsValue` |
| `Max17048Protocol.CompensationRun` | src/max17048.rs:92-107 | the result and trace of `compensation`; its properties are stated by the `Compensation...` lemmas |
| `Max17048Protocol.RcompEstimate` | src/max17048.rs:84-88 | the bi-linear formula over exact reals: slope -0.5 above 20 degrees, -5.0 at or below, 0x97 at 20 |
| `Max17048Protocol.RcompFor` | src/max17048.rs:84-89 | the bi-linear formula followed by Rust's saturating `as u8`, over exact reals; its properties are stated by the `Rcomp...` lemmas |
| `Bytes.JoinValue` | src/max17048.rs:114 | `(b0 << 8) \| b1` is the integer `b0 * 256 + b1` |
| `Bytes.JoinSplit` | src/max17048.rs:114 | joining two bytes and splitting again gives back both bytes |
| `Bytes.SplitJoin` | src/max17048.rs:123-126 | splitting a value into `msb`, `lsb` and joining them gives back the value |
| `Bytes.MsbValue` | src/max17048.rs:124 | `((v & 0xFF00) >> 8) as u8` is `v / 256` |
| `Bytes.LsbValue` | src/max17048.rs:125 | `((v & 0x00FF) >> 0) as u8` is `v % 256` |
| `I2c.Bus.Write` | src/max17048.rs:123 | a bus write appends exactly one `Write(address, bytes)` to the log and returns the scripted outcome of that transaction |
| `I2c.Bus.WriteRead` | src/max17048.rs:113 | a write-read appends exactly one `WriteRead(address, bytes, len)` and returns the scripted outcome; on success the buffer holds the received bytes, and on failure it is unchanged |
| `Max17048Protocol.WithRcomp` | src/max17048.rs:99-100 | the new register value has high byte `rcomp` and the old low byte |
| `Max17048Protocol.WithRcompValue` | src/max17048.rs:97-102 | the value written back equals the masking `(old & 0x00FF) \| (rcomp << 8)`, which is `rcomp * 256 + old % 256` |
| `Max17048Protocol.WithRcompExample` | src/max17048.rs:99-100 | old 0x1234 with RCOMP 0xAB gives 0xAB34 |
| `Max17048Protocol.WithRcompIdempotent` | src/max17048.rs:99-100 | applying the same RCOMP to its own output leaves the value unchanged |
| `Max17048Protocol.WithRcompLastWins` | src/max17048.rs:99-100 | a later RCOMP replaces an earlier one, and the low byte stays |
| `Max17048Protocol.CompensationImage` | src/max17048.rs:99-100 | a value can be written by `compensation(rcomp)` if and only if its high byte is `rcomp` |
| `Max17048Protocol.CompensationRoundsKeepLowByte` | src/max17048.rs:99-100 | composing the value computation of `compensation` any number of times keeps the initial low byte, and the high byte is the last RCOMP applied |
| `Max17048Protocol.ReadAssemblesBigEndian` | src/max17048.rs:109-117 | `read` issues one write-read of `[reg]` for two bytes; on success it returns `data0 * 256 + data1`, whose high and low bytes are the bytes received; on failure it returns the bus error unchanged |
| `Max17048Protocol.WriteSplitsValue` | src/max17048.rs:119-128 | when the first write fails, `write` returns its error and issues nothing more; otherwise it issues exactly `[reg]` and then `[value / 256, value % 256]`, the bytes join back to `value`, and it returns the second write's outcome |
| `Max17048Protocol.CompensationReadFails` | src/max17048.rs:97-106 | when reading 0x0C fails, `compensation` issues no write and returns that error |
| `Max17048Protocol.CompensationSelectFails` | src/max17048.rs:97-103 | when the read succeeds but the register-select write fails, that error is propagated and no data bytes are sent |
| `Max17048Protocol.CompensationWritesRcomp` | src/max17048.rs:97-103 | after a successful read and select, the exact trace is read 0x0C, write `[0x0C]`, write `[rcomp, old low byte]`, and the result is the last write's outcome |
| `Max17048Protocol.CompensationIdempotent` | src/max17048.rs:97-102 | when the register already holds `rcomp` in its high byte, the bytes written back are exactly the bytes read |
| `Max17048Protocol.SocOf` | src/max17048.rs:51-52 | the state of charge is the high byte of the raw register, so it is at most 255 |
| `Max17048Protocol.SocIsWholePercent` | src/max17048.rs:51-54 | the state of charge is the integer `raw / 256`, at most 255 |
| `Max17048Protocol.SaturatingTruncation` | src/max17048.rs:89 | `as u8` truncates toward zero into 0..255: negative values give 0, values of 255 or more give 255 |
| `Max17048Protocol.RcompAtReference` | src/max17048.rs:84-89 | at 20 degrees the RCOMP is the default 0x97 |
| `Max17048Protocol.RcompExamples` | src/max17048.rs:84-89 | 30 degrees gives 0x92 and 0 degrees gives 0xFB; -1 degree saturates to 0xFF and 400 degrees saturates to 0x00 |
| `Max17048Protocol.RcompNonIncreasing` | src/max17048.rs:84-89 | a warmer temperature never gives a larger RCOMP |
| `Max17048Protocol.TempCompensationKeepsLowByte` | src/max17048.rs:80-90 | for every temperature, `temp_compensation` sends the low byte it read unchanged and changes only the high byte of 0x0C |
| `Max17048Protocol.ChargeRateStepsAsWritten` | src/max17048.rs:62-64 | the charge-rate register, converted as the code does (unsigned), lies in 0..65535 |
| `Max17048Protocol.ChargeRateSteps` | src/max17048.rs:62-64 | the charge-rate register as two's complement: it lies in -32768..32767, it is negative exactly when bit 15 is set, and it has the register's bit pattern |
| `Max17048Protocol.ChargeRateDischargeMisread` | src/max17048.rs:62-64 | raw 0xFFFF reads as 65535 steps as written, but as -1 step in two's complement |
| `Max17048Driver.Max17048.constructor` | src/max17048.rs:31-34 | the handle stores the given address and a fresh, zeroed two-byte receive buffer |
| `Max17048Driver.Max17048.New` | src/max17048.rs:20-25 | `new` behaves as `new_with_address` at address 0x36, with a fresh receive buffer |
| `Max17048Driver.Max17048.NewWithAddress` | src/max17048.rs:27-37 | the constructor applies `compensation(0x97)` before returning: it issues exactly that trace, and it panics (an `Err` here) exactly when that operation fails; on success the handle has the given address and a fresh receive buffer |
| `Max17048Driver.Max17048.Version` | src/max17048.rs:40-45 | `version` issues one read of register 0x08 and returns its value unscaled, or the bus error |
| `Max17048Driver.Max17048.Soc` | src/max17048.rs:47-55 | `soc` issues one read of register 0x04 and returns `SocOf(raw)`, or passes the read's error through |
| `Max17048Driver.Max17048.ChargeRate` | src/max17048.rs:58-68 | `charge_rate` issues one read of register 0x16 and returns its step count read as unsigned, as the code does (see Findings), or passes the read's error through |
| `Max17048Driver.Max17048.VCell` | src/max17048.rs:70-78 | `vcell` issues one read of register 0x02 and returns the raw count, or passes the read's error through |
| `Max17048Driver.Max17048.TempCompensation` | src/max17048.rs:80-90 | `temp_compensation` behaves exactly like `compensation` with `RcompFor(temp)` |
| `Max17048Driver.Max17048.Compensation` | src/max17048.rs:92-107 | the step-by-step `&=`, `\|=` read-modify-write of 0x0C issues exactly the trace, and returns exactly the result, of `CompensationRun` |
| `Max17048Driver.Max17048.Read` | src/max17048.rs:109-117 | `read` fills `recvBuffer` in place with the bytes received, returns them joined big-endian, and issues exactly the trace that `ReadRun` gives |
| `Max17048Driver.Max17048.Write` | src/max17048.rs:119-128 | `write` issues exactly `WriteRun`'s trace and returns its result, stopping after the first write when that write fails |

## Left out

- src/main.rs is not part of this model. It does peripheral set-up, GPIO gating, delays, the sampling loop, `bincode` serialisation of the all-floating-point `Sample` record, and the radio send.
- src/imu.rs is not part of this model. It is a flat sequence of setter calls into an external IMU crate whose register map is not available.
- `Max17048Driver.Max17048.VCell`: returns the raw count of 78.125 uV steps. The floating-point product `val as f32 * 0.000078125` is not modelled.
- `Max17048Driver.Max17048.ChargeRate`: returns the count of 0.208 %/hr steps, read as unsigned as the code does. The floating-point product `val as f32 * 0.208` is not modelled. The signed reading the register calls for is `Max17048Protocol.ChargeRateSteps` (see Findings); the driver does not use it.
- `Max17048Protocol.RcompFor`: the RCOMP formula is computed over exact reals. The f32 rounding of the subtraction and the multiplication is not modelled. Neither is a NaN temperature, which Rust's cast would turn into 0.
- `Max17048Driver.Max17048.NewWithAddress`: the `unwrap` panic is modelled as an `Err` result; the abort of the program is not modelled. The construction also fails when the initial read of 0x0C fails, not only when the write fails, because `unwrap` covers the whole `compensation` call.
- What the chip does with two separate writes is not modelled. In particular, the model does not say whether the chip remembers the register address selected by the first write when the second write arrives. The model records the transactions, not the chip's register file.
- `I2c.Bus.WriteRead`: a failed transaction leaves the buffer unchanged. A real bus may leave it partly written. The driver never reads the buffer after a failure, so no result depends on this.
- The bus's generic error type is modelled as `BusError` with an integer code. The driver only passes errors on.
- Exclusive borrowing of the bus (`&mut I2C`) is not modelled beyond the calls being sequential.

## Findings

| source | as written | input that shows it | evidently intended | confidence | as-written member | corrected member |
|---|---|---|---|---|---|---|
| src/max17048.rs:62-64 | the charge-rate register is converted with `val as f32` from a `u16`, so it is read as unsigned | raw 0xFFFF, the smallest discharge rate, reads as 65535 steps, about +13631 %/hr | the register holds a signed rate that is negative while the battery discharges: 0xFFFF is -1 step, -0.208 %/hr | medium, not executed | `Max17048Protocol.ChargeRateStepsAsWritten` (shown by `Max17048Protocol.ChargeRateDischargeMisread`) | `Max17048Protocol.ChargeRateSteps` |
