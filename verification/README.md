# TMP116/TMP117 driver core in Dafny

This project models the register-level core of the 7Semi TMP11x Arduino driver for the
TMP116/TMP117 digital temperature sensors, and proves properties about that model.
The driver talks to the sensor over a two-wire bus. Every operation is a sequence of
16-bit register transactions:

- `readReg` writes the register pointer, then reads two bytes, most significant byte first.
- `writeReg` sends the pointer followed by the value's two bytes.

On top of these two primitives the model covers:

- the CONFIG word's fields and their read-modify-write setters and getters;
- the soft reset;
- the device-identity probe done by `begin`;
- the fixed-point temperature format, where 1 LSB = 0.0078125 °C and codes are signed 16-bit;
- the high limit, low limit and offset registers;
- the guarded EEPROM unlock / write / lock sequence.

Files and modules:

| file | module | contents |
|---|---|---|
| `options.dfy` | `Options` | `Option<T>` |
| `registers.dfy` | `Registers` | register addresses, the supported device identities, the EEPROM slot check, the five CONFIG enumerations with their casts back from raw codes |
| `config_codec.dfy` | `ConfigCodec` | the CONFIG field codec over `bv16`: `Unpack` (shift and mask), `Pack` (clear the span, OR in the masked value) and the alert-polarity set/clear |
| `framing.dfy` | `Framing` | splitting a word into its two bytes, MSB first; the three-byte write frame |
| `temperature.dfy` | `Temperature` | the `int16_t` code as a word and back; `rawToCelsius` and `celsiusToRaw` over exact reals |
| `transport.dfy` | `Transport` | the bus as the driver sees it (see below) |
| `driver.dfy` | `Tmp11x` | the driver facade: register access, CONFIG setters and getters, reset, `begin`, temperature registers |
| `eeprom.dfy` | `Eeprom` | unlock, lock, and the guarded EEPROM read and write |

The bus (`Transport.Bus`) has three parts:

- **Register file.** The device's registers, keyed by register address. A register that was never written reads as 0.
- **Trace.** Every transaction the driver starts is recorded in order: a `Write` with its bytes, a `Read` of a register, or a `Delay` in milliseconds.
- **Acknowledgement oracle.** A list of outcomes, one consumed per transaction. Once the list is exhausted, every transaction is acknowledged. A refused write changes no register; a refused read returns nothing.

`Transport.Replay` rebuilds the register file from a stretch of trace and the outcomes of its transactions. `Transport.Explains(b, b')` says that `b'` extends the trace of `b`, and that replaying the new events from `b` gives exactly the registers and the remaining outcomes of `b'`. Every driver operation has a lemma proving `Explains` from its input bus to its output bus, so the trace is a complete log of what the operation did to the device:

- `Tmp11x.ReadRegExplained` and `Tmp11x.WriteRegExplained` cover the two primitives.
- `Tmp11x.SetFieldExplained` covers the CONFIG read-modify-write.
- `Tmp11x.ReadersExplained` covers every reading operation.
- `Tmp11x.ConfigWritersExplained` covers `writeConfig`, `reset` and the five CONFIG setters.
- `Tmp11x.BeginExplained` covers `begin`, and `Tmp11x.SetTemperatureExplained` covers the limit and offset writes.
- `Eeprom.UnlockExplained`, `Eeprom.LockExplained`, `Eeprom.ReadEepromExplained` and `Eeprom.WriteEepromExplained` cover the EEPROM operations.

Every driver operation is a pure function from a `Sensor` (its address and its bus) to the outcome and the new `Sensor`. The operations' contracts state:

- the transactions issued, as an extension of the trace;
- when the operation succeeds, in terms of the oracle;
- what the register file holds afterwards, on success and on failure.

`Eeprom.WriteEeprom` is the exception for the trace. Its contract states the outcome and the register file on every path, including a refused unlock and a refused data write. Its trace is stated case by case in four lemmas: `UnlockRefusedTrace`, `DataRefusedTrace`, `LockAcceptedTrace` and `LockRefusedTrace`.

## Model

| member | source | states |
|---|---|---|
| Registers.AddressesDistinct | src/7Semi_TMP11x.h:40-49 | the ten register addresses of the register map are pairwise distinct |
| Registers.EepromSlotsExact | src/7Semi_TMP11x.cpp:440-446 | the EEPROM slot check accepts exactly 0x05, 0x06 and 0x08, and none of them is the temperature, configuration, limit, unlock, offset or identity register |
| Registers.IsSupportedId | src/7Semi_TMP11x.cpp:62-69 | the identities begin accepts, 0x0117 (TMP117) and 0x1116 (TMP116); `Tmp11x.Begin` states the acceptance in terms of the register |
| Registers.IsEepromSlot | src/7Semi_TMP11x.cpp:442 | the slot test of readEEPROM and writeEEPROM (also cpp:456): a register passes exactly when it is EEPROM1, EEPROM2 or EEPROM3, which `Registers.EepromSlotsExact` proves is the set {0x05, 0x06, 0x08} |
| Registers.ModeOf | src/7Semi_TMP11x.h:61-66 | a raw mode code names a member exactly when it is at most 3, and then the member whose code it is |
| Registers.AveragingOf | src/7Semi_TMP11x.h:76-81 | a raw averaging code names a member exactly when it is at most 3, and then the member whose code it is |
| Registers.ConversionRateOf | src/7Semi_TMP11x.h:99-108 | a raw conversion code names a member exactly when it is at most 7, and then the member whose code it is |
| Registers.ThermAlertOf | src/7Semi_TMP11x.h:116-119 | a raw therm/alert code names a member exactly when it is at most 1, and then the member whose code it is |
| Registers.AlertPolarityOf | src/7Semi_TMP11x.h:127-130 | a raw polarity code names a member exactly when it is at most 1, and then the member whose code it is |
| Registers.EnumCodesFitFields | src/7Semi_TMP11x.h:61-130 | every enumeration member's code fits its field width (2, 2, 3, 1, 1 bits), so the setters' masks never alter it, and casting the code back gives the same member |
| ConfigCodec.SetPolarityBit | src/7Semi_TMP11x.cpp:331-334 | the polarity update keeps every bit other than bit 3, and bit 3 ends set exactly when the argument is nonzero |
| ConfigCodec.SpanValues | src/7Semi_TMP11x.h:54-130 | the five field spans are the documented bit ranges 11:10 (0x0C00), 9:7 (0x0380), 6:5 (0x0060), 4 (0x0010) and 3 (0x0008) |
| ConfigCodec.Unpack | src/7Semi_TMP11x.cpp:176 | the getters' arithmetic, shift down by the field position and mask to its width; `ConfigCodec.UnpackRange` and `ConfigCodec.UnpackReadsSpan` state its properties |
| ConfigCodec.Pack | src/7Semi_TMP11x.cpp:163-164 | the setters' arithmetic, clear the span then OR in the masked, shifted value; `ConfigCodec.PackFrame` and `ConfigCodec.PackRoundTrip` state its properties |
| ConfigCodec.UnpackRange | src/7Semi_TMP11x.cpp:171-178 | a getter's result never exceeds its field mask |
| ConfigCodec.PackFrame | src/7Semi_TMP11x.cpp:163-164 | the setters' clear-then-OR keeps every bit outside the field's span |
| ConfigCodec.PackRoundTrip | src/7Semi_TMP11x.cpp:158-178 | the getter applied to the setter's word returns the setter's argument masked to the field width |
| ConfigCodec.UnpackReadsSpan | src/7Semi_TMP11x.cpp:176 | two words give the same getter result exactly when they agree on the field's span, in both directions |
| ConfigCodec.SameFrameAndField | src/7Semi_TMP11x.cpp:163-164 | a word is determined by its bits outside a field's span together with that field's value |
| ConfigCodec.SpansDisjoint | src/7Semi_TMP11x.cpp:158-232 | the spans of mode (11:10), conversion (9:7), averaging (6:5), therm (4) and polarity (3) do not overlap |
| ConfigCodec.PackPreservesOtherFields | src/7Semi_TMP11x.cpp:188-196 | setting one field never changes what any other field's getter returns |
| ConfigCodec.PackUnpackIdentity | src/7Semi_TMP11x.cpp:218-247 | writing back the field value just read leaves CONFIG unchanged |
| ConfigCodec.PackOverwrite | src/7Semi_TMP11x.cpp:158-166 | the last write to a field wins; setting the same value twice equals setting it once |
| ConfigCodec.PackTwoFields | src/7Semi_TMP11x.cpp:158-196 | after setting two different fields both hold the values written and every bit outside both spans is unchanged |
| ConfigCodec.PackCommutes | src/7Semi_TMP11x.cpp:158-196 | setting two different fields gives the same word in either order |
| ConfigCodec.PolarityBitIsPack | src/7Semi_TMP11x.cpp:319-340 | for a 0/1 argument the polarity set/clear equals the generic field setter on bit 3; it is idempotent; the getter then reads 1 exactly for a nonzero argument |
| Framing.WriteFrame | src/7Semi_TMP11x.cpp:503-509 | the write frame is three bytes: the register address, then two bytes that reassemble MSB first to the value |
| Framing.Msb | src/7Semi_TMP11x.cpp:506 | the first value byte of a write, `value >> 8`; paired with `Framing.Lsb` and `Framing.Assemble` by `Framing.SplitAssemble` and `Framing.AssembleSplit` |
| Framing.Lsb | src/7Semi_TMP11x.cpp:507 | the second value byte of a write, `value & 0xFF` |
| Framing.Assemble | src/7Semi_TMP11x.cpp:496 | the reassembly of a read, `(hi << 8) \| lo` |
| Framing.SplitAssemble | src/7Semi_TMP11x.cpp:496 | reassembling a word's MSB and LSB gives the word |
| Framing.AssembleSplit | src/7Semi_TMP11x.cpp:496 | splitting a reassembled word gives the two bytes back |
| Framing.WriteFrameInjective | src/7Semi_TMP11x.cpp:503-509 | different (register, value) pairs never produce the same frame |
| Temperature.ToSignedSign | src/7Semi_TMP11x.cpp:91-97 | the `(int16_t)` reading of a word is negative exactly when bit 15 is set |
| Temperature.ToSigned | src/7Semi_TMP11x.cpp:95 | the `(int16_t)` reading of a register word, also at cpp:274, 285 and 307; `Temperature.ToSignedSign` and the two round-trip lemmas state its properties |
| Temperature.ToUnsigned | src/7Semi_TMP11x.cpp:257 | the implicit `int16_t` to `uint16_t` conversion of a code passed to writeReg; inverse of `Temperature.ToSigned` by the two round-trip lemmas |
| Temperature.UnsignedSignedRoundTrip | src/7Semi_TMP11x.cpp:95 | reinterpreting a register word as `int16_t` and back to a word is the identity |
| Temperature.SignedUnsignedRoundTrip | src/7Semi_TMP11x.cpp:256-275 | a code written as a word and read back as `int16_t` is the same code |
| Temperature.RawToCelsius | src/7Semi_TMP11x.cpp:518-520 | the Celsius value is exactly code / 128 and lies in -256 °C .. 255.9921875 °C |
| Temperature.Truncate | src/7Semi_TMP11x.cpp:527-529 | the float-to-integer conversion truncates toward zero: within one unit below a nonnegative input, within one unit above a negative one |
| Temperature.CelsiusToRaw | src/7Semi_TMP11x.cpp:527-529 | the code is the temperature in LSBs truncated toward zero, with the sign of the input |
| Temperature.RawCelsiusRoundTrip | src/7Semi_TMP11x.cpp:518-529 | every code converted to Celsius and back is the same code, and its Celsius value is in the convertible range |
| Temperature.CelsiusRawQuantization | src/7Semi_TMP11x.cpp:518-529 | a temperature converted to a code and back differs by less than one LSB, always toward zero |
| Temperature.CelsiusRawExact | src/7Semi_TMP11x.cpp:518-529 | a temperature that is a whole number of LSBs converts to a code and back without loss |
| Temperature.CelsiusToRawMonotonic | src/7Semi_TMP11x.cpp:527-529 | celsiusToRaw never reverses the order of two temperatures |
| Temperature.RawToCelsiusReferencePoints | src/7Semi_TMP11x.cpp:514-520 | 0, 128, -128, -32768 and 32767 LSB are 0, 1, -1, -256 and 255.9921875 °C |
| Transport.Transmit | src/7Semi_TMP11x.cpp:503-509 | a write succeeds exactly when acknowledged, is recorded with its bytes, and on success stores the framed word in the addressed register |
| Transport.Request | src/7Semi_TMP11x.cpp:487-498 | a read succeeds exactly when acknowledged and answers the register's MSB then LSB |
| Transport.Poke | src/7Semi_TMP11x.cpp:503-509 | storing a word changes that register to the word and no other register |
| Transport.Step | src/7Semi_TMP11x.cpp:487-509 | a wait uses no outcome, a transaction uses one, and the registers change only through an acknowledged three-byte write |
| Transport.Sleep | src/7Semi_TMP11x.cpp:413 | a `delay()` is logged as a wait and changes neither the registers nor the coming outcomes (also cpp:429 and 472) |
| Transport.Replay | src/7Semi_TMP11x.cpp:487-509 | the register file and outcomes left after a stretch of logged transactions, applied one `Transport.Step` at a time |
| Transport.ReplayFrame | src/7Semi_TMP11x.cpp:503-509 | a register that no logged three-byte write targets keeps its content through the replay, whatever the outcomes (proved by induction on the trace) |
| Transport.Explains | src/7Semi_TMP11x.cpp:487-509 | a later bus extends an earlier one's trace, and its registers and remaining outcomes are exactly the replay of the new events |
| Transport.ReplayAppend | src/7Semi_TMP11x.cpp:487-509 | replaying two stretches of trace in turn is replaying their concatenation (proved by induction on the first stretch) |
| Transport.ExplainsTrans | src/7Semi_TMP11x.cpp:487-509 | two consecutive stretches that each account for the device state together account for it |
| Transport.TransmitExplained | src/7Semi_TMP11x.cpp:503-509 | a write transaction's effect on the device is exactly its logged entry's |
| Transport.RequestExplained | src/7Semi_TMP11x.cpp:487-498 | a read transaction's effect on the device is exactly its logged entry's |
| Tmp11x.ReadReg | src/7Semi_TMP11x.cpp:487-498 | one read transaction; no register changes; the value is present exactly when acknowledged and is then the register's content |
| Tmp11x.WriteReg | src/7Semi_TMP11x.cpp:503-509 | one write of `[reg, MSB, LSB]`; success exactly when acknowledged; on success the register holds the value; on failure nothing changes |
| Tmp11x.WriteThenReadReg | src/7Semi_TMP11x.cpp:487-509 | a register written successfully reads back the value written |
| Tmp11x.ReadRegExplained | src/7Semi_TMP11x.cpp:487-498 | readReg changes the device only as its logged transaction says |
| Tmp11x.WriteRegExplained | src/7Semi_TMP11x.cpp:503-509 | writeReg changes the device only as its logged transaction says |
| Tmp11x.ReadConfig | src/7Semi_TMP11x.cpp:130-132 | readConfig is one read of register 0x01 returning its content |
| Tmp11x.WriteConfig | src/7Semi_TMP11x.cpp:137-139 | writeConfig is one write of register 0x01 replacing the whole word |
| Tmp11x.Reset | src/7Semi_TMP11x.cpp:146-148 | reset is a single blind write of `[0x01, 0x80, 0x00]` with nothing read first; on success CONFIG holds 0x8000 |
| Tmp11x.SetField | src/7Semi_TMP11x.cpp:158-166 | a refused CONFIG read stops after one transaction with nothing written; otherwise the packed word is written back; success needs both transactions acknowledged |
| Tmp11x.SetFieldExplained | src/7Semi_TMP11x.cpp:158-166 | the setters' read-modify-write changes the device only as its logged read and write say |
| Tmp11x.GetField | src/7Semi_TMP11x.cpp:171-178 | a getter is one CONFIG read, and its value is the shifted and masked field |
| Tmp11x.SetFieldWrites | src/7Semi_TMP11x.cpp:158-166 | after a successful setter the field holds the argument masked to the field width |
| Tmp11x.SetFieldFrame | src/7Semi_TMP11x.cpp:163-164 | a setter keeps every CONFIG bit outside its field's span |
| Tmp11x.SetFieldKeepsOthers | src/7Semi_TMP11x.cpp:188-196 | a setter leaves every other field as it was |
| Tmp11x.SetThenGetField | src/7Semi_TMP11x.cpp:158-178 | the getter run after a successful setter returns the setter's masked argument |
| Tmp11x.SetKeepsOtherGetters | src/7Semi_TMP11x.cpp:188-208 | every other getter returns after a setter what it returned before |
| Tmp11x.SetConversionRate | src/7Semi_TMP11x.cpp:158-166 | one CONFIG read, and after an acknowledged read one write of CONFIG with bits 9:7 replaced; success exactly when both are acknowledged; on success CONFIG bits 9:7 name the requested conversion rate, every other CONFIG bit and every other register is unchanged; on failure no register changes |
| Tmp11x.GetConversionRate | src/7Semi_TMP11x.cpp:171-178 | one CONFIG read and no register change; the value is present exactly when acknowledged and is then `(cfg >> 7) & 0x07` of CONFIG, at most 7 and always the code of a conversion-rate member |
| Tmp11x.SetAveraging | src/7Semi_TMP11x.cpp:188-196 | one CONFIG read, and after an acknowledged read one write of CONFIG with bits 6:5 replaced; success exactly when both are acknowledged; on success CONFIG bits 6:5 name the requested averaging, every other CONFIG bit and every other register is unchanged; on failure no register changes |
| Tmp11x.GetAveraging | src/7Semi_TMP11x.cpp:201-208 | one CONFIG read and no register change; the value is present exactly when acknowledged and is then `(cfg >> 5) & 0x03` of CONFIG, at most 3 and always the code of a averaging member |
| Tmp11x.SetMode | src/7Semi_TMP11x.cpp:218-232 | one CONFIG read, and after an acknowledged read one write of CONFIG with bits 11:10 replaced; success exactly when both are acknowledged; on success CONFIG bits 11:10 name the requested mode, every other CONFIG bit and every other register is unchanged; on failure no register changes |
| Tmp11x.GetMode | src/7Semi_TMP11x.cpp:237-247 | one CONFIG read and no register change; the value is present exactly when acknowledged and is then `(cfg >> 10) & 0x03` of CONFIG, at most 3 and always the code of a mode member |
| Tmp11x.SetThermAlertMode | src/7Semi_TMP11x.cpp:372-381 | one CONFIG read, and after an acknowledged read one write of CONFIG with bits 4 replaced; success exactly when both are acknowledged; on success CONFIG bits 4 name the requested therm/alert mode, every other CONFIG bit and every other register is unchanged; on failure no register changes |
| Tmp11x.GetThermAlertMode | src/7Semi_TMP11x.cpp:389-396 | one CONFIG read and no register change; the value is present exactly when acknowledged and is then `(cfg >> 4) & 0x01` of CONFIG, at most 1 and always the code of a therm/alert member |
| Tmp11x.SetAlertPolarity | src/7Semi_TMP11x.cpp:319-340 | read CONFIG, stop on a refused read, otherwise write back the word with bit 3 set or cleared; success needs both transactions acknowledged |
| Tmp11x.SetAlertPolarityIsSetField | src/7Semi_TMP11x.cpp:319-340 | for both polarities the set/clear equals the generic field setter on bit 3, so the polarity reads back as requested and no other CONFIG bit changes |
| Tmp11x.GetAlertPolarity | src/7Semi_TMP11x.cpp:348-362 | one CONFIG read and no register change; the value is present exactly when acknowledged and is then `(config >> 3) & 0x01` of CONFIG, at most 1 and always the code of a polarity member |
| Tmp11x.SetAlertPolarityIdempotent | src/7Semi_TMP11x.cpp:319-340 | calling setAlertPolarity twice with the same argument leaves CONFIG as the first call left it |
| Tmp11x.GetDeviceId | src/7Semi_TMP11x.cpp:79-81 | one read of register 0x0F returning its content |
| Tmp11x.Begin | src/7Semi_TMP11x.cpp:30-70 | begin binds the address, probes DEVICE_ID once, and succeeds exactly when the probe is acknowledged and reads 0x0117 or 0x1116 |
| Tmp11x.BeginDefault | src/7Semi_TMP11x.h:156-159 | begin with its default arguments probes address 0x48 once, changes no register, and succeeds exactly when the probe is acknowledged and reads a supported identity |
| Tmp11x.ReadRawTemperature | src/7Semi_TMP11x.cpp:91-97 | the code returned is the `int16_t` reading of the result register |
| Tmp11x.ReadTemperatureC | src/7Semi_TMP11x.cpp:104-110 | one read of the result register and no register change; the Celsius value is present exactly when acknowledged and is then the register's code / 128, within the sensor's range |
| Tmp11x.SetTemperature | src/7Semi_TMP11x.cpp:256-298 | setHighLimit, setLowLimit and setOffset are one direct write of the truncated code with no read first; success exactly when acknowledged; on success the register reads as that code and no other register changes; on failure no register changes |
| Tmp11x.GetTemperature | src/7Semi_TMP11x.cpp:270-309 | getHighLimit, getLowLimit and getOffset are one read whose value is the register's code / 128 |
| Tmp11x.SetThenGetTemperature | src/7Semi_TMP11x.cpp:256-309 | a limit or offset read back after being set is within one LSB of the value set, toward zero, and equal to it when it is a whole number of LSBs |
| Tmp11x.ReadersExplained | src/7Semi_TMP11x.cpp:79-396 | readConfig, every CONFIG getter, getDeviceID, readRawTemperature, readTemperatureC and the limit and offset getters change the device only as their one logged read says |
| Tmp11x.ConfigWritersExplained | src/7Semi_TMP11x.cpp:137-381 | writeConfig, reset and the five CONFIG setters change the device only as their logged transactions say |
| Tmp11x.BeginExplained | src/7Semi_TMP11x.cpp:30-70 | begin changes the device only as its logged identity probe says |
| Tmp11x.SetTemperatureExplained | src/7Semi_TMP11x.cpp:256-298 | setHighLimit, setLowLimit and setOffset change the device only as their logged write says |
| Eeprom.UnlockEeprom | src/7Semi_TMP11x.cpp:403-415 | unlockEEPROM writes 0x8000 to register 0x04 and waits 2 ms only when that was acknowledged |
| Eeprom.LockEeprom | src/7Semi_TMP11x.cpp:420-431 | lockEEPROM writes 0 to register 0x04 and waits 2 ms only when that was acknowledged |
| Eeprom.ReadEeprom | src/7Semi_TMP11x.cpp:440-446 | a register outside the three slots is refused with no transaction; a slot is read with readReg |
| Eeprom.ProgramAndLock | src/7Semi_TMP11x.cpp:466-477 | after the unlock: the data write, then on success the 10 ms wait and the lock, whose outcome does not change the result |
| Eeprom.WriteEeprom | src/7Semi_TMP11x.cpp:454-478 | a register outside the slots is refused with no transaction; otherwise success exactly when the unlock and the data write are acknowledged; on success the slot holds the value; after a refused unlock no register changes; after a refused data write only 0x04 changed, to 0x8000, and the slot keeps its content; no register other than the slot and 0x04 ever changes |
| Eeprom.UnlockRefusedTrace | src/7Semi_TMP11x.cpp:459-461 | a refused unlock ends writeEEPROM after the single unlock write |
| Eeprom.DataRefusedTrace | src/7Semi_TMP11x.cpp:463-467 | a refused data write ends writeEEPROM after unlock, 2 ms wait and the data write |
| Eeprom.LockAcceptedTrace | src/7Semi_TMP11x.cpp:454-478 | the full sequence is unlock, 2 ms, data write, 10 ms, lock, 2 ms |
| Eeprom.LockRefusedTrace | src/7Semi_TMP11x.cpp:472-477 | a refused lock ends the sequence after the lock write, without its 2 ms wait |
| Eeprom.UnlockExplained | src/7Semi_TMP11x.cpp:403-415 | unlockEEPROM changes the device only as its logged write and wait say |
| Eeprom.LockExplained | src/7Semi_TMP11x.cpp:420-431 | lockEEPROM changes the device only as its logged write and wait say |
| Eeprom.ReadEepromExplained | src/7Semi_TMP11x.cpp:440-446 | readEEPROM changes the device only as its logged read says, and a refused register leaves the bus as it was |
| Eeprom.WriteEepromExplained | src/7Semi_TMP11x.cpp:454-478 | writeEEPROM changes the device only through its logged unlock, data and lock writes, in that order, each taking effect exactly when acknowledged |
| Eeprom.WriteThenReadEeprom | src/7Semi_TMP11x.cpp:440-478 | an EEPROM slot written successfully reads back the value written |
| Eeprom.LockFailureIgnored | src/7Semi_TMP11x.cpp:474-477 | a refused lock still reports success, while register 0x04 keeps the unlock word |

## Left out

- Wire initialisation, the optional SDA/SCL pins and the bus clock in `begin` (cpp:33-57): platform setup with no effect on the register protocol. `begin`'s address binding and identity probe are modelled.
- `delay()`: a wait is a `Delay(ms)` trace event; real time is not modelled.
- `readTemperatureF` (cpp:117-123): floating-point Fahrenheit arithmetic.
- Floating point: `float` is modelled as an exact real. Every 16-bit code is exactly representable as a `float`, and multiplying or dividing by 2^-7 is exact in binary floating point. So on `float` inputs the model and the code compute the same values.
- Temperature.CelsiusToRaw: requires the truncated code to fit `int16_t`. The C conversion of an out-of-range float is undefined behaviour, so the model has no result to give.
- Tmp11x.ReadReg: `readReg` in 7Semi_TMP11x.cpp has two failure points, the pointer write and the two-byte request. The model merges them into one acknowledgement.
- Tmp11x.ReadReg: `((uint16_t)read() << 8) | read()` leaves the order of the two `read()` calls unspecified. The model reads MSB first, as the comment at cpp:483 states.
- Device-side semantics are not modelled. These include the effect of the reset bit, mode 2 reading back as 0, EEPROM programming and locking, data-ready flags, and registers the device refuses to write. The register file is a plain store.
- Registers the device never wrote read as 0. This is a modelling default, not a device promise.
- Concurrency and sharing of the bus with other drivers.
- Rounding: celsiusToRaw truncates toward zero, as the code does. It is not rounded to nearest.
- Lock failure: writeEEPROM ignores the lock's outcome and reports success, as the code does (cpp:475). It does not report the failure.
