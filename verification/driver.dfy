/**
 The device facade of the TMP116/TMP117 driver: 16-bit register access over
 the bus, the read-modify-write setters and the getters of the CONFIG fields,
 soft reset, the identity probe of `begin`, and the temperature-format
 registers. Every operation returns its outcome together with the new state.
 */
module Tmp11x {
  import opened Options
  import opened Registers
  import opened ConfigCodec
  import opened Framing
  import opened Temperature
  import opened Transport

  /** The driver object: the device's 7-bit address and the bus it owns. */
  datatype Sensor = Sensor(address: bv8, bus: Bus)

  /** Outcome of an operation that reports only success or failure. */
  datatype Ack = Ack(ok: bool, sensor: Sensor)

  /** Outcome of an operation that reads a value; `None` on failure. */
  datatype Reply<T> = Reply(result: Option<T>, sensor: Sensor)

  /** The state after a transaction that changed no register. */
  predicate Untouched(s: Sensor, s': Sensor) {
    s'.address == s.address && s'.bus.regs == s.bus.regs
  }

  /* ---------------- Register access ---------------- */

  /** readReg: one register read, the two reply bytes reassembled MSB first. */
  function ReadReg(s: Sensor, reg: bv8): (r: Reply<bv16>)
    ensures Untouched(s, r.sensor)
    ensures r.sensor.bus.trace == s.bus.trace + [Read(s.address, reg)]
    ensures r.sensor.bus.acks == Consume(s.bus.acks)
    ensures r.result.Some? <==> Acked(s.bus)
    ensures r.result.Some? ==> r.result.value == Peek(s.bus.regs, reg)
  {
    var (reply, b') := Request(s.bus, s.address, reg);
    var s' := s.(bus := b');
    match reply
    case None => Reply(None, s')
    case Some(bytes) =>
      SplitAssemble(Peek(s.bus.regs, reg));
      Reply(Some(Assemble(bytes[0], bytes[1])), s')
  }

  /** writeReg: one write of the frame `[reg, value >> 8, value & 0xFF]`. */
  function WriteReg(s: Sensor, reg: bv8, v: bv16): (r: Ack)
    ensures r.sensor.address == s.address
    ensures r.sensor.bus.trace == s.bus.trace + [Write(s.address, [reg, Msb(v), Lsb(v)])]
    ensures r.sensor.bus.acks == Consume(s.bus.acks)
    ensures r.ok <==> Acked(s.bus)
    ensures r.ok ==> r.sensor.bus.regs == Poke(s.bus.regs, reg, v)
    ensures !r.ok ==> r.sensor.bus.regs == s.bus.regs
  {
    var (ok, b') := Transmit(s.bus, s.address, WriteFrame(reg, v));
    Ack(ok, s.(bus := b'))
  }

  /** A register written successfully reads back the value written. */
  lemma WriteThenReadReg(s: Sensor, reg: bv8, v: bv16)
    requires AcksNext(s.bus, 2)
    ensures WriteReg(s, reg, v).ok
    ensures ReadReg(WriteReg(s, reg, v).sensor, reg).result == Some(v)
  {
    var w := WriteReg(s, reg, v);
    assert AcksNext(w.sensor.bus, 1);
  }

  /** A register read changes the device only as its logged transaction says. */
  lemma ReadRegExplained(s: Sensor, reg: bv8)
    ensures Explains(s.bus, ReadReg(s, reg).sensor.bus)
  {
    RequestExplained(s.bus, s.address, reg);
  }

  /** A register write changes the device only as its logged transaction says. */
  lemma WriteRegExplained(s: Sensor, reg: bv8, v: bv16)
    ensures Explains(s.bus, WriteReg(s, reg, v).sensor.bus)
  {
    TransmitExplained(s.bus, s.address, WriteFrame(reg, v));
  }

  /** readConfig: the raw CONFIG word. */
  function ReadConfig(s: Sensor): (r: Reply<bv16>)
    ensures Untouched(s, r.sensor)
    ensures r.sensor.bus.trace == s.bus.trace + [Read(s.address, RegConfig)]
    ensures r.sensor.bus.acks == Consume(s.bus.acks)
    ensures r.result.Some? <==> Acked(s.bus)
    ensures r.result.Some? ==> r.result.value == Peek(s.bus.regs, RegConfig)
  {
    ReadReg(s, RegConfig)
  }

  /** writeConfig: the raw CONFIG word, replaced as a whole. */
  function WriteConfig(s: Sensor, v: bv16): (r: Ack)
    ensures r.sensor.address == s.address
    ensures r.sensor.bus.trace == s.bus.trace + [Write(s.address, [RegConfig, Msb(v), Lsb(v)])]
    ensures r.sensor.bus.acks == Consume(s.bus.acks)
    ensures r.ok <==> Acked(s.bus)
    ensures r.ok ==> r.sensor.bus.regs == Poke(s.bus.regs, RegConfig, v)
    ensures !r.ok ==> r.sensor.bus.regs == s.bus.regs
  {
    WriteReg(s, RegConfig, v)
  }

  /** reset: a single blind write of 0x8000 (bit 15 set, all else clear) to
      CONFIG; nothing is read first. */
  function Reset(s: Sensor): (r: Ack)
    ensures r.sensor.address == s.address
    ensures r.sensor.bus.acks == Consume(s.bus.acks)
    ensures r.sensor.bus.trace == s.bus.trace + [Write(s.address, [0x01, 0x80, 0x00])]
    ensures r.ok <==> Acked(s.bus)
    ensures r.ok ==> r.sensor.bus.regs == Poke(s.bus.regs, 0x01, 0x8000)
    ensures !r.ok ==> r.sensor.bus.regs == s.bus.regs
  {
    WriteConfig(s, 0x8000)
  }

  /* ---------------- CONFIG fields ---------------- */

  /** The read-modify-write shared by the field setters: read CONFIG; on
      failure stop and write nothing; otherwise write the word with the field
      replaced. */
  function SetField(s: Sensor, f: Field, code: bv16): (r: Ack)
    ensures var cfg := Peek(s.bus.regs, RegConfig);
      && r.sensor.address == s.address
      && (!Acked(s.bus) ==> !r.ok && r.sensor.bus.regs == s.bus.regs
                            && r.sensor.bus.trace == s.bus.trace + [Read(s.address, RegConfig)])
      && (Acked(s.bus) ==> r.sensor.bus.trace == s.bus.trace + [Read(s.address, RegConfig),
                                                               Write(s.address, WriteFrame(RegConfig, Pack(cfg, f, code)))])
    ensures r.ok <==> AcksNext(s.bus, 2)
    ensures r.ok ==> r.sensor.bus.regs == Poke(s.bus.regs, RegConfig, Pack(Peek(s.bus.regs, RegConfig), f, code))
    ensures !r.ok ==> r.sensor.bus.regs == s.bus.regs
  {
    var rd := ReadConfig(s);
    match rd.result
    case None => Ack(false, rd.sensor)
    case Some(cfg) => WriteConfig(rd.sensor, Pack(cfg, f, code))
  }

  /** A field setter's read-modify-write changes the device only as its
      logged transactions say. */
  lemma SetFieldExplained(s: Sensor, f: Field, code: bv16)
    ensures Explains(s.bus, SetField(s, f, code).sensor.bus)
  {
    var rd := ReadConfig(s);
    ReadRegExplained(s, RegConfig);
    if rd.result.Some? {
      var w := WriteConfig(rd.sensor, Pack(rd.result.value, f, code));
      WriteRegExplained(rd.sensor, RegConfig, Pack(rd.result.value, f, code));
      ExplainsTrans(s.bus, rd.sensor.bus, w.sensor.bus);
    }
  }

  /** The getter shared by the field getters: read CONFIG, shift and mask. */
  function GetField(s: Sensor, f: Field): (r: Reply<bv8>)
    ensures Untouched(s, r.sensor)
    ensures r.sensor.bus.trace == s.bus.trace + [Read(s.address, RegConfig)]
    ensures r.sensor.bus.acks == Consume(s.bus.acks)
    ensures r.result.Some? <==> Acked(s.bus)
    ensures r.result.Some? ==> r.result.value as bv16 == Unpack(Peek(s.bus.regs, RegConfig), f)
  {
    var rd := ReadConfig(s);
    match rd.result
    case None => Reply(None, rd.sensor)
    case Some(cfg) =>
      UnpackRange(cfg, f);
      FieldShape(f);
      Reply(Some(Unpack(cfg, f) as bv8), rd.sensor)
  }

  /** After a successful setter the field holds the new value, masked to
      the field's width. */
  lemma SetFieldWrites(s: Sensor, f: Field, code: bv16)
    ensures var r := SetField(s, f, code);
      r.ok ==> Unpack(Peek(r.sensor.bus.regs, RegConfig), f) == code & f.Mask()
  {
    if SetField(s, f, code).ok {
      PackRoundTrip(Peek(s.bus.regs, RegConfig), f, code);
    }
  }

  /** A setter keeps every CONFIG bit outside its field's span. */
  lemma SetFieldFrame(s: Sensor, f: Field, code: bv16)
    ensures var r := SetField(s, f, code);
      r.ok ==> Peek(r.sensor.bus.regs, RegConfig) & !f.Span() == Peek(s.bus.regs, RegConfig) & !f.Span()
  {
    if SetField(s, f, code).ok {
      PackFrame(Peek(s.bus.regs, RegConfig), f, code);
    }
  }

  /** A setter leaves every other field as it was. */
  lemma SetFieldKeepsOthers(s: Sensor, f: Field, g: Field, code: bv16)
    requires g != f
    ensures var r := SetField(s, f, code);
      r.ok ==> Unpack(Peek(r.sensor.bus.regs, RegConfig), g) == Unpack(Peek(s.bus.regs, RegConfig), g)
  {
    if SetField(s, f, code).ok {
      PackPreservesOtherFields(Peek(s.bus.regs, RegConfig), f, g, code);
    }
  }

  /** The getter run after a successful setter returns the setter's argument
      masked to the field width. */
  lemma SetThenGetField(s: Sensor, f: Field, code: bv16)
    requires AcksNext(s.bus, 3)
    ensures SetField(s, f, code).ok
    ensures GetField(SetField(s, f, code).sensor, f).result == Some((code & f.Mask()) as bv8)
  {
    var r := SetField(s, f, code);
    assert AcksNext(r.sensor.bus, 1);
    SetFieldWrites(s, f, code);
    FieldShape(f);
  }

  /** Every other getter returns after a successful setter what it returned
      before. */
  lemma SetKeepsOtherGetters(s: Sensor, f: Field, g: Field, code: bv16)
    requires g != f
    requires AcksNext(s.bus, 3)
    ensures SetField(s, f, code).ok
    ensures GetField(SetField(s, f, code).sensor, g).result == GetField(s, g).result
  {
    var r := SetField(s, f, code);
    assert AcksNext(r.sensor.bus, 1);
    SetFieldKeepsOthers(s, f, g, code);
  }

  /** setConversionRate: read CONFIG, replace bits 9:7 with the rate's code
      and write the word back; nothing is written after a refused read. */
  function SetConversionRate(s: Sensor, c: ConversionRate): (r: Ack)
    ensures r.sensor.address == s.address
    ensures !Acked(s.bus) ==> r.sensor.bus.trace == s.bus.trace + [Read(s.address, RegConfig)]
    ensures Acked(s.bus) ==>
              r.sensor.bus.trace == s.bus.trace + [Read(s.address, RegConfig),
                                                   Write(s.address, WriteFrame(RegConfig, Pack(Peek(s.bus.regs, RegConfig), ConvField, c.Code())))]
    ensures r.ok <==> AcksNext(s.bus, 2)
    ensures !r.ok ==> r.sensor.bus.regs == s.bus.regs
    ensures r.ok ==> ConversionRateOf(Unpack(Peek(r.sensor.bus.regs, RegConfig), ConvField)) == Some(c)
    ensures r.ok ==> Peek(r.sensor.bus.regs, RegConfig) & !0x0380 == Peek(s.bus.regs, RegConfig) & !0x0380
    ensures r.ok ==> forall other: bv8 :: other != RegConfig ==> Peek(r.sensor.bus.regs, other) == Peek(s.bus.regs, other)
  {
    SpanValues();
    SetFieldWrites(s, ConvField, c.Code());
    SetFieldFrame(s, ConvField, c.Code());
    SetField(s, ConvField, c.Code())
  }

  /** getConversionRate: CONFIG bits 9:7, always the code of a member. */
  function GetConversionRate(s: Sensor): (r: Reply<bv8>)
    ensures Untouched(s, r.sensor)
    ensures r.sensor.bus.trace == s.bus.trace + [Read(s.address, RegConfig)]
    ensures r.result.Some? <==> Acked(s.bus)
    ensures r.result.Some? ==> r.result.value as bv16 == (Peek(s.bus.regs, RegConfig) >> 7) & 0x7
    ensures r.result.Some? ==> r.result.value <= 7 && ConversionRateOf(r.result.value as bv16).Some?
  {
    GetField(s, ConvField)
  }

  /** setAveraging: read CONFIG, replace bits 6:5 with the averaging code
      and write the word back; nothing is written after a refused read. */
  function SetAveraging(s: Sensor, a: Averaging): (r: Ack)
    ensures r.sensor.address == s.address
    ensures !Acked(s.bus) ==> r.sensor.bus.trace == s.bus.trace + [Read(s.address, RegConfig)]
    ensures Acked(s.bus) ==>
              r.sensor.bus.trace == s.bus.trace + [Read(s.address, RegConfig),
                                                   Write(s.address, WriteFrame(RegConfig, Pack(Peek(s.bus.regs, RegConfig), AvgField, a.Code())))]
    ensures r.ok <==> AcksNext(s.bus, 2)
    ensures !r.ok ==> r.sensor.bus.regs == s.bus.regs
    ensures r.ok ==> AveragingOf(Unpack(Peek(r.sensor.bus.regs, RegConfig), AvgField)) == Some(a)
    ensures r.ok ==> Peek(r.sensor.bus.regs, RegConfig) & !0x0060 == Peek(s.bus.regs, RegConfig) & !0x0060
    ensures r.ok ==> forall other: bv8 :: other != RegConfig ==> Peek(r.sensor.bus.regs, other) == Peek(s.bus.regs, other)
  {
    SpanValues();
    SetFieldWrites(s, AvgField, a.Code());
    SetFieldFrame(s, AvgField, a.Code());
    SetField(s, AvgField, a.Code())
  }

  /** getAveraging: CONFIG bits 6:5, always the code of a member. */
  function GetAveraging(s: Sensor): (r: Reply<bv8>)
    ensures Untouched(s, r.sensor)
    ensures r.sensor.bus.trace == s.bus.trace + [Read(s.address, RegConfig)]
    ensures r.result.Some? <==> Acked(s.bus)
    ensures r.result.Some? ==> r.result.value as bv16 == (Peek(s.bus.regs, RegConfig) >> 5) & 0x3
    ensures r.result.Some? ==> r.result.value <= 3 && AveragingOf(r.result.value as bv16).Some?
  {
    GetField(s, AvgField)
  }

  /** setMode: read CONFIG, replace bits 11:10 with the mode's code and
      write the word back; nothing is written after a refused read. */
  function SetMode(s: Sensor, m: Mode): (r: Ack)
    ensures r.sensor.address == s.address
    ensures !Acked(s.bus) ==> r.sensor.bus.trace == s.bus.trace + [Read(s.address, RegConfig)]
    ensures Acked(s.bus) ==>
              r.sensor.bus.trace == s.bus.trace + [Read(s.address, RegConfig),
                                                   Write(s.address, WriteFrame(RegConfig, Pack(Peek(s.bus.regs, RegConfig), ModeField, m.Code())))]
    ensures r.ok <==> AcksNext(s.bus, 2)
    ensures !r.ok ==> r.sensor.bus.regs == s.bus.regs
    ensures r.ok ==> ModeOf(Unpack(Peek(r.sensor.bus.regs, RegConfig), ModeField)) == Some(m)
    ensures r.ok ==> Peek(r.sensor.bus.regs, RegConfig) & !0x0C00 == Peek(s.bus.regs, RegConfig) & !0x0C00
    ensures r.ok ==> forall other: bv8 :: other != RegConfig ==> Peek(r.sensor.bus.regs, other) == Peek(s.bus.regs, other)
  {
    SpanValues();
    SetFieldWrites(s, ModeField, m.Code());
    SetFieldFrame(s, ModeField, m.Code());
    SetField(s, ModeField, m.Code())
  }

  /** getMode: CONFIG bits 11:10, always the code of a member. */
  function GetMode(s: Sensor): (r: Reply<bv8>)
    ensures Untouched(s, r.sensor)
    ensures r.sensor.bus.trace == s.bus.trace + [Read(s.address, RegConfig)]
    ensures r.result.Some? <==> Acked(s.bus)
    ensures r.result.Some? ==> r.result.value as bv16 == (Peek(s.bus.regs, RegConfig) >> 10) & 0x3
    ensures r.result.Some? ==> r.result.value <= 3 && ModeOf(r.result.value as bv16).Some?
  {
    GetField(s, ModeField)
  }

  /** setThermAlertMode: read CONFIG, replace bit 4 and write the word
      back; nothing is written after a refused read. */
  function SetThermAlertMode(s: Sensor, t: ThermAlert): (r: Ack)
    ensures r.sensor.address == s.address
    ensures !Acked(s.bus) ==> r.sensor.bus.trace == s.bus.trace + [Read(s.address, RegConfig)]
    ensures Acked(s.bus) ==>
              r.sensor.bus.trace == s.bus.trace + [Read(s.address, RegConfig),
                                                   Write(s.address, WriteFrame(RegConfig, Pack(Peek(s.bus.regs, RegConfig), ThermField, t.Code())))]
    ensures r.ok <==> AcksNext(s.bus, 2)
    ensures !r.ok ==> r.sensor.bus.regs == s.bus.regs
    ensures r.ok ==> ThermAlertOf(Unpack(Peek(r.sensor.bus.regs, RegConfig), ThermField)) == Some(t)
    ensures r.ok ==> Peek(r.sensor.bus.regs, RegConfig) & !0x0010 == Peek(s.bus.regs, RegConfig) & !0x0010
    ensures r.ok ==> forall other: bv8 :: other != RegConfig ==> Peek(r.sensor.bus.regs, other) == Peek(s.bus.regs, other)
  {
    SpanValues();
    SetFieldWrites(s, ThermField, t.Code());
    SetFieldFrame(s, ThermField, t.Code());
    SetField(s, ThermField, t.Code())
  }

  /** getThermAlertMode: CONFIG bit 4, always the code of a member. */
  function GetThermAlertMode(s: Sensor): (r: Reply<bv8>)
    ensures Untouched(s, r.sensor)
    ensures r.sensor.bus.trace == s.bus.trace + [Read(s.address, RegConfig)]
    ensures r.result.Some? <==> Acked(s.bus)
    ensures r.result.Some? ==> r.result.value as bv16 == (Peek(s.bus.regs, RegConfig) >> 4) & 0x1
    ensures r.result.Some? ==> r.result.value <= 1 && ThermAlertOf(r.result.value as bv16).Some?
  {
    GetField(s, ThermField)
  }

  /** setAlertPolarity: reads CONFIG, sets bit 3 for a nonzero argument and
      clears it for zero, then writes CONFIG back. */
  function SetAlertPolarity(s: Sensor, p: AlertPolarity): (r: Ack)
    ensures var cfg := Peek(s.bus.regs, RegConfig);
      && r.sensor.address == s.address
      && (!Acked(s.bus) ==> !r.ok && r.sensor.bus.regs == s.bus.regs
                            && r.sensor.bus.trace == s.bus.trace + [Read(s.address, RegConfig)])
      && (Acked(s.bus) ==> r.sensor.bus.trace == s.bus.trace + [Read(s.address, RegConfig),
                                                               Write(s.address, WriteFrame(RegConfig, SetPolarityBit(cfg, p.Code())))])
    ensures r.ok <==> AcksNext(s.bus, 2)
    ensures r.ok ==> r.sensor.bus.regs == Poke(s.bus.regs, RegConfig, SetPolarityBit(Peek(s.bus.regs, RegConfig), p.Code()))
    ensures !r.ok ==> r.sensor.bus.regs == s.bus.regs
  {
    var rd := ReadConfig(s);
    match rd.result
    case None => Ack(false, rd.sensor)
    case Some(cfg) => WriteConfig(rd.sensor, SetPolarityBit(cfg, p.Code()))
  }

  /** For both polarities, setAlertPolarity's set-or-clear behaves exactly as
      the generic field setter on bit 3: same trace, same outcome, same
      registers. Hence the polarity getter reads back the argument and no
      other bit of CONFIG changes. */
  lemma SetAlertPolarityIsSetField(s: Sensor, p: AlertPolarity)
    ensures SetAlertPolarity(s, p) == SetField(s, PolarityField, p.Code())
    ensures var r := SetAlertPolarity(s, p);
      r.ok ==> && AlertPolarityOf(Unpack(Peek(r.sensor.bus.regs, RegConfig), PolarityField)) == Some(p)
               && Peek(r.sensor.bus.regs, RegConfig) & !PolarityField.Span() == Peek(s.bus.regs, RegConfig) & !PolarityField.Span()
  {
    PolarityBitIsPack(Peek(s.bus.regs, RegConfig), p.Code());
    SetFieldWrites(s, PolarityField, p.Code());
    SetFieldFrame(s, PolarityField, p.Code());
  }

  /** getAlertPolarity: CONFIG bit 3, always the code of a member. */
  function GetAlertPolarity(s: Sensor): (r: Reply<bv8>)
    ensures Untouched(s, r.sensor)
    ensures r.sensor.bus.trace == s.bus.trace + [Read(s.address, RegConfig)]
    ensures r.result.Some? <==> Acked(s.bus)
    ensures r.result.Some? ==> r.result.value as bv16 == (Peek(s.bus.regs, RegConfig) >> 3) & 0x1
    ensures r.result.Some? ==> r.result.value <= 1 && AlertPolarityOf(r.result.value as bv16).Some?
  {
    GetField(s, PolarityField)
  }

  /** setAlertPolarity is idempotent: a second call with the same argument
      writes back the word the first call wrote. */
  lemma SetAlertPolarityIdempotent(s: Sensor, p: AlertPolarity)
    requires AcksNext(s.bus, 4)
    ensures var once := SetAlertPolarity(s, p);
      var twice := SetAlertPolarity(once.sensor, p);
      once.ok && twice.ok
      && Peek(twice.sensor.bus.regs, RegConfig) == Peek(once.sensor.bus.regs, RegConfig)
  {
    var cfg := Peek(s.bus.regs, RegConfig);
    var once := SetAlertPolarity(s, p);
    assert AcksNext(once.sensor.bus, 2);
    assert Peek(once.sensor.bus.regs, RegConfig) == SetPolarityBit(cfg, p.Code());
    var twice := SetAlertPolarity(once.sensor, p);
    assert Peek(twice.sensor.bus.regs, RegConfig) == SetPolarityBit(SetPolarityBit(cfg, p.Code()), p.Code());
    PolarityBitIsPack(cfg, p.Code());
  }

  /* ---------------- Identity ---------------- */

  /** getDeviceID: the raw DEVICE_ID word. */
  function GetDeviceId(s: Sensor): (r: Reply<bv16>)
    ensures Untouched(s, r.sensor)
    ensures r.sensor.bus.trace == s.bus.trace + [Read(s.address, RegDeviceId)]
    ensures r.result.Some? <==> Acked(s.bus)
    ensures r.result.Some? ==> r.result.value == Peek(s.bus.regs, RegDeviceId)
  {
    ReadReg(s, RegDeviceId)
  }

  /** begin: bind the address, then probe DEVICE_ID once. Success exactly
      when the probe is acknowledged and reads 0x0117 or 0x1116; a failed
      probe is not retried. */
  function Begin(s: Sensor, address: bv8): (r: Ack)
    ensures r.sensor.address == address
    ensures r.sensor.bus.regs == s.bus.regs
    ensures r.sensor.bus.trace == s.bus.trace + [Read(address, 0x0F)]
    ensures r.ok <==> Acked(s.bus) && (Peek(s.bus.regs, 0x0F) == 0x0117 || Peek(s.bus.regs, 0x0F) == 0x1116)
  {
    var id := GetDeviceId(s.(address := address));
    match id.result
    case None => Ack(false, id.sensor)
    case Some(deviceId) => Ack(IsSupportedId(deviceId), id.sensor)
  }

  /** begin with its default arguments talks to address 0x48. */
  function BeginDefault(s: Sensor): (r: Ack)
    ensures r.sensor.address == 0x48
    ensures r.sensor.bus.regs == s.bus.regs
    ensures r.sensor.bus.trace == s.bus.trace + [Read(0x48, 0x0F)]
    ensures r.ok <==> Acked(s.bus) && (Peek(s.bus.regs, 0x0F) == 0x0117 || Peek(s.bus.regs, 0x0F) == 0x1116)
  {
    Begin(s, DefaultAddress)
  }

  /* ---------------- Temperature ---------------- */

  /** readRawTemperature: the result register as a signed code. */
  function ReadRawTemperature(s: Sensor): (r: Reply<Int16>)
    ensures Untouched(s, r.sensor)
    ensures r.sensor.bus.trace == s.bus.trace + [Read(s.address, RegTemp)]
    ensures r.result.Some? <==> Acked(s.bus)
    ensures r.result.Some? ==> ToUnsigned(r.result.value) == Peek(s.bus.regs, RegTemp)
  {
    var rd := ReadReg(s, RegTemp);
    match rd.result
    case None => Reply(None, rd.sensor)
    case Some(raw) =>
      UnsignedSignedRoundTrip(raw);
      Reply(Some(ToSigned(raw)), rd.sensor)
  }

  /** readTemperatureC: the result register in degrees Celsius. */
  function ReadTemperatureC(s: Sensor): (r: Reply<real>)
    ensures Untouched(s, r.sensor)
    ensures r.sensor.bus.trace == s.bus.trace + [Read(s.address, RegTemp)]
    ensures r.result.Some? <==> Acked(s.bus)
    ensures r.result.Some? ==> && r.result.value * 128.0 == ToSigned(Peek(s.bus.regs, RegTemp)) as real
                               && -256.0 <= r.result.value <= 255.9921875
  {
    var rd := ReadRawTemperature(s);
    match rd.result
    case None => Reply(None, rd.sensor)
    case Some(raw) =>
      SignedUnsignedRoundTrip(raw);
      Reply(Some(RawToCelsius(raw)), rd.sensor)
  }

  /** The registers that hold a temperature in the result register's format. */
  datatype TemperatureRegister = HighLimit | LowLimit | Offset {
    function Address(): bv8 {
      match this
      case HighLimit => RegTHigh
      case LowLimit => RegTLow
      case Offset => RegTempOffset
    }
  }

  /** setHighLimit / setLowLimit / setOffset: a single direct write of the
      temperature's code; no read-modify-write. */
  function SetTemperature(s: Sensor, which: TemperatureRegister, t: real): (r: Ack)
    requires CelsiusInRange(t)
    ensures r.sensor.bus.trace == s.bus.trace + [Write(s.address, WriteFrame(which.Address(), ToUnsigned(CelsiusToRaw(t))))]
    ensures r.sensor.address == s.address
    ensures r.ok <==> Acked(s.bus)
    ensures r.ok ==> ToSigned(Peek(r.sensor.bus.regs, which.Address())) == CelsiusToRaw(t)
    ensures r.ok ==> forall other: bv8 :: other != which.Address() ==> Peek(r.sensor.bus.regs, other) == Peek(s.bus.regs, other)
    ensures !r.ok ==> r.sensor.bus.regs == s.bus.regs
  {
    SignedUnsignedRoundTrip(CelsiusToRaw(t));
    var w := WriteReg(s, which.Address(), ToUnsigned(CelsiusToRaw(t)));
    assert w.ok ==> Peek(w.sensor.bus.regs, which.Address()) == ToUnsigned(CelsiusToRaw(t));
    w
  }

  /** getHighLimit / getLowLimit / getOffset: the register in degrees Celsius. */
  function GetTemperature(s: Sensor, which: TemperatureRegister): (r: Reply<real>)
    ensures Untouched(s, r.sensor)
    ensures r.sensor.bus.trace == s.bus.trace + [Read(s.address, which.Address())]
    ensures r.sensor.bus.acks == Consume(s.bus.acks)
    ensures r.result.Some? <==> Acked(s.bus)
    ensures r.result.Some? ==> r.result.value * 128.0 == ToSigned(Peek(s.bus.regs, which.Address())) as real
  {
    var rd := ReadReg(s, which.Address());
    match rd.result
    case None => Reply(None, rd.sensor)
    case Some(raw) => Reply(Some(RawToCelsius(ToSigned(raw))), rd.sensor)
  }

  /** Reading a temperature register back after setting it gives the value
      written up to one LSB toward zero, and exactly the value written when
      it is a whole number of LSBs. */
  lemma SetThenGetTemperature(s: Sensor, which: TemperatureRegister, t: real)
    requires CelsiusInRange(t)
    requires AcksNext(s.bus, 2)
    ensures var back := GetTemperature(SetTemperature(s, which, t).sensor, which).result;
      && back.Some?
      && (0.0 <= t ==> 0.0 <= t - back.value < LsbCelsius)
      && (t < 0.0 ==> 0.0 <= back.value - t < LsbCelsius)
      && (WholeLsbs(t) ==> back.value == t)
  {
    var w := SetTemperature(s, which, t);
    assert AcksNext(w.sensor.bus, 1);
    CelsiusRawQuantization(t);
    if WholeLsbs(t) {
      CelsiusRawExact(t);
    }
  }

  /* ---------------- The log accounts for every operation ---------------- */

  /** Every reading operation changes the device only as its one logged
      read says. */
  lemma ReadersExplained(s: Sensor, f: Field, which: TemperatureRegister)
    ensures Explains(s.bus, ReadConfig(s).sensor.bus)
    ensures Explains(s.bus, GetField(s, f).sensor.bus)
    ensures Explains(s.bus, GetConversionRate(s).sensor.bus)
    ensures Explains(s.bus, GetAveraging(s).sensor.bus)
    ensures Explains(s.bus, GetMode(s).sensor.bus)
    ensures Explains(s.bus, GetThermAlertMode(s).sensor.bus)
    ensures Explains(s.bus, GetAlertPolarity(s).sensor.bus)
    ensures Explains(s.bus, GetDeviceId(s).sensor.bus)
    ensures Explains(s.bus, ReadRawTemperature(s).sensor.bus)
    ensures Explains(s.bus, ReadTemperatureC(s).sensor.bus)
    ensures Explains(s.bus, GetTemperature(s, which).sensor.bus)
  {
    ReadRegExplained(s, RegConfig);
    ReadRegExplained(s, RegDeviceId);
    ReadRegExplained(s, RegTemp);
    ReadRegExplained(s, which.Address());
  }

  /** Every operation that writes CONFIG changes the device only as its
      logged transactions say. */
  lemma ConfigWritersExplained(s: Sensor, v: bv16, c: ConversionRate, a: Averaging, m: Mode,
                               t: ThermAlert, p: AlertPolarity)
    ensures Explains(s.bus, WriteConfig(s, v).sensor.bus)
    ensures Explains(s.bus, Reset(s).sensor.bus)
    ensures Explains(s.bus, SetConversionRate(s, c).sensor.bus)
    ensures Explains(s.bus, SetAveraging(s, a).sensor.bus)
    ensures Explains(s.bus, SetMode(s, m).sensor.bus)
    ensures Explains(s.bus, SetThermAlertMode(s, t).sensor.bus)
    ensures Explains(s.bus, SetAlertPolarity(s, p).sensor.bus)
  {
    WriteRegExplained(s, RegConfig, v);
    WriteRegExplained(s, RegConfig, 0x8000);
    SetFieldExplained(s, ConvField, c.Code());
    SetFieldExplained(s, AvgField, a.Code());
    SetFieldExplained(s, ModeField, m.Code());
    SetFieldExplained(s, ThermField, t.Code());
    SetAlertPolarityIsSetField(s, p);
    SetFieldExplained(s, PolarityField, p.Code());
  }

  /** begin's identity probe changes the device only as its logged read
      says. */
  lemma BeginExplained(s: Sensor, address: bv8)
    ensures Explains(s.bus, Begin(s, address).sensor.bus)
    ensures Explains(s.bus, BeginDefault(s).sensor.bus)
  {
    ReadRegExplained(s.(address := address), RegDeviceId);
    ReadRegExplained(s.(address := DefaultAddress), RegDeviceId);
  }

  /** A limit or offset write changes the device only as its logged write
      says. */
  lemma SetTemperatureExplained(s: Sensor, which: TemperatureRegister, t: real)
    requires CelsiusInRange(t)
    ensures Explains(s.bus, SetTemperature(s, which, t).sensor.bus)
  {
    WriteRegExplained(s, which.Address(), ToUnsigned(CelsiusToRaw(t)));
  }
}
