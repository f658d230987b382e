/**
 TMP116/TMP117 register map, device identities and the five configuration
 enumerations together with their numeric codes.
 */
module Registers {
  import opened Options

  // 16-bit registers of the device, addressed by an 8-bit pointer.
  const RegTemp: bv8 := 0x00
  const RegConfig: bv8 := 0x01
  const RegTHigh: bv8 := 0x02
  const RegTLow: bv8 := 0x03
  const RegEepromUnlock: bv8 := 0x04
  const RegEeprom1: bv8 := 0x05
  const RegEeprom2: bv8 := 0x06
  const RegTempOffset: bv8 := 0x07
  const RegEeprom3: bv8 := 0x08
  const RegDeviceId: bv8 := 0x0F

  /** 7-bit bus address used when the caller does not pass one. */
  const DefaultAddress: bv8 := 0x48

  /** The two DEVICE_ID values `begin` accepts. */
  const Tmp117Id: bv16 := 0x0117
  const Tmp116Id: bv16 := 0x1116

  /** The EEPROM scratch registers that may be read or written. */
  const EepromSlots: set<bv8> := {0x05, 0x06, 0x08}

  /** Every register address, in the order of the register map. */
  const RegisterMap: seq<bv8> := [RegTemp, RegConfig, RegTHigh, RegTLow, RegEepromUnlock,
                                  RegEeprom1, RegEeprom2, RegTempOffset, RegEeprom3, RegDeviceId]

  /** The identities `begin` accepts: a TMP117 or a TMP116. */
  predicate IsSupportedId(id: bv16) {
    id == Tmp117Id || id == Tmp116Id
  }

  /** The slot check of `readEEPROM` and `writeEEPROM` in 7Semi_TMP11x.cpp,
      which refuse any register other than the three EEPROM words. */
  predicate IsEepromSlot(reg: bv8) {
    reg == RegEeprom1 || reg == RegEeprom2 || reg == RegEeprom3
  }

  /** No two registers share an address. */
  lemma AddressesDistinct()
    ensures |RegisterMap| == 10
    ensures forall i, j :: 0 <= i < j < |RegisterMap| ==> RegisterMap[i] != RegisterMap[j]
  {
  }

  /** The slot check accepts exactly the three scratch registers, none of
      which is a control, limit, offset or identity register. */
  lemma EepromSlotsExact(reg: bv8)
    ensures IsEepromSlot(reg) <==> reg in EepromSlots
    ensures IsEepromSlot(reg) ==> reg !in {RegTemp, RegConfig, RegTHigh, RegTLow, RegEepromUnlock, RegTempOffset, RegDeviceId}
  {
  }

  /** Operating mode, CONFIG bits 11:10. */
  datatype Mode = Continuous0 | Shutdown | Continuous2 | OneShot {
    function Code(): bv16 {
      match this
      case Continuous0 => 0
      case Shutdown => 1
      case Continuous2 => 2
      case OneShot => 3
    }
  }

  /** Averaging, CONFIG bits 6:5. */
  datatype Averaging = AvgNone | Avg8 | Avg32 | Avg64 {
    function Code(): bv16 {
      match this
      case AvgNone => 0
      case Avg8 => 1
      case Avg32 => 2
      case Avg64 => 3
    }
  }

  /** Conversion-cycle selector, CONFIG bits 9:7. */
  datatype ConversionRate = Conv15p5ms | Conv125ms | Conv250ms | Conv500ms | Conv1s | Conv4s | Conv8s | Conv16s {
    function Code(): bv16 {
      match this
      case Conv15p5ms => 0
      case Conv125ms => 1
      case Conv250ms => 2
      case Conv500ms => 3
      case Conv1s => 4
      case Conv4s => 5
      case Conv8s => 6
      case Conv16s => 7
    }
  }

  /** Therm/alert selection, CONFIG bit 4. */
  datatype ThermAlert = AlertMode | ThermMode {
    function Code(): bv16 {
      match this
      case AlertMode => 0
      case ThermMode => 1
    }
  }

  /** ALERT pin polarity, CONFIG bit 3. */
  datatype AlertPolarity = ActiveLow | ActiveHigh {
    function Code(): bv16 {
      match this
      case ActiveLow => 0
      case ActiveHigh => 1
    }
  }

  /** The cast of a raw mode code back to the enumeration; `None` outside it. */
  function ModeOf(code: bv16): (m: Option<Mode>)
    ensures m.Some? <==> code <= 3
    ensures m.Some? ==> m.value.Code() == code
  {
    if code == 0 then Some(Continuous0)
    else if code == 1 then Some(Shutdown)
    else if code == 2 then Some(Continuous2)
    else if code == 3 then Some(OneShot)
    else None
  }

  function AveragingOf(code: bv16): (a: Option<Averaging>)
    ensures a.Some? <==> code <= 3
    ensures a.Some? ==> a.value.Code() == code
  {
    if code == 0 then Some(AvgNone)
    else if code == 1 then Some(Avg8)
    else if code == 2 then Some(Avg32)
    else if code == 3 then Some(Avg64)
    else None
  }

  function ConversionRateOf(code: bv16): (c: Option<ConversionRate>)
    ensures c.Some? <==> code <= 7
    ensures c.Some? ==> c.value.Code() == code
  {
    if code == 0 then Some(Conv15p5ms)
    else if code == 1 then Some(Conv125ms)
    else if code == 2 then Some(Conv250ms)
    else if code == 3 then Some(Conv500ms)
    else if code == 4 then Some(Conv1s)
    else if code == 5 then Some(Conv4s)
    else if code == 6 then Some(Conv8s)
    else if code == 7 then Some(Conv16s)
    else None
  }

  function ThermAlertOf(code: bv16): (t: Option<ThermAlert>)
    ensures t.Some? <==> code <= 1
    ensures t.Some? ==> t.value.Code() == code
  {
    if code == 0 then Some(AlertMode)
    else if code == 1 then Some(ThermMode)
    else None
  }

  function AlertPolarityOf(code: bv16): (p: Option<AlertPolarity>)
    ensures p.Some? <==> code <= 1
    ensures p.Some? ==> p.value.Code() == code
  {
    if code == 0 then Some(ActiveLow)
    else if code == 1 then Some(ActiveHigh)
    else None
  }

  /** Each enumeration's codes fit its field width (2, 2, 3, 1 and 1 bits),
      and casting a code back gives the same member. */
  lemma EnumCodesFitFields(m: Mode, a: Averaging, c: ConversionRate, t: ThermAlert, p: AlertPolarity)
    ensures m.Code() & 0x3 == m.Code() && ModeOf(m.Code()) == Some(m)
    ensures a.Code() & 0x3 == a.Code() && AveragingOf(a.Code()) == Some(a)
    ensures c.Code() & 0x7 == c.Code() && ConversionRateOf(c.Code()) == Some(c)
    ensures t.Code() & 0x1 == t.Code() && ThermAlertOf(t.Code()) == Some(t)
    ensures p.Code() & 0x1 == p.Code() && AlertPolarityOf(p.Code()) == Some(p)
  {
  }
}
