/**
 The general-purpose EEPROM words of the TMP116/TMP117: unlocking and
 locking through the EEPROM_UL register, and reads and writes restricted to
 the three EEPROM slots. A write unlocks, writes, waits for the internal
 programming time and locks again.
 */
module Eeprom {
  import opened Options
  import opened Registers
  import opened Framing
  import opened Transport
  import opened Tmp11x

  /** The unlock word: bit 15 of EEPROM_UL set. */
  const UnlockWord: bv16 := 0x8000

  /** The lock word: EEPROM_UL cleared. */
  const LockWord: bv16 := 0x0000

  /** The transaction that sets the unlock bit. */
  function UnlockEvent(address: bv8): Event {
    Write(address, [0x04, 0x80, 0x00])
  }

  /** The transaction that clears the unlock bit. */
  function LockEvent(address: bv8): Event {
    Write(address, [0x04, 0x00, 0x00])
  }

  /** unlockEEPROM: write 0x8000 to EEPROM_UL and, if that was acknowledged,
      wait 2 ms. */
  function UnlockEeprom(s: Sensor): (r: Ack)
    ensures r.sensor.address == s.address
    ensures r.ok <==> Acked(s.bus)
    ensures r.sensor.bus.acks == Consume(s.bus.acks)
    ensures r.ok ==> r.sensor.bus.trace == s.bus.trace + [UnlockEvent(s.address), Delay(2)]
    ensures !r.ok ==> r.sensor.bus.trace == s.bus.trace + [UnlockEvent(s.address)]
    ensures r.ok ==> r.sensor.bus.regs == Poke(s.bus.regs, RegEepromUnlock, UnlockWord)
    ensures !r.ok ==> r.sensor.bus.regs == s.bus.regs
  {
    var w := WriteReg(s, RegEepromUnlock, UnlockWord);
    if !w.ok then w
    else Ack(true, w.sensor.(bus := Sleep(w.sensor.bus, 2)))
  }

  /** lockEEPROM: write 0 to EEPROM_UL and, if that was acknowledged, wait
      2 ms. */
  function LockEeprom(s: Sensor): (r: Ack)
    ensures r.sensor.address == s.address
    ensures r.ok <==> Acked(s.bus)
    ensures r.sensor.bus.acks == Consume(s.bus.acks)
    ensures r.ok ==> r.sensor.bus.trace == s.bus.trace + [LockEvent(s.address), Delay(2)]
    ensures !r.ok ==> r.sensor.bus.trace == s.bus.trace + [LockEvent(s.address)]
    ensures r.ok ==> r.sensor.bus.regs == Poke(s.bus.regs, RegEepromUnlock, LockWord)
    ensures !r.ok ==> r.sensor.bus.regs == s.bus.regs
  {
    var w := WriteReg(s, RegEepromUnlock, LockWord);
    if !w.ok then w
    else Ack(true, w.sensor.(bus := Sleep(w.sensor.bus, 2)))
  }

  /** readEEPROM: a register read, refused without any transaction unless
      the register is one of the three EEPROM slots. */
  function ReadEeprom(s: Sensor, reg: bv8): (r: Reply<bv16>)
    ensures !IsEepromSlot(reg) ==> r.result.None? && r.sensor == s
    ensures IsEepromSlot(reg) ==> && Untouched(s, r.sensor)
                                  && r.sensor.bus.trace == s.bus.trace + [Read(s.address, reg)]
                                  && (r.result.Some? <==> Acked(s.bus))
    ensures r.result.Some? ==> r.result.value == Peek(s.bus.regs, reg)
  {
    if !IsEepromSlot(reg) then Reply(None, s)
    else ReadReg(s, reg)
  }

  /** The part of writeEEPROM that follows a successful unlock: the data
      write, then, once it is acknowledged, the 10 ms programming wait and the
      lock, whose own outcome is not reported. */
  function ProgramAndLock(s: Sensor, reg: bv8, v: bv16): (r: Ack)
    requires IsEepromSlot(reg)
    ensures r.sensor.address == s.address
    ensures r.ok <==> Acked(s.bus)
    ensures !r.ok ==> && r.sensor.bus.trace == s.bus.trace + [Write(s.address, WriteFrame(reg, v))]
                      && r.sensor.bus.regs == s.bus.regs
    ensures r.ok ==> r.sensor.bus.trace == s.bus.trace + [Write(s.address, WriteFrame(reg, v)), Delay(10), LockEvent(s.address)]
                                           + (if AcksNext(s.bus, 2) then [Delay(2)] else [])
    ensures r.ok ==> && Peek(r.sensor.bus.regs, reg) == v
                     && Peek(r.sensor.bus.regs, RegEepromUnlock)
                        == (if AcksNext(s.bus, 2) then LockWord else Peek(s.bus.regs, RegEepromUnlock))
    ensures forall other: bv8 :: other != reg && other != RegEepromUnlock ==>
              Peek(r.sensor.bus.regs, other) == Peek(s.bus.regs, other)
  {
    var w := WriteReg(s, reg, v);
    AcksNextShift(s.bus, w.sensor.bus, 1);
    if !w.ok then w
    else
      var l := LockEeprom(w.sensor.(bus := Sleep(w.sensor.bus, 10)));
      Ack(true, l.sensor)
  }

  /** writeEEPROM: refuse a register outside the three slots without any
      transaction; otherwise unlock, write the word, wait 10 ms and lock.
      Success is reported once the data write is acknowledged, whatever the
      lock's outcome. */
  function WriteEeprom(s: Sensor, reg: bv8, v: bv16): (r: Ack)
    ensures r.sensor.address == s.address
    ensures !IsEepromSlot(reg) ==> !r.ok && r.sensor == s
    ensures IsEepromSlot(reg) ==> (r.ok <==> AcksNext(s.bus, 2))
    ensures r.ok ==> && Peek(r.sensor.bus.regs, reg) == v
                     && Peek(r.sensor.bus.regs, RegEepromUnlock) == (if AcksNext(s.bus, 3) then LockWord else UnlockWord)
    ensures forall other: bv8 :: other != reg && other != RegEepromUnlock ==>
              Peek(r.sensor.bus.regs, other) == Peek(s.bus.regs, other)
    ensures IsEepromSlot(reg) && !Acked(s.bus) ==> r.sensor.bus.regs == s.bus.regs
    ensures IsEepromSlot(reg) && Acked(s.bus) && !r.ok ==>
              r.sensor.bus.regs == Poke(s.bus.regs, RegEepromUnlock, UnlockWord)
  {
    if !IsEepromSlot(reg) then Ack(false, s)
    else
      var u := UnlockEeprom(s);
      AcksNextShift(s.bus, u.sensor.bus, 1);
      AcksNextShift(s.bus, u.sensor.bus, 2);
      if !u.ok then u
      else ProgramAndLock(u.sensor, reg, v)
  }

  /** A refused unlock ends writeEEPROM after its single transaction. */
  lemma UnlockRefusedTrace(s: Sensor, reg: bv8, v: bv16)
    requires IsEepromSlot(reg) && !Acked(s.bus)
    ensures WriteEeprom(s, reg, v).sensor.bus.trace == s.bus.trace + [UnlockEvent(s.address)]
  {
  }

  /** A refused data write ends writeEEPROM before the programming wait. */
  lemma DataRefusedTrace(s: Sensor, reg: bv8, v: bv16)
    requires IsEepromSlot(reg) && Acked(s.bus) && !AcksNext(s.bus, 2)
    ensures WriteEeprom(s, reg, v).sensor.bus.trace
            == s.bus.trace + [UnlockEvent(s.address), Delay(2), Write(s.address, WriteFrame(reg, v))]
  {
    var u := UnlockEeprom(s);
    AcksNextShift(s.bus, u.sensor.bus, 1);
  }

  /** Once the data write is acknowledged the programming wait and the lock
      follow; an acknowledged lock adds its own 2 ms wait. */
  lemma LockAcceptedTrace(s: Sensor, reg: bv8, v: bv16)
    requires IsEepromSlot(reg) && AcksNext(s.bus, 3)
    ensures WriteEeprom(s, reg, v).sensor.bus.trace
            == s.bus.trace + [UnlockEvent(s.address), Delay(2), Write(s.address, WriteFrame(reg, v)),
                              Delay(10), LockEvent(s.address), Delay(2)]
  {
    var u := UnlockEeprom(s);
    AcksNextShift(s.bus, u.sensor.bus, 1);
    AcksNextShift(s.bus, u.sensor.bus, 2);
  }

  /** A refused lock ends writeEEPROM without the lock's 2 ms wait. */
  lemma LockRefusedTrace(s: Sensor, reg: bv8, v: bv16)
    requires IsEepromSlot(reg) && AcksNext(s.bus, 2) && !AcksNext(s.bus, 3)
    ensures WriteEeprom(s, reg, v).sensor.bus.trace
            == s.bus.trace + [UnlockEvent(s.address), Delay(2), Write(s.address, WriteFrame(reg, v)),
                              Delay(10), LockEvent(s.address)]
  {
    var u := UnlockEeprom(s);
    AcksNextShift(s.bus, u.sensor.bus, 1);
    AcksNextShift(s.bus, u.sensor.bus, 2);
  }

  /** unlockEEPROM changes the device only as its logged transaction says. */
  lemma UnlockExplained(s: Sensor)
    ensures Explains(s.bus, UnlockEeprom(s).sensor.bus)
  {
    var w := WriteReg(s, RegEepromUnlock, UnlockWord);
    WriteRegExplained(s, RegEepromUnlock, UnlockWord);
    if w.ok {
      SleepExplained(w.sensor.bus, 2);
      ExplainsTrans(s.bus, w.sensor.bus, Sleep(w.sensor.bus, 2));
    }
  }

  /** lockEEPROM changes the device only as its logged transaction says. */
  lemma LockExplained(s: Sensor)
    ensures Explains(s.bus, LockEeprom(s).sensor.bus)
  {
    var w := WriteReg(s, RegEepromUnlock, LockWord);
    WriteRegExplained(s, RegEepromUnlock, LockWord);
    if w.ok {
      SleepExplained(w.sensor.bus, 2);
      ExplainsTrans(s.bus, w.sensor.bus, Sleep(w.sensor.bus, 2));
    }
  }

  /** readEEPROM changes the device only as its logged read, if any, says. */
  lemma ReadEepromExplained(s: Sensor, reg: bv8)
    ensures Explains(s.bus, ReadEeprom(s, reg).sensor.bus)
  {
    if IsEepromSlot(reg) {
      ReadRegExplained(s, reg);
    } else {
      ExplainsRefl(s.bus);
    }
  }

  /** writeEEPROM changes the device only as the transactions it logs say:
      its unlock, data and lock writes, in that order, each taking effect
      exactly when acknowledged. */
  lemma WriteEepromExplained(s: Sensor, reg: bv8, v: bv16)
    ensures Explains(s.bus, WriteEeprom(s, reg, v).sensor.bus)
  {
    if !IsEepromSlot(reg) {
      ExplainsRefl(s.bus);
    } else {
      var u := UnlockEeprom(s);
      UnlockExplained(s);
      if u.ok {
        var w := WriteReg(u.sensor, reg, v);
        WriteRegExplained(u.sensor, reg, v);
        ExplainsTrans(s.bus, u.sensor.bus, w.sensor.bus);
        if w.ok {
          var d := w.sensor.(bus := Sleep(w.sensor.bus, 10));
          SleepExplained(w.sensor.bus, 10);
          ExplainsTrans(s.bus, w.sensor.bus, d.bus);
          LockExplained(d);
          ExplainsTrans(s.bus, d.bus, LockEeprom(d).sensor.bus);
        }
      }
    }
  }

  /** An EEPROM word written successfully reads back the value written. */
  lemma WriteThenReadEeprom(s: Sensor, reg: bv8, v: bv16)
    requires IsEepromSlot(reg)
    requires AcksNext(s.bus, 4)
    ensures WriteEeprom(s, reg, v).ok
    ensures ReadEeprom(WriteEeprom(s, reg, v).sensor, reg).result == Some(v)
  {
  }

  /** A refused lock does not turn a write into a failure: writeEEPROM still
      reports success while EEPROM_UL is left holding the unlock word. */
  lemma LockFailureIgnored(s: Sensor, reg: bv8, v: bv16)
    requires IsEepromSlot(reg)
    requires AcksNext(s.bus, 2) && !AcksNext(s.bus, 3)
    ensures var r := WriteEeprom(s, reg, v);
      r.ok && Peek(r.sensor.bus.regs, RegEepromUnlock) == UnlockWord
  {
  }
}
