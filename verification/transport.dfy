/**
 The two-wire bus as the driver sees it: a device holding a file of 16-bit
 registers, a trace of every transaction the driver starts, and an oracle
 that decides, transaction by transaction, whether the bus acknowledges it.
 */
module Transport {
  import opened Options
  import opened Framing

  /** One step of the bus trace. `Write` is a start-write-stop transaction
      carrying its bytes; `Read` is the pointer write followed by a repeated
      start and a two-byte read; `Delay` is a blocking wait in milliseconds. */
  datatype Event =
    | Write(address: bv8, bytes: seq<bv8>)
    | Read(address: bv8, reg: bv8)
    | Delay(ms: nat)

  /** The device's register file, keyed by the integer value of the 8-bit
      register pointer. */
  type RegisterFile = map<int, bv16>

  /** `acks[k]` is the outcome of the k-th transaction still to come; once the
      list is exhausted every transaction is acknowledged. */
  datatype Bus = Bus(regs: RegisterFile, trace: seq<Event>, acks: seq<bool>)

  /** The content of a register; a register never written reads as zero. */
  function Peek(regs: RegisterFile, reg: bv8): bv16 {
    if reg as int in regs then regs[reg as int] else 0
  }

  /** The register file after the device stores `v` in register `reg`. */
  function Poke(regs: RegisterFile, reg: bv8, v: bv16): (regs': RegisterFile)
    ensures Peek(regs', reg) == v
    ensures forall other: bv8 :: other != reg ==> Peek(regs', other) == Peek(regs, other)
  {
    regs[reg as int := v]
  }

  /** Whether the next transaction will be acknowledged. */
  predicate Acked(b: Bus) {
    |b.acks| == 0 || b.acks[0]
  }

  /** Whether each of the next `n` transactions will be acknowledged. */
  predicate AcksNext(b: Bus, n: nat) {
    forall k :: 0 <= k < n && k < |b.acks| ==> b.acks[k]
  }

  /** The next `n + 1` transactions are acknowledged exactly when the next
      one is and the `n` after it are. */
  lemma AcksNextShift(b: Bus, b': Bus, n: nat)
    requires b'.acks == Consume(b.acks)
    ensures AcksNext(b, n + 1) <==> Acked(b) && AcksNext(b', n)
  {
    if |b.acks| > 0 {
      forall k | 0 <= k < n && k < |b'.acks|
        ensures b'.acks[k] == b.acks[k + 1]
      {
      }
    }
  }

  /** The outcomes left once the next transaction has used its own. */
  function Consume(acks: seq<bool>): (rest: seq<bool>)
    ensures |acks| == 0 ==> rest == []
    ensures |acks| > 0 ==> |rest| == |acks| - 1 && forall k :: 0 <= k < |rest| ==> rest[k] == acks[k + 1]
  {
    if |acks| == 0 then [] else acks[1..]
  }

  /** Record a transaction and consume its outcome. */
  function Advance(b: Bus, e: Event): (b': Bus)
    ensures b'.regs == b.regs && b'.trace == b.trace + [e]
    ensures b'.acks == Consume(b.acks)
    ensures forall n: nat :: AcksNext(b, n + 1) ==> AcksNext(b', n)
  {
    Bus(b.regs, b.trace + [e], Consume(b.acks))
  }

  /** A write transaction. On acknowledgement the device stores the word
      framed by the second and third byte in the register named by the
      first; a failed transaction changes no register. */
  function Transmit(b: Bus, address: bv8, bytes: seq<bv8>): (r: (bool, Bus))
    ensures r.0 <==> Acked(b)
    ensures r.1.trace == b.trace + [Write(address, bytes)]
    ensures r.0 && |bytes| == 3 ==> r.1.regs == Poke(b.regs, bytes[0], Assemble(bytes[1], bytes[2]))
    ensures !r.0 ==> r.1.regs == b.regs
  {
    var ok := Acked(b);
    var b' := Advance(b, Write(address, bytes));
    if ok && |bytes| == 3 then (true, b'.(regs := Poke(b.regs, bytes[0], Assemble(bytes[1], bytes[2]))))
    else (ok, b')
  }

  /** A register read transaction. On acknowledgement the device answers with
      the register's two bytes, most significant first. */
  function Request(b: Bus, address: bv8, reg: bv8): (r: (Option<seq<bv8>>, Bus))
    ensures r.0.Some? <==> Acked(b)
    ensures r.0.Some? ==> r.0.value == [Msb(Peek(b.regs, reg)), Lsb(Peek(b.regs, reg))]
    ensures r.1 == Advance(b, Read(address, reg))
  {
    var b' := Advance(b, Read(address, reg));
    if Acked(b) then (Some([Msb(Peek(b.regs, reg)), Lsb(Peek(b.regs, reg))]), b')
    else (None, b')
  }

  /** A blocking wait: recorded in the trace, no transaction, no outcome used. */
  function Sleep(b: Bus, ms: nat): (b': Bus)
    ensures b'.regs == b.regs && b'.acks == b.acks
    ensures b'.trace == b.trace + [Delay(ms)]
  {
    b.(trace := b.trace + [Delay(ms)])
  }

  /* ---------------- The trace as a complete log ---------------- */

  /** The effect of one recorded event on a device holding `regs` whose
      coming outcomes are `acks`: a transaction uses one outcome, and an
      acknowledged three-byte write stores its word. */
  function Step(regs: RegisterFile, e: Event, acks: seq<bool>): (r: (RegisterFile, seq<bool>))
    ensures e.Delay? ==> r == (regs, acks)
    ensures !e.Delay? ==> r.1 == Consume(acks)
    ensures r.0 != regs ==> e.Write? && |e.bytes| == 3 && (|acks| == 0 || acks[0])
  {
    match e
    case Delay(_) => (regs, acks)
    case Read(_, _) => (regs, Consume(acks))
    case Write(_, bytes) =>
      var ok := |acks| == 0 || acks[0];
      (if ok && |bytes| == 3 then Poke(regs, bytes[0], Assemble(bytes[1], bytes[2])) else regs, Consume(acks))
  }

  /** The registers and the outcomes left after replaying the events `t` in
      order from `regs` and `acks`. */
  function Replay(regs: RegisterFile, t: seq<Event>, acks: seq<bool>): (RegisterFile, seq<bool>)
    decreases |t|
  {
    if |t| == 0 then (regs, acks)
    else
      var next := Step(regs, t[0], acks);
      Replay(next.0, t[1..], next.1)
  }

  /** Replaying two stretches of trace one after the other is replaying
      their concatenation. */
  lemma {:induction false} ReplayAppend(regs: RegisterFile, t1: seq<Event>, t2: seq<Event>, acks: seq<bool>)
    ensures Replay(regs, t1 + t2, acks)
            == Replay(Replay(regs, t1, acks).0, t2, Replay(regs, t1, acks).1)
    decreases |t1|
  {
    if |t1| == 0 {
      assert t1 + t2 == t2;
    } else {
      var next := Step(regs, t1[0], acks);
      assert (t1 + t2)[0] == t1[0];
      assert (t1 + t2)[1..] == t1[1..] + t2;
      ReplayAppend(next.0, t1[1..], t2, next.1);
    }
  }

  /** No three-byte write, acknowledged or not, in `t` targets register `reg`. */
  predicate NoWriteTo(t: seq<Event>, reg: bv8) {
    forall i :: 0 <= i < |t| && t[i].Write? && |t[i].bytes| == 3 ==> t[i].bytes[0] != reg
  }

  /** A register that no logged write targets keeps its content through the
      replay of the log, whatever the outcomes. */
  lemma {:induction false} ReplayFrame(regs: RegisterFile, t: seq<Event>, acks: seq<bool>, reg: bv8)
    requires NoWriteTo(t, reg)
    ensures Peek(Replay(regs, t, acks).0, reg) == Peek(regs, reg)
    decreases |t|
  {
    if |t| > 0 {
      var next := Step(regs, t[0], acks);
      assert Peek(next.0, reg) == Peek(regs, reg);
      assert NoWriteTo(t[1..], reg) by {
        forall i | 0 <= i < |t[1..]|
          ensures t[1..][i] == t[i + 1]
        {
        }
      }
      ReplayFrame(next.0, t[1..], next.1, reg);
    }
  }

  /** `b'` extends the trace of `b`, and its registers and remaining outcomes
      are exactly what replaying the new events from `b` gives: nothing but
      the logged, acknowledged writes changed the device. */
  predicate Explains(b: Bus, b': Bus) {
    && |b.trace| <= |b'.trace|
    && b'.trace[..|b.trace|] == b.trace
    && Replay(b.regs, b'.trace[|b.trace|..], b.acks) == (b'.regs, b'.acks)
  }

  /** A bus with nothing new in its trace is explained by itself. */
  lemma ExplainsRefl(b: Bus)
    ensures Explains(b, b)
  {
    assert b.trace[|b.trace|..] == [];
  }

  /** Explained steps compose. */
  lemma ExplainsTrans(a: Bus, b: Bus, c: Bus)
    requires Explains(a, b) && Explains(b, c)
    ensures Explains(a, c)
  {
    var t1 := b.trace[|a.trace|..];
    var t2 := c.trace[|b.trace|..];
    assert c.trace == a.trace + t1 + t2 by {
      assert c.trace == c.trace[..|b.trace|] + t2;
      assert b.trace == b.trace[..|a.trace|] + t1;
    }
    assert c.trace[|a.trace|..] == t1 + t2;
    ReplayAppend(a.regs, t1, t2, a.acks);
  }

  /** One recorded event replays as its own step. */
  lemma ExplainsOneEvent(b: Bus, b': Bus, e: Event)
    requires b'.trace == b.trace + [e]
    requires Step(b.regs, e, b.acks) == (b'.regs, b'.acks)
    ensures Explains(b, b')
  {
    assert b'.trace[|b.trace|..] == [e];
    assert [e][1..] == [];
  }

  /** A write transaction is explained by its own log entry. */
  lemma TransmitExplained(b: Bus, address: bv8, bytes: seq<bv8>)
    ensures Explains(b, Transmit(b, address, bytes).1)
  {
    ExplainsOneEvent(b, Transmit(b, address, bytes).1, Write(address, bytes));
  }

  /** A read transaction is explained by its own log entry. */
  lemma RequestExplained(b: Bus, address: bv8, reg: bv8)
    ensures Explains(b, Request(b, address, reg).1)
  {
    ExplainsOneEvent(b, Request(b, address, reg).1, Read(address, reg));
  }

  /** A wait is explained by its own log entry. */
  lemma SleepExplained(b: Bus, ms: nat)
    ensures Explains(b, Sleep(b, ms))
  {
    ExplainsOneEvent(b, Sleep(b, ms), Delay(ms));
  }
}
