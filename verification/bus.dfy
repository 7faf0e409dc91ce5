/** The register access layer of the MFRC522 driver: every operation is one
    or more two-byte SPI transfers, recorded in a log as the register access
    each frame encodes (`Registers.Encode` gives the bytes).

    The chip is not modelled internally.  It is any deterministic function
    from the transfers so far and the outgoing frame to the second byte it
    clocks back (the byte `Read_MFRC522` returns).  A register file that
    remembers what was written (`MemoryChip`) is one such chip. */
module Bus {
  import opened Registers

  /** One transfer: the access sent (as the frame `Encode(op)`) and the
      second byte received. */
  datatype Xfer = Xfer(op: Access, rx: bv8)

  /** The chip's reply to an outgoing frame, given every earlier transfer. */
  type Chip = (seq<Xfer>, Frame) -> bv8

  /** The value a register read returned, with the log after the read. */
  datatype Readout = Readout(value: bv8, log: seq<Xfer>)

  /** True when `log` starts with `prefix`. */
  predicate Extends(log: seq<Xfer>, prefix: seq<Xfer>) {
    |prefix| <= |log| && log[..|prefix|] == prefix
  }

  /** A log extending `b` also extends every prefix `a` of `b`. */
  lemma ExtendsTrans(c: seq<Xfer>, b: seq<Xfer>, a: seq<Xfer>)
    requires Extends(c, b) && Extends(b, a)
    ensures Extends(c, a)
  {
    assert c[..|a|] == c[..|b|][..|a|];
  }

  /** A log agrees with each of its prefixes on every segment of the prefix. */
  lemma ExtendsSegment(log: seq<Xfer>, prefix: seq<Xfer>, from: nat, to: nat)
    requires Extends(log, prefix) && from <= to <= |prefix|
    ensures log[from..to] == prefix[from..to]
  {
    forall k | from <= k < to
      ensures log[k] == prefix[k]
    {
      assert log[k] == log[..|prefix|][k];
    }
    assert log[from..to] == prefix[from..to];
  }

  /** Every transfer of `log` from index `from` on received the chip's
      reply to its frame, given the transfers before it. */
  predicate Answered(chip: Chip, log: seq<Xfer>, from: nat) {
    && from <= |log|
    && forall k :: from <= k < |log| ==> log[k].rx == chip(log[..k], Encode(log[k].op))
  }

  /** Answers recorded before `prefix` ended and answers recorded after it
      join up. */
  lemma AnsweredTrans(chip: Chip, log: seq<Xfer>, prefix: seq<Xfer>, from: nat)
    requires Extends(log, prefix) && Answered(chip, prefix, from) && Answered(chip, log, |prefix|)
    ensures Answered(chip, log, from)
  {
    forall k | from <= k < |prefix|
      ensures log[k].rx == chip(log[..k], Encode(log[k].op))
    {
      assert log[k] == log[..|prefix|][k];
      assert log[..k] == log[..|prefix|][..k];
    }
  }

  /** One transfer: send the frame of `op` and record the chip's reply. */
  function Transfer(chip: Chip, log: seq<Xfer>, op: Access): (r: seq<Xfer>)
    ensures |r| == |log| + 1 && Extends(r, log) && r[|log|].op == op
    ensures Answered(chip, r, |log|)
  {
    var r := log + [Xfer(op, chip(log, Encode(op)))];
    assert r[..|log|] == log;
    r
  }

  /** Write_MFRC522: one write frame, the reply is ignored. */
  function Write(chip: Chip, log: seq<Xfer>, addr: bv8, value: bv8): (r: seq<Xfer>)
    ensures |r| == |log| + 1 && Extends(r, log)
    ensures r[|log|].op == WriteReg(addr, value)
    ensures Answered(chip, r, |log|)
  {
    Transfer(chip, log, WriteReg(addr, value))
  }

  /** Read_MFRC522: one read frame; the result is the chip's second reply byte. */
  function Read(chip: Chip, log: seq<Xfer>, addr: bv8): (r: Readout)
    ensures |r.log| == |log| + 1 && Extends(r.log, log)
    ensures r.log[|log|].op == ReadReg(addr)
    ensures r.value == r.log[|log|].rx == chip(log, Frame(AddressByte(addr) | 0x80, 0))
    ensures Answered(chip, r.log, |log|)
  {
    var l := Transfer(chip, log, ReadReg(addr));
    Readout(l[|log|].rx, l)
  }

  /** SetBitMask: read the register, then write it back with every bit of
      `mask` set and every other bit as read. */
  function SetBitMask(chip: Chip, log: seq<Xfer>, reg: bv8, mask: bv8): (r: seq<Xfer>)
    ensures |r| == |log| + 2 && Extends(r, log)
    ensures r[|log|].op == ReadReg(reg)
    ensures r[|log| + 1].op == WriteReg(reg, r[|log|].rx | mask)
    ensures Answered(chip, r, |log|)
  {
    var before := Read(chip, log, reg);
    var r := Write(chip, before.log, reg, before.value | mask);
    assert r[|log|] == before.log[|log|];
    AnsweredTrans(chip, r, before.log, |log|);
    r
  }

  /** ClearBitMask: read the register, then write it back with every bit of
      `mask` cleared and every other bit as read. */
  function ClearBitMask(chip: Chip, log: seq<Xfer>, reg: bv8, mask: bv8): (r: seq<Xfer>)
    ensures |r| == |log| + 2 && Extends(r, log)
    ensures r[|log|].op == ReadReg(reg)
    ensures r[|log| + 1].op == WriteReg(reg, r[|log|].rx & !mask)
    ensures Answered(chip, r, |log|)
  {
    var before := Read(chip, log, reg);
    var r := Write(chip, before.log, reg, before.value & !mask);
    assert r[|log|] == before.log[|log|];
    AnsweredTrans(chip, r, before.log, |log|);
    r
  }

  /** What SetBitMask and ClearBitMask write back: every bit of `mask` set
      (cleared), every bit outside `mask` as read. */
  lemma MaskBits(v: bv8, mask: bv8)
    ensures (v | mask) & mask == mask && (v | mask) & !mask == v & !mask
    ensures (v & !mask) & mask == 0 && (v & !mask) & !mask == v & !mask
  {
  }

  /** AntennaOn: read TxControlReg; only when both low bits are clear, set
      them with a read-modify-write. */
  function AntennaOn(chip: Chip, log: seq<Xfer>): (r: seq<Xfer>)
    ensures Extends(r, log) && |r| > |log|
    ensures r[|log|].op == ReadReg(TxControlReg)
    ensures r[|log|].rx & 0x03 != 0 ==> |r| == |log| + 1
    ensures r[|log|].rx & 0x03 == 0 ==>
              && |r| == |log| + 3
              && r[|log| + 1].op == ReadReg(TxControlReg)
              && r[|log| + 2].op.WriteReg? && r[|log| + 2].op.addr == TxControlReg
              && r[|log| + 2].op.value & 0x03 == 0x03
              && r[|log| + 2].op.value & 0xFC == r[|log| + 1].rx & 0xFC
    ensures WriteCount(r[|log|..]) <= 1
    ensures Answered(chip, r, |log|)
  {
    var check := Read(chip, log, TxControlReg);
    var r := if check.value & 0x03 == 0 then SetBitMask(chip, check.log, TxControlReg, 0x03) else check.log;
    AnsweredTrans(chip, r, check.log, |log|);
    var s := r[|log|..];
    if |r| == |log| + 3 then
      assert s[..2][..1] == s[..1] && s[..1][..0] == [];
      assert WriteCount(s[..1]) == 0;
      assert WriteCount(s[..2]) == 0;
      r
    else
      assert s[..0] == [];
      r
  }

  /** The fixed configuration Init writes before switching the antenna on,
      in order. */
  const InitWrites: seq<(bv8, bv8)> := [
    (CommandReg, PCD_RESETPHASE),
    (TModeReg, 0x8D),
    (TPrescalerReg, 0x3E),
    (TReloadRegL, 30),
    (TReloadRegH, 0),
    (TxAutoReg, 0x40),
    (ModeReg, 0x3D)
  ]

  function WriteAll(chip: Chip, log: seq<Xfer>, writes: seq<(bv8, bv8)>): (r: seq<Xfer>)
    ensures |r| == |log| + |writes| && Extends(r, log)
    ensures forall k :: |log| <= k < |r| ==> r[k].op == WriteReg(writes[k - |log|].0, writes[k - |log|].1)
    ensures Answered(chip, r, |log|)
    decreases |writes|
  {
    if |writes| == 0 then log
    else
      var l := Write(chip, log, writes[0].0, writes[0].1);
      var r := WriteAll(chip, l, writes[1..]);
      AnsweredTrans(chip, r, l, |log|);
      r
  }

  /** Init (without the reset-line write): the configuration writes, then
      AntennaOn. */
  function Init(chip: Chip, log: seq<Xfer>): (r: seq<Xfer>)
    ensures Extends(r, log) && |r| > |log| + |InitWrites|
    ensures forall k :: |log| <= k < |log| + |InitWrites| ==>
              r[k].op == WriteReg(InitWrites[k - |log|].0, InitWrites[k - |log|].1)
    ensures r[|log| + |InitWrites|].op == ReadReg(TxControlReg)
    ensures Answered(chip, r, |log|)
  {
    var configured := WriteAll(chip, log, InitWrites);
    var r := AntennaOn(chip, configured);
    AnsweredTrans(chip, r, configured, |log|);
    r
  }

  /** Number of write frames in a stretch of log. */
  function WriteCount(log: seq<Xfer>): nat {
    if |log| == 0 then 0
    else WriteCount(log[..|log| - 1]) + (if log[|log| - 1].op.WriteReg? then 1 else 0)
  }

  // ---------------------------------------------------------------------
  // A register-file chip: every read returns the last value written to the
  // register its frame addresses, or the initial contents.

  /** The current contents of register `addr` after the transfers in `log`:
      a write lands in the register its frame addresses. */
  function Recall(init: bv8 -> bv8, log: seq<Xfer>, addr: bv8): bv8
    decreases |log|
  {
    if |log| == 0 then init(addr)
    else if log[|log| - 1].op.WriteReg? && Register(log[|log| - 1].op) == addr then log[|log| - 1].op.value
    else Recall(init, log[..|log| - 1], addr)
  }

  function MemoryChip(init: bv8 -> bv8): Chip {
    (log: seq<Xfer>, tx: Frame) => Recall(init, log, FrameAddr(tx))
  }

  /** A read frame leaves every register of the register file unchanged. */
  lemma RecallAfterRead(init: bv8 -> bv8, log: seq<Xfer>, x: Xfer, addr: bv8)
    requires x.op.ReadReg?
    ensures Recall(init, log + [x], addr) == Recall(init, log, addr)
  {
    assert (log + [x])[..|log|] == log;
  }

  /** A write frame sets the register it addresses and no other. */
  lemma RecallAfterWrite(init: bv8 -> bv8, log: seq<Xfer>, x: Xfer, addr: bv8)
    requires x.op.WriteReg?
    ensures Register(x.op) == addr ==> Recall(init, log + [x], addr) == x.op.value
    ensures Register(x.op) != addr ==> Recall(init, log + [x], addr) == Recall(init, log, addr)
  {
    assert (log + [x])[..|log|] == log;
  }

  /** On a register file, a read frame for a six-bit address reads that
      address. */
  lemma MemoryRead(init: bv8 -> bv8, log: seq<Xfer>, reg: bv8)
    requires ValidAddr(reg)
    ensures Read(MemoryChip(init), log, reg).value == Recall(init, log, reg)
  {
    DecodeEncode(ReadReg(reg));
  }

  /** On a register file, a read returns what the previous write stored
      whenever the two frames address the same register, whatever the
      upper two bits of the addresses passed to Write and Read, and
      otherwise the register's earlier contents. */
  lemma ReadSeesWrite(init: bv8 -> bv8, log: seq<Xfer>, waddr: bv8, value: bv8, raddr: bv8)
    ensures var written := Write(MemoryChip(init), log, waddr, value);
            var got := Read(MemoryChip(init), written, raddr).value;
            && (waddr & 0x3F == raddr & 0x3F ==> got == value)
            && (waddr & 0x3F != raddr & 0x3F ==> got == Recall(init, log, raddr & 0x3F))
  {
    var written := Write(MemoryChip(init), log, waddr, value);
    assert written == log + [written[|log|]];
    assert Register(ReadReg(raddr)) == raddr & 0x3F;
    RecallAfterWrite(init, log, written[|log|], raddr & 0x3F);
  }

  /** On a register file, SetBitMask leaves `reg` at its old value with the
      mask bits set, ClearBitMask at its old value with them cleared, and
      neither touches another register. */
  lemma MaskOnRegisterFile(init: bv8 -> bv8, log: seq<Xfer>, reg: bv8, mask: bv8, addr: bv8)
    requires ValidAddr(reg)
    ensures Recall(init, SetBitMask(MemoryChip(init), log, reg, mask), addr)
         == if addr == reg then Recall(init, log, reg) | mask else Recall(init, log, addr)
    ensures Recall(init, ClearBitMask(MemoryChip(init), log, reg, mask), addr)
         == if addr == reg then Recall(init, log, reg) & !mask else Recall(init, log, addr)
  {
    var chip := MemoryChip(init);
    var before := Read(chip, log, reg);
    MemoryRead(init, log, reg);
    assert before.log == log + [before.log[|log|]];
    RecallAfterRead(init, log, before.log[|log|], addr);
    var setLog := SetBitMask(chip, log, reg, mask);
    assert setLog == before.log + [setLog[|log| + 1]];
    RecallAfterWrite(init, before.log, setLog[|log| + 1], addr);
    var clear := ClearBitMask(chip, log, reg, mask);
    assert clear == before.log + [clear[|log| + 1]];
    RecallAfterWrite(init, before.log, clear[|log| + 1], addr);
  }

  /** On a register file, AntennaOn leaves at least one low bit of
      TxControlReg set: both when it found them clear, and the upper six bits
      as they were. */
  lemma AntennaOnEnables(init: bv8 -> bv8, log: seq<Xfer>)
    ensures var before := Recall(init, log, TxControlReg);
            var after := Recall(init, AntennaOn(MemoryChip(init), log), TxControlReg);
            && after & 0x03 != 0
            && (before & 0x03 == 0 ==> after & 0x03 == 0x03)
            && after & 0xFC == before & 0xFC
  {
    var chip := MemoryChip(init);
    var check := Read(chip, log, TxControlReg);
    RecallAfterRead(init, log, check.log[|log|], TxControlReg);
    assert check.log == log + [check.log[|log|]];
    assert check.value == Recall(init, log, TxControlReg);
    if check.value & 0x03 == 0 {
      var second := Read(chip, check.log, TxControlReg);
      RecallAfterRead(init, check.log, second.log[|check.log|], TxControlReg);
      var r := SetBitMask(chip, check.log, TxControlReg, 0x03);
      assert r == second.log + [r[|check.log| + 1]];
      RecallAfterWrite(init, second.log, r[|check.log| + 1], TxControlReg);
    }
  }

  /** AntennaOn is idempotent on a register file: a second call only reads
      TxControlReg and writes nothing. */
  lemma AntennaOnIdempotent(init: bv8 -> bv8, log: seq<Xfer>)
    ensures var once := AntennaOn(MemoryChip(init), log);
            var twice := AntennaOn(MemoryChip(init), once);
            && |twice| == |once| + 1
            && twice[|once|].op == ReadReg(TxControlReg)
            && WriteCount(twice[|log|..]) <= 1
  {
    var chip := MemoryChip(init);
    var once := AntennaOn(chip, log);
    var twice := AntennaOn(chip, once);
    AntennaOnEnables(init, log);
    var check := Read(chip, once, TxControlReg);
    MemoryRead(init, once, TxControlReg);
    assert twice[|once|] == check.log[|once|];
    WriteCountSplit(twice[|log|..], |once| - |log|);
    assert twice[|log|..][..|once| - |log|] == once[|log|..];
    assert twice[|log|..][|once| - |log|..] == twice[|once|..];
  }

  lemma {:induction false} WriteCountSplit(s: seq<Xfer>, k: nat)
    requires k <= |s|
    ensures WriteCount(s) == WriteCount(s[..k]) + WriteCount(s[k..])
    decreases |s|
  {
    if |s| == k {
      assert s[..k] == s;
      assert s[k..] == [];
    } else {
      WriteCountSplit(s[..|s| - 1], k);
      assert s[..|s| - 1][..k] == s[..k];
      assert s[k..][..|s[k..]| - 1] == s[..|s| - 1][k..];
      assert s[k..][|s[k..]| - 1] == s[|s| - 1];
    }
  }

  /** The contents of `addr` once `writes` are applied in order on top of
      `prior`. */
  function Configured(writes: seq<(bv8, bv8)>, addr: bv8, prior: bv8): bv8
    decreases |writes|
  {
    if |writes| == 0 then prior
    else Configured(writes[1..], addr, if writes[0].0 == addr then writes[0].1 else prior)
  }

  lemma {:induction false} RecallWriteAll(init: bv8 -> bv8, log: seq<Xfer>, writes: seq<(bv8, bv8)>, addr: bv8)
    requires forall i :: 0 <= i < |writes| ==> ValidAddr(writes[i].0)
    ensures Recall(init, WriteAll(MemoryChip(init), log, writes), addr)
         == Configured(writes, addr, Recall(init, log, addr))
    decreases |writes|
  {
    if |writes| > 0 {
      var l := Write(MemoryChip(init), log, writes[0].0, writes[0].1);
      assert l == log + [l[|log|]];
      RecallAfterWrite(init, log, l[|log|], addr);
      assert forall i :: 0 <= i < |writes[1..]| ==> writes[1..][i] == writes[i + 1];
      RecallWriteAll(init, l, writes[1..], addr);
    }
  }

  /** A register written exactly once ends up holding that value. */
  lemma {:induction false} ConfiguredOnce(writes: seq<(bv8, bv8)>, j: nat, prior: bv8)
    requires j < |writes|
    requires forall i :: 0 <= i < |writes| && i != j ==> writes[i].0 != writes[j].0
    ensures Configured(writes, writes[j].0, prior) == writes[j].1
    decreases |writes|
  {
    var addr := writes[j].0;
    if j == 0 {
      ConfiguredUntouched(writes[1..], addr, writes[0].1);
    } else {
      assert writes[0].0 != addr;
      assert writes[1..][j - 1] == writes[j];
      forall i | 0 <= i < |writes[1..]| && i != j - 1
        ensures writes[1..][i].0 != writes[1..][j - 1].0
      {
        assert writes[1..][i] == writes[i + 1];
      }
      ConfiguredOnce(writes[1..], j - 1, prior);
    }
  }

  lemma {:induction false} ConfiguredUntouched(writes: seq<(bv8, bv8)>, addr: bv8, prior: bv8)
    requires forall i :: 0 <= i < |writes| ==> writes[i].0 != addr
    ensures Configured(writes, addr, prior) == prior
    decreases |writes|
  {
    if |writes| > 0 {
      assert forall i :: 0 <= i < |writes[1..]| ==> writes[1..][i] == writes[i + 1];
      ConfiguredUntouched(writes[1..], addr, prior);
    }
  }

  /** AntennaOn touches no register other than TxControlReg. */
  lemma AntennaOnPreserves(init: bv8 -> bv8, log: seq<Xfer>, addr: bv8)
    requires addr != TxControlReg
    ensures Recall(init, AntennaOn(MemoryChip(init), log), addr) == Recall(init, log, addr)
  {
    var chip := MemoryChip(init);
    var check := Read(chip, log, TxControlReg);
    assert check.log == log + [check.log[|log|]];
    RecallAfterRead(init, log, check.log[|log|], addr);
    if check.value & 0x03 == 0 {
      var second := Read(chip, check.log, TxControlReg);
      assert second.log == check.log + [second.log[|check.log|]];
      RecallAfterRead(init, check.log, second.log[|check.log|], addr);
      var r := SetBitMask(chip, check.log, TxControlReg, 0x03);
      assert r == second.log + [r[|check.log| + 1]];
      RecallAfterWrite(init, second.log, r[|check.log| + 1], addr);
    }
  }

  /** The registers Init configures are six-bit addresses, distinct, and
      none of them is TxControlReg. */
  lemma InitAddresses()
    ensures forall i :: 0 <= i < |InitWrites| ==> ValidAddr(InitWrites[i].0)
    ensures forall i, j :: 0 <= i < |InitWrites| && 0 <= j < |InitWrites| && i != j ==>
              InitWrites[i].0 != InitWrites[j].0
    ensures forall i :: 0 <= i < |InitWrites| ==> InitWrites[i].0 != TxControlReg
  {
  }

  /** On a register file, Init leaves every configured register holding its
      configuration value and the antenna enabled. */
  lemma InitConfigures(init: bv8 -> bv8, log: seq<Xfer>)
    ensures var r := Init(MemoryChip(init), log);
            && (forall k :: 0 <= k < |InitWrites| ==> Recall(init, r, InitWrites[k].0) == InitWrites[k].1)
            && Recall(init, r, TxControlReg) & 0x03 != 0
  {
    var chip := MemoryChip(init);
    var w := WriteAll(chip, log, InitWrites);
    InitAddresses();
    forall k | 0 <= k < |InitWrites|
      ensures Recall(init, Init(chip, log), InitWrites[k].0) == InitWrites[k].1
    {
      var addr := InitWrites[k].0;
      RecallWriteAll(init, log, InitWrites, addr);
      ConfiguredOnce(InitWrites, k, Recall(init, log, addr));
      AntennaOnPreserves(init, w, addr);
    }
    AntennaOnEnables(init, w);
  }
}
