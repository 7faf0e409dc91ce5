/** The command engine of the MFRC522 driver (`ToCard`): arm the interrupt
    and FIFO registers, load the send buffer, start the command, busy-poll
    CommIrqReg under a counter of 2000, classify the outcome and drain the
    response from the FIFO. */
module Engine {
  import opened Registers
  import opened Bus

  /** The driver's status codes (0, 1 and 2 in the driver). */
  datatype Status = MI_OK | MI_NOTAGERR | MI_ERR

  /** The triple `(status, backData, backLen)` ToCard returns. */
  datatype CardResult = CardResult(status: Status, backData: seq<bv8>, backLen: int)

  /** A result together with the bus log after the call. */
  datatype Run = Run(result: CardResult, log: seq<Xfer>)

  /** Where the poll loop stopped: the last CommIrqReg reading, the counter
      `i` and the log. */
  datatype PollEnd = PollEnd(lastIrq: bv8, counter: nat, log: seq<Xfer>)

  /** Interrupt-enable mask and the bits ToCard waits for. */
  datatype Masks = Masks(irqEn: bv8, waitIRq: bv8)

  /** Initial value of the poll counter. */
  const POLL_LIMIT: nat := 2000

  /** ErrorReg bits that make a completed command fail. */
  const ERROR_BITS: bv8 := 0x1B

  /** Masks chosen by command: AUTHENT and TRANSCEIVE have their own, every
      other command waits on nothing but the timer bit. */
  function IrqMasks(command: bv8): (m: Masks)
    ensures m.waitIRq & !m.irqEn == 0
    ensures m.irqEn & 0x01 != 0 <==> command == PCD_TRANSCEIVE
    ensures command == PCD_AUTHENT ==> m == Masks(0x12, 0x10)
    ensures command == PCD_TRANSCEIVE ==> m == Masks(0x77, 0x30)
    ensures command != PCD_AUTHENT && command != PCD_TRANSCEIVE ==> m == Masks(0, 0)
  {
    if command == PCD_AUTHENT then Masks(0x12, 0x10)
    else if command == PCD_TRANSCEIVE then Masks(0x77, 0x30)
    else Masks(0, 0)
  }

  /** A CommIrqReg reading that ends the poll loop: the timer bit or one of
      the awaited bits. */
  predicate Completed(irq: bv8, waitIRq: bv8) {
    irq & 0x01 != 0 || irq & waitIRq != 0
  }

  /** `polls` is a nonempty run of CommIrqReg reads in which no reading
      but possibly the last shows completion. */
  predicate PollRun(polls: seq<Xfer>, waitIRq: bv8) {
    && |polls| > 0
    && (forall k :: 0 <= k < |polls| ==> polls[k].op == ReadReg(CommIrqReg))
    && (forall k :: 0 <= k < |polls| - 1 ==> !Completed(polls[k].rx, waitIRq))
  }


  /** Number of FIFO bytes drained for a FIFO level: at least 1, at most
      MAX_LEN. */
  function DrainCount(level: bv8): (n: nat)
    ensures 1 <= n <= MAX_LEN
    ensures 1 <= level as int <= MAX_LEN ==> n == level as int
    ensures level == 0 ==> n == 1
    ensures level as int > MAX_LEN ==> n == MAX_LEN
  {
    if level == 0 then 1 else if level as int > MAX_LEN then MAX_LEN else level as int
  }

  /** Bit length of the response: whole bytes, except that a nonzero
      `lastBits` counts only that many bits of the last byte.  The FIFO
      level is taken as read, before any clamping, so compared with the
      bytes drained: for a level the FIFO can hold it falls within the last
      drained byte; an empty FIFO still drains one byte but reports no bits,
      or a negative count when `lastBits` is nonzero; a level above MAX_LEN
      reports more bits than were drained. */
  function BitLength(level: bv8, lastBits: bv8): (bits: int)
    ensures lastBits < 8 && 1 <= level as int <= MAX_LEN ==>
              8 * (DrainCount(level) - 1) < bits <= 8 * DrainCount(level)
    ensures lastBits < 8 && level == 0 ==> bits <= 0 && (lastBits != 0 <==> bits < 0)
    ensures lastBits < 8 && level as int > MAX_LEN ==> bits > 8 * DrainCount(level)
  {
    if lastBits != 0 then (level as int - 1) * 8 + lastBits as int else level as int * 8
  }

  /** `writes` loads the bytes of `data` into FIFODataReg, in order. */
  predicate Loaded(writes: seq<Xfer>, data: seq<bv8>) {
    && |writes| == |data|
    && forall k :: 0 <= k < |writes| ==> writes[k].op == WriteReg(FIFODataReg, data[k])
  }

  /** `fetched` is one FIFODataReg read per byte of `data`, and `data`
      holds the bytes read, in order. */
  predicate Drained(fetched: seq<Xfer>, data: seq<bv8>) {
    && |fetched| == |data|
    && forall k :: 0 <= k < |fetched| ==> fetched[k] == Xfer(ReadReg(FIFODataReg), data[k])
  }

  /** `log` ends with the FIFOLevelReg read, the ControlReg read and the
      FIFO drain that produced `res`. */
  predicate DrainedTail(log: seq<Xfer>, res: CardResult) {
    var start := |log| - |res.backData| - 2;
    && 0 <= start
    && log[start].op == ReadReg(FIFOLevelReg)
    && log[start + 1].op == ReadReg(ControlReg)
    && res.backLen == BitLength(log[start].rx, log[start + 1].rx & 0x07)
    && |res.backData| == DrainCount(log[start].rx)
    && Drained(log[start + 2..], res.backData)
  }

  /** The six transfers of step 2: enable interrupts (with bit 7 set),
      clear bit 7 of CommIrqReg, set the FIFO flush bit, cancel the running
      command. */
  predicate Prepared(s: seq<Xfer>, m: Masks) {
    && |s| == 6
    && s[0].op == WriteReg(CommIEnReg, m.irqEn | 0x80)
    && s[1].op == ReadReg(CommIrqReg)
    && s[2].op == WriteReg(CommIrqReg, s[1].rx & 0x7F)
    && s[3].op == ReadReg(FIFOLevelReg)
    && s[4].op == WriteReg(FIFOLevelReg, s[3].rx | 0x80)
    && s[5].op == WriteReg(CommandReg, PCD_IDLE)
  }

  /** The transfers of step 4: the command write and, for TRANSCEIVE, the
      read-modify-write setting StartSend (bit 7 of BitFramingReg). */
  predicate Started(s: seq<Xfer>, command: bv8) {
    && |s| == (if command == PCD_TRANSCEIVE then 3 else 1)
    && s[0].op == WriteReg(CommandReg, command)
    && (command == PCD_TRANSCEIVE ==>
          s[1].op == ReadReg(BitFramingReg) && s[2].op == WriteReg(BitFramingReg, s[1].rx | 0x80))
  }

  /** Number of transfers steps 2-4 make. */
  function ArmLength(command: bv8, sendData: seq<bv8>): nat {
    6 + |sendData| + (if command == PCD_TRANSCEIVE then 3 else 1)
  }

  /** From `start` on, `log` holds steps 2-4 of ToCard: preparation, the
      FIFO load of `sendData`, and the start of `command`. */
  predicate Armed(log: seq<Xfer>, start: nat, command: bv8, sendData: seq<bv8>, m: Masks) {
    && start + ArmLength(command, sendData) <= |log|
    && Prepared(log[start..start + 6], m)
    && Loaded(log[start + 6..start + 6 + |sendData|], sendData)
    && Started(log[start + 6 + |sendData|..start + ArmLength(command, sendData)], command)
  }

  /** Later transfers do not disturb the arming steps. */
  lemma ArmedExtends(log: seq<Xfer>, prefix: seq<Xfer>, start: nat, command: bv8, sendData: seq<bv8>, m: Masks)
    requires Extends(log, prefix) && Armed(prefix, start, command, sendData, m)
    ensures Armed(log, start, command, sendData, m)
  {
    var d := |sendData|;
    ExtendsSegment(log, prefix, start, start + 6);
    ExtendsSegment(log, prefix, start + 6, start + 6 + d);
    ExtendsSegment(log, prefix, start + 6 + d, start + ArmLength(command, sendData));
  }

  /** `log[at]` and `log[at + 1]` clear the StartSend bit of BitFramingReg. */
  predicate StartSendCleared(log: seq<Xfer>, at: nat) {
    && at + 2 <= |log|
    && log[at].op == ReadReg(BitFramingReg)
    && log[at + 1].op == WriteReg(BitFramingReg, log[at].rx & 0x7F)
  }

  /** A timeout: POLL_LIMIT readings after `start` without an earlier
      completion, the StartSend clear, and nothing else. */
  predicate TimedOut(log: seq<Xfer>, start: nat, waitIRq: bv8) {
    && |log| == start + POLL_LIMIT + 2
    && PollRun(log[start..start + POLL_LIMIT], waitIRq)
    && StartSendCleared(log, start + POLL_LIMIT)
  }

  /** Polling after `start` saw a completion on reading `p - 1`, within the
      first POLL_LIMIT - 1 readings, then StartSend was cleared and ErrorReg
      read at `p + 2`. */
  predicate CompletedAt(log: seq<Xfer>, start: nat, p: nat, waitIRq: bv8) {
    && start < p
    && p + 3 <= |log|
    && p - start < POLL_LIMIT
    && PollRun(log[start..p], waitIRq)
    && Completed(log[p - 1].rx, waitIRq)
    && StartSendCleared(log, p)
    && log[p + 2].op == ReadReg(ErrorReg)
  }

  /** How the polling after `start` and the ErrorReg check determine the
      status.  MI_ERR is a timeout, or a completion followed by an error
      bit in ErrorReg, which then is the last transfer.  Otherwise the
      error bits are clear, ErrorReg is followed only by the FIFO fetch of
      a TRANSCEIVE, and the status is MI_NOTAGERR exactly when the
      completing reading has the timer bit set and enabled. */
  predicate Outcome(log: seq<Xfer>, start: nat, command: bv8, res: CardResult) {
    var m := IrqMasks(command);
    if res.status == MI_ERR then
      || TimedOut(log, start, m.waitIRq)
      || (&& 3 <= |log|
          && CompletedAt(log, start, |log| - 3, m.waitIRq)
          && log[|log| - 1].rx & ERROR_BITS != 0)
    else
      var p := if command == PCD_TRANSCEIVE then |log| - |res.backData| - 5 else |log| - 3;
      && 0 <= p
      && CompletedAt(log, start, p, m.waitIRq)
      && log[p + 2].rx & ERROR_BITS == 0
      && (res.status == MI_NOTAGERR <==> log[p - 1].rx & m.irqEn & 0x01 != 0)
  }

  /** The polling run followed by the conclusion yields the outcome
      `Outcome` describes: a timeout when the counter ran out, otherwise a
      completion classified by the ErrorReg reading. */
  lemma PolledOutcome(log: seq<Xfer>, start: nat, p: nat, command: bv8, m: Masks,
                      lastIrq: bv8, counter: nat, res: CardResult)
    requires m == IrqMasks(command)
    requires start < p && p == start + (POLL_LIMIT - counter) && counter < POLL_LIMIT
    requires p <= |log| && PollRun(log[start..p], m.waitIRq) && lastIrq == log[p - 1].rx
    requires counter == 0 || Completed(lastIrq, m.waitIRq)
    requires StartSendCleared(log, p)
    requires counter == 0 ==> res == CardResult(MI_ERR, [], 0) && |log| == p + 2
    requires counter != 0 ==>
               && |log| >= p + 3
               && log[p + 2].op == ReadReg(ErrorReg)
               && (res.status == MI_ERR <==> log[p + 2].rx & ERROR_BITS != 0)
               && (res.status == MI_NOTAGERR <==>
                     log[p + 2].rx & ERROR_BITS == 0 && lastIrq & m.irqEn & 0x01 != 0)
    requires res.status == MI_ERR || command != PCD_TRANSCEIVE ==> |log| <= p + 3
    requires res.status != MI_ERR && command == PCD_TRANSCEIVE ==> |log| == p + 5 + |res.backData|
    ensures Outcome(log, start, command, res)
  {
    if counter == 0 {
      assert TimedOut(log, start, m.waitIRq);
    } else {
      assert CompletedAt(log, start, p, m.waitIRq);
    }
  }

  /** The counter is decremented before it is tested, so a completion
      first seen on the last permitted reading is still a timeout: when
      none of the first POLL_LIMIT - 1 readings after `start` shows
      completion, the only possible outcome is MI_ERR by timeout. */
  lemma LateCompletionIsTimeout(log: seq<Xfer>, start: nat, command: bv8, res: CardResult)
    requires start + POLL_LIMIT <= |log|
    requires forall k :: start <= k < start + POLL_LIMIT - 1 ==> !Completed(log[k].rx, IrqMasks(command).waitIRq)
    requires Outcome(log, start, command, res)
    ensures res.status == MI_ERR && TimedOut(log, start, IrqMasks(command).waitIRq)
  {
  }

  /** A completion recorded at `p - 1` is the chip's answer to a
      CommIrqReg read there. */
  lemma CompletionAnswered(chip: Chip, log: seq<Xfer>, start: nat, p: nat, waitIRq: bv8)
    requires Answered(chip, log, start) && CompletedAt(log, start, p, waitIRq)
    ensures Completed(chip(log[..p - 1], Encode(ReadReg(CommIrqReg))), waitIRq)
  {
    assert log[start..p][p - 1 - start] == log[p - 1];
  }

  /** Against a card that never raises a completion bit in CommIrqReg, the
      only outcome of the answered polling after `start` is a timeout with
      MI_ERR. */
  lemma QuietChipTimesOut(chip: Chip, log: seq<Xfer>, start: nat, command: bv8, res: CardResult)
    requires forall l: seq<Xfer> :: !Completed(chip(l, Encode(ReadReg(CommIrqReg))), IrqMasks(command).waitIRq)
    requires Answered(chip, log, start)
    requires Outcome(log, start, command, res)
    ensures res.status == MI_ERR && TimedOut(log, start, IrqMasks(command).waitIRq)
  {
    var w := IrqMasks(command).waitIRq;
    if !TimedOut(log, start, w) {
      var p := if res.status == MI_ERR then |log| - 3
               else if command == PCD_TRANSCEIVE then |log| - |res.backData| - 5 else |log| - 3;
      CompletionAnswered(chip, log, start, p, w);
      assert false;
    }
  }

  /** The chip that answers 0 to everything: ToCard times out. */
  lemma SilentChipTimesOut(log: seq<Xfer>, start: nat, command: bv8, res: CardResult)
    requires Answered((l: seq<Xfer>, f: Frame) => 0, log, start)
    requires Outcome(log, start, command, res)
    ensures res.status == MI_ERR && |log| == start + POLL_LIMIT + 2
  {
    QuietChipTimesOut((l: seq<Xfer>, f: Frame) => 0, log, start, command, res);
  }

  /** Step 2 of ToCard: enable interrupts, clear the interrupt flags, flush
      the FIFO and cancel the running command. */
  method Prepare(chip: Chip, log: seq<Xfer>, m: Masks) returns (r: seq<Xfer>)
    ensures |r| == |log| + 6 && Extends(r, log)
    ensures Prepared(r[|log|..|r|], m)
    ensures Answered(chip, r, |log|)
  {
    var l1 := Write(chip, log, CommIEnReg, m.irqEn | 0x80);
    var l2 := ClearBitMask(chip, l1, CommIrqReg, 0x80);
    var l3 := SetBitMask(chip, l2, FIFOLevelReg, 0x80);
    r := Write(chip, l3, CommandReg, PCD_IDLE);
    assert r[|log|] == l1[|log|];
    assert r[|log| + 1] == l2[|log| + 1] && r[|log| + 2] == l2[|log| + 2];
    assert r[|log| + 3] == l3[|log| + 3] && r[|log| + 4] == l3[|log| + 4];
    ExtendsTrans(l2, l1, log);
    ExtendsTrans(l3, l2, log);
    ExtendsTrans(r, l3, log);
    AnsweredTrans(chip, l2, l1, |log|);
    AnsweredTrans(chip, l3, l2, |log|);
    AnsweredTrans(chip, r, l3, |log|);
  }

  /** Step 3 of ToCard: write every byte of `data` to FIFODataReg, in
      order. */
  method LoadFifo(chip: Chip, log: seq<Xfer>, data: seq<bv8>) returns (r: seq<Xfer>)
    ensures |r| == |log| + |data| && Extends(r, log)
    ensures Loaded(r[|log|..|r|], data)
    ensures Answered(chip, r, |log|)
  {
    r := log;
    var j := 0;
    while j < |data|
      invariant 0 <= j <= |data|
      invariant |r| == |log| + j && Extends(r, log)
      invariant Loaded(r[|log|..|r|], data[..j])
      invariant Answered(chip, r, |log|)
    {
      var next := Write(chip, r, FIFODataReg, data[j]);
      ExtendsTrans(next, r, log);
      AnsweredTrans(chip, next, r, |log|);
      ExtendsSegment(next, r, |log|, |r|);
      assert data[..j + 1] == data[..j] + [data[j]];
      r, j := next, j + 1;
    }
    assert data[..j] == data;
  }

  /** Step 4 of ToCard: write the command and, for TRANSCEIVE, set the
      StartSend bit of BitFramingReg. */
  method Start(chip: Chip, log: seq<Xfer>, command: bv8) returns (r: seq<Xfer>)
    ensures |r| > |log| && Extends(r, log)
    ensures Started(r[|log|..|r|], command)
    ensures Answered(chip, r, |log|)
  {
    r := Write(chip, log, CommandReg, command);
    if command == PCD_TRANSCEIVE {
      var l := SetBitMask(chip, r, BitFramingReg, 0x80);
      assert l[|log|] == r[|log|];
      ExtendsTrans(l, r, log);
      AnsweredTrans(chip, l, r, |log|);
      r := l;
    }
  }

  /** Steps 1-4 of ToCard: prepare, load the FIFO with `sendData`, start. */
  method Arm(chip: Chip, log: seq<Xfer>, command: bv8, sendData: seq<bv8>, m: Masks) returns (r: seq<Xfer>)
    ensures |r| == |log| + ArmLength(command, sendData) && Extends(r, log)
    ensures Armed(r, |log|, command, sendData, m)
    ensures Answered(chip, r, |log|)
  {
    var prepared := Prepare(chip, log, m);
    var loaded := LoadFifo(chip, prepared, sendData);
    r := Start(chip, loaded, command);
    ExtendsTrans(r, loaded, prepared);
    ExtendsTrans(r, prepared, log);
    AnsweredTrans(chip, r, loaded, |prepared|);
    AnsweredTrans(chip, r, prepared, |log|);
    ExtendsSegment(r, prepared, |log|, |prepared|);
    ExtendsSegment(r, loaded, |prepared|, |loaded|);
  }

  /** Step 5 of ToCard: read CommIrqReg and decrement the counter until the
      counter reaches zero or a reading shows completion.  The counter is
      decremented before the test, so a completion first seen on the last
      permitted read still leaves it at zero. */
  method Poll(chip: Chip, log: seq<Xfer>, waitIRq: bv8) returns (r: PollEnd)
    ensures r.counter < POLL_LIMIT
    ensures |r.log| == |log| + (POLL_LIMIT - r.counter) && Extends(r.log, log)
    ensures PollRun(r.log[|log|..|r.log|], waitIRq)
    ensures r.lastIrq == r.log[|r.log| - 1].rx
    ensures r.counter == 0 || Completed(r.lastIrq, waitIRq)
    ensures Answered(chip, r.log, |log|)
  {
    var i: nat := POLL_LIMIT;
    var cur := log;
    while true
      invariant 0 < i <= POLL_LIMIT
      invariant |cur| == |log| + (POLL_LIMIT - i) && Extends(cur, log)
      invariant forall k :: |log| <= k < |cur| ==>
                  cur[k].op == ReadReg(CommIrqReg) && !Completed(cur[k].rx, waitIRq)
      invariant Answered(chip, cur, |log|)
      decreases i
    {
      var n := Read(chip, cur, CommIrqReg);
      ExtendsTrans(n.log, cur, log);
      AnsweredTrans(chip, n.log, cur, |log|);
      i := i - 1;
      if !(i != 0 && !Completed(n.value, waitIRq)) {
        r := PollEnd(n.value, i, n.log);
        break;
      }
      cur := n.log;
    }
  }

  /** Step 8 of ToCard for TRANSCEIVE: read the FIFO level and the valid
      bits of the last byte, compute the bit length from the raw level and
      read the clamped number of bytes from FIFODataReg. */
  method Fetch(chip: Chip, log: seq<Xfer>, status: Status) returns (r: Run)
    ensures Extends(r.log, log) && |r.log| == |log| + 2 + |r.result.backData|
    ensures r.result.status == status && DrainedTail(r.log, r.result)
    ensures Answered(chip, r.log, |log|)
  {
    var level := Read(chip, log, FIFOLevelReg);
    var control := Read(chip, level.log, ControlReg);
    var count := DrainCount(level.value);
    var data: seq<bv8> := [];
    var cur := control.log;
    while |data| < count
      invariant |data| <= count
      invariant |cur| == |control.log| + |data| && Extends(cur, control.log)
      invariant Drained(cur[|control.log|..|cur|], data)
      invariant Answered(chip, cur, |control.log|)
    {
      var b := Read(chip, cur, FIFODataReg);
      ExtendsTrans(b.log, cur, control.log);
      AnsweredTrans(chip, b.log, cur, |control.log|);
      ExtendsSegment(b.log, cur, |control.log|, |cur|);
      data, cur := data + [b.value], b.log;
    }
    assert cur[|log|] == level.log[|log|];
    assert cur[|log| + 1] == control.log[|log| + 1];
    ExtendsTrans(cur, control.log, level.log);
    ExtendsTrans(cur, level.log, log);
    AnsweredTrans(chip, cur, control.log, |level.log|);
    AnsweredTrans(chip, cur, level.log, |log|);
    r := Run(CardResult(status, data, BitLength(level.value, control.value & 0x07)), cur);
  }

  /** Steps 6-8 of ToCard: clear StartSend; on a timeout fail, otherwise
      read ErrorReg, fail on an error bit, and else succeed (MI_NOTAGERR
      when the completing reading has the timer bit set and enabled),
      fetching the response of a TRANSCEIVE. */
  method Conclude(chip: Chip, log: seq<Xfer>, command: bv8, m: Masks, lastIrq: bv8, counter: nat) returns (r: Run)
    requires m == IrqMasks(command)
    ensures Extends(r.log, log) && StartSendCleared(r.log, |log|)
    ensures Answered(chip, r.log, |log|)
    ensures counter == 0 ==> r.result == CardResult(MI_ERR, [], 0) && |r.log| == |log| + 2
    ensures counter != 0 ==>
              && |r.log| >= |log| + 3
              && r.log[|log| + 2].op == ReadReg(ErrorReg)
              && (r.result.status == MI_ERR <==> r.log[|log| + 2].rx & ERROR_BITS != 0)
              && (r.result.status == MI_NOTAGERR <==>
                    r.log[|log| + 2].rx & ERROR_BITS == 0 && lastIrq & m.irqEn & 0x01 != 0)
    ensures r.result.status == MI_ERR || command != PCD_TRANSCEIVE ==>
              r.result.backData == [] && r.result.backLen == 0 && |r.log| <= |log| + 3
    ensures r.result.status != MI_ERR && command == PCD_TRANSCEIVE ==>
              |r.log| == |log| + 5 + |r.result.backData| && DrainedTail(r.log, r.result)
  {
    var cleared := ClearBitMask(chip, log, BitFramingReg, 0x80);
    if counter == 0 {
      return Run(CardResult(MI_ERR, [], 0), cleared);
    }
    var err := Read(chip, cleared, ErrorReg);
    ExtendsTrans(err.log, cleared, log);
    AnsweredTrans(chip, err.log, cleared, |log|);
    assert err.log[|log|] == cleared[|log|] && err.log[|log| + 1] == cleared[|log| + 1];
    if err.value & ERROR_BITS != 0 {
      return Run(CardResult(MI_ERR, [], 0), err.log);
    }
    var status := if lastIrq & m.irqEn & 0x01 != 0 then MI_NOTAGERR else MI_OK;
    if command != PCD_TRANSCEIVE {
      return Run(CardResult(status, [], 0), err.log);
    }
    r := Fetch(chip, err.log, status);
    ExtendsTrans(r.log, err.log, log);
    AnsweredTrans(chip, r.log, err.log, |log|);
    assert r.log[|log|] == err.log[|log|] && r.log[|log| + 1] == err.log[|log| + 1];
    assert r.log[|log| + 2] == err.log[|log| + 2];
  }

  /** Steps 5-8 of ToCard, once the chip is armed; `start` names the
      length of the armed log, where polling begins. */
  method Finish(chip: Chip, armed: seq<Xfer>, start: nat, command: bv8) returns (r: Run)
    requires start == |armed|
    ensures Extends(r.log, armed) && |r.log| > |armed|
    ensures |r.result.backData| <= MAX_LEN
    ensures r.result.status == MI_ERR ==> r.result.backData == [] && r.result.backLen == 0
    ensures r.result.status == MI_NOTAGERR ==> command == PCD_TRANSCEIVE
    ensures command != PCD_TRANSCEIVE ==> r.result.backData == [] && r.result.backLen == 0
    ensures command == PCD_TRANSCEIVE && r.result.status != MI_ERR ==> DrainedTail(r.log, r.result)
    ensures Outcome(r.log, start, command, r.result)
    ensures Answered(chip, r.log, |armed|)
  {
    var m := IrqMasks(command);
    var polled := Poll(chip, armed, m.waitIRq);
    r := Conclude(chip, polled.log, command, m, polled.lastIrq, polled.counter);
    AnsweredTrans(chip, r.log, polled.log, |armed|);
    var p := |polled.log|;
    ExtendsSegment(r.log, polled.log, start, p);
    assert r.log[p - 1] == polled.log[p - 1];
    ExtendsTrans(r.log, polled.log, armed);
    PolledOutcome(r.log, start, p, command, m, polled.lastIrq, polled.counter, r.result);
  }

  /** ToCard: run `command` with `sendData` and report status, response
      bytes and response bit length. */
  method ToCard(chip: Chip, log: seq<Xfer>, command: bv8, sendData: seq<bv8>) returns (r: Run)
    ensures Extends(r.log, log) && |r.log| > |log| + ArmLength(command, sendData)
    ensures Armed(r.log, |log|, command, sendData, IrqMasks(command))
    ensures |r.result.backData| <= MAX_LEN
    ensures r.result.status == MI_ERR ==> r.result.backData == [] && r.result.backLen == 0
    ensures r.result.status == MI_NOTAGERR ==> command == PCD_TRANSCEIVE
    ensures command != PCD_TRANSCEIVE ==> r.result.backData == [] && r.result.backLen == 0
    ensures command == PCD_TRANSCEIVE && r.result.status != MI_ERR ==> DrainedTail(r.log, r.result)
    ensures Outcome(r.log, |log| + ArmLength(command, sendData), command, r.result)
    ensures Answered(chip, r.log, |log|)
  {
    var m := IrqMasks(command);
    var armed := Arm(chip, log, command, sendData, m);
    r := Finish(chip, armed, |log| + ArmLength(command, sendData), command);
    ExtendsTrans(r.log, armed, log);
    AnsweredTrans(chip, r.log, armed, |log|);
    ArmedExtends(r.log, armed, |log|, command, sendData, m);
  }
}
