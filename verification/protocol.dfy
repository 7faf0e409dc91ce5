/** The card-level operations of the MFRC522 driver built on ToCard:
    `Request` (REQA/WUPA), `Anticoll` (anticollision, which yields the
    four-byte serial number and its XOR check byte) and the `SelectTag`
    stub (Edge_Coral/mcrf.py, lines 144-163). */
module Protocol {
  import opened Registers
  import opened Bus
  import opened Engine

  /** What a card-level call returns: its status, the ToCard triple it saw
      (`Request` hands back `card.backLen` as backBits, `Anticoll` hands
      back `card.backData`), and the log after the call. */
  datatype Reply = Reply(status: Status, card: CardResult, log: seq<Xfer>)

  /** Bit length of a complete answer to REQA: two bytes (0x10). */
  const ATQA_BITS: int := 0x10

  /** The anticollision command bytes: SEL (0x93) and NVB 0x20. */
  const ANTICOLL_FRAME: seq<bv8> := [PICC_ANTICOLL, 0x20]

  /** XOR of all bytes of `s`. */
  function XorAll(s: seq<bv8>): bv8 {
    if s == [] then 0 else XorAll(s[..|s| - 1]) ^ s[|s| - 1]
  }

  /** An anticollision answer the driver accepts: five bytes whose last is
      the XOR of the first four, which is to say five bytes that XOR to 0. */
  predicate ValidUid(d: seq<bv8>): (ok: bool)
    ensures ok <==> |d| == 5 && XorAll(d) == 0
  {
    if |d| != 5 then false
    else
      assert d[..|d| - 1] == d[..4];
      XorAll(d[..4]) == d[4]
  }

  /** The check byte loop of Anticoll: XOR the first four bytes into 0. */
  method Checksum(d: seq<bv8>) returns (check: bv8)
    requires |d| == 5
    ensures check == XorAll(d[..4])
    ensures check == d[4] <==> XorAll(d) == 0
  {
    check := 0;
    var i := 0;
    while i < 4
      invariant 0 <= i <= 4
      invariant check == XorAll(d[..i])
    {
      ghost var next := d[..i + 1];
      assert next[..|next| - 1] == d[..i] && next[|next| - 1] == d[i];
      assert XorAll(next) == XorAll(d[..i]) ^ d[i];
      check := check ^ d[i];
      i := i + 1;
    }
    assert d[..5] == d;
    assert d[..5][..4] == d[..4];
  }

  /** The only FIFO reading that gives a 16-bit answer is a level of 2 with
      no partial last byte. */
  lemma BitLength16(level: bv8, lastBits: bv8)
    requires lastBits < 8
    ensures BitLength(level, lastBits) == ATQA_BITS <==> level == 2 && lastBits == 0
  {
  }

  /** What Request promises about a reply whose log carries the call from
      `start` on: the BitFramingReg write, the armed TRANSCEIVE of
      `reqMode`, ToCard's outcome over the chip's readings, and a status
      that is MI_OK exactly when ToCard succeeded with 16 response bits.
      The card triple is ToCard's: drained from the FIFO unless it failed,
      and empty with bit length 0 when it did. */
  predicate RequestMeets(start: nat, reqMode: bv8, r: Reply) {
    && |r.log| > start + 1
    && r.log[start].op == WriteReg(BitFramingReg, 0x07)
    && Armed(r.log, start + 1, PCD_TRANSCEIVE, [reqMode], IrqMasks(PCD_TRANSCEIVE))
    && Outcome(r.log, start + 1 + ArmLength(PCD_TRANSCEIVE, [reqMode]), PCD_TRANSCEIVE, r.card)
    && (r.status == MI_OK <==> r.card.status == MI_OK && r.card.backLen == ATQA_BITS)
    && (r.status == MI_OK || r.status == MI_ERR)
    && (r.status == MI_OK ==> |r.card.backData| == 2)
    && (r.card.status != MI_ERR ==> DrainedTail(r.log, r.card))
    && (r.card.status == MI_ERR ==> r.card.backData == [] && r.card.backLen == 0)
  }

  /** Request: set BitFramingReg to 7 valid bits in the last byte, then
      TRANSCEIVE the one-byte `reqMode`.  The call succeeds only when ToCard
      succeeded with exactly 16 response bits, which means a FIFO level of
      2 and two response bytes; any other outcome, MI_NOTAGERR included,
      becomes MI_ERR. */
  method Request(chip: Chip, log: seq<Xfer>, reqMode: bv8) returns (r: Reply)
    ensures Extends(r.log, log)
    ensures RequestMeets(|log|, reqMode, r)
    ensures Answered(chip, r.log, |log|)
  {
    var framed := Write(chip, log, BitFramingReg, 0x07);
    var run := ToCard(chip, framed, PCD_TRANSCEIVE, [reqMode]);
    ExtendsTrans(run.log, framed, log);
    AnsweredTrans(chip, run.log, framed, |log|);
    assert run.log[|log|] == framed[|log|];
    var status := if run.result.status != MI_OK || run.result.backLen != ATQA_BITS then MI_ERR else MI_OK;
    r := Reply(status, run.result, run.log);
    if status == MI_OK {
      var start := |run.log| - |run.result.backData| - 2;
      BitLength16(run.log[start].rx, run.log[start + 1].rx & 0x07);
    }
  }

  /** What Anticoll promises about a reply whose log carries the call from
      `start` on: the BitFramingReg write, the armed TRANSCEIVE of SEL/NVB,
      ToCard's outcome over the chip's readings, a failed ToCard status
      passed through, and on ToCard's MI_OK a status that is MI_OK exactly
      for a valid answer.  The card triple is ToCard's: drained from the
      FIFO unless it failed, and empty with bit length 0 when it did. */
  predicate AnticollMeets(start: nat, r: Reply) {
    && |r.log| > start + 1
    && r.log[start].op == WriteReg(BitFramingReg, 0x00)
    && Armed(r.log, start + 1, PCD_TRANSCEIVE, ANTICOLL_FRAME, IrqMasks(PCD_TRANSCEIVE))
    && Outcome(r.log, start + 1 + ArmLength(PCD_TRANSCEIVE, ANTICOLL_FRAME), PCD_TRANSCEIVE, r.card)
    && (r.card.status != MI_OK ==> r.status == r.card.status)
    && (r.card.status == MI_OK ==> (r.status == MI_OK || r.status == MI_ERR))
    && (r.card.status == MI_OK ==> (r.status == MI_OK <==> ValidUid(r.card.backData)))
    && (r.card.status != MI_ERR ==> DrainedTail(r.log, r.card))
    && (r.card.status == MI_ERR ==> r.card.backData == [] && r.card.backLen == 0)
  }

  /** Anticoll: clear BitFramingReg, TRANSCEIVE SEL/NVB, and accept the
      answer only when it is five bytes with a matching check byte.  A
      failed ToCard status (MI_NOTAGERR included) is passed through; the
      response bytes are returned whatever the status. */
  method Anticoll(chip: Chip, log: seq<Xfer>) returns (r: Reply)
    ensures Extends(r.log, log)
    ensures AnticollMeets(|log|, r)
    ensures Answered(chip, r.log, |log|)
  {
    var framed := Write(chip, log, BitFramingReg, 0x00);
    var run := ToCard(chip, framed, PCD_TRANSCEIVE, ANTICOLL_FRAME);
    ExtendsTrans(run.log, framed, log);
    AnsweredTrans(chip, run.log, framed, |log|);
    assert run.log[|log|] == framed[|log|];
    var status := run.result.status;
    var data := run.result.backData;
    if status == MI_OK {
      if |data| == 5 {
        var check := Checksum(data);
        if check != data[4] {
          status := MI_ERR;
        }
      } else {
        status := MI_ERR;
      }
    }
    r := Reply(status, run.result, run.log);
  }

  /** SelectTag is a stub: it touches no register and always succeeds. */
  method SelectTag(log: seq<Xfer>, serNum: seq<bv8>) returns (status: Status, r: seq<Xfer>)
    ensures status == MI_OK && r == log
  {
    return MI_OK, log;
  }

  /** A worked check byte: 4 ^ 210 ^ 88 ^ 12 == 130. */
  lemma ValidUidExample()
    ensures ValidUid([4, 210, 88, 12, 130])
    ensures !ValidUid([4, 210, 88, 12, 131])
  {
    var d: seq<bv8> := [4, 210, 88, 12, 130];
    var p1: seq<bv8> := [4];
    var p2: seq<bv8> := [4, 210];
    var p3: seq<bv8> := [4, 210, 88];
    assert p1[..0] == [] && XorAll(p1) == 4;
    assert p2[..1] == p1 && XorAll(p2) == 4 ^ 210;
    assert p3[..2] == p2 && XorAll(p3) == 4 ^ 210 ^ 88;
    var p4: seq<bv8> := [4, 210, 88, 12];
    assert p4[..3] == p3 && XorAll(p4) == 130;
    var e: seq<bv8> := [4, 210, 88, 12, 131];
    assert d[..4] == p4 && e[..4] == p4;
  }
}
