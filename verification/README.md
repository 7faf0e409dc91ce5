# MFRC522 card reader and access-control loop, in Dafny

This project models the RFID side of an edge access-control station.

- **The reader driver.** `Edge_Coral/mcrf.py`, class `MFRC522`: the register map and command codes of the MFRC522 chip, and the two-byte SPI framing of register reads and writes. It includes the read-modify-write bit-mask helpers, antenna start-up, the fixed `Init` sequence, and the command engine `ToCard`. `ToCard` arms the interrupt and FIFO registers, loads the send buffer, starts the command and busy-polls `CommIrqReg` under a counter of 2000. It then classifies the outcome and drains the response. On top of it sit `Request`, `Anticoll` (with its XOR check byte) and the `SelectTag` stub.
- **The scan loop.** `Edge_Coral/rfid.py`: the scan loop `while continue_reading`. Each pass polls for a card and reads its serial number. It renders the number as the text key `"b0,b1,b2,b3,b4"` and asks the database whether the key is authorized, failing closed. It then either lights the grant LED for two seconds (`grant_access`) and logs the grant, or logs the denial. Finally it calls `StopCrypto1` to end the card session, a method the driver does not define, so the program stops there (see Findings). `end_read` (the SIGINT handler) clears the loop flag.

Modules, one per layer:

| file | module | contents |
|---|---|---|
| `registers.dfy` | `Registers` | constants, register accesses, frame encoding and decoding |
| `bus.dfy` | `Bus` | the transfer log, the chip as a function, register read/write, bit masks, `AntennaOn`, `Init`, and a register-file chip for the lemmas |
| `engine.dfy` | `Engine` | `ToCard` and its steps, with positional contracts on the log |
| `protocol.dfy` | `Protocol` | `Request`, `Anticoll`, `SelectTag`, the UID check byte |
| `uid.dfy` | `UidText` | the comma-joined decimal key and its parse-back |
| `scan.dfy` | `Scan` | the authorization decision, one bus-level scan, and the loop |

How the environment is modelled:

- **The chip.** It is not modelled internally. It is any total function from the transfers so far and the outgoing frame to the byte it clocks back, so every contract holds for every chip behaviour. Every operation promises `Bus.Answered`: each byte it logs is the chip's reply to that transfer's frame, given the transfers before it. Each card-level call also carries its status relation (`Protocol.RequestMeets`, `Protocol.AnticollMeets`) up to the scan loop, so the statuses, data and bit lengths it reports are functions of the chip. `Bus.MemoryChip` is one such chip: a register file in which a read returns what was last written to the six-bit register its frame addresses. The `AntennaOn` and `Init` lemmas are stated over it.
- **The bus state.** It is the log of transfers, `seq<Xfer>`. Each entry holds the register access sent, whose bytes are `Registers.Encode`, and the byte received. The contracts say which transfers each operation appends, in order.
- **The database.** The authorization query is an oracle `string -> Lookup`: a row, no row, no connection, or a failed query. One oracle serves a whole run (see Left out). Access logging, the grant LED signal and the unknown-card record are effects in a trace.
- **Interrupts.** SIGINT is a flag on each loop iteration (`Scan.Tick.interrupted`).

## Model

| member | source | states |
|---|---|---|
| `Registers.Encode` | Edge_Coral/mcrf.py:68-73 | a write is the address byte `(addr << 1) & 0x7E` then the value; a read sets bit 7 of the same address byte and sends 0; bit 0 is always clear |
| `Registers.DecodeEncode` | Edge_Coral/mcrf.py:68-73 | every access to a six-bit register address is recovered from its frame |
| `Registers.Register` | Edge_Coral/mcrf.py:68-73 | the register a frame reaches is the access's address with its upper two bits dropped, since `(addr << 1) & 0x7E` keeps only bits 0-5 |
| `Registers.EncodeInjective` | Edge_Coral/mcrf.py:68-73 | two different register accesses never produce the same frame |
| `Bus.Transfer` | Edge_Coral/mcrf.py:68-73 | one `spi.transfer` of a two-byte frame appends one entry to the log, keeps the earlier log, and records the chip's reply to that frame |
| `Bus.Write` | Edge_Coral/mcrf.py:68-69 | `Write_MFRC522` appends exactly one write transfer, answered by the chip, and keeps the earlier log |
| `Bus.Read` | Edge_Coral/mcrf.py:71-73 | `Read_MFRC522` appends one read transfer; its result is the second byte the chip clocks back for the read frame |
| `Bus.SetBitMask` | Edge_Coral/mcrf.py:75-76 | exactly one read, then one write of the value read with the mask bits set; both transfers answered by the chip |
| `Bus.ClearBitMask` | Edge_Coral/mcrf.py:77-78 | exactly one read, then one write of the value read with the mask bits cleared; both transfers answered by the chip |
| `Bus.MaskBits` | Edge_Coral/mcrf.py:75-78 | the value written back has the mask bits set (or cleared), and every bit outside the mask is as read |
| `Bus.MaskOnRegisterFile` | Edge_Coral/mcrf.py:75-78 | on a register file, SetBitMask leaves the register at its old value with the mask bits set and ClearBitMask at its old value with them cleared (`old & ~mask`); every other register is unchanged |
| `Bus.ReadSeesWrite` | Edge_Coral/mcrf.py:68-73 | on a register file, a read returns the value of the previous write exactly when both frames address the same six-bit register (the address byte keeps only bits 0-5 of the address), and the earlier contents otherwise |
| `Bus.AntennaOn` | Edge_Coral/mcrf.py:80-82 | reads TxControlReg; writes only when both low bits read clear, and then writes them set with the upper bits as re-read; never more than one write |
| `Bus.AntennaOnEnables` | Edge_Coral/mcrf.py:80-82 | on a register file, afterwards a low bit of TxControlReg is set, both are set when both were clear, and the upper six bits are unchanged |
| `Bus.AntennaOnIdempotent` | Edge_Coral/mcrf.py:80-82 | on a register file, a second AntennaOn only reads, so two calls write at most once |
| `Bus.AntennaOnPreserves` | Edge_Coral/mcrf.py:80-82 | AntennaOn changes no register other than TxControlReg |
| `Bus.Init` | Edge_Coral/mcrf.py:86-93 | the seven configuration writes in source order, then AntennaOn starting with its TxControlReg read |
| `Bus.InitConfigures` | Edge_Coral/mcrf.py:86-93 | on a register file, every configured register ends up holding its configuration value and the antenna is enabled |
| `Engine.IrqMasks` | Edge_Coral/mcrf.py:99-107 | masks by command (AUTHENT 0x12/0x10, TRANSCEIVE 0x77/0x30, otherwise 0/0); the awaited bits are always enabled bits; only TRANSCEIVE enables the timer bit |
| `Engine.DrainCount` | Edge_Coral/mcrf.py:137-138 | the number of FIFO bytes drained is the level clamped to 1..MAX_LEN |
| `Engine.BitLength` | Edge_Coral/mcrf.py:134-140 | the reported bit length lies within the last drained byte for levels 1..16; it is 0 or negative for an empty FIFO, negative exactly when lastBits is nonzero; above 16 it exceeds the bits drained |
| `Engine.Prepare` | Edge_Coral/mcrf.py:109-112 | six transfers: enable interrupts with bit 7, clear bit 7 of CommIrqReg, set the FIFO flush bit, write IDLE |
| `Engine.LoadFifo` | Edge_Coral/mcrf.py:114-115 | one FIFODataReg write per send byte, in order, and nothing else |
| `Engine.Start` | Edge_Coral/mcrf.py:116-118 | the command write, followed for TRANSCEIVE (and only then) by a StartSend read-modify-write |
| `Engine.Arm` | Edge_Coral/mcrf.py:109-118 | preparation, FIFO load and start, back to back, in that order |
| `Engine.Poll` | Edge_Coral/mcrf.py:120-125 | between 1 and 2000 CommIrqReg reads, each holding the chip's reply; no reading but the last shows completion; it stops on a completion or when the counter hits 0, which also happens when the 2000th reading completes |
| `Engine.QuietChipTimesOut` | Edge_Coral/mcrf.py:120-129 | against a chip whose CommIrqReg replies never show completion, the only outcome of an answered run is MI_ERR by timeout, after exactly 2000 readings |
| `Engine.SilentChipTimesOut` | Edge_Coral/mcrf.py:120-129 | the chip that answers 0 to every frame makes ToCard time out with MI_ERR |
| `Engine.LateCompletionIsTimeout` | Edge_Coral/mcrf.py:120-129 | if none of the first 1999 readings completes, the only outcome consistent with the log is MI_ERR by timeout, even when the 2000th reading completes |
| `Engine.Fetch` | Edge_Coral/mcrf.py:133-140 | reads the level and ControlReg as the chip answers them, computes the bit length from the raw level, and returns the FIFO bytes in read order, clamped count |
| `Engine.Conclude` | Edge_Coral/mcrf.py:127-140 | StartSend cleared; a timeout gives `(MI_ERR, [], 0)` without reading ErrorReg; otherwise an ErrorReg bit in 0x1B gives MI_ERR; else MI_NOTAGERR exactly when the last reading has the timer bit set and enabled; data only for TRANSCEIVE |
| `Engine.PolledOutcome` | Edge_Coral/mcrf.py:120-132 | the polling run and the conclusion together amount to a timeout, or to a completion classified by ErrorReg |
| `Engine.Finish` | Edge_Coral/mcrf.py:120-142 | the poll-and-conclude half of ToCard meets the outcome relation; MI_ERR carries no data; MI_NOTAGERR only for TRANSCEIVE |
| `Engine.ToCard` | Edge_Coral/mcrf.py:95-142 | the whole command, every reading the chip's reply: arming transfers, the outcome relation over the poll and ErrorReg readings, at most 16 bytes, no data on error or for other commands, and the response drained from the FIFO for a successful TRANSCEIVE |
| `Protocol.BitLength16` | Edge_Coral/mcrf.py:136-147 | a 16-bit response is exactly a FIFO level of 2 with no partial last byte |
| `Protocol.Request` | Edge_Coral/mcrf.py:144-148 | (`Protocol.RequestMeets`) writes 7 to BitFramingReg first, then TRANSCEIVEs `[reqMode]`; the card triple is ToCard's outcome over the chip's readings: drained from the FIFO unless ToCard failed, `[]` and 0 bits when it did; MI_OK exactly when ToCard gave MI_OK with 16 bits, which means two bytes read; every other outcome, MI_NOTAGERR included, is MI_ERR |
| `Protocol.Checksum` | Edge_Coral/mcrf.py:155-157 | the loop computes the XOR of the first four bytes; it matches the fifth exactly when all five XOR to 0 |
| `Protocol.ValidUid` | Edge_Coral/mcrf.py:154-157 | an answer passes the check byte test exactly when it has five bytes that XOR to 0 |
| `Protocol.ValidUidExample` | Edge_Coral/mcrf.py:154-157 | `[4, 210, 88, 12, 130]` passes the check and `[4, 210, 88, 12, 131]` does not |
| `Protocol.Anticoll` | Edge_Coral/mcrf.py:150-159 | (`Protocol.AnticollMeets`) writes 0 to BitFramingReg, TRANSCEIVEs `[0x93, 0x20]`; the card triple is ToCard's outcome over the chip's readings, `[]` and 0 bits after MI_ERR; a ToCard failure is passed through; after MI_OK the result is MI_OK exactly when the answer is five bytes with a matching check byte; the data is returned either way |
| `Protocol.SelectTag` | Edge_Coral/mcrf.py:161-163 | always MI_OK, with no bus traffic |
| `UidText.Decimal` | Edge_Coral/rfid.py:150 | `str(x)` of a natural number: at least one digit, no comma, no leading zero, one digit exactly below 10 |
| `UidText.DecimalRoundTrip` | Edge_Coral/rfid.py:150 | `str(x)` of a byte reads back as the byte: decimal digits, no leading zeros |
| `UidText.SplitJoin` | Edge_Coral/rfid.py:150 | joining comma-free pieces with commas and splitting again gives the pieces back |
| `UidText.UidString` | Edge_Coral/rfid.py:150 | the key `",".join(str(x) for x in uid[:5])` is empty exactly for a card without bytes; `UidText.ParseKeyUidString` and `UidText.UidStringInjective` state what it encodes |
| `UidText.ParseKeyUidString` | Edge_Coral/rfid.py:150 | the key of a card reads back as the values of `uid[:5]` |
| `UidText.UidStringInjective` | Edge_Coral/rfid.py:150 | two cards have the same key only when their first five bytes agree |
| `UidText.UidStringExample` | Edge_Coral/rfid.py:150 | `[4, 210, 88, 12, 130]` has the key `"4,210,88,12,130"` |
| `Scan.IsAuthorized` | Edge_Coral/rfid.py:77-96 | fail-closed: authorized exactly when the lookup found a row; no connection, no row and a failed query all deny |
| `Scan.Decide` | Edge_Coral/rfid.py:147-161 | no effect unless Request and Anticoll both succeeded; then a query of the card's key; a grant only for a key with a row, followed by its authorized log entry; a denial only logs; never an unknown-card record; as written, every successful scan ends in the crash |
| `Scan.ScanOnce` | Edge_Coral/rfid.py:144-164 | Request(REQIDL) comes first and meets `Protocol.RequestMeets`; Anticoll runs exactly when Request returned MI_OK, right after it, and meets `Protocol.AnticollMeets`; a failed Request leaves the bus and the world untouched; once Anticoll ran, the step is `Scan.Decide` on its status and answer, so two MI_OKs lead to the query and then the grant and log or the denial log; every effect rests on a five-byte answer with a valid check byte, keyed by its text; every reading is the chip's reply |
| `Scan.Identify` | Edge_Coral/rfid.py:148-161 | after a successful Request: Anticoll on the bus, meeting `Protocol.AnticollMeets`, then the decision on its status and answer; an MI_OK answer has a valid check byte |
| `Scan.EndRead` | Edge_Coral/rfid.py:115-118 | the SIGINT handler leaves `continue_reading` False |
| `Scan.Loop` | Edge_Coral/rfid.py:144-168 | the reference run: it never enters more iterations than it is given, and it uses them all when it is still reading |
| `Scan.LoopExits` | Edge_Coral/rfid.py:144-168 | every iteration before the last went on uninterrupted; a stop follows an interrupted iteration; a crash happens only as written, in an iteration that read a card |
| `Scan.RunLoop` | Edge_Coral/rfid.py:144-168 | the `while continue_reading` loop yields the run defined by `Scan.Loop`: it stops at an interrupt, at a crash, or when the input runs out |
| `Scan.IntendedRunsUntilInterrupt` | Edge_Coral/rfid.py:144-168 | with the session closed by a method that exists, the loop never crashes and stops right after the first interrupted iteration |
| `Scan.AsWrittenCrashesAtFirstScan` | Edge_Coral/rfid.py:144-166 | as written, the loop crashes in the iteration of the first successful scan, unless an interrupt came earlier |
| `Scan.AsWrittenIsTruncation` | Edge_Coral/rfid.py:144-166 | the run as written is a prefix of the intended run, and equal to it whenever it does not crash |
| `Scan.GrantsAreAuthorized` | Edge_Coral/rfid.py:153-159 | over a whole run, every grant directly follows the query of a key that has a row and directly precedes that key's authorized log entry; no run records an unknown card |
| `Scan.KnownCardThenInterrupt` | Edge_Coral/rfid.py:144-166 | for any card with a row read first and an idle interrupted pass next, the run as written crashes after query, grant and log, and the intended run stops after two iterations with the same effects |
| `Scan.StopCrypto1Crash` | Edge_Coral/rfid.py:161 | a known card read in the first iteration: as written, query, grant and log, then the crash; the intended loop goes on to the next iteration |

## Left out

- Hardware handles. The `periphery` SPI and GPIO objects, `__init__`/`__del__`, and the reset-pin writes (`Edge_Coral/mcrf.py:52-66` and line 85) are left out. The bus is the abstract chip function.
- Chip internals. What the chip does with the registers is not modelled. Replies are whatever the chip function gives, and the datasheet meaning of the constants is outside the source.
- Bus errors. The chip function is total, so an exception raised inside `spi.transfer` (`Edge_Coral/mcrf.py:69` and `:72`) is not modelled.
- Bus.Init: starts after the reset-line write on line 85, and its register-file lemma does not model the soft reset that `PCD_RESETPHASE` triggers on a real chip.
- Constants declared but not used by the modelled code. `DivIrqReg`, `Status2Reg`, `PCD_RECEIVE`, `PCD_TRANSMIT`, `PCD_CALCCRC`, `PICC_AUTHENT1A`, `PICC_READ` and `PICC_WRITE` are carried with their values only. `PICC_SElECTTAG` is spelled `PICC_SELECTTAG`.
- Scan.Decide: `LogAccess` records the call to `log_access`. Whether a row is written depends on the database, and the function swallows its own failures (`Edge_Coral/rfid.py:59-75`), so the model does not track it.
- Scan.Loop: one authorization oracle serves a whole run, so a key gets the same `Lookup` in every iteration. The real query opens a new connection on each call (`Edge_Coral/rfid.py:78-81`), which can fail in one pass and succeed in the next. The per-iteration facts (`Scan.Decide`, `Scan.ScanOnce`) hold for any oracle.
- Database plumbing. `get_db_connection` and the SQL bodies of `is_authorized`, `log_access` and `handle_unauthorized` (`Edge_Coral/rfid.py:50-113`) are left out. They appear only through their outcomes: the `Lookup` oracle and the effects.
- Timing and GPIO. The 0.2 s sleep, `blink_led`, `setup_gpio`, the LED pulse of `grant_access` (one `Grant` effect) and the prints are left out.
- Signals. Signal registration is left out. SIGINT is taken to arrive between iterations, during the sleep where the loop spends its time. An interrupt inside an iteration, where `end_read` closes the LED pin before a later `grant_access` writes to it, is not modelled. Neither is a SIGINT before the first loop test: the handler is installed at `Edge_Coral/rfid.py:124`, the connection probe at line 140 can take seconds, and such a run enters no iteration. `Scan.RunLoop` starts with `continue_reading` True, so every run it models that is given ticks enters at least one iteration.
- `main` before the loop. Reader construction failure and the initial connection probe (`Edge_Coral/rfid.py:133-140`) are left out.
- `Edge_Coral/face_recon.py` is not part of this model. It covers camera capture, inference and their database writes.
- The real `StopCrypto1`. Its effect on the chip is unknown, because the method is missing. The intended variant lets the call return without bus traffic.

## Notes

- **Unknown-card registry.** `handle_unauthorized` (`Edge_Coral/rfid.py:98-113`) would record unknown cards, but nothing calls it. The deny path only logs, and `Scan.GrantsAreAuthorized` shows that no run produces a `RecordUnknown` effect.
- **The crash.** A failed Request or Anticoll only sends the loop round again, but the loop crashes after every successful scan; see Findings.
- **Response bit length.** `ToCard` computes the bit length from the FIFO level before clamping it. An empty FIFO with nonzero `lastBits` gives a negative length, and a level above 16 reports more bits than are returned (`Engine.BitLength`). `Request` only accepts 16 bits, so neither case reaches the scan loop.

## Findings

| source | as written | input that shows it | evidently intended | confidence | as-written member | corrected member |
|---|---|---|---|---|---|---|
| Edge_Coral/rfid.py:161 | after every successful scan the loop calls `MIFAREReader.StopCrypto1()`, which class `MFRC522` does not define; the `AttributeError` is raised outside any `try` and ends the program, after the grant and log effects | Request and Anticoll both MI_OK for `[4, 210, 88, 12, 130]`, with any lookup outcome | end the card session and go back to polling until SIGINT | high; not executed | `Scan.StopCrypto1Crash` | `Scan.IntendedRunsUntilInterrupt` |
