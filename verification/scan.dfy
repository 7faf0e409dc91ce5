/** The access-control loop of Edge_Coral/rfid.py: poll for a card with
    Request, read its serial number with Anticoll, look the key up
    (fail-closed), light the grant LED and log the grant, or log the denial, and
    end the card session.  The session end calls `StopCrypto1`, which the
    driver does not define; `AsWritten` models that call as the crash it
    is, `Intended` as a call that returns. */
module Scan {
  import opened Registers
  import opened Bus
  import opened Engine
  import opened Protocol
  import opened UidText

  datatype Option<T> = None | Some(value: T)

  /** How the authorization query for a key came out: a matching row (with
      the user's name), no row, no database connection, or a failed query. */
  datatype Lookup = Row(name: string) | NoRow | NoConnection | QueryError

  /** `is_authorized`: only a matching row authorizes; an unreachable
      database and a failed query are treated as unauthorized. */
  function IsAuthorized(lookup: Lookup): (ok: bool)
    ensures ok <==> lookup.Row?
    ensures lookup.NoConnection? || lookup.QueryError? ==> !ok
  {
    match lookup
    case NoConnection => false
    case QueryError => false
    case Row(_) => true
    case NoRow => false
  }

  /** Effects the loop has on the world outside the reader: the
      authorization query, the LED signal of `grant_access`, an access-log
      row (written on a best-effort basis), and the unknown-card record
      that `handle_unauthorized` would write. */
  datatype Effect = Query(key: string) | Grant | LogAccess(key: string, authorized: bool) | RecordUnknown(key: string)

  /** How an iteration ends: the loop goes on, or the call to the missing
      `StopCrypto1` raises and the program stops. */
  datatype Ending = Continue | Crash

  /** The program as written, or with the card session closed by a method
      that exists. */
  datatype Variant = AsWritten | Intended

  /** What one iteration does. */
  datatype Step = Step(effects: seq<Effect>, ending: Ending)

  /** An iteration got as far as a serial number: Request and Anticoll
      both returned MI_OK. */
  predicate Scanned(request: Status, anticoll: Status) {
    request == MI_OK && anticoll == MI_OK
  }

  /** The decision part of one iteration, given the driver's answers and the
      authorization oracle: nothing happens unless a card was read; a read
      card is looked up under its key, then either granted and logged as
      authorized, or only logged as unauthorized; and the session end
      crashes the program as written. */
  function Decide(variant: Variant, request: Status, anticoll: Status, uid: seq<bv8>,
                  lookup: string -> Lookup): (s: Step)
    ensures !Scanned(request, anticoll) ==> s == Step([], Continue)
    ensures Scanned(request, anticoll) ==> |s.effects| >= 2 && s.effects[0] == Query(UidString(uid))
    ensures Grant in s.effects <==> Scanned(request, anticoll) && lookup(UidString(uid)).Row?
    ensures Scanned(request, anticoll) && IsAuthorized(lookup(UidString(uid))) ==>
              s.effects == [Query(UidString(uid)), Grant, LogAccess(UidString(uid), true)]
    ensures Scanned(request, anticoll) && !IsAuthorized(lookup(UidString(uid))) ==>
              s.effects == [Query(UidString(uid)), LogAccess(UidString(uid), false)]
    ensures forall e :: e in s.effects ==> !e.RecordUnknown?
    ensures s.ending == Crash <==> variant == AsWritten && Scanned(request, anticoll)
  {
    if request != MI_OK || anticoll != MI_OK then Step([], Continue)
    else
      var key := UidString(uid);
      var effects := if IsAuthorized(lookup(key)) then [Query(key), Grant, LogAccess(key, true)]
                     else [Query(key), LogAccess(key, false)];
      Step(effects, if variant == AsWritten then Crash else Continue)
  }

  /** The driver replies and the decision of one iteration, with the log
      after it. */
  datatype Iteration = Iteration(request: Reply, anticoll: Option<Reply>, step: Step, log: seq<Xfer>)

  /** One pass of `while continue_reading` on the bus: Request(REQIDL);
      only on MI_OK, Anticoll; then the decision on the anticollision
      answer.  Every effect rests on an answer with a valid check byte, and
      the key is the text of those five bytes. */
  method ScanOnce(variant: Variant, chip: Chip, log: seq<Xfer>, lookup: string -> Lookup)
    returns (it: Iteration)
    ensures Extends(it.request.log, log) && Extends(it.log, it.request.log) && Extends(it.log, log)
    ensures |it.log| > |log| + 1
    ensures it.log[|log|].op == WriteReg(BitFramingReg, 0x07)
    ensures Armed(it.log, |log| + 1, PCD_TRANSCEIVE, [PICC_REQIDL], IrqMasks(PCD_TRANSCEIVE))
    ensures RequestMeets(|log|, PICC_REQIDL, it.request)
    ensures it.anticoll.Some? <==> it.request.status == MI_OK
    ensures it.anticoll.Some? ==> AnticollMeets(|it.request.log|, it.anticoll.value)
    ensures it.anticoll.None? ==> it.log == it.request.log && it.step == Step([], Continue)
    ensures it.anticoll.Some? ==>
              && it.log == it.anticoll.value.log
              && |it.log| > |it.request.log|
              && it.log[|it.request.log|].op == WriteReg(BitFramingReg, 0x00)
    ensures it.step.effects != [] ==>
              && it.anticoll.Some?
              && it.anticoll.value.status == MI_OK
              && ValidUid(it.anticoll.value.card.backData)
              && it.step.effects[0] == Query(UidString(it.anticoll.value.card.backData))
    ensures it.step.ending == Crash <==> variant == AsWritten && it.step.effects != []
    ensures it.anticoll.Some? ==>
              it.step == Decide(variant, MI_OK, it.anticoll.value.status, it.anticoll.value.card.backData, lookup)
    ensures Answered(chip, it.log, |log|)
  {
    var req := Request(chip, log, PICC_REQIDL);
    if req.status != MI_OK {
      return Iteration(req, None, Decide(variant, req.status, MI_ERR, [], lookup), req.log);
    }
    var anti, step := Identify(variant, chip, req.log, lookup);
    ExtendsTrans(anti.log, req.log, log);
    AnsweredTrans(chip, anti.log, req.log, |log|);
    ExtendsSegment(anti.log, req.log, |log|, |req.log|);
    assert anti.log[|log|] == req.log[|log|];
    ArmedExtends(anti.log, req.log, |log| + 1, PCD_TRANSCEIVE, [PICC_REQIDL], IrqMasks(PCD_TRANSCEIVE));
    it := Iteration(req, Some(anti), step, anti.log);
  }

  /** The part of an iteration after a card answered Request: Anticoll,
      then the decision on its answer. */
  method Identify(variant: Variant, chip: Chip, log: seq<Xfer>, lookup: string -> Lookup)
    returns (anti: Reply, step: Step)
    ensures Extends(anti.log, log) && AnticollMeets(|log|, anti)
    ensures anti.status == MI_OK ==> ValidUid(anti.card.backData)
    ensures step == Decide(variant, MI_OK, anti.status, anti.card.backData, lookup)
    ensures Answered(chip, anti.log, |log|)
  {
    anti := Anticoll(chip, log);
    step := Decide(variant, MI_OK, anti.status, anti.card.backData, lookup);
  }

  /** One iteration's driver answers, the serial number read, and whether
      SIGINT arrived (and `end_read` cleared `continue_reading`) before the
      loop test that follows it. */
  datatype Tick = Tick(request: Status, anticoll: Status, uid: seq<bv8>, interrupted: bool)

  /** How the loop was left: `continue_reading` found False, the program
      crashed, or the ticks ran out while the loop was still reading. */
  datatype Exit = Stopped | Crashed | Reading

  /** All effects of a run, the number of iterations entered, and the exit. */
  datatype LoopEnd = LoopEnd(effects: seq<Effect>, iterations: nat, exit: Exit)

  function StepOf(variant: Variant, t: Tick, lookup: string -> Lookup): Step {
    Decide(variant, t.request, t.anticoll, t.uid, lookup)
  }

  /** `end_read`: whatever the flag was, it is now False. */
  function EndRead(continueReading: bool): (flag: bool)
    ensures !flag
  {
    false
  }

  /** The loop over `ticks`, as a recursive definition. */
  function Loop(variant: Variant, ticks: seq<Tick>, lookup: string -> Lookup): (out: LoopEnd)
    ensures out.iterations <= |ticks|
    ensures out.exit == Reading ==> out.iterations == |ticks|
    ensures ticks != [] ==> out.iterations >= 1
    decreases |ticks|
  {
    if ticks == [] then LoopEnd([], 0, Reading)
    else
      var s := StepOf(variant, ticks[0], lookup);
      if s.ending == Crash then LoopEnd(s.effects, 1, Crashed)
      else if ticks[0].interrupted then LoopEnd(s.effects, 1, Stopped)
      else
        var rest := Loop(variant, ticks[1..], lookup);
        LoopEnd(s.effects + rest.effects, rest.iterations + 1, rest.exit)
  }

  /** Why a run ended where it did: every iteration before the last went
      on without an interrupt; a stop follows an interrupted iteration; a
      crash happens only as written, in an iteration that read a card. */
  lemma {:induction false} LoopExits(variant: Variant, ticks: seq<Tick>, lookup: string -> Lookup)
    ensures var out := Loop(variant, ticks, lookup);
            && (forall k :: 0 <= k < out.iterations - 1 ==>
                  !ticks[k].interrupted && StepOf(variant, ticks[k], lookup).ending == Continue)
            && (out.exit == Stopped ==> out.iterations >= 1 && ticks[out.iterations - 1].interrupted)
            && (out.exit == Crashed ==>
                  && variant == AsWritten && out.iterations >= 1
                  && Scanned(ticks[out.iterations - 1].request, ticks[out.iterations - 1].anticoll))
    decreases |ticks|
  {
    if ticks != [] {
      var s := StepOf(variant, ticks[0], lookup);
      if s.ending != Crash && !ticks[0].interrupted {
        LoopExits(variant, ticks[1..], lookup);
        var rest := Loop(variant, ticks[1..], lookup);
        forall k | 1 <= k < rest.iterations + 1
          ensures ticks[k] == ticks[1..][k - 1]
        {
        }
      }
    }
  }

  /** `effects` and `n` iterations, followed by the run `rest`. */
  function Prefixed(effects: seq<Effect>, n: nat, rest: LoopEnd): LoopEnd {
    LoopEnd(effects + rest.effects, n + rest.iterations, rest.exit)
  }

  /** The first iteration of a run, and the rest of the run after it. */
  lemma LoopHead(variant: Variant, ticks: seq<Tick>, lookup: string -> Lookup)
    requires ticks != []
    ensures var s := StepOf(variant, ticks[0], lookup);
            Loop(variant, ticks, lookup) ==
              if s.ending == Crash then LoopEnd(s.effects, 1, Crashed)
              else if ticks[0].interrupted then LoopEnd(s.effects, 1, Stopped)
              else Prefixed(s.effects, 1, Loop(variant, ticks[1..], lookup))
  {
  }

  /** Iteration `i` of a run over `ticks`, and the rest of the run after
      it. */
  lemma LoopAt(variant: Variant, ticks: seq<Tick>, i: nat, lookup: string -> Lookup)
    requires i < |ticks|
    ensures var s := StepOf(variant, ticks[i], lookup);
            Loop(variant, ticks[i..], lookup) ==
              if s.ending == Crash then LoopEnd(s.effects, 1, Crashed)
              else if ticks[i].interrupted then LoopEnd(s.effects, 1, Stopped)
              else Prefixed(s.effects, 1, Loop(variant, ticks[i + 1..], lookup))
  {
    var tail := ticks[i..];
    assert tail[0] == ticks[i];
    assert tail[1..] == ticks[i + 1..];
    LoopHead(variant, tail, lookup);
  }

  /** Prefixing twice is prefixing once with both parts. */
  lemma PrefixedTwice(e1: seq<Effect>, n1: nat, e2: seq<Effect>, n2: nat, rest: LoopEnd)
    ensures Prefixed(e1, n1, Prefixed(e2, n2, rest)) == Prefixed(e1 + e2, n1 + n2, rest)
  {
    assert (e1 + e2) + rest.effects == e1 + (e2 + rest.effects);
  }

  /** `while continue_reading:` over the ticks: each iteration runs the
      decision, a crash ends the program, and an interrupt makes the next
      loop test fail. */
  method RunLoop(variant: Variant, ticks: seq<Tick>, lookup: string -> Lookup) returns (out: LoopEnd)
    ensures out == Loop(variant, ticks, lookup)
  {
    var continueReading := true;
    var effects: seq<Effect> := [];
    var i := 0;
    assert ticks[0..] == ticks;
    while continueReading && i < |ticks|
      invariant 0 <= i <= |ticks|
      invariant continueReading ==> Loop(variant, ticks, lookup) == Prefixed(effects, i, Loop(variant, ticks[i..], lookup))
      invariant !continueReading ==> Loop(variant, ticks, lookup) == LoopEnd(effects, i, Stopped)
    {
      var t := ticks[i];
      var s := StepOf(variant, t, lookup);
      LoopAt(variant, ticks, i, lookup);
      if s.ending == Crash || t.interrupted {
        PrefixedTwice(effects, i, s.effects, 1, LoopEnd([], 0, Reading));
        assert s.effects + [] == s.effects;
      } else {
        PrefixedTwice(effects, i, s.effects, 1, Loop(variant, ticks[i + 1..], lookup));
      }
      effects := effects + s.effects;
      i := i + 1;
      if s.ending == Crash {
        return LoopEnd(effects, i, Crashed);
      }
      if t.interrupted {
        continueReading := EndRead(continueReading);
      }
    }
    if continueReading {
      assert ticks[i..] == [];
      assert effects + [] == effects;
      return LoopEnd(effects, i, Reading);
    }
    out := LoopEnd(effects, i, Stopped);
  }

  /** Index of the first tick that reads a card, or |ticks|. */
  function FirstScan(ticks: seq<Tick>): (j: nat)
    ensures j <= |ticks|
    ensures j < |ticks| ==> Scanned(ticks[j].request, ticks[j].anticoll)
    ensures forall k :: 0 <= k < j ==> !Scanned(ticks[k].request, ticks[k].anticoll)
  {
    if ticks == [] then 0
    else if Scanned(ticks[0].request, ticks[0].anticoll) then 0
    else 1 + FirstScan(ticks[1..])
  }

  /** Index of the first interrupted tick, or |ticks|. */
  function FirstInterrupt(ticks: seq<Tick>): (j: nat)
    ensures j <= |ticks|
    ensures j < |ticks| ==> ticks[j].interrupted
    ensures forall k :: 0 <= k < j ==> !ticks[k].interrupted
  {
    if ticks == [] then 0
    else if ticks[0].interrupted then 0
    else 1 + FirstInterrupt(ticks[1..])
  }

  /** With the session closed properly, the loop never crashes and runs
      until the first interrupt: it stops right after that iteration, or
      is still reading when the ticks run out. */
  lemma {:induction false} IntendedRunsUntilInterrupt(ticks: seq<Tick>, lookup: string -> Lookup)
    ensures var out := Loop(Intended, ticks, lookup);
            && out.exit != Crashed
            && (FirstInterrupt(ticks) < |ticks| ==> out.exit == Stopped && out.iterations == FirstInterrupt(ticks) + 1)
            && (FirstInterrupt(ticks) == |ticks| ==> out.exit == Reading)
    decreases |ticks|
  {
    if ticks != [] && !ticks[0].interrupted {
      IntendedRunsUntilInterrupt(ticks[1..], lookup);
    }
  }

  /** As written, the first card read ends the program: unless an interrupt
      came earlier, the loop crashes in the iteration of the first scan,
      after that scan's query, grant and log effects. */
  lemma {:induction false} AsWrittenCrashesAtFirstScan(ticks: seq<Tick>, lookup: string -> Lookup)
    requires FirstScan(ticks) < |ticks| && FirstScan(ticks) <= FirstInterrupt(ticks)
    ensures var out := Loop(AsWritten, ticks, lookup);
            && out.exit == Crashed
            && out.iterations == FirstScan(ticks) + 1
    decreases |ticks|
  {
    if !Scanned(ticks[0].request, ticks[0].anticoll) {
      AsWrittenCrashesAtFirstScan(ticks[1..], lookup);
    }
  }

  /** The missing method only cuts the run short: the effects of the
      program as written are a prefix of the effects with the session closed
      properly, and the two agree completely unless the program crashed. */
  lemma {:induction false} AsWrittenIsTruncation(ticks: seq<Tick>, lookup: string -> Lookup)
    ensures var w := Loop(AsWritten, ticks, lookup);
            var i := Loop(Intended, ticks, lookup);
            && w.effects <= i.effects
            && w.iterations <= i.iterations
            && (w.exit != Crashed ==> w == i)
    decreases |ticks|
  {
    if ticks != [] {
      var sw := StepOf(AsWritten, ticks[0], lookup);
      var si := StepOf(Intended, ticks[0], lookup);
      assert sw.effects == si.effects;
      if sw.ending != Crash && !ticks[0].interrupted {
        AsWrittenIsTruncation(ticks[1..], lookup);
      } else if sw.ending == Crash && !ticks[0].interrupted {
        var rest := Loop(Intended, ticks[1..], lookup);
        assert si.effects <= si.effects + rest.effects;
      }
    }
  }

  /** Every Grant in `e` comes right after the query of a key that has a
      row, and right before the authorized log entry of the same key. */
  predicate GrantsWellPlaced(e: seq<Effect>, lookup: string -> Lookup) {
    forall k :: 0 <= k < |e| && e[k] == Grant ==>
      && 0 < k < |e| - 1
      && e[k - 1].Query? && lookup(e[k - 1].key).Row?
      && e[k + 1] == LogAccess(e[k - 1].key, true)
  }

  /** No effect of `e` records an unknown card. */
  predicate NoUnknownRecords(e: seq<Effect>) {
    forall k :: 0 <= k < |e| ==> !e[k].RecordUnknown?
  }

  /** One iteration's effects keep both rules. */
  lemma StepRules(variant: Variant, t: Tick, lookup: string -> Lookup)
    ensures GrantsWellPlaced(StepOf(variant, t, lookup).effects, lookup)
    ensures NoUnknownRecords(StepOf(variant, t, lookup).effects)
  {
    var e := StepOf(variant, t, lookup).effects;
    forall k | 0 <= k < |e|
      ensures !e[k].RecordUnknown?
    {
      assert e[k] in e;
    }
  }

  /** Both rules survive concatenation. */
  lemma RulesConcat(a: seq<Effect>, b: seq<Effect>, lookup: string -> Lookup)
    requires GrantsWellPlaced(a, lookup) && NoUnknownRecords(a)
    requires GrantsWellPlaced(b, lookup) && NoUnknownRecords(b)
    ensures GrantsWellPlaced(a + b, lookup) && NoUnknownRecords(a + b)
  {
    var e := a + b;
    forall k | 0 <= k < |e| && e[k] == Grant
      ensures 0 < k < |e| - 1
      ensures e[k - 1].Query? && lookup(e[k - 1].key).Row?
      ensures e[k + 1] == LogAccess(e[k - 1].key, true)
    {
      if k >= |a| {
        assert b[k - |a|] == Grant;
      }
    }
  }

  /** The access rule over a whole run: a Grant comes right after the query
      of a key that has a row and right before the authorized log entry of
      the same key, and no run ever records an unknown card. */
  lemma {:induction false} GrantsAreAuthorized(variant: Variant, ticks: seq<Tick>, lookup: string -> Lookup)
    ensures GrantsWellPlaced(Loop(variant, ticks, lookup).effects, lookup)
    ensures NoUnknownRecords(Loop(variant, ticks, lookup).effects)
    decreases |ticks|
  {
    if ticks != [] {
      StepRules(variant, ticks[0], lookup);
      var s := StepOf(variant, ticks[0], lookup);
      if s.ending != Crash && !ticks[0].interrupted {
        GrantsAreAuthorized(variant, ticks[1..], lookup);
        RulesConcat(s.effects, Loop(variant, ticks[1..], lookup).effects, lookup);
      }
    }
  }

  /** A card with a row read in the first iteration, then an idle
      iteration with an interrupt: as written the run crashes after the
      grant, with the session closed properly it stops after the second
      iteration. */
  lemma KnownCardThenInterrupt(t: Tick, idle: Tick, lookup: string -> Lookup)
    requires Scanned(t.request, t.anticoll) && !t.interrupted && lookup(UidString(t.uid)).Row?
    requires !Scanned(idle.request, idle.anticoll) && idle.interrupted
    ensures var key := UidString(t.uid);
            && Loop(AsWritten, [t, idle], lookup) == LoopEnd([Query(key), Grant, LogAccess(key, true)], 1, Crashed)
            && Loop(Intended, [t, idle], lookup) == LoopEnd([Query(key), Grant, LogAccess(key, true)], 2, Stopped)
  {
    assert [t, idle][1..] == [idle];
  }

  /** The discrepancy on one concrete input: a card with a row is read in
      the first iteration.  The program as written lights the grant LED, logs
      the grant and then crashes; with the session closed properly the loop
      goes on to the next iteration. */
  lemma StopCrypto1Crash(lookup: string -> Lookup)
    requires lookup("4,210,88,12,130").Row?
    ensures var t := Tick(MI_OK, MI_OK, [4, 210, 88, 12, 130], false);
            var idle := Tick(MI_ERR, MI_ERR, [], true);
            && Loop(AsWritten, [t, idle], lookup) ==
                 LoopEnd([Query("4,210,88,12,130"), Grant, LogAccess("4,210,88,12,130", true)], 1, Crashed)
            && Loop(Intended, [t, idle], lookup) ==
                 LoopEnd([Query("4,210,88,12,130"), Grant, LogAccess("4,210,88,12,130", true)], 2, Stopped)
  {
    UidStringExample();
    KnownCardThenInterrupt(Tick(MI_OK, MI_OK, [4, 210, 88, 12, 130], false), Tick(MI_ERR, MI_ERR, [], true), lookup);
  }
}
