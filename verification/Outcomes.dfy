/** Which records a run can write: the bounds on the draws are met exactly, each value by some run. */
module Outcomes {
  import opened Basics
  import opened Format
  import opened Stream
  import opened Encoder
  import opened Synth
  import opened EndToEnd
  import opened Fitting
  import opened Course

  // ---------- reading off which iterations write ----------

  ghost predicate Ascending(at: seq<nat>)
  {
    forall j, k | 0 <= j < k < |at| :: at[j] < at[k]
  }

  lemma FirstIs(at: seq<nat>)
    requires Ascending(at) && 0 in at
    ensures at[0] == 0
  {
    var j :| 0 <= j < |at| && at[j] == 0;
  }

  /** The next after at[k] is x when x is one of them and none lies between. */
  lemma NextIs(at: seq<nat>, k: nat, x: nat)
    requires Ascending(at) && k < |at| && at[k] < x && x in at
    requires forall y: nat | at[k] < y < x :: y !in at
    ensures k + 1 < |at| && at[k + 1] == x
  {
    var j :| 0 <= j < |at| && at[j] == x;
    assert j > k;
    assert at[k + 1] in at;
  }

  // ---------- the first two records ----------

  /** The tape on which every iteration draws the same. */
  ghost function ConstantTape(opts: SynthOptions, startTsNs: int, d: Draw): (tape: Tape)
    requires ValidDraw(opts, d) && 10_000_000_000 <= startTsNs <= 100_000_000_000
    ensures ValidTape(opts, tape) && tape.startTsNs == startTsNs
    ensures forall i | 0 <= i < |tape.draws| :: tape.draws[i] == d
  {
    Tape(startTsNs, seq(Max(0, opts.count), _ => d))
  }

  /** The dump begins with two data records: the first of these fields, and the second gap later. */
  ghost predicate Opens(opts: SynthOptions, tape: Tape, ts: int, opcode: int, cpu: int, payloadLen: int, gap: int)
    requires ValidTape(opts, tape)
  {
    var all := Decode(DumpOf(opts, tape)).records;
    && |all| >= 2
    && all[0].header.tsNs == ts && all[0].header.opcode == opcode && all[0].header.cpu == cpu
    && all[0].header.payloadLen == payloadLen
    && all[1].header.tsNs - all[0].header.tsNs == gap
  }

  /** The values that the first data record can have, and how long after it the second one can come. */
  predicate CanOpen(opts: SynthOptions, ts: int, opcode: int, cpu: int, payloadLen: int, gap: int)
  {
    && (if opts.baseTsNs != 0 then ts == opts.baseTsNs else 10_000_000_000 <= ts <= 100_000_000_000)
    && opcode in {0x0001, 0x0002, 0x0003, 0x0010, 0x0011, 0x0020, 0x0030, 0x0031, 0x00F0}
    && 0 <= cpu <= Max(0, opts.cpus - 1)
    && 0 <= payloadLen <= opts.maxPayload
    && (if opcode == 0x0001 || opcode == 0x0020 then 500 <= gap <= 5_000
        else if opcode == 0x0010 || opcode == 0x0011 then 100_000 <= gap <= 5_000_000
        else 1_000 <= gap <= 50_000)
  }

  /** Where the first two records come from when nothing is dropped and no marker is called for. */
  lemma PlainStart(opts: SynthOptions, tape: Tape)
    requires ValidTape(opts, tape) && Synth.Final(opts, tape).error.None?
    requires opts.count >= 2 && opts.dropEvery == 0 && opts.wrapEvery == 0
    ensures var all := Decode(DumpOf(opts, tape)).records;
            && |all| >= 2 && DataOf(opts, 0, tape.draws[0], all[0])
            && all[0].header.tsNs == (if opts.baseTsNs != 0 then opts.baseTsNs else tape.startTsNs)
            && all[1].header.tsNs == all[0].header.tsNs + tape.draws[0].gapNs
  {
    var at, places := RunWrites(opts, tape);
    PlainSlots(opts, tape, Decode(DumpOf(opts, tape)).records, at, places);
  }

  lemma PlainSlots(opts: SynthOptions, tape: Tape, all: seq<Record>, at: seq<nat>, places: seq<nat>)
    requires Follows(opts, tape, Max(0, opts.count), all, at, places)
    requires opts.count >= 2 && opts.dropEvery == 0 && opts.wrapEvery == 0
    ensures |tape.draws| >= 2 && |all| >= 2 && DataOf(opts, 0, tape.draws[0], all[0])
    ensures all[0].header.tsNs == (if opts.baseTsNs != 0 then opts.baseTsNs else tape.startTsNs)
    ensures all[1].header.tsNs == all[0].header.tsNs + tape.draws[0].gapNs
  {
    assert Ascending(at) && 0 in at && 1 in at;
    FirstIs(at);
    NextIs(at, 0, 1);
    assert Slot(opts, tape, all, at, places, 0);
    assert Slot(opts, tape, all, at, places, 1);
  }

  /** The draw that gives these values. */
  function DrawFor(opcode: int, cpu: int, payloadLen: nat, gap: int): Draw
  {
    Draw(1, 50, opcode, cpu, false, 0, payloadLen, Zeros(payloadLen), gap)
  }

  lemma OpeningIsPossible(opts: SynthOptions, tape: Tape, ts: int, opcode: int, cpu: int, payloadLen: int, gap: int)
    requires Fits(opts) && opts.count >= 2 && opts.dropEvery == 0 && opts.wrapEvery == 0
    requires ValidTape(opts, tape) && Opens(opts, tape, ts, opcode, cpu, payloadLen, gap)
    ensures CanOpen(opts, ts, opcode, cpu, payloadLen, gap)
  {
    FinishesIffFits(opts);
    PlainStart(opts, tape);
    WithinBounds(opts, tape.draws[0], Decode(DumpOf(opts, tape)).records[0]);
  }

  lemma WithinBounds(opts: SynthOptions, d: Draw, r: Record)
    requires ValidDraw(opts, d) && DataOf(opts, 0, d, r) && opts.maxPayload >= 0
    ensures r.header.opcode in {0x0001, 0x0002, 0x0003, 0x0010, 0x0011, 0x0020, 0x0030, 0x0031, 0x00F0}
    ensures 0 <= r.header.cpu <= Max(0, opts.cpus - 1) && 0 <= r.header.payloadLen <= opts.maxPayload
    ensures if r.header.opcode == 0x0001 || r.header.opcode == 0x0020 then 500 <= d.gapNs <= 5_000
            else if r.header.opcode == 0x0010 || r.header.opcode == 0x0011 then 100_000 <= d.gapNs <= 5_000_000
            else 1_000 <= d.gapNs <= 50_000
  {
  }

  lemma OpeningOccurs(opts: SynthOptions, ts: int, opcode: int, cpu: int, payloadLen: int, gap: int)
    returns (tape: Tape)
    requires Fits(opts) && opts.count >= 2 && opts.dropEvery == 0 && opts.wrapEvery == 0
    requires CanOpen(opts, ts, opcode, cpu, payloadLen, gap)
    ensures ValidTape(opts, tape) && Opens(opts, tape, ts, opcode, cpu, payloadLen, gap)
  {
    var d := DrawFor(opcode, cpu, payloadLen, gap);
    assert ValidDraw(opts, d);
    tape := ConstantTape(opts, if opts.baseTsNs != 0 then 10_000_000_000 else ts, d);
    FinishesIffFits(opts);
    PlainStart(opts, tape);
  }

  /** For options that fit, a run can open with these values if and only if they are within the bounds. */
  lemma OpeningsExactly(opts: SynthOptions, ts: int, opcode: int, cpu: int, payloadLen: int, gap: int)
    requires Fits(opts) && opts.count >= 2 && opts.dropEvery == 0 && opts.wrapEvery == 0
    ensures (exists tape | ValidTape(opts, tape) :: Opens(opts, tape, ts, opcode, cpu, payloadLen, gap)) <==>
            CanOpen(opts, ts, opcode, cpu, payloadLen, gap)
  {
    if tape :| ValidTape(opts, tape) && Opens(opts, tape, ts, opcode, cpu, payloadLen, gap) {
      OpeningIsPossible(opts, tape, ts, opcode, cpu, payloadLen, gap);
    }
    if CanOpen(opts, ts, opcode, cpu, payloadLen, gap) {
      var tape := OpeningOccurs(opts, ts, opcode, cpu, payloadLen, gap);
    }
  }

  // ---------- a drop and a marker ----------

  /** Two data records, a drop that skips a numbers, a marker and, gap later, its data record. */
  ghost predicate SkipsAndMarks(opts: SynthOptions, tape: Tape, a: int, gap: int)
    requires ValidTape(opts, tape)
  {
    var all := Decode(DumpOf(opts, tape)).records;
    && |all| >= 4 && all[2].header.flags == 1 && all[2].header.seqNo == 2 + a
    && all[3].header.tsNs - all[2].header.tsNs == gap
  }

  lemma DropThenMarker(opts: SynthOptions, tape: Tape)
    requires ValidTape(opts, tape) && Synth.Final(opts, tape).error.None?
    requires opts.count >= 4 && opts.dropEvery == 2 && opts.wrapEvery == 3
    ensures var all := Decode(DumpOf(opts, tape)).records;
            && |all| >= 4 && all[2].header.flags == 1
            && all[2].header.seqNo == 2 + tape.draws[2].dropped
            && all[3].header.tsNs == all[2].header.tsNs + tape.draws[3].markerGapNs
  {
    var at, places := RunWrites(opts, tape);
    assert ValidDraw(opts, tape.draws[2]);
    DropSlots(opts, tape, Decode(DumpOf(opts, tape)).records, at, places);
  }

  lemma DropSlots(opts: SynthOptions, tape: Tape, all: seq<Record>, at: seq<nat>, places: seq<nat>)
    requires Follows(opts, tape, Max(0, opts.count), all, at, places)
    requires opts.count >= 4 && opts.dropEvery == 2 && opts.wrapEvery == 3
    requires |tape.draws| >= 4 && 1 <= tape.draws[2].dropped <= 3
    ensures |all| >= 4 && all[2].header.flags == 1
    ensures all[2].header.seqNo == 2 + tape.draws[2].dropped
    ensures all[3].header.tsNs == all[2].header.tsNs + tape.draws[3].markerGapNs
  {
    assert Ascending(at) && 0 in at && 1 in at && 2 !in at && 3 in at;
    FirstIs(at);
    NextIs(at, 0, 1);
    NextIs(at, 1, 3);
    assert Slot(opts, tape, all, at, places, 0);
    assert Slot(opts, tape, all, at, places, 1);
    assert Slot(opts, tape, all, at, places, 2);
  }

  /** A drop can skip 1 to 3 numbers, and a marker can stand 50 to 5,000 ns before its data record. */
  lemma SkipsAndMarksExactly(opts: SynthOptions, a: int, gap: int)
    requires Fits(opts) && opts.count >= 4 && opts.dropEvery == 2 && opts.wrapEvery == 3
    ensures (exists tape | ValidTape(opts, tape) :: SkipsAndMarks(opts, tape, a, gap)) <==>
            1 <= a <= 3 && 50 <= gap <= 5_000
  {
    FinishesIffFits(opts);
    if tape :| ValidTape(opts, tape) && SkipsAndMarks(opts, tape, a, gap) {
      DropThenMarker(opts, tape);
      assert ValidDraw(opts, tape.draws[2]) && ValidDraw(opts, tape.draws[3]);
    }
    if 1 <= a <= 3 && 50 <= gap <= 5_000 {
      var d := Draw(a, gap, 0x0001, 0, false, 0, 0, [], 500);
      assert ValidDraw(opts, d);
      var tape := ConstantTape(opts, 10_000_000_000, d);
      DropThenMarker(opts, tape);
      assert SkipsAndMarks(opts, tape, a, gap);
    }
  }

  // ---------- the step after each record ----------

  /** How much later than r the next record can come: it depends on the opcode, and on whether r is a marker. */
  predicate StepAfter(r: Record, gap: int)
  {
    if r.header.flags % 2 == 1 then 50 <= gap <= 5_000
    else if r.header.opcode == 0x0001 || r.header.opcode == 0x0020 then 500 <= gap <= 5_000
    else if r.header.opcode == 0x0010 || r.header.opcode == 0x0011 then 100_000 <= gap <= 5_000_000
    else 1_000 <= gap <= 50_000
  }

  ghost predicate InStep(all: seq<Record>)
  {
    forall j | 0 <= j < |all| - 1 :: StepAfter(all[j], all[j + 1].header.tsNs - all[j].header.tsNs)
  }

  ghost predicate Stepped(s: State)
  {
    && LogOk(s.log)
    && var all := Written(s.log);
       && InStep(all)
       && (s.error.None? && all != [] ==> StepAfter(Last(all), s.tsNs - Last(all).header.tsNs))
  }

  lemma InStepSnoc(all: seq<Record>, r: Record)
    requires InStep(all) && (all != [] ==> StepAfter(Last(all), r.header.tsNs - Last(all).header.tsNs))
    ensures InStep(all + [r])
  {
    var more := all + [r];
    forall j | 0 <= j < |more| - 1
      ensures StepAfter(more[j], more[j + 1].header.tsNs - more[j].header.tsNs)
    {
      assert more[j] == all[j];
    }
  }

  lemma SteppedEmit(h: RecordHeader, payload: seq<byte>, gapNs: int, s: State)
    requires Stepped(s) && s.error.None? && h.tsNs == s.tsNs && h.magic == HMB_RECORD_MAGIC
    requires |payload| == Max(0, h.payloadLen) && StepAfter(Record(0, h, payload), gapNs)
    ensures Stepped(EmitStep(h, payload, gapNs, s))
  {
    if h.InRange() {
      var all, r := Written(s.log), Record(|Dump(s.log)|, h, payload);
      WrittenSnoc(s.log, Emit(h, payload));
      InStepSnoc(all, r);
      assert Last(all + [r]) == r;
    }
  }

  lemma SteppedStep(opts: SynthOptions, i: nat, d: Draw, s: State)
    requires Stepped(s) && ValidDraw(opts, d)
    ensures Stepped(Synth.Step(opts, i, d, s))
  {
    if s.error.None? {
      if Due(opts.dropEvery, i) {
        WrittenSnoc(s.log, Drop(d.dropped));
      } else {
        SteppedEmit(MarkerHeader(s), [], d.markerGapNs, s);
        var s' := MarkerStep(opts, i, d, s);
        if s'.error.None? {
          SteppedEmit(DataHeader(opts, i, d, s'), d.payload, d.gapNs, s');
        }
      }
    }
  }

  lemma {:induction false} EveryRunStepped(opts: SynthOptions, tape: Tape, n: nat)
    requires ValidTape(opts, tape) && n <= |tape.draws|
    ensures Stepped(After(opts, tape, n))
  {
    if n > 0 {
      EveryRunStepped(opts, tape, n - 1);
      SteppedStep(opts, n - 1, tape.draws[n - 1], After(opts, tape, n - 1));
    }
  }

  /** In every generated dump, each record comes after the one before it by a step of that one's kind. */
  lemma StepsByOpcode(opts: SynthOptions, tape: Tape) returns (all: seq<Record>)
    requires ValidTape(opts, tape)
    ensures all == Decode(DumpOf(opts, tape)).records
    ensures forall j | 0 <= j < |all| - 1 :: StepAfter(all[j], all[j + 1].header.tsNs - all[j].header.tsNs)
  {
    all := Decode(DumpOf(opts, tape)).records;
    var s := Synth.Final(opts, tape);
    EveryRunStepped(opts, tape, |tape.draws|);
    DumpDecodes(opts, tape);
    SteppedRecords(s, all);
  }

  lemma SteppedRecords(s: State, all: seq<Record>)
    requires Stepped(s) && all == Written(s.log)
    ensures forall j | 0 <= j < |all| - 1 :: StepAfter(all[j], all[j + 1].header.tsNs - all[j].header.tsNs)
  {
  }
}
