/** What every run of the generator keeps: its numbering, its pace, its clock and its counts. */
module Ledger {
  import opened Basics
  import opened Format
  import opened Encoder
  import opened Stats
  import opened StatsLaws
  import opened Synth

  // ---------- the ledger of a run ----------

  function Amount(e: Event): nat
  {
    if e.Drop? then e.amount else 1
  }

  /** Sequence numbers used up, without the 32-bit wrap. */
  function Issued(log: seq<Event>): nat
  {
    if log == [] then 0 else Issued(Init(log)) + Amount(Last(log))
  }

  /** Sequence numbers skipped by forced drops. */
  function Dropped(log: seq<Event>): nat
  {
    if log == [] then 0 else Dropped(Init(log)) + if Last(log).Drop? then Last(log).amount else 0
  }

  function MarkersIn(log: seq<Event>): nat
  {
    if log == [] then 0 else MarkersIn(Init(log)) + if Last(log).IsMarker() then 1 else 0
  }

  function DataHeaders(log: seq<Event>): seq<RecordHeader>
  {
    if log == [] then []
    else if Last(log).IsData() then DataHeaders(Init(log)) + [Last(log).header]
    else DataHeaders(Init(log))
  }

  /** The unbounded sequence number of each data record. */
  function TrueSeqs(log: seq<Event>): (r: seq<int>)
    ensures |r| == |DataHeaders(log)|
  {
    if log == [] then []
    else if Last(log).IsData() then TrueSeqs(Init(log)) + [Issued(Init(log))]
    else TrueSeqs(Init(log))
  }

  /** What happened before the last data record. */
  function BeforeLastData(log: seq<Event>): seq<Event>
  {
    if log == [] then []
    else if Last(log).IsData() then Init(log)
    else BeforeLastData(Init(log))
  }

  lemma Add(log: seq<Event>, e: Event)
    ensures Issued(log + [e]) == Issued(log) + Amount(e)
    ensures Dropped(log + [e]) == Dropped(log) + if e.Drop? then e.amount else 0
    ensures MarkersIn(log + [e]) == MarkersIn(log) + if e.IsMarker() then 1 else 0
    ensures e.IsData() ==>
              && DataHeaders(log + [e]) == DataHeaders(log) + [e.header]
              && TrueSeqs(log + [e]) == TrueSeqs(log) + [Issued(log)]
              && BeforeLastData(log + [e]) == log
    ensures !e.IsData() ==>
              && DataHeaders(log + [e]) == DataHeaders(log)
              && TrueSeqs(log + [e]) == TrueSeqs(log)
              && BeforeLastData(log + [e]) == BeforeLastData(log)
  {
    assert Init(log + [e]) == log;
  }

  lemma {:induction false} IssuedSplits(log: seq<Event>)
    ensures Issued(log) == Dropped(log) + MarkersIn(log) + |DataHeaders(log)|
  {
    if log != [] {
      IssuedSplits(Init(log));
    }
  }

  lemma {:induction false} LastTrueSeq(log: seq<Event>)
    requires DataHeaders(log) != []
    ensures Last(TrueSeqs(log)) == Issued(BeforeLastData(log))
    ensures |DataHeaders(log)| == |DataHeaders(BeforeLastData(log))| + 1
  {
    if !Last(log).IsData() {
      LastTrueSeq(Init(log));
    }
  }

  lemma HeaderKinds(opts: SynthOptions, i: nat, d: Draw, s: State)
    ensures MarkerHeader(s).IsWrapMarker() && !DataHeader(opts, i, d, s).IsWrapMarker()
    ensures HasBit(DataHeader(opts, i, d, s).flags, TRUNCATED_BIT) <==> Due(opts.truncateEvery, i)
  {
    assert HasBit(1, 0) && !HasBit(0, 0) && !HasBit(2, 0);
    assert HasBit(2, 1) && !HasBit(0, 1);
  }

  /** A marker step leaves the data alone; if it writes one, that takes one number and some time. */
  lemma AfterMarker(opts: SynthOptions, i: nat, d: Draw, s: State)
    requires s.error.None?
    ensures var t := MarkerStep(opts, i, d, s);
            var written := Due(opts.wrapEvery, i) && t.error.None?;
            && DataHeaders(t.log) == DataHeaders(s.log) && TrueSeqs(t.log) == TrueSeqs(s.log)
            && BeforeLastData(t.log) == BeforeLastData(s.log)
            && Issued(t.log) == Issued(s.log) + (if written then 1 else 0)
            && MarkersIn(t.log) == MarkersIn(s.log) + (if written then 1 else 0)
            && Dropped(t.log) == Dropped(s.log)
            && t.tsNs == s.tsNs + (if written then d.markerGapNs else 0)
  {
    HeaderKinds(opts, i, d, s);
    Add(s.log, Emit(MarkerHeader(s), []));
  }

  /** A data step fails and changes nothing else, or adds one data record. */
  lemma AfterData(opts: SynthOptions, i: nat, d: Draw, s: State)
    requires s.error.None?
    ensures var t, h := DataStep(opts, i, d, s), DataHeader(opts, i, d, s);
            if t.error.Some? then t.log == s.log
            else
              && h.InRange() && !(d.large && opts.maxPayload / 2 > opts.maxPayload)
              && DataHeaders(t.log) == DataHeaders(s.log) + [h]
              && TrueSeqs(t.log) == TrueSeqs(s.log) + [Issued(s.log)]
              && BeforeLastData(t.log) == s.log
              && Issued(t.log) == Issued(s.log) + 1 && MarkersIn(t.log) == MarkersIn(s.log)
              && Dropped(t.log) == Dropped(s.log)
              && t.tsNs == s.tsNs + d.gapNs
  {
    HeaderKinds(opts, i, d, s);
    Add(s.log, Emit(DataHeader(opts, i, d, s), d.payload));
  }

  // ---------- numbering ----------

  /** Every record written, markers included, carries the numbers used up before it. */
  ghost predicate CarriesNumbers(log: seq<Event>)
  {
    forall k | 0 <= k < |log| && log[k].Emit? :: log[k].header.seqNo == Issued(log[..k]) % TWO_32
  }

  lemma CarriesSnoc(log: seq<Event>, e: Event)
    requires CarriesNumbers(log) && (e.Emit? ==> e.header.seqNo == Issued(log) % TWO_32)
    ensures CarriesNumbers(log + [e])
  {
    var more := log + [e];
    forall k | 0 <= k < |more| && more[k].Emit?
      ensures more[k].header.seqNo == Issued(more[..k]) % TWO_32
    {
      if k < |log| {
        assert more[..k] == log[..k] && more[k] == log[k];
      } else {
        assert more[..k] == log;
      }
    }
  }

  ghost predicate Numbered(s: State)
  {
    && LogOk(s.log)
    && CarriesNumbers(s.log)
    && s.seqNo == Issued(s.log) % TWO_32
    && Reduces(DataHeaders(s.log), TrueSeqs(s.log))
  }

  lemma AdvanceAdds(x: nat, n: nat)
    ensures Advance(x % TWO_32, n) == (x + n) % TWO_32
  {
  }

  lemma NumberedDrop(d: Draw, s: State)
    requires Numbered(s) && d.dropped >= 0
    ensures Numbered(DropStep(d, s))
  {
    Add(s.log, Drop(d.dropped));
    CarriesSnoc(s.log, Drop(d.dropped));
    AdvanceAdds(Issued(s.log), d.dropped);
  }

  lemma ReducesSnoc(data: seq<RecordHeader>, truth: seq<int>, h: RecordHeader, t: int)
    requires Reduces(data, truth) && h.seqNo == t % TWO_32
    ensures Reduces(data + [h], truth + [t])
  {
  }

  lemma NumberedEmit(h: RecordHeader, payload: seq<byte>, gapNs: int, s: State)
    requires Numbered(s) && h.seqNo == s.seqNo
    requires h.magic == HMB_RECORD_MAGIC && |payload| == Max(0, h.payloadLen)
    ensures Numbered(EmitStep(h, payload, gapNs, s))
  {
    if h.InRange() {
      LogOkSnoc(s.log, Emit(h, payload));
      CarriesSnoc(s.log, Emit(h, payload));
      AdvanceAdds(Issued(s.log), 1);
      ReducesWrite(s.log, h, payload);
    }
  }

  lemma LogOkSnoc(log: seq<Event>, e: Event)
    requires LogOk(log) && (e.Emit? ==> Encodable(e.header, e.payload))
    ensures LogOk(log + [e])
  {
  }

  lemma ReducesWrite(log: seq<Event>, h: RecordHeader, payload: seq<byte>)
    requires Reduces(DataHeaders(log), TrueSeqs(log)) && h.seqNo == Issued(log) % TWO_32
    ensures var more := log + [Emit(h, payload)];
            Reduces(DataHeaders(more), TrueSeqs(more)) && Issued(more) == Issued(log) + 1
  {
    Add(log, Emit(h, payload));
    ReducesSnoc(DataHeaders(log), TrueSeqs(log), h, Issued(log));
  }

  lemma {:induction false} EveryRunNumbered(opts: SynthOptions, tape: Tape, n: nat)
    requires ValidTape(opts, tape) && n <= |tape.draws|
    ensures Numbered(After(opts, tape, n))
  {
    if n > 0 {
      EveryRunNumbered(opts, tape, n - 1);
      var s, d := After(opts, tape, n - 1), tape.draws[n - 1];
      if s.error.None? {
        NumberedDrop(d, s);
        NumberedEmit(MarkerHeader(s), [], d.markerGapNs, s);
        var s' := MarkerStep(opts, n - 1, d, s);
        NumberedEmit(DataHeader(opts, n - 1, d, s'), d.payload, d.gapNs, s');
      }
    }
  }

  // ---------- pace: how far apart the numbers of data records can be ----------

  /** Numbers used up since the last data record, that record's own included. */
  function Behind(log: seq<Event>): int
  {
    if TrueSeqs(log) == [] then 0 else Issued(log) - Last(TrueSeqs(log))
  }

  ghost predicate AlwaysDrops(opts: SynthOptions)
  {
    opts.dropEvery == 1 || opts.dropEvery == -1
  }

  lemma NeverTwiceInARow(every: int, i: nat)
    requires Due(every, i) && Due(every, i + 1)
    ensures every == 1 || every == -1
  {
    var a, b := i / every, (i + 1) / every;
    assert i == every * a && i + 1 == every * b;
    assert every * (b - a) == 1;
    UnitFactor(every, b - a);
  }

  lemma UnitFactor(x: int, y: int)
    ensures x * y == 1 ==> x == 1 || x == -1
  {
    if x > 1 {
      if y >= 1 {
        assert x * y >= x;
      } else {
        assert x * y <= 0;
      }
    } else if x < -1 {
      if y <= -1 {
        assert x * y >= -x;
      } else {
        assert x * y <= 0;
      }
    }
  }

  lemma AlwaysDue(opts: SynthOptions, i: nat)
    requires AlwaysDrops(opts) && i > 0
    ensures Due(opts.dropEvery, i)
  {
  }

  ghost predicate Paced(opts: SynthOptions, n: nat, s: State)
  {
    && StepsWithin(TrueSeqs(s.log), 1, 5)
    && (TrueSeqs(s.log) != [] ==> TrueSeqs(s.log)[0] == 0)
    && (n == 0 ==> s.log == [])
    && (n > 0 && s.error.None? ==>
          && TrueSeqs(s.log) != []
          && 1 <= Behind(s.log)
          && (!AlwaysDrops(opts) ==> Behind(s.log) <= if Due(opts.dropEvery, n - 1) then 4 else 1))
  }

  lemma {:induction false} EveryRunPaced(opts: SynthOptions, tape: Tape, n: nat)
    requires ValidTape(opts, tape) && n <= |tape.draws|
    ensures Paced(opts, n, After(opts, tape, n))
  {
    if n > 0 {
      EveryRunPaced(opts, tape, n - 1);
      var i, s, d := n - 1, After(opts, tape, n - 1), tape.draws[n - 1];
      if s.error.None? {
        if Due(opts.dropEvery, i) {
          PacedDrop(opts, i, d, s);
        } else {
          PacedEmit(opts, i, d, s);
        }
      }
    }
  }

  lemma PacedDrop(opts: SynthOptions, i: nat, d: Draw, s: State)
    requires Paced(opts, i, s) && s.error.None? && Due(opts.dropEvery, i) && ValidDraw(opts, d)
    ensures Paced(opts, i + 1, DropStep(d, s))
  {
    Add(s.log, Drop(d.dropped));
    if Due(opts.dropEvery, i - 1) {
      NeverTwiceInARow(opts.dropEvery, i - 1);
    }
  }

  lemma PaceSnoc(truth: seq<int>, t: int)
    requires StepsWithin(truth, 1, 5) && (truth != [] ==> 1 <= t - Last(truth) <= 5)
    ensures StepsWithin(truth + [t], 1, 5)
  {
  }

  lemma PacedEmit(opts: SynthOptions, i: nat, d: Draw, s: State)
    requires Paced(opts, i, s) && s.error.None? && !Due(opts.dropEvery, i) && 0 <= d.dropped
    ensures Paced(opts, i + 1, Step(opts, i, d, s))
  {
    assert i > 0 ==> 1 <= Behind(s.log) <= 4 by {
      if i > 0 && AlwaysDrops(opts) {
        AlwaysDue(opts, i);
      }
    }
    AfterMarker(opts, i, d, s);
    var s' := MarkerStep(opts, i, d, s);
    if s'.error.None? {
      AfterData(opts, i, d, s');
      PaceSnoc(TrueSeqs(s.log), Issued(s'.log));
    }
  }

  // ---------- clock ----------

  ghost predicate TicksWithin(data: seq<RecordHeader>, lo: int, hi: int)
  {
    forall k | 0 <= k < |data| - 1 :: lo <= data[k + 1].tsNs - data[k].tsNs <= hi
  }

  ghost predicate Timed(n: nat, s: State)
  {
    && TicksWithin(DataHeaders(s.log), 500, 5_005_000)
    && (n == 0 ==> s.log == [])
    && (n > 0 && s.error.None? ==>
          DataHeaders(s.log) != [] && 500 <= s.tsNs - Last(DataHeaders(s.log)).tsNs <= 5_000_000)
  }

  lemma {:induction false} EveryRunTimed(opts: SynthOptions, tape: Tape, n: nat)
    requires ValidTape(opts, tape) && n <= |tape.draws|
    ensures Timed(n, After(opts, tape, n))
  {
    if n > 0 {
      EveryRunTimed(opts, tape, n - 1);
      var i, s, d := n - 1, After(opts, tape, n - 1), tape.draws[n - 1];
      if s.error.None? {
        if Due(opts.dropEvery, i) {
          TimedDrop(i, d, s);
        } else {
          TimedEmit(opts, i, d, s);
        }
      }
    }
  }

  lemma TimedDrop(i: nat, d: Draw, s: State)
    requires Timed(i, s) && s.error.None? && i > 0 && 0 <= d.dropped
    ensures Timed(i + 1, DropStep(d, s))
  {
    Add(s.log, Drop(d.dropped));
  }

  lemma TicksSnoc(data: seq<RecordHeader>, h: RecordHeader, lo: int, hi: int)
    requires TicksWithin(data, lo, hi) && (data != [] ==> lo <= h.tsNs - Last(data).tsNs <= hi)
    ensures TicksWithin(data + [h], lo, hi)
  {
    var more := data + [h];
    assert forall k | 0 <= k < |data| :: more[k] == data[k];
  }

  lemma TimedEmit(opts: SynthOptions, i: nat, d: Draw, s: State)
    requires Timed(i, s) && s.error.None? && !Due(opts.dropEvery, i)
    requires 0 <= d.dropped && 50 <= d.markerGapNs <= 5_000 && 500 <= d.gapNs <= 5_000_000
    ensures Timed(i + 1, Step(opts, i, d, s))
  {
    AfterMarker(opts, i, d, s);
    var s' := MarkerStep(opts, i, d, s);
    if s'.error.None? {
      TimedData(opts, i, d, s');
    }
  }

  lemma TimedData(opts: SynthOptions, i: nat, d: Draw, s: State)
    requires s.error.None? && 500 <= d.gapNs <= 5_000_000
    requires TicksWithin(DataHeaders(s.log), 500, 5_005_000)
    requires DataHeaders(s.log) != [] ==> 500 <= s.tsNs - Last(DataHeaders(s.log)).tsNs <= 5_005_000
    ensures Timed(i + 1, DataStep(opts, i, d, s))
  {
    AfterData(opts, i, d, s);
    TicksSnoc(DataHeaders(s.log), DataHeader(opts, i, d, s), 500, 5_005_000);
  }

  /** A wrap marker as the generator writes it: no payload, and zero in every field it does not use. */
  predicate BareMarker(h: RecordHeader, payload: seq<byte>)
  {
    && payload == [] && h.payloadLen == 0
    && h.flags == HMB_REC_FLAG_WRAP_MARKER
    && h.opcode == h.cpu == h.reserved0 == h.reserved1 == 0
  }

  /**
    * All records written, markers included, are at least 50 ns apart in the order of the dump, and
    * the clock is past them; a marker is a bare header.
    */
  ghost predicate Ordered(s: State)
  {
    && (forall k | 0 <= k < |s.log| && s.log[k].Emit? :: s.log[k].header.tsNs + 50 <= s.tsNs)
    && (forall j, k | 0 <= j < k < |s.log| && s.log[j].Emit? && s.log[k].Emit? ::
          s.log[j].header.tsNs + 50 <= s.log[k].header.tsNs)
    && (forall k | 0 <= k < |s.log| && s.log[k].IsMarker() :: BareMarker(s.log[k].header, s.log[k].payload))
  }

  lemma OrderedEmit(h: RecordHeader, payload: seq<byte>, gapNs: int, s: State)
    requires Ordered(s) && h.tsNs == s.tsNs && gapNs >= 50
    requires h.IsWrapMarker() ==> BareMarker(h, payload)
    ensures Ordered(EmitStep(h, payload, gapNs, s))
  {
  }

  lemma OrderedDrop(d: Draw, s: State)
    requires Ordered(s) && 0 <= d.dropped
    ensures Ordered(DropStep(d, s))
  {
  }

  lemma OrderedWrite(opts: SynthOptions, i: nat, d: Draw, s: State)
    requires Ordered(s) && s.error.None? && !Due(opts.dropEvery, i)
    requires 0 <= d.dropped && 50 <= d.markerGapNs && 50 <= d.gapNs
    ensures Ordered(Step(opts, i, d, s))
  {
    OrderedEmit(MarkerHeader(s), [], d.markerGapNs, s);
    var s' := MarkerStep(opts, i, d, s);
    HeaderKinds(opts, i, d, s');
    OrderedEmit(DataHeader(opts, i, d, s'), d.payload, d.gapNs, s');
  }

  lemma {:induction false} EveryRunOrdered(opts: SynthOptions, tape: Tape, n: nat)
    requires ValidTape(opts, tape) && n <= |tape.draws|
    ensures Ordered(After(opts, tape, n))
  {
    if n > 0 {
      EveryRunOrdered(opts, tape, n - 1);
      OrderedStep(opts, n - 1, tape.draws[n - 1], After(opts, tape, n - 1));
    }
  }

  lemma OrderedStep(opts: SynthOptions, i: nat, d: Draw, s: State)
    requires Ordered(s) && 0 <= d.dropped && 50 <= d.markerGapNs && 50 <= d.gapNs
    ensures Ordered(Step(opts, i, d, s))
  {
    if s.error.None? {
      if Due(opts.dropEvery, i) {
        OrderedDrop(d, s);
      } else {
        OrderedWrite(opts, i, d, s);
      }
    }
  }

  // ---------- counts ----------

  /** Iterations before n at which the one period is due and the other is not. */
  function Hits(every: int, except: int, n: nat): nat
  {
    if n == 0 then 0
    else Hits(every, except, n - 1) + if Due(every, n - 1) && !Due(except, n - 1) then 1 else 0
  }

  ghost predicate Counted(opts: SynthOptions, n: nat, s: State)
  {
    var data := DataHeaders(s.log);
    s.error.None? ==>
      && |data| == n - Hits(opts.dropEvery, 0, n)
      && CountWithBit(data, TRUNCATED_BIT) == Hits(opts.truncateEvery, opts.dropEvery, n)
      && MarkersIn(s.log) == MarkersIn(BeforeLastData(s.log)) == Hits(opts.wrapEvery, opts.dropEvery, n)
  }

  lemma {:induction false} EveryRunCounted(opts: SynthOptions, tape: Tape, n: nat)
    requires ValidTape(opts, tape) && n <= |tape.draws|
    ensures Counted(opts, n, After(opts, tape, n))
  {
    if n > 0 {
      EveryRunCounted(opts, tape, n - 1);
      CountedStep(opts, n - 1, tape.draws[n - 1], After(opts, tape, n - 1));
    }
  }

  lemma CountedStep(opts: SynthOptions, i: nat, d: Draw, s: State)
    requires Counted(opts, i, s) && 0 <= d.dropped
    ensures Counted(opts, i + 1, Step(opts, i, d, s))
  {
    if s.error.None? {
      if Due(opts.dropEvery, i) {
        CountedDrop(opts, i, d, s);
      } else {
        CountedEmit(opts, i, d, s);
      }
    }
  }

  lemma CountedDrop(opts: SynthOptions, i: nat, d: Draw, s: State)
    requires Counted(opts, i, s) && s.error.None? && Due(opts.dropEvery, i) && 0 <= d.dropped
    ensures Counted(opts, i + 1, DropStep(d, s))
  {
    Add(s.log, Drop(d.dropped));
    assert !Due(0, i);
  }

  lemma CountedEmit(opts: SynthOptions, i: nat, d: Draw, s: State)
    requires Counted(opts, i, s) && s.error.None? && !Due(opts.dropEvery, i) && 0 <= d.dropped
    ensures Counted(opts, i + 1, Step(opts, i, d, s))
  {
    AfterMarker(opts, i, d, s);
    var s' := MarkerStep(opts, i, d, s);
    if s'.error.None? {
      AfterData(opts, i, d, s');
      HeaderKinds(opts, i, d, s');
      assert Init(DataHeaders(s'.log) + [DataHeader(opts, i, d, s')]) == DataHeaders(s'.log);
    }
  }

  // ---------- contents ----------

  /** The fields of a data record are within what the options and the draws allow. */
  ghost predicate Drawn(opts: SynthOptions, h: RecordHeader)
  {
    && h.opcode in OPCODES
    && 0 <= h.cpu < Max(1, opts.cpus)
    && 0 <= h.payloadLen <= opts.maxPayload
    && (h.flags == 0 || h.flags == HMB_REC_FLAG_TRUNCATED)
    && h.reserved0 == h.reserved1 == 0
  }

  ghost predicate AllDrawn(opts: SynthOptions, tape: Tape, n: nat, s: State)
  {
    var data := DataHeaders(s.log);
    && (forall k | 0 <= k < |data| :: Drawn(opts, data[k]))
    && (data != [] ==> data[0].seqNo == 0 && data[0].tsNs == Start(opts, tape).tsNs)
    && (n == 0 ==> s == Start(opts, tape))
    && (n > 0 && s.error.None? ==> data != [])
  }

  lemma {:induction false} EveryRunDrawn(opts: SynthOptions, tape: Tape, n: nat)
    requires ValidTape(opts, tape) && n <= |tape.draws|
    ensures AllDrawn(opts, tape, n, After(opts, tape, n))
  {
    if n > 0 {
      EveryRunDrawn(opts, tape, n - 1);
      var i, s, d := n - 1, After(opts, tape, n - 1), tape.draws[n - 1];
      if s.error.None? {
        if Due(opts.dropEvery, i) {
          Add(s.log, Drop(d.dropped));
        } else {
          DrawnEmit(opts, tape, i, d, s);
        }
      }
    }
  }

  lemma DrawnHeader(opts: SynthOptions, i: nat, d: Draw, s: State)
    requires ValidDraw(opts, d) && !(d.large && opts.maxPayload / 2 > opts.maxPayload)
    requires DataHeader(opts, i, d, s).InRange()
    ensures Drawn(opts, DataHeader(opts, i, d, s))
  {
  }

  lemma DrawnEmit(opts: SynthOptions, tape: Tape, i: nat, d: Draw, s: State)
    requires AllDrawn(opts, tape, i, s) && s.error.None? && !Due(opts.dropEvery, i) && ValidDraw(opts, d)
    ensures AllDrawn(opts, tape, i + 1, Step(opts, i, d, s))
  {
    AfterMarker(opts, i, d, s);
    var s' := MarkerStep(opts, i, d, s);
    if s'.error.None? {
      AfterData(opts, i, d, s');
      if DataStep(opts, i, d, s').error.None? {
        DrawnHeader(opts, i, d, s');
      }
    }
  }
}
