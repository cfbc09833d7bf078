/**
  * The pipeline as a whole: what decoding a generated dump and computing its statistics says about
  * the run that wrote it, for every option set and every tape of random draws.
  */
module EndToEnd {
  import opened Basics
  import opened Format
  import opened Stream
  import opened Grammar
  import opened Encoder
  import opened Stats
  import opened StatsLaws
  import Synth
  import opened Ledger
  import opened Counting

  /** The dump a run leaves behind, whole or cut short by an error. */
  ghost function DumpOf(opts: Synth.SynthOptions, tape: Synth.Tape): seq<byte>
    requires Synth.ValidTape(opts, tape)
  {
    EveryRunNumbered(opts, tape, |tape.draws|);
    Synth.Dump(Synth.Final(opts, tape).log)
  }

  /** What the analyzer computes from it in the default mode. */
  ghost function StatsOf(opts: Synth.SynthOptions, tape: Synth.Tape): Summary
    requires Synth.ValidTape(opts, tape)
  {
    Summarize(Select(Decode(DumpOf(opts, tape)).records, false))
  }

  // ---------- the dump holds the log ----------

  lemma DataSnoc(records: seq<Record>, r: Record)
    ensures Data(records + [r]) == Data(records) + if r.IsWrapMarker() then [] else [r.header]
    ensures Markers(records + [r]) == Markers(records) + if r.IsWrapMarker() then 1 else 0
  {
    assert Init(records + [r]) == records;
  }

  lemma {:induction false} LogDecodes(log: seq<Synth.Event>)
    requires Synth.LogOk(log)
    ensures Data(Records(Synth.Chunks(log))) == DataHeaders(log)
    ensures Markers(Records(Synth.Chunks(log))) == MarkersIn(log)
  {
    if log != [] {
      var before, e := Init(log), Last(log);
      assert log == before + [e];
      LogDecodes(before);
      Add(before, e);
      Synth.DumpSnoc(before, e);
      if e.Emit? {
        PackIsChunk(e.header, e.payload);
        var chunks := Synth.Chunks(before);
        Snoc(chunks, ZeroPadded(e.header, e.payload));
        DataSnoc(Records(chunks), Record(|Flatten(chunks)|, e.header, e.payload));
      }
    }
  }

  /**
    * Whatever the run, its dump decodes without an error to exactly the records of the log, each
    * header and payload in order and at the offset where it was written.
    */
  lemma DumpDecodes(opts: Synth.SynthOptions, tape: Synth.Tape)
    requires Synth.ValidTape(opts, tape)
    ensures var d, log := Decode(DumpOf(opts, tape)), Synth.Final(opts, tape).log;
            && Synth.LogOk(log)
            && d == Decoded(Records(Synth.Chunks(log)), Done)
            && SpanOf(d.records) == |DumpOf(opts, tape)|
            && Data(d.records) == Data(Select(d.records, false)) == DataHeaders(log)
            && Markers(d.records) == MarkersIn(log)
  {
    EveryRunNumbered(opts, tape, |tape.draws|);
    var log := Synth.Final(opts, tape).log;
    DecodeFlatten(Synth.Chunks(log));
    LogDecodes(log);
    DecodeTiles(DumpOf(opts, tape));
    DataOfSelected(Decode(DumpOf(opts, tape)).records);
  }

  /** The analyzer's statistics are those of the data records of the log. */
  lemma StatsOfLog(opts: Synth.SynthOptions, tape: Synth.Tape)
    requires Synth.ValidTape(opts, tape)
    ensures var data := DataHeaders(Synth.Final(opts, tape).log);
            StatsOf(opts, tape) == Summary(0, CountersOf(data), TimingOf(Samples(data)), Gaps(data))
  {
    DumpDecodes(opts, tape);
    DataOfSelected(Decode(DumpOf(opts, tape)).records);
  }

  // ---------- the ledger is recovered ----------

  /**
    * The drop estimate is the ledger: the numbers skipped by forced drops before the last data
    * record, plus one for each wrap marker before it. In a run without an error that is every
    * marker. It holds however often the 32-bit sequence number wraps.
    */
  lemma LedgerRecovered(opts: Synth.SynthOptions, tape: Synth.Tape)
    requires Synth.ValidTape(opts, tape)
    ensures var run := Synth.Final(opts, tape);
            var before := BeforeLastData(run.log);
            && StatsOf(opts, tape).TotalDropped() == Dropped(before) + MarkersIn(before)
            && (run.error.None? ==> MarkersIn(before) == MarkersIn(run.log))
  {
    StatsOfLog(opts, tape);
    LoggedGaps(opts, tape);
    EveryRunCounted(opts, tape, |tape.draws|);
  }

  lemma LoggedGaps(opts: Synth.SynthOptions, tape: Synth.Tape)
    requires Synth.ValidTape(opts, tape)
    ensures var log := Synth.Final(opts, tape).log;
            SumDropped(Gaps(DataHeaders(log))) == Dropped(BeforeLastData(log)) + MarkersIn(BeforeLastData(log))
  {
    var log := Synth.Final(opts, tape).log;
    EveryRunNumbered(opts, tape, |tape.draws|);
    EveryRunPaced(opts, tape, |tape.draws|);
    IssuedSplits(BeforeLastData(log));
    if DataHeaders(log) != [] {
      DropEstimateExact(DataHeaders(log), TrueSeqs(log));
      LastTrueSeq(log);
    } else {
      NothingBefore(log);
    }
  }

  lemma {:induction false} NothingBefore(log: seq<Synth.Event>)
    requires DataHeaders(log) == []
    ensures BeforeLastData(log) == []
  {
    if log != [] {
      NothingBefore(Init(log));
    }
  }

  /** Markers a clean run emits. */
  ghost function MarkerCount(opts: Synth.SynthOptions): int
  {
    if opts.count <= 0 then 0
    else Multiples(opts.count - 1, opts.wrapEvery) - Common(opts.count - 1, opts.wrapEvery, opts.dropEvery)
  }

  lemma CleanRunMarkers(opts: Synth.SynthOptions, tape: Synth.Tape)
    requires Synth.ValidTape(opts, tape) && Synth.Final(opts, tape).error.None?
    ensures MarkersIn(Synth.Final(opts, tape).log) == MarkerCount(opts)
  {
    EveryRunCounted(opts, tape, |tape.draws|);
    if opts.count > 0 {
      HitsClosedForm(opts.wrapEvery, opts.dropEvery, opts.count);
    }
  }

  // ---------- counts ----------

  /** How many records, truncated records and markers a clean run leaves in its dump. */
  lemma {:induction false} CleanRunCounts(opts: Synth.SynthOptions, tape: Synth.Tape)
    requires Synth.ValidTape(opts, tape) && Synth.Final(opts, tape).error.None?
    ensures var s := StatsOf(opts, tape);
            var m := opts.count - 1;
            && Markers(Decode(DumpOf(opts, tape)).records) == MarkerCount(opts)
            && (opts.count <= 0 ==> s.counters.totalRecords == s.counters.truncatedRecords == 0)
            && (opts.count > 0 ==>
                  && s.counters.totalRecords == opts.count - Multiples(m, opts.dropEvery)
                  && s.counters.truncatedRecords ==
                     Multiples(m, opts.truncateEvery) - Common(m, opts.truncateEvery, opts.dropEvery))
  {
    DumpDecodes(opts, tape);
    CleanRunMarkers(opts, tape);
    if opts.count > 0 {
      DataCounts(opts, tape);
    } else {
      CountsInHits(opts, tape, 0);
    }
  }

  lemma {:induction false} DataCounts(opts: Synth.SynthOptions, tape: Synth.Tape)
    requires Synth.ValidTape(opts, tape) && Synth.Final(opts, tape).error.None? && opts.count > 0
    ensures var c, m := StatsOf(opts, tape).counters, opts.count - 1;
            && c.totalRecords == opts.count - Multiples(m, opts.dropEvery)
            && c.truncatedRecords == Multiples(m, opts.truncateEvery) - Common(m, opts.truncateEvery, opts.dropEvery)
  {
    CountsInHits(opts, tape, opts.count);
    ClosedCounts(opts, opts.count);
  }

  lemma {:induction false} CountsInHits(opts: Synth.SynthOptions, tape: Synth.Tape, n: nat)
    requires Synth.ValidTape(opts, tape) && Synth.Final(opts, tape).error.None? && n == |tape.draws|
    ensures var c := StatsOf(opts, tape).counters;
            && c.totalRecords == n - Hits(opts.dropEvery, 0, n)
            && c.truncatedRecords == Hits(opts.truncateEvery, opts.dropEvery, n)
  {
    StatsOfLog(opts, tape);
    EveryRunCounted(opts, tape, n);
  }

  lemma ClosedCounts(opts: Synth.SynthOptions, n: nat)
    requires n > 0
    ensures Hits(opts.dropEvery, 0, n) == Multiples(n - 1, opts.dropEvery)
    ensures Hits(opts.truncateEvery, opts.dropEvery, n) ==
            Multiples(n - 1, opts.truncateEvery) - Common(n - 1, opts.truncateEvery, opts.dropEvery)
  {
    HitsClosedForm(opts.dropEvery, 0, n);
    HitsClosedForm(opts.truncateEvery, opts.dropEvery, n);
  }

  // ---------- time ----------

  ghost predicate Within(xs: seq<int>, lo: int, hi: int)
  {
    forall k | 0 <= k < |xs| :: lo <= xs[k] <= hi
  }

  lemma {:induction false} ForwardKeepsAll(steps: seq<int>, hi: int)
    requires Within(steps, 0, hi)
    ensures Forward(steps) == steps
  {
    if steps != [] {
      var before, last := Init(steps), Last(steps);
      assert steps == before + [last];
      assert last >= 0;
      ForwardKeepsAll(before, hi);
    }
  }

  lemma TicksAreSteps(data: seq<RecordHeader>, lo: int, hi: int)
    requires TicksWithin(data, lo, hi)
    ensures Within(Steps(data), lo, hi)
  {
    forall k | 0 <= k < |Steps(data)|
      ensures lo <= Steps(data)[k] <= hi
    {
      StepAtIndex(data, k);
    }
  }

  lemma {:induction false} NoneUnder(samples: seq<int>, key: int)
    requires Within(samples, 500, 5_005_000)
    requires key in {100, 100_000_000, 1_000_000_000, OVERFLOW}
    ensures CountUnder(samples, key) == 0
  {
    if samples != [] {
      NoneUnder(Init(samples), key);
      FarBuckets(Last(samples));
    }
  }

  lemma FarBuckets(dt: int)
    requires 500 <= dt <= 5_005_000
    ensures !BelongsTo(dt, 100) && !BelongsTo(dt, 100_000_000) && !BelongsTo(dt, 1_000_000_000)
    ensures !BelongsTo(dt, OVERFLOW)
  {
  }

  /** Statistics of steps that are all between 500 ns and 5.005 ms. */
  ghost predicate ForwardTiming(t: Timing)
  {
    && (t.samples > 0 ==> t.minNs.Some? && t.maxNs.Some? && 500 <= t.minNs.value && t.maxNs.value <= 5_005_000)
    && forall key | key in {100, 100_000_000, 1_000_000_000, OVERFLOW} :: key in t.histogram && t.histogram[key] == 0
  }

  lemma ForwardTimingOf(samples: seq<int>)
    requires Within(samples, 500, 5_005_000)
    ensures ForwardTiming(TimingOf(samples))
  {
    HistogramCounts(samples);
    KeysNamed();
    forall key | key in {100, 100_000_000, 1_000_000_000, OVERFLOW}
      ensures CountUnder(samples, key) == 0
    {
      NoneUnder(samples, key);
    }
    if samples != [] {
      assert samples[0] in samples;
    }
  }

  lemma SteadyTicks(records: seq<Record>)
    requires TicksWithin(Data(records), 500, 5_005_000)
    ensures var s := Summarize(records);
            s.dt.samples == Max(s.counters.totalRecords - 1, 0) && s.dt.totalNs == s.DurationNs()
    ensures Within(Samples(Data(records)), 500, 5_005_000)
  {
    if Data(records) != [] {
      SteadyData(Data(records));
    }
  }

  lemma SteadyData(data: seq<RecordHeader>)
    requires TicksWithin(data, 500, 5_005_000) && data != []
    ensures |Samples(data)| == |data| - 1 && Sum(Samples(data)) == Last(data).tsNs - data[0].tsNs
    ensures Within(Samples(data), 500, 5_005_000)
  {
    TicksAreSteps(data, 500, 5_005_000);
    ForwardKeepsAll(Steps(data), 5_005_000);
    StepsTelescope(data);
  }

  /**
    * Time in a generated dump only moves forward, by 500 ns to 5.005 ms between data records. So
    * every pair is sampled, the samples add up to the duration, and the shortest bucket and the
    * three longest stay empty.
    */
  lemma GeneratedTimeMovesForward(opts: Synth.SynthOptions, tape: Synth.Tape)
    requires Synth.ValidTape(opts, tape)
    ensures var s := StatsOf(opts, tape);
            && TicksWithin(DataHeaders(Synth.Final(opts, tape).log), 500, 5_005_000)
            && s.dt.samples == Max(s.counters.totalRecords - 1, 0)
            && s.dt.totalNs == s.DurationNs()
            && ForwardTiming(s.dt)
  {
    DumpDecodes(opts, tape);
    EveryRunTimed(opts, tape, |tape.draws|);
    var records := Select(Decode(DumpOf(opts, tape)).records, false);
    SteadyTicks(records);
    ForwardTimingOf(Samples(Data(records)));
  }

  lemma KeysNamed()
    ensures {100, 100_000_000, 1_000_000_000, OVERFLOW} <= Keys()
  {
    assert DT_BUCKETS_NS[0] == 100 && DT_BUCKETS_NS[6] == 100_000_000 && DT_BUCKETS_NS[7] == 1_000_000_000;
  }

  // ---------- contents ----------

  /**
    * The statistics of a generated dump show only opcodes of the catalogue, only cores below the
    * number asked for, no payload above the bound, and the base timestamp first.
    */
  lemma GeneratedContents(opts: Synth.SynthOptions, tape: Synth.Tape)
    requires Synth.ValidTape(opts, tape)
    ensures var c := StatsOf(opts, tape).counters;
            && (forall op | op in c.byOpcode :: op in Synth.OPCODES)
            && (forall cpu | cpu in c.byCpu :: 0 <= cpu < Max(1, opts.cpus))
            && (c.payloadSizeMax.Some? ==> c.payloadSizeMin.Some?)
            && (c.payloadSizeMax.Some? ==> 0 <= c.payloadSizeMin.value <= c.payloadSizeMax.value <= opts.maxPayload)
            && (c.totalRecords > 0 ==> c.firstTsNs == Some(Synth.Start(opts, tape).tsNs))
  {
    DumpDecodes(opts, tape);
    EveryRunDrawn(opts, tape, |tape.draws|);
    DrawnCounters(opts, DataHeaders(Synth.Final(opts, tape).log));
  }

  lemma {:induction false} DrawnCounters(opts: Synth.SynthOptions, data: seq<RecordHeader>)
    requires forall k | 0 <= k < |data| :: Drawn(opts, data[k])
    ensures var c := CountersOf(data);
            && (forall op | op in c.byOpcode :: op in Synth.OPCODES)
            && (forall cpu | cpu in c.byCpu :: 0 <= cpu < Max(1, opts.cpus))
            && (c.payloadSizeMax.Some? ==> c.payloadSizeMin.Some?)
            && (c.payloadSizeMax.Some? ==> 0 <= c.payloadSizeMin.value <= c.payloadSizeMax.value <= opts.maxPayload)
  {
    var ops, cpus, lens := Opcodes(data), Cpus(data), PayloadLens(data);
    forall i | 0 <= i < |data|
      ensures ops[i] == data[i].opcode && cpus[i] == data[i].cpu && lens[i] == data[i].payloadLen
    {
      ProjectAt((h: RecordHeader) => h.opcode, data, i);
      ProjectAt((h: RecordHeader) => h.cpu, data, i);
      ProjectAt((h: RecordHeader) => h.payloadLen, data, i);
    }
    assert forall op | op in multiset(ops) :: op in ops;
    assert forall cpu | cpu in multiset(cpus) :: cpu in cpus;
    if lens != [] {
      assert lens[0] in lens;
    }
  }

  // ---------- joining dumps ----------

  lemma {:induction false} ShiftKeepsData(records: seq<Record>, n: nat)
    ensures Data(Shift(records, n)) == Data(records) && Markers(Shift(records, n)) == Markers(records)
  {
    if records != [] {
      ShiftKeepsData(Init(records), n);
      assert Init(Shift(records, n)) == Shift(Init(records), n);
    }
  }

  /**
    * The statistics of two dumps joined end to end merge as those of their record lists do, in the
    * default mode and with the markers included.
    */
  lemma JoinedDumpsMerge(a: seq<byte>, b: seq<byte>, includeWrapMarkers: bool)
    requires Decode(a).outcome.Done?
    ensures var ra := Select(Decode(a).records, includeWrapMarkers);
            var rb := Select(Decode(b).records, includeWrapMarkers);
            var s, sa, sb := Summarize(Select(Decode(a + b).records, includeWrapMarkers)), Summarize(ra), Summarize(rb);
            && s.wrapMarkers == sa.wrapMarkers + sb.wrapMarkers
            && CountersMerge(s.counters, sa.counters, sb.counters)
            && s.seqGaps == sa.seqGaps + SeamGap(Data(ra), Data(rb)) + sb.seqGaps
            && TimingMerges(s.dt, sa.dt, Forward(SeamStep(Data(ra), Data(rb))), sb.dt)
  {
    var rb := Select(Decode(b).records, includeWrapMarkers);
    SelectedConcat(a, b, includeWrapMarkers);
    ShiftKeepsData(rb, |a|);
    StatsMerge(Select(Decode(a).records, includeWrapMarkers), Shift(rb, |a|));
  }
}
