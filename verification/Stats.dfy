/**
  * The single-pass statistics: a specification field by field over the list of data records, and
  * the loop over mutable accumulators that computes it.
  */
module Stats {
  import opened Basics
  import opened Format
  import opened Stream

  const DT_BUCKETS_NS: seq<int> :=
    [100, 1_000, 10_000, 100_000, 1_000_000, 10_000_000, 100_000_000, 1_000_000_000]

  // Histogram key of the samples above the last bound.
  const OVERFLOW: int := 0

  /** A jump in the sequence numbers between two data records that follow each other. */
  datatype SeqGap = SeqGap(prevSeq: int, nextSeq: int, prevTsNs: int, nextTsNs: int)
  {
    /** How many numbers the jump leaves out: so many more increments than one reach nextSeq. */
    function DroppedCount(): (r: int)
      ensures 0 <= r < TWO_32
      ensures (prevSeq + 1 + r) % TWO_32 == nextSeq % TWO_32
    {
      (nextSeq - prevSeq - 1) % TWO_32
    }
  }

  function SumDropped(gaps: seq<SeqGap>): int
  {
    if gaps == [] then 0 else SumDropped(Init(gaps)) + Last(gaps).DroppedCount()
  }

  // ---------- the specification ----------

  /** Headers of the records that are not wrap markers. */
  function Data(records: seq<Record>): seq<RecordHeader>
  {
    if records == [] then []
    else if Last(records).IsWrapMarker() then Data(Init(records))
    else Data(Init(records)) + [Last(records).header]
  }

  function Markers(records: seq<Record>): nat
  {
    if records == [] then 0
    else Markers(Init(records)) + if Last(records).IsWrapMarker() then 1 else 0
  }

  function Opcodes(data: seq<RecordHeader>): seq<int>
  {
    Project((h: RecordHeader) => h.opcode, data)
  }

  function Cpus(data: seq<RecordHeader>): seq<int>
  {
    Project((h: RecordHeader) => h.cpu, data)
  }

  function PayloadLens(data: seq<RecordHeader>): seq<int>
  {
    Project((h: RecordHeader) => h.payloadLen, data)
  }

  function BitsOf(flags: int): set<nat>
  {
    set bit: nat | bit < 8 && HasBit(flags, bit)
  }

  function FlagBits(data: seq<RecordHeader>): multiset<nat>
  {
    if data == [] then multiset{} else FlagBits(Init(data)) + multiset(BitsOf(Last(data).flags))
  }

  function CountWithBit(data: seq<RecordHeader>, bit: nat): nat
  {
    if data == [] then 0
    else CountWithBit(Init(data), bit) + if HasBit(Last(data).flags, bit) then 1 else 0
  }

  /** Time steps between adjacent data records, backward ones included. */
  function Steps(data: seq<RecordHeader>): (r: seq<int>)
    ensures |r| == if data == [] then 0 else |data| - 1
  {
    if |data| < 2 then []
    else Steps(Init(data)) + [Last(data).tsNs - Last(Init(data)).tsNs]
  }

  /** The steps that are sampled: those that do not go back. */
  function Forward(steps: seq<int>): (r: seq<int>)
    ensures forall i | 0 <= i < |r| :: r[i] >= 0
  {
    if steps == [] then []
    else if Last(steps) < 0 then Forward(Init(steps))
    else Forward(Init(steps)) + [Last(steps)]
  }

  function Backward(steps: seq<int>): (r: seq<int>)
    ensures forall i | 0 <= i < |r| :: r[i] < 0
  {
    if steps == [] then []
    else if Last(steps) < 0 then Backward(Init(steps)) + [Last(steps)]
    else Backward(Init(steps))
  }

  function Samples(data: seq<RecordHeader>): seq<int>
  {
    Forward(Steps(data))
  }

  /** The sample dt is counted under key: at most the bound key and above the one before it. */
  predicate BelongsTo(dt: int, key: int)
  {
    if key == OVERFLOW then dt > Last(DT_BUCKETS_NS)
    else exists i | 0 <= i < |DT_BUCKETS_NS| ::
           key == DT_BUCKETS_NS[i] && dt <= key && (i == 0 || DT_BUCKETS_NS[i - 1] < dt)
  }

  function CountUnder(samples: seq<int>, key: int): nat
  {
    if samples == [] then 0
    else CountUnder(Init(samples), key) + if BelongsTo(Last(samples), key) then 1 else 0
  }

  function Keys(): set<int>
  {
    {OVERFLOW} + set i | 0 <= i < |DT_BUCKETS_NS| :: DT_BUCKETS_NS[i]
  }

  /** The first bound from index i on that dt does not exceed, or the overflow key. */
  function FirstFit(dt: int, i: nat): (key: int)
    requires i <= |DT_BUCKETS_NS|
    ensures key in Keys()
    decreases |DT_BUCKETS_NS| - i
  {
    if i == |DT_BUCKETS_NS| then OVERFLOW
    else if dt <= DT_BUCKETS_NS[i] then DT_BUCKETS_NS[i]
    else FirstFit(dt, i + 1)
  }

  /** The nine keys, each with the number of samples whose first fit it is. */
  function Histogram(samples: seq<int>): (h: map<int, nat>)
    ensures h.Keys == Keys()
  {
    if samples == [] then map key | key in Keys() :: 0
    else
      var h, key := Histogram(Init(samples)), FirstFit(Last(samples), 0);
      h[key := h[key] + 1]
  }

  predicate IsGap(prevSeq: int, h: RecordHeader)
  {
    h.seqNo != (prevSeq + 1) % TWO_32
  }

  /** The gap between a data record and the one before it, if there is one. */
  function GapAfter(prevSeq: int, prevTs: int, h: RecordHeader): seq<SeqGap>
  {
    if IsGap(prevSeq, h) then [SeqGap(prevSeq, h.seqNo, prevTs, h.tsNs)] else []
  }

  function Gaps(data: seq<RecordHeader>): seq<SeqGap>
  {
    if |data| < 2 then []
    else
      var prev := Last(Init(data));
      Gaps(Init(data)) + GapAfter(prev.seqNo, prev.tsNs, Last(data))
  }

  /** The statistics of single data records. */
  datatype Counters = Counters(
    totalRecords: nat,
    truncatedRecords: nat,
    byOpcode: multiset<int>,
    byCpu: multiset<int>,
    byFlagBit: multiset<nat>,
    firstTsNs: Option<int>,
    lastTsNs: Option<int>,
    payloadSizeTotal: int,
    payloadSizeMin: Option<int>,
    payloadSizeMax: Option<int>)

  /** The statistics of the sampled steps. */
  datatype Timing = Timing(
    histogram: map<int, nat>,
    minNs: Option<int>,
    maxNs: Option<int>,
    totalNs: int,
    samples: nat)

  /** The value of a TraceStats object. */
  datatype Summary = Summary(wrapMarkers: nat, counters: Counters, dt: Timing, seqGaps: seq<SeqGap>)
  {
    function DurationNs(): int
    {
      if counters.firstTsNs.None? || counters.lastTsNs.None? then 0
      else counters.lastTsNs.value - counters.firstTsNs.value
    }

    function TotalDropped(): int { SumDropped(seqGaps) }
  }

  function FirstTs(data: seq<RecordHeader>): Option<int>
  {
    if data == [] then None else Some(data[0].tsNs)
  }

  function FinalTs(data: seq<RecordHeader>): Option<int>
  {
    if data == [] then None else Some(Last(data).tsNs)
  }

  function CountersOf(data: seq<RecordHeader>): Counters
  {
    Counters(
      |data|, CountWithBit(data, TRUNCATED_BIT),
      multiset(Opcodes(data)), multiset(Cpus(data)), FlagBits(data),
      FirstTs(data), FinalTs(data),
      Sum(PayloadLens(data)), Least(PayloadLens(data)), Greatest(PayloadLens(data)))
  }

  function TimingOf(samples: seq<int>): Timing
  {
    Timing(Histogram(samples), Least(samples), Greatest(samples), Sum(samples), |samples|)
  }

  /** Each statistic as a function of the whole list of records. */
  function Summarize(records: seq<Record>): Summary
  {
    var data := Data(records);
    Summary(Markers(records), CountersOf(data), TimingOf(Samples(data)), Gaps(data))
  }

  // ---------- one record at a time ----------

  function WithLeast(least: Option<int>, x: int): Option<int>
  {
    if least.None? then Some(x) else Some(Min(least.value, x))
  }

  function WithGreatest(greatest: Option<int>, x: int): Option<int>
  {
    if greatest.None? then Some(x) else Some(Max(greatest.value, x))
  }

  function AddHeader(c: Counters, h: RecordHeader): Counters
  {
    Counters(
      c.totalRecords + 1,
      c.truncatedRecords + if HasBit(h.flags, TRUNCATED_BIT) then 1 else 0,
      c.byOpcode + multiset{h.opcode},
      c.byCpu + multiset{h.cpu},
      c.byFlagBit + multiset(BitsOf(h.flags)),
      if c.firstTsNs.None? then Some(h.tsNs) else c.firstTsNs,
      Some(h.tsNs),
      c.payloadSizeTotal + h.payloadLen,
      WithLeast(c.payloadSizeMin, h.payloadLen),
      WithGreatest(c.payloadSizeMax, h.payloadLen))
  }

  lemma AddHeaderCounts(data: seq<RecordHeader>, h: RecordHeader)
    ensures CountersOf(data + [h]) == AddHeader(CountersOf(data), h)
  {
    var more := data + [h];
    assert Init(more) == data;
    assert Opcodes(more) == Opcodes(data) + [h.opcode];
    assert Cpus(more) == Cpus(data) + [h.cpu];
    assert Init(PayloadLens(more)) == PayloadLens(data);
  }

  lemma {:induction false} FirstFitBelongs(dt: int, i: nat)
    requires i <= |DT_BUCKETS_NS|
    requires i > 0 ==> DT_BUCKETS_NS[i - 1] < dt
    ensures forall key | key in Keys() :: BelongsTo(dt, key) <==> key == FirstFit(dt, i)
    decreases |DT_BUCKETS_NS| - i
  {
    if i < |DT_BUCKETS_NS| && dt > DT_BUCKETS_NS[i] {
      FirstFitBelongs(dt, i + 1);
    }
  }

  /** Each bucket holds exactly the samples above the bound before it and not above its own. */
  lemma {:induction false} HistogramCounts(samples: seq<int>)
    ensures forall key | key in Keys() :: Histogram(samples)[key] == CountUnder(samples, key)
  {
    if samples != [] {
      HistogramCounts(Init(samples));
      FirstFitBelongs(Last(samples), 0);
    }
  }

  /** The interval of steps that is counted under each key. */
  predicate InBucket(dt: int, key: int)
  {
    || (key == 100 && 0 <= dt <= 100)
    || (key == 1_000 && 100 < dt <= 1_000)
    || (key == 10_000 && 1_000 < dt <= 10_000)
    || (key == 100_000 && 10_000 < dt <= 100_000)
    || (key == 1_000_000 && 100_000 < dt <= 1_000_000)
    || (key == 10_000_000 && 1_000_000 < dt <= 10_000_000)
    || (key == 100_000_000 && 10_000_000 < dt <= 100_000_000)
    || (key == 1_000_000_000 && 100_000_000 < dt <= 1_000_000_000)
    || (key == 0 && dt > 1_000_000_000)
  }

  lemma KeysInNumbers()
    ensures Keys() ==
            {0, 100, 1_000, 10_000, 100_000, 1_000_000, 10_000_000, 100_000_000, 1_000_000_000}
  {
    var b := DT_BUCKETS_NS;
    assert b[0] == 100 && b[1] == 1_000 && b[2] == 10_000 && b[3] == 100_000;
    assert b[4] == 1_000_000 && b[5] == 10_000_000 && b[6] == 100_000_000 && b[7] == 1_000_000_000;
  }

  lemma BelongsInNumbers(dt: int, key: int)
    requires dt >= 0 && key in Keys()
    ensures BelongsTo(dt, key) <==> InBucket(dt, key)
  {
    KeysInNumbers();
    var b := DT_BUCKETS_NS;
    assert b[0] == 100 && b[1] == 1_000 && b[2] == 10_000 && b[3] == 100_000;
    assert b[4] == 1_000_000 && b[5] == 10_000_000 && b[6] == 100_000_000 && b[7] == 1_000_000_000;
  }

  /** A step that is not negative has exactly one key whose interval it is in: its first fit. */
  lemma FirstFitInNumbers(dt: int, key: int)
    requires dt >= 0
    ensures key == FirstFit(dt, 0) <==> InBucket(dt, key)
  {
    KeysInNumbers();
    FirstFitBelongs(dt, 0);
    BelongsInNumbers(dt, FirstFit(dt, 0));
    if key in Keys() {
      BelongsInNumbers(dt, key);
    }
  }

  function AddSample(t: Timing, dt: int): (r: Timing)
    requires t.histogram.Keys == Keys()
    ensures r.histogram.Keys == Keys()
  {
    var key := FirstFit(dt, 0);
    Timing(t.histogram[key := t.histogram[key] + 1],
           WithLeast(t.minNs, dt), WithGreatest(t.maxNs, dt), t.totalNs + dt, t.samples + 1)
  }

  lemma AddSampleCounts(samples: seq<int>, dt: int)
    ensures TimingOf(samples + [dt]) == AddSample(TimingOf(samples), dt)
  {
    assert Init(samples + [dt]) == samples;
  }

  /** What one more data record changes in the samples. */
  lemma PairSnoc(data: seq<RecordHeader>, h: RecordHeader)
    requires data != []
    ensures var dt := h.tsNs - Last(data).tsNs;
            Samples(data + [h]) == if dt < 0 then Samples(data) else Samples(data) + [dt]
    ensures Gaps(data + [h]) == Gaps(data) + GapAfter(Last(data).seqNo, Last(data).tsNs, h)
  {
    assert Init(data + [h]) == data;
    assert Init(Steps(data + [h])) == Steps(data);
  }

  /** Steps that go back in time are not sampled. */
  function AddStep(t: Timing, dt: int): (r: Timing)
    requires t.histogram.Keys == Keys()
    ensures r.histogram.Keys == Keys()
  {
    if dt < 0 then t else AddSample(t, dt)
  }

  /** The summary so far, and the sequence number and time of the last data record. */
  datatype Progress = Progress(summary: Summary, prevSeq: Option<int>, prevTs: Option<int>)

  function AddData(p: Progress, h: RecordHeader): (r: Progress)
    requires p.summary.dt.histogram.Keys == Keys()
    ensures r.summary.dt.histogram.Keys == Keys()
  {
    var s := p.summary.(counters := AddHeader(p.summary.counters, h));
    Progress(
      if p.prevSeq.None? || p.prevTs.None? then s
      else s.(dt := AddStep(s.dt, h.tsNs - p.prevTs.value),
              seqGaps := s.seqGaps + GapAfter(p.prevSeq.value, p.prevTs.value, h)),
      Some(h.seqNo), Some(h.tsNs))
  }

  /** The loop as a fold over the records. */
  function Run(records: seq<Record>): (p: Progress)
    ensures p.summary.dt.histogram.Keys == Keys()
  {
    if records == [] then Progress(Summary(0, CountersOf([]), TimingOf([]), []), None, None)
    else
      var p, r := Run(Init(records)), Last(records);
      if r.IsWrapMarker() then p.(summary := p.summary.(wrapMarkers := p.summary.wrapMarkers + 1))
      else AddData(p, r.header)
  }

  function ProgressOf(data: seq<RecordHeader>, markers: nat): Progress
  {
    Progress(
      Summary(markers, CountersOf(data), TimingOf(Samples(data)), Gaps(data)),
      if data == [] then None else Some(Last(data).seqNo),
      if data == [] then None else Some(Last(data).tsNs))
  }

  lemma TimingSnoc(data: seq<RecordHeader>, h: RecordHeader)
    requires data != []
    ensures TimingOf(Samples(data + [h])) == AddStep(TimingOf(Samples(data)), h.tsNs - Last(data).tsNs)
  {
    PairSnoc(data, h);
    AddSampleCounts(Samples(data), h.tsNs - Last(data).tsNs);
  }

  lemma FirstDataCounts(markers: nat, h: RecordHeader)
    ensures AddData(ProgressOf([], markers), h) == ProgressOf([h], markers)
  {
    AddHeaderCounts([], h);
    assert [] + [h] == [h];
    assert Samples([h]) == [] == Samples([]) && Gaps([h]) == [] == Gaps([]);
  }

  lemma AddDataCounts(data: seq<RecordHeader>, markers: nat, h: RecordHeader)
    ensures AddData(ProgressOf(data, markers), h) == ProgressOf(data + [h], markers)
  {
    if data == [] {
      assert data + [h] == [h];
      FirstDataCounts(markers, h);
    } else {
      NextDataCounts(data, markers, h);
    }
  }

  lemma NextDataCounts(data: seq<RecordHeader>, markers: nat, h: RecordHeader)
    requires data != []
    ensures AddData(ProgressOf(data, markers), h) == ProgressOf(data + [h], markers)
  {
    var more := data + [h];
    AddHeaderCounts(data, h);
    PairSnoc(data, h);
    TimingSnoc(data, h);
    Advanced(ProgressOf(data, markers), h, CountersOf(more), TimingOf(Samples(more)), Gaps(more));
  }

  lemma Advanced(p: Progress, h: RecordHeader, c: Counters, t: Timing, gaps: seq<SeqGap>)
    requires p.summary.dt.histogram.Keys == Keys() && p.prevSeq.Some? && p.prevTs.Some?
    requires c == AddHeader(p.summary.counters, h)
    requires t == AddStep(p.summary.dt, h.tsNs - p.prevTs.value)
    requires gaps == p.summary.seqGaps + GapAfter(p.prevSeq.value, p.prevTs.value, h)
    ensures AddData(p, h) == Progress(Summary(p.summary.wrapMarkers, c, t, gaps), Some(h.seqNo), Some(h.tsNs))
  {
  }

  lemma {:induction false} RunSummarizes(records: seq<Record>)
    ensures Run(records) == ProgressOf(Data(records), Markers(records))
  {
    if records != [] && !Last(records).IsWrapMarker() {
      RunSummarizes(Init(records));
      AddDataCounts(Data(Init(records)), Markers(Init(records)), Last(records).header);
    } else if records != [] {
      RunSummarizes(Init(records));
    }
  }

  // ---------- the accumulators ----------

  class TraceStats {
    var totalRecords: nat
    var wrapMarkers: nat
    var truncatedRecords: nat
    var byOpcode: multiset<int>
    var byCpu: multiset<int>
    var byFlagBit: multiset<nat>
    var firstTsNs: Option<int>
    var lastTsNs: Option<int>
    var payloadSizeTotal: int
    var payloadSizeMin: Option<int>
    var payloadSizeMax: Option<int>
    var dtHistogramNs: map<int, nat>
    var dtMinNs: Option<int>
    var dtMaxNs: Option<int>
    var dtTotalNs: int
    var dtSamples: nat
    var seqGaps: seq<SeqGap>

    function CountersView(): Counters
      reads this
    {
      Counters(totalRecords, truncatedRecords, byOpcode, byCpu, byFlagBit, firstTsNs, lastTsNs,
               payloadSizeTotal, payloadSizeMin, payloadSizeMax)
    }

    function TimingView(): Timing
      reads this
    {
      Timing(dtHistogramNs, dtMinNs, dtMaxNs, dtTotalNs, dtSamples)
    }

    function View(): Summary
      reads this
    {
      Summary(wrapMarkers, CountersView(), TimingView(), seqGaps)
    }

    constructor ()
      ensures wrapMarkers == 0 && CountersView() == CountersOf([])
      ensures TimingView() == Timing(map[], None, None, 0, 0) && seqGaps == []
    {
      totalRecords, wrapMarkers, truncatedRecords := 0, 0, 0;
      byOpcode, byCpu, byFlagBit := multiset{}, multiset{}, multiset{};
      firstTsNs, lastTsNs := None, None;
      payloadSizeTotal, payloadSizeMin, payloadSizeMax := 0, None, None;
      dtHistogramNs := map[];
      dtMinNs, dtMaxNs, dtTotalNs, dtSamples := None, None, 0, 0;
      seqGaps := [];
    }

    /** A single pass over the records. */
    static method Compute(records: seq<Record>) returns (stats: TraceStats)
      ensures fresh(stats)
      ensures stats.View() == Summarize(records)
      ensures var s := Summarize(records);
              && stats.wrapMarkers == s.wrapMarkers && stats.seqGaps == s.seqGaps
              && stats.totalRecords == s.counters.totalRecords && stats.truncatedRecords == s.counters.truncatedRecords
              && stats.byOpcode == s.counters.byOpcode && stats.byCpu == s.counters.byCpu
              && stats.byFlagBit == s.counters.byFlagBit
              && stats.firstTsNs == s.counters.firstTsNs && stats.lastTsNs == s.counters.lastTsNs
              && stats.payloadSizeTotal == s.counters.payloadSizeTotal
              && stats.payloadSizeMin == s.counters.payloadSizeMin && stats.payloadSizeMax == s.counters.payloadSizeMax
              && stats.dtHistogramNs == s.dt.histogram && stats.dtSamples == s.dt.samples
              && stats.dtTotalNs == s.dt.totalNs && stats.dtMinNs == s.dt.minNs && stats.dtMaxNs == s.dt.maxNs
    {
      stats := new TraceStats();
      stats.ZeroHistogram();
      var prevSeq: Option<int> := None;
      var prevTs: Option<int> := None;
      var i := 0;
      while i < |records|
        invariant 0 <= i <= |records|
        invariant Progress(stats.View(), prevSeq, prevTs) == Run(records[..i])
      {
        var rec := records[i];
        var hdr := rec.header;
        assert Init(records[..i + 1]) == records[..i];
        i := i + 1;
        if HasBit(hdr.flags, WRAP_MARKER_BIT) {
          stats.wrapMarkers := stats.wrapMarkers + 1;
          continue;
        }
        stats.Tally(prevSeq, prevTs, hdr);
        prevSeq, prevTs := Some(hdr.seqNo), Some(hdr.tsNs);
      }
      assert records[..i] == records;
      RunSummarizes(records);
      stats.ViewIsFields(Summarize(records));
    }

    lemma ViewIsFields(s: Summary)
      requires View() == s
      ensures wrapMarkers == s.wrapMarkers && seqGaps == s.seqGaps
      ensures totalRecords == s.counters.totalRecords && truncatedRecords == s.counters.truncatedRecords
      ensures byOpcode == s.counters.byOpcode && byCpu == s.counters.byCpu && byFlagBit == s.counters.byFlagBit
      ensures firstTsNs == s.counters.firstTsNs && lastTsNs == s.counters.lastTsNs
      ensures payloadSizeTotal == s.counters.payloadSizeTotal
      ensures payloadSizeMin == s.counters.payloadSizeMin && payloadSizeMax == s.counters.payloadSizeMax
      ensures dtHistogramNs == s.dt.histogram && dtSamples == s.dt.samples && dtTotalNs == s.dt.totalNs
      ensures dtMinNs == s.dt.minNs && dtMaxNs == s.dt.maxNs
    {
    }

    method ZeroHistogram()
      modifies this`dtHistogramNs
      ensures dtHistogramNs == Histogram([])
    {
      dtHistogramNs := map[];
      var i := 0;
      while i < |DT_BUCKETS_NS|
        invariant 0 <= i <= |DT_BUCKETS_NS|
        invariant dtHistogramNs.Keys == set j | 0 <= j < i :: DT_BUCKETS_NS[j]
        invariant forall k | k in dtHistogramNs :: dtHistogramNs[k] == 0
      {
        dtHistogramNs := dtHistogramNs[DT_BUCKETS_NS[i] := 0];
        i := i + 1;
      }
      dtHistogramNs := dtHistogramNs[OVERFLOW := 0];
    }

    /** One data record, with what is known of the one before it. */
    method Tally(prevSeq: Option<int>, prevTs: Option<int>, hdr: RecordHeader)
      requires dtHistogramNs.Keys == Keys()
      modifies this
      ensures Progress(View(), Some(hdr.seqNo), Some(hdr.tsNs)) ==
              AddData(Progress(old(View()), prevSeq, prevTs), hdr)
    {
      TallyHeader(hdr);
      if prevSeq.Some? && prevTs.Some? {
        TallyPair(prevSeq.value, prevTs.value, hdr);
      }
    }

    method TallyHeader(hdr: RecordHeader)
      modifies this
      ensures wrapMarkers == old(wrapMarkers) && TimingView() == old(TimingView()) && seqGaps == old(seqGaps)
      ensures CountersView() == AddHeader(old(CountersView()), hdr)
      ensures totalRecords == old(totalRecords) + 1 && payloadSizeTotal == old(payloadSizeTotal) + hdr.payloadLen
      ensures byOpcode == old(byOpcode) + multiset{hdr.opcode} && byCpu == old(byCpu) + multiset{hdr.cpu}
    {
      TallyCounts(hdr);
      TallyRange(hdr.tsNs, hdr.payloadLen);
    }

    method TallyCounts(hdr: RecordHeader)
      modifies this`totalRecords, this`truncatedRecords, this`byOpcode, this`byCpu, this`byFlagBit
      ensures totalRecords == old(totalRecords) + 1
      ensures truncatedRecords == old(truncatedRecords) + if HasBit(hdr.flags, TRUNCATED_BIT) then 1 else 0
      ensures byOpcode == old(byOpcode) + multiset{hdr.opcode}
      ensures byCpu == old(byCpu) + multiset{hdr.cpu}
      ensures byFlagBit == old(byFlagBit) + multiset(BitsOf(hdr.flags))
    {
      Increment(byOpcode, hdr.opcode);
      Increment(byCpu, hdr.cpu);
      byFlagBit := TallyFlagBits(byFlagBit, hdr.flags);
      totalRecords := totalRecords + 1;
      if HasBit(hdr.flags, TRUNCATED_BIT) {
        truncatedRecords := truncatedRecords + 1;
      }
      byOpcode := byOpcode[hdr.opcode := byOpcode[hdr.opcode] + 1];
      byCpu := byCpu[hdr.cpu := byCpu[hdr.cpu] + 1];
    }

    method TallyRange(ts: int, plen: int)
      modifies this`firstTsNs, this`lastTsNs, this`payloadSizeTotal, this`payloadSizeMin, this`payloadSizeMax
      ensures firstTsNs == if old(firstTsNs).None? then Some(ts) else old(firstTsNs)
      ensures lastTsNs == Some(ts)
      ensures payloadSizeTotal == old(payloadSizeTotal) + plen
      ensures payloadSizeMin == WithLeast(old(payloadSizeMin), plen)
      ensures payloadSizeMax == WithGreatest(old(payloadSizeMax), plen)
    {
      if firstTsNs.None? {
        firstTsNs := Some(ts);
      }
      lastTsNs := Some(ts);
      payloadSizeTotal := payloadSizeTotal + plen;
      payloadSizeMin := if payloadSizeMin.None? then Some(plen) else Some(Min(payloadSizeMin.value, plen));
      payloadSizeMax := if payloadSizeMax.None? then Some(plen) else Some(Max(payloadSizeMax.value, plen));
    }

    static method TallyFlagBits(counts: multiset<nat>, flags: int) returns (r: multiset<nat>)
      ensures r == counts + multiset(BitsOf(flags))
    {
      r := counts;
      var bit := 0;
      ghost var counted: set<nat> := {};
      while bit < 8
        invariant 0 <= bit <= 8
        invariant counted == set b: nat | b < bit && HasBit(flags, b)
        invariant r == counts + multiset(counted)
      {
        if HasBit(flags, bit) {
          r := r[bit := r[bit] + 1];
          counted := counted + {bit};
        }
        bit := bit + 1;
      }
      assert counted == BitsOf(flags);
    }

    method TallyPair(prevSeq: int, prevTs: int, hdr: RecordHeader)
      requires dtHistogramNs.Keys == Keys()
      modifies this
      ensures wrapMarkers == old(wrapMarkers) && CountersView() == old(CountersView())
      ensures TimingView() == AddStep(old(TimingView()), hdr.tsNs - prevTs)
      ensures seqGaps == old(seqGaps) + GapAfter(prevSeq, prevTs, hdr)
    {
      var expected := (prevSeq + 1) % TWO_32;
      if hdr.seqNo != expected {
        seqGaps := seqGaps + [SeqGap(prevSeq, hdr.seqNo, prevTs, hdr.tsNs)];
      }
      var dt := hdr.tsNs - prevTs;
      if dt >= 0 {
        TallySample(dt);
      }
    }

    method TallySample(dt: int)
      requires dtHistogramNs.Keys == Keys()
      modifies this
      ensures wrapMarkers == old(wrapMarkers) && CountersView() == old(CountersView()) && seqGaps == old(seqGaps)
      ensures TimingView() == AddSample(old(TimingView()), dt)
    {
      Place(dt);
      TallyTotals(dt);
    }

    method TallyTotals(dt: int)
      modifies this`dtMinNs, this`dtMaxNs, this`dtTotalNs, this`dtSamples
      ensures dtMinNs == WithLeast(old(dtMinNs), dt) && dtMaxNs == WithGreatest(old(dtMaxNs), dt)
      ensures dtTotalNs == old(dtTotalNs) + dt && dtSamples == old(dtSamples) + 1
    {
      dtSamples := dtSamples + 1;
      dtTotalNs := dtTotalNs + dt;
      dtMinNs := if dtMinNs.None? then Some(dt) else Some(Min(dtMinNs.value, dt));
      dtMaxNs := if dtMaxNs.None? then Some(dt) else Some(Max(dtMaxNs.value, dt));
    }

    /** First fit: adds one under the first bound that dt does not exceed, or under the overflow key. */
    method Place(dt: int)
      requires dtHistogramNs.Keys == Keys()
      modifies this`dtHistogramNs
      ensures var key := FirstFit(dt, 0);
              && dtHistogramNs == old(dtHistogramNs)[key := old(dtHistogramNs)[key] + 1]
              && (dt >= 0 ==> InBucket(dt, key))
    {
      if dt >= 0 {
        FirstFitInNumbers(dt, FirstFit(dt, 0));
      }
      var i := 0;
      while i < |DT_BUCKETS_NS|
        invariant 0 <= i <= |DT_BUCKETS_NS|
        invariant dtHistogramNs == old(dtHistogramNs)
        invariant FirstFit(dt, i) == FirstFit(dt, 0)
      {
        var bucket := DT_BUCKETS_NS[i];
        if dt <= bucket {
          dtHistogramNs := dtHistogramNs[bucket := dtHistogramNs[bucket] + 1];
          return;
        }
        i := i + 1;
      }
      dtHistogramNs := dtHistogramNs[OVERFLOW := dtHistogramNs[OVERFLOW] + 1];
    }
  }
}
