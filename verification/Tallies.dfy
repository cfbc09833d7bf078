/** What each statistic is, in numbers: of no records, of one record more, and as counts over the whole list. */
module Tallies {
  import opened Basics
  import opened Format
  import opened Stream
  import opened Stats
  import opened StatsLaws

  /** The data records are those of the default pass, and the markers are the rest. */
  lemma {:induction false} DataIsSelected(records: seq<Record>)
    ensures var shown, data := Select(records, false), Data(records);
            && |data| == |shown| && |data| + Markers(records) == |records|
            && forall i | 0 <= i < |data| :: data[i] == shown[i].header
  {
    if records != [] {
      DataIsSelected(Init(records));
    }
  }

  /** The duration is the time from the first data record to the last. */
  lemma DurationIsRange(records: seq<Record>)
    ensures var data := Data(records);
            Summarize(records).DurationNs() == if data == [] then 0 else Last(data).tsNs - data[0].tsNs
  {
  }

  // ---------- one record more ----------

  lemma NoRecords()
    ensures Summarize([]) ==
            Summary(
              0,
              Counters(0, 0, multiset{}, multiset{}, multiset{}, None, None, 0, None, None),
              Timing(map[100 := 0, 1_000 := 0, 10_000 := 0, 100_000 := 0, 1_000_000 := 0, 10_000_000 := 0,
                         100_000_000 := 0, 1_000_000_000 := 0, 0 := 0], None, None, 0, 0),
              [])
  {
    KeysInNumbers();
    assert Opcodes([]) == Cpus([]) == PayloadLens([]) == [];
    assert Samples([]) == [];
  }

  lemma {:induction false} RunSnoc(records: seq<Record>, r: Record)
    ensures Run(records + [r]) ==
            if r.IsWrapMarker()
            then Run(records).(summary := Run(records).summary.(wrapMarkers := Run(records).summary.wrapMarkers + 1))
            else AddData(Run(records), r.header)
  {
    assert Init(records + [r]) == records;
  }

  lemma {:induction false} OneMoreMarker(records: seq<Record>, r: Record)
    requires r.header.flags % 2 == 1
    ensures var s := Summarize(records); Summarize(records + [r]) == s.(wrapMarkers := s.wrapMarkers + 1)
  {
    RunSnoc(records, r);
    RunSummarizes(records);
    RunSummarizes(records + [r]);
  }

  /** The summary, after one more data record, is the one the fold over records gives. */
  lemma {:induction false} SummarySnoc(records: seq<Record>, r: Record)
    requires r.header.flags % 2 == 0
    ensures Summarize(records + [r]) == AddData(ProgressOf(Data(records), Markers(records)), r.header).summary
  {
    RunSnoc(records, r);
    RunSummarizes(records);
    RunSummarizes(records + [r]);
  }

  /** One more data record, its own fields: what it adds to each counter. */
  lemma {:induction false} OneMoreRecord(records: seq<Record>, r: Record)
    requires r.header.flags % 2 == 0
    ensures var a, b, h := Summarize(records).counters, Summarize(records + [r]).counters, r.header;
            && Summarize(records + [r]).wrapMarkers == Summarize(records).wrapMarkers
            && b.totalRecords == a.totalRecords + 1
            && b.truncatedRecords == a.truncatedRecords + h.flags / 2 % 2
            && b.byOpcode == a.byOpcode + multiset{h.opcode}
            && b.byCpu == a.byCpu + multiset{h.cpu}
            && (forall bit: nat ::
                  b.byFlagBit[bit] == a.byFlagBit[bit] + if bit < 8 && HasBit(h.flags, bit) then 1 else 0)
            && b.firstTsNs == (if a.firstTsNs.Some? then a.firstTsNs else Some(h.tsNs))
            && b.lastTsNs == Some(h.tsNs)
            && b.payloadSizeTotal == a.payloadSizeTotal + h.payloadLen
            && b.payloadSizeMin.Some? && b.payloadSizeMax.Some?
            && b.payloadSizeMin.value ==
               (if a.payloadSizeMin.Some? && a.payloadSizeMin.value < h.payloadLen then a.payloadSizeMin.value
                else h.payloadLen)
            && b.payloadSizeMax.value ==
               (if a.payloadSizeMax.Some? && a.payloadSizeMax.value > h.payloadLen then a.payloadSizeMax.value
                else h.payloadLen)
  {
    SummarySnoc(records, r);
    FlagsAdded(Summarize(records).counters.byFlagBit, r.header.flags);
  }

  lemma FlagsAdded(counts: multiset<nat>, flags: int)
    ensures forall bit: nat ::
              (counts + multiset(BitsOf(flags)))[bit] == counts[bit] + if bit < 8 && HasBit(flags, bit) then 1 else 0
    ensures HasBit(flags, TRUNCATED_BIT) <==> flags / 2 % 2 == 1
  {
  }

  /** One more data record and the one before it: the gap they leave when the number jumps. */
  lemma {:induction false} OneMoreGap(records: seq<Record>, r: Record)
    returns (gaps: seq<SeqGap>, gaps': seq<SeqGap>, data: seq<RecordHeader>)
    requires r.header.flags % 2 == 0
    ensures gaps == Summarize(records).seqGaps && gaps' == Summarize(records + [r]).seqGaps && data == Data(records)
    ensures data == [] ==> gaps' == gaps
    ensures data != [] ==>
              var prev, h := Last(data), r.header;
              gaps' == if h.seqNo == (prev.seqNo + 1) % 0x1_0000_0000 then gaps
                       else gaps + [SeqGap(prev.seqNo, h.seqNo, prev.tsNs, h.tsNs)]
  {
    gaps, gaps', data := Summarize(records).seqGaps, Summarize(records + [r]).seqGaps, Data(records);
    DataAdded(records, r);
    if data == [] {
      assert data + [r.header] == [r.header];
    } else {
      PairSnoc(data, r.header);
      GapAdded(gaps, Last(data), r.header);
    }
  }

  /**
    * One more data record and the one before it: the step between them is sampled unless it goes
    * back, and is then counted under the key whose interval holds it.
    */
  lemma {:induction false} OneMoreStep(records: seq<Record>, r: Record, key: int)
    returns (s: Timing, t: Timing, data: seq<RecordHeader>)
    requires r.header.flags % 2 == 0
    ensures s == Summarize(records).dt && t == Summarize(records + [r]).dt && data == Data(records)
    ensures data == [] ==> t == s
    ensures data != [] ==>
              var dt := r.header.tsNs - Last(data).tsNs;
              && (dt < 0 ==> t == s)
              && (dt >= 0 ==>
                    && t.samples == s.samples + 1 && t.totalNs == s.totalNs + dt
                    && t.minNs == Some(if s.minNs.Some? && s.minNs.value < dt then s.minNs.value else dt)
                    && t.maxNs == Some(if s.maxNs.Some? && s.maxNs.value > dt then s.maxNs.value else dt)
                    && (key in t.histogram <==> key in s.histogram)
                    && (key in s.histogram ==>
                          t.histogram[key] == s.histogram[key] + if InBucket(dt, key) then 1 else 0))
  {
    s, t, data := Summarize(records).dt, Summarize(records + [r]).dt, Data(records);
    DataAdded(records, r);
    TimingAdded(data, r.header, s, t);
    if data != [] {
      StepAdded(s, r.header.tsNs - Last(data).tsNs, key, t);
    }
  }

  lemma {:induction false} DataAdded(records: seq<Record>, r: Record)
    requires r.header.flags % 2 == 0
    ensures Data(records + [r]) == Data(records) + [r.header]
  {
    assert Init(records + [r]) == records;
  }

  lemma {:induction false} TimingAdded(data: seq<RecordHeader>, h: RecordHeader, s: Timing, t: Timing)
    requires s == TimingOf(Samples(data)) && t == TimingOf(Samples(data + [h]))
    ensures s.histogram.Keys == Keys()
    ensures t == if data == [] then s else AddStep(s, h.tsNs - Last(data).tsNs)
  {
    if data == [] {
      assert Samples(data + [h]) == [] == Samples(data);
    } else {
      TimingSnoc(data, h);
    }
  }

  lemma {:induction false} GapAdded(gaps: seq<SeqGap>, prev: RecordHeader, h: RecordHeader)
    ensures gaps + GapAfter(prev.seqNo, prev.tsNs, h) ==
            if h.seqNo == (prev.seqNo + 1) % 0x1_0000_0000 then gaps
            else gaps + [SeqGap(prev.seqNo, h.seqNo, prev.tsNs, h.tsNs)]
  {
  }

  lemma {:induction false} StepAdded(t: Timing, dt: int, key: int, u: Timing)
    requires t.histogram.Keys == Keys() && u == AddStep(t, dt)
    ensures dt < 0 ==> u == t
    ensures dt >= 0 ==>
              && u.samples == t.samples + 1 && u.totalNs == t.totalNs + dt
              && u.minNs == Some(if t.minNs.Some? && t.minNs.value < dt then t.minNs.value else dt)
              && u.maxNs == Some(if t.maxNs.Some? && t.maxNs.value > dt then t.maxNs.value else dt)
              && (key in u.histogram <==> key in t.histogram)
              && (key in t.histogram ==> u.histogram[key] == t.histogram[key] + if InBucket(dt, key) then 1 else 0)
  {
    if dt >= 0 {
      FirstFitInNumbers(dt, key);
    }
  }

  /** The statistics of a single data record. */
  lemma {:induction false} OneRecord(r: Record) returns (s: Summary)
    requires r.header.flags % 2 == 0
    ensures s == Summarize([r])
    ensures s.wrapMarkers == 0 && s.seqGaps == [] && s.dt.samples == 0
    ensures var c, h := s.counters, r.header;
            && c.totalRecords == 1 && c.truncatedRecords == h.flags / 2 % 2
            && c.byOpcode == multiset{h.opcode} && c.byCpu == multiset{h.cpu}
            && c.payloadSizeTotal == h.payloadLen
            && c.payloadSizeMin == c.payloadSizeMax == Some(h.payloadLen)
            && c.firstTsNs == c.lastTsNs == Some(h.tsNs)
  {
    var none: seq<Record> := [r][..0];
    assert none == [] && none + [r] == [r];
    s := Summarize(none + [r]);
    NoRecords();
    OneMoreRecord(none, r);
    var gaps, gaps', data := OneMoreGap(none, r);
    var dt, dt', data' := OneMoreStep(none, r, 0);
  }

  // ---------- counts over the whole list ----------

  /** The positions at which f has the value x. */
  ghost function Having<S>(f: S -> int, xs: seq<S>, x: int): set<int>
  {
    set i | 0 <= i < |xs| && f(xs[i]) == x
  }

  lemma {:induction false} HavingSnoc<S>(f: S -> int, xs: seq<S>, s: S, x: int)
    ensures Having(f, xs + [s], x) == Having(f, xs, x) + if f(s) == x then {|xs|} else {}
    ensures |xs| !in Having(f, xs, x)
  {
    assert forall i | 0 <= i < |xs| :: (xs + [s])[i] == xs[i];
  }

  lemma {:induction false} MultiplicityIsCount<S>(f: S -> int, xs: seq<S>, x: int)
    ensures multiset(Project(f, xs))[x] == |Having(f, xs, x)|
  {
    if xs != [] {
      MultiplicityIsCount(f, Init(xs), x);
      HavingSnoc(f, Init(xs), Last(xs), x);
      InitLast(xs);
    }
  }

  lemma {:induction false} HavingOpcode(data: seq<RecordHeader>, x: int)
    ensures Having((h: RecordHeader) => h.opcode, data, x) == set i | 0 <= i < |data| && data[i].opcode == x
  {
  }

  lemma {:induction false} HavingCpu(data: seq<RecordHeader>, x: int)
    ensures Having((h: RecordHeader) => h.cpu, data, x) == set i | 0 <= i < |data| && data[i].cpu == x
  {
  }

  /** The tallies by opcode and by core are the numbers of data records that have them. */
  lemma {:induction false} TalliesCount(records: seq<Record>, x: int)
    ensures var c, data := Summarize(records).counters, Data(records);
            && c.byOpcode[x] == |set i | 0 <= i < |data| && data[i].opcode == x|
            && c.byCpu[x] == |set i | 0 <= i < |data| && data[i].cpu == x|
  {
    var data := Data(records);
    MultiplicityIsCount((h: RecordHeader) => h.opcode, data, x);
    MultiplicityIsCount((h: RecordHeader) => h.cpu, data, x);
    HavingOpcode(data, x);
    HavingCpu(data, x);
  }

  /** The step from the k-th data record to the next, if there is one, is in the interval of key. */
  predicate StepIn(data: seq<RecordHeader>, k: int, key: int)
  {
    0 <= k && k + 1 < |data| && InBucket(data[k + 1].tsNs - data[k].tsNs, key)
  }

  ghost function StepsUnder(data: seq<RecordHeader>, key: int): set<int>
  {
    set k | 0 <= k < |data| && StepIn(data, k, key)
  }

  lemma {:induction false} CountUnderIsCount(data: seq<RecordHeader>, key: int)
    requires key in Keys()
    ensures CountUnder(Samples(data), key) == |StepsUnder(data, key)|
  {
    if |data| < 2 {
      assert Samples(data) == [] && StepsUnder(data, key) == {};
    } else {
      CountUnderIsCount(Init(data), key);
      CountUnderStep(Init(data), Last(data), key);
      InitLast(data);
    }
  }

  lemma {:induction false} CountUnderStep(data: seq<RecordHeader>, h: RecordHeader, key: int)
    requires key in Keys() && data != [] && CountUnder(Samples(data), key) == |StepsUnder(data, key)|
    ensures CountUnder(Samples(data + [h]), key) == |StepsUnder(data + [h], key)|
  {
    var dt, k := h.tsNs - Last(data).tsNs, |data| - 1;
    PairSnoc(data, h);
    StepsUnderSnoc(data, h, key);
    if dt >= 0 {
      BelongsInNumbers(dt, key);
      assert Init(Samples(data) + [dt]) == Samples(data);
    } else {
      assert !InBucket(dt, key);
    }
  }

  lemma {:induction false} StepsUnderSnoc(data: seq<RecordHeader>, h: RecordHeader, key: int)
    requires data != []
    ensures StepsUnder(data + [h], key) ==
            StepsUnder(data, key) + if InBucket(h.tsNs - Last(data).tsNs, key) then {|data| - 1} else {}
    ensures |data| - 1 !in StepsUnder(data, key)
  {
    var more := data + [h];
    assert forall k | 0 <= k < |data| :: more[k] == data[k];
  }

  /** The histogram has nine keys, and counts under each the adjacent data records a step in its interval apart. */
  lemma {:induction false} HistogramInNumbers(records: seq<Record>, key: int)
    ensures var h, data := Summarize(records).dt.histogram, Data(records);
            && h.Keys == {0, 100, 1_000, 10_000, 100_000, 1_000_000, 10_000_000, 100_000_000, 1_000_000_000}
            && (key in h ==>
                  h[key] == |set k | 0 <= k < |data| && StepIn(data, k, key)|)
  {
    KeysInNumbers();
    HistogramCounts(Samples(Data(records)));
    if key in Keys() {
      CountUnderIsCount(Data(records), key);
    }
  }
}
