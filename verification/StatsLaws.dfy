/** What the single-pass statistics mean, proved on the specification that the loop computes. */
module StatsLaws {
  import opened Basics
  import opened Format
  import opened Stream
  import opened Stats

  // ---------- sequence gaps ----------

  ghost predicate SeqsInRange(data: seq<RecordHeader>)
  {
    forall i | 0 <= i < |data| :: 0 <= data[i].seqNo < TWO_32
  }

  ghost predicate Increasing(positions: seq<nat>)
  {
    forall i, j | 0 <= i < j < |positions| :: positions[i] < positions[j]
  }

  /** The gap between the k-th record and the next, if there is one. */
  function GapOf(data: seq<RecordHeader>, k: nat): SeqGap
    requires k + 1 < |data|
  {
    SeqGap(data[k].seqNo, data[k + 1].seqNo, data[k].tsNs, data[k + 1].tsNs)
  }

  /** The j-th gap is the adjacent pair at the j-th position. */
  ghost predicate PairsAt(gaps: seq<SeqGap>, data: seq<RecordHeader>, positions: seq<nat>)
  {
    && |positions| == |gaps|
    && forall j | 0 <= j < |gaps| :: positions[j] + 1 < |data| && gaps[j] == GapOf(data, positions[j])
  }

  /** These are all the positions at which the sequence number does not go up by one. */
  ghost predicate AllJumps(data: seq<RecordHeader>, positions: seq<nat>)
  {
    forall i | 0 <= i < |data| - 1 :: i in positions <==> data[i + 1].seqNo != (data[i].seqNo + 1) % TWO_32
  }

  /** The gaps are, in order, exactly the adjacent pairs that are jumps. */
  lemma {:induction false} GapsAreTheJumps(data: seq<RecordHeader>) returns (positions: seq<nat>)
    ensures Increasing(positions) && PairsAt(Gaps(data), data, positions) && AllJumps(data, positions)
    decreases |data|
  {
    positions := [];
    if |data| >= 2 {
      var before, h := Init(data), Last(data);
      var prev, last := Last(before), |before| - 1;
      var found := GapsAreTheJumps(before);
      assert data == before + [h];
      PairsStay(Gaps(before), before, found, h);
      if IsGap(prev.seqNo, h) {
        positions := found + [last];
        IncreasingSnoc(found, last);
        PairAtEnd(Gaps(before), before, found, h);
        JumpAtEnd(before, found, h);
      } else {
        positions := found;
        assert Gaps(before) + [] == Gaps(before);
        NoJumpAtEnd(before, found, h);
      }
    }
  }

  lemma PairsStay(gaps: seq<SeqGap>, data: seq<RecordHeader>, positions: seq<nat>, h: RecordHeader)
    requires PairsAt(gaps, data, positions)
    ensures PairsAt(gaps, data + [h], positions)
    ensures forall i | 0 <= i < |positions| :: positions[i] < |data| - 1
  {
    forall j | 0 <= j < |gaps|
      ensures var k := positions[j]; k + 1 < |data| && (data + [h])[k] == data[k] && (data + [h])[k + 1] == data[k + 1]
    {
    }
  }

  lemma IncreasingSnoc(positions: seq<nat>, last: nat)
    requires Increasing(positions) && forall i | 0 <= i < |positions| :: positions[i] < last
    ensures Increasing(positions + [last])
  {
  }

  lemma PairAtEnd(gaps: seq<SeqGap>, data: seq<RecordHeader>, positions: seq<nat>, h: RecordHeader)
    requires data != [] && IsGap(Last(data).seqNo, h) && PairsAt(gaps, data + [h], positions)
    ensures PairsAt(gaps + GapAfter(Last(data).seqNo, Last(data).tsNs, h), data + [h], positions + [|data| - 1])
  {
    var last := |data| - 1;
    assert (data + [h])[last] == Last(data) && (data + [h])[last + 1] == h;
  }

  lemma JumpAtEnd(data: seq<RecordHeader>, positions: seq<nat>, h: RecordHeader)
    requires data != [] && IsGap(Last(data).seqNo, h) && AllJumps(data, positions)
    ensures AllJumps(data + [h], positions + [|data| - 1])
  {
    var more, last, all := data + [h], |data| - 1, positions + [|data| - 1];
    forall i | 0 <= i < |more| - 1
      ensures i in all <==> more[i + 1].seqNo != (more[i].seqNo + 1) % TWO_32
    {
      if i < last {
        assert i in all <==> i in positions;
        assert more[i + 1] == data[i + 1] && more[i] == data[i];
      } else {
        assert all[|positions|] == i;
      }
    }
  }

  lemma NoJumpAtEnd(data: seq<RecordHeader>, positions: seq<nat>, h: RecordHeader)
    requires data != [] && !IsGap(Last(data).seqNo, h) && AllJumps(data, positions)
    requires forall i | 0 <= i < |positions| :: positions[i] < |data| - 1
    ensures AllJumps(data + [h], positions)
  {
    var more, last := data + [h], |data| - 1;
    forall i | 0 <= i < |more| - 1
      ensures i in positions <==> more[i + 1].seqNo != (more[i].seqNo + 1) % TWO_32
    {
      if i < last {
        assert more[i + 1] == data[i + 1] && more[i] == data[i];
      }
    }
  }

  /** Between 32-bit numbers every listed jump leaves out at least one. */
  lemma {:induction false} EveryGapCounts(data: seq<RecordHeader>)
    requires SeqsInRange(data)
    ensures forall j | 0 <= j < |Gaps(data)| :: Gaps(data)[j].DroppedCount() >= 1
  {
    if |data| >= 2 {
      EveryGapCounts(Init(data));
    }
  }

  // ---------- the drop estimate against an unbounded sequence ----------

  /** The 32-bit numbers are the reductions of an unbounded true sequence. */
  ghost predicate Reduces(data: seq<RecordHeader>, truth: seq<int>)
  {
    && |truth| == |data|
    && forall i | 0 <= i < |data| :: data[i].seqNo == truth[i] % TWO_32
  }

  /** How many whole turns of the 32-bit counter the steps hide; negative for steps back. */
  function HiddenTurns(truth: seq<int>): int
  {
    if |truth| < 2 then 0
    else HiddenTurns(Init(truth)) + (Last(truth) - Last(Init(truth)) - 1) / TWO_32
  }

  lemma DroppedInStep(prev: int, next: int, p: int, n: int)
    requires p == prev % TWO_32 && n == next % TWO_32
    ensures (n - p - 1) % TWO_32 == next - prev - 1 - TWO_32 * ((next - prev - 1) / TWO_32)
    ensures n == (p + 1) % TWO_32 ==> (n - p - 1) % TWO_32 == 0
  {
    var kn, kp := next / TWO_32, prev / TWO_32;
    assert next == TWO_32 * kn + n && prev == TWO_32 * kp + p;
  }

  /**
    * The estimate counts every missing number except those of whole hidden turns. This holds with
    * no assumption on the true sequence at all.
    */
  lemma {:induction false} DropFormula(data: seq<RecordHeader>, truth: seq<int>)
    requires Reduces(data, truth) && data != []
    ensures SumDropped(Gaps(data)) == Last(truth) - truth[0] - (|data| - 1) - TWO_32 * HiddenTurns(truth)
  {
    if |data| >= 2 {
      var before, h := Init(data), Last(data);
      DropFormula(before, Init(truth));
      var prev, next := Last(Init(truth)), Last(truth);
      var turns, turn := HiddenTurns(Init(truth)), (next - prev - 1) / TWO_32;
      SumWithGap(Gaps(before), Last(before), h, prev, next);
      assert TWO_32 * (turns + turn) == TWO_32 * turns + TWO_32 * turn;
    }
  }

  /** What the step from one record to the next adds to the estimate, gap or no gap. */
  lemma {:induction false} SumWithGap(gaps: seq<SeqGap>, last: RecordHeader, h: RecordHeader, prev: int, next: int)
    requires last.seqNo == prev % TWO_32 && h.seqNo == next % TWO_32
    ensures SumDropped(gaps + GapAfter(last.seqNo, last.tsNs, h)) ==
            SumDropped(gaps) + next - prev - 1 - TWO_32 * ((next - prev - 1) / TWO_32)
  {
    DroppedInStep(prev, next, last.seqNo, h.seqNo);
    SumDroppedSnoc(gaps, GapAfter(last.seqNo, last.tsNs, h));
  }

  lemma SumDroppedSnoc(gaps: seq<SeqGap>, more: seq<SeqGap>)
    requires |more| <= 1
    ensures SumDropped(gaps + more) == SumDropped(gaps) + if more == [] then 0 else more[0].DroppedCount()
  {
    if more == [] {
      assert gaps + more == gaps;
    } else {
      assert Init(gaps + more) == gaps;
    }
  }

  ghost predicate StepsWithin(truth: seq<int>, lo: int, hi: int)
  {
    forall i | 0 <= i < |truth| - 1 :: lo <= truth[i + 1] - truth[i] <= hi
  }

  lemma TurnsInStep(step: int)
    requires 1 <= step
    ensures (step - 1) / TWO_32 >= 0
    ensures (step - 1) / TWO_32 == 0 <==> step <= TWO_32
  {
  }

  lemma StepsWithinSnoc(truth: seq<int>, lo: int, hi: int)
    requires |truth| >= 2
    ensures StepsWithin(truth, lo, hi) <==>
              StepsWithin(Init(truth), lo, hi) && lo <= Last(truth) - Last(Init(truth)) <= hi
  {
    var before, k := Init(truth), |truth| - 2;
    assert forall i | 0 <= i < |before| :: before[i] == truth[i];
    assert truth[k + 1] == Last(truth) && truth[k] == Last(before);
  }

  lemma {:induction false} NoHiddenTurns(truth: seq<int>)
    requires forall i | 0 <= i < |truth| - 1 :: 1 <= truth[i + 1] - truth[i]
    ensures HiddenTurns(truth) >= 0
    ensures HiddenTurns(truth) == 0 <==> StepsWithin(truth, 1, TWO_32)
  {
    if |truth| >= 2 {
      var before, k := Init(truth), |truth| - 2;
      assert forall i | 0 <= i < |before| :: before[i] == truth[i];
      NoHiddenTurns(before);
      assert truth[k + 1] - truth[k] == Last(truth) - Last(before);
      TurnsInStep(Last(truth) - Last(before));
      StepsWithinSnoc(truth, 1, TWO_32);
    }
  }

  /** For a true sequence that always advances, the estimate is exact if and only if no step exceeds 2^32. */
  lemma DropEstimateExact(data: seq<RecordHeader>, truth: seq<int>)
    requires Reduces(data, truth) && data != []
    requires forall i | 0 <= i < |truth| - 1 :: 1 <= truth[i + 1] - truth[i]
    ensures SumDropped(Gaps(data)) == Last(truth) - truth[0] - (|data| - 1) <==> StepsWithin(truth, 1, TWO_32)
  {
    DropFormula(data, truth);
    NoHiddenTurns(truth);
  }

  /** With no assumption on the steps the estimate is still right modulo 2^32. */
  lemma {:induction false} DropEstimateModulo(data: seq<RecordHeader>, truth: seq<int>)
    requires Reduces(data, truth) && data != []
    ensures SumDropped(Gaps(data)) % TWO_32 == (Last(truth) - truth[0] - (|data| - 1)) % TWO_32
  {
    DropFormula(data, truth);
    var exact, turns, total := Last(truth) - truth[0] - (|data| - 1), HiddenTurns(truth), SumDropped(Gaps(data));
    TurnsVanish(exact, turns, total);
  }

  lemma TurnsVanish(x: int, k: int, y: int)
    requires y == x - TWO_32 * k
    ensures y % TWO_32 == x % TWO_32
  {
  }

  // ---------- time steps ----------

  lemma {:induction false} StepsTelescope(data: seq<RecordHeader>)
    requires data != []
    ensures Sum(Steps(data)) == Last(data).tsNs - data[0].tsNs
  {
    if |data| >= 2 {
      StepsTelescope(Init(data));
      assert Init(Steps(data)) == Steps(Init(data));
    }
  }

  lemma {:induction false} ForwardBackward(steps: seq<int>)
    ensures |Forward(steps)| + |Backward(steps)| == |steps|
    ensures Sum(Forward(steps)) + Sum(Backward(steps)) == Sum(steps)
  {
    if steps != [] {
      ForwardBackward(Init(steps));
      if Last(steps) < 0 {
        SumSnoc(Backward(Init(steps)), Last(steps));
      } else {
        SumSnoc(Forward(Init(steps)), Last(steps));
      }
    }
  }

  lemma SumSnoc(xs: seq<int>, x: int)
    ensures Sum(xs + [x]) == Sum(xs) + x
  {
    assert Init(xs + [x]) == xs;
  }

  lemma {:induction false} NoneBackward(steps: seq<int>)
    ensures Backward(steps) == [] <==> forall i | 0 <= i < |steps| :: steps[i] >= 0
  {
    if steps != [] {
      NoneBackward(Init(steps));
      InitLast(steps);
      assert steps[|steps| - 1] == Last(steps);
    }
  }

  lemma {:induction false} NegativeSum(xs: seq<int>)
    requires forall i | 0 <= i < |xs| :: xs[i] < 0
    ensures Sum(xs) <= 0 && (Sum(xs) == 0 <==> xs == [])
  {
    if xs != [] {
      NegativeSum(Init(xs));
    }
  }

  ghost predicate NeverBack(data: seq<RecordHeader>)
  {
    forall i | 0 <= i < |data| - 1 :: data[i].tsNs <= data[i + 1].tsNs
  }

  lemma {:induction false} StepAtIndex(data: seq<RecordHeader>, i: nat)
    requires i + 1 < |data|
    ensures Steps(data)[i] == data[i + 1].tsNs - data[i].tsNs
    decreases |data|
  {
    if i + 1 < |data| - 1 {
      StepAtIndex(Init(data), i);
    }
  }

  lemma NeverBackSteps(data: seq<RecordHeader>)
    ensures Backward(Steps(data)) == [] <==> NeverBack(data)
  {
    var steps := Steps(data);
    NoneBackward(steps);
    if Backward(steps) == [] {
      forall i | 0 <= i < |data| - 1
        ensures data[i].tsNs <= data[i + 1].tsNs
      {
        StepAtIndex(data, i);
      }
    }
    if NeverBack(data) {
      forall i | 0 <= i < |steps|
        ensures steps[i] >= 0
      {
        StepAtIndex(data, i);
      }
    }
  }

  lemma SampledTotal(data: seq<RecordHeader>)
    requires data != []
    ensures var all := Steps(data);
            && Sum(Forward(all)) + Sum(Backward(all)) == Last(data).tsNs - data[0].tsNs
            && Sum(Backward(all)) <= 0 && (Sum(Backward(all)) == 0 <==> NeverBack(data))
            && |Forward(all)| + |Backward(all)| == |data| - 1
  {
    ForwardBackward(Steps(data));
    NegativeSum(Backward(Steps(data)));
    NeverBackSteps(data);
    StepsTelescope(data);
  }

  /**
    * The sampled time is the duration plus what the backward steps took away, so it is at least the
    * duration, and equal to it exactly when time never goes back; samples and backward steps
    * together are all the adjacent pairs.
    */
  lemma {:induction false} TimeTelescopes(records: seq<Record>)
    ensures var s, back := Summarize(records), Backward(Steps(Data(records)));
            && s.dt.totalNs + Sum(back) == s.DurationNs()
            && s.dt.totalNs >= s.DurationNs()
            && (s.dt.totalNs == s.DurationNs() <==> NeverBack(Data(records)))
            && s.dt.samples + |back| == Max(s.counters.totalRecords - 1, 0)
  {
    if Data(records) != [] {
      SampledTotal(Data(records));
    }
  }

  lemma {:induction false} SumBetween(xs: seq<int>, lo: int, hi: int)
    requires forall i | 0 <= i < |xs| :: lo <= xs[i] <= hi
    ensures lo * |xs| <= Sum(xs) <= hi * |xs|
  {
    if xs != [] {
      SumBetween(Init(xs), lo, hi);
      assert lo * |xs| == lo * (|xs| - 1) + lo && hi * |xs| == hi * (|xs| - 1) + hi;
    }
  }

  /** The mean step lies between the extremes, which are steps that occur. */
  lemma ExtremesBoundTotal(records: seq<Record>)
    ensures var t := Summarize(records).dt;
            && (t.samples == 0 <==> t.minNs.None?) && (t.samples == 0 <==> t.maxNs.None?)
            && (t.samples > 0 ==>
                  && 0 <= t.minNs.value <= t.maxNs.value
                  && t.minNs.value * t.samples <= t.totalNs <= t.maxNs.value * t.samples)
  {
    var samples := Samples(Data(records));
    if samples != [] {
      assert forall i | 0 <= i < |samples| :: samples[i] in samples;
      SumBetween(samples, Least(samples).value, Greatest(samples).value);
    }
  }

  // ---------- the histogram ----------

  function NineCounts(h: map<int, nat>): nat
    requires h.Keys == Keys()
  {
    var b := DT_BUCKETS_NS;
    h[b[0]] + h[b[1]] + h[b[2]] + h[b[3]] + h[b[4]] + h[b[5]] + h[b[6]] + h[b[7]] + h[OVERFLOW]
  }

  lemma {:induction false} NineCountsTotal(samples: seq<int>)
    ensures NineCounts(Histogram(samples)) == |samples|
  {
    if samples != [] {
      NineCountsTotal(Init(samples));
    }
  }

  /** The nine entries count each sample once, each in the bucket whose interval holds it. */
  lemma HistogramPartition(records: seq<Record>)
    ensures var t, samples := Summarize(records).dt, Samples(Data(records));
            && NineCounts(t.histogram) == t.samples == |samples|
            && t.histogram.Keys ==
               {0, 100, 1_000, 10_000, 100_000, 1_000_000, 10_000_000, 100_000_000, 1_000_000_000}
            && t.histogram[0] + t.histogram[100] + t.histogram[1_000] + t.histogram[10_000]
               + t.histogram[100_000] + t.histogram[1_000_000] + t.histogram[10_000_000]
               + t.histogram[100_000_000] + t.histogram[1_000_000_000] == t.samples
            && forall key | key in Keys() :: t.histogram[key] == CountUnder(samples, key)
  {
    NineCountsTotal(Samples(Data(records)));
    HistogramCounts(Samples(Data(records)));
    KeysInNumbers();
    NineInNumbers(Histogram(Samples(Data(records))));
  }

  lemma NineInNumbers(h: map<int, nat>)
    requires h.Keys == Keys()
    ensures Keys() == {0, 100, 1_000, 10_000, 100_000, 1_000_000, 10_000_000, 100_000_000, 1_000_000_000}
    ensures NineCounts(h) == h[0] + h[100] + h[1_000] + h[10_000] + h[100_000] + h[1_000_000] + h[10_000_000]
                             + h[100_000_000] + h[1_000_000_000]
  {
    KeysInNumbers();
  }

  // ---------- markers and flags ----------

  lemma {:induction false} DataOfSelected(records: seq<Record>)
    ensures Data(Select(records, false)) == Data(records)
    ensures Markers(Select(records, false)) == 0
    ensures |Select(records, false)| == |Data(records)|
    ensures |Data(records)| + Markers(records) == |records|
  {
    if records != [] {
      var before := Init(records);
      DataOfSelected(before);
      if !Last(records).IsWrapMarker() {
        assert Init(Select(before, false) + [Last(records)]) == Select(before, false);
      }
    }
  }

  /**
    * Statistics over the default pass and over the pass with markers differ only in wrapMarkers,
    * which counts the markers in the one and nothing in the other.
    */
  lemma MarkerTransparency(records: seq<Record>)
    ensures var with, without := Summarize(records), Summarize(Select(records, false));
            && without == with.(wrapMarkers := 0)
            && with.wrapMarkers == |records| - |Select(records, false)|
            && with.counters.totalRecords == without.counters.totalRecords == |Select(records, false)|
  {
    DataOfSelected(records);
  }

  lemma {:induction false} FlagBitsCount(data: seq<RecordHeader>, bit: nat)
    ensures FlagBits(data)[bit] == if bit < 8 then CountWithBit(data, bit) else 0
  {
    if data != [] {
      FlagBitsCount(Init(data), bit);
    }
  }

  lemma {:induction false} DataHasNoMarkers(records: seq<Record>)
    ensures CountWithBit(Data(records), WRAP_MARKER_BIT) == 0
  {
    if records != [] {
      DataHasNoMarkers(Init(records));
      if !Last(records).IsWrapMarker() {
        assert Init(Data(records)) == Data(Init(records));
      }
    }
  }

  /**
    * Every data record is tallied once by opcode and once by core; bit 1 of the flag tally is the
    * truncated count, bit 0 is never tallied, and no bit above 7 is.
    */
  lemma TalliesConserve(records: seq<Record>)
    ensures var c := Summarize(records).counters;
            && |c.byOpcode| == |c.byCpu| == c.totalRecords
            && c.byFlagBit[TRUNCATED_BIT] == c.truncatedRecords
            && c.byFlagBit[WRAP_MARKER_BIT] == 0
            && forall bit: nat | bit >= 8 :: bit !in c.byFlagBit
  {
    var data := Data(records);
    DataHasNoMarkers(records);
    FlagBitsCount(data, TRUNCATED_BIT);
    FlagBitsCount(data, WRAP_MARKER_BIT);
    forall bit: nat | bit >= 8
      ensures bit !in FlagBits(data)
    {
      FlagBitsCount(data, bit);
    }
  }

  // ---------- merging two runs ----------

  lemma {:induction false} DataAppend(a: seq<Record>, b: seq<Record>)
    ensures Data(a + b) == Data(a) + Data(b)
  {
    if b == [] {
      assert a + b == a;
    } else {
      AppendInit(a, b);
      DataAppend(a, Init(b));
      Assoc(Data(a), Data(Init(b)), [Last(b).header]);
    }
  }

  lemma {:induction false} MarkersAppend(a: seq<Record>, b: seq<Record>)
    ensures Markers(a + b) == Markers(a) + Markers(b)
  {
    if b == [] {
      assert a + b == a;
    } else {
      assert Init(a + b) == a + Init(b);
      MarkersAppend(a, Init(b));
    }
  }

  lemma FieldsAppend(a: seq<RecordHeader>, b: seq<RecordHeader>)
    ensures Opcodes(a + b) == Opcodes(a) + Opcodes(b)
    ensures Cpus(a + b) == Cpus(a) + Cpus(b)
    ensures PayloadLens(a + b) == PayloadLens(a) + PayloadLens(b)
  {
    ProjectAppend((h: RecordHeader) => h.opcode, a, b);
    ProjectAppend((h: RecordHeader) => h.cpu, a, b);
    ProjectAppend((h: RecordHeader) => h.payloadLen, a, b);
  }

  lemma {:induction false} TruncatedAppend(a: seq<RecordHeader>, b: seq<RecordHeader>)
    ensures CountWithBit(a + b, TRUNCATED_BIT) == CountWithBit(a, TRUNCATED_BIT) + CountWithBit(b, TRUNCATED_BIT)
  {
    if b == [] {
      assert a + b == a;
    } else {
      AppendInit(a, b);
      TruncatedAppend(a, Init(b));
    }
  }

  lemma {:induction false} FlagsAppend(a: seq<RecordHeader>, b: seq<RecordHeader>)
    ensures FlagBits(a + b) == FlagBits(a) + FlagBits(b)
  {
    if b == [] {
      assert a + b == a;
    } else {
      AppendInit(a, b);
      FlagsAppend(a, Init(b));
    }
  }

  /** The one step between the last record of a run and the first of the next. */
  function SeamStep(a: seq<RecordHeader>, b: seq<RecordHeader>): seq<int>
  {
    if a == [] || b == [] then [] else [b[0].tsNs - Last(a).tsNs]
  }

  function SeamGap(a: seq<RecordHeader>, b: seq<RecordHeader>): seq<SeqGap>
  {
    if a == [] || b == [] then [] else GapAfter(Last(a).seqNo, Last(a).tsNs, b[0])
  }

  lemma StepsSnoc(data: seq<RecordHeader>, h: RecordHeader)
    requires data != []
    ensures Steps(data + [h]) == Steps(data) + [h.tsNs - Last(data).tsNs]
  {
    assert Init(data + [h]) == data;
  }

  lemma SeamOfInit(a: seq<RecordHeader>, b: seq<RecordHeader>)
    requires a != [] && |b| >= 2
    ensures SeamStep(a, Init(b)) == SeamStep(a, b) && SeamGap(a, Init(b)) == SeamGap(a, b)
    ensures Last(a + Init(b)) == Last(Init(b))
  {
  }

  lemma {:induction false} StepsAppend(a: seq<RecordHeader>, b: seq<RecordHeader>)
    requires a != [] && b != []
    ensures Steps(a + b) == Steps(a) + SeamStep(a, b) + Steps(b)
    decreases |b|
  {
    if |b| == 1 {
      assert b == [b[0]];
      StepsSnoc(a, b[0]);
    } else {
      var before, h := Init(b), Last(b);
      StepsAppend(a, before);
      SeamOfInit(a, b);
      Assoc(a, before, [h]);
      InitLast(b);
      StepsSnoc(a + before, h);
      StepsSnoc(before, h);
      var step := [h.tsNs - Last(before).tsNs];
      assert Steps(a + b) == Steps(a) + SeamStep(a, b) + Steps(before) + step;
      Assoc(Steps(a) + SeamStep(a, b), Steps(before), step);
    }
  }

  lemma {:induction false} GapsAppend(a: seq<RecordHeader>, b: seq<RecordHeader>)
    requires a != [] && b != []
    ensures Gaps(a + b) == Gaps(a) + SeamGap(a, b) + Gaps(b)
    decreases |b|
  {
    if |b| == 1 {
      assert b == [b[0]];
      PairSnoc(a, b[0]);
    } else {
      var before, h := Init(b), Last(b);
      GapsAppend(a, before);
      SeamOfInit(a, b);
      Assoc(a, before, [h]);
      InitLast(b);
      PairSnoc(a + before, h);
      PairSnoc(before, h);
      Assoc(Gaps(a) + SeamGap(a, before), Gaps(before), GapAfter(Last(before).seqNo, Last(before).tsNs, h));
    }
  }

  lemma PairsAppend(a: seq<RecordHeader>, b: seq<RecordHeader>)
    ensures Steps(a + b) == Steps(a) + SeamStep(a, b) + Steps(b)
    ensures Gaps(a + b) == Gaps(a) + SeamGap(a, b) + Gaps(b)
  {
    if a == [] {
      assert a + b == b;
    } else if b == [] {
      assert a + b == a;
    } else {
      StepsAppend(a, b);
      GapsAppend(a, b);
    }
  }

  lemma {:induction false} ForwardAppend(a: seq<int>, b: seq<int>)
    ensures Forward(a + b) == Forward(a) + Forward(b)
  {
    if b == [] {
      assert a + b == a;
    } else {
      AppendInit(a, b);
      ForwardAppend(a, Init(b));
      Assoc(Forward(a), Forward(Init(b)), [Last(b)]);
    }
  }

  lemma {:induction false} CountUnderAppend(a: seq<int>, b: seq<int>, key: int)
    ensures CountUnder(a + b, key) == CountUnder(a, key) + CountUnder(b, key)
  {
    if b == [] {
      assert a + b == a;
    } else {
      assert Init(a + b) == a + Init(b);
      CountUnderAppend(a, Init(b), key);
    }
  }

  function Lesser(a: Option<int>, b: Option<int>): Option<int>
  {
    if a.None? then b else if b.None? then a else Some(Min(a.value, b.value))
  }

  function Greater(a: Option<int>, b: Option<int>): Option<int>
  {
    if a.None? then b else if b.None? then a else Some(Max(a.value, b.value))
  }

  lemma {:induction false} ExtremesAppend(xs: seq<int>, ys: seq<int>)
    ensures Least(xs + ys) == Lesser(Least(xs), Least(ys))
    ensures Greatest(xs + ys) == Greater(Greatest(xs), Greatest(ys))
  {
    if ys == [] {
      assert xs + ys == xs;
    } else {
      AppendInit(xs, ys);
      ExtremesAppend(xs, Init(ys));
    }
  }

  /** t describes the samples of x, then the seam, then the samples of y. */
  ghost predicate TimingMerges(t: Timing, x: Timing, seam: seq<int>, y: Timing)
    requires t.histogram.Keys == x.histogram.Keys == y.histogram.Keys == Keys()
  {
    && (forall key | key in Keys() :: t.histogram[key] == x.histogram[key] + CountUnder(seam, key) + y.histogram[key])
    && t.minNs == Lesser(Lesser(x.minNs, Least(seam)), y.minNs)
    && t.maxNs == Greater(Greater(x.maxNs, Greatest(seam)), y.maxNs)
    && t.totalNs == x.totalNs + Sum(seam) + y.totalNs
    && t.samples == x.samples + |seam| + y.samples
  }

  lemma TimingAppend(xs: seq<int>, seam: seq<int>, ys: seq<int>)
    ensures TimingMerges(TimingOf(xs + seam + ys), TimingOf(xs), seam, TimingOf(ys))
  {
    ExtremesAppend(xs, seam);
    ExtremesAppend(xs + seam, ys);
    SumAppend(xs, seam);
    SumAppend(xs + seam, ys);
    HistogramCounts(xs);
    HistogramCounts(ys);
    HistogramCounts(xs + seam + ys);
    forall key | key in Keys()
      ensures CountUnder(xs + seam + ys, key) == CountUnder(xs, key) + CountUnder(seam, key) + CountUnder(ys, key)
    {
      CountUnderAppend(xs, seam, key);
      CountUnderAppend(xs + seam, ys, key);
    }
  }

  ghost predicate CountersMerge(c: Counters, x: Counters, y: Counters)
  {
    && c.totalRecords == x.totalRecords + y.totalRecords
    && c.truncatedRecords == x.truncatedRecords + y.truncatedRecords
    && c.byOpcode == x.byOpcode + y.byOpcode
    && c.byCpu == x.byCpu + y.byCpu
    && c.byFlagBit == x.byFlagBit + y.byFlagBit
    && c.firstTsNs == (if x.firstTsNs.Some? then x.firstTsNs else y.firstTsNs)
    && c.lastTsNs == (if y.lastTsNs.Some? then y.lastTsNs else x.lastTsNs)
    && c.payloadSizeTotal == x.payloadSizeTotal + y.payloadSizeTotal
    && c.payloadSizeMin == Lesser(x.payloadSizeMin, y.payloadSizeMin)
    && c.payloadSizeMax == Greater(x.payloadSizeMax, y.payloadSizeMax)
  }

  lemma EndsAppend(a: seq<RecordHeader>, b: seq<RecordHeader>)
    ensures FirstTs(a + b) == if a == [] then FirstTs(b) else FirstTs(a)
    ensures FinalTs(a + b) == if b == [] then FinalTs(a) else FinalTs(b)
  {
    if a == [] {
      assert a + b == b;
    }
    if b == [] {
      assert a + b == a;
    }
  }

  lemma CountersAppend(a: seq<RecordHeader>, b: seq<RecordHeader>)
    ensures CountersMerge(CountersOf(a + b), CountersOf(a), CountersOf(b))
  {
    FieldsAppend(a, b);
    TruncatedAppend(a, b);
    FlagsAppend(a, b);
    EndsAppend(a, b);
    ExtremesAppend(PayloadLens(a), PayloadLens(b));
    SumAppend(PayloadLens(a), PayloadLens(b));
  }

  /**
    * The statistics of two runs one after the other are those of the runs, field by field, plus the
    * one pair at the seam: a gap if it is a jump, a sample if it does not go back.
    */
  lemma StatsMerge(a: seq<Record>, b: seq<Record>)
    ensures var sa, sb, s := Summarize(a), Summarize(b), Summarize(a + b);
            && s.wrapMarkers == sa.wrapMarkers + sb.wrapMarkers
            && CountersMerge(s.counters, sa.counters, sb.counters)
            && s.seqGaps == sa.seqGaps + SeamGap(Data(a), Data(b)) + sb.seqGaps
            && TimingMerges(s.dt, sa.dt, Forward(SeamStep(Data(a), Data(b))), sb.dt)
  {
    var da, db := Data(a), Data(b);
    DataAppend(a, b);
    MarkersAppend(a, b);
    CountersAppend(da, db);
    PairsAppend(da, db);
    var seam := SeamStep(da, db);
    ForwardAppend(Steps(da) + seam, Steps(db));
    ForwardAppend(Steps(da), seam);
    TimingAppend(Samples(da), Forward(seam), Samples(db));
  }
}
