/**
  * How far the drop estimate is right about a generated run: for each single gap, and for the total
  * against all the numbers that the run skipped and all the records that it lost.
  */
module Estimate {
  import opened Basics
  import opened Format
  import opened Stats
  import opened StatsLaws
  import opened Synth
  import opened Ledger
  import opened Counting
  import opened EndToEnd
  import opened Fitting

  // ---------- drops, seen and unseen ----------

  /** Forced drops: each loses one record. */
  function DropsIn(log: seq<Event>): nat
  {
    if log == [] then 0 else DropsIn(Init(log)) + if Last(log).Drop? then 1 else 0
  }

  /** Those of them after the last data record. */
  function DropsAtEnd(log: seq<Event>): nat
  {
    if log == [] || Last(log).IsData() then 0 else DropsAtEnd(Init(log)) + if Last(log).Drop? then 1 else 0
  }

  /** Numbers skipped that no later data record reveals. */
  function SkippedAtEnd(log: seq<Event>): int
  {
    Dropped(log) - Dropped(BeforeLastData(log))
  }

  ghost predicate AmountsWithin(log: seq<Event>, lo: nat, hi: nat)
  {
    forall i | 0 <= i < |log| && log[i].Drop? :: lo <= log[i].amount <= hi
  }

  lemma OneMore(a: nat, k: nat)
    ensures a * (k + 1) == a * k + a
  {
  }

  lemma {:induction false} DroppedWithin(log: seq<Event>, lo: nat, hi: nat)
    requires AmountsWithin(log, lo, hi)
    ensures lo * DropsIn(log) <= Dropped(log) <= hi * DropsIn(log)
  {
    if log != [] {
      assert Last(log) == log[|log| - 1];
      DroppedWithin(Init(log), lo, hi);
      OneMore(lo, DropsIn(Init(log)));
      OneMore(hi, DropsIn(Init(log)));
    }
  }

  lemma {:induction false} SkippedWithin(log: seq<Event>, lo: nat, hi: nat)
    requires AmountsWithin(log, lo, hi)
    ensures lo * DropsAtEnd(log) <= SkippedAtEnd(log) <= hi * DropsAtEnd(log)
  {
    if log != [] {
      assert Last(log) == log[|log| - 1];
      SkippedWithin(Init(log), lo, hi);
      OneMore(lo, DropsAtEnd(Init(log)));
      OneMore(hi, DropsAtEnd(Init(log)));
    }
  }

  /** The drops before the last data record are those that are not at the end. */
  lemma {:induction false} DropsSplit(log: seq<Event>)
    ensures BeforeLastData(log) <= log
    ensures DropsIn(BeforeLastData(log)) == DropsIn(log) - DropsAtEnd(log)
  {
    if log != [] {
      DropsSplit(Init(log));
    }
  }

  lemma AddDrops(log: seq<Event>, e: Event)
    ensures DropsIn(log + [e]) == DropsIn(log) + if e.Drop? then 1 else 0
    ensures DropsAtEnd(log + [e]) == if e.IsData() then 0 else DropsAtEnd(log) + if e.Drop? then 1 else 0
  {
    assert Init(log + [e]) == log;
  }

  /** Drops in a row at the end of the first n iterations. */
  function TailDrops(opts: SynthOptions, n: nat): nat
  {
    if n == 0 || !Due(opts.dropEvery, n - 1) then 0 else TailDrops(opts, n - 1) + 1
  }

  /** At most one, unless every iteration but the first is a drop. */
  lemma {:induction false} TailDropsClosedForm(opts: SynthOptions, n: nat)
    ensures TailDrops(opts, n) ==
            if n == 0 || !Due(opts.dropEvery, n - 1) then 0 else if AlwaysDrops(opts) then n - 1 else 1
  {
    if n > 1 && Due(opts.dropEvery, n - 1) {
      TailDropsClosedForm(opts, n - 1);
      if AlwaysDrops(opts) && n > 2 {
        AlwaysDue(opts, n - 2);
      }
      if Due(opts.dropEvery, n - 2) {
        NeverTwiceInARow(opts.dropEvery, n - 2);
      }
    }
  }

  ghost predicate DropsCounted(opts: SynthOptions, n: nat, s: State)
  {
    s.error.None? ==>
      DropsIn(s.log) == Hits(opts.dropEvery, 0, n) && DropsAtEnd(s.log) == TailDrops(opts, n)
  }

  lemma {:induction false} EveryRunDrops(opts: SynthOptions, tape: Tape, n: nat)
    requires ValidTape(opts, tape) && n <= |tape.draws|
    ensures DropsCounted(opts, n, After(opts, tape, n))
  {
    if n > 0 {
      EveryRunDrops(opts, tape, n - 1);
      var i, s, d := n - 1, After(opts, tape, n - 1), tape.draws[n - 1];
      if s.error.None? {
        if Due(opts.dropEvery, i) {
          DropCounted(opts, i, d, s);
        } else {
          WriteCounted(opts, i, d, s);
        }
      }
    }
  }

  lemma DropCounted(opts: SynthOptions, i: nat, d: Draw, s: State)
    requires DropsCounted(opts, i, s) && Due(opts.dropEvery, i) && 0 <= d.dropped
    ensures DropsCounted(opts, i + 1, DropStep(d, s))
  {
    AddDrops(s.log, Drop(d.dropped));
    assert !Due(0, i);
  }

  lemma WriteCounted(opts: SynthOptions, i: nat, d: Draw, s: State)
    requires DropsCounted(opts, i, s) && s.error.None? && !Due(opts.dropEvery, i) && 0 <= d.dropped
    ensures DropsCounted(opts, i + 1, Step(opts, i, d, s))
  {
    AddDrops(s.log, Emit(MarkerHeader(s), []));
    var s' := MarkerStep(opts, i, d, s);
    assert DropsIn(s'.log) == DropsIn(s.log);
    HeaderKinds(opts, i, d, s');
    AddDrops(s'.log, Emit(DataHeader(opts, i, d, s'), d.payload));
  }

  lemma {:induction false} EveryRunAmounts(opts: SynthOptions, tape: Tape, n: nat, lo: nat, hi: nat)
    requires ValidTape(opts, tape) && n <= |tape.draws|
    requires forall i | 0 <= i < |tape.draws| :: lo <= tape.draws[i].dropped <= hi
    ensures AmountsWithin(After(opts, tape, n).log, lo, hi)
  {
    if n > 0 {
      EveryRunAmounts(opts, tape, n - 1, lo, hi);
      StepAmounts(opts, n - 1, tape.draws[n - 1], After(opts, tape, n - 1), lo, hi);
    }
  }

  lemma StepAmounts(opts: SynthOptions, i: nat, d: Draw, s: State, lo: nat, hi: nat)
    requires AmountsWithin(s.log, lo, hi) && lo <= d.dropped <= hi
    ensures AmountsWithin(Step(opts, i, d, s).log, lo, hi)
  {
  }

  /** When each drop skips lo to hi numbers, the drops at the end skip that much each. */
  lemma EveryRunTail(opts: SynthOptions, tape: Tape, n: nat, lo: nat, hi: nat)
    requires ValidTape(opts, tape) && n <= |tape.draws|
    requires forall i | 0 <= i < |tape.draws| :: lo <= tape.draws[i].dropped <= hi
    ensures var s := After(opts, tape, n);
            s.error.None? ==> lo * TailDrops(opts, n) <= SkippedAtEnd(s.log) <= hi * TailDrops(opts, n)
  {
    EveryRunDrops(opts, tape, n);
    EveryRunAmounts(opts, tape, n, lo, hi);
    SkippedWithin(After(opts, tape, n).log, lo, hi);
  }

  // ---------- the estimate of a clean run ----------

  ghost predicate Clean(opts: SynthOptions, tape: Tape)
  {
    ValidTape(opts, tape) && Synth.Final(opts, tape).error.None?
  }

  /** Iterations of a run. */
  function Rounds(opts: SynthOptions): nat
  {
    Max(0, opts.count)
  }

  /**
    * A clean run's estimate is off by its markers, which it counts, less the numbers skipped at the
    * end, which it cannot see; there are such numbers exactly when the last iteration is a drop.
    */
  lemma EstimateOfCleanRun(opts: SynthOptions, tape: Tape)
    requires Clean(opts, tape) && opts.count > 0
    ensures var log := Synth.Final(opts, tape).log;
            && StatsOf(opts, tape).TotalDropped() == Dropped(log) + MarkerCount(opts) - SkippedAtEnd(log)
            && 0 <= SkippedAtEnd(log)
            && (SkippedAtEnd(log) > 0 <==> Due(opts.dropEvery, opts.count - 1))
  {
    LedgerRecovered(opts, tape);
    CleanRunMarkers(opts, tape);
    EveryRunTail(opts, tape, opts.count, 1, 3);
  }

  /** Records that a clean run loses to drops. */
  ghost function LostCount(opts: SynthOptions): int
  {
    if opts.count <= 0 then 0 else Multiples(opts.count - 1, opts.dropEvery)
  }

  lemma CleanRunDrops(opts: SynthOptions, tape: Tape)
    requires Clean(opts, tape)
    ensures var log := Synth.Final(opts, tape).log;
            DropsIn(log) == LostCount(opts) && DropsAtEnd(log) == TailDrops(opts, Rounds(opts))
  {
    EveryRunDrops(opts, tape, Rounds(opts));
    if opts.count > 0 {
      HitsClosedForm(opts.dropEvery, 0, opts.count);
    }
  }

  lemma SeenDrops(opts: SynthOptions, tape: Tape)
    requires Clean(opts, tape)
    ensures var before := BeforeLastData(Synth.Final(opts, tape).log);
            && DropsIn(before) == LostCount(opts) - TailDrops(opts, Rounds(opts))
            && StatsOf(opts, tape).TotalDropped() == Dropped(before) + MarkerCount(opts)
  {
    LedgerRecovered(opts, tape);
    CleanRunMarkers(opts, tape);
    CleanRunDrops(opts, tape);
    DropsSplit(Synth.Final(opts, tape).log);
  }

  /**
    * When each drop skips lo to hi numbers, as it does for 1 and 3 on any tape, the estimate of a clean
    * run is the markers plus lo to hi for each lost record, those at the end left out.
    */
  lemma {:induction false} EstimateOfLosses(opts: SynthOptions, tape: Tape, lo: nat, hi: nat)
    requires Clean(opts, tape)
    requires forall i | 0 <= i < |tape.draws| :: lo <= tape.draws[i].dropped <= hi
    ensures var seen, total := LostCount(opts) - TailDrops(opts, Rounds(opts)), StatsOf(opts, tape).TotalDropped();
            lo * seen + MarkerCount(opts) <= total <= hi * seen + MarkerCount(opts)
  {
    var seen := LostCount(opts) - TailDrops(opts, Rounds(opts));
    SeenDrops(opts, tape);
    EveryRunAmounts(opts, tape, Rounds(opts), lo, hi);
    SeenWithin(Synth.Final(opts, tape).log, lo, hi, seen);
  }

  lemma SeenWithin(log: seq<Event>, lo: nat, hi: nat, seen: int)
    requires AmountsWithin(log, lo, hi) && DropsIn(BeforeLastData(log)) == seen
    ensures lo * seen <= Dropped(BeforeLastData(log)) <= hi * seen
  {
    DropsSplit(log);
    assert forall i | 0 <= i < |BeforeLastData(log)| :: BeforeLastData(log)[i] == log[i];
    DroppedWithin(BeforeLastData(log), lo, hi);
  }

  // ---------- the same run with other drops ----------

  /** The tape on which every drop skips the number a, all else being as before. */
  ghost function WithDrops(opts: SynthOptions, tape: Tape, a: nat): (r: Tape)
    requires ValidTape(opts, tape) && 1 <= a <= 3
    ensures ValidTape(opts, r) && r.startTsNs == tape.startTsNs && |r.draws| == |tape.draws|
    ensures forall i | 0 <= i < |r.draws| :: r.draws[i] == tape.draws[i].(dropped := a)
  {
    var r := tape.(draws := seq(|tape.draws|, i requires 0 <= i < |tape.draws| => tape.draws[i].(dropped := a)));
    assert forall i | 0 <= i < |r.draws| :: ValidDraw(opts, tape.draws[i]) && ValidDraw(opts, r.draws[i]);
    r
  }

  /** Two runs fail together, and tell the same time, whatever their numbers. */
  ghost predicate SameCourse(s: State, t: State)
  {
    s.error == t.error && s.tsNs == t.tsNs && 0 <= s.seqNo < TWO_32 && 0 <= t.seqNo < TWO_32
  }

  lemma SameEmit(h: RecordHeader, payload: seq<byte>, gapNs: int, s: State, t: State)
    requires SameCourse(s, t) && h.seqNo == s.seqNo
    ensures SameCourse(EmitStep(h, payload, gapNs, s), EmitStep(h.(seqNo := t.seqNo), payload, gapNs, t))
  {
  }

  lemma SameStep(opts: SynthOptions, i: nat, d: Draw, a: nat, s: State, t: State)
    requires SameCourse(s, t) && 0 <= d.dropped
    ensures SameCourse(Step(opts, i, d, s), Step(opts, i, d.(dropped := a), t))
  {
    var d' := d.(dropped := a);
    SameEmit(MarkerHeader(s), [], d.markerGapNs, s, t);
    var s', t' := MarkerStep(opts, i, d, s), MarkerStep(opts, i, d', t);
    assert SameCourse(s', t');
    SameEmit(DataHeader(opts, i, d, s'), d.payload, d.gapNs, s', t');
    assert DataHeader(opts, i, d', t') == DataHeader(opts, i, d, s').(seqNo := t'.seqNo);
  }

  lemma {:induction false} SameRun(opts: SynthOptions, tape: Tape, a: nat, n: nat)
    requires ValidTape(opts, tape) && 1 <= a <= 3 && n <= |tape.draws|
    ensures SameCourse(After(opts, tape, n), After(opts, WithDrops(opts, tape, a), n))
  {
    if n > 0 {
      SameRun(opts, tape, a, n - 1);
      var more := WithDrops(opts, tape, a);
      SameStep(opts, n - 1, tape.draws[n - 1], a, After(opts, tape, n - 1), After(opts, more, n - 1));
    }
  }

  /** How much drops skip does not decide whether a run is clean. */
  lemma StaysClean(opts: SynthOptions, tape: Tape, a: nat)
    requires Clean(opts, tape) && 1 <= a <= 3
    ensures Clean(opts, WithDrops(opts, tape, a))
  {
    SameRun(opts, tape, a, |tape.draws|);
  }

  lemma FittingRunsAreClean(opts: SynthOptions)
    requires Fits(opts)
    ensures forall tape :: ValidTape(opts, tape) <==> Clean(opts, tape)
    ensures Clean(opts, WorstTape(opts))
  {
    FinishesIffFits(opts);
  }

  // ---------- when the estimate counts numbers skipped ----------

  /** The estimate is the number of sequence numbers the run skipped, all of it counted. */
  ghost predicate CountsSkips(opts: SynthOptions, tape: Tape)
    requires ValidTape(opts, tape)
  {
    StatsOf(opts, tape).TotalDropped() == Dropped(Synth.Final(opts, tape).log)
  }

  /** No marker is called for, and the last iteration is not a drop. */
  ghost predicate OnlySeenDrops(opts: SynthOptions)
  {
    opts.count > 0 ==> MarkerCount(opts) == 0 && !Due(opts.dropEvery, opts.count - 1)
  }

  lemma SkipsCounted(opts: SynthOptions, tape: Tape)
    requires Clean(opts, tape) && OnlySeenDrops(opts)
    ensures CountsSkips(opts, tape)
  {
    if opts.count > 0 {
      EstimateOfCleanRun(opts, tape);
    } else {
      NothingSkipped(opts, tape);
    }
  }

  lemma NothingSkipped(opts: SynthOptions, tape: Tape)
    requires ValidTape(opts, tape) && opts.count <= 0
    ensures CountsSkips(opts, tape)
  {
    assert Synth.Final(opts, tape).log == [];
    LedgerRecovered(opts, tape);
  }

  lemma UniformSkips(opts: SynthOptions, tape: Tape, a: nat)
    requires Clean(opts, tape) && 1 <= a <= 3 && opts.count > 0
    requires CountsSkips(opts, WithDrops(opts, tape, a))
    ensures MarkerCount(opts) == a * TailDrops(opts, opts.count)
  {
    StaysClean(opts, tape, a);
    EstimateOfCleanRun(opts, WithDrops(opts, tape, a));
    EveryRunTail(opts, WithDrops(opts, tape, a), opts.count, a, a);
  }

  lemma SkipsCountedOnly(opts: SynthOptions, some: Tape)
    requires Clean(opts, some)
    requires forall tape | Clean(opts, tape) :: CountsSkips(opts, tape)
    ensures OnlySeenDrops(opts)
  {
    if opts.count > 0 {
      StaysClean(opts, some, 1);
      StaysClean(opts, some, 3);
      UniformSkips(opts, some, 1);
      UniformSkips(opts, some, 3);
    }
  }

  /**
    * For options that have a clean run, the estimate counts the skipped numbers in every clean run
    * if and only if no marker is called for and the last iteration is not a drop. When the options
    * fit, every run is clean.
    */
  lemma EstimateCountsSkipsOnly(opts: SynthOptions)
    ensures (exists tape :: Clean(opts, tape)) ==>
              ((forall tape | Clean(opts, tape) :: CountsSkips(opts, tape)) <==> OnlySeenDrops(opts))
    ensures Fits(opts) ==>
              ((forall tape | ValidTape(opts, tape) :: CountsSkips(opts, tape)) <==> OnlySeenDrops(opts))
  {
    if OnlySeenDrops(opts) {
      forall tape | Clean(opts, tape)
        ensures CountsSkips(opts, tape)
      {
        SkipsCounted(opts, tape);
      }
    } else if some :| Clean(opts, some) {
      if forall tape | Clean(opts, tape) :: CountsSkips(opts, tape) {
        SkipsCountedOnly(opts, some);
      }
    }
    if Fits(opts) {
      FittingRunsAreClean(opts);
    }
  }

  /** One marker and no drop: nothing is skipped, and the estimate is 1. */
  lemma MarkerIsCounted(tape: Tape)
    requires ValidTape(SynthOptions(2, 4, 1, 256, 0, 0, 1), tape)
    ensures var opts := SynthOptions(2, 4, 1, 256, 0, 0, 1);
            StatsOf(opts, tape).TotalDropped() == Dropped(Synth.Final(opts, tape).log) + 1
  {
    OneMarker(SynthOptions(2, 4, 1, 256, 0, 0, 1), tape);
  }

  lemma OneMarker(opts: SynthOptions, tape: Tape)
    requires Modest(opts) && opts.count == 2 && opts.dropEvery == 0 && opts.wrapEvery == 1
    requires ValidTape(opts, tape)
    ensures StatsOf(opts, tape).TotalDropped() == Dropped(Synth.Final(opts, tape).log) + 1
  {
    ModestFits(opts);
    FittingRunsAreClean(opts);
    EstimateOfCleanRun(opts, tape);
  }

  /** One drop at the end and no marker: numbers are skipped, and the estimate stays below them. */
  lemma TrailingDropIsMissed(tape: Tape)
    requires ValidTape(SynthOptions(2, 4, 1, 256, 1, 0, 0), tape)
    ensures var opts := SynthOptions(2, 4, 1, 256, 1, 0, 0);
            StatsOf(opts, tape).TotalDropped() < Dropped(Synth.Final(opts, tape).log)
  {
    TrailingDrop(SynthOptions(2, 4, 1, 256, 1, 0, 0), tape);
  }

  lemma TrailingDrop(opts: SynthOptions, tape: Tape)
    requires Modest(opts) && opts.count == 2 && opts.dropEvery == 1 && opts.wrapEvery == 0
    requires ValidTape(opts, tape)
    ensures StatsOf(opts, tape).TotalDropped() < Dropped(Synth.Final(opts, tape).log)
  {
    ModestFits(opts);
    FittingRunsAreClean(opts);
    assert Due(opts.dropEvery, opts.count - 1);
    EstimateOfCleanRun(opts, tape);
  }

  // ---------- when the estimate counts records lost ----------

  /** The estimate is the number of records the run lost. */
  ghost predicate CountsLosses(opts: SynthOptions, tape: Tape)
    requires ValidTape(opts, tape)
  {
    StatsOf(opts, tape).TotalDropped() == DropsIn(Synth.Final(opts, tape).log)
  }

  /** Every drop called for is at the end, unseen, and there are as many markers to be counted. */
  ghost predicate LossesBalance(opts: SynthOptions)
  {
    LostCount(opts) == TailDrops(opts, Rounds(opts)) == MarkerCount(opts)
  }

  lemma UniformLosses(opts: SynthOptions, tape: Tape, a: nat)
    requires Clean(opts, tape) && 1 <= a <= 3
    requires CountsLosses(opts, WithDrops(opts, tape, a))
    ensures LostCount(opts) == a * (LostCount(opts) - TailDrops(opts, Rounds(opts))) + MarkerCount(opts)
  {
    StaysClean(opts, tape, a);
    CleanRunDrops(opts, WithDrops(opts, tape, a));
    EstimateOfLosses(opts, WithDrops(opts, tape, a), a, a);
  }

  lemma LossesCountedOnly(opts: SynthOptions, some: Tape)
    requires Clean(opts, some)
    requires forall tape | Clean(opts, tape) :: CountsLosses(opts, tape)
    ensures LossesBalance(opts)
  {
    StaysClean(opts, some, 1);
    StaysClean(opts, some, 3);
    UniformLosses(opts, some, 1);
    UniformLosses(opts, some, 3);
  }

  lemma LossesCounted(opts: SynthOptions, tape: Tape)
    requires Clean(opts, tape) && LossesBalance(opts)
    ensures CountsLosses(opts, tape)
  {
    CleanRunDrops(opts, tape);
    EstimateOfLosses(opts, tape, 1, 3);
  }

  /**
    * For options that have a clean run, the estimate counts the lost records in every clean run if
    * and only if the records lost, those lost at the end and the markers are equally many.
    */
  lemma EstimateCountsLossesOnly(opts: SynthOptions)
    ensures (exists tape :: Clean(opts, tape)) ==>
              ((forall tape | Clean(opts, tape) :: CountsLosses(opts, tape)) <==> LossesBalance(opts))
    ensures Fits(opts) ==>
              ((forall tape | ValidTape(opts, tape) :: CountsLosses(opts, tape)) <==> LossesBalance(opts))
  {
    if LossesBalance(opts) {
      forall tape | Clean(opts, tape)
        ensures CountsLosses(opts, tape)
      {
        LossesCounted(opts, tape);
      }
    } else if some :| Clean(opts, some) {
      if forall tape | Clean(opts, tape) :: CountsLosses(opts, tape) {
        LossesCountedOnly(opts, some);
      }
    }
    if Fits(opts) {
      FittingRunsAreClean(opts);
    }
  }

  /** One drop, in the middle, and no marker: one record is lost, and the estimate is the amount skipped. */
  lemma OneLossManyNumbers(tape: Tape, a: nat)
    requires ValidTape(SynthOptions(4, 4, 1, 256, 2, 0, 0), tape)
    requires forall i | 0 <= i < |tape.draws| :: tape.draws[i].dropped == a
    ensures var opts := SynthOptions(4, 4, 1, 256, 2, 0, 0);
            DropsIn(Synth.Final(opts, tape).log) == 1 && StatsOf(opts, tape).TotalDropped() == a
  {
    OneLoss(SynthOptions(4, 4, 1, 256, 2, 0, 0), tape, a);
  }

  lemma OneLoss(opts: SynthOptions, tape: Tape, a: nat)
    requires Modest(opts) && opts.count == 4 && opts.dropEvery == 2 && opts.wrapEvery == 0
    requires ValidTape(opts, tape) && forall i | 0 <= i < |tape.draws| :: tape.draws[i].dropped == a
    ensures DropsIn(Synth.Final(opts, tape).log) == 1 && StatsOf(opts, tape).TotalDropped() == a
  {
    ModestFits(opts);
    FittingRunsAreClean(opts);
    CleanRunDrops(opts, tape);
    SeenDrops(opts, tape);
    OneLossPlan(opts);
    EveryRunAmounts(opts, tape, Rounds(opts), a, a);
    SeenWithin(Synth.Final(opts, tape).log, a, a, 1);
  }

  lemma OneLossPlan(opts: SynthOptions)
    requires opts.count == 4 && opts.dropEvery == 2 && opts.wrapEvery == 0
    ensures LostCount(opts) == 1 && MarkerCount(opts) == 0 && TailDrops(opts, Rounds(opts)) == 0
  {
  }

  // ---------- each single gap ----------

  /** The positions of the data records in the log. */
  function DataPositions(log: seq<Event>): (r: seq<nat>)
    ensures |r| == |DataHeaders(log)|
  {
    if log == [] then []
    else if Last(log).IsData() then DataPositions(Init(log)) + [|log| - 1]
    else DataPositions(Init(log))
  }

  /** They are increasing, and they are those of the events that are data. */
  lemma {:induction false} PositionsOfData(log: seq<Event>)
    ensures var at := DataPositions(log);
            && Increasing(at)
            && forall i: nat :: i in at <==> i < |log| && log[i].IsData()
  {
    if log != [] {
      var before := Init(log);
      PositionsOfData(before);
      assert log == before + [Last(log)];
      assert forall j | 0 <= j < |DataPositions(before)| :: DataPositions(before)[j] in DataPositions(before);
    }
  }

  /** The k-th of them is where the k-th data record and its true number are. */
  lemma {:induction false} RecordAtPosition(log: seq<Event>, k: nat)
    requires k < |DataHeaders(log)|
    ensures var p := DataPositions(log)[k];
            && p < |log| && log[p].IsData() && log[p].header == DataHeaders(log)[k]
            && TrueSeqs(log)[k] == Issued(log[..p])
    decreases |log|
  {
    var before := Init(log);
    if k < |DataHeaders(before)| {
      RecordAtPosition(before, k);
      var p := DataPositions(before)[k];
      assert log[..p] == before[..p];
    }
  }

  /** What happened between the k-th data record and the next. */
  function Between(log: seq<Event>, k: nat): seq<Event>
    requires k + 1 < |DataHeaders(log)|
  {
    var a, b := DataPositions(log)[k], DataPositions(log)[k + 1];
    if a < b <= |log| then log[a + 1..b] else []
  }

  lemma {:induction false} SegmentAdds(log: seq<Event>, more: seq<Event>)
    ensures Issued(log + more) == Issued(log) + Issued(more)
    decreases |more|
  {
    if more == [] {
      assert log + more == log;
    } else {
      assert Init(log + more) == log + Init(more);
      SegmentAdds(log, Init(more));
    }
  }

  lemma {:induction false} NoDataIn(segment: seq<Event>)
    requires forall i | 0 <= i < |segment| :: !segment[i].IsData()
    ensures DataHeaders(segment) == []
  {
    if segment != [] {
      assert Last(segment) == segment[|segment| - 1];
      NoDataIn(Init(segment));
    }
  }

  lemma {:induction false} SomethingIssued(segment: seq<Event>)
    requires AmountsWithin(segment, 1, 3)
    ensures Issued(segment) >= |segment|
  {
    if segment != [] {
      SomethingIssued(Init(segment));
      assert Last(segment) == segment[|segment| - 1];
    }
  }

  lemma NotBetween(at: seq<nat>, k: nat, i: nat)
    requires Increasing(at) && k + 1 < |at| && at[k] < i < at[k + 1]
    ensures i !in at
  {
    forall j | 0 <= j < |at|
      ensures at[j] != i
    {
      if j < k {
        assert at[j] < at[k];
      } else if k + 1 < j {
        assert at[k + 1] < at[j];
      }
    }
  }

  lemma {:induction false} BetweenIsSlice(log: seq<Event>, k: nat)
    requires k + 1 < |DataHeaders(log)|
    ensures var at, data := DataPositions(log), DataHeaders(log);
            IsBetween(Between(log, k), log, at[k], data[k], at[k + 1], data[k + 1])
  {
    PositionsIncrease(log, k);
    RecordAtPosition(log, k);
    RecordAtPosition(log, k + 1);
  }

  lemma PositionsIncrease(log: seq<Event>, k: nat)
    requires k + 1 < |DataHeaders(log)|
    ensures DataPositions(log)[k] < DataPositions(log)[k + 1]
  {
    PositionsOfData(log);
  }

  lemma NoDataInSlice(log: seq<Event>, a: nat, b: nat)
    requires a < b <= |log|
    requires forall i | a < i < b :: !log[i].IsData()
    ensures DataHeaders(log[a + 1..b]) == []
  {
    var seg := log[a + 1..b];
    assert forall i | 0 <= i < |seg| :: seg[i] == log[a + 1 + i];
    NoDataIn(seg);
  }

  lemma {:induction false} NotData(log: seq<Event>, k: nat, i: nat)
    requires k + 1 < |DataHeaders(log)| && i < |log|
    requires DataPositions(log)[k] < i < DataPositions(log)[k + 1]
    ensures !log[i].IsData()
  {
    PositionsOfData(log);
    NotBetween(DataPositions(log), k, i);
  }

  lemma {:induction false} NoDataBetween(log: seq<Event>, k: nat)
    requires k + 1 < |DataHeaders(log)|
    ensures DataHeaders(Between(log, k)) == []
  {
    var a, b := DataPositions(log)[k], DataPositions(log)[k + 1];
    BetweenIsSlice(log, k);
    forall i | a < i < b
      ensures !log[i].IsData()
    {
      NotData(log, k, i);
    }
    NoDataInSlice(log, a, b);
  }

  lemma IssuedAcross(log: seq<Event>, a: nat, b: nat)
    requires a < b <= |log| && log[a].IsData()
    ensures Issued(log[..b]) == Issued(log[..a]) + 1 + Issued(log[a + 1..b])
  {
    assert log[..b] == log[..a] + [log[a]] + log[a + 1..b];
    SegmentAdds(log[..a] + [log[a]], log[a + 1..b]);
    Add(log[..a], log[a]);
  }

  /** Only drops and markers lie between, and the true numbers are as far apart as those account for. */
  lemma {:induction false} BetweenData(log: seq<Event>, k: nat)
    requires k + 1 < |DataHeaders(log)| && AmountsWithin(log, 1, 3)
    ensures var seg := Between(log, k);
            && DataHeaders(seg) == []
            && TrueSeqs(log)[k + 1] - TrueSeqs(log)[k] - 1 == Dropped(seg) + MarkersIn(seg)
            && (Dropped(seg) + MarkersIn(seg) == 0 <==> seg == [])
  {
    var a, b, seg := DataPositions(log)[k], DataPositions(log)[k + 1], Between(log, k);
    BetweenIsSlice(log, k);
    RecordAtPosition(log, k);
    RecordAtPosition(log, k + 1);
    NoDataBetween(log, k);
    IssuedSplits(seg);
    IssuedAcross(log, a, b);
    SomethingIssued(seg);
  }

  lemma JumpSize(data: seq<RecordHeader>, truth: seq<int>, k: nat)
    requires Reduces(data, truth) && StepsWithin(truth, 1, 5) && k + 1 < |data|
    ensures GapOf(data, k).DroppedCount() == truth[k + 1] - truth[k] - 1
    ensures IsGap(data[k].seqNo, data[k + 1]) <==> truth[k + 1] - truth[k] - 1 != 0
  {
    SmallStep(truth[k], truth[k + 1], data[k].seqNo, data[k + 1].seqNo);
  }

  lemma SmallStep(prev: int, next: int, p: int, n: int)
    requires p == prev % TWO_32 && n == next % TWO_32 && 1 <= next - prev <= 5
    ensures (n - p - 1) % TWO_32 == next - prev - 1
    ensures n == (p + 1) % TWO_32 <==> next - prev == 1
  {
    DroppedInStep(prev, next, p, n);
  }

  /** seg is all that the log holds between the data records h and h', which it has at a and at b. */
  ghost predicate IsBetween(seg: seq<Event>, log: seq<Event>, a: nat, h: RecordHeader, b: nat, h': RecordHeader)
  {
    && a < b < |log| && seg == log[a + 1..b]
    && log[a].IsData() && log[a].header == h
    && log[b].IsData() && log[b].header == h'
  }

  /**
    * What lies between the k-th data record and the next is all that the log holds between the two.
    * A jump follows the k-th exactly when something lies between, and its size is that.
    */
  ghost predicate Explained(log: seq<Event>, k: nat)
    requires k + 1 < |DataHeaders(log)|
  {
    var data, seg := DataHeaders(log), Between(log, k);
    && IsBetween(seg, log, DataPositions(log)[k], data[k], DataPositions(log)[k + 1], data[k + 1])
    && DataHeaders(seg) == []
    && GapOf(data, k).DroppedCount() == Dropped(seg) + MarkersIn(seg)
    && (IsGap(data[k].seqNo, data[k + 1]) <==> seg != [])
  }

  lemma {:induction false} PairExplained(log: seq<Event>, k: nat)
    requires k + 1 < |DataHeaders(log)| && AmountsWithin(log, 1, 3)
    requires Reduces(DataHeaders(log), TrueSeqs(log)) && StepsWithin(TrueSeqs(log), 1, 5)
    ensures Explained(log, k)
  {
    JumpSize(DataHeaders(log), TrueSeqs(log), k);
    BetweenData(log, k);
    BetweenIsSlice(log, k);
  }

  /**
    * Each gap of a generated dump is accounted for by itself. The gaps are, in order, the pairs of
    * data records with a drop or a marker between them, and the count of a gap is the numbers
    * skipped by those drops plus those markers.
    */
  lemma EachGapExplained(opts: SynthOptions, tape: Tape) returns (positions: seq<nat>)
    requires ValidTape(opts, tape)
    ensures var log := Synth.Final(opts, tape).log;
            var data, gaps := DataHeaders(log), StatsOf(opts, tape).seqGaps;
            && Increasing(positions) && PairsAt(gaps, data, positions)
            && (forall k | 0 <= k < |data| - 1 :: k in positions <==> Between(log, k) != [])
            && (forall k | 0 <= k < |data| - 1 :: Explained(log, k))
  {
    StatsOfLog(opts, tape);
    EveryRunNumbered(opts, tape, |tape.draws|);
    EveryRunPaced(opts, tape, |tape.draws|);
    EveryRunAmounts(opts, tape, |tape.draws|, 1, 3);
    positions := GapsOfLog(Synth.Final(opts, tape).log);
  }

  lemma GapsOfLog(log: seq<Event>) returns (positions: seq<nat>)
    requires AmountsWithin(log, 1, 3)
    requires Reduces(DataHeaders(log), TrueSeqs(log)) && StepsWithin(TrueSeqs(log), 1, 5)
    ensures var data, gaps := DataHeaders(log), Gaps(DataHeaders(log));
            && Increasing(positions) && PairsAt(gaps, data, positions)
            && (forall k | 0 <= k < |data| - 1 :: k in positions <==> Between(log, k) != [])
            && (forall k | 0 <= k < |data| - 1 :: Explained(log, k))
  {
    positions := GapsAreTheJumps(DataHeaders(log));
    forall k | 0 <= k < |DataHeaders(log)| - 1
      ensures Explained(log, k) && (k in positions <==> Between(log, k) != [])
    {
      PairExplained(log, k);
    }
  }
}
