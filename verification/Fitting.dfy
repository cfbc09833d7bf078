/** Which option sets make the generator finish whatever is drawn: an exact condition on the options. */
module Fitting {
  import opened Basics
  import opened Format
  import opened Encoder
  import opened Synth
  import opened Ledger

  ghost predicate AlwaysFinishes(opts: SynthOptions)
  {
    forall tape | ValidTape(opts, tape) :: Final(opts, tape).error.None?
  }

  /** Data records and markers of a run of n iterations that does not fail. */
  function DataCount(opts: SynthOptions, n: nat): int
  {
    n - Hits(opts.dropEvery, 0, n)
  }

  function MarkersBy(opts: SynthOptions, n: nat): nat
  {
    Hits(opts.wrapEvery, opts.dropEvery, n)
  }

  function LatestStart(opts: SynthOptions): int
  {
    if opts.baseTsNs != 0 then opts.baseTsNs else 100_000_000_000
  }

  /** The clock when every draw before has been the longest. */
  function Clock(opts: SynthOptions, data: int, markers: int): int
  {
    LatestStart(opts) + 5_000_000 * data + 5_000 * markers
  }

  /** No field can overflow: core, payload length, and the timestamp of the last record. */
  predicate Fits(opts: SynthOptions)
  {
    opts.count > 0 ==>
      && opts.cpus <= 256
      && 0 <= opts.maxPayload < TWO_16
      && 0 <= opts.baseTsNs
      && Clock(opts, DataCount(opts, opts.count) - 1, MarkersBy(opts, opts.count)) < TWO_64
  }

  lemma {:induction false} CountsGrow(opts: SynthOptions, n: nat, m: nat)
    requires n <= m
    ensures DataCount(opts, n) <= DataCount(opts, m) && MarkersBy(opts, n) <= MarkersBy(opts, m)
    decreases m - n
  {
    if n < m {
      CountsGrow(opts, n, m - 1);
    }
  }

  // ---------- fitting options never fail ----------

  ghost predicate WithinClock(opts: SynthOptions, n: nat, s: State)
  {
    && s.error.None?
    && 0 <= s.seqNo < TWO_32
    && 0 <= s.tsNs <= Clock(opts, DataCount(opts, n), MarkersBy(opts, n))
  }

  lemma {:induction false} FittingRun(opts: SynthOptions, tape: Tape, n: nat)
    requires ValidTape(opts, tape) && n <= |tape.draws| && Fits(opts) && opts.count > 0
    ensures WithinClock(opts, n, After(opts, tape, n))
  {
    if n > 0 {
      var i := n - 1;
      FittingRun(opts, tape, i);
      CountsGrow(opts, n, opts.count);
      if !Due(opts.dropEvery, i) {
        FittingEmit(opts, i, tape.draws[i], After(opts, tape, i));
      }
    }
  }

  lemma FittingEmit(opts: SynthOptions, i: nat, d: Draw, s: State)
    requires WithinClock(opts, i, s) && ValidDraw(opts, d) && !Due(opts.dropEvery, i)
    requires opts.cpus <= 256 && 0 <= opts.maxPayload < TWO_16
    requires Clock(opts, DataCount(opts, i + 1) - 1, MarkersBy(opts, i + 1)) < TWO_64
    ensures WithinClock(opts, i + 1, Step(opts, i, d, s))
  {
    assert !Due(0, i);
    assert DataCount(opts, i + 1) == DataCount(opts, i) + 1;
    var t := MarkerStep(opts, i, d, s);
    assert MarkerHeader(s).InRange();
    assert t.error.None? && t.tsNs <= Clock(opts, DataCount(opts, i), MarkersBy(opts, i + 1));
    DrawnFits(opts, d);
    assert DataHeader(opts, i, d, t).InRange();
  }

  lemma DrawnFits(opts: SynthOptions, d: Draw)
    requires ValidDraw(opts, d) && opts.cpus <= 256 && 0 <= opts.maxPayload < TWO_16
    ensures 0 <= d.opcode < TWO_16 && 0 <= d.cpu < 256 && 0 <= PayloadLen(opts, d) < TWO_16
    ensures !(d.large && opts.maxPayload / 2 > opts.maxPayload)
    ensures 0 <= d.gapNs <= 5_000_000
  {
  }

  // ---------- the worst tape ----------

  /** The longest of every draw: latest clock, highest core, largest payload. */
  ghost function WorstDraw(opts: SynthOptions): Draw
  {
    Draw(1, 5_000, 0x0010, Max(0, opts.cpus - 1), false, 0, opts.maxPayload, Zeros(Max(0, opts.maxPayload)), 5_000_000)
  }

  ghost function WorstTape(opts: SynthOptions): (tape: Tape)
    ensures ValidTape(opts, tape)
  {
    var d := WorstDraw(opts);
    assert ValidDraw(opts, d);
    Tape(100_000_000_000, seq(Max(0, opts.count), _ => d))
  }

  ghost predicate OnTheClock(opts: SynthOptions, n: nat, s: State)
  {
    var data := DataHeaders(s.log);
    s.error.None? ==>
      && s.tsNs == Clock(opts, DataCount(opts, n), MarkersBy(opts, n))
      && (n == 0 ==> data == [])
      && (n > 0 ==>
            && data != [] && Last(data).tsNs == s.tsNs - 5_000_000
            && Last(data).cpu == Max(0, opts.cpus - 1) && Last(data).payloadLen == opts.maxPayload
            && data[0].tsNs == LatestStart(opts))
  }

  lemma {:induction false} WorstRun(opts: SynthOptions, n: nat)
    requires n <= |WorstTape(opts).draws|
    ensures OnTheClock(opts, n, After(opts, WorstTape(opts), n))
  {
    if n > 0 {
      WorstRun(opts, n - 1);
      WorstStep(opts, n - 1, WorstDraw(opts), After(opts, WorstTape(opts), n - 1));
    }
  }

  lemma WorstStep(opts: SynthOptions, i: nat, d: Draw, s: State)
    requires OnTheClock(opts, i, s) && d == WorstDraw(opts)
    ensures OnTheClock(opts, i + 1, Step(opts, i, d, s))
  {
    if s.error.None? {
      if Due(opts.dropEvery, i) {
        Add(s.log, Drop(1));
        assert !Due(0, i);
      } else {
        WorstEmit(opts, i, d, s);
      }
    }
  }

  lemma WorstMarker(opts: SynthOptions, i: nat, d: Draw, s: State)
    requires OnTheClock(opts, i, s) && s.error.None? && !Due(opts.dropEvery, i) && d.markerGapNs == 5_000
    ensures var t := MarkerStep(opts, i, d, s);
            t.error.None? ==>
              && t.tsNs == Clock(opts, DataCount(opts, i + 1) - 1, MarkersBy(opts, i + 1))
              && DataHeaders(t.log) == DataHeaders(s.log)
  {
    assert DataCount(opts, i + 1) == DataCount(opts, i) + 1 by {
      assert !Due(0, i);
    }
    AfterMarker(opts, i, d, s);
  }

  lemma WorstEmit(opts: SynthOptions, i: nat, d: Draw, s: State)
    requires OnTheClock(opts, i, s) && s.error.None? && !Due(opts.dropEvery, i)
    requires d.gapNs == 5_000_000 && d.markerGapNs == 5_000 && d.dropped == 1
    requires d.cpu == Max(0, opts.cpus - 1) && PayloadLen(opts, d) == opts.maxPayload
    ensures OnTheClock(opts, i + 1, Step(opts, i, d, s))
  {
    WorstMarker(opts, i, d, s);
    var t := MarkerStep(opts, i, d, s);
    if t.error.None? {
      WorstData(opts, i, d, t);
      assert Step(opts, i, d, s) == DataStep(opts, i, d, t);
    }
  }

  lemma WorstData(opts: SynthOptions, i: nat, d: Draw, t: State)
    requires t.error.None? && d.gapNs == 5_000_000
    requires d.cpu == Max(0, opts.cpus - 1) && PayloadLen(opts, d) == opts.maxPayload
    requires t.tsNs == Clock(opts, DataCount(opts, i + 1) - 1, MarkersBy(opts, i + 1))
    requires if DataHeaders(t.log) == [] then t.tsNs == LatestStart(opts)
             else DataHeaders(t.log)[0].tsNs == LatestStart(opts)
    ensures OnTheClock(opts, i + 1, DataStep(opts, i, d, t))
  {
    AfterData(opts, i, d, t);
  }

  lemma {:induction false} LoggedFits(log: seq<Event>)
    requires LogOk(log)
    ensures forall k | 0 <= k < |DataHeaders(log)| :: DataHeaders(log)[k].InRange()
  {
    if log != [] {
      LoggedFits(Init(log));
      assert log[|log| - 1] == Last(log);
    }
  }

  lemma WorstRunFits(opts: SynthOptions)
    requires Final(opts, WorstTape(opts)).error.None?
    ensures Fits(opts)
  {
    if opts.count > 0 {
      var n := |WorstTape(opts).draws|;
      var log := Final(opts, WorstTape(opts)).log;
      WorstRun(opts, n);
      EveryRunNumbered(opts, WorstTape(opts), n);
      LoggedFits(log);
      var data := DataHeaders(log);
      assert data[0].InRange() && data[|data| - 1].InRange();
    }
  }

  /**
    * The generator finishes on every tape if and only if the options fit: at most 256 cores, a
    * payload bound that is a 16-bit number, a base timestamp that is not negative, and the latest
    * possible timestamp of the last record below 2^64.
    */
  lemma FinishesIffFits(opts: SynthOptions)
    ensures AlwaysFinishes(opts) <==> Fits(opts)
  {
    if Fits(opts) {
      forall tape | ValidTape(opts, tape)
        ensures Final(opts, tape).error.None?
      {
        if opts.count > 0 {
          FittingRun(opts, tape, |tape.draws|);
        }
      }
    }
    if AlwaysFinishes(opts) {
      WorstRunFits(opts);
    }
  }

  /** Small options of a kind that fit for any periods. */
  predicate Modest(opts: SynthOptions)
  {
    && opts.count <= 1_000 && opts.cpus <= 256
    && 0 <= opts.maxPayload < TWO_16
    && 0 <= opts.baseTsNs <= 100_000_000_000
  }

  lemma {:induction false} HitsWithin(every: int, except: int, n: nat)
    ensures Hits(every, except, n) <= n
  {
    if n > 0 {
      HitsWithin(every, except, n - 1);
    }
  }

  lemma ModestFits(opts: SynthOptions)
    requires Modest(opts)
    ensures Fits(opts)
  {
    if opts.count > 0 {
      HitsWithin(opts.wrapEvery, opts.dropEvery, opts.count);
      assert DataCount(opts, opts.count) <= 1_000 && MarkersBy(opts, opts.count) <= 1_000;
    }
  }
}
