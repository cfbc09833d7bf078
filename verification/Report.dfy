/** The report builder: statistics over a first pass, and the last rows kept by a sliding window over a second. */
module Report {
  import opened Basics
  import opened Stream
  import opened Grammar
  import opened Stats
  import opened StatsLaws
  import opened Synth
  import opened EndToEnd
  import opened Fitting

  datatype ReportInputs = ReportInputs(
    sourceSizeBytes: nat,
    stats: TraceStats,
    records: seq<Record>,
    tableTruncated: bool)

  /**
    * What a report of the records shown holds: their statistics, in which they are counted and no
    * marker is, the last of them up to the bound, and whether there are more than the bound.
    */
  ghost predicate Shows(r: ReportInputs, shown: seq<Record>, maxTableRows: int, size: nat)
    reads r.stats
  {
    && r.stats.View() == Summarize(shown)
    && r.stats.totalRecords == |shown| && r.stats.wrapMarkers == 0
    && r.records == shown[|shown| - Min(|shown|, Max(maxTableRows, 0))..]
    && (r.tableTruncated <==> |shown| > maxTableRows)
    && r.sourceSizeBytes == size
  }

  /**
    * Reads the file twice. Any error of the decoder ends the report. The window holds at most
    * maxTableRows records; a negative bound empties it after every append. The marker count of a
    * report is always 0.
    */
  method BuildReport(file: seq<byte>, maxTableRows: int) returns (r: Result<ReportInputs, Outcome>)
    ensures var d := Decode(file);
            && (r.Err? <==> !d.outcome.Done?)
            && (r.Err? ==> r.error == d.outcome)
            && (r.Ok? ==> fresh(r.value.stats) && Shows(r.value, Select(d.records, false), maxTableRows, |file|))
  {
    assert file[0..] == file;
    ghost var shown := Select(Decode(file).records, false);
    var first := new ByteSource(file);
    var seen, outcome, consumed := IterRecords(first, false);
    if !outcome.Done? {
      return Err(outcome);
    }
    var stats := TraceStats.Compute(seen);
    var second := new ByteSource(file);
    var again, outcome', consumed' := IterRecords(second, false);
    assert seen == again == shown;
    if !outcome'.Done? {
      return Err(outcome');
    }
    var tail, total := TailWindow(again, maxTableRows);
    SelectedAreData(Decode(file).records);
    r := Ok(ReportInputs(|file|, stats, tail, total > maxTableRows));
  }

  /** Appends each record and drops the oldest one when the window is over its bound. */
  method TailWindow(records: seq<Record>, maxTableRows: int) returns (tail: seq<Record>, total: nat)
    ensures total == |records|
    ensures tail == Suffix(records, Max(maxTableRows, 0))
  {
    tail, total := [], 0;
    while total < |records|
      invariant total <= |records|
      invariant tail == Suffix(records[..total], Max(maxTableRows, 0))
    {
      var rec := records[total];
      total := total + 1;
      tail := tail + [rec];
      if |tail| > maxTableRows {
        tail := tail[1..];
      }
    }
  }

  lemma SelectedAreData(records: seq<Record>)
    ensures Summarize(Select(records, false)).counters.totalRecords == |Select(records, false)|
    ensures Summarize(Select(records, false)).wrapMarkers == 0
  {
    DataOfSelected(records);
    DataOfSelected(Select(records, false));
  }

  /** The marker count a report shows for a file is the number of wrap markers in it. */
  ghost predicate CountsMarkers(file: seq<byte>)
  {
    Summarize(Select(Decode(file).records, false)).wrapMarkers == Markers(Decode(file).records)
  }

  /** For any file that is so if and only if no record has an odd flags byte, byte 19 of the record. */
  lemma ReportMissesMarkers(file: seq<byte>)
    ensures var all := Decode(file).records;
            && Summarize(Select(all, false)).wrapMarkers == 0
            && (forall i | 0 <= i < |all| :: all[i].offset + 19 < |file|)
            && (CountsMarkers(file) <==> forall i | 0 <= i < |all| :: file[all[i].offset + 19] % 2 == 0)
  {
    SelectedAreData(Decode(file).records);
    NoMarkers(Decode(file).records);
    DecodedFlags(file);
  }

  /** For the dump of a clean run it is so if and only if the options call for no wrap marker. */
  lemma ReportOfRunMissesMarkers(opts: SynthOptions, tape: Tape)
    requires ValidTape(opts, tape) && Synth.Final(opts, tape).error.None?
    ensures Markers(Decode(DumpOf(opts, tape)).records) == MarkerCount(opts)
    ensures CountsMarkers(DumpOf(opts, tape)) <==> MarkerCount(opts) == 0
  {
    DumpDecodes(opts, tape);
    CleanRunMarkers(opts, tape);
    SelectedAreData(Decode(DumpOf(opts, tape)).records);
  }

  /** Two iterations with a marker due at the second: the dump holds one, the report shows none. */
  lemma OneMarkerMissed(tape: Tape)
    requires ValidTape(SynthOptions(2, 4, 1, 256, 0, 0, 1), tape)
    ensures var dump := DumpOf(SynthOptions(2, 4, 1, 256, 0, 0, 1), tape);
            && Markers(Decode(dump).records) == 1
            && Summarize(Select(Decode(dump).records, false)).wrapMarkers == 0
            && !CountsMarkers(dump)
  {
    MissedMarker(SynthOptions(2, 4, 1, 256, 0, 0, 1), tape);
  }

  lemma MissedMarker(opts: SynthOptions, tape: Tape)
    requires Modest(opts) && opts.count == 2 && opts.dropEvery == 0 && opts.wrapEvery == 1
    requires ValidTape(opts, tape)
    ensures var dump := DumpOf(opts, tape);
            && Markers(Decode(dump).records) == 1
            && Summarize(Select(Decode(dump).records, false)).wrapMarkers == 0
            && !CountsMarkers(dump)
  {
    ModestFits(opts);
    FinishesIffFits(opts);
    ReportOfRunMissesMarkers(opts, tape);
    SelectedAreData(Decode(DumpOf(opts, tape)).records);
  }

  lemma {:induction false} NoMarkers(records: seq<Record>)
    ensures Markers(records) == 0 <==> forall i | 0 <= i < |records| :: !records[i].IsWrapMarker()
  {
    if records != [] {
      NoMarkers(Init(records));
      assert records == Init(records) + [Last(records)];
      assert Last(records) == records[|records| - 1];
    }
  }
}
