/**
  * What a run writes, record by record, from its options and draws alone: which iterations write,
  * where their records stand in the dump, and what every field of them is.
  */
module Course {
  import opened Basics
  import opened Format
  import opened Stream
  import opened Grammar
  import opened Encoder
  import opened Synth
  import opened Ledger
  import opened EndToEnd

  // ---------- the records of one iteration ----------

  /** r is the data record of iteration i, drawn as d. */
  ghost predicate DataOf(opts: SynthOptions, i: nat, d: Draw, r: Record)
  {
    && r.header.magic == 0x54434552 && r.header.opcode == d.opcode && r.header.cpu == d.cpu
    && r.header.flags == (if opts.truncateEvery != 0 && i > 0 && i % opts.truncateEvery == 0 then 2 else 0)
    && r.header.payloadLen == (if d.large then d.largeLen else Min(Max(0, d.usualLen), opts.maxPayload))
    && r.payload == d.payload
    && r.header.reserved0 == r.header.reserved1 == 0
  }

  /** m is the wrap marker in front of the data record r of the same iteration. */
  ghost predicate MarkerOf(d: Draw, m: Record, r: Record)
  {
    && m.header == RecordHeader(0x54434552, m.header.seqNo, m.header.tsNs, 0, 0, 1, 0, 0, 0) && m.payload == []
    && r.header.seqNo == (m.header.seqNo + 1) % 0x1_0000_0000
    && r.header.tsNs == m.header.tsNs + d.markerGapNs
  }

  /**
    * next is the first record of iteration i, after the data record prev of iteration j. At most
    * one iteration, a drop, lies between.
    */
  ghost predicate Continues(tape: Tape, j: nat, prev: Record, i: nat, next: Record)
  {
    && j < i <= j + 2 && i < |tape.draws|
    && next.header.tsNs == prev.header.tsNs + tape.draws[j].gapNs
    && next.header.seqNo ==
       (prev.header.seqNo + 1 + if i == j + 1 then 0 else tape.draws[j + 1].dropped) % 0x1_0000_0000
  }

  /** Where the records of the k-th iteration that writes begin. */
  function SlotStart(places: seq<nat>, k: nat): nat
    requires k <= |places|
  {
    if k == 0 then 0 else places[k - 1] + 1
  }

  /** The records of the k-th iteration that writes: a marker when one is due, and the data record. */
  ghost predicate Slot(opts: SynthOptions, tape: Tape, all: seq<Record>, at: seq<nat>, places: seq<nat>, k: nat)
    requires k < |at| == |places|
  {
    var i, p, from := at[k], places[k], SlotStart(places, k);
    var marked := opts.wrapEvery != 0 && i > 0 && i % opts.wrapEvery == 0;
    && i < |tape.draws| && p == from + (if marked then 1 else 0) && p < |all|
    && DataOf(opts, i, tape.draws[i], all[p])
    && (marked ==> MarkerOf(tape.draws[i], all[from], all[p]))
    && (if k == 0 then
          && all[from].header.seqNo == 0
          && all[from].header.tsNs == if opts.baseTsNs != 0 then opts.baseTsNs else tape.startTsNs
        else from <= |all| && Continues(tape, at[k - 1], all[from - 1], i, all[from]))
  }

  /**
    * all is what the first n iterations write: at are, in order, those that are no drops, and places
    * the positions of their data records.
    */
  ghost predicate Follows(opts: SynthOptions, tape: Tape, n: nat, all: seq<Record>, at: seq<nat>, places: seq<nat>)
  {
    && |at| == |places|
    && (forall j, k | 0 <= j < k < |at| :: at[j] < at[k])
    && (forall i: nat :: i in at <==> i < n && !(opts.dropEvery != 0 && i > 0 && i % opts.dropEvery == 0))
    && (forall k | 0 <= k < |at| :: Slot(opts, tape, all, at, places, k))
    && |all| == SlotStart(places, |places|)
  }

  // ---------- one iteration more ----------

  lemma SlotStays(opts: SynthOptions, tape: Tape, all: seq<Record>, at: seq<nat>, places: seq<nat>, k: nat,
                  more: seq<Record>, i: nat, p: nat)
    requires k < |at| == |places| && Slot(opts, tape, all, at, places, k)
    ensures Slot(opts, tape, all + more, at + [i], places + [p], k)
  {
    var from := SlotStart(places, k);
    assert (at + [i])[k] == at[k] && (places + [p])[k] == places[k];
    assert k > 0 ==> (at + [i])[k - 1] == at[k - 1] && (places + [p])[k - 1] == places[k - 1];
    assert SlotStart(places + [p], k) == from;
    assert (all + more)[places[k]] == all[places[k]] && (all + more)[from] == all[from];
  }

  lemma AddSlot(opts: SynthOptions, tape: Tape, n: nat, all: seq<Record>, at: seq<nat>, places: seq<nat>,
                more: seq<Record>, p: nat)
    requires Follows(opts, tape, n, all, at, places) && !Due(opts.dropEvery, n)
    requires p + 1 == |all| + |more|
    requires Slot(opts, tape, all + more, at + [n], places + [p], |at|)
    ensures Follows(opts, tape, n + 1, all + more, at + [n], places + [p])
  {
    forall k | 0 <= k < |at + [n]|
      ensures Slot(opts, tape, all + more, at + [n], places + [p], k)
    {
      if k < |at| {
        SlotStays(opts, tape, all, at, places, k, more, n, p);
      }
    }
    MembersSnoc(opts, n, at);
  }

  lemma MembersSnoc(opts: SynthOptions, n: nat, at: seq<nat>)
    requires forall j, k | 0 <= j < k < |at| :: at[j] < at[k]
    requires forall i: nat :: i in at <==> i < n && !(opts.dropEvery != 0 && i > 0 && i % opts.dropEvery == 0)
    requires !Due(opts.dropEvery, n)
    ensures forall j, k | 0 <= j < k < |at + [n]| :: (at + [n])[j] < (at + [n])[k]
    ensures forall i: nat ::
              i in at + [n] <==> i < n + 1 && !(opts.dropEvery != 0 && i > 0 && i % opts.dropEvery == 0)
  {
    assert forall j | 0 <= j < |at| :: at[j] in at;
  }

  lemma SkipDrop(opts: SynthOptions, tape: Tape, n: nat, all: seq<Record>, at: seq<nat>, places: seq<nat>)
    requires Follows(opts, tape, n, all, at, places) && Due(opts.dropEvery, n)
    ensures Follows(opts, tape, n + 1, all, at, places)
  {
  }

  // ---------- the run ----------

  /** The records that a dump of the log holds. */
  ghost function Written(log: seq<Event>): seq<Record>
    requires LogOk(log)
  {
    Records(Chunks(log))
  }

  lemma WrittenSnoc(log: seq<Event>, e: Event)
    requires LogOk(log) && (e.Emit? ==> Encodable(e.header, e.payload))
    ensures LogOk(log + [e])
    ensures e.Drop? ==> Written(log + [e]) == Written(log)
    ensures e.Emit? ==> Written(log + [e]) == Written(log) + [Record(|Dump(log)|, e.header, e.payload)]
  {
    DumpSnoc(log, e);
    if e.Emit? {
      PackIsChunk(e.header, e.payload);
      Snoc(Chunks(log), ZeroPadded(e.header, e.payload));
    }
  }

  /** The clock and the number that the state is left with, from the last record and the draws after it. */
  ghost predicate Ready(opts: SynthOptions, tape: Tape, n: nat, s: State, all: seq<Record>, at: seq<nat>)
  {
    && 0 <= s.seqNo < TWO_32
    && (at == [] ==>
          n == 0 && all == [] && s.seqNo == 0
          && s.tsNs == if opts.baseTsNs != 0 then opts.baseTsNs else tape.startTsNs)
    && (at != [] ==>
          && n > 0 && all != [] && Last(at) < n <= |tape.draws|
          && s.tsNs == Last(all).header.tsNs + tape.draws[Last(at)].gapNs
          && Last(all).header.seqNo >= 0
          && (AlwaysDrops(opts)
              || (Last(at) == n - 1 && s.seqNo == (Last(all).header.seqNo + 1) % TWO_32)
              || (Last(at) == n - 2 && Due(opts.dropEvery, n - 1)
                  && s.seqNo == (Last(all).header.seqNo + 1 + tape.draws[n - 1].dropped) % TWO_32)))
  }

  lemma ReadyAfterDrop(opts: SynthOptions, tape: Tape, n: nat, s: State, all: seq<Record>, at: seq<nat>)
    requires ValidTape(opts, tape) && n < |tape.draws|
    requires Ready(opts, tape, n, s, all, at) && Due(opts.dropEvery, n)
    ensures Ready(opts, tape, n + 1, DropStep(tape.draws[n], s), all, at)
  {
    assert ValidDraw(opts, tape.draws[n]);
    if !AlwaysDrops(opts) {
      if Due(opts.dropEvery, n - 1) {
        NeverTwiceInARow(opts.dropEvery, n - 1);
      }
      AdvanceAdds(Last(all).header.seqNo + 1, tape.draws[n].dropped);
    }
  }

  /** What an iteration that is no drop adds to the dump when it does not fail. */
  lemma IterationWrites(opts: SynthOptions, i: nat, d: Draw, s: State)
    returns (marker: Record, data: Record)
    requires LogOk(s.log) && s.error.None? && !Due(opts.dropEvery, i) && ValidDraw(opts, d)
    requires Synth.Step(opts, i, d, s).error.None?
    ensures var t, marked := Synth.Step(opts, i, d, s), Due(opts.wrapEvery, i);
            && LogOk(t.log)
            && Written(t.log) == Written(s.log) + (if marked then [marker, data] else [data])
            && marker.header == MarkerHeader(s) && marker.payload == []
            && data.header == DataHeader(opts, i, d, MarkerStep(opts, i, d, s)) && data.payload == d.payload
            && t.tsNs == data.header.tsNs + d.gapNs && t.seqNo == Advance(data.header.seqNo, 1)
            && data.header.seqNo == (if marked then Advance(s.seqNo, 1) else s.seqNo)
            && data.header.tsNs == s.tsNs + (if marked then d.markerGapNs else 0)
  {
    var s' := MarkerStep(opts, i, d, s);
    marker := Record(|Dump(s.log)|, MarkerHeader(s), []);
    if Due(opts.wrapEvery, i) {
      WrittenSnoc(s.log, Emit(MarkerHeader(s), []));
    }
    var h := DataHeader(opts, i, d, s');
    data := Record(|Dump(s'.log)|, h, d.payload);
    WrittenSnoc(s'.log, Emit(h, d.payload));
    var before := Written(s.log);
    Assoc(before, [marker], [data]);
    assert [marker] + [data] == [marker, data];
  }

  lemma NewSlot(opts: SynthOptions, tape: Tape, n: nat, s: State, all: seq<Record>, at: seq<nat>, places: seq<nat>,
                marker: Record, data: Record)
    requires ValidTape(opts, tape) && n < |tape.draws| && !Due(opts.dropEvery, n)
    requires Follows(opts, tape, n, all, at, places) && Ready(opts, tape, n, s, all, at)
    requires marker.header == MarkerHeader(s) && marker.payload == []
    requires data.header == DataHeader(opts, n, tape.draws[n], MarkerStep(opts, n, tape.draws[n], s))
    requires data.payload == tape.draws[n].payload
    requires data.header.seqNo == if Due(opts.wrapEvery, n) then Advance(s.seqNo, 1) else s.seqNo
    requires data.header.tsNs == s.tsNs + if Due(opts.wrapEvery, n) then tape.draws[n].markerGapNs else 0
    ensures var more := if Due(opts.wrapEvery, n) then [marker, data] else [data];
            Slot(opts, tape, all + more, at + [n], places + [|all| + |more| - 1], |at|)
  {
    var more := if Due(opts.wrapEvery, n) then [marker, data] else [data];
    var all', at', places' := all + more, at + [n], places + [|all| + |more| - 1];
    var k := |at|;
    assert SlotStart(places', k) == SlotStart(places, k) == |all|;
    assert all'[|all|] == more[0] && all'[|all| + |more| - 1] == data;
    if k > 0 {
      assert at'[k - 1] == Last(at) && all'[|all| - 1] == Last(all);
      if AlwaysDrops(opts) {
        AlwaysDue(opts, n);
      }
    }
  }

  lemma ReadyAfterWrite(opts: SynthOptions, tape: Tape, n: nat, t: State, all: seq<Record>, at: seq<nat>, data: Record)
    requires n < |tape.draws| && all != [] && Last(all) == data && data.header.seqNo >= 0
    requires t.tsNs == data.header.tsNs + tape.draws[n].gapNs && t.seqNo == Advance(data.header.seqNo, 1)
    ensures Ready(opts, tape, n + 1, t, all, at + [n])
  {
  }

  lemma {:induction false} FollowsMore(opts: SynthOptions, tape: Tape, n: nat, s: State, t: State, all: seq<Record>,
                                       at: seq<nat>, places: seq<nat>, marker: Record, data: Record)
    returns (all': seq<Record>, places': seq<nat>)
    requires ValidTape(opts, tape) && n < |tape.draws| && !Due(opts.dropEvery, n)
    requires Follows(opts, tape, n, all, at, places) && Ready(opts, tape, n, s, all, at)
    requires marker.header == MarkerHeader(s) && marker.payload == []
    requires data.header == DataHeader(opts, n, tape.draws[n], MarkerStep(opts, n, tape.draws[n], s))
    requires data.payload == tape.draws[n].payload
    requires data.header.seqNo == if Due(opts.wrapEvery, n) then Advance(s.seqNo, 1) else s.seqNo
    requires data.header.tsNs == s.tsNs + if Due(opts.wrapEvery, n) then tape.draws[n].markerGapNs else 0
    requires t.tsNs == data.header.tsNs + tape.draws[n].gapNs && t.seqNo == Advance(data.header.seqNo, 1)
    ensures all' == all + if Due(opts.wrapEvery, n) then [marker, data] else [data]
    ensures Follows(opts, tape, n + 1, all', at + [n], places') && Ready(opts, tape, n + 1, t, all', at + [n])
  {
    var more := if Due(opts.wrapEvery, n) then [marker, data] else [data];
    var p: nat := |all| + |more| - 1;
    NewSlot(opts, tape, n, s, all, at, places, marker, data);
    AddSlot(opts, tape, n, all, at, places, more, p);
    all', places' := all + more, places + [p];
    ReadyAfterWrite(opts, tape, n, t, all', at, data);
  }

  lemma {:induction false} WriteFollows(opts: SynthOptions, tape: Tape, n: nat, s: State, t: State,
                                        all: seq<Record>, at: seq<nat>, places: seq<nat>)
    returns (all': seq<Record>, places': seq<nat>)
    requires ValidTape(opts, tape) && n < |tape.draws| && !Due(opts.dropEvery, n)
    requires s.error.None? && t == Synth.Step(opts, n, tape.draws[n], s) && t.error.None?
    requires LogOk(s.log) && all == Written(s.log)
    requires Follows(opts, tape, n, all, at, places) && Ready(opts, tape, n, s, all, at)
    ensures LogOk(t.log) && all' == Written(t.log)
    ensures Follows(opts, tape, n + 1, all', at + [n], places') && Ready(opts, tape, n + 1, t, all', at + [n])
  {
    var marker, data := IterationWrites(opts, n, tape.draws[n], s);
    all', places' := FollowsMore(opts, tape, n, s, t, all, at, places, marker, data);
  }

  lemma {:induction false} DropFollows(opts: SynthOptions, tape: Tape, n: nat, s: State, t: State,
                                       all: seq<Record>, at: seq<nat>, places: seq<nat>)
    requires ValidTape(opts, tape) && n < |tape.draws| && Due(opts.dropEvery, n)
    requires s.error.None? && t == DropStep(tape.draws[n], s)
    requires LogOk(s.log) && all == Written(s.log)
    requires Follows(opts, tape, n, all, at, places) && Ready(opts, tape, n, s, all, at)
    ensures LogOk(t.log) && all == Written(t.log)
    ensures Follows(opts, tape, n + 1, all, at, places) && Ready(opts, tape, n + 1, t, all, at)
  {
    WrittenSnoc(s.log, Drop(tape.draws[n].dropped));
    SkipDrop(opts, tape, n, all, at, places);
    ReadyAfterDrop(opts, tape, n, s, all, at);
  }

  ghost predicate OnCourse(opts: SynthOptions, tape: Tape, n: nat, s: State,
                           all: seq<Record>, at: seq<nat>, places: seq<nat>)
  {
    && LogOk(s.log) && all == Written(s.log)
    && Follows(opts, tape, n, all, at, places) && Ready(opts, tape, n, s, all, at)
  }

  /** As long as a run has not failed, its records are those of its first n iterations. */
  lemma {:induction false} RunFollows(opts: SynthOptions, tape: Tape, n: nat)
    returns (s: State, all: seq<Record>, at: seq<nat>, places: seq<nat>)
    requires ValidTape(opts, tape) && n <= |tape.draws| && After(opts, tape, n).error.None?
    ensures s == After(opts, tape, n) && OnCourse(opts, tape, n, s, all, at, places)
  {
    s := After(opts, tape, n);
    if n == 0 {
      all, at, places := [], [], [];
      BeginsEmpty(opts, tape, s);
    } else {
      var before, written, writers, slots := RunFollows(opts, tape, n - 1);
      all, at, places := StepFollows(opts, tape, n - 1, before, s, written, writers, slots);
    }
  }

  lemma BeginsEmpty(opts: SynthOptions, tape: Tape, s: State)
    requires s == Start(opts, tape)
    ensures OnCourse(opts, tape, 0, s, [], [], [])
  {
  }

  lemma {:induction false} StepFollows(opts: SynthOptions, tape: Tape, n: nat, s: State, t: State,
                                       all: seq<Record>, at: seq<nat>, places: seq<nat>)
    returns (all': seq<Record>, at': seq<nat>, places': seq<nat>)
    requires ValidTape(opts, tape) && n < |tape.draws|
    requires s.error.None? && t == Synth.Step(opts, n, tape.draws[n], s) && t.error.None?
    requires OnCourse(opts, tape, n, s, all, at, places)
    ensures OnCourse(opts, tape, n + 1, t, all', at', places')
  {
    if Due(opts.dropEvery, n) {
      all', at', places' := all, at, places;
      DropFollows(opts, tape, n, s, t, all, at, places);
    } else {
      at' := at + [n];
      all', places' := WriteFollows(opts, tape, n, s, t, all, at, places);
    }
  }

  /**
    * A clean run, from its options and draws: each iteration that is no drop writes, in order, its
    * marker when one is due and then its data record, with the fields drawn, the next number, and
    * the time the gaps add up to; the decoded dump holds these records and no other.
    */
  lemma RunWrites(opts: SynthOptions, tape: Tape) returns (at: seq<nat>, places: seq<nat>)
    requires ValidTape(opts, tape) && Synth.Final(opts, tape).error.None?
    ensures Follows(opts, tape, Max(0, opts.count), Decode(DumpOf(opts, tape)).records, at, places)
  {
    var s, all;
    s, all, at, places := RunFollows(opts, tape, |tape.draws|);
    DumpDecodes(opts, tape);
  }

  // ---------- a run that fails ----------

  lemma {:induction false} FirstFailure(opts: SynthOptions, tape: Tape, n: nat) returns (m: nat)
    requires ValidTape(opts, tape) && n <= |tape.draws| && After(opts, tape, n).error.Some?
    ensures m < n && After(opts, tape, m).error.None? && After(opts, tape, m + 1) == After(opts, tape, n)
  {
    if After(opts, tape, n - 1).error.None? {
      m := n - 1;
    } else {
      m := FirstFailure(opts, tape, n - 1);
    }
  }

  /**
    * How iteration i fails at the time ts: its marker is due and the time does not fit, or, behind
    * the marker, the payload length cannot be drawn or a field of the data record does not fit.
    * more is what the iteration has written by then.
    */
  ghost predicate FailsWith(opts: SynthOptions, i: nat, d: Draw, seqNo: int, ts: int, more: seq<Record>,
                            error: EncodeError)
  {
    var marked := opts.wrapEvery != 0 && i > 0 && i % opts.wrapEvery == 0;
    var len := if d.large then d.largeLen else Min(Max(0, d.usualLen), opts.maxPayload);
    if marked && !(0 <= ts < 0x1_0000_0000_0000_0000) then
      more == [] && error == StructError
    else
      var time := ts + if marked then d.markerGapNs else 0;
      && |more| == (if marked then 1 else 0)
      && (marked ==> more[0].header == RecordHeader(0x54434552, seqNo, ts, 0, 0, 1, 0, 0, 0) && more[0].payload == [])
      && if d.large && opts.maxPayload < -1 then error == EmptyRange
         else error == StructError && !(0 <= time < 0x1_0000_0000_0000_0000 && d.cpu < 256 && 0 <= len < 0x1_0000)
  }

  lemma {:induction false} FailedStep(opts: SynthOptions, i: nat, d: Draw, s: State) returns (more: seq<Record>)
    requires LogOk(s.log) && s.error.None? && 0 <= s.seqNo < TWO_32 && ValidDraw(opts, d)
    requires Synth.Step(opts, i, d, s).error.Some?
    ensures var t := Synth.Step(opts, i, d, s);
            && !Due(opts.dropEvery, i)
            && LogOk(t.log) && Written(t.log) == Written(s.log) + more
            && FailsWith(opts, i, d, s.seqNo, s.tsNs, more, t.error.value)
  {
    var s' := MarkerStep(opts, i, d, s);
    if s'.error.None? && Due(opts.wrapEvery, i) {
      WrittenSnoc(s.log, Emit(MarkerHeader(s), []));
      more := [Record(|Dump(s.log)|, MarkerHeader(s), [])];
    } else {
      more := [];
      assert Written(s.log) + [] == Written(s.log);
    }
  }

  /** The number and the time with which iteration m begins, after the records written before. */
  ghost predicate Resumes(opts: SynthOptions, tape: Tape, m: nat, before: seq<Record>, at: seq<nat>,
                          seqNo: int, ts: int)
    requires m <= |tape.draws|
  {
    if at == [] then seqNo == 0 && ts == if opts.baseTsNs != 0 then opts.baseTsNs else tape.startTsNs
    else
      && before != [] && Last(at) < m <= Last(at) + 2
      && ts == Last(before).header.tsNs + tape.draws[Last(at)].gapNs
      && seqNo == (Last(before).header.seqNo + 1
                   + if m == Last(at) + 1 then 0 else tape.draws[m - 1].dropped) % 0x1_0000_0000
  }

  lemma {:induction false} ReadyResumes(opts: SynthOptions, tape: Tape, m: nat, s: State,
                                        before: seq<Record>, at: seq<nat>)
    requires m < |tape.draws| && Ready(opts, tape, m, s, before, at) && !Due(opts.dropEvery, m)
    ensures Resumes(opts, tape, m, before, at, s.seqNo, s.tsNs)
  {
    if at != [] && AlwaysDrops(opts) {
      AlwaysDue(opts, m);
    }
  }

  /**
    * A run that fails: its first m iterations write as in a clean run, iteration m fails, and the
    * dump holds what was written until then.
    */
  lemma {:induction false} FailedRunWrites(opts: SynthOptions, tape: Tape)
    returns (m: nat, before: seq<Record>, at: seq<nat>, places: seq<nat>, more: seq<Record>, seqNo: int, ts: int)
    requires ValidTape(opts, tape) && Synth.Final(opts, tape).error.Some?
    ensures m < |tape.draws| && !(opts.dropEvery != 0 && m > 0 && m % opts.dropEvery == 0)
    ensures Decode(DumpOf(opts, tape)).records == before + more
    ensures Follows(opts, tape, m, before, at, places) && Resumes(opts, tape, m, before, at, seqNo, ts)
    ensures FailsWith(opts, m, tape.draws[m], seqNo, ts, more, Synth.Final(opts, tape).error.value)
  {
    var t;
    m, t, before, at, places, more, seqNo, ts := FailureFollows(opts, tape, |tape.draws|);
    DumpDecodes(opts, tape);
  }

  lemma {:induction false} FailureFollows(opts: SynthOptions, tape: Tape, n: nat)
    returns (m: nat, t: State, before: seq<Record>, at: seq<nat>, places: seq<nat>, more: seq<Record>,
             seqNo: int, ts: int)
    requires ValidTape(opts, tape) && n <= |tape.draws| && After(opts, tape, n).error.Some?
    ensures m < n && !Due(opts.dropEvery, m)
    ensures t == After(opts, tape, n) && LogOk(t.log) && Written(t.log) == before + more
    ensures Follows(opts, tape, m, before, at, places) && Resumes(opts, tape, m, before, at, seqNo, ts)
    ensures t.error.Some? && FailsWith(opts, m, tape.draws[m], seqNo, ts, more, t.error.value)
  {
    m := FirstFailure(opts, tape, n);
    var s;
    s, before, at, places := RunFollows(opts, tape, m);
    t, seqNo, ts := After(opts, tape, n), s.seqNo, s.tsNs;
    more := FailedStep(opts, m, tape.draws[m], s);
    ReadyResumes(opts, tape, m, s, before, at);
  }
}
