/**
  * The trace generator. The random source is a tape of draws, one per iteration, of which the
  * model knows only the bounds of each draw; every statement holds for every tape.
  */
module Synth {
  import opened Basics
  import opened Format
  import opened Grammar
  import opened Encoder

  /** Generation parameters. A period of 0 switches its feature off. */
  datatype SynthOptions = SynthOptions(
    count: int,
    cpus: int,
    baseTsNs: int,
    maxPayload: int,
    dropEvery: int,
    truncateEvery: int,
    wrapEvery: int)

  const OPCODES: set<int> := {0x0001, 0x0002, 0x0003, 0x0010, 0x0011, 0x0020, 0x0030, 0x0031, 0x00F0}

  /** What the random source may give in one iteration; a run uses the draws it needs. */
  datatype Draw = Draw(
    dropped: int,      // how many numbers a drop skips
    markerGapNs: int,  // time after a wrap marker
    opcode: int,
    cpu: int,
    large: bool,       // the payload is one of the rare large ones
    largeLen: int,
    usualLen: int,     // any integer: a rounded Gaussian draw
    payload: seq<byte>,
    gapNs: int)        // time after a data record

  function PayloadLen(opts: SynthOptions, d: Draw): int
  {
    if d.large then d.largeLen else Min(Max(0, d.usualLen), opts.maxPayload)
  }

  ghost predicate ValidDraw(opts: SynthOptions, d: Draw)
  {
    && 1 <= d.dropped <= 3
    && 50 <= d.markerGapNs <= 5_000
    && d.opcode in OPCODES
    && 0 <= d.cpu <= Max(0, opts.cpus - 1)
    && (d.large && opts.maxPayload / 2 <= opts.maxPayload ==> opts.maxPayload / 2 <= d.largeLen <= opts.maxPayload)
    && |d.payload| == Max(0, PayloadLen(opts, d))
    && (if d.opcode in {0x0001, 0x0020} then 500 <= d.gapNs <= 5_000
        else if d.opcode in {0x0010, 0x0011} then 100_000 <= d.gapNs <= 5_000_000
        else 1_000 <= d.gapNs <= 50_000)
  }

  /** A run's random source: the first timestamp, and one draw per iteration. */
  datatype Tape = Tape(startTsNs: int, draws: seq<Draw>)

  ghost predicate ValidTape(opts: SynthOptions, tape: Tape)
  {
    && 10_000_000_000 <= tape.startTsNs <= 100_000_000_000
    && |tape.draws| == Max(0, opts.count)
    && forall i | 0 <= i < |tape.draws| :: ValidDraw(opts, tape.draws[i])
  }

  /** Iteration i is one of every so many; never the first, never when the period is 0. */
  predicate Due(every: int, i: nat)
  {
    every != 0 && i > 0 && i % every == 0
  }

  // ---------- the generator as a state machine ----------

  /** What a run does, in order: numbers skipped, and records written. */
  datatype Event = Drop(amount: nat) | Emit(header: RecordHeader, payload: seq<byte>)
  {
    predicate IsData() { Emit? && !header.IsWrapMarker() }

    predicate IsMarker() { Emit? && header.IsWrapMarker() }
  }

  datatype State = State(seqNo: int, tsNs: int, log: seq<Event>, error: Option<EncodeError>)

  function MarkerHeader(s: State): RecordHeader
  {
    RecordHeader(HMB_RECORD_MAGIC, s.seqNo, s.tsNs, 0, 0, HMB_REC_FLAG_WRAP_MARKER, 0, 0, 0)
  }

  function DataHeader(opts: SynthOptions, i: nat, d: Draw, s: State): RecordHeader
  {
    RecordHeader(HMB_RECORD_MAGIC, s.seqNo, s.tsNs, d.opcode, d.cpu,
                 if Due(opts.truncateEvery, i) then HMB_REC_FLAG_TRUNCATED else 0,
                 PayloadLen(opts, d), 0, 0)
  }

  /** (seqNo + n) & 0xFFFF_FFFF. */
  function Advance(seqNo: int, n: int): int
  {
    (seqNo + n) % TWO_32
  }

  function DropStep(d: Draw, s: State): State
    requires 0 <= d.dropped
  {
    s.(seqNo := Advance(s.seqNo, d.dropped), log := s.log + [Drop(d.dropped)])
  }

  /** Writes one record and moves on, or fails as the encoder does. */
  function EmitStep(h: RecordHeader, payload: seq<byte>, gapNs: int, s: State): State
  {
    if !h.InRange() then s.(error := Some(StructError))
    else State(Advance(s.seqNo, 1), s.tsNs + gapNs, s.log + [Emit(h, payload)], None)
  }

  function MarkerStep(opts: SynthOptions, i: nat, d: Draw, s: State): State
  {
    if Due(opts.wrapEvery, i) then EmitStep(MarkerHeader(s), [], d.markerGapNs, s) else s
  }

  function DataStep(opts: SynthOptions, i: nat, d: Draw, s: State): State
  {
    if d.large && opts.maxPayload / 2 > opts.maxPayload then s.(error := Some(EmptyRange))
    else EmitStep(DataHeader(opts, i, d, s), d.payload, d.gapNs, s)
  }

  function Step(opts: SynthOptions, i: nat, d: Draw, s: State): State
    requires 0 <= d.dropped
  {
    if s.error.Some? then s
    else if Due(opts.dropEvery, i) then DropStep(d, s)
    else
      var s' := MarkerStep(opts, i, d, s);
      if s'.error.Some? then s' else DataStep(opts, i, d, s')
  }

  function Start(opts: SynthOptions, tape: Tape): State
  {
    State(0, if opts.baseTsNs != 0 then opts.baseTsNs else tape.startTsNs, [], None)
  }

  /** The state after n iterations. */
  ghost function After(opts: SynthOptions, tape: Tape, n: nat): State
    requires ValidTape(opts, tape) && n <= |tape.draws|
  {
    if n == 0 then Start(opts, tape)
    else Step(opts, n - 1, tape.draws[n - 1], After(opts, tape, n - 1))
  }

  ghost function Final(opts: SynthOptions, tape: Tape): State
    requires ValidTape(opts, tape)
  {
    After(opts, tape, |tape.draws|)
  }

  // ---------- what a run writes ----------

  ghost predicate LogOk(log: seq<Event>)
  {
    forall k | 0 <= k < |log| && log[k].Emit? :: Encodable(log[k].header, log[k].payload)
  }

  ghost function Chunks(log: seq<Event>): (cs: seq<Chunk>)
    requires LogOk(log)
    ensures AllWellFormed(cs)
  {
    if log == [] then []
    else
      var before, e := Chunks(Init(log)), Last(log);
      if e.Drop? then before
      else
        PackIsChunk(e.header, e.payload);
        before + [ZeroPadded(e.header, e.payload)]
  }

  ghost function Dump(log: seq<Event>): seq<byte>
    requires LogOk(log)
  {
    Flatten(Chunks(log))
  }

  function Concat(parts: seq<seq<byte>>): seq<byte>
  {
    if parts == [] then [] else Concat(Init(parts)) + Last(parts)
  }

  lemma DumpSnoc(log: seq<Event>, e: Event)
    requires LogOk(log) && (e.Emit? ==> Encodable(e.header, e.payload))
    ensures LogOk(log + [e])
    ensures e.Drop? ==> Chunks(log + [e]) == Chunks(log)
    ensures e.Emit? ==>
              && Chunks(log + [e]) == Chunks(log) + [ZeroPadded(e.header, e.payload)]
              && Dump(log + [e]) == Dump(log) + PackRecord(e.header, e.payload).value
  {
    assert Init(log + [e]) == log;
    if e.Emit? {
      PackIsChunk(e.header, e.payload);
      Snoc(Chunks(log), ZeroPadded(e.header, e.payload));
    }
  }

  lemma PackedIsEncodable(h: RecordHeader, payload: seq<byte>)
    requires h.magic == HMB_RECORD_MAGIC && |payload| == Max(0, h.payloadLen)
    ensures PackRecord(h, payload).Ok? <==> Encodable(h, payload)
  {
  }

  /** After an error a run writes nothing more. */
  lemma {:induction false} ErrorSticks(opts: SynthOptions, tape: Tape, n: nat, m: nat)
    requires ValidTape(opts, tape) && n <= m <= |tape.draws|
    requires After(opts, tape, n).error.Some?
    ensures After(opts, tape, m) == After(opts, tape, n)
  {
    if n < m {
      ErrorSticks(opts, tape, n, m - 1);
    }
  }

  // ---------- the generator as a loop ----------

  /** The chunks yielded are, one by one, the bytes of the records of the log. */
  ghost predicate Yielded(log: seq<Event>, chunks: seq<seq<byte>>)
  {
    && LogOk(log)
    && |chunks| == |Chunks(log)|
    && forall k | 0 <= k < |chunks| :: chunks[k] == Chunks(log)[k].Bytes()
  }

  lemma {:induction false} ConcatFlattens(chunks: seq<seq<byte>>, cs: seq<Chunk>)
    requires AllWellFormed(cs) && |chunks| == |cs|
    requires forall k | 0 <= k < |chunks| :: chunks[k] == cs[k].Bytes()
    ensures Concat(chunks) == Flatten(cs)
  {
    if cs != [] {
      ConcatFlattens(Init(chunks), Init(cs));
      assert Last(chunks) == Last(cs).Bytes();
    }
  }

  lemma YieldedSnoc(log: seq<Event>, chunks: seq<seq<byte>>, h: RecordHeader, payload: seq<byte>)
    requires Yielded(log, chunks) && Encodable(h, payload)
    ensures Yielded(log + [Emit(h, payload)], chunks + [PackRecord(h, payload).value])
  {
    DumpSnoc(log, Emit(h, payload));
    PackIsChunk(h, payload);
    assert Chunks(log + [Emit(h, payload)])[|chunks|] == ZeroPadded(h, payload);
  }

  /** The variables of the generator's loop are those of the state s. */
  ghost predicate Tracks(s: State, chunks: seq<seq<byte>>, seqNo: int, ts: int, error: Option<EncodeError>)
  {
    s.seqNo == seqNo && s.tsNs == ts && s.error == error && Yielded(s.log, chunks)
  }

  /** Packs and yields one record, and moves the sequence number and the clock on. */
  method YieldRecord(h: RecordHeader, payload: seq<byte>, gapNs: int,
                     chunks: seq<seq<byte>>, seqNo: int, ts: int, ghost s: State)
    returns (chunks': seq<seq<byte>>, seqNo': int, ts': int, error: Option<EncodeError>)
    requires h.magic == HMB_RECORD_MAGIC && |payload| == Max(0, h.payloadLen)
    requires Tracks(s, chunks, seqNo, ts, None)
    ensures Tracks(EmitStep(h, payload, gapNs, s), chunks', seqNo', ts', error)
  {
    chunks', seqNo', ts', error := chunks, seqNo, ts, None;
    PackedIsEncodable(h, payload);
    var packed := PackRecord(h, payload);
    if packed.Err? {
      error := Some(packed.error);
      return;
    }
    YieldedSnoc(s.log, chunks, h, payload);
    chunks' := chunks + [packed.value];
    seqNo' := Advance(seqNo, 1);
    ts' := ts + gapNs;
  }

  /**
    * Only a large draw can fail, and only for a bound below -1. Otherwise a bound that is not
    * negative gives a length within it, in its upper half for a large draw and else as near to the
    * usual draw as any length x within it; a negative bound gives a negative length, which no header can hold.
    */
  lemma DrawnLength(opts: SynthOptions, i: nat, d: Draw, s: State, x: int)
    requires ValidDraw(opts, d) && s.error.None?
    ensures DataStep(opts, i, d, s).error == Some(EmptyRange) <==> d.large && opts.maxPayload < -1
    ensures opts.maxPayload >= 0 ==>
              var n := DataHeader(opts, i, d, s).payloadLen;
              && 0 <= n <= opts.maxPayload
              && (d.large ==> opts.maxPayload / 2 <= n)
              && (!d.large && 0 <= x <= opts.maxPayload ==> Abs(d.usualLen - n) <= Abs(d.usualLen - x))
    ensures opts.maxPayload < 0 ==> DataStep(opts, i, d, s).error.Some?
  {
    if opts.maxPayload == -1 && d.large {
      assert PayloadLen(opts, d) == -1;
    }
  }

  /** A payload length, or nothing when it is to be drawn from an empty interval. */
  method DrawPayloadLen(opts: SynthOptions, d: Draw) returns (len: Option<int>)
    ensures len.None? <==> d.large && opts.maxPayload < -1
    ensures len.Some? ==> len.value == PayloadLen(opts, d)
  {
    if d.large {
      if opts.maxPayload / 2 > opts.maxPayload {
        return None;
      }
      return Some(d.largeLen);
    }
    var n := Max(0, d.usualLen);
    n := Min(n, opts.maxPayload);
    len := Some(n);
  }

  /** The wrap marker of an iteration, when one is due. */
  method YieldMarker(opts: SynthOptions, i: nat, d: Draw, chunks: seq<seq<byte>>, seqNo: int, ts: int, ghost s: State)
    returns (chunks': seq<seq<byte>>, seqNo': int, ts': int, error: Option<EncodeError>)
    requires Tracks(s, chunks, seqNo, ts, None)
    ensures Tracks(MarkerStep(opts, i, d, s), chunks', seqNo', ts', error)
  {
    if opts.wrapEvery != 0 && i > 0 && i % opts.wrapEvery == 0 {
      var wmh := RecordHeader(HMB_RECORD_MAGIC, seqNo, ts, 0, 0, HMB_REC_FLAG_WRAP_MARKER, 0, 0, 0);
      chunks', seqNo', ts', error := YieldRecord(wmh, [], d.markerGapNs, chunks, seqNo, ts, s);
    } else {
      chunks', seqNo', ts', error := chunks, seqNo, ts, None;
    }
  }

  /** The data record of an iteration. */
  method YieldData(opts: SynthOptions, i: nat, d: Draw, chunks: seq<seq<byte>>, seqNo: int, ts: int, ghost s: State)
    returns (chunks': seq<seq<byte>>, seqNo': int, ts': int, error: Option<EncodeError>)
    requires Tracks(s, chunks, seqNo, ts, None) && |d.payload| == Max(0, PayloadLen(opts, d))
    ensures Tracks(DataStep(opts, i, d, s), chunks', seqNo', ts', error)
  {
    var payloadLen := DrawPayloadLen(opts, d);
    if payloadLen.None? {
      return chunks, seqNo, ts, Some(EmptyRange);
    }
    var flags := 0;
    if opts.truncateEvery != 0 && i > 0 && i % opts.truncateEvery == 0 {
      flags := HMB_REC_FLAG_TRUNCATED;
    }
    var hdr := RecordHeader(HMB_RECORD_MAGIC, seqNo, ts, d.opcode, d.cpu, flags, payloadLen.value, 0, 0);
    assert hdr == DataHeader(opts, i, d, s);
    chunks', seqNo', ts', error := YieldRecord(hdr, d.payload, d.gapNs, chunks, seqNo, ts, s);
  }

  /** Yields the packed records, until the count is reached or a draw or the encoder fails. */
  method Generate(opts: SynthOptions, tape: Tape) returns (chunks: seq<seq<byte>>, error: Option<EncodeError>)
    requires ValidTape(opts, tape)
    ensures Yielded(Final(opts, tape).log, chunks)
    ensures error == Final(opts, tape).error
  {
    chunks, error := [], None;
    var seqNo := 0;
    var ts := if opts.baseTsNs != 0 then opts.baseTsNs else tape.startTsNs;
    ghost var s := Start(opts, tape);
    for i := 0 to Max(0, opts.count)
      invariant s == After(opts, tape, i)
      invariant Tracks(s, chunks, seqNo, ts, None) && error.None?
    {
      var d := tape.draws[i];
      ghost var before := s;
      s := Step(opts, i, d, before);
      if s.error.Some? {
        ErrorSticks(opts, tape, i + 1, |tape.draws|);
      }
      if opts.dropEvery != 0 && i > 0 && i % opts.dropEvery == 0 {
        DumpSnoc(before.log, Drop(d.dropped));
        seqNo := Advance(seqNo, d.dropped);
        continue;
      }
      chunks, seqNo, ts, error := YieldMarker(opts, i, d, chunks, seqNo, ts, before);
      if error.Some? {
        return;
      }
      chunks, seqNo, ts, error := YieldData(opts, i, d, chunks, seqNo, ts, MarkerStep(opts, i, d, before));
      if error.Some? {
        return;
      }
    }
  }

  /** Writes the chunks one after the other and adds up their sizes. */
  method Write(opts: SynthOptions, tape: Tape) returns (file: seq<byte>, total: nat, error: Option<EncodeError>)
    requires ValidTape(opts, tape)
    ensures LogOk(Final(opts, tape).log)
    ensures file == Dump(Final(opts, tape).log) && total == |file|
    ensures error == Final(opts, tape).error
  {
    var chunks;
    chunks, error := Generate(opts, tape);
    file, total := [], 0;
    for k := 0 to |chunks|
      invariant file == Concat(chunks[..k]) && total == |file|
    {
      assert Init(chunks[..k + 1]) == chunks[..k];
      file := file + chunks[k];
      total := total + |chunks[k]|;
    }
    assert chunks[..|chunks|] == chunks;
    ConcatFlattens(chunks, Chunks(Final(opts, tape).log));
  }
}
