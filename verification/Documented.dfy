/**
  * The rules that the format document states beyond the chunk grammar, and exactly how far the
  * decoder and the generator keep them.
  */
module Documented {
  import opened Basics
  import opened Format
  import opened Stream
  import opened Grammar
  import opened Encoder
  import opened Stats
  import Synth
  import opened Ledger
  import opened EndToEnd
  import opened Fitting

  const MAX_DOCUMENTED_PAYLOAD: nat := 4064

  // ---------- what a producer may write ----------

  /** Sections 4 and 6: the payload bound, markers without payload, reserved fields and unused bits zero. */
  predicate DocumentedHeader(h: RecordHeader)
  {
    && h.payloadLen <= MAX_DOCUMENTED_PAYLOAD
    && (h.IsWrapMarker() ==> h.payloadLen == 0)
    && 0 <= h.flags < 4
    && h.reserved0 == h.reserved1 == 0
  }

  ghost predicate DocumentedChunk(c: Chunk)
  {
    DocumentedHeader(c.header) && c.padding == Zeros(|c.padding|)
  }

  ghost predicate AllDocumented(cs: seq<Chunk>)
  {
    forall i | 0 <= i < |cs| :: DocumentedChunk(cs[i])
  }

  /** The buffer is a dump that the document allows. */
  ghost predicate DocumentedDump(buf: seq<byte>)
  {
    exists cs :: AllWellFormed(cs) && AllDocumented(cs) && Flatten(cs) == buf
  }

  lemma {:induction false} RecordsOfChunks(cs: seq<Chunk>)
    requires AllWellFormed(cs)
    ensures forall i | 0 <= i < |cs| ::
              Records(cs)[i].header == cs[i].header && Records(cs)[i].payload == cs[i].payload
  {
    if cs != [] {
      RecordsOfChunks(Init(cs));
      assert cs == Init(cs) + [Last(cs)];
    }
  }

  lemma DocumentedIsPadded(c: Chunk)
    requires c.WellFormed() && DocumentedChunk(c)
    ensures Encodable(c.header, c.payload) && c == ZeroPadded(c.header, c.payload)
  {
    PaddingAgrees(c.header);
  }

  lemma DocumentedIsCanonical(cs: seq<Chunk>)
    requires AllWellFormed(cs) && AllDocumented(cs)
    ensures AllEncodable(Records(cs)) && Canonical(Records(cs)) == cs
    ensures forall i | 0 <= i < |cs| :: DocumentedHeader(Records(cs)[i].header)
  {
    RecordsOfChunks(cs);
    forall i | 0 <= i < |cs|
      ensures Encodable(cs[i].header, cs[i].payload)
      ensures cs[i] == ZeroPadded(cs[i].header, cs[i].payload)
    {
      DocumentedIsPadded(cs[i]);
    }
  }

  lemma CanonicalIsDocumented(records: seq<Record>)
    requires AllEncodable(records)
    requires forall i | 0 <= i < |records| :: DocumentedHeader(records[i].header)
    ensures DocumentedDump(PackAll(records))
  {
    PackAllFlattens(records);
    assert AllDocumented(Canonical(records));
  }

  /**
    * A buffer is a documented dump if and only if it decodes cleanly, every header decoded keeps
    * the rules, and the padding bytes are zero. The decoder itself checks the first of these only.
    */
  lemma DocumentedIff(buf: seq<byte>)
    ensures var d := Decode(buf);
            DocumentedDump(buf) <==>
              && d.outcome.Done?
              && (forall i | 0 <= i < |d.records| :: DocumentedHeader(d.records[i].header))
              && (forall k | 0 <= k < |buf| && InPadding(d.records, k) :: buf[k] == 0)
  {
    var d := Decode(buf);
    if DocumentedDump(buf) {
      var cs :| AllWellFormed(cs) && AllDocumented(cs) && Flatten(cs) == buf;
      DecodeFlatten(cs);
      DocumentedIsCanonical(cs);
      PackAllFlattens(d.records);
      CanonicalBuffers(buf);
    }
    if d.outcome.Done? && forall i | 0 <= i < |d.records| :: DocumentedHeader(d.records[i].header) {
      NormalForm(buf);
      CanonicalBuffers(buf);
      CanonicalIsDocumented(d.records);
    }
  }

  // ---------- buffers the decoder accepts all the same ----------

  lemma SingleChunk(cs: seq<Chunk>)
    requires AllWellFormed(cs) && |cs| == 1
    ensures Flatten(cs) == cs[0].Bytes() && Records(cs) == [Record(0, cs[0].header, cs[0].payload)]
  {
    assert Init(cs) == [] && Last(cs) == cs[0];
  }

  lemma {:induction false} OneChunk(c: Chunk)
    requires c.WellFormed()
    ensures Decode(c.Bytes()) == Decoded([Record(0, c.header, c.payload)], Done)
  {
    var cs := [c];
    SingleChunk(cs);
    DecodeFlatten(cs);
  }

  function Header(flags: int, payloadLen: int): RecordHeader
  {
    RecordHeader(HMB_RECORD_MAGIC, 0, 0, 1, 0, flags, payloadLen, 0, 0)
  }

  lemma UndocumentedHeader(c: Chunk)
    requires c.WellFormed() && !DocumentedHeader(c.header)
    ensures Decode(c.Bytes()).outcome.Done? && !DocumentedDump(c.Bytes())
  {
    OneChunk(c);
    DocumentedIff(c.Bytes());
    assert Decode(c.Bytes()).records[0].header == c.header;
  }

  /** Exactly which dumps of one record the document allows; the decoder accepts them all. */
  lemma OneRecordDocumented(c: Chunk)
    requires c.WellFormed()
    ensures Decode(c.Bytes()).outcome.Done?
    ensures DocumentedDump(c.Bytes()) <==>
              && c.header.payloadLen <= 4064 && (c.header.flags % 2 == 1 ==> c.header.payloadLen == 0)
              && c.header.flags < 4 && c.header.reserved0 == 0 && c.header.reserved1 == 0
              && forall k | 0 <= k < |c.padding| :: c.padding[k] == 0
  {
    OneChunk(c);
    DocumentedIff(c.Bytes());
    var records := [Record(0, c.header, c.payload)];
    assert records[0].header == c.header;
    PaddingOfOne(c);
  }

  lemma PaddingOfOne(c: Chunk)
    requires c.WellFormed()
    ensures var buf, records := c.Bytes(), [Record(0, c.header, c.payload)];
            (forall k | 0 <= k < |buf| && InPadding(records, k) :: buf[k] == 0) <==>
            forall k | 0 <= k < |c.padding| :: c.padding[k] == 0
  {
    var buf, records := c.Bytes(), [Record(0, c.header, c.payload)];
    var start := |buf| - |c.padding|;
    ChunkSize(c);
    PaddingPlace(Record(0, c.header, c.payload), |buf|);
    if forall k | 0 <= k < |buf| && InPadding(records, k) :: buf[k] == 0 {
      forall k | 0 <= k < |c.padding|
        ensures c.padding[k] == 0
      {
        assert buf[start + k] == c.padding[k] && InPadding(records, start + k);
      }
    }
    assert forall k | start <= k < |buf| :: buf[k] == c.padding[k - start];
  }

  lemma PaddingPlace(r: Record, size: nat)
    requires r.offset == 0 && 0 <= r.header.payloadLen && size == r.header.TotalSize()
    ensures forall k | 0 <= k < size ::
              InPadding([r], k) <==> HMB_RECORD_HDR_SIZE + r.header.payloadLen <= k
  {
    assert Last([r]) == r;
  }

  /** A payload of 4072 bytes is above the bound. */
  lemma LongPayloadAccepted() returns (buf: seq<byte>)
    ensures Decode(buf).outcome.Done? && !DocumentedDump(buf)
    ensures |Decode(buf).records| == 1 && Decode(buf).records[0].header == Header(0, 4072)
  {
    var c := Chunk(Header(0, 4072), Zeros(4072), []);
    OneChunk(c);
    UndocumentedHeader(c);
    buf := c.Bytes();
  }

  /** A wrap marker may not have a payload. */
  lemma MarkerPayloadAccepted() returns (buf: seq<byte>)
    ensures Decode(buf).outcome.Done? && !DocumentedDump(buf)
    ensures |Decode(buf).records| == 1 && Decode(buf).records[0].header == Header(1, 8)
  {
    var c := Chunk(Header(1, 8), Zeros(8), []);
    OneChunk(c);
    UndocumentedHeader(c);
    buf := c.Bytes();
  }

  /** A reserved field may not be 1. */
  lemma ReservedFieldAccepted() returns (buf: seq<byte>)
    ensures Decode(buf).outcome.Done? && !DocumentedDump(buf)
    ensures |Decode(buf).records| == 1 && Decode(buf).records[0].header == Header(0, 0).(reserved0 := 1)
  {
    var c := Chunk(Header(0, 0).(reserved0 := 1), [], []);
    OneChunk(c);
    UndocumentedHeader(c);
    buf := c.Bytes();
  }

  lemma DirtyPadding(c: Chunk, k: nat)
    requires c.WellFormed() && k < |c.padding| && c.padding[k] != 0
    ensures !DocumentedDump(c.Bytes())
  {
    var buf, r := c.Bytes(), Record(0, c.header, c.payload);
    OneChunk(c);
    DocumentedIff(buf);
    var at := |buf| - |c.padding| + k;
    assert buf[at] == c.padding[k];
    assert Last([r]) == r;
    assert InPadding([r], at);
  }

  /** A documented header, and padding whose first byte is 1. */
  lemma DirtyPaddingAccepted() returns (buf: seq<byte>)
    ensures Decode(buf).outcome.Done? && !DocumentedDump(buf)
    ensures |Decode(buf).records| == 1 && DocumentedHeader(Decode(buf).records[0].header)
  {
    var c := Chunk(Header(0, 1), [0], [1] + Zeros(6));
    OneChunk(c);
    DirtyPadding(c, 0);
    buf := c.Bytes();
  }

  // ---------- records with unknown flags ----------

  /** Section 6: a consumer ignores a record with a flag it does not know, bits 2 to 7. */
  ghost predicate HasUnknownFlag(h: RecordHeader)
  {
    exists bit | 2 <= bit < 8 :: HasBit(h.flags, bit)
  }

  function Pow2(n: nat): nat
  {
    if n == 0 then 1 else 2 * Pow2(n - 1)
  }

  lemma BitBelow(f: nat, bit: nat, n: nat)
    requires bit < n && HasBit(f, bit)
    ensures exists b | 0 <= b < n :: HasBit(f, b)
  {
  }

  lemma {:induction false} SomeBit(f: nat, n: nat)
    requires f < Pow2(n)
    ensures f > 0 <==> exists bit | 0 <= bit < n :: HasBit(f, bit)
    decreases n
  {
    if n > 0 {
      SomeBit(f / 2, n - 1);
      if f % 2 == 1 {
        BitBelow(f, 0, n);
      } else if f > 0 {
        var bit :| 0 <= bit < n - 1 && HasBit(f / 2, bit);
        BitBelow(f, bit + 1, n);
      } else {
        forall bit | 0 <= bit < n
          ensures !HasBit(f, bit)
        {
          assert bit > 0 ==> !HasBit(f / 2, bit - 1);
        }
      }
    }
  }

  lemma UnknownFlagValue(h: RecordHeader)
    requires 0 <= h.flags < 256
    ensures HasUnknownFlag(h) <==> h.flags >= 4
  {
    var f := h.flags;
    assert Pow2(6) == 64;
    SomeBit(f / 4, 6);
    forall bit | 2 <= bit < 8
      ensures HasBit(f, bit) <==> HasBit(f / 4, bit - 2)
    {
      assert f / 2 / 2 == f / 4;
    }
    if f >= 4 {
      var b :| 0 <= b < 6 && HasBit(f / 4, b);
      assert HasBit(f, b + 2);
    }
    if HasUnknownFlag(h) {
      var bit :| 2 <= bit < 8 && HasBit(f, bit);
      assert HasBit(f / 4, bit - 2);
    }
  }

  /** What the document has a consumer use: neither wrap markers nor records with unknown flags. */
  ghost function DocumentedSelect(records: seq<Record>): seq<Record>
  {
    if records == [] then []
    else
      var rest, r := DocumentedSelect(Init(records)), Last(records);
      if r.IsWrapMarker() || HasUnknownFlag(r.header) then rest else rest + [r]
  }

  /** A flags byte for which the default pass yields a record to be ignored: even, and 4 or more. */
  predicate YieldedAgainstRule(flags: int)
  {
    flags % 2 == 0 && flags >= 4
  }

  lemma {:induction false} SelectsCompare(records: seq<Record>)
    requires forall i | 0 <= i < |records| :: 0 <= records[i].header.flags < 256
    ensures |DocumentedSelect(records)| <= |Select(records, false)|
    ensures DocumentedSelect(records) == Select(records, false) <==>
            forall i | 0 <= i < |records| :: !YieldedAgainstRule(records[i].header.flags)
  {
    if records != [] {
      var before, r := Init(records), Last(records);
      assert records == before + [r];
      assert forall i | 0 <= i < |before| :: before[i] == records[i];
      SelectsCompare(before);
      assert r == records[|before|];
      UnknownFlagValue(r.header);
      var x, y := DocumentedSelect(before), Select(before, false);
      if !r.IsWrapMarker() {
        if HasUnknownFlag(r.header) {
          assert YieldedAgainstRule(records[|before|].header.flags);
        } else {
          assert x + [r] == y + [r] ==> x == y by {
            assert x == (x + [r])[..|x|] && y == (y + [r])[..|y|];
          }
        }
      }
    }
  }

  /**
    * The default pass yields what the document asks for if and only if no record of the buffer has
    * a flags byte, its byte 19, that is even and 4 or more.
    */
  lemma DefaultPassKeepsRule(buf: seq<byte>)
    ensures var records := Decode(buf).records;
            && (forall i | 0 <= i < |records| :: records[i].offset + 19 < |buf|)
            && (Select(records, false) == DocumentedSelect(records) <==>
                forall i | 0 <= i < |records| :: !YieldedAgainstRule(buf[records[i].offset + 19]))
  {
    DecodedFlags(buf);
    SelectsCompare(Decode(buf).records);
  }

  lemma SelectsOfOne(r: Record)
    requires !r.IsWrapMarker() && 4 <= r.header.flags < 256
    ensures Select([r], false) == [r] && DocumentedSelect([r]) == []
  {
    UnknownFlagValue(r.header);
    assert Init([r]) == [] && Last([r]) == r;
  }

  /** One record with flag bit 2 set: the default pass yields it, the document has it ignored. */
  lemma UnknownFlagYielded() returns (buf: seq<byte>)
    ensures Decode(buf).outcome.Done? && !DocumentedDump(buf)
    ensures |Select(Decode(buf).records, false)| == 1 && DocumentedSelect(Decode(buf).records) == []
  {
    var c := Chunk(Header(4, 0), [], []);
    OneChunk(c);
    UndocumentedHeader(c);
    buf := c.Bytes();
    SelectsOfOne(Record(0, c.header, c.payload));
  }

  // ---------- generated dumps ----------

  lemma {:induction false} LoggedData(opts: Synth.SynthOptions, log: seq<Synth.Event>)
    requires forall k | 0 <= k < |DataHeaders(log)| :: Drawn(opts, DataHeaders(log)[k])
    ensures forall k | 0 <= k < |log| && log[k].IsData() :: Drawn(opts, log[k].header)
  {
    if log != [] {
      var before, e := Init(log), Last(log);
      assert log == before + [e];
      assert forall k | 0 <= k < |DataHeaders(before)| :: DataHeaders(before)[k] == DataHeaders(log)[k];
      LoggedData(opts, before);
      if e.IsData() {
        assert DataHeaders(log)[|DataHeaders(before)|] == e.header;
      }
    }
  }

  lemma {:induction false} LoggedChunks(log: seq<Synth.Event>)
    requires Synth.LogOk(log)
    requires forall k | 0 <= k < |log| && log[k].Emit? :: DocumentedHeader(log[k].header)
    ensures AllDocumented(Synth.Chunks(log))
  {
    if log != [] {
      var before, e := Init(log), Last(log);
      assert log == before + [e] && e == log[|before|];
      LoggedChunks(before);
      Synth.DumpSnoc(before, e);
    }
  }

  /** A payload bound of at most 4064 keeps every dump within the rules, whatever else is asked for. */
  lemma SmallBoundDocumented(opts: Synth.SynthOptions, tape: Synth.Tape)
    requires Synth.ValidTape(opts, tape) && opts.maxPayload <= MAX_DOCUMENTED_PAYLOAD
    ensures DocumentedDump(DumpOf(opts, tape))
  {
    var n, log := |tape.draws|, Synth.Final(opts, tape).log;
    EveryRunNumbered(opts, tape, n);
    EveryRunDrawn(opts, tape, n);
    EveryRunOrdered(opts, tape, n);
    LoggedData(opts, log);
    forall k | 0 <= k < |log| && log[k].Emit?
      ensures DocumentedHeader(log[k].header)
    {
      if log[k].IsData() {
        assert Drawn(opts, log[k].header);
      } else {
        assert log[k].IsMarker() && BareMarker(log[k].header, log[k].payload);
      }
    }
    LoggedChunks(log);
  }

  lemma {:induction false} DataAmongRecords(records: seq<Record>, h: RecordHeader)
    requires h in Data(records)
    ensures exists i :: 0 <= i < |records| && records[i].header == h
  {
    var before := Init(records);
    if h in Data(before) {
      DataAmongRecords(before, h);
      var i :| 0 <= i < |before| && before[i].header == h;
      assert records[i].header == h;
    } else {
      assert records[|records| - 1].header == h;
    }
  }

  /** For options under which every run finishes, every dump keeps the rules iff the payload bound does. */
  lemma GeneratorKeepsRules(opts: Synth.SynthOptions)
    requires Fits(opts) && opts.count > 0
    ensures (forall tape | Synth.ValidTape(opts, tape) :: DocumentedDump(DumpOf(opts, tape))) <==>
            opts.maxPayload <= MAX_DOCUMENTED_PAYLOAD
  {
    if opts.maxPayload <= MAX_DOCUMENTED_PAYLOAD {
      forall tape | Synth.ValidTape(opts, tape)
        ensures DocumentedDump(DumpOf(opts, tape))
      {
        SmallBoundDocumented(opts, tape);
      }
    } else {
      LargestPayloadWritten(opts);
      var tape := WorstTape(opts);
      assert !DocumentedDump(DumpOf(opts, tape));
    }
  }

  lemma LargestPayloadWritten(opts: Synth.SynthOptions)
    requires Fits(opts) && opts.count > 0 && opts.maxPayload > MAX_DOCUMENTED_PAYLOAD
    ensures !DocumentedDump(DumpOf(opts, WorstTape(opts)))
  {
    var tape := WorstTape(opts);
    var dump := DumpOf(opts, tape);
    var h := WorstPayload(opts);
    DumpDecodes(opts, tape);
    DocumentedIff(dump);
    DataAmongRecords(Decode(dump).records, h);
  }

  lemma WorstPayload(opts: Synth.SynthOptions) returns (h: RecordHeader)
    requires Fits(opts) && opts.count > 0
    ensures h in DataHeaders(Synth.Final(opts, WorstTape(opts)).log) && h.payloadLen == opts.maxPayload
  {
    FinishesIffFits(opts);
    WorstRun(opts, |WorstTape(opts).draws|);
    h := Last(DataHeaders(Synth.Final(opts, WorstTape(opts)).log));
  }
}
