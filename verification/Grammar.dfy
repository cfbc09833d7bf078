/**
  * The dump format as a grammar, independent of the decoder: a dump is a concatenation of chunks,
  * each a 32-byte header, its payload, and padding to the next 8-byte boundary. The lemmas relate
  * the decoder to it.
  */
module Grammar {
  import opened Basics
  import opened Format
  import opened Stream

  datatype Chunk = Chunk(header: RecordHeader, payload: seq<byte>, padding: seq<byte>)
  {
    ghost predicate WellFormed()
    {
      && header.InRange()
      && header.magic == HMB_RECORD_MAGIC
      && |payload| == header.payloadLen
      && |padding| == header.PaddedPayloadLen() - header.payloadLen
    }

    function Bytes(): (r: seq<byte>)
      requires header.InRange()
      ensures |r| == HMB_RECORD_HDR_SIZE + |payload| + |padding|
    {
      PackHeader(header) + payload + padding
    }
  }

  ghost predicate AllWellFormed(cs: seq<Chunk>)
  {
    forall i | 0 <= i < |cs| :: cs[i].WellFormed()
  }

  ghost function Flatten(cs: seq<Chunk>): seq<byte>
    requires AllWellFormed(cs)
  {
    if cs == [] then [] else Flatten(Init(cs)) + Last(cs).Bytes()
  }

  /** The records a dump of these chunks holds; a record's offset is the size of what precedes it. */
  ghost function Records(cs: seq<Chunk>): (r: seq<Record>)
    requires AllWellFormed(cs)
    ensures |r| == |cs|
  {
    if cs == [] then []
    else Records(Init(cs)) + [Record(|Flatten(Init(cs))|, Last(cs).header, Last(cs).payload)]
  }

  lemma Snoc(cs: seq<Chunk>, c: Chunk)
    requires AllWellFormed(cs) && c.WellFormed()
    ensures AllWellFormed(cs + [c])
    ensures Flatten(cs + [c]) == Flatten(cs) + c.Bytes()
    ensures Records(cs + [c]) == Records(cs) + [Record(|Flatten(cs)|, c.header, c.payload)]
  {
    assert Init(cs + [c]) == cs;
  }

  lemma ChunkSize(c: Chunk)
    requires c.WellFormed()
    ensures |c.Bytes()| == c.header.TotalSize()
  {
  }

  // ---------- chunks to records ----------

  lemma ReadChunk(pre: seq<byte>, c: Chunk, post: seq<byte>)
    requires c.WellFormed()
    ensures ReadRecord(pre + (c.Bytes() + post), |pre|) == Next(Record(|pre|, c.header, c.payload))
    ensures |c.Bytes()| == c.header.TotalSize()
  {
    var buf := pre + (c.Bytes() + post);
    var start := |pre| + HMB_RECORD_HDR_SIZE;
    UnpackPack(c.header);
    assert buf[|pre|..start] == PackHeader(c.header);
    assert buf[start..start + |c.payload|] == c.payload;
  }

  lemma {:induction false} ConsumedChunks(cs: seq<Chunk>, rest: seq<byte>)
    requires AllWellFormed(cs)
    ensures Consumed(Flatten(cs) + rest, |Flatten(cs)|, Records(cs))
    decreases |cs|
  {
    if cs != [] {
      var before, c := Init(cs), Last(cs);
      var pre := Flatten(before);
      ConsumedChunks(before, c.Bytes() + rest);
      ReadChunk(pre, c, rest);
      Assoc(pre, c.Bytes(), rest);
      ConsumeNext(Flatten(cs) + rest, |pre|, Records(before), Record(|pre|, c.header, c.payload));
    }
  }

  /** Decoding chunks followed by anything that does not start with a whole record. */
  lemma DecodeChunks(cs: seq<Chunk>, rest: seq<byte>, outcome: Outcome)
    requires AllWellFormed(cs)
    requires ReadRecord(Flatten(cs) + rest, |Flatten(cs)|) == Stop(outcome)
    ensures Decode(Flatten(cs) + rest) == Decoded(Records(cs), outcome)
  {
    ConsumedChunks(cs, rest);
    ConsumedStops(Flatten(cs) + rest, |Flatten(cs)|, Records(cs), outcome);
  }

  lemma DecodeFlatten(cs: seq<Chunk>)
    requires AllWellFormed(cs)
    ensures Decode(Flatten(cs)) == Decoded(Records(cs), Done)
  {
    assert Flatten(cs) + [] == Flatten(cs);
    DecodeChunks(cs, [], Done);
  }

  // ---------- records to chunks ----------

  /** From any point it reaches, a pass goes on until there is no whole record at the cursor. */
  lemma {:induction false} RunToEnd(buf: seq<byte>, off: nat, seen: seq<Record>)
    returns (end: nat, records: seq<Record>, outcome: Outcome)
    requires off <= |buf| && Consumed(buf, off, seen)
    ensures seen <= records
    ensures end <= |buf| && Consumed(buf, end, records)
    ensures ReadRecord(buf, end) == Stop(outcome)
    decreases |buf| - off
  {
    match ReadRecord(buf, off)
    case Next(r) =>
      var next := off + r.header.TotalSize();
      ConsumeNext(buf, off, seen, r);
      end, records, outcome := RunToEnd(buf, next, seen + [r]);
    case End =>
      end, records, outcome := off, seen, Done;
    case Fail(e) =>
      end, records, outcome := off, seen, e;
  }

  /** The whole pass over a buffer: where it ends, and what it has decoded by then. */
  lemma DecodeRun(buf: seq<byte>) returns (end: nat, records: seq<Record>, outcome: Outcome)
    ensures Decode(buf) == Decoded(records, outcome)
    ensures end <= |buf| && Consumed(buf, end, records)
    ensures ReadRecord(buf, end) == Stop(outcome)
    ensures end == SpanOf(records) && (outcome.Done? <==> end == |buf|)
  {
    end, records, outcome := RunToEnd(buf, 0, []);
    ConsumedStops(buf, end, records, outcome);
  }

  ghost function ChunkOf(buf: seq<byte>, r: Record): Chunk
    requires 0 <= r.header.payloadLen
    requires r.offset + HMB_RECORD_HDR_SIZE + r.header.payloadLen <= r.offset + r.header.TotalSize() <= |buf|
  {
    Chunk(r.header, r.payload,
          buf[r.offset + HMB_RECORD_HDR_SIZE + r.header.payloadLen..r.offset + r.header.TotalSize()])
  }

  /** What a record read at off says about the bytes there. */
  lemma RecordRead(buf: seq<byte>, off: nat)
    requires off <= |buf| && ReadRecord(buf, off).Next?
    ensures var r := ReadRecord(buf, off).record;
            var start := off + HMB_RECORD_HDR_SIZE;
            && r.offset == off
            && start <= off + r.header.TotalSize() <= |buf|
            && r.header == UnpackHeader(buf[off..start]) && r.header.InRange()
            && r.header.magic == HMB_RECORD_MAGIC
            && r.payload == buf[start..start + r.header.payloadLen]
  {
    PackUnpack(buf[off..off + HMB_RECORD_HDR_SIZE]);
  }

  lemma ChunkOfBytes(buf: seq<byte>, r: Record)
    requires r.offset + HMB_RECORD_HDR_SIZE <= r.offset + r.header.TotalSize() <= |buf|
    requires r.header == UnpackHeader(buf[r.offset..r.offset + HMB_RECORD_HDR_SIZE]) && r.header.InRange()
    requires r.header.magic == HMB_RECORD_MAGIC
    requires r.payload == buf[r.offset + HMB_RECORD_HDR_SIZE..r.offset + HMB_RECORD_HDR_SIZE + r.header.payloadLen]
    ensures ChunkOf(buf, r).WellFormed()
    ensures ChunkOf(buf, r).Bytes() == buf[r.offset..r.offset + r.header.TotalSize()]
  {
    var off := r.offset;
    var start := off + HMB_RECORD_HDR_SIZE;
    var mid, end := start + r.header.payloadLen, off + r.header.TotalSize();
    assert |buf[start..mid]| == r.header.payloadLen && |buf[mid..end]| == end - mid;
    assert ChunkOf(buf, r) == Chunk(r.header, buf[start..mid], buf[mid..end]);
    PackUnpack(buf[off..start]);
    Pieces(buf, off, start, mid, end);
  }

  lemma AddChunk(buf: seq<byte>, before: seq<Chunk>, off: nat, c: Chunk, end: nat)
    requires AllWellFormed(before) && c.WellFormed() && off <= end <= |buf|
    requires Flatten(before) == buf[..off] && c.Bytes() == buf[off..end]
    ensures AllWellFormed(before + [c])
    ensures Flatten(before + [c]) == buf[..end]
    ensures Records(before + [c]) == Records(before) + [Record(off, c.header, c.payload)]
  {
    Rejoin(buf, off, end);
    Snoc(before, c);
  }

  lemma ChunkOfRead(buf: seq<byte>, off: nat, r: Record)
    requires off <= |buf| && ReadRecord(buf, off) == Next(r)
    ensures r.offset == off && off + HMB_RECORD_HDR_SIZE <= off + r.header.TotalSize() <= |buf|
    ensures 0 <= r.header.payloadLen && ChunkOf(buf, r).WellFormed()
    ensures ChunkOf(buf, r).Bytes() == buf[off..off + r.header.TotalSize()]
  {
    RecordRead(buf, off);
    ChunkOfBytes(buf, r);
  }

  lemma AddRead(buf: seq<byte>, before: seq<Chunk>, off: nat, r: Record) returns (cs: seq<Chunk>)
    requires AllWellFormed(before) && off <= |buf| && Flatten(before) == buf[..off]
    requires ReadRecord(buf, off) == Next(r)
    ensures AllWellFormed(cs) && Flatten(cs) == buf[..off + r.header.TotalSize()]
    ensures Records(cs) == Records(before) + [r]
  {
    ChunkOfRead(buf, off, r);
    var c, end := ChunkOf(buf, r), off + r.header.TotalSize();
    AddChunk(buf, before, off, c, end);
    cs := before + [c];
  }

  /** The chunks the decoder went through, padding included. */
  lemma {:induction false} ChunksOfConsumed(buf: seq<byte>, off: nat, seen: seq<Record>) returns (cs: seq<Chunk>)
    requires off <= |buf| && Consumed(buf, off, seen)
    ensures AllWellFormed(cs) && Flatten(cs) == buf[..off] && Records(cs) == seen
    decreases |seen|
  {
    if seen == [] {
      cs := [];
    } else {
      InitLast(seen);
      var before := ChunksOfConsumed(buf, Last(seen).offset, Init(seen));
      cs := AddRead(buf, before, Last(seen).offset, Last(seen));
    }
  }

  /** Every buffer is a run of whole records and then nothing, or something that is not a record. */
  lemma Outline(buf: seq<byte>) returns (cs: seq<Chunk>)
    ensures AllWellFormed(cs) && Flatten(cs) <= buf
    ensures Decode(buf).records == Records(cs)
    ensures ReadRecord(buf, |Flatten(cs)|) == Stop(Decode(buf).outcome)
  {
    var end, records, outcome := DecodeRun(buf);
    cs := ChunksOfConsumed(buf, end, records);
  }

  lemma WholeOutline(buf: seq<byte>) returns (cs: seq<Chunk>)
    requires Decode(buf).outcome.Done?
    ensures AllWellFormed(cs) && Flatten(cs) == buf && Decode(buf).records == Records(cs)
  {
    cs := Outline(buf);
  }

  // ---------- the grammar theorems ----------

  /** The loop ends without an error exactly on concatenations of well-formed chunks. */
  lemma AcceptanceIsGrammar(buf: seq<byte>)
    ensures Decode(buf).outcome.Done? <==> exists cs :: AllWellFormed(cs) && buf == Flatten(cs)
  {
    if Decode(buf).outcome.Done? {
      var cs := WholeOutline(buf);
    }
    forall cs | AllWellFormed(cs) && buf == Flatten(cs)
      ensures Decode(buf).outcome.Done?
    {
      DecodeFlatten(cs);
    }
  }

  /** What was decoded before an error is the longest run of whole records the buffer starts with. */
  lemma LongestWholePrefix(buf: seq<byte>) returns (cs: seq<Chunk>)
    ensures AllWellFormed(cs) && Flatten(cs) <= buf && Decode(buf).records == Records(cs)
    ensures forall cs' | AllWellFormed(cs') && Flatten(cs') <= buf ::
              |cs'| <= |cs| && Records(cs') <= Records(cs)
  {
    cs := Outline(buf);
    forall cs' | AllWellFormed(cs') && Flatten(cs') <= buf
      ensures |cs'| <= |cs| && Records(cs') <= Records(cs)
    {
      DecodedFirst(buf, cs', Flatten(cs'));
    }
  }

  lemma DecodedFirst(buf: seq<byte>, cs: seq<Chunk>, whole: seq<byte>)
    requires AllWellFormed(cs) && whole == Flatten(cs) && whole <= buf
    ensures Records(cs) <= Decode(buf).records
  {
    var rest := buf[|whole|..];
    assert whole + rest == buf;
    ConsumedChunks(cs, rest);
    var end, records, outcome := RunToEnd(buf, |whole|, Records(cs));
    ConsumedStops(buf, end, records, outcome);
  }

  /** The bytes behind the whole records, from offset o on, are the reason for this end. */
  ghost predicate Explains(rest: seq<byte>, o: nat, outcome: Outcome)
  {
    match outcome
    case Done => rest == []
    case TruncatedHeader(off, got) => off == o && got == |rest| && 0 < got < HMB_RECORD_HDR_SIZE
    case BadMagic(magic) => |rest| >= HMB_RECORD_HDR_SIZE && magic == FromLittleEndian(rest[..4]) != HMB_RECORD_MAGIC
    case TruncatedPayload(off, got, expected) =>
      && off == o + HMB_RECORD_HDR_SIZE && got == |rest| - HMB_RECORD_HDR_SIZE && 0 <= got < expected
      && FromLittleEndian(rest[..4]) == HMB_RECORD_MAGIC
      && expected == UnpackHeader(rest[..HMB_RECORD_HDR_SIZE]).PaddedPayloadLen()
  }

  /**
    * How a pass ends is decided by the bytes behind the whole records: nothing, part of a header, a
    * header with another magic, or a header whose padded payload is not all there.
    */
  lemma StopExplained(buf: seq<byte>)
    ensures var d := Decode(buf);
            var o := SpanOf(d.records);
            0 <= o <= |buf| && Explains(buf[o..], o, d.outcome)
  {
    var end, records, outcome := DecodeRun(buf);
    ExplainStop(buf, end, outcome);
  }

  lemma ExplainStop(buf: seq<byte>, end: nat, outcome: Outcome)
    requires end <= |buf| && ReadRecord(buf, end) == Stop(outcome)
    ensures Explains(buf[end..], end, outcome)
  {
    if end + HMB_RECORD_HDR_SIZE <= |buf| {
      HeaderBehind(buf, end);
    }
  }

  lemma HeaderBehind(buf: seq<byte>, end: nat)
    requires end + HMB_RECORD_HDR_SIZE <= |buf|
    ensures buf[end..][..HMB_RECORD_HDR_SIZE] == buf[end..end + HMB_RECORD_HDR_SIZE]
    ensures UnpackHeader(buf[end..end + HMB_RECORD_HDR_SIZE]).magic == FromLittleEndian(buf[end..][..4])
  {
    var hdr := buf[end..end + HMB_RECORD_HDR_SIZE];
    assert buf[end..][..4] == hdr[..4];
    MagicFirst(hdr);
  }

  lemma MagicFirst(hdr: seq<byte>)
    requires |hdr| == HMB_RECORD_HDR_SIZE
    ensures UnpackHeader(hdr).magic == FromLittleEndian(hdr[..4])
  {
  }

  lemma {:induction false} PrefixWellFormed(cs: seq<Chunk>, j: nat)
    requires j <= |cs| && AllWellFormed(cs)
    ensures AllWellFormed(cs[..j]) && AllWellFormed(cs[j..])
    ensures Flatten(cs[..j]) <= Flatten(cs)
    decreases |cs|
  {
    if j == |cs| {
      assert cs[..j] == cs;
    } else {
      PrefixWellFormed(Init(cs), j);
      assert Init(cs)[..j] == cs[..j];
    }
  }

  /** Where a cut at byte k falls: j whole chunks lie before it. */
  lemma {:induction false} LocateCut(cs: seq<Chunk>, k: nat) returns (j: nat)
    requires AllWellFormed(cs) && k <= |Flatten(cs)|
    ensures j <= |cs| && AllWellFormed(cs[..j]) && |Flatten(cs[..j])| <= k
    ensures k != |Flatten(cs[..j])| ==>
              && j < |cs| && AllWellFormed(cs[..j + 1])
              && k < |Flatten(cs[..j + 1])| == |Flatten(cs[..j])| + cs[j].header.TotalSize()
    decreases |cs|
  {
    if k == |Flatten(cs)| {
      j := |cs|;
      assert cs[..j] == cs;
    } else if k < |Flatten(Init(cs))| {
      j := LocateCut(Init(cs), k);
      PrefixOfInit(cs, j);
      NextOfInit(cs, j);
    } else {
      j := |cs| - 1;
      CutLast(cs);
    }
  }

  lemma NextOfInit<T>(xs: seq<T>, j: nat)
    requires j < |xs|
    ensures j + 1 < |xs| ==> Init(xs)[..j + 1] == xs[..j + 1] && Init(xs)[j] == xs[j]
  {
  }

  lemma PrefixOfInit<T>(xs: seq<T>, j: nat)
    requires j < |xs|
    ensures Init(xs)[..j] == xs[..j]
  {
  }

  lemma CutLast(cs: seq<Chunk>)
    requires AllWellFormed(cs) && cs != []
    ensures cs[..|cs| - 1] == Init(cs) && cs[..|cs|] == cs
    ensures |Flatten(cs)| == |Flatten(Init(cs))| + Last(cs).header.TotalSize()
  {
    ChunkSize(Last(cs));
  }

  ghost predicate IsBoundary(cs: seq<Chunk>, k: nat)
    requires AllWellFormed(cs)
  {
    exists j: nat | j <= |cs| :: AllWellFormed(cs[..j]) && k == |Flatten(cs[..j])|
  }

  /** How a pass over a valid dump cut at byte k ends, when the cut chunk starts at start. */
  function CutOutcome(start: nat, h: RecordHeader, k: nat): Outcome
    requires start <= k && 0 <= h.payloadLen
  {
    if k == start then Done
    else if k - start < HMB_RECORD_HDR_SIZE then TruncatedHeader(start, k - start)
    else TruncatedPayload(start + HMB_RECORD_HDR_SIZE, k - start - HMB_RECORD_HDR_SIZE, h.PaddedPayloadLen())
  }

  lemma ReadCutChunk(pre: seq<byte>, c: Chunk, n: nat)
    requires c.WellFormed() && 0 < n < c.header.TotalSize()
    ensures |c.Bytes()| == c.header.TotalSize()
    ensures ReadRecord(pre + c.Bytes()[..n], |pre|) == Stop(CutOutcome(|pre|, c.header, |pre| + n))
  {
    ChunkSize(c);
    if n >= HMB_RECORD_HDR_SIZE {
      UnpackPack(c.header);
      HeaderInFront(pre, c, n);
    }
  }

  lemma HeaderInFront(pre: seq<byte>, c: Chunk, n: nat)
    requires c.WellFormed() && HMB_RECORD_HDR_SIZE <= n <= |c.Bytes()|
    ensures (pre + c.Bytes()[..n])[|pre|..|pre| + HMB_RECORD_HDR_SIZE] == PackHeader(c.header)
  {
    var body := c.Bytes()[..n];
    assert (pre + body)[|pre|..|pre| + HMB_RECORD_HDR_SIZE] == body[..HMB_RECORD_HDR_SIZE];
    assert body[..HMB_RECORD_HDR_SIZE] == c.Bytes()[..HMB_RECORD_HDR_SIZE] == PackHeader(c.header);
  }

  /** Cutting a dump at byte k: the j records wholly before k, and the error that the cut record gives. */
  lemma TruncationExactness(cs: seq<Chunk>, k: nat) returns (j: nat)
    requires AllWellFormed(cs) && k <= |Flatten(cs)|
    ensures j <= |cs| && AllWellFormed(cs[..j])
    ensures var start := |Flatten(cs[..j])|;
            && start <= k
            && (k != start ==> j < |cs| && k < start + cs[j].header.TotalSize())
            && Decode(Flatten(cs)[..k]) ==
               Decoded(Records(cs[..j]), if k == start then Done else CutOutcome(start, cs[j].header, k))
    ensures Decode(Flatten(cs)[..k]).outcome.Done? <==> IsBoundary(cs, k)
  {
    j := LocateCut(cs, k);
    if k == |Flatten(cs[..j])| {
      CutBetween(cs, j);
    } else {
      CutInside(cs, j, k, Flatten(cs), Flatten(cs[..j]));
    }
    BoundaryCutsCleanly(cs, k);
  }

  lemma CutBetween(cs: seq<Chunk>, j: nat)
    requires AllWellFormed(cs) && j <= |cs| && AllWellFormed(cs[..j])
    ensures |Flatten(cs[..j])| <= |Flatten(cs)|
    ensures Decode(Flatten(cs)[..|Flatten(cs[..j])|]) == Decoded(Records(cs[..j]), Done)
  {
    PrefixWellFormed(cs, j);
    assert Flatten(cs)[..|Flatten(cs[..j])|] == Flatten(cs[..j]);
    DecodeFlatten(cs[..j]);
  }

  lemma {:induction false} FlattenNext(cs: seq<Chunk>, j: nat)
    requires AllWellFormed(cs) && j < |cs| && AllWellFormed(cs[..j])
    ensures Flatten(cs[..j]) + cs[j].Bytes() <= Flatten(cs)
  {
    PrefixWellFormed(cs, j + 1);
    assert Init(cs[..j + 1]) == cs[..j];
  }

  lemma CutPiece<T>(pre: seq<T>, piece: seq<T>, whole: seq<T>, k: nat)
    requires pre + piece <= whole && |pre| <= k <= |pre| + |piece|
    ensures whole[..k] == pre + piece[..k - |pre|]
  {
  }

  lemma {:induction false} CutInside(cs: seq<Chunk>, j: nat, k: nat, whole: seq<byte>, pre: seq<byte>)
    requires AllWellFormed(cs) && j < |cs| && AllWellFormed(cs[..j])
    requires whole == Flatten(cs) && pre == Flatten(cs[..j])
    requires |pre| < k < |pre| + cs[j].header.TotalSize()
    ensures k <= |whole|
    ensures Decode(whole[..k]) == Decoded(Records(cs[..j]), CutOutcome(|pre|, cs[j].header, k))
  {
    var before, c := cs[..j], cs[j];
    FlattenNext(cs, j);
    CutAfter(before, pre, c, k - |pre|, CutOutcome(|pre|, c.header, k));
    CutPiece(pre, c.Bytes(), whole, k);
  }

  lemma CutAfter(before: seq<Chunk>, pre: seq<byte>, c: Chunk, n: nat, outcome: Outcome)
    requires AllWellFormed(before) && pre == Flatten(before)
    requires c.WellFormed() && 0 < n < c.header.TotalSize()
    requires outcome == CutOutcome(|pre|, c.header, |pre| + n)
    ensures n <= |c.Bytes()|
    ensures Decode(pre + c.Bytes()[..n]) == Decoded(Records(before), outcome)
  {
    ReadCutChunk(pre, c, n);
    DecodeChunks(before, c.Bytes()[..n], outcome);
  }

  lemma BoundaryCutsCleanly(cs: seq<Chunk>, k: nat)
    requires AllWellFormed(cs) && k <= |Flatten(cs)|
    ensures IsBoundary(cs, k) ==> Decode(Flatten(cs)[..k]).outcome.Done?
  {
    if IsBoundary(cs, k) {
      var j: nat :| j <= |cs| && AllWellFormed(cs[..j]) && k == |Flatten(cs[..j])|;
      CutBetween(cs, j);
    }
  }

  // ---------- concatenation ----------

  function Shift(records: seq<Record>, n: nat): (r: seq<Record>)
    ensures |r| == |records|
  {
    if records == [] then []
    else Shift(Init(records), n) + [Last(records).(offset := Last(records).offset + n)]
  }

  lemma ShiftSnoc(records: seq<Record>, r: Record, n: nat)
    ensures Shift(records + [r], n) == Shift(records, n) + [r.(offset := r.offset + n)]
  {
    assert Init(records + [r]) == records;
  }

  function ShiftOutcome(outcome: Outcome, n: nat): Outcome
  {
    match outcome
    case Done => Done
    case TruncatedHeader(o, got) => TruncatedHeader(o + n, got)
    case BadMagic(m) => BadMagic(m)
    case TruncatedPayload(o, got, expected) => TruncatedPayload(o + n, got, expected)
  }

  function ShiftStep(step: Step, n: nat): Step
  {
    match step
    case End => End
    case Fail(e) => Fail(ShiftOutcome(e, n))
    case Next(r) => Next(r.(offset := r.offset + n))
  }

  lemma ReadShifted(a: seq<byte>, b: seq<byte>, o: nat)
    requires o <= |b|
    ensures ReadRecord(a + b, |a| + o) == ShiftStep(ReadRecord(b, o), |a|)
  {
    var start := o + HMB_RECORD_HDR_SIZE;
    if start <= |b| {
      assert (a + b)[|a| + o..|a| + start] == b[o..start];
      if ReadRecord(b, o).Next? {
        var n := ReadRecord(b, o).record.header.payloadLen;
        assert (a + b)[|a| + start..|a| + start + n] == b[start..start + n];
      }
    }
  }

  lemma StopShifted(a: seq<byte>, b: seq<byte>, o: nat, outcome: Outcome, end: nat, shifted: Outcome)
    requires o <= |b| && ReadRecord(b, o) == Stop(outcome)
    requires end == |a| + o && shifted == ShiftOutcome(outcome, |a|)
    ensures ReadRecord(a + b, end) == Stop(shifted)
  {
    ReadShifted(a, b, o);
    assert ShiftStep(Stop(outcome), |a|) == Stop(ShiftOutcome(outcome, |a|));
  }

  lemma WellFormedAppend(cs: seq<Chunk>, cs': seq<Chunk>)
    requires AllWellFormed(cs) && AllWellFormed(cs')
    ensures AllWellFormed(cs + cs')
  {
  }

  lemma {:induction false} FlattenAppend(cs: seq<Chunk>, cs': seq<Chunk>)
    requires AllWellFormed(cs) && AllWellFormed(cs') && AllWellFormed(cs + cs')
    ensures Flatten(cs + cs') == Flatten(cs) + Flatten(cs')
    decreases |cs'|
  {
    if cs' == [] {
      assert cs + cs' == cs;
    } else {
      WellFormedAppend(cs, Init(cs'));
      FlattenAppend(cs, Init(cs'));
      AppendInit(cs, cs');
      var pre, mid, piece := Flatten(cs), Flatten(Init(cs')), Last(cs').Bytes();
      Assoc(pre, mid, piece);
    }
  }

  lemma {:induction false} RecordsLast(cs: seq<Chunk>, r: Record)
    requires AllWellFormed(cs) && cs != []
    requires r == Record(|Flatten(Init(cs))|, Last(cs).header, Last(cs).payload)
    ensures Records(cs) == Records(Init(cs)) + [r]
  {
  }

  lemma {:induction false} LastShifted(cs: seq<Chunk>, offset: nat, n: nat, e: Record,
                                       before: seq<Record>, more: seq<Record>)
    requires AllWellFormed(cs) && cs != [] && offset == |Flatten(Init(cs))|
    requires e == Record(offset + n, Last(cs).header, Last(cs).payload)
    requires before == Shift(Records(Init(cs)), n) && more == Shift(Records(cs), n)
    ensures more == before + [e]
  {
    var r := Record(offset, Last(cs).header, Last(cs).payload);
    var records := Records(Init(cs));
    RecordsLast(cs, r);
    ShiftSnoc(records, r, n);
  }

  lemma LastAppended(cs: seq<Chunk>, cs': seq<Chunk>, e: Record, before: seq<Record>, more: seq<Record>)
    requires AllWellFormed(cs) && cs' != [] && AllWellFormed(cs + Init(cs')) && AllWellFormed(cs + cs')
    requires e == Record(|Flatten(cs + Init(cs'))|, Last(cs').header, Last(cs').payload)
    requires Records(cs + Init(cs')) == Records(cs) + before && more == before + [e]
    ensures Records(cs + cs') == Records(cs) + more
  {
    AppendInit(cs, cs');
    var first := Records(cs);
    Assoc(first, before, [e]);
  }

  lemma {:induction false} RecordsAppendStep(cs: seq<Chunk>, cs': seq<Chunk>, n: nat, offset: nat)
    requires AllWellFormed(cs) && AllWellFormed(cs') && cs' != []
    requires AllWellFormed(cs + Init(cs')) && AllWellFormed(cs + cs')
    requires offset == |Flatten(Init(cs'))| && offset + n == |Flatten(cs + Init(cs'))|
    requires Records(cs + Init(cs')) == Records(cs) + Shift(Records(Init(cs')), n)
    ensures Records(cs + cs') == Records(cs) + Shift(Records(cs'), n)
  {
    var before, more := Shift(Records(Init(cs')), n), Shift(Records(cs'), n);
    var e := Record(offset + n, Last(cs').header, Last(cs').payload);
    LastShifted(cs', offset, n, e, before, more);
    LastAppended(cs, cs', e, before, more);
  }

  lemma {:induction false} RecordsAppend(cs: seq<Chunk>, cs': seq<Chunk>, n: nat)
    requires AllWellFormed(cs) && AllWellFormed(cs') && AllWellFormed(cs + cs') && n == |Flatten(cs)|
    ensures Records(cs + cs') == Records(cs) + Shift(Records(cs'), n)
    decreases |cs'|
  {
    if cs' == [] {
      assert cs + cs' == cs;
    } else {
      WellFormedAppend(cs, Init(cs'));
      FlattenAppend(cs, Init(cs'));
      RecordsAppend(cs, Init(cs'), n);
      RecordsAppendStep(cs, cs', n, |Flatten(Init(cs'))|);
    }
  }

  lemma {:induction false} DecodeAt(buf: seq<byte>, cs: seq<Chunk>, whole: seq<byte>, end: nat, outcome: Outcome)
    requires AllWellFormed(cs) && whole == Flatten(cs) && whole <= buf && end == |whole|
    requires ReadRecord(buf, end) == Stop(outcome)
    ensures Decode(buf) == Decoded(Records(cs), outcome)
  {
    var rest := buf[end..];
    assert whole + rest == buf;
    DecodeChunks(cs, rest, outcome);
  }

  /** Whole records up to the end of front, and there nothing or something that is not a record. */
  lemma {:induction false} DecodeJoined(a: seq<byte>, b: seq<byte>, front: seq<byte>, cs: seq<Chunk>, outcome: Outcome)
    requires front <= b && AllWellFormed(cs) && Flatten(cs) == a + front
    requires ReadRecord(b, |front|) == Stop(outcome)
    ensures Decode(a + b) == Decoded(Records(cs), ShiftOutcome(outcome, |a|))
  {
    var shifted := ShiftOutcome(outcome, |a|);
    StopShifted(a, b, |front|, outcome, |a| + |front|, shifted);
    DecodeAt(a + b, cs, a + front, |a| + |front|, shifted);
  }

  lemma DecodeAfter(a: seq<byte>, cs: seq<Chunk>, b: seq<byte>, cs': seq<Chunk>, outcome: Outcome)
    requires AllWellFormed(cs) && Flatten(cs) == a
    requires AllWellFormed(cs') && Flatten(cs') <= b && ReadRecord(b, |Flatten(cs')|) == Stop(outcome)
    ensures Decode(a + b) == Decoded(Records(cs) + Shift(Records(cs'), |a|), ShiftOutcome(outcome, |a|))
  {
    var all := cs + cs';
    WellFormedAppend(cs, cs');
    FlattenAppend(cs, cs');
    RecordsAppend(cs, cs', |a|);
    DecodeJoined(a, b, Flatten(cs'), all, outcome);
  }

  /** Decoding is a homomorphism from accepted prefixes, up to the shift of offsets. */
  lemma DecodeConcat(a: seq<byte>, b: seq<byte>)
    requires Decode(a).outcome.Done?
    ensures Decode(a + b) ==
            Decoded(Decode(a).records + Shift(Decode(b).records, |a|), ShiftOutcome(Decode(b).outcome, |a|))
  {
    var cs := WholeOutline(a);
    var cs' := Outline(b);
    DecodeAfter(a, cs, b, cs', Decode(b).outcome);
  }

  lemma {:induction false} SelectShift(records: seq<Record>, n: nat, includeWrapMarkers: bool)
    ensures Select(Shift(records, n), includeWrapMarkers) == Shift(Select(records, includeWrapMarkers), n)
    decreases |records|
  {
    if records != [] {
      var before, r := Init(records), Last(records);
      assert records == before + [r];
      SelectShift(before, n, includeWrapMarkers);
      ShiftSnoc(before, r, n);
      SelectSnoc(Shift(before, n), r.(offset := r.offset + n), includeWrapMarkers);
      ShiftSnoc(Select(before, includeWrapMarkers), r, n);
    }
  }

  /** The default and the markers-included pass commute with splitting a stream between records. */
  lemma SelectedConcat(a: seq<byte>, b: seq<byte>, includeWrapMarkers: bool)
    requires Decode(a).outcome.Done?
    ensures Select(Decode(a + b).records, includeWrapMarkers) ==
            Select(Decode(a).records, includeWrapMarkers) +
            Shift(Select(Decode(b).records, includeWrapMarkers), |a|)
  {
    DecodeConcat(a, b);
    SelectAppend(Decode(a).records, Shift(Decode(b).records, |a|), includeWrapMarkers);
    SelectShift(Decode(b).records, |a|, includeWrapMarkers);
  }

  // ---------- tiling ----------

  /** Each record starts where the ones before it end: no gap, no overlap. */
  ghost predicate Tiles(records: seq<Record>)
  {
    forall i | 0 <= i < |records| :: records[i].offset == SpanOf(records[..i])
  }

  lemma {:induction false} ConsumedTiles(buf: seq<byte>, off: nat, seen: seq<Record>)
    requires Consumed(buf, off, seen)
    ensures Tiles(seen)
    decreases |seen|
  {
    if seen != [] {
      var before := Init(seen);
      ConsumedTiles(buf, Last(seen).offset, before);
      ConsumedSpan(buf, Last(seen).offset, before);
      forall i | 0 <= i < |seen|
        ensures seen[i].offset == SpanOf(seen[..i])
      {
        if i < |before| {
          assert seen[..i] == before[..i];
        }
      }
    }
  }

  lemma {:induction false} SpanAligned(records: seq<Record>)
    ensures SpanOf(records) % HMB_RECORD_ALIGN == 0
  {
    if records != [] {
      SpanAligned(Init(records));
    }
  }

  /** The records of any pass tile the input on 8-byte boundaries; a clean pass covers all of it. */
  lemma DecodeTiles(buf: seq<byte>)
    ensures var d := Decode(buf);
            && Tiles(d.records)
            && (forall i | 0 <= i < |d.records| :: d.records[i].offset % HMB_RECORD_ALIGN == 0)
            && SpanOf(d.records) <= |buf|
            && (d.outcome.Done? <==> SpanOf(d.records) == |buf|)
  {
    var end, records, outcome := DecodeRun(buf);
    ConsumedTiles(buf, end, records);
    forall i | 0 <= i < |records|
      ensures records[i].offset % HMB_RECORD_ALIGN == 0
    {
      SpanAligned(records[..i]);
    }
  }

  // ---------- what a record says about the bytes it came from ----------

  /** r is what the bytes of buf at its offset hold. */
  ghost predicate HeldAt(buf: seq<byte>, r: Record)
  {
    var start := r.offset + HMB_RECORD_HDR_SIZE;
    && 0 <= r.header.payloadLen && start + r.header.payloadLen <= |buf|
    && r.header == UnpackHeader(buf[r.offset..start]) && r.header.magic == HMB_RECORD_MAGIC
    && r.payload == buf[start..start + r.header.payloadLen]
  }

  lemma {:induction false} ConsumedHeaders(buf: seq<byte>, off: nat, seen: seq<Record>)
    requires Consumed(buf, off, seen)
    ensures forall i | 0 <= i < |seen| :: HeldAt(buf, seen[i])
    decreases |seen|
  {
    if seen != [] {
      ConsumedHeaders(buf, Last(seen).offset, Init(seen));
      RecordRead(buf, Last(seen).offset);
      InitLast(seen);
    }
  }

  /**
    * What the bytes of the input have to do with r: the letters RECT at its offset, its header
    * there, and behind the header as many bytes of payload as bytes 20 and 21 say.
    */
  ghost predicate BytesOf(buf: seq<byte>, r: Record)
  {
    var o, v: seq<int> := r.offset, buf;
    && o + 32 <= |v| && v[o..o + 4] == [0x52, 0x45, 0x43, 0x54] && r.header == UnpackHeader(buf[o..o + 32])
    && |r.payload| == v[o + 20] + 0x100 * v[o + 21]
    && o + 32 + |r.payload| <= |v| && r.payload == buf[o + 32..o + 32 + |r.payload|]
  }

  lemma HeldBytes(buf: seq<byte>, r: Record)
    requires HeldAt(buf, r)
    ensures BytesOf(buf, r)
  {
    var hdr := buf[r.offset..r.offset + HMB_RECORD_HDR_SIZE];
    UnpackedFields(hdr);
    MagicBytesOnly(hdr[0], hdr[1], hdr[2], hdr[3]);
  }

  lemma MagicBytesOnly(a: byte, b: byte, c: byte, d: byte)
    requires var w: seq<int> := [a, b, c, d];
             w[0] + 0x100 * w[1] + 0x1_0000 * w[2] + 0x100_0000 * w[3] == 0x54434552
    ensures a == 0x52 && b == 0x45 && c == 0x43 && d == 0x54
  {
  }

  /** Every record decoded is what the bytes of the input say. */
  lemma {:induction false} DecodedBytes(buf: seq<byte>) returns (records: seq<Record>)
    ensures records == Decode(buf).records
    ensures forall i | 0 <= i < |records| :: BytesOf(buf, records[i])
  {
    var end, outcome;
    end, records, outcome := DecodeRun(buf);
    ConsumedHeaders(buf, end, records);
    forall i | 0 <= i < |records|
      ensures BytesOf(buf, records[i])
    {
      HeldBytes(buf, records[i]);
    }
  }

  lemma FlagsAt(buf: seq<byte>, o: nat)
    requires o + HMB_RECORD_HDR_SIZE <= |buf|
    ensures UnpackHeader(buf[o..o + HMB_RECORD_HDR_SIZE]).flags == buf[o + 19]
  {
    UnpackedFields(buf[o..o + HMB_RECORD_HDR_SIZE]);
  }

  /** Byte 19 of every record decoded is its flags field; it marks a wrap marker when it is odd. */
  lemma DecodedFlags(buf: seq<byte>)
    ensures var records := Decode(buf).records;
            forall i | 0 <= i < |records| ::
              && records[i].offset + 19 < |buf|
              && records[i].header.flags == buf[records[i].offset + 19]
              && (records[i].IsWrapMarker() <==> buf[records[i].offset + 19] % 2 == 1)
  {
    var end, records, outcome := DecodeRun(buf);
    ConsumedHeaders(buf, end, records);
    forall i | 0 <= i < |records|
      ensures records[i].offset + 19 < |buf|
      ensures records[i].header.flags == buf[records[i].offset + 19]
    {
      FlagsAt(buf, records[i].offset);
    }
  }

  // ---------- the grammar is unambiguous ----------

  /** A buffer is the concatenation of at most one list of chunks, padding included. */
  lemma {:induction false} Unambiguous(cs: seq<Chunk>, cs': seq<Chunk>)
    requires AllWellFormed(cs) && AllWellFormed(cs') && Flatten(cs) == Flatten(cs')
    ensures cs == cs'
    decreases |cs|
  {
    SameRecords(cs, cs');
    if cs != [] {
      SameLast(cs, cs');
      Unambiguous(Init(cs), Init(cs'));
      InitLast(cs);
      InitLast(cs');
    }
  }

  lemma SameRecords(cs: seq<Chunk>, cs': seq<Chunk>)
    requires AllWellFormed(cs) && AllWellFormed(cs') && Flatten(cs) == Flatten(cs')
    ensures Records(cs) == Records(cs') && |cs| == |cs'|
  {
    DecodeFlatten(cs);
    DecodeFlatten(cs');
  }

  lemma SameLast(cs: seq<Chunk>, cs': seq<Chunk>)
    requires AllWellFormed(cs) && AllWellFormed(cs') && cs != [] && cs' != []
    requires Flatten(cs) == Flatten(cs') && Records(cs) == Records(cs')
    ensures Last(cs) == Last(cs') && Flatten(Init(cs)) == Flatten(Init(cs'))
  {
    var c, c' := Last(cs), Last(cs');
    assert Last(Records(cs)) == Record(|Flatten(Init(cs))|, c.header, c.payload);
    assert Last(Records(cs')) == Record(|Flatten(Init(cs'))|, c'.header, c'.payload);
    SplitEqual(Flatten(Init(cs)), c.Bytes(), Flatten(Init(cs')), c'.Bytes());
    SplitEqual(PackHeader(c.header) + c.payload, c.padding, PackHeader(c'.header) + c'.payload, c'.padding);
  }
}
