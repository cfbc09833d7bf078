/** The streaming decoder: a loop over a file cursor, and the function it computes. */
module Stream {
  import opened Basics
  import opened Format

  datatype Record = Record(offset: nat, header: RecordHeader, payload: seq<byte>)
  {
    predicate IsWrapMarker() { header.IsWrapMarker() }
  }

  /** How a pass over a dump ends: at the end of the file, or by one of the three errors. */
  datatype Outcome =
    | Done
    | TruncatedHeader(offset: nat, got: nat)
    | BadMagic(magic: int)
    | TruncatedPayload(offset: nat, got: nat, expected: nat)

  // ---------- the functional decoder ----------

  datatype Step = End | Fail(outcome: Outcome) | Next(record: Record)

  /** What the bytes of buf at offset off hold. */
  function ReadRecord(buf: seq<byte>, off: nat): (r: Step)
    requires off <= |buf|
    ensures r.Next? ==> off + HMB_RECORD_HDR_SIZE <= off + r.record.header.TotalSize() <= |buf|
  {
    var avail := |buf| - off;
    if avail == 0 then End
    else if avail < HMB_RECORD_HDR_SIZE then Fail(TruncatedHeader(off, avail))
    else
      var start := off + HMB_RECORD_HDR_SIZE;
      var h := UnpackHeader(buf[off..start]);
      if h.magic != HMB_RECORD_MAGIC then Fail(BadMagic(h.magic))
      else if |buf| - start < h.PaddedPayloadLen() then
        Fail(TruncatedPayload(start, |buf| - start, h.PaddedPayloadLen()))
      else Next(Record(off, h, buf[start..start + h.payloadLen]))
  }

  function Stop(outcome: Outcome): Step
  {
    if outcome.Done? then End else Fail(outcome)
  }

  datatype Decoded = Decoded(records: seq<Record>, outcome: Outcome)

  /** The records in seen, then every record of buf from off on, up to the end or the first error. */
  function DecodeFrom(buf: seq<byte>, off: nat, seen: seq<Record>): Decoded
    requires off <= |buf|
    decreases |buf| - off
  {
    match ReadRecord(buf, off)
    case End => Decoded(seen, Done)
    case Fail(e) => Decoded(seen, e)
    case Next(r) => DecodeFrom(buf, off + r.header.TotalSize(), seen + [r])
  }

  /** Every record of buf, wrap markers included, and how the pass ends. */
  function Decode(buf: seq<byte>): Decoded
  {
    DecodeFrom(buf, 0, [])
  }

  /** Bytes the records take up in the file. */
  function SpanOf(records: seq<Record>): int
  {
    if records == [] then 0 else SpanOf(Init(records)) + Last(records).header.TotalSize()
  }

  /** The records a caller gets: wrap markers only when asked for. */
  function Select(records: seq<Record>, includeWrapMarkers: bool): seq<Record>
  {
    if records == [] then []
    else
      var rest := Select(Init(records), includeWrapMarkers);
      if Last(records).IsWrapMarker() && !includeWrapMarkers then rest else rest + [Last(records)]
  }

  lemma {:induction false} SelectAppend(a: seq<Record>, b: seq<Record>, includeWrapMarkers: bool)
    ensures Select(a + b, includeWrapMarkers) == Select(a, includeWrapMarkers) + Select(b, includeWrapMarkers)
  {
    if b == [] {
      assert a + b == a;
    } else {
      assert Init(a + b) == a + Init(b);
      SelectAppend(a, Init(b), includeWrapMarkers);
    }
  }

  lemma SelectSnoc(seen: seq<Record>, record: Record, includeWrapMarkers: bool)
    ensures Select(seen + [record], includeWrapMarkers) ==
            Select(seen, includeWrapMarkers) +
            if record.IsWrapMarker() && !includeWrapMarkers then [] else [record]
  {
    assert Init(seen + [record]) == seen;
  }

  lemma {:induction false} SelectAll(records: seq<Record>)
    ensures Select(records, true) == records
  {
    if records != [] {
      SelectAll(Init(records));
      InitLast(records);
    }
  }

  // ---------- the loop over a file cursor ----------

  /** A binary stream: a finite byte sequence and a read position. */
  class ByteSource {
    const data: seq<byte>
    var pos: nat

    ghost predicate Valid()
      reads this
    {
      pos <= |data|
    }

    constructor (bytes: seq<byte>)
      ensures Valid() && data == bytes && pos == 0
    {
      data := bytes;
      pos := 0;
    }

    /** Reads n bytes, or what is left when there are fewer. */
    method Read(n: nat) returns (b: seq<byte>)
      requires Valid()
      modifies this
      ensures Valid()
      ensures pos == Min(old(pos) + n, |data|)
      ensures b == data[old(pos)..pos]
    {
      var k := Min(n, |data| - pos);
      b := data[pos..pos + k];
      pos := pos + k;
    }
  }

  lemma {:induction false} SpanOfAppend(a: seq<Record>, b: seq<Record>)
    ensures SpanOf(a + b) == SpanOf(a) + SpanOf(b)
  {
    if b == [] {
      assert a + b == a;
    } else {
      assert Init(a + b) == a + Init(b);
      SpanOfAppend(a, Init(b));
    }
  }

  /** Reading from the start of buf goes through exactly the records in seen and comes to off. */
  ghost predicate Consumed(buf: seq<byte>, off: nat, seen: seq<Record>)
    decreases |seen|
  {
    if seen == [] then off == 0
    else
      var r := Last(seen);
      && r.offset <= |buf|
      && ReadRecord(buf, r.offset) == Next(r)
      && off == r.offset + r.header.TotalSize()
      && Consumed(buf, r.offset, Init(seen))
  }

  lemma ConsumeNext(buf: seq<byte>, off: nat, seen: seq<Record>, r: Record)
    requires off <= |buf| && Consumed(buf, off, seen) && ReadRecord(buf, off) == Next(r)
    ensures Consumed(buf, off + r.header.TotalSize(), seen + [r])
  {
    assert Init(seen + [r]) == seen && Last(seen + [r]) == r;
  }

  lemma DecodeNext(buf: seq<byte>, off: nat, seen: seq<Record>, r: Record, next: nat)
    requires off <= |buf| && ReadRecord(buf, off) == Next(r) && next == off + r.header.TotalSize()
    ensures DecodeFrom(buf, off, seen) == DecodeFrom(buf, next, seen + [r])
  {
  }

  lemma {:induction false} ConsumedDecodes(buf: seq<byte>, off: nat, seen: seq<Record>)
    requires off <= |buf| && Consumed(buf, off, seen)
    ensures Decode(buf) == DecodeFrom(buf, off, seen)
    decreases |seen|
  {
    if seen != [] {
      InitLast(seen);
      DecodeNext(buf, Last(seen).offset, Init(seen), Last(seen), off);
      ConsumedDecodes(buf, Last(seen).offset, Init(seen));
    }
  }

  lemma {:induction false} ConsumedSpan(buf: seq<byte>, off: nat, seen: seq<Record>)
    requires Consumed(buf, off, seen)
    ensures off == SpanOf(seen)
    decreases |seen|
  {
    if seen != [] {
      ConsumedSpan(buf, Last(seen).offset, Init(seen));
    }
  }

  lemma ConsumedStops(buf: seq<byte>, off: nat, seen: seq<Record>, outcome: Outcome)
    requires off <= |buf| && Consumed(buf, off, seen)
    requires ReadRecord(buf, off) == Stop(outcome)
    ensures Decode(buf) == Decoded(seen, outcome)
    ensures off == SpanOf(seen)
  {
    ConsumedDecodes(buf, off, seen);
    ConsumedSpan(buf, off, seen);
  }

  lemma SliceOfTail(data: seq<byte>, base: nat, i: nat, j: nat)
    requires i <= j && base + j <= |data|
    ensures data[base..][i..j] == data[base + i..base + j]
  {
  }

  lemma PrefixOfSlice(data: seq<byte>, i: nat, j: nat, n: nat)
    requires i + n <= j <= |data|
    ensures data[i..j][..n] == data[i..i + n]
  {
  }

  /** One round of reads: the header, its check, and the padded payload. The stream began at base. */
  method ReadNext(fh: ByteSource, ghost base: nat, offset: nat) returns (step: Step)
    requires fh.Valid() && fh.pos == base + offset
    modifies fh
    ensures fh.Valid() && fh.pos >= old(fh.pos)
    ensures step == ReadRecord(fh.data[base..], offset)
    ensures step.End? ==> fh.pos == |fh.data|
    ensures step.Next? ==> fh.pos == base + offset + step.record.header.TotalSize()
  {
    ghost var buf := fh.data[base..];
    var hdrBytes := fh.Read(HMB_RECORD_HDR_SIZE);
    if |hdrBytes| == 0 {
      return End;
    }
    if |hdrBytes| < HMB_RECORD_HDR_SIZE {
      return Fail(TruncatedHeader(offset, |hdrBytes|));
    }
    var start := offset + HMB_RECORD_HDR_SIZE;
    SliceOfTail(fh.data, base, offset, start);
    var header := UnpackHeader(hdrBytes);
    if header.magic != HMB_RECORD_MAGIC {
      return Fail(BadMagic(header.magic));
    }
    var padded := header.PaddedPayloadLen();
    var payloadBytes := fh.Read(padded);
    if |payloadBytes| < padded {
      return Fail(TruncatedPayload(start, |payloadBytes|, padded));
    }
    var actualPayload := payloadBytes[..header.payloadLen];
    SliceOfTail(fh.data, base, start, start + header.payloadLen);
    PrefixOfSlice(fh.data, base + start, fh.pos, header.payloadLen);
    step := Next(Record(offset, header, actualPayload));
  }

  /**
    * Decodes the stream from its current position. Offsets count from there. The out-parameter
    * consumed is the value of the source's offset variable when the pass ends.
    */
  method IterRecords(fh: ByteSource, includeWrapMarkers: bool)
    returns (yielded: seq<Record>, outcome: Outcome, consumed: nat)
    requires fh.Valid()
    modifies fh
    ensures fh.Valid()
    ensures yielded == Select(Decode(fh.data[old(fh.pos)..]).records, includeWrapMarkers)
    ensures outcome == Decode(fh.data[old(fh.pos)..]).outcome
    ensures consumed == SpanOf(Decode(fh.data[old(fh.pos)..]).records)
    ensures consumed <= fh.pos - old(fh.pos)
    ensures outcome.Done? ==> fh.pos == |fh.data| && consumed == fh.pos - old(fh.pos)
  {
    ghost var base := fh.pos;
    ghost var buf := fh.data[fh.pos..];
    ghost var seen: seq<Record> := [];  // records consumed so far, yielded or skipped
    yielded := [];
    var offset: nat := 0;
    while true
      invariant fh.Valid()
      invariant offset <= |buf|
      invariant fh.pos == base + offset  // the cursor and the separately tracked offset agree
      invariant Consumed(buf, offset, seen)
      invariant yielded == Select(seen, includeWrapMarkers)
      decreases |buf| - offset
    {
      var step := ReadNext(fh, base, offset);
      if step.End? {
        ConsumedStops(buf, offset, seen, Done);
        return yielded, Done, offset;
      }
      if step.Fail? {
        ConsumedStops(buf, offset, seen, step.outcome);
        return yielded, step.outcome, offset;
      }
      var record := step.record;
      ConsumeNext(buf, offset, seen, record);
      SelectSnoc(seen, record, includeWrapMarkers);
      seen := seen + [record];
      if record.IsWrapMarker() && !includeWrapMarkers {
        offset := offset + record.header.TotalSize();
        continue;
      }
      yielded := yielded + [record];
      offset := offset + record.header.TotalSize();
    }
  }

  /** The number of records that are not wrap markers, or the error of the pass. */
  method CountRecords(fh: ByteSource) returns (r: Result<nat, Outcome>)
    requires fh.Valid()
    modifies fh
    ensures var d := Decode(fh.data[old(fh.pos)..]);
            r == if d.outcome.Done? then Ok(|Select(d.records, false)|) else Err(d.outcome)
  {
    var yielded, outcome, consumed := IterRecords(fh, false);
    if !outcome.Done? {
      return Err(outcome);
    }
    r := Ok(|yielded|);
  }

  /** A pass over an in-memory buffer in the default mode. */
  method ReadBytesFromBuffer(buf: seq<byte>) returns (yielded: seq<Record>, outcome: Outcome)
    ensures yielded == Select(Decode(buf).records, false)
    ensures outcome == Decode(buf).outcome
  {
    var fh := new ByteSource(buf);
    assert fh.data[0..] == buf;
    var consumed: nat;
    yielded, outcome, consumed := IterRecords(fh, false);
  }
}
