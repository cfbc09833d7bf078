/** The record encoder, and the laws that tie it to the decoder. */
module Encoder {
  import opened Basics
  import opened Format
  import opened Stream
  import opened Grammar

  datatype EncodeError =
    | StructError  // a field does not fit its width
    | EmptyRange   // a random draw from an empty interval

  /** Bytes of padding the encoder appends after n payload bytes. */
  function PadLen(n: nat): nat
  {
    (HMB_RECORD_ALIGN - n % HMB_RECORD_ALIGN) % HMB_RECORD_ALIGN
  }

  /** Serialises one record. The padding follows the payload given, not the header's payloadLen. */
  function PackRecord(h: RecordHeader, payload: seq<byte>): Result<seq<byte>, EncodeError>
  {
    if !h.InRange() then Err(StructError)
    else Ok(PackHeader(h) + payload + Zeros(PadLen(|payload|)))
  }

  function Zeros(n: nat): seq<byte>
  {
    seq(n, _ => 0)
  }

  /** The encoder's padding and the decoder's rounding agree on every payload length. */
  lemma PaddingAgrees(h: RecordHeader)
    requires 0 <= h.payloadLen
    ensures h.payloadLen + PadLen(h.payloadLen) == h.PaddedPayloadLen()
  {
  }

  /** A header and the payload it announces: what the encoder is meant for. */
  ghost predicate Encodable(h: RecordHeader, payload: seq<byte>)
  {
    h.InRange() && h.magic == HMB_RECORD_MAGIC && |payload| == h.payloadLen
  }

  ghost function ZeroPadded(h: RecordHeader, payload: seq<byte>): Chunk
  {
    Chunk(h, payload, Zeros(PadLen(|payload|)))
  }

  lemma PackIsChunk(h: RecordHeader, payload: seq<byte>)
    requires Encodable(h, payload)
    ensures ZeroPadded(h, payload).WellFormed()
    ensures PackRecord(h, payload) == Ok(ZeroPadded(h, payload).Bytes())
  {
    PaddingAgrees(h);
  }

  // ---------- round trips ----------

  ghost predicate AllEncodable(records: seq<Record>)
  {
    forall i | 0 <= i < |records| :: Encodable(records[i].header, records[i].payload)
  }

  /** The records packed one after the other; their offsets play no part. */
  function PackAll(records: seq<Record>): seq<byte>
    requires AllEncodable(records)
  {
    if records == [] then []
    else PackAll(Init(records)) + PackRecord(Last(records).header, Last(records).payload).value
  }

  ghost function Canonical(records: seq<Record>): (cs: seq<Chunk>)
    requires AllEncodable(records)
    ensures |cs| == |records| && AllWellFormed(cs)
    ensures forall i | 0 <= i < |cs| :: cs[i] == ZeroPadded(records[i].header, records[i].payload)
  {
    if records == [] then []
    else
      InitLast(records);
      PackIsChunk(Last(records).header, Last(records).payload);
      Canonical(Init(records)) + [ZeroPadded(Last(records).header, Last(records).payload)]
  }

  lemma {:induction false} PackAllFlattens(records: seq<Record>)
    requires AllEncodable(records)
    ensures PackAll(records) == Flatten(Canonical(records))
    ensures |PackAll(records)| == SpanOf(records)
  {
    if records != [] {
      var r := Last(records);
      PackAllFlattens(Init(records));
      PackIsChunk(r.header, r.payload);
      PaddingAgrees(r.header);
      Snoc(Canonical(Init(records)), ZeroPadded(r.header, r.payload));
    }
  }

  lemma TilesInit(records: seq<Record>)
    requires Tiles(records) && records != []
    ensures Tiles(Init(records)) && Last(records).offset == SpanOf(Init(records))
  {
    assert forall i | 0 <= i < |records| :: Init(records)[..i] == records[..i];
  }

  lemma {:induction false} RecordsOfCanonical(records: seq<Record>)
    requires AllEncodable(records) && Tiles(records)
    ensures Records(Canonical(records)) == records
  {
    if records != [] {
      var before, r := Init(records), Last(records);
      assert records == before + [r];
      TilesInit(records);
      RecordsOfCanonical(before);
      PackAllFlattens(before);
      PackIsChunk(r.header, r.payload);
      Snoc(Canonical(before), ZeroPadded(r.header, r.payload));
    }
  }

  /**
    * Encoding then decoding is the identity: the records come back with offsets that are the
    * prefix sums of the total sizes; the default mode gives exactly those that are not wrap
    * markers, in order, at the same offsets.
    */
  lemma RoundTrip(records: seq<Record>)
    requires AllEncodable(records) && Tiles(records)
    ensures Decode(PackAll(records)) == Decoded(records, Done)
    ensures Select(Decode(PackAll(records)).records, true) == records
    ensures IsSublist(Select(Decode(PackAll(records)).records, false), records)
  {
    PackAllFlattens(records);
    DecodeFlatten(Canonical(records));
    RecordsOfCanonical(records);
    SelectAll(records);
    SelectIsSublist(records);
  }

  /** kept is what is left of records when the wrap markers are struck out. */
  ghost predicate IsSublist(kept: seq<Record>, records: seq<Record>)
  {
    exists positions: seq<nat> :: KeptAt(kept, records, positions)
  }

  ghost predicate KeptAt(kept: seq<Record>, records: seq<Record>, positions: seq<nat>)
  {
    && |positions| == |kept|
    && (forall i, j | 0 <= i < j < |positions| :: positions[i] < positions[j])
    && (forall j | 0 <= j < |kept| :: positions[j] < |records| && kept[j] == records[positions[j]])
    && (forall i | 0 <= i < |records| :: i in positions <==> !records[i].IsWrapMarker())
  }

  lemma SelectIsSublist(records: seq<Record>)
    ensures IsSublist(Select(records, false), records)
  {
    var positions := SelectPositions(records);
  }

  lemma {:induction false} SelectPositions(records: seq<Record>) returns (positions: seq<nat>)
    ensures KeptAt(Select(records, false), records, positions)
    decreases |records|
  {
    positions := [];
    if records != [] {
      var before, r := Init(records), Last(records);
      positions := SelectPositions(before);
      assert records == before + [r];
      KeptSnoc(Select(before, false), before, positions, r);
      if !r.IsWrapMarker() {
        positions := positions + [|before|];
      }
    }
  }

  lemma KeptSnoc(kept: seq<Record>, records: seq<Record>, positions: seq<nat>, r: Record)
    requires KeptAt(kept, records, positions)
    ensures r.IsWrapMarker() ==> KeptAt(kept, records + [r], positions)
    ensures !r.IsWrapMarker() ==> KeptAt(kept + [r], records + [r], positions + [|records|])
  {
    forall i | 0 <= i < |records|
      ensures i in positions + [|records|] <==> i in positions
    {
    }
  }

  // ---------- normal form ----------

  /** Byte k lies in the padding of the record that covers it. */
  predicate InPadding(records: seq<Record>, k: nat)
  {
    records != [] &&
    var r := Last(records);
    if k < r.offset then InPadding(Init(records), k)
    else r.offset + HMB_RECORD_HDR_SIZE + r.header.payloadLen <= k < r.offset + r.header.TotalSize()
  }

  /** packed is buf with the padding of these records zeroed. */
  ghost predicate ZeroesPadding(buf: seq<byte>, packed: seq<byte>, records: seq<Record>)
  {
    && |packed| == |buf|
    && forall k | 0 <= k < |buf| :: packed[k] == if InPadding(records, k) then 0 else buf[k]
  }

  lemma ZeroesSnoc(buf: seq<byte>, packed: seq<byte>, records: seq<Record>,
                                      piece: seq<byte>, body: seq<byte>, r: Record)
    requires ZeroesPadding(buf, packed, records) && r.offset == |buf|
    requires |piece| == |body| == r.header.TotalSize()
    requires forall i | 0 <= i < |body| ::
               body[i] == if i < HMB_RECORD_HDR_SIZE + r.header.payloadLen then piece[i] else 0
    ensures ZeroesPadding(buf + piece, packed + body, records + [r])
  {
    assert Init(records + [r]) == records && Last(records + [r]) == r;
  }

  lemma PackSnoc(records: seq<Record>, r: Record)
    requires AllEncodable(records) && Encodable(r.header, r.payload)
    ensures AllEncodable(records + [r])
    ensures PackAll(records + [r]) == PackAll(records) + PackRecord(r.header, r.payload).value
  {
    assert Init(records + [r]) == records;
  }

  lemma {:induction false} RepackChunks(cs: seq<Chunk>)
    requires AllWellFormed(cs)
    ensures AllEncodable(Records(cs))
    ensures ZeroesPadding(Flatten(cs), PackAll(Records(cs)), Records(cs))
  {
    if cs != [] {
      var c := Last(cs);
      var before, front := Records(Init(cs)), Flatten(Init(cs));
      var r := Record(|front|, c.header, c.payload);
      RepackChunks(Init(cs));
      RepackChunk(c);
      PackSnoc(before, r);
      ZeroesSnoc(front, PackAll(before), before, c.Bytes(), PackRecord(c.header, c.payload).value, r);
    }
  }

  lemma RepackChunk(c: Chunk)
    requires c.WellFormed()
    ensures Encodable(c.header, c.payload)
    ensures var body := PackRecord(c.header, c.payload).value;
            && |body| == |c.Bytes()| == c.header.TotalSize()
            && forall i | 0 <= i < |body| ::
                 body[i] == if i < HMB_RECORD_HDR_SIZE + |c.payload| then c.Bytes()[i] else 0
  {
    PaddingAgrees(c.header);
  }

  /**
    * Re-packing everything decoded from an accepted buffer keeps its length and every byte outside
    * the padding, zeroes the padding, and decodes to the same records; so doing it twice is doing
    * it once.
    */
  lemma NormalForm(buf: seq<byte>)
    requires Decode(buf).outcome.Done?
    ensures var records := Decode(buf).records;
            && AllEncodable(records)
            && ZeroesPadding(buf, PackAll(records), records)
            && Decode(PackAll(records)) == Decode(buf)
            && PackAll(Decode(PackAll(records)).records) == PackAll(records)
  {
    var cs := WholeOutline(buf);
    RepackChunks(cs);
    DecodeTiles(buf);
    RoundTrip(Decode(buf).records);
  }

  /** A buffer is its own normal form exactly when its padding is zero already. */
  lemma CanonicalBuffers(buf: seq<byte>)
    requires Decode(buf).outcome.Done?
    ensures var records := Decode(buf).records;
            && AllEncodable(records)
            && (PackAll(records) == buf <==> forall k | 0 <= k < |buf| && InPadding(records, k) :: buf[k] == 0)
  {
    NormalForm(buf);
  }
}
