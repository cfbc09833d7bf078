# A Dafny model of the HMB trace analyzer

This project models the binary trace pipeline of the analyzer and proves properties of it: the
record layout and its encoder, the streaming decoder, the single-pass statistics, the synthetic
trace generator, and the table window of the report builder.

The pieces, in dependency order:

- `Format`: little-endian integers, the packed 32-byte header, padding.
- `Stream`: the decoder as a loop over a file cursor, and the function it computes. An outcome says
  whether the pass reached the end or which of the three errors ended it.
- `Grammar`: the dump format as a concatenation of chunks, defined without the decoder, and the
  theorems that relate the two.
- `Encoder`: the record encoder, round trip and normal form.
- `Stats`: a specification of every statistic over the whole list of records, and the class whose
  single pass computes it. `Tallies`: what each statistic is in numbers, of no records, of one record
  more, and as counts over the list. `StatsLaws`: what those statistics mean together.
- `Synth`: the generator as a state machine and as the loop that refines it. `Ledger`: what every
  run keeps. `Counting`: closed forms for its periods. `Course`: every record of a run, clean or
  failing, from the options and draws. `Outcomes`: the bounds on the draws, met exactly.
- `EndToEnd`: generate, decode, compute. `Fitting`: which options make every run finish. `Estimate`:
  how far the drop estimate is right about a run, gap by gap and in total.
- `Report`: the two-pass report builder. `Documented`: the rules of the format document beyond the
  chunk grammar, and how far the decoder and the generator keep them.

Python integers are unbounded, so are the model's; the widths appear where the code puts them: in
packing (a field that does not fit is an error, as in `struct.pack`), in `& 0xFFFF_FFFF`, written as
the remainder modulo 2^32, and in `& ~7`, written as rounding down to a multiple of 8. `Counter` is a
multiset. The random source of the generator is a tape of draws of which only the bounds are known;
the statements hold for every tape, and for every option set, negative periods, counts and sizes
included. A generated payload length that comes from the Gaussian draw is any integer before it is
clamped.

Where code and documentation disagree the model follows the code:

- docs/trace-format.md (section 6.5) says that the analyzer counts wrap markers. The report and the
  command line compute their statistics from the default pass, which leaves them out. The count shown
  is 0; it is right iff no record has an odd flags byte, and for a clean run iff the options call for
  no marker (`Report.ReportMissesMarkers`, `Report.ReportOfRunMissesMarkers`).
- The command line and the report label `total_dropped` an estimate of drops
  (analyzer/src/hmb_trace/cli.py:224, analyzer/src/hmb_trace/report.py:159), where the property it sums
  is the count of numbers skipped. A drop of the generator loses one record and skips 1 to 3 numbers
  (`Estimate.OneLossManyNumbers`). The estimate is the number of lost records in every clean run iff
  the records lost, those lost after the last data record and the wrap markers are equally many
  (`Estimate.EstimateCountsLossesOnly`).
- Nor is it always the count of numbers skipped. Each wrap marker uses up a number and the statistics
  skip markers, so each adds 1; and numbers skipped after the last data record leave no gap. It is
  exact in every clean run iff neither can happen (`Estimate.EstimateCountsSkipsOnly`).
- Section 4 bounds a payload by 4064 bytes, fixes a wrap marker's payload at 0 and has padding zeroed;
  sections 4 and 6 have reserved fields and unused flag bits zero. The decoder checks none of these
  (`Documented.LongPayloadAccepted`, `Documented.MarkerPayloadAccepted`,
  `Documented.DirtyPaddingAccepted`, `Documented.ReservedFieldAccepted`,
  `Documented.UnknownFlagYielded`; the exact condition is `Documented.DocumentedIff`). The generator
  keeps all but the payload bound, which is an option (`Documented.GeneratorKeepsRules`).
- Section 6 has consumers ignore records with unknown flags. The default pass yields them unless they
  are also marked as wrap markers (`Documented.UnknownFlagYielded`, `Documented.DefaultPassKeepsRule`).

## Model

| member | source | states |
|---|---|---|
| `Format.HeaderLayout` | analyzer/src/hmb_trace/format.py:70-87 | every packed field is the sum of its own bytes, low byte first, at the offset of the documented table: magic 0, seq 4, ts 8, opcode 16, cpu 18, flags 19, payload_len 20, reserved 22 and 24 |
| `Format.UnpackedFields` | analyzer/src/hmb_trace/format.py:82-87 | each field unpacked from 32 bytes is the sum of the bytes at those offsets, each with its power of 256 |
| `Format.LittleEndianByte` | analyzer/src/hmb_trace/format.py:70-87 | byte i of a packed number of any width is the number divided by 256 to the i, modulo 256 |
| `Format.MagicBytes` | analyzer/src/hmb_trace/format.py:17 | on the wire the record magic is the letters RECT |
| `Format.UnpackPack` | analyzer/src/hmb_trace/format.py:70-87 | unpacking a packed header whose fields fit their widths gives the header back |
| `Format.PackUnpack` | analyzer/src/hmb_trace/format.py:82-87 | any 32 bytes unpack to fields within their widths, and packing those gives the same bytes |
| `Format.RecordHeader.PaddedPayloadLen` | analyzer/src/hmb_trace/format.py:93-96 | the padded length is the multiple of 8 in [payload_len, payload_len + 8) |
| `Format.HasBitIsMask` | analyzer/src/hmb_trace/stats.py:136-138 | on a flags byte the bit test of the model is the mask test `flags & (1 << bit)` |
| `Stream.ByteSource.Read` | analyzer/src/hmb_trace/stream.py:88-88 | a read gives n bytes or what is left, and moves the cursor by as much |
| `Stream.ReadNext` | analyzer/src/hmb_trace/stream.py:88-108 | one round of reads: end of file, each of the three errors with its offset and sizes, or the record at the cursor with its payload cut to payload_len; on a record the cursor stands behind its padding |
| `Stream.IterRecords` | analyzer/src/hmb_trace/stream.py:71-115 | the loop yields the selected records of the decode function and ends as it does; its offset is the total size of the records consumed and, after a clean pass, all the bytes of the stream |
| `Stream.CountRecords` | analyzer/src/hmb_trace/stream.py:118-120 | the number of records that are not wrap markers, or the error of the pass |
| `Stream.ReadBytesFromBuffer` | analyzer/src/hmb_trace/stream.py:123-125 | an in-memory pass gives the default-mode records of the buffer |
| `Grammar.AcceptanceIsGrammar` | analyzer/src/hmb_trace/stream.py:87-115 | a pass ends without an error if and only if the buffer is a concatenation of well-formed chunks (header with the right magic, payload, padding to 8) |
| `Grammar.LongestWholePrefix` | analyzer/src/hmb_trace/stream.py:87-115 | whatever the buffer, the records decoded before the end or the error are those of a run of whole chunks at its front, and no run of whole chunks at its front is longer |
| `Grammar.Unambiguous` | analyzer/src/hmb_trace/stream.py:87-115 | a buffer is a concatenation of well-formed chunks in at most one way |
| `Grammar.StopExplained` | analyzer/src/hmb_trace/stream.py:88-105 | the end of any pass is decided by the bytes behind the whole records: none left, part of a header, a magic that is not the record magic, or a padded payload that is not all there; the error carries that offset and those sizes |
| `Grammar.TruncationExactness` | analyzer/src/hmb_trace/stream.py:88-105 | a dump cut at byte k decodes cleanly iff k is a record boundary; otherwise it gives exactly the records wholly before k and then a truncated header at the cut record's start, or a truncated payload at its start + 32, with the byte counts |
| `Grammar.DecodeConcat` | analyzer/src/hmb_trace/stream.py:86-115 | after an accepted prefix A, decoding A + B gives A's records, then B's with offsets shifted by the length of A, and B's outcome with its offset shifted |
| `Grammar.SelectedConcat` | analyzer/src/hmb_trace/stream.py:110-115 | the default and the markers-included modes both commute with such a split |
| `Grammar.DecodeTiles` | analyzer/src/hmb_trace/stream.py:86-115 | in any pass each record starts where those before it end, on an 8-byte boundary; the records cover the whole input iff the pass is clean |
| `Grammar.DecodedBytes` | analyzer/src/hmb_trace/stream.py:88-113 | each record decoded stands where the bytes are RECT; its header is unpacked from the 32 bytes there, its payload is as long as bytes 20 and 21 say, and is the bytes behind the header |
| `Grammar.DecodedFlags` | analyzer/src/hmb_trace/format.py:82-87 | byte 19 of every record decoded is its flags field, and the record is a wrap marker iff that byte is odd |
| `Encoder.PaddingAgrees` | analyzer/src/hmb_trace/synth.py:73-73 | the encoder's padding and the decoder's rounding agree for every payload length |
| `Encoder.RoundTrip` | analyzer/src/hmb_trace/synth.py:60-74 | decoding the packed records gives exactly the records back, at the prefix sums of their sizes; the default mode gives, in order, exactly those that are not wrap markers |
| `Encoder.NormalForm` | analyzer/src/hmb_trace/synth.py:60-74 | re-packing all that was decoded from an accepted buffer keeps its length, zeroes the padding, changes no other byte, and decodes to the same records, so re-packing again changes nothing |
| `Encoder.CanonicalBuffers` | analyzer/src/hmb_trace/synth.py:73-74 | everything decoded from an accepted buffer can be packed again, and that gives the buffer back iff its padding bytes are all zero |
| `Stats.SeqGap.DroppedCount` | analyzer/src/hmb_trace/stats.py:45-49 | the dropped count is the 32-bit number of increments, beyond one, that take the previous number to the next modulo 2^32 |
| `Stats.TraceStats.constructor` | analyzer/src/hmb_trace/stats.py:52-79 | a fresh statistics object is empty |
| `Stats.TraceStats.Compute` | analyzer/src/hmb_trace/stats.py:113-181 | one pass leaves in the object, field by field, the statistics of the whole record list: counts, tallies, time range, payload sizes, histogram, step extremes and total, gaps; every field of the object is named |
| `Stats.TraceStats.Tally` | analyzer/src/hmb_trace/stats.py:130-179 | one data record changes the object as the fold over records says, given the sequence number and time of the one before |
| `Stats.TraceStats.TallyHeader` | analyzer/src/hmb_trace/stats.py:130-149 | the counters, the time range and the payload sizes after one more data record, the record's own opcode, core and payload length among them; nothing else changes |
| `Stats.TraceStats.TallyFlagBits` | analyzer/src/hmb_trace/stats.py:136-138 | the flag tally gains one for each set bit 0..7 |
| `Stats.TraceStats.TallyPair` | analyzer/src/hmb_trace/stats.py:151-176 | a jump in the sequence appends one gap with both numbers and times; a step that does not go back is sampled |
| `Stats.TraceStats.TallySample` | analyzer/src/hmb_trace/stats.py:165-176 | one more sample in the count, the sum, the extremes and the histogram |
| `Stats.TraceStats.Place` | analyzer/src/hmb_trace/stats.py:169-176 | the loop over the bounds adds one under the first bound not below the step, or under key 0; it is the key whose interval, in numbers, holds the step |
| `Stats.TraceStats.ZeroHistogram` | analyzer/src/hmb_trace/stats.py:116-118 | the histogram starts with nine keys at zero |
| `Stats.RunSummarizes` | analyzer/src/hmb_trace/stats.py:113-181 | the fold that the loop computes equals the field-by-field specification |
| `Stats.HistogramCounts` | analyzer/src/hmb_trace/stats.py:169-176 | each bucket counts exactly the samples above the bound before it and not above its own; key 0 those above the last bound |
| `Stats.FirstFitInNumbers` | analyzer/src/hmb_trace/stats.py:24-33 | for a step that is not negative the first fit is the one key of 0, 100, 1,000 and so on to 1,000,000,000 whose interval holds it |
| `Tallies.DataIsSelected` | analyzer/src/hmb_trace/stats.py:126-130 | the records tallied are, in order, those of the default pass, and the markers are the rest |
| `Tallies.NoRecords` | analyzer/src/hmb_trace/stats.py:112-121 | no records give zero counts, empty tallies, no range and a histogram of nine zeros under the keys written out |
| `Tallies.OneMoreMarker` | analyzer/src/hmb_trace/stats.py:126-128 | a wrap marker, whose flags are odd, adds one to the marker count and changes nothing else |
| `Tallies.OneMoreRecord` | analyzer/src/hmb_trace/stats.py:130-149 | one more data record adds one to the total, to its opcode, to its core and to each of its flag bits, moves the end of the time range to its time, and enters the payload sizes with its payload length |
| `Tallies.OneMoreGap` | analyzer/src/hmb_trace/stats.py:151-161 | one more data record adds a gap exactly when its number is not that of the one before plus one modulo 2^32, with both numbers and times |
| `Tallies.OneMoreStep` | analyzer/src/hmb_trace/stats.py:163-176 | its step from the one before, unless negative, enters the samples, the total, the extremes and the one histogram entry whose interval holds it |
| `Tallies.OneRecord` | analyzer/src/hmb_trace/stats.py:130-149 | the statistics of a single data record, from its own fields |
| `Tallies.TalliesCount` | analyzer/src/hmb_trace/stats.py:134-135 | the tally under an opcode, or under a core, is the number of data records that have it |
| `Tallies.HistogramInNumbers` | analyzer/src/hmb_trace/stats.py:24-33 | the histogram has exactly the nine keys written out, and counts under each the adjacent data records whose step lies in its interval |
| `Tallies.DurationIsRange` | analyzer/src/hmb_trace/stats.py:81-85 | the duration is the time from the first data record to the last, and 0 when there is none |
| `StatsLaws.GapsAreTheJumps` | analyzer/src/hmb_trace/stats.py:151-161 | the gaps are, in order, exactly the adjacent data pairs whose next number is not the previous plus one modulo 2^32, with their numbers and times |
| `StatsLaws.EveryGapCounts` | analyzer/src/hmb_trace/stats.py:45-49 | with 32-bit numbers every listed gap counts at least one dropped record |
| `StatsLaws.DropFormula` | analyzer/src/hmb_trace/stats.py:109-111 | for 32-bit reductions of any unbounded sequence the estimate is last - first - (n - 1) minus 2^32 for each whole turn hidden in a step |
| `StatsLaws.DropEstimateExact` | analyzer/src/hmb_trace/stats.py:45-49 | for a true sequence that always advances the estimate is exact iff no step exceeds 2^32 |
| `StatsLaws.DropEstimateModulo` | analyzer/src/hmb_trace/stats.py:45-49 | with no assumption on the steps the estimate is right modulo 2^32 |
| `StatsLaws.TimeTelescopes` | analyzer/src/hmb_trace/stats.py:81-85 | the sampled total plus the (negative) backward steps is the duration; the total is at least the duration, with equality iff time never goes back; samples and backward steps make up all adjacent pairs |
| `StatsLaws.ExtremesBoundTotal` | analyzer/src/hmb_trace/stats.py:163-168 | the extremes exist iff there are samples, and bound the total from both sides |
| `StatsLaws.HistogramPartition` | analyzer/src/hmb_trace/stats.py:169-176 | the nine entries, under the keys 0, 100, 1,000 and so on to 1,000,000,000, add up to the sample count and each counts the samples of its interval |
| `StatsLaws.MarkerTransparency` | analyzer/src/hmb_trace/stats.py:126-130 | statistics with and without markers in the input differ only in the marker count, which is their number and 0; total_records is what count_records gives |
| `StatsLaws.TalliesConserve` | analyzer/src/hmb_trace/stats.py:131-138 | opcode and core tallies each add up to total_records; flag bit 1 is the truncated count, bit 0 is never tallied, and no bit above 7 is |
| `StatsLaws.StatsMerge` | analyzer/src/hmb_trace/stats.py:113-181 | the statistics of two runs end to end are the fieldwise merge of both plus the one pair at the seam |
| `Synth.Generate` | analyzer/src/hmb_trace/synth.py:97-161 | for every option set and every tape of draws, the chunks yielded are, one by one, the packed records of the state machine's run, and the run ends with the same error or none |
| `Synth.YieldRecord` | analyzer/src/hmb_trace/synth.py:152-154 | packing one record yields its bytes, uses one sequence number and moves the clock; a field that does not fit ends the run |
| `Synth.YieldMarker` | analyzer/src/hmb_trace/synth.py:110-125 | the wrap marker of an iteration, with its sequence number and time, when one is due |
| `Synth.YieldData` | analyzer/src/hmb_trace/synth.py:127-161 | the data record of an iteration: draws, truncated flag, sequence number and time |
| `Synth.DrawnLength` | analyzer/src/hmb_trace/synth.py:130-134 | drawing a payload length fails iff the draw is a large one and the bound is below -1; with a bound that is not negative the length lies within it, in its upper half for a large draw and otherwise at the length within the bound nearest to the Gaussian draw; a negative bound ends the run at its first data record |
| `Synth.Write` | analyzer/src/hmb_trace/synth.py:164-171 | the file is the dump of the run and the total returned is its length |
| `Course.RunWrites` | analyzer/src/hmb_trace/synth.py:97-161 | in a clean run exactly the iterations that are no drops write, in order, a marker when one is due and a data record; the decoded dump holds these and no other. Opcode, core, flags, payload length and payload are those of the iteration's draw; the time is that of the record before plus its gap; the number goes up by one, and by the amount of a drop in between |
| `Course.FailedRunWrites` | analyzer/src/hmb_trace/synth.py:97-161 | a failing run writes its iterations before the failing one as a clean run does; that one fails because the marker's time does not fit, or behind the marker the payload length cannot be drawn or a field does not fit, and the dump holds what was written until then |
| `Outcomes.OpeningsExactly` | analyzer/src/hmb_trace/synth.py:102-161 | for options that fit, with no drops or markers, a run can open with a given time, opcode, core and payload length, and a given step to the second record, iff they lie within the bounds written out, the step within those of the opcode |
| `Outcomes.SkipsAndMarksExactly` | analyzer/src/hmb_trace/synth.py:106-125 | a drop can skip an amount, and a marker stand a time before its data record, iff these are 1 to 3 and 50 to 5,000 ns |
| `Outcomes.StepsByOpcode` | analyzer/src/hmb_trace/synth.py:125-161 | in every generated dump the step after a marker is 50 to 5,000 ns, and after a data record lies in the range of its opcode |
| `Ledger.EveryRunNumbered` | analyzer/src/hmb_trace/synth.py:101-154 | in every state of every run the sequence number is the count of numbers used up, modulo 2^32, and every record written, markers included, carries it |
| `Ledger.EveryRunPaced` | analyzer/src/hmb_trace/synth.py:104-154 | in every run the true numbers of successive data records start at 0 and lie 1 to 5 apart |
| `Ledger.EveryRunTimed` | analyzer/src/hmb_trace/synth.py:111-161 | in every run successive data records lie 500 to 5,005,000 ns apart |
| `Ledger.EveryRunOrdered` | analyzer/src/hmb_trace/synth.py:110-161 | in every run all records written, markers included, are at least 50 ns apart in dump order, and markers are bare 32-byte headers |
| `Ledger.EveryRunCounted` | analyzer/src/hmb_trace/synth.py:104-138 | as long as a run has not failed, its numbers of data records, truncated records and markers are the counts of due iterations |
| `Ledger.EveryRunDrawn` | analyzer/src/hmb_trace/synth.py:127-150 | in every run the data records stay within the catalogue, the core count and the payload bound, and start at number 0 and the base timestamp |
| `Counting.CommonMultiples` | analyzer/src/hmb_trace/synth.py:106-111 | an iteration is due for two periods iff it is a multiple of their least common multiple |
| `Counting.HitsClosedForm` | analyzer/src/hmb_trace/synth.py:104-138 | the number of iterations at which one period is due and another is not, in closed form, for periods of either sign or 0 |
| `EndToEnd.DumpDecodes` | analyzer/src/hmb_trace/synth.py:97-171 | every generated dump, even one cut short by an error, decodes cleanly to exactly the records of the run's log, data and markers, headers and payloads, in order and at the prefix sums of their sizes; its size is the sum of their sizes |
| `EndToEnd.LedgerRecovered` | analyzer/src/hmb_trace/stats.py:109-111 | total_dropped computed from the decoded dump equals the numbers skipped by forced drops before the last data record plus one for each wrap marker before it; in a clean run that is every marker |
| `Estimate.EstimateOfCleanRun` | analyzer/src/hmb_trace/stats.py:109-111 | in a clean run total_dropped is all the numbers the run skipped, plus one for each wrap marker, less the numbers skipped after the last data record; there are such iff the last iteration is due for a drop |
| `Estimate.EveryRunTail` | analyzer/src/hmb_trace/synth.py:106-108 | when every drop of the tape skips between lo and hi numbers, those skipped after the last data record are between lo and hi for each drop in the unbroken row at the end |
| `Estimate.EstimateCountsSkipsOnly` | analyzer/src/hmb_trace/synth.py:106-124 | for options that have a clean run, total_dropped is the count of skipped numbers in every clean run iff the options call for no wrap marker and the last iteration, if there is one, is not due for a drop; when every run finishes, the same over every tape |
| `Estimate.MarkerIsCounted` | analyzer/src/hmb_trace/synth.py:124-124 | two iterations with a marker at the second: on every tape total_dropped is one more than the numbers skipped |
| `Estimate.TrailingDropIsMissed` | analyzer/src/hmb_trace/synth.py:106-108 | two iterations with a drop at the second: on every tape total_dropped is below the numbers skipped |
| `Estimate.EstimateOfLosses` | analyzer/src/hmb_trace/stats.py:109-111 | when every drop of the tape skips between lo and hi numbers, total_dropped of a clean run is the markers plus lo to hi for each record lost, the records lost after the last data record left out |
| `Estimate.EstimateCountsLossesOnly` | analyzer/src/hmb_trace/stats.py:109-111 | for options that have a clean run, total_dropped is the count of lost records in every clean run iff the records lost, those lost after the last data record and the markers are equally many; when every run finishes, the same over every tape |
| `Estimate.TailDropsClosedForm` | analyzer/src/hmb_trace/synth.py:106-108 | the unbroken row of drops at the end is empty unless the last iteration is due, and then 1, or every iteration but the first when the period is 1 or -1 |
| `Estimate.OneLossManyNumbers` | analyzer/src/hmb_trace/synth.py:106-108 | four iterations with a drop at the third: one record is lost, and total_dropped is the amount that the drop skips |
| `Estimate.EachGapExplained` | analyzer/src/hmb_trace/stats.py:151-161 | the gaps of a generated dump are, in order, the pairs of successive data records with anything between them in the log; the slice between two such records holds only drops and markers, and the dropped count is the numbers skipped by those drops plus those markers |
| `EndToEnd.CleanRunCounts` | analyzer/src/hmb_trace/synth.py:104-138 | closed forms for the data, truncated and marker records a clean run leaves in its dump |
| `EndToEnd.GeneratedTimeMovesForward` | analyzer/src/hmb_trace/synth.py:154-161 | in a generated dump every adjacent pair is sampled, the samples add up to the duration, their extremes lie within 500 ns and 5.005 ms, and the 100 ns, 100 ms, 1 s and overflow buckets are empty |
| `EndToEnd.GeneratedContents` | analyzer/src/hmb_trace/synth.py:127-150 | the tallies of a generated dump show only catalogue opcodes, cores below the number asked for and payloads up to the bound; the first timestamp is the base |
| `EndToEnd.JoinedDumpsMerge` | analyzer/src/hmb_trace/stream.py:86-115 | the statistics of two dumps joined end to end merge as those of their record lists do, with the default mode and with the markers included |
| `Fitting.FinishesIffFits` | analyzer/src/hmb_trace/synth.py:97-161 | the generator finishes on every tape of draws if and only if the options fit: at most 256 cores, a 16-bit payload bound, a base timestamp that is not negative, and the latest possible last timestamp below 2^64 |
| `Report.BuildReport` | analyzer/src/hmb_trace/report.py:46-79 | an error of the decoder ends the report; otherwise it holds the statistics of all default-mode records, with as many total records as these and a wrap marker count of 0, their last max_table_rows, a truncation mark that is set iff they are more than that, and the file size |
| `Report.TailWindow` | analyzer/src/hmb_trace/report.py:63-70 | the append and pop window ends as the last min(seen, N) records, N below 0 counting as 0 |
| `Report.ReportMissesMarkers` | analyzer/src/hmb_trace/report.py:60-61 | the statistics a report shows count 0 wrap markers; that is the number in the file iff no record has an odd byte at its offset + 19 |
| `Report.ReportOfRunMissesMarkers` | analyzer/src/hmb_trace/report.py:60-61 | for the dump of a clean run it is the number in the dump iff the options call for no marker |
| `Report.OneMarkerMissed` | analyzer/src/hmb_trace/report.py:60-61 | two iterations with a marker at the second: the dump holds one marker and the report shows none |
| `Documented.DocumentedIff` | docs/trace-format.md:74-102 | a buffer is a dump the document allows iff it decodes cleanly, every header decoded has a payload of at most 4064 bytes (none for a marker), no unknown flag and zero reserved fields, and every padding byte is zero |
| `Documented.OneRecordDocumented` | docs/trace-format.md:74-102 | the decoder accepts every dump of one whole record; the document allows it iff the payload is at most 4064 bytes, and empty for a marker, the flags are below 4, both reserved fields are 0 and the padding is zero |
| `Documented.LongPayloadAccepted` | docs/trace-format.md:102-102 | the decoder accepts a dump of one record with 4072 payload bytes, which the document does not allow |
| `Documented.MarkerPayloadAccepted` | docs/trace-format.md:94-94 | the decoder accepts a wrap marker with 8 payload bytes, which the document does not allow |
| `Documented.DirtyPaddingAccepted` | docs/trace-format.md:100-100 | the decoder accepts a dump whose header keeps the rules and whose padding is not zero |
| `Documented.ReservedFieldAccepted` | docs/trace-format.md:87-87 | the decoder accepts a record whose reserved field is 1, which the document does not allow |
| `Documented.DefaultPassKeepsRule` | docs/trace-format.md:113-113 | the default pass yields exactly the records the document has a consumer use iff no record has a byte at its offset + 19 that is even and 4 or more |
| `Documented.UnknownFlagYielded` | docs/trace-format.md:112-113 | one record with flag bit 2, which the document does not allow: the decoder accepts it and the default pass yields it, where the document has it ignored |
| `Documented.SmallBoundDocumented` | analyzer/src/hmb_trace/synth.py:97-161 | with a payload bound of at most 4064 every generated dump, on every tape and even when the run fails, is one the document allows |
| `Documented.GeneratorKeepsRules` | analyzer/src/hmb_trace/synth.py:97-161 | for options under which every run finishes with at least one iteration, every dump is one the document allows iff the payload bound is at most 4064 |

## Left out

- Stream.IterRecords: returns the records as a list when the pass ends; a generator that is resumed one record at a time, or abandoned half-way, is not modelled.
- Stream.ByteSource.Read: short reads happen at the end of the data only, as for a buffered file; a raw stream that returns early is not modelled.
- Synth.Generate: collects the chunks instead of yielding them lazily; the distribution and the seed of the random source are replaced by bounded draws, and the average payload length, which only shapes the distribution, is not an option of the model.
- Synth.Write: the file is a byte sequence; opening it and errors of the file system are not modelled.
- Report.BuildReport: both passes see the same bytes; a missing file, the path and the opcode catalogue passed through unchanged are not modelled.
- The ring protocol between firmware, kernel module and daemon: the consumer is a stub in the repository, and its cursors are documented in two ways.
- `RingHeader`: nothing in the analyzer reads one.
- The command line, HTML, JSON and CSV output, and opcode labels: text handling only.
- Rates, means and human-readable durations and sizes: floating point and display.
- Opening and closing files in the decoder: a source is a byte sequence with a cursor.
