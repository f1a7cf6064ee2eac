# RLucene: verified models of its in-memory postings and codec logic

RLucene is a search library in Rust. This project models, in Dafny, the parts of it whose
correctness is hardest to see, and proves what they promise.

**Direct postings** (`src/codec/memory/direct_postings_format.rs`) keep a field's terms in one
byte array, with skip pointers to the end of every long run of terms that share a prefix.
`Terms`, `SkipTable` and `SkipBuild` say what runs and pointers are; `DirectField` builds the
arrays as the source does, term by term, and proves that they hold exactly the terms and the
pointers. `Automata`, `WalkInvariant`, `SeekInvariant` and `Intersect` model the walk of those
terms against an automaton: a stack of automaton states, pushed by skip pointers, popped where
their runs end, jumping by binary search over labels. The walk returns exactly the accepted
terms above the start term, in order, whatever the skip threshold.

**Postings of a term** are stored in one of two layouts, chosen by document frequency.
`Postings` gives a reference cursor over the postings themselves and `ObservedAnswers` says what
its answers are, from the postings, the calls and the earlier answers alone. `LowFreqLayout`,
`LowFreqCursors`, `Gallop` and `HighFreqCursors` encode the layouts and prove each of the six
cursors equal to the reference under every legal sequence of calls, and say exactly when the
galloping search fails; `DirectPostings` proves that, where it does not, the choice of layout
can be observed only through payloads that are present but empty, and that it then can be.
`ReadBack` reads whole terms back and gets what was indexed.

**Impacts** (`Impacts`, `ImpactAccumulator`): the accumulated (frequency, norm) pairs that no
other dominates, kept in a table of 256 frequencies and an ordered set.

**Readers and files**: `Utf8` and `StringReader` (UTF-8 with ASCII shortcuts, as section 3 of
RFC 3629 defines it), `ByteStreams` and `VariableInts` (integers and strings as bytes),
`CodecUtil` (headers and checksummed footers),
`LiveDocs` (the live documents file, from header to footer).

**Merging and analysis**: `MergedTerms` (terms of merged segments), `OrdMapping` (vector
ordinals under a document sort), `TokenFilter` (position increments of dropped tokens).

Mutable objects of the source are classes here and loops are loops; each is proved against
specification functions on values. Errors are results. The checksum, the replacement of
invalid UTF-8, the automaton, the scoring function, the document map and the accept test are
parameters, so what is proved holds for all of them. Integers are unbounded except where a
width is written out: the galloping search, unsigned norms, big-endian and variable-length
integers, 64-bit words. In the galloping search 32-bit sums wrap, as in a release build. A
midpoint that wraps is read as unsigned and comes out right; a probe index that wraps is
negative and no index of the list, so the search fails there. A build that checks for overflow
also fails at a midpoint whose sum wraps.

No lemma relies on automatic induction.

Where the documentation and the code differ, the code is followed. `Terms::intersect` asks for
a start term that the automaton accepts; the walk needs only that the automaton can read it,
and that weaker condition is what is assumed here.

## Model

| member | source | states |
|---|---|---|
| SkipTable.RunShares | src/codec/memory/direct_postings_format.rs:849-900 | Every term of the run of a term at depth d shares its first d bytes; the term after the run does not share them with the one before it. |
| SkipTable.SkipListMeaning | src/codec/memory/direct_postings_format.rs:849-938 | A term's pointers are, depth by depth, the ends of the runs that start at it and have at least the minimum size; every such run is listed and nothing else. |
| SkipTable.SkipEntry | src/codec/memory/direct_postings_format.rs:1588-1600 | Pointer j of a term leads to the end of its run at depth j + 1 above the prefix it shares with the term before it. |
| SkipBuild.PendingReversed | src/codec/memory/direct_postings_format.rs:855-899 | The pointers saved for a term after any number of terms, reversed, are the ends of its long runs deeper than the prefix still open. |
| SkipBuild.PendingIsSkipList | src/codec/memory/direct_postings_format.rs:902-938 | Once all runs are closed, the reversed pending pointers of every term are its skip list. |
| DirectField.Compare | src/codec/memory/direct_postings_format.rs:832-847 | The sign of comparing the stored bytes of a term with another term is their order as unsigned byte strings, a prefix coming first. |
| Terms.LessIff | src/codec/memory/direct_postings_format.rs:832-847 | A term is below another exactly if after some common bytes it ends first or has a smaller byte. |
| DirectField.FieldBuilder.SetSkips | src/codec/memory/direct_postings_format.rs:849-900 | Adding a term closes exactly the runs it ends, saves a pointer for those long enough, and counts one more term in those it continues. |
| DirectField.FieldBuilder.FinishSkips | src/codec/memory/direct_postings_format.rs:902-929 | Closing what is left open and reversing gives every term its skip list. |
| DirectField.FieldBuilder.SaveSkip | src/codec/memory/direct_postings_format.rs:931-938 | A pointer to the end is appended at the first term of a run, and nowhere else. |
| DirectField.Flatten | src/codec/memory/direct_postings_format.rs:770-783 | The flat pointer array with its offsets holds the pointers of every term in order. |
| DirectField.BuildField | src/codec/memory/direct_postings_format.rs:569-829 | For any terms and any skip threshold, the arrays built hold the terms byte by byte and exactly their skip lists, and the skip count is the number of pointers. |
| Automata.DeadRejects | src/codec/memory/direct_postings_format.rs:1577-1587 | No term is accepted that extends a prefix the automaton cannot read. |
| Automata.AcceptsIff | src/codec/memory/direct_postings_format.rs:1610-1648 | A string is accepted exactly if a path of states from 0, one step a byte and none of them missing, ends in an accepting state. |
| Automata.EndsWithIff | src/codec/memory/direct_postings_format.rs:1610-1625 | A term ends with a suffix exactly if it is some string followed by the suffix. |
| WalkInvariant.FrameShares | src/codec/memory/direct_postings_format.rs:1489-1511 | Every term from the next one up to the change ordinal of frame k shares its first k bytes, and the state of the frame is the one those bytes lead to. |
| WalkInvariant.StackMoves | src/codec/memory/direct_postings_format.rs:1489-1511 | Moving to a later term not past the top frame's change ordinal keeps every frame right, and change ordinals nested. |
| WalkInvariant.StackPushesSkip | src/codec/memory/direct_postings_format.rs:1588-1600 | Pushing with a term's next skip pointer keeps the stack invariant. |
| WalkInvariant.DeadLabel | src/codec/memory/direct_postings_format.rs:1540-1575 | Terms whose next byte lies between the ranges of a state are rejected. |
| WalkInvariant.ExhaustedLabel | src/codec/memory/direct_postings_format.rs:1514-1529 | With all ranges of the top state below the byte read, all terms up to its change ordinal are rejected. |
| WalkInvariant.SkipRejects | src/codec/memory/direct_postings_format.rs:1577-1587 | Where the automaton cannot step, the terms jumped over by the skip pointer are all rejected. |
| Intersect.AdvanceCursor | src/codec/memory/direct_postings_format.rs:1514-1538 | The cursor stops at the first range that does not lie below the byte, or reports that all do. |
| Intersect.FindLabel | src/codec/memory/direct_postings_format.rs:1540-1575 | The binary search with its walk back finds the first term after this one whose byte at the stack depth is not below the label. |
| Intersect.TailAccepts | src/codec/memory/direct_postings_format.rs:1610-1648 | Running the rest of a term, with the common-suffix shortcut, decides exactly whether the automaton accepts it. |
| Intersect.IntersectEnum.Examine | src/codec/memory/direct_postings_format.rs:1489-1649 | One round keeps the stack invariant, passes only over rejected terms, and makes progress: a later term, a further skip pointer, or a popped frame. |
| Intersect.IntersectEnum.Search | src/codec/memory/direct_postings_format.rs:1489-1649 | The loop ends at the first accepted term from where it started, or at the end if there is none. |
| Intersect.IntersectEnum.Next | src/codec/memory/direct_postings_format.rs:1475-1650 | Every call returns the next accepted term in order, or nothing once none is left. |
| Intersect.IntersectEnum.Scan | src/codec/memory/direct_postings_format.rs:1375-1401 | Where pointers are used up, fewer terms than the skip threshold are scanned, none after the first has pointers, and the scan stops at the first term above the start term. |
| Intersect.IntersectEnum.SeekRound | src/codec/memory/direct_postings_format.rs:1331-1410 | Comparing one term at one byte of the start term passes only terms below it, goes one level down, or ends with the enumeration positioned. |
| Intersect.IntersectEnum.SeekToStartTerm | src/codec/memory/direct_postings_format.rs:1306-1431 | For any start term the automaton can read, the enumeration is left valid just before the first term above it. |
| Intersect.IntersectEnum.constructor | src/codec/memory/direct_postings_format.rs:1274-1298 | A new enumeration stands before the first term with one frame that covers all terms. |
| Intersect.IntersectEnum.Drain | src/codec/memory/direct_postings_format.rs:1469-1650 | Calling next until it returns nothing gives all accepted terms from the current one on. |
| Intersect.Intersect | src/codec/memory/direct_postings_format.rs:984-996 | For all sorted terms, thresholds, automata and readable start terms, building the field and walking it returns a sorted list that holds a term exactly if the field has it, the automaton accepts it and it is above the start term. |
| Intersect.MatchingMeans | src/codec/memory/direct_postings_format.rs:984-996 | The reference that the walk is compared with keeps, in order, exactly the accepted terms above the start term. |
| LowFreqCursors.PassedReaches | src/core/search/doc_id_set_iterator.rs:128-138 | Stepping on while the document is below the target stops where the reference cursor advances to. |
| LowFreqLayout.Encode | src/codec/memory/direct_postings_format.rs:648-684 | Encoding writes the integer stream and the payload stream of the postings. |
| LowFreqLayout.ReadsDoc | src/codec/memory/direct_postings_format.rs:2275-2302 | At its start position in the stream, entry i holds its document and frequency; entries follow each other without gaps. |
| LowFreqLayout.ReadsPosition | src/codec/memory/direct_postings_format.rs:2318-2346 | At its start, position j of entry i holds the position, then offsets if stored, then the payload length if stored. |
| LowFreqLayout.ReadsPayload | src/codec/memory/direct_postings_format.rs:2318-2371 | The payload bytes of position j of entry i lie where the payload lengths before it add up to. |
| LowFreqCursors.LowFreqDocsEnumNoTf.NextDoc | src/codec/memory/direct_postings_format.rs:2009-2025 | Moves as the reference cursor does over a layout of documents only. |
| LowFreqCursors.LowFreqDocsEnumNoPos.NextDoc | src/codec/memory/direct_postings_format.rs:2081-2110 | Moves as the reference cursor does over documents and frequencies. |
| LowFreqCursors.LowFreqDocsEnum.NextDoc | src/codec/memory/direct_postings_format.rs:2165-2185 | Moves as the reference cursor does, jumping over the stored positions of the current document. |
| LowFreqCursors.LowFreqPostingsEnum.NextDoc | src/codec/memory/direct_postings_format.rs:2275-2302 | Moves as the reference cursor does from any point within a document, skipping what was not read of its positions and payloads. |
| LowFreqCursors.LowFreqPostingsEnum.Advance | src/codec/memory/direct_postings_format.rs:2304-2307 | Reaches the document the reference cursor reaches. |
| LowFreqCursors.LowFreqPostingsEnum.NextPosition | src/codec/memory/direct_postings_format.rs:2318-2346 | Returns the next position with its offsets and payload; the payload is the one written for it. |
| LowFreqCursors.LowFreqPostingsEnum.GetPayload | src/codec/memory/direct_postings_format.rs:2356-2371 | Returns the payload of the position last read. |
| Gallop.Search | src/codec/memory/direct_postings_format.rs:2445-2462 | The binary search between two probes, with a midpoint whose 32-bit sum wraps and is then read as unsigned, finds the first document at or after the target in lists of up to 2^31 - 1 documents. |
| Gallop.Advance | src/codec/memory/direct_postings_format.rs:2419-2469 | For every list of up to 2^31 - 1 documents, galloping lands where stepping one document at a time lands if and only if no probe overflows 32 bits before it lands; sums of the midpoint may wrap. |
| Gallop.ShortListsAreSafe | src/codec/memory/direct_postings_format.rs:2428-2444 | No list of at most 2^30 - 5 documents makes a probe overflow. |
| Gallop.LongListOverflows | src/codec/memory/direct_postings_format.rs:2428-2444 | On the list of the first 1342177271 documents, advancing to the largest document makes a probe overflow. |
| HighFreqCursors.EncodeHigh | src/codec/memory/direct_postings_format.rs:685-745 | The separate lists hold the documents, frequencies, positions with offsets, and payloads of the postings. |
| HighFreqCursors.HighFreqDocsEnum.Advance | src/codec/memory/direct_postings_format.rs:2419-2469 | Galloping reaches the document the reference cursor reaches, and fails exactly if a probe of this call overflows. |
| HighFreqCursors.HighFreqPostingsEnum.Advance | src/codec/memory/direct_postings_format.rs:2554-2605 | Galloping reaches the document the reference cursor reaches, before its first position, and fails exactly if a probe of this call overflows. |
| HighFreqCursors.HighFreqPostingsEnum.NextPosition | src/codec/memory/direct_postings_format.rs:2626-2648 | Returns the next position of the document, and remembers which payload belongs to it. |
| DirectPostings.SameStream | src/codec/memory/direct_postings_format.rs:660-676 | The low-frequency layout stores the same integers and bytes for postings once present but empty payloads are made absent. |
| DirectPostings.ForLowTerm | src/codec/memory/direct_postings_format.rs:1779-1863 | Over the low-frequency layout the cursor chosen by the flags answers for the stored postings. |
| DirectPostings.ForHighTerm | src/codec/memory/direct_postings_format.rs:1808-1876 | Over the high-frequency layout the cursor chosen by the flags answers for the stored postings. |
| DirectPostings.Run | src/codec/memory/direct_postings_format.rs:1882-1984 | For every legal sequence of calls to a new cursor, each answer is the right one for the postings, the calls and the answers before it, as ObservedAnswers.Answered spells out; only a galloping cursor can fail, and fails exactly if some advance of the run makes a probe overflow. |
| ObservedAnswers.RunAnswered | src/codec/memory/direct_postings_format.rs:1882-1984 | Said from the postings and the history alone: a move answers the first document left, at or after the target; frequency, positions and offsets are those of the document moved to and of its occurrence read last or next; the payload is that of the position read last; what the field or the caller leaves out is answered by a constant. |
| ObservedAnswers.LegalIff | src/core/search/doc_id_set_iterator.rs:128-138 | After a legal run exactly these calls are legal: moves before the end and only forward, questions on a document, as many positions as it has, offsets once a position was read. |
| Postings.ShortRunsAreSafe | src/codec/memory/direct_postings_format.rs:2428-2444 | No legal run over at most 2^30 - 5 documents makes a probe overflow. |
| DirectPostings.NormalRun | src/codec/memory/direct_postings_format.rs:660-676 | Dropping empty payloads from the postings changes the answers to any run only by dropping them there too. |
| DirectPostings.Observe | src/codec/memory/direct_postings_format.rs:648-745 | Encoding a term in the layout its document frequency selects and running any legal calls gives the right answers for its postings, with empty payloads absent in the low layout; only the high layout can fail, exactly where a gallop overflows. |
| ReadBack.ReadAll | src/codec/memory/direct_postings_format.rs:648-745 | Whatever the cutoff, reading a whole term back gives every document, frequency, position, start offset, end offset and payload that was indexed, except that the low layout gives no payload for one that is present but empty. |
| ReadBack.ReadFrom | src/codec/memory/direct_postings_format.rs:2419-2469 | Advancing to any target and reading there gives all that was indexed of the first document at or after it, or nothing if there is none. |
| DirectPostings.CutoffUnobservableIff | src/codec/memory/direct_postings_format.rs:648-745 | What is seen of the two layouts agrees on every legal run that no gallop fails if and only if no payload the cursor shows is present but empty. |
| DirectPostings.ObserveBoth | src/codec/memory/direct_postings_format.rs:648-745 | Observing the same run under any two cutoffs gives equal answers if no payload shown is present but empty and no gallop overflows. |
| DirectPostings.EmptyPayloadDiffers | src/codec/memory/direct_postings_format.rs:660-676 | For every payload that is present but empty, reading up to it is a legal run that no gallop fails and on which the two layouts answer differently. |
| DirectPostings.TellApart | src/codec/memory/direct_postings_format.rs:648-745 | Two cutoffs on either side of the document frequency give different answers to that run. |
| Impacts.FrontierMembers | src/core/codecs/competitive_impact_accumulator.rs:89-118 | A pair is in the list exactly if no other accumulated pair has a frequency no smaller and a norm no larger, where norms of one sign compare as they are and a negative norm is above all others. |
| Impacts.UnsignedOrder | src/core/codecs/competitive_impact_accumulator.rs:120-124 | Comparing norms as unsigned keeps the order of norms of one sign and puts negative ones last. |
| Impacts.FrontierUnique | src/core/codecs/competitive_impact_accumulator.rs:89-118 | The list depends only on the set of accumulated pairs, so neither the order of adding nor splitting over merged accumulators changes it. |
| Impacts.MaxScoreKept | src/core/codecs/competitive_impact_accumulator.rs:23-24 | For every score that no lower frequency and no higher norm raises, in that order of norms, a number is the best score of the list exactly if it is the best score of all accumulated pairs. |
| Impacts.AddEntry | src/core/codecs/competitive_impact_accumulator.rs:120-138 | Adding a pair to the ordered set of competitive pairs gives the ordered set of competitive pairs of all. |
| ImpactAccumulator.TableRecords | src/core/codecs/competitive_impact_accumulator.rs:90-105 | Scanning the 256 frequencies in blocks of 16, skipping blocks below the frontier, gives the competitive pairs among byte norms. |
| ImpactAccumulator.CompetitiveImpactAccumulator.Clear | src/core/codecs/competitive_impact_accumulator.rs:51-57 | Nothing is accumulated afterwards. |
| ImpactAccumulator.CompetitiveImpactAccumulator.Add | src/core/codecs/competitive_impact_accumulator.rs:61-70 | The pair is accumulated, unless its norm fits a byte and its frequency is not positive, which leaves no trace; table and set keep representing what was. |
| ImpactAccumulator.CompetitiveImpactAccumulator.AddAll | src/core/codecs/competitive_impact_accumulator.rs:73-81 | Afterwards the pairs of both are accumulated, and the other one is unchanged. |
| ImpactAccumulator.CompetitiveImpactAccumulator.CopyFrom | src/core/codecs/competitive_impact_accumulator.rs:83-87 | Afterwards exactly the pairs of the other one are accumulated. |
| ImpactAccumulator.CompetitiveImpactAccumulator.GetCompetitiveFreqNormPairs | src/core/codecs/competitive_impact_accumulator.rs:90-118 | After any calls, the list strictly rises in frequency, holds accumulated pairs only, and holds one exactly if no other accumulated pair has a frequency no smaller and a norm no larger, a negative norm being above all others. |
| ImpactAccumulator.CompetitiveImpactAccumulator.AssertConsistent | src/core/codecs/competitive_impact_accumulator.rs:140-151 | The consistency check passes exactly if every accumulated pair outside the byte norms has one of positive frequency among them whose unsigned norm is no larger. |
| ImpactAccumulator.SplitRuns | src/core/codecs/competitive_impact_accumulator.rs:61-118 | However the same pairs are ordered, repeated or split between accumulators merged later, the same list results. |
| Utf8.DecodeEncode | src/core/analysis/reader.rs:353-367 | Decoding at a position where a character's encoding lies gives that character and its length. |
| Utf8.EncodingIff | src/core/analysis/reader.rs:353-367 | The byte sequences that encode a character are exactly the well-formed ones of section 4 of RFC 3629. |
| Utf8.EncodingOrder | src/core/analysis/reader.rs:353-367 | A smaller character has, after some common bytes, a smaller byte; with the well-formed sequences given, no other encoding does that. |
| Utf8.CharAt | src/core/analysis/reader.rs:353-367 | The encoding of a text holds at each character offset that character, and ends after the last. |
| Utf8.BlockChars | src/core/analysis/reader.rs:255-268 | A block of ASCII bytes at a character offset is that many characters, so the offset after it is a character offset again. |
| Utf8.UnitsOfBytes | src/core/analysis/reader.rs:281-289 | The UTF-16 units of some characters are their number and one more for each byte from F0 on among their bytes. |
| StringReader.ReadAsciiRuns | src/core/analysis/reader.rs:293-334 | Groups of 16 read at once or one by one deliver what decoding delivers, with the UTF-16 units counted. |
| StringReader.ReadUtf8 | src/core/analysis/reader.rs:251-291 | Copying an ASCII prefix and decoding the rest delivers what decoding delivers. |
| StringReader.Reader.Read | src/core/analysis/reader.rs:353-367 | Returns the next character, -1 at the end, an error once closed. |
| StringReader.Reader.ReadRangeWithUnits | src/core/analysis/reader.rs:210-249 | Whichever shortcut runs: as many characters as fit are delivered at their place and nothing else is written; the position stays on a character boundary; the units are the characters read and one more for each byte from F0 on among the bytes consumed; closed and out-of-range calls fail and change nothing. |
| StringReader.Reader.Close | src/core/analysis/reader.rs:373-376 | Every later call fails. |
| StringReader.ReadMany | src/core/analysis/reader.rs:222-334 | For any sequence of buffer sizes the pieces delivered join to the next characters of the text, as many as all buffers hold; the units add up to their UTF-16 length, which is their number and one more for each byte from F0 on among the bytes consumed. |
| ByteStreams.BeIntIff | src/core/codecs/codec_util.rs:864-916 | Four bytes are read as an integer exactly if they are what is written for it. |
| ByteStreams.Input.ReadVInt | src/core/store/data_input.rs:171-182 | Reads the variable-length integer at the position, with shifts that wrap at 32 bits, or fails at the end of the file. |
| ByteStreams.Output.WriteVInt | src/core/store/data_output.rs:133-141 | Writes seven bits a byte, lowest first. |
| VariableInts.VIntByte | src/core/store/data_output.rs:133-141 | Byte k of a written number holds its bits from 7 k on, with the high bit set exactly if it is not the last. |
| VariableInts.VIntSize | src/core/store/data_output.rs:133-141 | A number is written in no more bytes than it needs. |
| VariableInts.VIntMeaning | src/core/store/data_input.rs:171-182 | For any bytes: reading ends at the first byte without a high bit and fails exactly if there is none, and a bit of the result is set exactly if some byte sets it at its distance, wrapped at 32. |
| VariableInts.VIntReads | src/core/store/data_input.rs:171-182 | Where the written form of any number below 2^32 lies, that number is read, up to the end of the form. |
| ByteStreams.Input.ReadString | src/core/store/data_input.rs:287-299 | Succeeds exactly where a length and that many bytes lie, and returns them with invalid UTF-8 replaced. |
| VariableInts.StringReads | src/core/store/data_input.rs:287-299 | Where the written form of any string below 2^31 bytes lies, that string is read, up to the end of the form. |
| ByteStreams.Input.SkipTo | src/core/store/buffered_checksum_index_input.rs:167-176 | Moves forward only, and the checksum still covers everything before the position. |
| CodecUtil.WriteHeader | src/core/codecs/codec_util.rs:78-91 | Succeeds exactly for names below 128 bytes, all below 128, and writes as many bytes as header_length says; otherwise writes nothing. |
| CodecUtil.WriteIndexHeader | src/core/codecs/codec_util.rs:129-150 | Succeeds exactly for such a name and a suffix below 256 bytes, all below 128, and writes as many bytes as index_header_length says; a bad suffix is refused after the rest was written. |
| CodecUtil.MagicBytes | src/core/codecs/codec_util.rs:78-150 | The bytes of a header are 3F D7 6C 17, the length of the name, the name, the version big-endian, and for an index header the id, the length of the suffix and the suffix; a footer starts with C0 28 93 E8 and four zeros. |
| CodecUtil.CheckHeader | src/core/codecs/codec_util.rs:210-269 | Accepts exactly the headers of this codec whose version is from min to max, returning that version and stopping right after; a version below min is too old, one above max too new. |
| CodecUtil.CheckIndexHeader | src/core/codecs/codec_util.rs:306-321 | Accepts exactly the index headers of this codec, id and suffix whose version is from min to max, returning that version and stopping right after; a version below min is too old, one above max too new. |
| CodecUtil.CheckIndexHeaderSuffix | src/core/codecs/codec_util.rs:462-491 | Accepts exactly a suffix equal to the expected one, as bytes or once invalid UTF-8 is replaced. |
| CodecUtil.ReadIndexHeader | src/core/codecs/codec_util.rs:390-414 | Succeeds exactly if the file starts with a header of some codec and version and has the bytes that its name, id and suffix need, and returns those bytes. |
| CodecUtil.VerifyAndCopyIndexHeader | src/core/codecs/codec_util.rs:344-382 | Succeeds exactly on a header with the expected id in a file long enough, and appends that header in the writer's form; on failure nothing is written. |
| CodecUtil.WrittenIndexHeaderAt | src/core/codecs/codec_util.rs:129-150 | Wherever the writer's bytes lie in a file, a header of that codec, version, id and suffix is found there. |
| CodecUtil.HeaderRoundTrip | src/core/codecs/codec_util.rs:129-414 | A written header, followed by anything, is accepted exactly for the version ranges that hold its version, which is returned; below the range it is too old, above too new; checking stops at index_header_length, and the header is returned whole by the reader and reproduced by the copier. |
| CodecUtil.WriteFooter | src/core/codecs/codec_util.rs:515-523 | Appends the footer of what was written, unless the checksum has more than 32 bits. |
| CodecUtil.CheckFooter | src/core/codecs/codec_util.rs:546-559 | At any position, accepts exactly if the rest of the file is the footer of what was read. |
| CodecUtil.ChecksumEntireFile | src/core/codecs/codec_util.rs:794-822 | For any checksum function, accepts a byte string exactly if it is some body finished by write_footer, and returns its checksum. |
| CodecUtil.FooterIff | src/core/codecs/codec_util.rs:735-861 | A file ends in the footer of what is before it exactly if its last 16 bytes are the magic, algorithm 0 and, as a big-endian 64-bit integer, the checksum of all bytes before that integer. |
| LiveDocs.FillWord | src/core/codecs/lucene90_live_docs_format.rs:95-106 | A word holds the bits of its 64 documents, fewer in the last word, and the rest of it is clear; the documents not set are counted. |
| LiveDocs.WriteBits | src/core/codecs/lucene90_live_docs_format.rs:88-111 | Writes the packed words and returns how many documents are deleted, for any number of documents. |
| LiveDocs.ReadFixedBitSet | src/core/codecs/lucene90_live_docs_format.rs:79-87 | Reads exactly the words that hold that many bits, if the file has them. |
| LiveDocs.HeldBits | src/core/util/fixed_bit_set.rs:556-569 | The set read back answers every index as the bits written, and is clear past the end. |
| LiveDocs.PackOnes | src/core/util/fixed_bit_set.rs:678-686 | The cardinality of the packed words is the number of bits set. |
| LiveDocs.WriteLiveDocs | src/core/codecs/lucene90_live_docs_format.rs:180-238 | The file is header, words and footer; writing fails if the number of documents that are not set is not the expected one. |
| LiveDocs.ReadLiveDocs | src/core/codecs/lucene90_live_docs_format.rs:117-178 | Accepts exactly the files that consist of the expected header, the words of that many documents, of which the expected number is not set, and right after them the footer; document d of what it returns is bit d % 8 of byte d / 8 after the header. |
| LiveDocs.DocumentBit | src/core/util/fixed_bit_set.rs:556-569 | Document d of words read from a place is bit d % 8 of byte d / 8 from there. |
| LiveDocs.CardinalityIs | src/core/util/fixed_bit_set.rs:678-686 | The cardinality of words read is the number of documents in the set. |
| LiveDocs.WrittenFile | src/core/codecs/lucene90_live_docs_format.rs:180-238 | A written file is such a file for the bits written and exactly their number of deleted documents. |
| LiveDocs.WrittenFileUnique | src/core/codecs/lucene90_live_docs_format.rs:117-178 | It is such a file for no other bits and no other number. |
| LiveDocs.LiveDocsRoundTrip | src/core/codecs/lucene90_live_docs_format.rs:79-238 | Writing and reading back succeeds exactly if the deletion count is right, and gives the same bit at every index and clear bits past the end. |
| MergedTerms.MergedTermsEnum.constructor | src/core/codecs/doc_values_consumer.rs:1246-1256 | Before the first call no sub-enum has moved. |
| MergedTerms.MergedTermsEnum.Next | src/core/codecs/doc_values_consumer.rs:1269-1292 | Moves only the cursor of the first segment of the next global ordinal, to exactly its place there, and yields the term under it; nothing after the last; all advances together stay within the number of segment terms. |
| MergedTerms.NextBehind | src/core/codecs/doc_values_consumer.rs:1278-1291 | No cursor ever passes a place that is still to come, so none overshoots or is exhausted early. |
| MergedTerms.MergedTermsEnum.Term | src/core/codecs/doc_values_consumer.rs:1348-1354 | The term under the cursor of the segment last advanced, which stands where the map says; empty before the first call. |
| MergedTerms.NumberingRises | src/core/codecs/doc_values_consumer.rs:1278-1291 | For sorted segments, any numbering of terms in order has ordinals that rise within each segment. |
| MergedTerms.Merge | src/core/codecs/doc_values_consumer.rs:1259-1292 | Iterating over sorted segments gives every global term once, in order, each the one at the place the map names for it. |
| OrdMapping.MapOldOrdToNewOrd | src/core/codecs/knn_vectors_writer.rs:323-389 | New ids are the mapped ids in ascending order; the tables that are asked for lead from each ordinal to the one with the same document and, if no id repeats, undo each other; with a document set, fails exactly if there is an id to add and the set is finished, an id repeats or is not above those in it, and otherwise adds exactly the new ids. |
| OrdMapping.MutuallyInverse | src/core/codecs/knn_vectors_writer.rs:370-386 | Tables that agree on the documents are inverse permutations if no id repeats. |
| OrdMapping.StrictIff | src/core/codecs/knn_vectors_writer.rs:368-386 | The sorted ids strictly rise exactly if no two documents get the same id. |
| OrdMapping.DocsWithFieldSet.Add | src/core/index/docs_with_field_set.rs:56-82 | Accepts exactly documents above the last one added, and none once the set is finished. |
| TokenFilter.FilteringTokenFilter.IncrementToken | src/core/analysis/filtering_token_filter.rs:73-105 | Over a stream or another filter: stops at the next token that this filter and all below it accept, its increment leading there from the last position, or at the end with all filters together keeping the positions left; fails exactly without a position increment attribute. |
| TokenFilter.FilteringTokenFilter.End | src/core/analysis/filtering_token_filter.rs:107-113 | The final increment is that of the stream plus what all filters kept from the last call. |
| TokenFilter.FilteringTokenFilter.Reset | src/core/analysis/filtering_token_filter.rs:115-119 | The stream starts over and no filter keeps any positions. |
| TokenFilter.Consume | src/core/analysis/filtering_token_filter.rs:73-113 | For every token run and filters nested to any depth, the tokens emitted are those at the places where every filter accepts, in order, at their absolute positions in the unfiltered run; after one false and end the total is the unfiltered total, while further calls after the false lose the positions dropped at the end. |
| TokenFilter.Stacked | src/core/analysis/filtering_token_filter.rs:34-119 | Any number of filters, each driving the one below over shared attributes, emit the same tokens and final increment as one filter by all their conditions, and only tokens that meet each of them. |

## Left out

- The plain terms enumeration with its binary search by term, and the statistics, memory accounting and display of a field.
- The 32-bit width of term offsets, skip offsets and ordinals, and of the midpoint sum in the binary search over labels in `next`.
- Intersect.Intersect: the start term is one the automaton can read, which every accepted start term is.
- Intersect.IntersectEnum.Next: fields without terms, and calls after the enumeration has ended.
- Slots of the state stack that are reused after a pop keep stale range bounds in the source; the model gives such a slot arbitrary bounds.
- Reuse of a cursor object for another term, and calls that the iterator contract forbids.
- StringReader.Reader.ReadRangeWithUnits: the number of characters read is not cut to 32 bits.
- The reader that is reset to new strings, and readers that wrap others.
- The CRC-32 polynomial and the buffering of checksum and file input: a checksum is any function of the bytes.
- ByteStreams.Input.ReadVInt: shift distances are not cut to 32 bits.
- Errors that a footer check adds to or replaces after a failed read; LiveDocs.ReadLiveDocs returns the first error.
- LiveDocs.ReadLiveDocs: which error is returned.
- File names, directories and input or output errors other than the end of a file.
- MergedTerms.MergedTermsEnum.Next: the ordinal map has ordinals that rise within each segment, as the map of the source does; MergedTerms.NumberingRises says when.
- OrdMapping.MapOldOrdToNewOrd: the new ids are sorted by a function on values, not in place.
- The bit set representation of a document set.
- TokenFilter.FilteringTokenFilter.IncrementToken: the accept test looks at the token, not at its position increment; increments are not cut to 32 bits.
- Segment merging, index writing, query execution, similarity formulas, concurrency of the index writer and the other codecs of the repository.
