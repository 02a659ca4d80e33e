# A verified model of libarchive's algorithmic core

This project models the self-contained algorithms of libarchive that carry state and arithmetic, and proves what they
promise. `dafny verify dfyconfig.toml` checks all of it with Dafny 4.11.

How it is laid out, by source file:

- **PPMd7 codec** (`archive_ppmd7.c`). `RangeSpec` says what the 7z range coder computes, in exact arithmetic;
  `RangeLaws` how it divides an interval; `RangeEncoder` is the encoder with its delayed carry, `RangeDecoder` the 7z
  and RAR decoders with their shared normalisation loop; `RangeRoundTrip` ties the two together, and `RangeCodec` runs
  one object's output through the other. `RarRoundTrip` is the round trip of the carryless decoders. `PpmdContext`,
  `SymbolSpec`, `SymbolRoundTrip` and `SymbolCoder` are the symbol coder with escapes and masking over a suffix chain,
  `QuestionLaws` which questions a symbol is coded by, and `EstimatorLaws` what their estimators answer and learn.
  `FrequencySpec` and `FrequencyModel` are the frequency
  updates, `Rescale` and the append loop; `FrequencyLaws` and `LearningLaws` say what they do to every frequency, to
  the order of the states, and to what is remembered of a symbol. `AdaptiveModel` joins coder and updates, so that a
  message survives while both sides learn from it, and `ModelTables` has the tables and the restarted model it all
  starts from. `ContextTree` is the tree of contexts with its successors and text pointers, `ContextTreeLaws` what
  keeps it consistent, up to the round trip of the whole codec, `ContextNames` what its contexts stand for,
  `TreeLearning` what a step does to the frequencies of all of them, and `ContextTreeModel` the same updates in place. `SizeClasses` and `Ppmd7Allocator` are the unit allocator.
- **PPMd8** (`archive_ppmd8.c`). `Ppmd8RangeDecoder` is the carryless decoder with a relative code, proved bisimilar
  to the RAR decoder of PPMd7. `Ppmd8Allocator` is the allocator with counted free lists and a growing text area.
- Both allocators share `Tiling` (blocks that tile the units), `FreeSpace` (lists, blocks in use, blocks held),
  `FreeRuns` (what gluing leaves behind and where it files it) and `InUse` (blocks in use keep size and content).
- **Hardlink resolver** (`archive_entry_link_resolver.c`). `LinkTable` relates bucket lists to a map, `LinkProtocol`
  says what one call does, `LinkRun` what whole runs do, and `LinkResolver` is the structure with its doubly linked
  nodes.
- **BLAKE2s and BLAKE2sp** (`archive_blake2s_ref.c`, `archive_blake2sp_ref.c`). `Blake2sSpec` is the block fold of RFC
  7693 over an opaque compression function; `Blake2s` and `Blake2sp` are the streaming states.
- **Path matcher** (`archive_pathmatch.c`). `PathSpec` has the result of the matcher, the meaning of globs and of
  components, and the laws between them, `PathLaws` what classes and stars mean as they are written; `PathMatch` has
  the backtracking loops.
- **Access control lists** (`archive_acl.c`). `AclSpec` is the list, `AclText` the printed and the parsed form,
  `AclRoundTrip` the round trip, `AclWords` the words, letters and short forms, `AclFields` how loosely an entry
  may be written, and `AclLoneMode` the fields that pass for a mode; `AclPrinter`, `AclParser` and `Acl` are the loops and the list updated in place.
- **Cryptor** (`archive_cryptor.c`). `CipherSpec` and `Cryptor` are counter mode and buffered chaining mode over an
  opaque block cipher; `Utf` is UTF-8 to UTF-16LE.
- `Words`, `Bits` and `Options` hold machine words, bitwise operations and missing values.

Code that changes things step by step is a class or a method with loops, proved equal to a specification function; the
laws are lemmas about those functions. Machine widths are explicit: 32-bit registers wrap around, 16-bit totals are
proved to stay in range, and counters of 64 bits in two words or eight bytes are proved to count modulo 2^64.

What the code does that its comments or its callers might not expect, kept as it is:

- `ismode` leaves the permissions read before a wrong letter behind, and its caller takes them: the test `permset == 0`
  at `libarchive/archive_acl.c:1700` has the mode read again only when there are none. A POSIX.1e entry `other:rq`,
  with a lone field, is therefore accepted as `r`. `AclLoneMode.NoModeTaken` proves it of this entry, and
  `AclLoneMode.LoneMode` that such an entry is accepted if and only if its field consists of mode characters or has a
  permission letter before the first character that is none.
- The text form of a list has no quoting. `AclRoundTrip.RoundTrip` says exactly which lists come back from their text:
  names have no blank and no separator, and name and id say the id. A leading digit does no harm, but a POSIX.1e name
  that is all digits is read as the id (`AclRoundTrip.OtherId`); an NFSv4 one comes back when the id is printed behind
  it (`AclRoundTrip.DigitsKept`). `AclRoundTrip.NotKept` and `AclRoundTrip.NamelessNotKept` have an entry of each kind
  that does not come back.
- `next_field` passes over a newline like any other blank in front of a field. An entry whose last field is empty at the
  end of a line therefore goes on in the next line: `AclFields.EntryIs` has that newline among the blanks in front.
- Copying an access control list onto itself empties it: `Acl.Acl.Copy`.
- `blake2s_final` copies as many bytes as it is asked for from a buffer of 32: `Blake2s.State.Final` says how many lie
  behind it.
- `isint` refuses 2147483647 itself, which is why ids up to INT_MAX-1 round-trip and INT_MAX does not:
  `AclRoundTrip.IdRoundTrip` states both.
- A file with a link count of 0 is tracked by the resolver as waiting for 2^32-1 more links.
- A node of the resolver is grouped by the link count of its first entry only; later counts are never compared.
- An NFSv4 text carries no file mode, so parsing it leaves the nine mode bits of the target alone, which
  `AclRoundTrip.WholeRoundTrip` states for that dialect.
- `MoveUnitsUp` takes a block off a list it has not checked to be empty: an empty list has address 0, below every
  block, so the second half of its test covers that case, and the contract says so.

Assumptions of the allocator models. A block in use has a first word that does not look like a free block's: a nonzero
stamp in PPMd7, not the empty mark in PPMd8. `Valid(but)` names the blocks handed out and not yet written; the client
must write their first word before the next allocation, as the codec does. The memory is at least 2^11 bytes.

## Model

| member | source | states |
|---|---|---|
| `RangeSpec.NarrowBounds` | libarchive/archive_ppmd7.c:1006-1037 | every encode step, symbol or bit, stays inside the interval it starts from and leaves it nonempty, so `Low` never decreases past its upper end |
| `RangeSpec.RunInside` | libarchive/archive_ppmd7.c:1006-1037 | intervals of a run are nested: a code inside the last one is inside every earlier one, whatever was scaled out in between |
| `RangeSpec.RunBelow` | libarchive/archive_ppmd7.c:989-1037 | over a whole run `Low` plus the range stays below 2^32-1 at every scale, so a carry never leaves the first byte |
| `RangeSpec.CodeInside` | libarchive/archive_ppmd7.c:981-1047 | the finished code is exactly the sum of all `Low` increments, lies in the final interval, and its first byte is 0 |
| `RangeLaws.SharesAdjoin` | libarchive/archive_ppmd7.c:1006-1015 | the shares of one total are adjacent and ascending, each as wide as its size says, in the largest units of which the total fits the range |
| `RangeLaws.BitsAdjoin` | libarchive/archive_ppmd7.c:1017-1037 | a zero bit takes the lower part, `size0` units of 2^14, and a one bit all the rest up to the end of the interval |
| `RangeLaws.ScaledLeast` | libarchive/archive_ppmd7.c:1006-1037 | normalising multiplies the interval by the least power of 256 that brings the range to 2^24 |
| `RangeEncoder.Encoder.constructor` | libarchive/archive_ppmd7.c:981-987 | a new encoder has written nothing and stands for the whole interval |
| `RangeEncoder.Encoder.Emit` | libarchive/archive_ppmd7.c:989-1004 | the cached byte and the pending 0xFF run go out with the carry added: the number read from the output grows by exactly that |
| `RangeEncoder.Encoder.ShiftLow` | libarchive/archive_ppmd7.c:989-1004 | delayed carry: output, cache, pending 0xFFs and `Low` together stand for the same exact number, scaled by 256; the cache can absorb the next carry |
| `RangeEncoder.Encoder.Renormalize` | libarchive/archive_ppmd7.c:1006-1037 | the scaling loop shared by the three encode calls is the normalisation of the abstract interval, and ends |
| `RangeEncoder.Encoder.Encode` | libarchive/archive_ppmd7.c:1006-1015 | encoding a symbol takes exactly the step (start, size, total) from the exact interval, carries included |
| `RangeEncoder.Encoder.EncodeBit0` | libarchive/archive_ppmd7.c:1017-1025 | encoding a zero bit takes exactly the lower part of the interval |
| `RangeEncoder.Encoder.EncodeBit1` | libarchive/archive_ppmd7.c:1027-1037 | encoding a one bit takes exactly the upper part |
| `RangeEncoder.Encoder.FlushData` | libarchive/archive_ppmd7.c:1039-1044 | after five shifts the output is the big-endian form of the exact sum, with five more digits than shifts |
| `RangeDecoder.TurnSound` | libarchive/archive_ppmd7.c:781-796 | each turn of the normalisation loop keeps Low + Range at most 2^32 (and Low at least 2^24 if equal), never makes the range zero, and makes progress |
| `RangeDecoder.Renorm` | libarchive/archive_ppmd7.c:781-796 | the loop terminates from every sound state and stops only where it should |
| `RangeDecoder.RenormRange` | libarchive/archive_ppmd7.c:781-796 | after it the bound still holds, and the range is at least 2^15 (RAR) or 2^24 (7z) |
| `RangeDecoder.XorTops` | libarchive/archive_ppmd7.c:781-796 | the exclusive-or test of the loop is the question whether the top bytes of both ends differ |
| `RangeDecoder.DividedFits` | libarchive/archive_ppmd7.c:775-812 | any part of a total that was asked for fits behind the threshold division |
| `RangeDecoder.Decoder.InitCommon` | libarchive/archive_ppmd7.c:750-758 | four bytes are shifted in; all ones is refused |
| `RangeDecoder.Decoder.Init7z` | libarchive/archive_ppmd7.c:760-765 | opens exactly when the first byte is 0 and the code is not all ones |
| `RangeDecoder.Decoder.InitRar` | libarchive/archive_ppmd7.c:767-773 | opens exactly when the code is not all ones, with the 2^15 bottom |
| `RangeDecoder.Decoder.GetThreshold` | libarchive/archive_ppmd7.c:775-779 | the threshold, and the range divided by the total |
| `RangeDecoder.Decoder.Normalize` | libarchive/archive_ppmd7.c:781-796 | the imperative loop computes the specified normalisation, and terminates |
| `RangeDecoder.Decoder.Decode7z` | libarchive/archive_ppmd7.c:798-804 | removing a share and normalising, relative code; leaves a state ready for any total up to 2^24 |
| `RangeDecoder.Decoder.DecodeRar` | libarchive/archive_ppmd7.c:806-812 | the same with an absolute code and the carryless bottom |
| `RangeDecoder.Decoder.DecodeBit7z` | libarchive/archive_ppmd7.c:814-832 | the bit, and the registers after it |
| `RangeDecoder.Decoder.DecodeBitRar` | libarchive/archive_ppmd7.c:834-849 | the bit is 0 if and only if the code lies less than size0 * (range / 2^14) above the low end; the registers after it |
| `RangeDecoder.BitRarIs` | libarchive/archive_ppmd7.c:834-849 | the bit in terms of code, low end and range alone, for every state; a code inside the 2^14 units is inside the share the bit takes |
| `RangeDecoder.ShareHolds` | libarchive/archive_ppmd7.c:775-812 | for any total, the share that holds the threshold holds the code before normalising |
| `RangeRoundTrip.SymbolTracks` | libarchive/archive_ppmd7.c:775-804 | a decoder that stands at the interval of the encoder finds a threshold inside the coded share, and stands at the next interval after decoding it |
| `RangeRoundTrip.BitTracks` | libarchive/archive_ppmd7.c:814-832 | the same for bits: the coded bit comes out |
| `RangeRoundTrip.NormalizeTracks` | libarchive/archive_ppmd7.c:781-796 | encoder and decoder scale together: both read or write the same number of bytes |
| `RangeRoundTrip.RoundTrip` | libarchive/archive_ppmd7.c:750-1047 | for any run of valid symbol and bit steps, flushed: the first byte is 0, the decoder opens, every threshold lies in the coded share and every bit is the coded one |
| `RangeCodec.EncodeAll` | libarchive/archive_ppmd7.c:981-1047 | any run of valid steps through the encoder object, flushed, leaves exactly the code of the run |
| `RangeCodec.DecodeAll` | libarchive/archive_ppmd7.c:750-832 | the decoder object opens on the code of any run, and answers every request with a threshold inside the coded share or with the coded bit |
| `RangeCodec.Transmit` | libarchive/archive_ppmd7.c:750-1047 | one object into the other: for any run the decoder answers what the encoder was given |
| `Words.WordOps` | libarchive/archive_ppmd7.c:989-1037 | the piecewise 32-bit addition, subtraction and shift of the model are those modulo 2^32 |
| `Ppmd8RangeDecoder.Renorm8` | libarchive/archive_ppmd8.c:1146-1160 | the PPMd8 loop terminates from every sound state and stops with a range of at least 2^15 |
| `Ppmd8RangeDecoder.Decoder8.Init` | libarchive/archive_ppmd8.c:1130-1139 | the four bytes read leave the same registers as the RAR decoder, the code being relative |
| `Ppmd8RangeDecoder.Decoder8.Decode` | libarchive/archive_ppmd8.c:1146-1160 | the share is removed and the imperative loop normalises as specified |
| `Ppmd8RangeDecoder.RenormAgrees` | libarchive/archive_ppmd8.c:1146-1160 | normalising the absolute and the relative code commutes with taking the difference |
| `Ppmd8RangeDecoder.RequestAgrees` | libarchive/archive_ppmd8.c:1141-1160 | for any total the range admits, one request gives equal thresholds and keeps the PPMd7 RAR decoder and the PPMd8 decoder in step |
| `Ppmd8RangeDecoder.DecodersAgree` | libarchive/archive_ppmd8.c:1130-1160 | bisimulation: on the same bytes and requests both answer the same thresholds for ever, and both stop at the same request, if any, whose total the range does not admit |
| `Ppmd8RangeDecoder.AllAnswered` | libarchive/archive_ppmd8.c:1130-1160 | no request with a total up to 2^15 ever stops them |
| `RarRoundTrip.SettleFollows` | libarchive/archive_ppmd7.c:781-796 | the carryless normalisation on exact numbers: a narrow interval that crosses a multiple of 2^24 is trimmed at the next multiple of 2^15, and the 32-bit registers follow it |
| `RarRoundTrip.CutFollows` | libarchive/archive_ppmd8.c:1141-1163 | a code inside a share has its threshold inside it, and stands at the share once that is taken |
| `RarRoundTrip.RunHolds` | libarchive/archive_ppmd7.c:781-849 | the intervals of a run of symbols and bits are nested |
| `RarRoundTrip.RoundTrip` | libarchive/archive_ppmd7.c:767-849 | for every run of symbols and bits whose totals the range admits, and every code inside its last interval: the RAR and the PPMd8 decoder open, every threshold lies in the share that was coded, and every bit is the one that was coded |
| `RarRoundTrip.RunReturns` | libarchive/archive_ppmd7.c:767-849 | for every run with totals up to 2^15 there is such a code |
| `PpmdContext.VisibleCount` | libarchive/archive_ppmd7.c:939-950 | masking leaves exactly the difference of the two numbers of symbols |
| `SymbolSpec.NS2IndxBound` | libarchive/archive_ppmd7.c:105-112 | every entry of the table of the counting loop, paired with its count, stays within the 25 rows of estimators |
| `SymbolSpec.ProbStaysInside` | libarchive/archive_ppmd7.c:908-924 | a binary probability stays strictly between 0 and 2^14 through both updates, so a bit step is always valid |
| `SymbolSpec.SeeStaysUsable` | libarchive/archive_ppmd7.c:672-695 | an estimator always answers a positive escape frequency below 2^16 and stays usable through every update |
| `EstimatorLaws.ProbMoves` | libarchive/archive_ppmd_private.h:93-96 | a binary probability moves to the end of its bit by one part in 128 of the distance |
| `EstimatorLaws.MissKeeps` | libarchive/archive_ppmd7.c:50-50 | the start value of an escape share, step by step, from the probability that was missed |
| `EstimatorLaws.BinaryQuestion` | libarchive/archive_ppmd7.c:21-26 | two binary questions share a probability if and only if frequency, kind of the last symbol, size class of the suffix, both symbol flags and sign of the run length agree: the place is written in these digits |
| `EstimatorLaws.RowsGrow` | libarchive/archive_ppmd7.c:105-112 | the row of an estimator: up to three the number itself, then m for m - 2 numbers in a row |
| `EstimatorLaws.EscapeQuestion` | libarchive/archive_ppmd7.c:672-695 | which estimator answers: the dummy one at a context of 256, else the place written in the row and the four comparisons |
| `EstimatorLaws.Asked` | libarchive/archive_ppmd7.c:683-694 | an answer is the sum over 2^shift, rounded down, at least 1; that part leaves the sum, and nothing else changes |
| `EstimatorLaws.Slowed` | libarchive/archive_ppmd_private.h:112-117 | each time the count runs out an estimator doubles its sum and slows down by half, with the same answer, for 3 * 2^shift symbols |
| `EstimatorLaws.Missed` | libarchive/archive_ppmd7.c:1156-1156 | an escape adds the whole total to the sum, in 16 bits |
| `QuestionLaws.EscapeLeads` | libarchive/archive_ppmd7.c:672-694 | where an escape leads: to the first suffix with more symbols, one order less for every context, with the states not ruled out in their order, the estimator of that question, and their sum and its answer for a total; or out of the chain |
| `QuestionLaws.MaskedAsks` | libarchive/archive_ppmd7.c:1095-1157 | every question after an escape, one by one: its context, its shares in frequencies, and what its estimator has learned after it |
| `QuestionLaws.EncodeAsks` | libarchive/archive_ppmd7.c:1049-1157 | every question asked for a byte or the end marker: at MinContext a share of its own total or a bit of one probability, which alone learns; then the questions after escapes, up to the context that knows the symbol or the end of the chain |
| `SymbolSpec.Locate` | libarchive/archive_ppmd7.c:954-964 | the share that covers a count, or the escape exactly when the count is past all frequencies |
| `SymbolSpec.LocateInside` | libarchive/archive_ppmd7.c:956-964 | shares do not overlap |
| `SymbolSpec.LeftFacts` | libarchive/archive_ppmd7.c:930-950 | a larger suffix context has exactly the difference of states left to offer, and their total bounds the range coder needs hold |
| `SymbolSpec.NextStop` | libarchive/archive_ppmd7.c:930-954 | where an escape leads: out of the chain, or to a larger context with an estimator that gives a valid total |
| `SymbolSpec.Climb` | libarchive/archive_ppmd7.c:930-938 | past contexts with nothing new; one step of the order per link |
| `SymbolCoder.Ppmd7.MaskAll` | libarchive/archive_ppmd7.c:903-906 | the character mask holds exactly the symbols ruled out |
| `SymbolCoder.Ppmd7.ClimbSuffixes` | libarchive/archive_ppmd7.c:1115-1123 | the suffix loop reaches the next context with more symbols, or the end, and counts the order |
| `SymbolCoder.Ppmd7.MakeEscFreq` | libarchive/archive_ppmd7.c:672-695 | the estimator picked and its escape frequency are the specified ones |
| `SymbolCoder.Ppmd7.EncodeShare` | libarchive/archive_ppmd7.c:1126-1155 | one pass over the states codes the share of an unmasked symbol, or masks everything and codes the escape, with the exact (start, size, total) |
| `SymbolCoder.Ppmd7.EncodeEscapes` | libarchive/archive_ppmd7.c:1109-1157 | the whole escape loop emits the specified steps and leaves the specified estimators, order and found state |
| `SymbolCoder.Ppmd7.EncodeSymbol` | libarchive/archive_ppmd7.c:1049-1157 | the range encoder advances by exactly the steps of the specification for every byte and the end marker; SEE, binary estimators, flags, order and found state are those of the specified result, with which the update procedure is called |
| `SymbolCoder.Ppmd7.DecodeRound` | libarchive/archive_ppmd7.c:927-973 | one decoder round: threshold, search, and the same estimator update as the encoder |
| `SymbolCoder.Ppmd7.DecodeEscapes` | libarchive/archive_ppmd7.c:925-975 | the decoder escape loop computes the specified result, registers and side state, corrupt data included, and terminates |
| `SymbolCoder.Ppmd7.DecodeSymbol` | libarchive/archive_ppmd7.c:867-975 | a byte, -1 for the end marker or -2 for corrupt data, with the specified registers and side state in all three cases |
| `SymbolRoundTrip.EncodeValid` | libarchive/archive_ppmd7.c:1049-1157 | over a usable chain every step the encoder emits is valid for the range coder |
| `SymbolRoundTrip.EncodeMaskedFinds` | libarchive/archive_ppmd7.c:1109-1157 | what the encoder finds is the symbol it was given; it meets the end marker exactly when no context knows the symbol |
| `SymbolRoundTrip.ShareMirrors` | libarchive/archive_ppmd7.c:952-973 | a mirrored share is located by its threshold, and an escape is recognised as one |
| `SymbolRoundTrip.SymbolMirrors` | libarchive/archive_ppmd7.c:867-1157 | the decoder reaches the result the encoder had: same symbol or end marker, same context, same estimators, flags and order, through every escape |
| `SymbolRoundTrip.FindsItself` | libarchive/archive_ppmd7.c:1049-1157 | with a full root every byte is found as itself and only -1 reaches the end of the chain |
| `SymbolRoundTrip.StreamRoundTrip` | libarchive/archive_ppmd7.c:867-1157 | for every message of bytes and end markers, decoding the flushed code gives back the message, for any update procedure that keeps the model usable |
| `ModelTables.Construct` | libarchive/archive_ppmd7.c:100-115 | the table fills and the counting loop give all 256 entries of the three tables their specified values |
| `ModelTables.FillProbs` | libarchive/archive_ppmd7.c:354-361 | the loops over the binary probabilities, eighth by eighth, give every entry its start value |
| `ModelTables.StartFit` | libarchive/archive_ppmd7.c:324-369 | a restarted model is fit: 256 states of frequency 1 with total 257, estimators and probabilities in range, whatever was there before |
| `ModelTables.StartAnswers` | libarchive/archive_ppmd7.c:324-368 | a restarted estimator of row i answers 5 i + 10 and slows down after four symbols; the order is the full one, and the run of likely symbols counts from zero on after as many of them as the order, at most 12, and one more |
| `ModelTables.StartChances` | libarchive/archive_ppmd7.c:354-360 | a restarted binary probability misses certainty by its start value over one more than the frequency |
| `ModelTables.StartRoundTrip` | libarchive/archive_ppmd7.c:324-1157 | from a restarted model, for every sound choice of the next chain, every message of bytes and end markers comes back from its flushed code |
| `ModelTables.OrderZeroRoundTrip` | libarchive/archive_ppmd7.c:324-1157 | with the root as its only context nothing is left to be chosen, and every message of bytes and end markers comes back while the frequencies adapt |
| `AdaptiveModel.EncodeSensible` | libarchive/archive_ppmd7.c:1049-1157 | what the encoder finds fits the update it goes to: the place of the state, the order counted up once per link climbed, the start value of an escape share from 1 to 25 |
| `AdaptiveModel.UpdateKeepsChain` | libarchive/archive_ppmd7.c:706-746 | an update of one context keeps the whole chain: only at full order may a symbol go, and then no earlier context depends on it |
| `AdaptiveModel.SpreadKeeps` | libarchive/archive_ppmd7.c:459-604 | bumping the suffix and appending to the contexts before keeps every context fit, contained in its suffix, and the root full |
| `LearningLaws.UpdatedLearns` | libarchive/archive_ppmd7.c:706-746 | the update a found symbol goes to leaves the frequencies and the order its law tells |
| `LearningLaws.BinaryLearns` | libarchive/archive_ppmd7.c:731-737 | a single state gains 1 up to 128 |
| `LearningLaws.SpreadLearns` | libarchive/archive_ppmd7.c:459-604 | along the chain: a symbol below 31 is noted in the suffix of its context, every context passed below full order gets it, at the ratio to what the others of its context have, and no other context changes |
| `LearningLaws.Remembered` | libarchive/archive_ppmd7.c:706-746 | what is remembered of a symbol: whether it was coded first of all with more than half the total, or alone, the length of the run of such symbols, and the kind of the symbol before it |
| `AdaptiveModel.LearnKeeps` | libarchive/archive_ppmd7.c:459-746 | everything the model learns from a coded symbol or end marker keeps it fit |
| `AdaptiveModel.AdaptiveRoundTrip` | libarchive/archive_ppmd7.c:459-1157 | coder and frequency updates together: from a fit model, for every choice of successors that goes from fit models to fit models, every message of bytes and end markers comes back from its flushed code |
| `ContextTreeLaws.GatherIs` | libarchive/archive_ppmd7.c:390-412 | the suffixes gathered share one place in the text, and the next one leads to a context the text goes on from, as many orders lower as there are states gathered |
| `ContextTreeLaws.SearchFinds` | libarchive/archive_ppmd7.c:398-429 | the two searches of `CreateSuccessors` never run past their context: every suffix has the symbol found, and the context below has the symbol read from the text, inside the text; the states gathered fit the array of the maximal order |
| `ContextTreeLaws.UpFreqFits` | libarchive/archive_ppmd7.c:417-430 | the frequency a new context takes from its suffix is from 1 to 128 |
| `LearningLaws.UpFreqLearns` | libarchive/archive_ppmd7.c:417-430 | the frequency a new context takes from its suffix: 1 up to a fifth of what the others have, from then on 2 and the ratio to the nearest; a single state hands its own down |
| `ContextTreeLaws.CreatesTurn` | libarchive/archive_ppmd7.c:380-450 | `CreateSuccessors` always finds its base, and makes one context above the other for exactly the states gathered |
| `ContextTreeLaws.MovesSane` | libarchive/archive_ppmd7.c:459-604 | a step keeps the tree: every context fit and contained in its suffix, depths within the order, every successor a context one order higher, or a place behind which its text goes on just as its suffix says |
| `ContextTreeLaws.Stays` | libarchive/archive_ppmd7.c:459-604 | what the text says from a place on stays true while contexts grow, places become contexts and the text gets longer |
| `ContextTreeLaws.CurMoves` | libarchive/archive_ppmd7.c:697-704 | at full order the model may move to any context, as no place at the end of the text is open then |
| `ContextTreeLaws.AdvanceArrives` | libarchive/archive_ppmd7.c:495-537 | every way through the middle of `UpdateModel` ends at a context, and OrderFall is what that one lacks to the full order |
| `ContextTreeLaws.UpdateFits` | libarchive/archive_ppmd7.c:459-606 | unless memory runs out, an update is a step through the tree: the contexts passed learn the symbol with their successor, the gathered states lead to new contexts of one state, everything else stays; the text grows by the symbol, except from full order, or when the order becomes full with contexts passed |
| `ContextTreeLaws.StepKeeps` | libarchive/archive_ppmd7.c:459-746 | every update, with successors, text, frequencies and the restart when memory runs out, keeps the model fit |
| `TreeLearning.SpreadTaught` | libarchive/archive_ppmd7.c:459-604 | along the chain, by frequencies looked up by symbol: what is learned where the symbol was found, in its suffix, in every context passed, and that all others stay |
| `TreeLearning.UpdateAlong` | libarchive/archive_ppmd7.c:459-606 | `UpdateModel` writes the contexts of the path as the chain learned, no other old one, and new ones of one state |
| `TreeLearning.StepLearns` | libarchive/archive_ppmd7.c:459-746 | every step of the model, memory permitting: the found context, its suffix and those passed learn as their laws say, the others on and off the path stay, new contexts take their frequency from below, and the side state notes the symbol |
| `ContextTreeLaws.TreeRoundTrip` | libarchive/archive_ppmd7.c:324-1157 | the codec with its context tree: from a restarted model of any order, for every behaviour of the memory, every message of bytes, with or without an end marker, comes back from its flushed code |
| `ContextNames.StepNamed` | libarchive/archive_ppmd7.c:459-746 | after every symbol each context keeps its name, the new ones get theirs, and MinContext is named by the last symbols coded; unless memory runs out no context is lost |
| `ContextNames.MinContextNamed` | libarchive/archive_ppmd7.c:324-746 | from a restarted model, for every memory: after any bytes MinContext is the context named by the last of them, as many as the full order less OrderFall, and every successor and suffix in the tree is named accordingly |
| `ContextTreeModel.Model.constructor` | libarchive/archive_ppmd7.c:371-378 | a new model is the restarted one |
| `ContextTreeModel.Model.RestartModel` | libarchive/archive_ppmd7.c:324-369 | the root alone with all symbols, an empty text, and the side state of a start |
| `ContextTreeModel.Model.GatherUp` | libarchive/archive_ppmd7.c:382-412 | the loop up the suffixes gathers what the specification does, and stops where it does |
| `ContextTreeModel.Model.CreateSuccessors` | libarchive/archive_ppmd7.c:380-450 | both loops in place give the contexts and the result specified |
| `ContextTreeModel.Model.NoteSuffix` | libarchive/archive_ppmd7.c:465-493 | the suffix of MinContext is bumped, unless the found state is frequent |
| `ContextTreeModel.Model.AppendLoop` | libarchive/archive_ppmd7.c:539-604 | the loop from MaxContext to MinContext changes exactly the contexts passed |
| `ContextTreeModel.Model.UpdateModel` | libarchive/archive_ppmd7.c:459-605 | `UpdateModel` in place is the specified one, ends where MinContext and MaxContext are the same, and keeps the model fit |
| `ContextTreeModel.Model.NextContext` | libarchive/archive_ppmd7.c:697-704 | the next context at full order, or the update |
| `ContextTreeModel.Model.Update` | libarchive/archive_ppmd7.c:706-746 | Update1, Update1_0, UpdateBin and Update2 with the calls that end them: the model is the one after a step |
| `SizeClasses.SmallestClass` | libarchive/archive_ppmd7.c:93-98 | the class of a number of units is the smallest one that is large enough |
| `SizeClasses.SplitRemainder` | libarchive/archive_ppmd7.c:165-175 | a number that is no class size splits into one class below it and a remainder of at most three units that is a class size |
| `SizeClasses.Construct` | libarchive/archive_ppmd7.c:93-98 | the table loops give every class and every unit count its specified entry |
| `FrequencySpec.SortDescSorted` | libarchive/archive_ppmd7.c:625-641 | the insertion in `Rescale` sorts by descending frequency and permutes |
| `FrequencySpec.TrimKeepsExactly` | libarchive/archive_ppmd7.c:643-649 | the states left are exactly those with a positive frequency |
| `FrequencySpec.OnlyOneLeft` | libarchive/archive_ppmd7.c:643-662 | a single state is left only when all others had frequency 1 and the order fall was 0 |
| `FrequencySpec.RescaleKeeps` | libarchive/archive_ppmd7.c:608-670 | after rescaling: distinct symbols, frequencies 1 to 66 in descending order, the found state first, exactly the states halved to zero gone, the total strictly above the sum and below 2^16; with a nonzero order fall nothing is dropped |
| `FrequencySpec.FirstKeeps` | libarchive/archive_ppmd7.c:721-729 | `Update1_0` keeps a context fit: distinct symbols, 1 <= Freq <= 124, `SummFreq` above the sum; the found symbol stays |
| `FrequencySpec.LaterKeeps` | libarchive/archive_ppmd7.c:706-719 | the same for `Update1`, whether or not the state passes the one before it |
| `FrequencySpec.EscapedKeeps` | libarchive/archive_ppmd7.c:739-746 | the same for `Update2` |
| `FrequencyLaws.FirstLearns` | libarchive/archive_ppmd7.c:608-670 | `Update1_0` symbol by symbol: up to 124 the found symbol and the total gain 4 and all others stay; past it the found symbol gets (f + 8 + adder) / 2, all others (f + adder) / 2, and total less sum is half, rounded up, of the old escape share and the dropped states; a single state left is halved as often as the escape share is |
| `FrequencyLaws.LaterLearns` | libarchive/archive_ppmd7.c:608-719 | the same of `Update1` |
| `FrequencyLaws.EscapedLearns` | libarchive/archive_ppmd7.c:608-746 | the same of `Update2` |
| `FrequencyLaws.FirstPlaces` | libarchive/archive_ppmd7.c:608-729 | the order after `Update1_0`: as it was, or past the limit the found state first and the others by descending frequency, equal ones in their old order |
| `FrequencyLaws.LaterPlaces` | libarchive/archive_ppmd7.c:608-719 | the order after `Update1`: the found state passes the one before it if and only if it has more now |
| `FrequencyLaws.EscapedPlaces` | libarchive/archive_ppmd7.c:608-746 | the order after `Update2` |
| `FrequencyLaws.SortStable` | libarchive/archive_ppmd7.c:625-641 | the insertion in `Rescale` keeps the order of equal frequencies |
| `FrequencySpec.SuffixKeeps` | libarchive/archive_ppmd7.c:465-493 | the bump of the same symbol in the suffix context keeps that context fit and its set of symbols |
| `FrequencyLaws.SuffixLearns` | libarchive/archive_ppmd7.c:465-493 | in the suffix a frequency below 115 gains 2, with the total, a single one below 32 gains 1, all others stay, and the symbol passes the one before it when it has as many |
| `FrequencySpec.AppendKeeps` | libarchive/archive_ppmd7.c:545-603 | appending an absent symbol keeps a context fit, its total below 2^16, and adds exactly that symbol |
| `FrequencyLaws.AppendLearns` | libarchive/archive_ppmd7.c:545-603 | an appended symbol gets one more for each of the ratios 1, 4, 6, 9, 12 and 15 it reaches, the total at least 3; all other states stay, one that was alone doubled or set to 120 |
| `FrequencySpec.AppendKeepsChain` | libarchive/archive_ppmd7.c:541-604 | the whole append loop keeps every context of the chain fit and contained in its suffix |
| `FrequencySpec.KeptChainUsable` | libarchive/archive_ppmd7.c:459-746 | a chain of fit contexts with a full root is one the symbol coder can use |
| `FrequencySpec.AbsentMeansRoom` | libarchive/archive_ppmd7.c:541-604 | an absent byte leaves room for another state |
| `FrequencyModel.CapacityGrows` | libarchive/archive_ppmd7.c:547-552 | one state more needs another block exactly when the count is even and the class changes |
| `FrequencyModel.InsertState` | libarchive/archive_ppmd7.c:631-639 | the in-place shift inserts one state into the sorted part |
| `FrequencyModel.MoveToFront` | libarchive/archive_ppmd7.c:613-618 | the shifting loop rotates the found state to the front |
| `FrequencyModel.Ppmd7Model.HalveAndSort` | libarchive/archive_ppmd7.c:619-641 | the array is sorted from the halved states, and both running totals are the sums they should be |
| `FrequencyModel.Ppmd7Model.CountKept` | libarchive/archive_ppmd7.c:643-649 | the loop from the end counts exactly the states that are left |
| `FrequencyModel.Ppmd7Model.Rescale` | libarchive/archive_ppmd7.c:608-670 | `Rescale` in place is the specified rescaling, including the collapse to a single state |
| `FrequencyModel.Ppmd7Model.Update1First` | libarchive/archive_ppmd7.c:721-729 | `Update1_0` in place up to the choice of the next context, with its flag and run length |
| `FrequencyModel.Ppmd7Model.Update1Later` | libarchive/archive_ppmd7.c:706-719 | `Update1` in place up to the choice of the next context, with the swap and a possible rescaling |
| `FrequencyModel.Ppmd7Model.Update2` | libarchive/archive_ppmd7.c:739-746 | `Update2` in place up to its call of `UpdateModel` |
| `FrequencyModel.Ppmd7Model.UpdateBin` | libarchive/archive_ppmd7.c:731-737 | up to the choice of the next context: the single state gains one up to 128; flag and run length |
| `FrequencyModel.Ppmd7Model.BumpSuffix` | libarchive/archive_ppmd7.c:465-493 | the suffix state is swapped up when it caught up and gets two more unless close to the limit |
| `FrequencyModel.AppendState` | libarchive/archive_ppmd7.c:543-603 | one turn of the append loop: room is made, totals are widened, the new frequency follows the source |
| `FrequencyModel.AppendToChain` | libarchive/archive_ppmd7.c:541-604 | the loop from MaxContext to MinContext appends to exactly those contexts and touches no other |
| `FrequencyModel.Ppmd7Model.AppendFound` | libarchive/archive_ppmd7.c:539-604 | the end of `UpdateModel` for an absent symbol: every context up to MinContext learns it and the chain stays valid |
| `Tiling.BlocksDisjoint` | libarchive/archive_ppmd7.c:152-314 | blocks never overlap |
| `Tiling.AllUnits` | libarchive/archive_ppmd7.c:152-314 | blocks tile: every unit of the area belongs to exactly one block |
| `FreeSpace.InsertSound` | libarchive/archive_ppmd7.c:152-156 | putting a block of the right size at the head of a list keeps all lists, sizes and homes consistent |
| `FreeSpace.RemoveSound` | libarchive/archive_ppmd7.c:158-163 | the head of a list comes off, has the size of its class and is neither in use nor elsewhere |
| `FreeSpace.CutSound` | libarchive/archive_ppmd7.c:165-175 | cutting a held block conserves its units |
| `FreeSpace.JoinSound` | libarchive/archive_ppmd7.c:218-227 | joining neighbours conserves their units |
| `FreeSpace.UnlinkSound` | libarchive/archive_ppmd8.c:325-337 | taking a node out of the middle of a list keeps the rest |
| `FreeSpace.UnitsAccounted` | libarchive/archive_ppmd8.c:542-549 | the units of the area are those of blocks in use plus, class by class, list length times class size |
| `InUse.KeepsLive` | libarchive/archive_ppmd7.c:152-314 | an operation that writes only to blocks not in use keeps every block in use, its size and its content |
| `FreeRuns.StartTidy` | libarchive/archive_ppmd8.c:152-184 | when nothing is listed and no free block has a free one behind it, all is tidy |
| `FreeRuns.FiledTidy` | libarchive/archive_ppmd8.c:185-201 | putting a glued block back in pieces makes no run of three free blocks but those that start with 128 units |
| `FreeRuns.FiledRows` | libarchive/archive_ppmd8.c:190-194 | what is more than 128 units goes to the last list in pieces of 128, from the start of the block on |
| `FreeRuns.FiledParts` | libarchive/archive_ppmd8.c:195-200 | the rest is one piece of the largest class that is not larger, at its start, and, if that is not all, one of the at most three units behind it |
| `Ppmd8Allocator.Allocator8.constructor` | libarchive/archive_ppmd8.c:353-383 | the restarted memory: seven eighths in units, the order-0 context and its states in use, everything tiled |
| `Ppmd8Allocator.Allocator8.InsertNode` | libarchive/archive_ppmd8.c:117-124 | list head, mark and stamp count change together |
| `Ppmd8Allocator.Allocator8.RemoveNode` | libarchive/archive_ppmd8.c:126-132 | the head of the list comes off and the stamp count goes down by one |
| `Ppmd8Allocator.Allocator8.InsertUnits` | libarchive/archive_ppmd8.c:134-144 | a block goes to the head of the list of its size, or in two parts to the heads of two lists, the larger part first; exactly those lists change and nothing outside the block is written |
| `Ppmd8Allocator.Allocator8.SplitBlock` | libarchive/archive_ppmd8.c:134-144 | the tail goes to the lists, the rest keeps its place |
| `Ppmd8Allocator.Allocator8.Absorb` | libarchive/archive_ppmd8.c:168-178 | a free block swallows all free blocks right behind it: afterwards what is behind it is not free; blocks in use keep size and content |
| `Ppmd8Allocator.Allocator8.CollectFree` | libarchive/archive_ppmd8.c:152-182 | first half of gluing: all lists and stamps become empty, all free blocks are chained, no free block has a free one behind it, nothing in use changes |
| `Ppmd8Allocator.Allocator8.FileBlock` | libarchive/archive_ppmd8.c:185-201 | a glued block goes back in pieces of 128 units to the last list and a remainder to the lists of its class or classes; exactly those lists change |
| `Ppmd8Allocator.Allocator8.GlueFreeBlocks` | libarchive/archive_ppmd8.c:146-202 | terminates; the set of free units and all blocks in use are the same before and after, every invariant holds again, and of three free blocks in a row the first always has 128 units |
| `Ppmd8Allocator.Allocator8.AllocUnitsRare` | libarchive/archive_ppmd8.c:204-228 | a block of the class asked for, disjoint from all others in use: the head of the next list that has one, what is left of it going back to the lists, or units from the end of the text area; none only when neither is there |
| `Ppmd8Allocator.Allocator8.AllocUnits` | libarchive/archive_ppmd8.c:230-243 | the head of the list of the class, else units from the low end of the gap, else as above; failing only when none of them can serve |
| `Ppmd8Allocator.Allocator8.AllocContext` | libarchive/archive_ppmd8.c:684-694 | one unit: from the high end of the gap, else the head of the first list, else as above |
| `Ppmd8Allocator.Allocator8.CopyUnits` | libarchive/archive_ppmd8.c:245-252 | unit by unit, nothing else written |
| `Ppmd8Allocator.Allocator8.ShrinkUnits` | libarchive/archive_ppmd8.c:254-269 | the content survives in a block of the smaller class, the head of its list if there is one, otherwise the same block; where the old block or its tail goes, and that blocks in use are untouched |
| `Ppmd8Allocator.Allocator8.FreeUnits` | libarchive/archive_ppmd8.c:271-274 | a block given up is at the head of the list of its class; the other lists and all sizes stay |
| `Ppmd8Allocator.Allocator8.SpecialFreeUnit` | libarchive/archive_ppmd8.c:276-287 | a unit at the start of the units moves that start and leaves the lists alone; any other goes to the head of the first list |
| `Ppmd8Allocator.Allocator8.MoveUnitsUp` | libarchive/archive_ppmd8.c:289-302 | moves exactly when the block is near the text area and a listed block lies not below it; content survives, and the start of the units moves by the block when it was there |
| `Ppmd8Allocator.Allocator8.Unlink` | libarchive/archive_ppmd8.c:328-335 | one marked node leaves its list wherever it stands, and the stamp count follows |
| `Ppmd8Allocator.Allocator8.TrimList` | libarchive/archive_ppmd8.c:322-338 | after the loop over one list exactly the marked nodes are gone, in order |
| `Ppmd8Allocator.Allocator8.ExpandTextArea` | libarchive/archive_ppmd8.c:304-339 | exactly the maximal run of free blocks at the start of the units leaves the lists, in each list the others stay in order, and no block in use changes |
| `Ppmd8Allocator.Allocator8.GetUsedMemory` | libarchive/archive_ppmd8.c:542-549 | the result is the text bytes plus the bytes of the blocks in use |
| `Ppmd8Allocator.Allocator8.Store` | libarchive/archive_ppmd8.c:695-698 | the client writes a unit of a block in use: every invariant is kept, and a first word that is no empty mark makes the block a written one |
| `Ppmd8Allocator.Allocator8.AppendText` | libarchive/archive_ppmd8.c:860-860 | one more byte of text never passes the units; the restart is reported exactly when the text has come to them, and until then every invariant holds again |
| `Ppmd7Allocator.Allocator7.constructor` | libarchive/archive_ppmd7.c:324-344 | the restarted memory: areas, order-0 context and its states, everything tiled, all lists empty |
| `Ppmd7Allocator.Allocator7.InsertNode` | libarchive/archive_ppmd7.c:152-156 | only the link of the node is written |
| `Ppmd7Allocator.Allocator7.RemoveNode` | libarchive/archive_ppmd7.c:158-163 | the head of a list that is not empty comes off |
| `Ppmd7Allocator.Allocator7.InsertUnits` | libarchive/archive_ppmd7.c:165-175 | a block goes to the head of the list of its size, or in two parts to the heads of two lists, the larger part first; exactly those lists change |
| `Ppmd7Allocator.Allocator7.SplitBlock` | libarchive/archive_ppmd7.c:165-175 | the tail goes to the lists, the rest keeps its place; units are conserved |
| `Ppmd7Allocator.Allocator7.CollectFree` | libarchive/archive_ppmd7.c:186-211 | all lists are emptied into a doubly linked ring that holds exactly the free blocks |
| `Ppmd7Allocator.Allocator7.Unring` | libarchive/archive_ppmd7.c:224-225 | a swallowed node leaves the ring, its neighbours linked to each other |
| `Ppmd7Allocator.Allocator7.Absorb` | libarchive/archive_ppmd7.c:216-227 | a block swallows its free successors: afterwards what is behind it is not free, or both together would not fit 16 bits |
| `Ppmd7Allocator.Allocator7.JoinAll` | libarchive/archive_ppmd7.c:213-229 | the pass over the ring terminates although nodes leave it, changes nothing in use, and leaves behind every free block one in use, or one with which it would not fit 16 bits |
| `Ppmd7Allocator.Allocator7.FileBlock` | libarchive/archive_ppmd7.c:231-246 | a glued block goes back in pieces of 128 units to the last list and a remainder to the lists of its class or classes; exactly those lists change |
| `Ppmd7Allocator.Allocator7.GlueFreeBlocks` | libarchive/archive_ppmd7.c:177-247 | terminates; the set of free units and all blocks in use are the same before and after, every invariant holds again, and of three free blocks in a row the first has 128 units, except within 2^16 or more free units in a row, which 16 bits cannot count |
| `Ppmd7Allocator.Allocator7.AllocUnitsRare` | libarchive/archive_ppmd7.c:249-273 | a block of the class asked for, disjoint from all others in use: the head of the next list that has one, what is left of it going back to the lists, or units from the end of the text area; none only when neither is there |
| `Ppmd7Allocator.Allocator7.AllocUnits` | libarchive/archive_ppmd7.c:275-288 | the head of the list of the class, else units from the low end of the gap, else as above; failing only when none of them can serve |
| `Ppmd7Allocator.Allocator7.AllocContext` | libarchive/archive_ppmd7.c:431-441 | one unit: from the high end of the gap, else the head of the first list, else as above |
| `Ppmd7Allocator.Allocator7.ShrinkUnits` | libarchive/archive_ppmd7.c:299-316 | the content survives in a block of the smaller class, the head of its list if there is one, otherwise the same block; where the old block or its tail goes, and that blocks in use are untouched |
| `Ppmd7Allocator.Allocator7.GiveBack` | libarchive/archive_ppmd7.c:561-564 | a block given up is at the head of the list of its class; the other lists and all sizes stay, and only it leaves the blocks in use |
| `Ppmd7Allocator.Allocator7.Store` | libarchive/archive_ppmd7.c:442-444 | the client writes a unit of a block in use: every invariant is kept, and a first word that is no free mark makes the block a written one |
| `Ppmd7Allocator.Allocator7.AppendText` | libarchive/archive_ppmd7.c:507-513 | one more byte of text never passes the units; the restart is reported exactly when the text has come to them, and until then every invariant holds again |
| `Ppmd7Allocator.RingDelete` | libarchive/archive_ppmd7.c:224-225 | unlinking node k of a ring gives the ring without it |
| `Bits.MaskIsMod` | libarchive/archive_entry_link_resolver.c:274-328 | masking a hash with a power of two less one is the remainder, so a bucket index is in range |
| `LinkTable.LookupIs` | libarchive/archive_entry_link_resolver.c:274-328 | looking a (dev, ino) up in its bucket is looking it up in the map |
| `LinkTable.HashShows` | libarchive/archive_entry_link_resolver.c:297-298 | hash and one of the two numbers give the other: it is their exclusive or |
| `LinkTable.PrependRefines` | libarchive/archive_entry_link_resolver.c:369-407 | a new node at the front of its bucket is a new key of the map |
| `LinkTable.ChangeRefines` | libarchive/archive_entry_link_resolver.c:274-328 | counting a link down changes the one key |
| `LinkTable.RemoveRefines` | libarchive/archive_entry_link_resolver.c:274-328 | taking a node out removes the one key |
| `LinkTable.GrowRefines` | libarchive/archive_entry_link_resolver.c:409-443 | doubling the buckets changes no lookup |
| `LinkProtocol.MatchRefines` | libarchive/archive_entry_link_resolver.c:172-272 | a tracked entry takes one turn with the node of its key; no other key is touched |
| `LinkProtocol.DrainRefines` | libarchive/archive_entry_link_resolver.c:330-367 | draining takes exactly one held node out and returns its entry, or nothing is held |
| `LinkRun.WholeProject` | libarchive/archive_entry_link_resolver.c:172-367 | seen through one (dev, ino), a whole interleaved run is the run of that key alone |
| `LinkRun.GroupLaw` | libarchive/archive_entry_link_resolver.c:172-367 | for every run followed by draining, the entries of each key come back group by group, as many as the first one has links: with new cpio all but the last have their size unset, with tar all but the first, and with mtree none; the hardlink is the first pathname, id, pathname, links, type, device and inode number are as they were, and the last (new cpio) or first one is unchanged |
| `LinkRun.PassesThrough` | libarchive/archive_entry_link_resolver.c:188-196 | a call leaves the table alone if and only if the entry has one link, is a directory or a device, or has no device or inode number, and then returns it as it is |
| `LinkRun.LinkifyConserves` | libarchive/archive_entry_link_resolver.c:172-272 | one call: what comes in is returned or held, what was held is returned or still held |
| `LinkRun.ConservationLaw` | libarchive/archive_entry_link_resolver.c:172-367 | over any run followed by draining every entry object is returned exactly as often as it was passed in |
| `LinkRun.StartRefines` | libarchive/archive_entry_link_resolver.c:99-119 | a new table of 1024 buckets is the empty map |
| `LinkResolver.Detach` | libarchive/archive_entry_link_resolver.c:353-359 | unlinking a node of a doubly linked chain leaves the chain without it and all links consistent |
| `LinkResolver.Attach` | libarchive/archive_entry_link_resolver.c:397-403 | linking a node in at the front |
| `LinkResolver.Resolver.constructor` | libarchive/archive_entry_link_resolver.c:99-119 | an empty, well-formed table |
| `LinkResolver.Resolver.FindEntry` | libarchive/archive_entry_link_resolver.c:274-328 | finds the node of the key exactly when the table has one, counts its links down, and takes it out at zero |
| `LinkResolver.Resolver.NextEntry` | libarchive/archive_entry_link_resolver.c:330-367 | the first node of the mode wanted, bucket by bucket, leaves the table; nothing when there is none |
| `LinkResolver.Resolver.InsertEntry` | libarchive/archive_entry_link_resolver.c:369-407 | the table with the new node at the front of its bucket, grown when twice too full; `number_entries` is right |
| `LinkResolver.Resolver.MoveBucket` | libarchive/archive_entry_link_resolver.c:424-438 | every node of a bucket moves to the bucket of its hash in the larger table |
| `LinkResolver.Resolver.GrowHash` | libarchive/archive_entry_link_resolver.c:409-443 | the pointer structure after growing is the specified table of twice the size; it is unchanged when that size does not fit |
| `LinkResolver.Resolver.MatchTar` | libarchive/archive_entry_link_resolver.c:199-226 | tar and mtree: a name seen before becomes a hardlink to the first |
| `LinkResolver.Resolver.MatchCpio` | libarchive/archive_entry_link_resolver.c:230-267 | new cpio: a name is held back until the next or the last one of its file comes |
| `LinkResolver.Resolver.LinkifyEntry` | libarchive/archive_entry_link_resolver.c:172-272 | one call on the linked structure is one call of the specified protocol |
| `LinkResolver.Resolver.Process` | libarchive/archive_entry_link_resolver.c:172-367 | a client run (all entries, then draining) returns what the specified run returns, so the group and conservation laws hold of it |
| `Blake2sSpec.SequentialStart` | libarchive/archive_blake2s_ref.c:95-115 | sequential hashing starts from the initialization vector with 0x01010000, the key length shifted by a byte and the digest length taken into the first word by exclusive or, and the seven others as they are: section 3.3 of RFC 7693 |
| `Blake2sSpec.ParamBlock` | libarchive/archive_blake2.h:92-106 | the 32 bytes of the parameter block, by their places, and the eight words taken in from them; node offset, node depth and inner length of a tree included |
| `Blake2sSpec.DigestWord` | libarchive/archive_blake2s_ref.c:259-262 | bytes 4 i to 4 i + 3 of a digest are word i of the final chain value, least significant first |
| `Blake2sSpec.HashFromFront` | libarchive/archive_blake2s_ref.c:207-265 | hashing block by block from the front, as section 3.3 of RFC 7693 writes the loop, gives the digest |
| `Blake2sSpec.CountOn` | libarchive/archive_blake2s_ref.c:63-67 | low word, carry and high word together count bytes modulo 2^64 |
| `Blake2sSpec.BlockAt` | libarchive/archive_blake2s_ref.c:216-265 | all blocks but the last are plain slices; the last is zero-padded |
| `Blake2sSpec.BlocksGrow` | libarchive/archive_blake2s_ref.c:216-241 | blocks known not to be the last stay the same when data is added |
| `Blake2s.State.IncrementCounter` | libarchive/archive_blake2s_ref.c:63-67 | if the two words hold a count modulo 2^64, they hold the increased one |
| `Blake2s.State.CompressMost` | libarchive/archive_blake2s_ref.c:221-236 | the filled buffer and whole blocks are compressed, never the last bytes |
| `Blake2s.State.Update` | libarchive/archive_blake2s_ref.c:216-241 | any input in any pieces: the state is that of the concatenated data |
| `Blake2s.State.Final` | libarchive/archive_blake2s_ref.c:243-265 | the digest is the block fold of section 3.3 of RFC 7693 over all data, and its bytes hold the words of the final chain value, least significant byte first; a second call or too little room fails; of more than 32 bytes asked for, those beyond 32 would be copied from behind the digest |
| `Blake2s.Init` | libarchive/archive_blake2s_ref.c:95-115 | fails exactly on a bad digest length |
| `Blake2s.InitKey` | libarchive/archive_blake2s_ref.c:117-148 | fails exactly on bad lengths; a key acts as a zero-padded first block |
| `Blake2s.OneShot` | libarchive/archive_blake2s_ref.c:267-292 | the one-call function is the specified hash |
| `Blake2s.HashChunks` | libarchive/archive_blake2s_ref.c:216-265 | for every split into updates, keyed or not, the digest is that of the whole message |
| `Blake2sp.StripesAppend` | libarchive/archive_blake2sp_ref.c:135-184 | whole stripes can be passed on before the rest |
| `Blake2sp.StripeByte` | libarchive/archive_blake2sp_ref.c:135-213 | leaf i is fed, as its block k, exactly block 8k+i of the message, byte by byte |
| `Blake2sp.TreeLaw` | libarchive/archive_blake2sp_ref.c:38-78 | the tree, spelt out: leaf i has offset i, fanout 8, depth 2 and inner length 32, the root node depth 1; leaf 7 and the root are marked last; the root is fed the leaf digests in order |
| `Blake2sp.Init` | libarchive/archive_blake2sp_ref.c:80-133 | fails exactly on bad lengths; eight leaves and a root with the parameters of the tree |
| `Blake2sp.FeedKey` | libarchive/archive_blake2sp_ref.c:121-130 | every leaf gets the padded key as its first block |
| `Blake2sp.State.Update` | libarchive/archive_blake2sp_ref.c:135-184 | any input in any pieces: leaves and buffer are those of the concatenated message |
| `Blake2sp.State.FinishLeaves` | libarchive/archive_blake2sp_ref.c:195-207 | each leaf gets its part of the last stripe |
| `Blake2sp.State.Final` | libarchive/archive_blake2sp_ref.c:186-213 | the tree hash of the whole message |
| `Blake2sp.OneShot` | libarchive/archive_blake2sp_ref.c:216-291 | the unbuffered one-call function is the same tree hash |
| `Blake2sp.HashChunks` | libarchive/archive_blake2sp_ref.c:101-213 | for every split into updates, keyed or not, the digest is the one of a single call |
| `PathSpec.SkipComponents` | libarchive/archive_pathmatch.c:153-160 | skipping slashes and dots leaves the rest of the path from a real component on, or nothing, and drops none |
| `PathSpec.GlobLaw` | libarchive/archive_pathmatch.c:171-325 | for every pattern whose stars nest no deeper than 100, every subject and both end anchors: 1 exactly when the subject splits into pieces the pattern elements match, otherwise 0, never -1; a star takes any string, slashes included, with something left behind it, and a slash takes all slashes and single dots |
| `PathSpec.PartsGlob` | libarchive/archive_pathmatch.c:420-431 | unanchored at the start, the answer is 1 exactly when the pattern matches from the beginning, unless a slash is there, or from behind some slash |
| `PathSpec.PathLaw` | libarchive/archive_pathmatch.c:392-435 | the whole matcher, for every pattern, path and combination of flags |
| `PathLaws.StarTakesAll` | libarchive/archive_pathmatch.c:203-216 | a star and an ordinary character match every path that ends in it, slashes or not |
| `PathLaws.ClassLaw` | libarchive/archive_pathmatch.c:55-108 | a class written from any characters and ranges contains what they do, or, negated, all else |
| `PathSpec.LiteralLaw` | libarchive/archive_pathmatch.c:392-435 | for relative pattern without metacharacters and relative path, a real component each: 1 exactly when the component lists are equal, or, unanchored at the end, when the pattern list is a prefix |
| `PathMatch.PmList` | libarchive/archive_pathmatch.c:56-101 | the class loop decides membership in the specified class |
| `PathMatch.SkipFrom` | libarchive/archive_pathmatch.c:153-160 | the pointer loop is the specified skipping |
| `PathMatch.TryFrom` | libarchive/archive_pathmatch.c:203-216 | the backtracking loop of a star tries the rest at every place |
| `PathMatch.Match` | libarchive/archive_pathmatch.c:171-279 | the backtracking matcher terminates and computes the specified result, for all patterns, subjects and flags |
| `PathMatch.ArchivePathmatch` | libarchive/archive_pathmatch.c:392-435 | the entry point likewise |
| `AclSpec.AddKeeps` | libarchive/archive_acl.c:238-373 | every add keeps types unmixed, POSIX.1e entries unique per type, tag and id, and access objects out of the list |
| `AclSpec.AddAllKeeps` | libarchive/archive_acl.c:165-373 | so does every sequence of adds, whatever is refused |
| `AclSpec.Unmixed` | libarchive/archive_acl.c:265-300 | a valid list is all NFSv4 or all POSIX.1e |
| `AclSpec.Find` | libarchive/archive_acl.c:338-356 | the first entry that would be overwritten |
| `AclSpec.AddRefuses` | libarchive/archive_acl.c:262-336 | an entry is refused if and only if its type is none of the six, it has a permission or a tag its type does not have, or the list is one of the other dialect |
| `AclSpec.AddPlaces` | libarchive/archive_acl.c:338-373 | an entry that is added takes the place of the one with the same type, tag and id, or stands at the end when there is none |
| `AclSpec.ReAdd` | libarchive/archive_acl.c:147-163 | adding the entries of a valid list to an empty one gives the same list, in order |
| `AclRoundTrip.IdRoundTrip` | libarchive/archive_acl.c:864-872 | an id printed by `append_id` is read back by `isint` |
| `AclRoundTrip.LettersRoundTrip` | libarchive/archive_acl.c:946-960 | permission and flag letters, compact or not, are read back as the same bits |
| `AclRoundTrip.FieldsAre` | libarchive/archive_acl.c:1980-2025 | joined clean fields are cut into the same fields by `next_field` |
| `AclRoundTrip.PosixLine` | libarchive/archive_acl.c:875-972 | what is appended for a POSIX.1e entry is its fields, joined |
| `AclRoundTrip.ParsePosixFields` | libarchive/archive_acl.c:1593-1706 | those fields parse to the entry, with and without the default mark and the Solaris style, if and only if its name and id say so: a name of digits must be the id, another name needs the id behind it or none, a number from INT_MAX on is refused |
| `AclRoundTrip.NfsLine` | libarchive/archive_acl.c:875-983 | what is appended for an NFSv4 entry is its fields, joined |
| `AclRoundTrip.ParseNfsFields` | libarchive/archive_acl.c:1708-1787 | those fields parse to the entry if and only if its name and id say so: here the id behind the entry wins over a name of digits |
| `AclRoundTrip.PrintedValid` | libarchive/archive_acl.c:778-862 | the printed part of a valid list is a valid list |
| `AclRoundTrip.ModeAdds` | libarchive/archive_acl.c:238-260 | adding the three printed mode entries sets exactly the nine mode bits |
| `AclRoundTrip.TextReads` | libarchive/archive_acl.c:1511-1802 | a text of joined lines is taken line by line, whatever the lines are parsed to: wrong ones are passed over with a warning, a refused entry ends it |
| `AclRoundTrip.TakenAll` | libarchive/archive_acl.c:1511-1802 | a text that is taken without a warning and adds an entry for each line was parsed to exactly these entries, in order |
| `AclRoundTrip.CutClean` | libarchive/archive_acl.c:1980-2025 | no field that `next_field` cuts out of any text has a blank or a separator |
| `AclRoundTrip.NamesRead` | libarchive/archive_acl.c:1511-1802 | so no name read from any text has one |
| `AclLoneMode.ReadModeIs` | libarchive/archive_acl.c:1837-1865 | `ismode` succeeds exactly on mode characters, and leaves permissions behind exactly when a letter comes before the first wrong one |
| `AclLoneMode.LoneMode` | libarchive/archive_acl.c:1593-1706 | a lone field behind `other` or `mask`, in each of the three forms with and without the default mark, is taken if and only if it is a mode or gives a permission before its first wrong letter; the permissions before that letter are the ones set |
| `AclLoneMode.NoModeTaken` | libarchive/archive_acl.c:1664-1706 | so `other:rq`, which is no mode, is accepted as `r` |
| `AclWords.ShortTag` | libarchive/archive_acl.c:1630-1655 | the first letter of a POSIX.1e tag says the same as its word, plain, behind a mark of the default list, and behind the Solaris mark |
| `AclWords.OtherWord` | libarchive/archive_acl.c:1630-1691 | no other word is a tag, in any of these places |
| `AclWords.MarkIs` | libarchive/archive_acl.c:1594-1612 | a first field marks the default list if and only if it is `d` or begins with `default`, and the type of the entry follows from it |
| `AclWords.ShortMark` | libarchive/archive_acl.c:1594-1612 | `d` says the same as `default` |
| `AclWords.CapitalField` | libarchive/archive_acl.c:1837-1865 | capital letters in a mode say the same as small ones, with and without the mark |
| `AclWords.CapitalAlone` | libarchive/archive_acl.c:1837-1865 | so do those in the lone mode of another or a mask |
| `AclWords.PermLetters` | libarchive/archive_acl.c:83-108 | the fourteen permission letters in the order they are printed, each with its bit |
| `AclWords.FlagLetters` | libarchive/archive_acl.c:110-125 | the seven flag letters likewise |
| `AclWords.CompactLetters` | libarchive/archive_acl.c:946-960 | the compact style leaves out the minus signs and nothing else |
| `AclWords.ModeText` | libarchive/archive_acl.c:808-821 | the three lines of a mode: each class, its bits and its word |
| `AclWords.PosixText` | libarchive/archive_acl.c:875-945 | a line of a POSIX.1e entry, spelt out: mark, word, name or number, and three letters |
| `AclWords.NfsText` | libarchive/archive_acl.c:875-983 | a line of an NFSv4 entry, spelt out: word, name, permissions, flags, type, and id |
| `AclWords.OtherNfsWord` | libarchive/archive_acl.c:1708-1787 | no other words are read as tag or type of an NFSv4 entry |
| `AclFields.FieldIs` | libarchive/archive_acl.c:1981-2025 | a field is its word: blanks before it, and anything behind a blank after it, do not count, and a comment is passed over up to the end of the entry |
| `AclFields.EntryIs` | libarchive/archive_acl.c:1543-1563 | the fields of an entry, however it is written, with blanks, junk behind blanks and a comment, are its words, and the next entry starts behind its end; only an empty last field at the end of a line runs on |
| `AclRoundTrip.RoundTrip` | libarchive/archive_acl.c:778-1802 | in every style, and for any types asked for, printing and parsing into an empty list gives back the printed entries in order and, with access entries, the nine mode bits, without a warning, if and only if every printed entry comes back: its fields say its id, and its name has no blank and no separator |
| `AclRoundTrip.WholeRoundTrip` | libarchive/archive_acl.c:778-1802 | with no type asked for, the whole list comes back if and only if all its entries do; there is a text exactly when the list has entries |
| `AclRoundTrip.OtherId` | libarchive/archive_acl.c:1614-1628 | a POSIX.1e user or group whose name is a number comes back with that number for its id, whatever its id was, and without a warning |
| `AclRoundTrip.NotKept` | libarchive/archive_acl.c:1604-1787 | in both dialects a user does not come back with a blank or separator in its name, an empty name, a name of digits too large, the id INT_MAX, or a name of digits and no id; and without the extra id not even `ab` with id 5 |
| `AclRoundTrip.DigitsKept` | libarchive/archive_acl.c:1604-1787 | with the extra id, `1abc` with id 5 and `123` with id 123 come back, and `123` with id 5 exactly in an NFSv4 list |
| `AclRoundTrip.NamelessNotKept` | libarchive/archive_acl.c:922-944 | a user without a name, printed as digits, comes back with the digits for a name |
| `AclPrinter.PutId` | libarchive/archive_acl.c:864-872 | the recursive digit loop |
| `AclPrinter.PutEntry` | libarchive/archive_acl.c:875-983 | one entry is appended as specified, in both dialects and all styles |
| `AclPrinter.TextEmpty` | libarchive/archive_acl.c:542-563 | nothing would be printed |
| `AclPrinter.PutText` | libarchive/archive_acl.c:778-862 | the string built entry by entry is the specified text; none for mixed types or an empty text |
| `AclParser.TakeField` | libarchive/archive_acl.c:1980-2025 | the pointer loops of `next_field` find the specified field |
| `AclParser.TakeFields` | libarchive/archive_acl.c:1545-1562 | the fields up to the end of the entry, as many as there is room for, the rest blank |
| `AclParser.ReadInt` | libarchive/archive_acl.c:1810-1830 | digits only, refused from INT_MAX on |
| `AclParser.TakeMode` | libarchive/archive_acl.c:1837-1865 | the mode letters; what was read before a wrong one is left behind |
| `AclParser.TakeRest` | libarchive/archive_acl.c:1664-1706 | the Solaris form, the name that makes a user or group, and the mode |
| `AclParser.TakePosix` | libarchive/archive_acl.c:1593-1706 | a whole POSIX.1e entry |
| `AclParser.TakeNfs4` | libarchive/archive_acl.c:1708-1787 | a whole NFSv4 entry |
| `Acl.Acl.Clear` | libarchive/archive_acl.c:127-145 | the list is empty and the mode stays |
| `Acl.Acl.Special` | libarchive/archive_acl.c:238-260 | access owner, group and other entries go into the mode only |
| `Acl.Acl.NewEntry` | libarchive/archive_acl.c:265-373 | overwrites the first entry like it, appends otherwise, and changes nothing when it does not fit |
| `Acl.Acl.AddEntry` | libarchive/archive_acl.c:165-183 | the specified add |
| `Acl.Acl.Copy` | libarchive/archive_acl.c:147-163 | list, mode and types are those of the source, exactly and in order; a list copied onto itself is emptied, with its mode left |
| `Acl.Acl.Count` | libarchive/archive_acl.c:378-395 | the number of entries of a whole reading |
| `Acl.Acl.Reset` | libarchive/archive_acl.c:411-435 | exactly as many entries lie ahead as the result says |
| `Acl.Acl.Next` | libarchive/archive_acl.c:441-505 | the first of the entries ahead, or the end; nothing while not reading |
| `Acl.Acl.ReadAll` | libarchive/archive_acl.c:411-505 | after a reset, as many readings succeed as it returned: the three mode entries and the matching ones in order |
| `Acl.MatchingIsPrinted` | libarchive/archive_acl.c:542-563 | a reading gives the same list entries a text shows |
| `Acl.ModeRead` | libarchive/archive_acl.c:462-486 | the three entries a reading gives for the mode are those the text shows |
| `Acl.ReadBack` | libarchive/archive_acl.c:411-505 | a whole reading, added entry by entry to an empty list, gives back the list and its nine mode bits, in both dialects |
| `Acl.Acl.FromText` | libarchive/archive_acl.c:1511-1802 | the parser loop on the list is the specified parser; at the end the entries of the types that were read lie ahead, and after an entry that cannot be added the cursor is where it was |
| `AclText.KindsReadAre` | libarchive/archive_acl.c:1789-1802 | the types read are those the list gains or has already, and that of the entries kept in the mode |
| `Acl.Acl.PrintAndParse` | libarchive/archive_acl.c:778-1802 | printing one list and parsing into another empty one gives the same entries, types and nine mode bits if and only if every entry comes back |
| `Bits.XorTwice` | libarchive/archive_cryptor.c:681-712 | exclusive or with the same byte twice |
| `Bits.XorDigit` | libarchive/archive_cryptor.c:681-712 | exclusive or, digit by digit: a one exactly where the two differ |
| `CipherSpec.IncrementIs` | libarchive/archive_cryptor.c:668-678 | adding one with carry from byte to byte is the little-endian successor |
| `CipherSpec.NonceWraps` | libarchive/archive_cryptor.c:668-678 | the counter counts modulo 2^64 |
| `CipherSpec.NonceBytes` | libarchive/archive_cryptor.c:668-679 | the counter block holds the counter modulo 2^64 in eight bytes, least significant first, and zeros behind them |
| `CipherSpec.StreamAppend` | libarchive/archive_cryptor.c:681-712 | the key stream goes on across pieces |
| `CipherSpec.StreamTwice` | libarchive/archive_cryptor.c:681-712 | the key stream applied twice gives the data back |
| `CipherSpec.KeyShows` | libarchive/archive_cryptor.c:681-712 | what a plain and a coded byte differ by is the cipher of the counter: byte j of block k has byte j of that of counter k + 1 |
| `CipherSpec.ChainShows` | libarchive/archive_cryptor.c:796-840 | what a plain byte and the inverse cipher differ by is the byte a block before, or that of the initial vector |
| `CipherSpec.CbcBlock` | libarchive/archive_cryptor.c:796-840 | each plain block is the inverse cipher of its block, exclusive or the block before, as in section 6.2 of NIST SP 800-38A |
| `CipherSpec.CbcAppend` | libarchive/archive_cryptor.c:796-840 | chaining goes on across pieces of whole blocks |
| `CipherSpec.CbcUndone` | libarchive/archive_cryptor.c:796-840 | decryption undoes encryption in the same mode |
| `Cryptor.Counter.constructor` | libarchive/archive_cryptor.c:496-504 | counter zero, nothing of its cipher left |
| `Cryptor.Counter.IncreaseCounter` | libarchive/archive_cryptor.c:668-678 | the next counter, for every counter |
| `Cryptor.Counter.Update` | libarchive/archive_cryptor.c:681-712 | as many bytes as there are and there is room for, with the one key stream from where the last call stopped; in place or not |
| `Cryptor.Transform` | libarchive/archive_cryptor.c:681-712 | for any split: the output is the input with one key stream whose block k uses counter k+1 |
| `Cryptor.Undo` | libarchive/archive_cryptor.c:681-712 | coded bytes cut up in any other way come out as the plain ones |
| `Cryptor.Chaining.Update` | libarchive/archive_cryptor.c:796-840 | whole blocks of what was kept and the new piece are decrypted, the rest is kept; no room fails and changes nothing |
| `Cryptor.Chaining.Release` | libarchive/archive_cryptor.c:843-850 | fails exactly when bytes are left over, and clears the state |
| `Cryptor.Piece` | libarchive/archive_cryptor.c:796-840 | what a piece adds to the complete blocks |
| `Cryptor.DecryptAll` | libarchive/archive_cryptor.c:774-850 | in whatever pieces a message comes, the output is whole-message CBC on its complete blocks, and the release fails exactly when it has others |
| `Utf.FirstOctets` | libarchive/archive_cryptor.c:73-112 | the grammar of section 4 of RFC 3629 describes only octets of section 3 |
| `Utf.OctetsFirst` | libarchive/archive_cryptor.c:73-112 | and all of them |
| `Utf.ScalarsUnique` | libarchive/archive_cryptor.c:73-112 | a text has at most one sequence of characters: the one the grammar gives |
| `Utf.WellFormedIff` | libarchive/archive_cryptor.c:73-112 | the grammar accepts exactly the well-formed texts |
| `Utf.DecodedAll` | libarchive/archive_cryptor.c:140-156 | decoding by section 2.2 of RFC 2781 undoes the encoding |
| `Utf.UnitBytes` | libarchive/archive_cryptor.c:140-156 | every unit has its low byte first; a character from 0x10000 on is a high and a low surrogate with ten bits each of its distance from there |
| `Utf.Examples` | libarchive/archive_cryptor.c:140-156 | the examples of section 7 of RFC 3629 and section 5 of RFC 2781 |
| `Utf.Codepoint` | libarchive/archive_cryptor.c:73-112 | the branches of `utf8_codepoint` accept exactly what the grammar does, with the same character and width |
| `Utf.ToUtf16` | libarchive/archive_cryptor.c:116-160 | succeeds exactly on well-formed UTF-8 of a length that can be doubled, within twice the input length; decoding the output gives characters whose UTF-8 octets are the input |

## Left out

- AdaptiveModel.AdaptiveRoundTrip: the choice of the next chain is any given function from fit models to fit models; with the successors of the source it is `ContextTreeLaws.TreeRoundTrip`.
- AdaptiveModel.LearnKeeps: leaves the next chain open; `ContextTreeLaws.StepKeeps` has it.
- ModelTables.StartRoundTrip: likewise for any given choice of the next chain.
- ModelTables.OrderZeroRoundTrip: is about a chain of the root alone, which the source leaves once it has contexts.
- ContextTreeLaws.TreeRoundTrip: when an update runs out of memory is any given function of model and symbol, so the tree is not connected to the unit allocator; after an end marker nothing is coded, as MinContext then is no longer MaxContext.
- ContextTreeModel.Model.UpdateModel: contexts are values in a list in the order of their creation, and places in the text are numbers; the comparison of addresses that tells places from contexts is a case distinction.
- FrequencyModel.Ppmd7Model.AppendFound: covers `UpdateModel` around its choice of successors, on a chain given as a sequence of arrays; the choice itself is in `ContextTreeModel`.
- FrequencyModel.Ppmd7Model.Update1First: ends before `NextContext`, which is `ContextTreeModel.Model.NextContext`.
- FrequencyModel.Ppmd7Model.Update1Later: ends before `NextContext`, which is `ContextTreeModel.Model.NextContext`.
- FrequencyModel.Ppmd7Model.UpdateBin: ends before `NextContext`, which is `ContextTreeModel.Model.NextContext`.
- FrequencyModel.Ppmd7Model.Update2: ends before its call of `UpdateModel`, which is `ContextTreeModel.Model.UpdateModel`.
- FrequencyModel.AppendState: blocks of states are arrays of their class's capacity; taking them from the unit allocator is not connected.
- SymbolCoder.Ppmd7.EncodeSymbol: works on the suffix chain as a sequence of context values and on SEE and binary estimators as values, and ends before the update of the model, which is `ContextTreeModel.Model.Update`; the mask is local to the call, as in the source.
- SymbolCoder.Ppmd7.DecodeSymbol: likewise ends before the update of the model.
- Ppmd7Allocator.Allocator7.constructor: memory is a sequence of 12-byte units with the words that lists and glue use; the byte overlay of contexts, states and nodes is not modelled.
- Ppmd8Allocator.Allocator8.constructor: likewise, and the text area is its length only.
- Ppmd8Allocator.Allocator8.MoveUnitsUp: the last unit, which holds the order-0 context, is never moved or given up; the contracts require it of the caller.
- LinkResolver.Resolver.LinkifyEntry: archive entries are values with an `id` for the object, so updates of an entry through another pointer are not captured; allocation failure and the freeing of the spare node are not modelled.
- LinkRun.GroupLaw: is stated per (dev, ino); the order in which groups are drained follows the buckets and is given by the run itself.
- Blake2s.State.Final: of an output longer than 32 bytes the contract says how many bytes lie beyond the digest, not what they are.
- Blake2sp.State.Update: the leaves are fed one after the other; the OpenMP variant is not modelled.
- PathMatch.ArchivePathmatch: strings have no NUL inside; a null pattern or path is not modelled.
- PathSpec.GlobLaw: beyond 100 nested stars the matcher gives up with -1, which is in the model but outside the law.
- PathSpec.PathLaw: likewise.
- RarRoundTrip.RoundTrip: libarchive has no encoder for these decoders; a run of shares is what such an encoder would take, and a total that the range does not admit ends it.
- ContextNames.MinContextNamed: says of each context which symbols lead to it, not that a place in the text has the symbol that followed them.
- PathMatch.PmList: characters are unsigned; where `char` is signed, a class range across 0x80 compares differently.
- Acl.Acl.AddEntry: names are plain strings; conversions between character sets and the cached text forms are not modelled.
- Acl.Acl.FromText: a name with a NUL inside, possible only with an explicit length, is not cut off at it, in reading or in printing.
- Cryptor.Chaining.Update: the input is a value, so decrypting in place is not captured; the library call that decrypts whole blocks is section 6.2 of NIST SP 800-38A by definition.
- Cryptor.Counter.Update: a failing cipher library is not modelled.
- Utf.ToUtf16: allocation failure and null arguments are not modelled.
- Whole types of an access control list are sets of types instead of bit masks; a mask with unknown bits is not modelled.
- PPMd8 `CutOff`, `RestoreModel`, `ReduceOrder`, `Refresh`, its symbol decoder and its frequency model: they need the full context graph.
- The rounds of BLAKE2s, AES, SHA, HMAC and PBKDF2, and the other library back ends of the cryptor.
- Wide-character twins, locale conversion, I/O, and everything outside these eight files.
- Field accessors, endian helpers, `archive_entry_linkresolver_set_strategy` and `archive_entry_partial_links`, which would only add easy members.
