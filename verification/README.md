# A model of the game server's codecs and inventories

The project models the hard parts of a small game server and proves what they keep.

- **BSON** (`bytes`, `bson_format`, `bson_iterator`, `bson_spec`, `bson_runs`, `bson_trees`, `bson_room`, `bson_open`,
  `bson_finish`, `bson_reads`, `bson_lost`, `bson_builder`, `bson_copy`, `bson_grammar`). `BsonSpec` says what the
  builder calls mean on values: the bytes of every open document, the reserved capacity, the error bits. The class
  `BsonBuilder.Bson` does exactly this on a growable array and on a stack of open positions that moves from 32 inline
  entries to a doubling heap array, patching each length on close. `BsonFormat` is an independent encoder; at every
  moment of a run the bytes of each open level are proved to be its encoding of the elements read so far (`BsonOpen`).
  `BsonFinish` tallies any run without its bytes and error bits and says from that when `bson_finish` succeeds and
  what it then yields. `BsonIterator` walks an encoded document. `BsonGrammar` is the grammar of the specification
  with literal type bytes and payloads; it shares nothing with the encoder, which is proved to write exactly what it
  admits.
- **Trees** (`cbson`, `cbson_codec`, `cbson_grammar`). Saving a tree with the builder and parsing it with the
  iterator.
- **BCON** (`bcon_spec`, `bcon_grammar`, `bcon_converse`, `bcon_outcome`, `bcon_machine`, `bcon_literal`). The
  five-state machine with its two stacks on values, the recursive reading of a list, the proof that they agree in both
  directions, what is returned for any list, and the machine as it runs on arrays and a builder.
- **UTF-8** (`utf8`). The table-driven validator against section 4 of RFC 3629.
- **MD5** (`md5`, `md5_steps`, `md5_answers`). Block buffering with two count words against sections 3.1 to 3.4 of RFC 1321, with
  known answers of its appendix A.5.
- **Frames** (`frames`, `frame_buffer`, `frame_bits`). Masked frames over a compacting receive buffer fed in any
  chunks.
- **Item bag** (`item_merge`, `item_loose`, `item_bag`, `sums`). Cells and an id map changed in place; the sort with
  its step back.
- **Souls** (`soul_table`, `pigeonhole`, `souls_bag`, `soul_servlet`). Three maps and a vector of cells; hunting,
  storing, equipping and swallowing.
- **Strengthening** (`strength`). The price table, one step of it, and the request.

Code that changes state is a class whose methods state their whole effect as a function of the old state. Every
constructor establishes `Valid()` and every method keeps it, so it holds in every reachable state; where an operation
keeps it only under a condition, its contract says exactly which.

## What the proofs found

- The header defines `MONGO_BIG_ENDIAN`, so on a little-endian host the "little endian" macros swap bytes: lengths and
  numbers are written high byte first, unlike the BSON specification, version 1.1. `Bytes.EncLen` follows the code.
  The built-in empty document `{5,0,0,0,0}` is not the empty document that the builder writes (`EmptyDocument`).
- A total size below 2^31-1 is not enough for a save to succeed: capacity and request together may pass the limit
  (`LargeElementRefused`). `WrittenExactly` says when a document is written: if and only if its text is clean and
  every request is granted by the capacity reached so far, which a caller can compute from the document alone.
- A successful `bson_finish` does not mean that nothing was refused: it tests the non-UTF-8 bit alone, and an
  unmatched close, a refused size and unowned data store their own error over it. A document under the name FF is lost
  (`LostNameIsFinished`, `LostKeyIsSaved`), and so is a binary value refused for its size (`LargeElementIsFinished`);
  both times the empty document is finished. `FinishReports` says for every run when finish succeeds and when every
  call did, `FinishedIsEncoding` when the finished bytes are the document, `FittingFinish` the same from the names and
  texts alone, and `FinishedReads` what they are instead.
- An append of a regex is all or nothing unless its name is accepted, its request granted and its pattern not UTF-8;
  then its header stays in the document (`RegexAllOrNothing`), as for the pattern FF (`RegexLeavesHeader`).
- A builder finished with a subobject open keeps a zero length prefix: the result is the encoding of a document if and
  only if nothing is open (`FinishedExactly`).
- `CBson::save` drops 64-bit integers and unknown types, so exactly the trees without them come back
  (`CBsonCodec.RoundTrip`).
- The BCON result tests only the final state: an open brace, or an interpolated list that stopped early, is reported
  as OK (`OpenBraceIsAccepted`, `IncompleteInterpolationIsAccepted`). Empty stacks would not be enough either: an
  interpolated list with an open brace leaves the outer stacks empty and its document open (`OuterRun`). A list is
  well formed if and only if it and every list interpolated in it end at an end token with empty stacks
  (`WellFormedIsComplete`); then `WellFormedReturns` says when its document is returned. For any other list,
  `ReturnedIsDocument` says when what is returned is a document at all.
- The validator accepts surrogates and F4 with a second byte 00 to 7F (`RelaxedExamples`); `RfcLanguage` says exactly
  which strings lie outside the RFC. The unit F4 2E hides a dot, so the dot flag is right if and only if no unit hides
  one or some unit starts with one (`DotFlag`).
- A sequence of payloads can be delivered if and only if every frame is shorter than 8192 bytes (`Deliverable`).
- Sorting the bag reads the null cell exactly when the first item that holds anything is a loose stack
  (`SortingLaws`), and it loses items exactly when more than 24 stacks remain (`NothingIsLost`). A full stack among
  stacks of its kind splits them into stretches, each of which may leave a loose stack (`TwoLooseStacks`): at most one
  is left if and only if at most one stretch has a sum that is no multiple of the limit (`SortingLeavesLoose`).
- Unequipping an item that sits in a cell (`item_servlet.cpp`, line 434, does not ask whether it was equipped) puts it
  into a second cell, where it counts twice (`AddItem`).
- Moving an item whose recorded cell a sort has cut off reads outside the vector (`MoveItem`, not ok).
- Moving an item onto its own cell keeps the quantities exactly when it is unstackable, empty or a full stack
  (`MoveItem`).
- Swallowing conserves experience if and only if no running total falls below zero, where `addExp` cuts it off
  (`ExperienceIsConserved`).
- A soul told to swallow itself is lost (`SwallowOne`), and swallow-all loses its survivor when the bag is full
  (`SwallowAll`). A missing template in a promotion is reported through its null pointer.
- Strengthening zero times reads a null template (`StrengthItem`).

## Model

| member | source | states |
|---|---|---|
| Bytes.EncLenRoundTrip | bson/bson/bson.c:674-682 | a length written through the byte-swapping macro is read back unchanged |
| Bytes.Enc32RoundTrip | bson/bson/bson.c:674-687 | every signed 32-bit value written through the byte-swapping macro is read back unchanged |
| BsonFormat.PrefixIsSize | bson/bson/bson.c:723-743 | the length prefix of an encoded document, decoded, is its true byte length, at every nesting depth |
| BsonFormat.EmptyDocument | bson/bson/bson.c:36-37 | the built-in five bytes differ from the empty document that the builder writes |
| BsonFormat.BodyConcat | bson/bson/bson.c:944-950 | the encoding of a list of elements is compositional: bodies concatenate |
| BsonGrammar.ElementIs | bson/bson/bson.c:786-998 | for every name and value, the element written has the type byte of the specification, the name, a zero and the payload given byte for byte, and nothing else is an element |
| BsonGrammar.DocumentIs | bson/bson/bson.c:723-743 | the encoding of a document is admitted by the grammar of the specification with its numbers high byte first, and no other bytes are |
| BsonGrammar.AppendsElement | bson/bson/bson.c:765-998 | what an append that succeeds adds is an element of the grammar, with its literal type byte |
| BsonGrammar.WritesDocument | bson/bson/bson.c:723-743 | finish succeeds with a document of the grammar if and only if the text is clean and there is room |
| BsonGrammar.DoubleInFull | bson/bson/bson.c:804-810 | the sixteen bytes of {"x": 1.5}, and of the date of the same eight bytes |
| BsonSpec.GrowthIs | bson/bson/bson.c:689-719 | the new size is one and a half times old size plus request, rounded down, or the limit |
| BsonIterator.ValueSizeIs | bson/bson/bson.c:323-389 | for every type the builder can append, the size the iterator computes from the bytes is the encoded length |
| BsonIterator.ElemLayout | bson/bson/bson.c:391-403 | type, key and value accessors find exactly the parts of the encoded element |
| BsonIterator.Iterator.constructor | bson/bson/bson.c:300-308 | a fresh iterator stands before the first element of the document |
| BsonIterator.Iterator.Next | bson/bson/bson.c:323-389 | one call advances by exactly the encoded length of the current element, never past the terminator, and returns the next type |
| BsonIterator.Iterator.Key | bson/bson/bson.c:395-397 | the key of the current element |
| BsonIterator.Find | bson/bson/bson.c:310-317 | the walk stops at the first element of the name, having passed every earlier one once and in order, or at the terminator |
| BsonRuns.AppendIsAllOrNothing | bson/bson/bson.c:765-930 | every append but a regex adds one complete element or leaves the written bytes unchanged, for every state and value |
| BsonRuns.AppendRegexOutcome | bson/bson/bson.c:932-942 | the three outcomes of a regex append; a refused pattern leaves its header behind with the non-UTF-8 bit set |
| BsonRuns.EveryCallMarks | bson/bson/bson.c:765-1033 | a refused call leaves a mark in the error bits, and only plain assignments can clear the non-UTF-8 bit |
| BsonRuns.ErrorValues | bson/bson/bson.h:84-89 | the numbers stored for a refused size, unowned data, an unmatched close and a finished builder |
| BsonOpen.RunShows | bson/bson/bson.c:765-1041 | at every moment of any run in which no regex is cut off, every open level holds the encoding of its elements and the header of the next, and the innermost the encoding of its elements, as read from the calls that succeeded |
| BsonOpen.OpenLevels | bson/bson/bson.c:1000-1041 | the same for every run in which no call is refused, from a fresh builder |
| BsonOpen.CallsRead | bson/bson/bson.c:1000-1041 | the calls of a document read as exactly its elements, from any point of a run on |
| BsonOpen.FinishedExactly | bson/bson/bson.c:723-743 | what finish yields is the encoding of a document if and only if no subobject is open, and then it is that of the elements read |
| BsonOpen.FinishedRun | bson/bson/bson.c:723-743 | the same for every run in which no call is refused |
| BsonTrees.CallsWrite | bson/bson/bson.c:1000-1041 | a run of start, append and finish calls that all succeed adds exactly the encoding of the elements, at any depth |
| BsonTrees.FittingDocumentIsWritten | bson/bson/bson.c:689-743 | a sufficient condition on sizes alone for a clean document to be written completely, for every initial capacity |
| BsonTrees.SuccessMeansClean | bson/bson/bson.c:765-785 | conversely a run without a refused call contains no text the UTF-8 check rejects |
| BsonTrees.LargeElementRefused | bson/bson/bson.c:689-719 | a document below the size limit whose only element is refused |
| BsonRoom.RunOutcome | bson/bson/bson.c:689-1041 | for any run of calls: none is refused if and only if its text is clean, nothing is closed that is not open and every request is granted; and only then are all its bytes added |
| BsonRoom.CallsAreOrderly | bson/bson/bson.c:1000-1041 | the calls of a document are matched at every depth, and their text is clean if and only if the document's is |
| BsonRoom.WrittenExactly | bson/bson/bson.c:689-743 | finish succeeds with the encoding of the document if and only if its text is clean and it has room |
| BsonRoom.FittingHasRoom | bson/bson/bson.c:689-719 | size plus largest request below the limit is enough for room, whatever the capacity |
| BsonRoom.RegexAllOrNothing | bson/bson/bson.c:932-942 | a regex append is all or nothing if and only if not: name accepted, request granted and pattern refused |
| BsonRoom.RegexLeavesHeader | bson/bson/bson.c:932-942 | the pattern FF on a fresh builder is refused and leaves bytes behind |
| BsonFinish.FinishReports | bson/bson/bson.c:689-1041 | for any run of calls, from the lengths and texts of the arguments: finish succeeds if and only if no refused text is left on record and the last request is granted, and every call succeeded if and only if the tally refuses none; the first implies the second when no error value was overwritten |
| BsonFinish.FinishedIsEncoding | bson/bson/bson.c:723-743 | for any document: when finish succeeds; and it succeeds with the encoding of the document if and only if its text is clean and it has room |
| BsonLost.CallsTally | bson/bson/bson.c:765-1041 | after the calls of a document that fits: every document whose name was refused has closed one level too many, and whether a refused text is still on record |
| BsonLost.FittingFinish | bson/bson/bson.c:723-743 | for a document that fits: finish succeeds if and only if no refused text stands in a root element behind the last one that holds a document of refused name, and the finished bytes are then its encoding if and only if its text is clean |
| BsonReads.FinishedReads | bson/bson/bson.c:723-743 | for any run of calls with clean patterns that finish accepts: the bytes are the encoding of a document if and only if nothing is left open, and then of the elements in the calls that succeeded |
| BsonLost.LostNameIsFinished | bson/bson/bson.c:1016-1022 | a document whose only element, a nested document, has a refused name is finished as the empty document |
| BsonLost.LargeElementIsFinished | bson/bson/bson.c:689-743 | a document whose only element is refused for its size is finished as the empty document |
| BsonBuilder.Bson.GrowStack | bson/bson/bson.c:632-662 | the stack of open positions moves to a bigger array with its contents |
| BsonBuilder.Bson.EnsureSpace | bson/bson/bson.c:689-719 | growing keeps the written bytes and refines the value-level reservation, size overflow and unowned data included |
| BsonBuilder.Bson.AppendStart | bson/bson/bson.c:765-785 | checks, reservation and header of an element refine the value-level step |
| BsonBuilder.Bson.AppendStringBase | bson/bson/bson.c:831-849 | a string, code or symbol element refines the value-level append |
| BsonBuilder.Bson.AppendBinary | bson/bson/bson.c:899-917 | a binary element, with the double length of the old subtype, refines the value-level append |
| BsonBuilder.Bson.AppendRegex | bson/bson/bson.c:932-942 | a regex element refines the value-level append, with its dangling header |
| BsonBuilder.Bson.AppendCodeWithScope | bson/bson/bson.c:875-893 | code with scope refines the value-level append |
| BsonBuilder.Bson.StartNested | bson/bson/bson.c:1000-1014 | opening a subdocument pushes its position and a zero placeholder |
| BsonBuilder.Bson.FinishNested | bson/bson/bson.c:1016-1041 | closing terminates the innermost document and patches its true length, on a finished builder behind the document; unmatched closing is an error |
| BsonBuilder.Bson.FinishBson | bson/bson/bson.c:723-743 | finishing refines the value-level finish: errors, overflow, the root's length |
| BsonBuilder.Bson.PerformAll | bson/bson/bson.c:632-1041 | any run of calls on the arrays, on a finished builder too, equals the value-level run |
| BsonBuilder.Bson.BytesSoFar | bson/bson/bson.c:1000-1041 | after any run in which no regex is cut off, the bytes up to cur are the levels read so far, with zero placeholders between them |
| BsonBuilder.Bson.OpenFieldsAreZero | bson/bson/bson.c:1000-1014 | at every moment the open positions strictly increase and each holds a zero placeholder |
| BsonCopy.AppendElement | bson/bson/bson.c:952-971 | with a null name the bytes of the current element are copied exactly, or nothing; before the first element and at the end none are copied |
| BsonCopy.CopyDocument | bson/bson/bson.c:952-971 | visiting a document and re-appending each element rebuilds the identical body |
| CBson.ValueRoundTrip | bson/CBson.cpp:24-199 | parsing the element a value is saved as gives the value back without the parts that save skips |
| CBson.FieldsRoundTrip | bson/CBson.cpp:12-136 | the same for a whole ordered map, through the repeated assignments of the parser |
| CBson.StripIsIdentity | bson/CBson.cpp:138-199 | nothing is skipped if and only if the tree has no 64-bit integer and no unknown type |
| CBson.ParsedIsOrdered | bson/CBson.cpp:12-111 | whatever the order and repetition of names, what is parsed is an ordered map at every level |
| CBson.LessIs | bson/CBson.h:17-17 | the order of the map is that of strcmp: behind a common prefix the shorter text or the smaller byte comes first |
| CBsonCodec.SaveValue | bson/CBson.cpp:138-199 | saving a value runs exactly the builder calls of its elements |
| CBsonCodec.Save | bson/CBson.cpp:113-125 | saving yields the finished document, and no value when finish failed |
| CBsonCodec.ParseValue | bson/CBson.cpp:24-111 | parsing at an iterator yields the tree of the element there |
| CBsonGrammar.SavedElement | bson/CBson.cpp:138-199 | the type byte and payload that save writes for each kind of value, as literal bytes |
| CBsonGrammar.ParsedElement | bson/CBson.cpp:24-111 | what parse makes of each type byte and payload, as literal bytes |
| CBsonGrammar.SavedInFull | bson/CBson.cpp:113-136 | the sixteen bytes saved for the map {"x": 1.5}, and for the date of the same eight bytes |
| CBsonCodec.Parse | bson/CBson.cpp:3-22 | parsing the bytes of a document yields the map of its elements |
| CBsonCodec.RoundTrip | bson/CBson.cpp:3-199 | for every document that can be written at all, parse after save is the tree without skipped values, and the tree itself if and only if none is skipped |
| CBsonCodec.SavedBytesAreTheTree | bson/CBson.cpp:113-136 | for every tree: when save yields bytes; they are the encoding of the tree, which parses to the tree without skipped values, if and only if its text is clean and it has room; and both from its names and texts alone when it fits |
| CBsonCodec.Reload | bson/CBson.cpp:3-199 | saving and parsing any tree, clean or not, whose calls leave nothing open yields nothing or the map of the elements in the calls that succeeded |
| CBsonCodec.LostKeyIsSaved | bson/CBson.cpp:113-136 | a map whose one key, of an empty map, is not UTF-8 is saved as the empty document |
| BconGrammar.FieldsCompile | bson/bson/bcon.c:164-268 | from any point between two entries the machine makes the builder calls of the recursive reading and returns to that point |
| BconGrammar.DocumentCompiles | bson/bson/bcon.c:164-272 | for every well-formed list nested at most 1024 deep the machine ends in its start state with empty stacks, having made exactly the calls of the document |
| BconGrammar.ArrayCompiles | bson/bson/bcon.c:164-276 | the same for an interpolated array |
| BconGrammar.ArrayKeysArePositions | bson/bson/bcon.c:154-159 | however documents and arrays nest, the elements of an array without null pointers have the keys 0, 1, 2, ... |
| BconGrammar.OpenBraceIsAccepted | bson/bson/bcon.c:267-267 | a list with an unclosed brace ends in the start state |
| BconGrammar.IncompleteInterpolationIsAccepted | bson/bson/bcon.c:267-267 | an incomplete interpolated document stops the loop in the start state |
| BconConverse.WellFormedIsComplete | bson/bson/bcon.c:164-268 | for every list: it starts with the entries of well-formed fields and an end token if and only if its run, and that of every list interpolated in it, ends at an end token in the start state with both stacks empty |
| BconOutcome.WellFormedReturns | bson/bson/bcon.c:284-291 | for a well-formed list the encoding of its document is returned if and only if its text is clean and it has room |
| BconOutcome.ReturnedIsDocument | bson/bson/bcon.c:284-291 | for every list: what is returned is the encoding of a document if and only if the calls that succeeded leave nothing open, and then it is that of the elements they wrote |
| BconOutcome.ReturnedWhen | bson/bson/bcon.c:284-291 | for every list: something is returned if and only if the machine stops in the start state and the tally of its calls passes |
| BconOutcome.OuterRun | bson/bson/bcon.c:267-267 | a list that ends in the start state with both stacks empty although a document in it stays open |
| BconOutcome.OuterIsNoDocument | bson/bson/bcon.c:284-291 | that list is reported as OK and its bytes are not the encoding of any document |
| BconMachine.BconKeyValue | bson/bson/bcon.c:57-145 | one key and value makes the builder calls of its type specifier |
| BconLiteral.Texts | bson/bson/bcon.c:57-145 | ":_s:" returns a document whose element has type byte 2, the key and the text, ":_x:" one with type byte 14, behind "R" and "P" too |
| BconLiteral.Numbers | bson/bson/bcon.c:57-145 | the type bytes and payloads of doubles, longs, ints, booleans and times, the times in milliseconds mod 2^64 |
| BconLiteral.Nulls | bson/bson/bcon.c:57-145 | ":_v:" returns a null, whatever its entry |
| BconLiteral.Missing | bson/bson/bcon.c:111-138 | a null pointer behind "P" appends nothing |
| BconLiteral.ObjectIds | bson/bson/bson.c:134-160 | ":_o:" returns the twelve bytes that print as the 24 hexadecimal digits given |
| BconLiteral.NestedInFull | bson/bson/bcon.c:164-291 | the 28 bytes of {"a": {"b": [7]}} from its nine entries |
| BconSpec.NumeralFits | bson/bson/bcon.c:154-159 | the key buffer holds exactly the indices up to 99999999 |
| BconMachine.AppendBconWithState | bson/bson/bcon.c:164-268 | the loop on arrays equals the value-level machine, and its result is the test of the state |
| BconMachine.FromBcon | bson/bson/bcon.c:284-291 | compiling and finishing yields the document of the calls made, or nothing |
| BconMachine.CompileDocument | bson/bson/bcon.c:284-291 | a well-formed list, whatever follows its end token, compiles to the encoding of the document it reads as |
| Utf8.ValidateString | bson/bson/encoding.c:122-154 | the loop sets exactly the flags of the unit-by-unit scan and adds them to those already there |
| Utf8.AcceptsLanguage | bson/bson/encoding.c:70-154 | a string is accepted if and only if it is a concatenation of units the table and the legality test admit |
| Utf8.RfcLanguage | bson/bson/encoding.c:70-154 | a string is in the language of section 4 of RFC 3629 if and only if it is accepted and none of its units is one of the two relaxed kinds |
| Utf8.ConcatenationScan | bson/bson/encoding.c:134-151 | scanning is compositional: verdict and dot flag of a concatenation come from its parts |
| Utf8.ConcatenationAccepted | bson/bson/encoding.c:134-151 | after an accepted prefix, the whole is accepted if and only if the rest is |
| Utf8.DotFlag | bson/bson/encoding.c:134-137 | for accepted names the dot flag is right if and only if no unit hides a dot or some unit starts with one |
| Utf8.DotsInUnits | bson/bson/encoding.c:134-137 | the flag is set if and only if some unit starts with a dot; a dot occurs if and only if some unit starts with one or hides one |
| Utf8.RfcDotFlag | bson/bson/encoding.c:134-137 | for names of RFC 3629 the dot flag is set if and only if some byte is a dot |
| Utf8.RelaxedExamples | bson/bson/encoding.c:70-102 | accepted strings outside RFC 3629, one of them hiding a dot |
| Utf8.DollarNames | bson/bson/encoding.c:104-131 | a name that starts with a dollar is flagged unless it starts with $ref or is $id or $db |
| Utf8.FlagBits | bson/bson/encoding.c:122-154 | the numbers of the bits that a check adds; no other bit changes |
| Md5.FoldMore | bson/bson/md5.c:322-356 | feeding more data continues the fold over complete blocks from the pending bytes |
| Md5.CountsAdd | bson/bson/md5.c:326-335 | the two words with their carry hold the bit length mod 2^64 after any addition |
| Md5.State.Append | bson/bson/md5.c:322-356 | after every append the registers are the fold over all complete blocks, the counts the bit length, the rest pending |
| Md5.State.Finish | bson/bson/md5.c:359-378 | the message is extended by exactly the padding of sections 3.1 and 3.2 of RFC 1321 and the digest is the fold over it |
| Md5.PadCount | bson/bson/md5.c:372-373 | the unsigned expression for the pad length is the least one congruent to 448 bits mod 512 |
| Md5.SameMessageSameState | bson/bson/md5.c:322-356 | two states fed the same bytes in any chunks agree in registers, counts and pending bytes |
| Md5.AppendAll | bson/bson/md5.c:322-356 | appending chunks one by one equals appending their concatenation |
| Md5Answers.KnownAnswers | bson/bson/md5.c:306-378 | the digests of the empty message, of "abc" and of the letters and digits are those of appendix A.5 of RFC 1321 |
| Md5Answers.InitialBytes | bson/bson/md5.c:312-319 | the initial registers are the bytes of section 3.3 of RFC 1321 |
| Frames.MaskTwice | bson_buffer.cpp:74-83 | masking is its own inverse for every key and length |
| Frames.MaskLoop | bson_buffer.cpp:74-83 | the four-byte loop computes the mask, short last word included |
| Frames.ParseFrame | bson_buffer.cpp:126-163 | a complete frame at the front of any window is taken off whole and unmasked |
| Frames.ParsePartial | bson_buffer.cpp:126-141 | less than a frame is left where it is |
| Frames.RunIsFaithful | bson_buffer.cpp:126-163 | for every interleaving of adds and parses in any chunking, the bodies are the first payloads sent, in order, once each, and consumed frames plus the window are the bytes delivered |
| Frames.EverythingArrives | bson_buffer.cpp:126-163 | once all frames are delivered, one parse per frame left yields every payload and empties the window |
| Frames.OnlySmallFramesArrive | buffer.cpp:25-45 | in every run each delivered frame is shorter than the buffer |
| Frames.Deliverable | buffer.cpp:25-45 | some run delivers exactly the given payloads if and only if each of their frames is shorter than the buffer |
| FrameBits.FrameBytes | bson_buffer.cpp:55-86 | the ten header bytes in plain numbers, and each payload bit inverted exactly where the key has a bit: byte i mod 4 of 0x706D7878 mod 1256 times the size, low byte first |
| FrameBits.ParsedBytes | bson_buffer.cpp:126-163 | what a window yields, in plain numbers: every outcome, and the same relation between each bit of the window, the key and the body |
| FrameBits.OnlyOne | bson_buffer.cpp:74-83 | that relation admits one masked payload only |
| FrameBits.FrameInFull | bson_buffer.cpp:55-86 | the eleven bytes of the frame of "A" |
| FrameBuffer.Buffer.Add | buffer.cpp:25-45 | compaction keeps the unread bytes; a chunk fits if and only if it and the window stay below the buffer size |
| FrameBuffer.Buffer.ParseFromBuffer | bson_buffer.cpp:126-163 | parsing in place equals parsing the window |
| FrameBuffer.SerializeToBuffer | bson_buffer.cpp:55-86 | the buffer becomes the frame of its contents |
| FrameBuffer.Receive | bson_buffer.cpp:126-163 | a receive loop on the buffer equals the run on values |
| ItemMerge.SortSorts | item_bag.cpp:16-33 | sorting yields a permutation that rises by item type and then by id |
| ItemMerge.MergeDefined | item_bag.cpp:37-61 | the merging loop reads the null cell if and only if nothing is kept yet and the first item that holds anything is a loose stack |
| ItemMerge.MergeCarries | item_bag.cpp:37-61 | from any point of the loop to its end: totals of every kind conserved, no stack above its limit, only emptied items dropped, order kept, kept items stay in place |
| ItemLoose.LooseStacksLeft | item_bag.cpp:37-61 | the loose stacks of a kind left by the merge are exactly the stretches between full stacks whose sum is no multiple of the limit |
| ItemLoose.TwoLooseStacks | item_bag.cpp:16-61 | four stacks of one kind that a sort puts in the order of their ids and its merge leaves as they are, two of them loose |
| ItemBags.SortingLaws | item_bag.cpp:22-61 | what a sort makes of any agreeing bag: when it fails; else ordered, compact, non-empty stacks within their limits with the same totals |
| ItemBags.NothingIsLost | item_bag.cpp:65-65 | a sort loses nothing if and only if at most 24 stacks remain |
| ItemBags.SortingLeavesLoose | item_bag.cpp:22-61 | a sort leaves at most one loose stack of a kind if and only if at most one stretch of the sorted list has a remainder |
| ItemBags.ItemBag.MergeStacks | item_bag.cpp:34-61 | the loop with its step back terminates and equals the merge on values |
| ItemBags.ItemBag.SortItems | item_bag.cpp:22-66 | nothing within the time guard; else the cells are the merged stacks, indices agree, and quantities plus what lies beyond cell 24 are the old quantities |
| ItemBags.ItemBag.StackItem | item_bag.cpp:68-89 | what the stacks gain the incoming item loses; afterwards it is empty or every stack of its kind exactly full |
| ItemBags.ItemBag.RemoveItem | item_bag.cpp:91-98 | the recorded cell is emptied and the id forgotten or kept; an item sitting there takes away exactly its quantity; vector and map agree afterwards if and only if the id is kept or no other cell holds it |
| ItemBags.RemovedAgree | item_bag.cpp:91-98 | emptying a cell keeps agreement, and forgetting an id keeps it if and only if no other cell holds that id |
| ItemBags.ItemBag.AddItem | item_bag.cpp:100-113 | any item, even one that sits in a cell already, goes to the lowest free cell and adds its quantity; vector and map still agree if and only if no cell held that id |
| ItemBags.AddedAgree | item_bag.cpp:107-112 | vector and map agree after putting an item into a free cell if and only if no other cell holds its id |
| ItemBags.ItemBag.Swap | item_bag.cpp:128-137 | quantities are kept, and agreement if and only if the recorded cell holds the item or nothing |
| ItemBags.ItemBag.Join | item_bag.cpp:138-146 | pouring one item onto another: exact new numbers, agreement kept, quantities kept for two different items |
| ItemBags.ItemBag.MoveItem | item_bag.cpp:115-151 | every case of a move, not ok exactly when it reads outside the vector; agreement kept whenever the item is poured, and agreement and all quantities when it sits at its recorded cell and moves to another |
| SoulTable.Load | dataset/soul_item_template.cpp:58-90 | the info of every quality and level is that of its last row, the level of a threshold that of its first; every threshold points to a present info |
| SoulTable.InfoIsLast | dataset/soul_item_template.cpp:58-90 | a row gives the info of its quality and level unless a later one does |
| SoulTable.LevelIsFirst | dataset/soul_item_template.cpp:58-90 | a row gives the level of its threshold unless an earlier one does |
| SoulTable.LevelIsLeast | dataset/soul_item_template.cpp:125-135 | with strictly increasing thresholds the level is l if and only if l is the least level whose threshold is at least the experience |
| SoulTable.LevelIsMonotone | dataset/soul_item_template.cpp:125-135 | more experience never means a lower level, up to the top threshold |
| Pigeonholes.Pigeonhole | souls_bag.cpp:50-55 | n values that cover 0..n-1 are nothing else |
| SoulsBags.CountedMeans | souls_bag.cpp:44-55 | the first zero of the counting array, or its size, is the least index not held |
| SoulsBags.PlacedAreFew | souls_bag.h:97-97 | souls with distinct indices in 0..17 are at most 18 |
| SoulsBags.SoulsBag.NextHuntSoulIndex | souls_bag.cpp:36-56 | the least index that no hunted soul holds |
| SoulsBags.SoulsBag.AddHunted | soul_item_servlet.cpp:148-152 | a new soul takes the least free index and hunted souls keep distinct indices in 0..17 |
| SoulsBags.SoulsBag.StoreSoulItem | souls_bag.cpp:91-107 | the soul moves to the first free cell, or nothing happens when none is free; containers stay disjoint and vector and map agree |
| SoulsBags.SoulsBag.Equip | soul_item_servlet.cpp:400-403 | the soul leaves its cell and the bag for the equipped ones |
| SoulServlet.Hunt | soul_item_servlet.cpp:101-153 | the errors in order; otherwise price, points, place and the new soul at the least free index |
| SoulServlet.TermsAre | soul_item_servlet.cpp:101-125 | the terms of a hunt are those of the next place, or of the place itself when there is none |
| SoulServlet.Store | soul_item_servlet.cpp:176-200 | the three outcomes and the exact new containers |
| SoulServlet.EquipSoul | soul_item_servlet.cpp:385-404 | the outcomes and the exact new containers |
| SoulServlet.SwallowOne | soul_item_servlet.cpp:210-260 | the eater gains exactly the worth of the consumed soul, which leaves the bag; a missing template of the promotion is the only crash |
| SoulServlet.WorthIs | soul_item_servlet.cpp:225-240 | a soul is worth what its level hands on and its own experience, and nothing past the top threshold |
| SoulServlet.ChainIsLinked | soul_item_servlet.cpp:240-256 | a promotion follows the next-level links, one for each level, and fails where they end |
| SoulServlet.AbsorbConserves | soul_item_servlet.cpp:302-319 | at any point of the loop the survivor's experience and what is still to come make the same total if and only if no running total before was negative |
| SoulServlet.ExperienceIsConserved | soul_item_servlet.cpp:302-319 | the survivor ends with what it had and exactly what the consumed souls were worth if and only if no running total is negative, which holds with a table whose swallow values are not negative |
| SoulServlet.PickBest | soul_item_servlet.cpp:287-296 | the survivor is of maximal quality and of those the one with the least id |
| SoulServlet.Devour | soul_item_servlet.cpp:302-319 | the loop consumes the souls in order up to the first past its top threshold and hands their worth to the survivor |
| SoulServlet.Gorge | soul_item_servlet.cpp:302-338 | the loop and the promotion after it: the survivor gains exactly the worth of the consumed souls if and only if no running total is negative |
| SoulServlet.SwallowAll | soul_item_servlet.cpp:279-338 | the whole request: who survives, its experience and template, who is left hunted, and whether the survivor reaches the bag |
| Strength.Load | dataset/item_template_manager.cpp:59-78 | the table holds for every place the price of its last row, and 0 for skipped levels |
| Strength.PriceIsLast | dataset/item_template_manager.cpp:59-78 | a row sets the price of its place unless a later one does |
| Strength.SizeIsHighest | dataset/item_template_manager.cpp:59-78 | a quality has one level more than the highest of its rows |
| Strength.GetStrengthEquipMoney | dataset/item_template_manager.cpp:88-110 | price and new place of one step, as the step function |
| Strength.StepIsSuccessor | dataset/item_template_manager.cpp:88-110 | a step leads to the least place above, and it succeeds if and only if that place exists at most one quality up with a price other than -1 |
| Strength.StepUsesPlaces | dataset/item_template_manager.cpp:88-110 | each step leaves exactly one place less above |
| Strength.Quote | item_servlet.cpp:231-260 | the loop ends without error if and only if every step of the path passes its checks, with the summed price and the end of the path; else with the error of the first that fails |
| Strength.PathsEnd | dataset/item_template_manager.cpp:88-110 | n steps lead to the n-th place above the start: exactly n places above the start are not above the end |
| Strength.PathOfClimb | item_servlet.cpp:231-260 | for places each of which is the least place above the one before: the path of as many steps costs the sum of their prices and ends at the last |
| Strength.ClimbIsAll | item_servlet.cpp:231-260 | these are exactly the places above the start and not above the end |
| Strength.StepsTell | item_servlet.cpp:231-260 | how far the loop gets as a list of places and templates, and why the next step ends it: no place, level, sum of prices above the money, or template |
| Strength.StrengthItem | item_servlet.cpp:214-267 | nothing changes and the first failing step decides the error; or there is a list of count places, each the least above the one before, the money paid is the sum of their prices and stays non-negative, and the item is at the last |

## Left out

- BsonTrees.FittingDocumentIsWritten: its size condition suffices but is not necessary; `BsonRoom.WrittenExactly` has
  the exact one.
- Md5.State.Append: the offset in the block and the byte count together stay below 2^31, since they are added as ints;
  the no-op for a negative count is not modelled.
- FrameBuffer.SerializeToBuffer: a body whose frame is longer than 8192 bytes, which the original copies beyond its
  buffer.
- ItemBags.ItemBag.AddItem: bags of fewer than 32767 cells, since a cell index is a 16-bit number.
- ItemBags.ItemBag.StackItem: does not model 16-bit overflow of a number above the stack limit.
- SoulServlet.SwallowAll: does not model 32-bit overflow of experience; the soul it reads after freeing it is taken to
  have the value it had. A quality outside the table, which the original's guard does not catch, is excluded.
- BSON builder: `bson_init_size`, unfinished data, a null pointer as name or document, a failing allocation, the DBREF
  type and generated object ids. `bson_append_element` with a new name.
- `bson_finish` with open subobjects reports through `bson_fatal_msg`, which returns in the configuration modelled
  (`R_SAFETY_NET`), and then finishes; without that setting the process exits.
- The conversion of the grown size from double to int, out of the range of int, is taken to give a negative number, as
  on x86.
- Parser and iterator on bytes that are not a finished document.
- BCON: entries that are null `char *`, a union member that is read as another type, more than 1024 levels and an
  array index above 99999999 are outside the machine (`None`), since the original leaves its arrays or misreads there.
  The printer.
- Frames: version 0 in a header divides by zero (an outcome of the model); `copyIn` without its bound.
- Items: negative stack limits, the wrap of the clock, loading from the database and gems.
- Souls: `doMoveSoulItem` changes an index without the vector, and `doBuySoulItem` is unfinished.
- Random draws, the clock and new database ids are inputs. Floating point values are opaque eight bytes.
- `bson-dev`, `bson_parser.cpp`, the ring queue, the timer, sockets, accounts and scenes: easy or unfinished code.
