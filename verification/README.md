# libmpeg2 in Dafny

libmpeg2 is an MPEG-1/2 video decoder in C. This project models its core: the bit reader and the block decoders, the
integer IDCT, the resumable stream parser, picture and frame-buffer management, quantiser tables, motion vectors and the
addresses that motion compensation reads, the walk over macroblocks, the packed Alpha kernels, picture tags, and two stream
tools, the program-stream demultiplexer and the corruption tool. Properties are proved for all inputs, all runs and all
reachable states of the model.

Code that changes objects and buffers in place is a class or a method over arrays, proved against a specification function;
the properties are lemmas about those functions. `dafny verify dfyconfig.toml` verifies the project.

## Files

| file | part of the program |
|---|---|
| `Words.dfy`, `Wrappers.dfy` | C integers: powers of two, bitwise operators, truncating division; `Option` |
| `BitReader.dfy` | the 32-bit window of `vlc.h` against a bit-serial reading of the same bytes |
| `DctTables.dfy`, `BlockDecoder.dfy`, `BlockProperties.dfy`, `BlockRoundTrip.dfy`, `DcCoefficient.dfy`, `Overrun.dfy` | coefficient codes and block decoders of `slice.c` |
| `Scans.dfy`, `Cosines.dfy`, `Idct.dfy`, `Residual.dfy` | scan tables, the inverse cosine transform, `idct.c` against it, and decoding a block into the picture |
| `Parser.dfy`, `ParserSafety.dfy`, `Decoder.dfy`, `HeaderStates.dfy`, `LostSlice.dfy` | `decode.c`: the parser as a machine over bytes, what its runs keep, the functions themselves, the header states they depend on, and a stream that a cut spoils |
| `LegalStreams.dfy`, `LegalHeaders.dfy`, `FaultyStreams.dfy` | all that `mpeg2_parse` returns on streams without errors, and where it goes on after an error |
| `DisplayOrder.dfy`, `Pictures.dfy` | display order, and the bookkeeping of `header.c` that produces it |
| `Quantiser.dfy` | quantiser matrices and the prescaled tables of `header.c` |
| `MotionVectors.dfy`, `Prediction.dfy`, `Increments.dfy`, `Walk.dfy` | motion vectors, prediction addresses, address increments and the macroblock walk of `slice.c` |
| `Lanes.dfy`, `Packed.dfy`, `PackedAdd.dfy` | bytes and shorts in words; `motion_comp_alpha.c` and `idct_alpha.c` against the scalar code |
| `Demux.dfy`, `Demuxer.dfy`, `Mux.dfy` | `demux` of `extract_mpeg2.c`, byte by byte and as written, and on streams that a multiplexer writes |
| `Corrupt.dfy`, `Tags.dfy` | the active list of `corrupt_mpeg2.c`; picture tags |

## Where the code does not do what one would expect

- In the branch for the 8-bit tables a code that runs past position 63 is handled as an escape, and the position can move
  back (`BackwardsIsOverrun`). A block that then returns 129 takes the DC shortcut with other coefficients set, and they stay
  in `DCTblock`: `DecodeOverrun` decodes seven bytes, with the zig-zag scan, that do this. `SliceNonIntraDct` says exactly when
  the block is left clear.
- After an error the stored action can stay `seek_chunk`. If the next buffer ends inside a slice, the next call does not
  know that it was copying one. That slice is not decoded, and what had been copied of it stays in the chunk buffer, in front
  of the next slice that is decoded (`NextSliceAfterCut`), unless a picture, a sequence header or end, or a group of pictures
  comes first (`CodeAfterCut`). `CutHarmlessExactly` proves that those are the only cuts that matter, and `StreamLosesSlice`
  reaches one from the reset decoder with a concrete stream.
- The DC shortcut of `mpeg2_idct_add_c` is exact if and only if its test lets it be taken, and the row shortcut of `idct_row`
  if and only if the first value is even. The row shortcut of `idct_alpha.c` shifts an unsigned word and agrees with that of
  `idct.c` if and only if the first value is not negative (`AlphaRowShortcut`).
- The bits of a motion vector may not all be in the window. With an `f_code` up to 9, the largest that ISO/IEC 13818-2
  allows, they are. With a larger one, which the source stores as well, a component is what is coded if and only if the
  bits that come after the end of the window are zero, or the code word is long and brings a refill, or the difference is
  the largest there is and only its sign is lost (`Motion.OneVector`); `StarvedVector` reads five bytes for which it is not.
- `motion_fi_dmv` and `motion_fr_dmv` read the vertical component and the second `dmvector` without refilling the window after
  the first. What is read is what is coded if and only if the bits that come after the end of the window are zero or the
  code word is long and brings a refill (`DualPrime`, `FrameDual`). Up to a vertical `f_code` of 6 that is always so
  (`LevelsFeed`); levels of ISO/IEC 13818-2 stop at 5. `StarvedDualPrime` reads five bytes for which it is not.
- `motion_fr_field` and `motion_fr_dmv` do not bound the vertical component. It is that of section 7.6.3.1 if and only if it is
  in range (`FieldVectors`). A predictor that is left out of range does not keep the next frame vector out of range
  (`Motion.OneVector`).
- The chroma row of 16x8 prediction is computed modulo 2^32 and may have its top bit set. An even chroma stride takes that
  bit away; with an odd one the address is 2^31 bytes off (`ChromaAddress`). So chroma is read at the right place if and
  only if the stride is even, or for the lower half if the block starts at line 7.5 of the plane or below (`Motion420`).
  `OddChroma` has a field of lines of 17 bytes for which it is not.
- At the end of a sequence `mpeg2_header_end` names a buffer that holds a picture if and only if a reference picture was
  decoded (`HeaderEnd`); `EmptySequence` ends before its first picture and is told to show a buffer that holds nothing.
- A picture gets the tag that the documentation promises if and only if at most one tag was set since its start code;
  otherwise it gets one that was set after it (`Tagger.HeaderPicture`), as `LateTag` does.

## Model

Line numbers are those of the repository's files.

| member | source | states |
|---|---|---|
| `BitReader.BitReader.constructor` | libmpeg2/vlc.h:33-40 | a reader starts with 32 bits in the window, which are the first 32 bits of the data |
| `BitReader.BitReader.GetWord` | libmpeg2/vlc.h:27-31 | 16 more bits of the stream fit below the 16 - shift bits that are left, and zeros are below them |
| `BitReader.BitReader.NeedBits` | libmpeg2/vlc.h:43-49 | the window invariant holds, at least 16 bits are in the window, the position is unchanged |
| `BitReader.BitReader.DumpBits` | libmpeg2/vlc.h:52-56 | the position moves on by num bits of the stream and the window invariant is kept |
| `BitReader.BitReader.UBits` | libmpeg2/vlc.h:59-59 | the value is the next num bits of the bit-serial stream |
| `BitReader.BitReader.SBits` | libmpeg2/vlc.h:62-62 | the value is the next num bits as two's complement |
| `BitReader.BitsOfByte` | libmpeg2/vlc.h:27-62 | eight bits at a multiple of eight are the byte there, zero after the end |
| `DctTables.B14Code8Decodes` | libmpeg2/vlc.h:294-304 | any 16 bits that start with a code word of Table B.14 are looked up as its run, level and length |
| `DctTables.B15Code8Decodes` | libmpeg2/vlc.h:331-395 | the same for Table B.15 and its 8-bit look-up |
| `BlockRoundTrip.StandardBookValid` | libmpeg2/vlc.h:248-395 | the tables decode every code word of Tables B.14 and B.15, by all branches of the three decoders |
| `BlockDecoder.ReadCode` | libmpeg2/slice.c:343-452 | for any bits at all every index into a table is in range, and the entry is that of the next 16 bits |
| `BlockDecoder.GetBlock` | libmpeg2/slice.c:343-684 | the three decoders on the window store, return and consume what the bit-serial decoding does, for any bits |
| `BlockDecoder.SaturateMacro` | libmpeg2/slice.c:336-341 | the exclusive or with 2047 and the sign is clipping to -2048..2047, times sixteen |
| `BlockProperties.TableDequantised` | libmpeg2/slice.c:343-684 | a table level is stored as 16 times its value by sections 7.4.2.3 and 7.4.3 of ISO/IEC 13818-2 |
| `BlockProperties.EscapeDequantised` | libmpeg2/slice.c:395-405 | so is the level of an escape code, of either sign |
| `BlockProperties.SumIsOdd` | libmpeg2/slice.c:343-684 | for any bits in which the position never moves back, the decoded coefficients have an odd sum and keep 16-bit range (section 7.4.4) |
| `BlockProperties.StopCorrects` | libmpeg2/slice.c:446-451 | the exclusive or on the last coefficient is the mismatch control of section 7.4.4 |
| `BlockProperties.BackwardsIsOverrun` | libmpeg2/slice.c:395-405 | the position moves back only at a code that is not the escape and runs past position 63 |
| `Overrun.OverrunLeavesBlockDirty` | libmpeg2/slice.c:625-635 | seven bytes for which, in zig-zag scan, a block returns 129 with coefficients that the shortcut does not clear |
| `Overrun.DecodeOverrun` | libmpeg2/slice.c:960-972 | decoding them leaves a block that was clear with an entry set |
| `BlockRoundTrip.RoundTrip` | libmpeg2/slice.c:343-684 | any list of runs and levels that fits, written at any bit in codes or escapes, is decoded to its reconstruction with mismatch control, from position 0 on in intra blocks and from the first position in others, and the reader is on the bit after end of block |
| `BlockRoundTrip.PlaceAt` | libmpeg2/slice.c:343-684 | that reconstruction has each level of the list at its scan position and nothing elsewhere (section 7.2.2) |
| `DcCoefficient.GetDiff` | libmpeg2/slice.c:262-334 | the difference and the bits consumed are those of section 7.2.1, refills included |
| `DcCoefficient.DiffRoundTrip` | libmpeg2/vlc.h:226-245 | every difference of up to 11 bits written with Tables B.12 and B.13 is read back, and no bit more |
| `Scans.TableIsScan` | libmpeg2/header.c:60-75 | both scan tables, rearranged for the transform, visit each position once, from 0 to 63 |
| `Scans.ZigZag` | libmpeg2/header.c:61-67 | the zig-zag scan runs along the anti-diagonals in alternating directions and turns at the edges |
| `Scans.AltRuns` | libmpeg2/header.c:69-75 | the alternate scan runs down columns, but up the lower parts of the second and third, between the jumps of Figure 7-3 |
| `Scans.RearrangedInjective` | libmpeg2/idct.c:282-287 | the rearrangement is a permutation of the positions |
| `Cosines.WeightsAreCosines` | libmpeg2/idct.c:33-38 | every weight is the integer nearest to 2048 times the square root of 2 times its cosine, for the cosines that the half-angle formula gives |
| `Idct.RowShortcut` | libmpeg2/idct.c:69-86 | the row shortcut equals the full row pass if and only if the first value is even |
| `Idct.ColumnBound` | libmpeg2/idct.c:122-161 | for any 16-bit inputs every column result is in -3826..3826 |
| `Idct.TransformBound` | libmpeg2/idct.c:163-174 | so is every result of both passes over any 16-bit block |
| `Idct.Butterfly` | libmpeg2/idct.c:54-67 | three multiplications equal four, and no intermediate value leaves 32 bits |
| `Idct.Butterflies` | libmpeg2/idct.c:88-120 | for any 16-bit inputs, output k is the bias plus the sum of the cosines of n(2k + 1)/16 of half a turn times coefficient n, coefficients being in the rearranged order; exactly for four of the outputs, within the rounding of 181/256 for the others; and no intermediate value leaves 32 bits |
| `Idct.TransformInPlace` | libmpeg2/idct.c:163-174 | in place, the rows become inverse cosine transforms of the rows, rounded and kept in 16 bits, and the columns those of the columns of that; if the rows fit, every entry is that of the two-dimensional inverse cosine transform of the block, within an explicit bound |
| `Idct.TransformIsCosines` | libmpeg2/idct.c:163-174 | the double sum of both passes: entry (i, j) is the sum over all 64 coefficients times their two cosines, with coefficient (v, u) at its rearranged place, divided by the scale and rounded |
| `Idct.DcShortcut` | libmpeg2/idct.c:190-234 | for a DC coefficient alone, as mismatch control leaves it, the shortcut's constant equals the full transform if and only if the test takes it |
| `Idct.IdctCopy` | libmpeg2/idct.c:163-188 | the clipped transform replaces the area, every clip index is in range, the block is clear |
| `Idct.IdctAdd` | libmpeg2/idct.c:190-234 | the clipped sum with the transform, by either path; the shortcut clears the first and last entries only |
| `Idct.PaintAndClear` | libmpeg2/idct.c:163-188 | the loop over rows paints the area, row by row, and clears all 64 entries |
| `Idct.ClipIsNearest` | libmpeg2/idct.c:280-281 | the clip table gives the nearest pixel value |
| `Idct.PaintedPixel` | libmpeg2/idct.c:175-187 | pixel c of row r of a painted area is its value, or its sum with its value, clipped |
| `Idct.PaintedElsewhere` | libmpeg2/idct.c:175-187 | every pixel outside the rows of the area is unchanged |
| `Idct.RenderedPixel` | libmpeg2/idct.c:163-188 | pixel c of row r of a rendered area is the clipped value (r, c) of the two-dimensional inverse cosine transform of its block, or the clipped sum with it |
| `Idct.RenderedElsewhere` | libmpeg2/idct.c:163-188 | rendering changes no other pixel |
| `Residual.SliceNonIntraDct` | libmpeg2/slice.c:960-972 | the picture gets the sum with the decoded block; the block is clear if and only if the shortcut is not taken or nothing lies between its ends; for any list of runs and levels that was written, exactly its bits are consumed, the sum is that with its reconstruction, and the block is clear |
| `Residual.SliceIntraDct` | libmpeg2/slice.c:931-958 | the predictor, the picture and the clear block after an intra block of either table; for any DC level that was written as a difference from the last one, and any list after it, the predictor is the level times 2^precision, the pixels are those of its values, and exactly its bits are consumed |
| `Residual.DcRoundTrip` | libmpeg2/slice.c:939-942 | a DC level written as a difference with Tables B.12 and B.13 is read back, scaled, whatever the level before it (section 7.2.1) |
| `Residual.IntraRoundTrip` | libmpeg2/slice.c:931-958 | an intra block that is written is decoded to its DC level at entry 0, its other levels from scan position 1 on, and mismatch control |
| `Residual.ResetLevel` | libmpeg2/slice.c:1712-1713 | the predictor at the start of a slice stands for half the range of DC levels, at every precision |
| `Residual.IntraLuma` | libmpeg2/slice.c:1844-1847 | four luma blocks in turn, each predicted from the one before, are decoded to their DC levels and painted in their quarters |
| `Residual.ListDecoded` | libmpeg2/slice.c:564-684 | a block that is not intra is decoded to the reconstruction of the list that was written; 129 means a DC coefficient alone |
| `Residual.LastIsDcOnly` | libmpeg2/slice.c:564-684 | 129 is returned only for a DC coefficient alone, where the position never moves back |
| `Residual.DecodeShorts` | libmpeg2/slice.c:343-684 | for any bits at all, the decoded block fits in 16 bits |
| `Parser.RunSplit` | libmpeg2/decode.c:152-291 | cutting the data in two changes no state returned and no chunk handed over |
| `Parser.BufferSplitInvariance` | libmpeg2/decode.c:152-291 | any partition into buffers gives the states and chunks of the whole and the same state to go on from, unless a buffer ends in a slice copied with `seek_chunk` stored |
| `ParserSafety.CutHarmlessExactly` | libmpeg2/decode.c:152-211 | a return for want of data goes unnoticed whatever follows if and only if no slice is being copied with `seek_chunk` stored |
| `ParserSafety.NoErrorSplit` | libmpeg2/decode.c:152-291 | a run without STATE_INVALID may be cut anywhere |
| `ParserSafety.EveryChunkIsProper` | libmpeg2/decode.c:137-291 | for any bytes of one buffer, header functions get codes 00, b2, b3, b5, b8 only, slices get slice codes, and each chunk ends at its first 00 00 01 |
| `ParserSafety.BuffersProper` | libmpeg2/decode.c:152-291 | so for any bytes in any number of buffers, unless a buffer ends with bytes of a slice copied while `seek_chunk` is stored |
| `ParserSafety.HarmlessProper` | libmpeg2/decode.c:152-291 | with cuts that change nothing, the chunks of all the buffers are the whole and proper ones of the uncut stream |
| `ParserSafety.SoundBoundary` | libmpeg2/decode.c:152-211 | the next call starts from a sound state exactly when that is not so |
| `ParserSafety.NextSliceAfterCut` | libmpeg2/decode.c:162-187 | after such a cut the slice is lost, and the next one gets its own bytes alone if and only if none were left |
| `ParserSafety.CodeAfterCut` | libmpeg2/decode.c:188-211 | the bytes stay in the chunk buffer unless code 00, b3, b7 or b8 comes |
| `LostSlice.CutInSlice` | libmpeg2/decode.c:152-291 | from the reset decoder, any stream of a sequence, a picture, a slice, code b4 and two slices, cut inside the first of these, loses it and puts its bytes in front of the other |
| `LostSlice.StreamLosesSlice` | libmpeg2/decode.c:152-291 | a concrete stream in two buffers whose events are not those of the whole, with a chunk that has a start code inside |
| `ParserSafety.ShiftIsPrefix` | libmpeg2/decode.c:43-72 | the scanner's register shows a start code exactly when 00 00 01 came last |
| `Decoder.Mpeg2Dec.SkipChunk` | libmpeg2/decode.c:43-72 | where the scan of the buffer ends, what is left in `shift`, and the count returned |
| `Decoder.Mpeg2Dec.CopyChunk` | libmpeg2/decode.c:75-109 | the same, and what is in the chunk buffer; a prefix split between buffers is found |
| `Decoder.Mpeg2Dec.SeekChunk` | libmpeg2/decode.c:122-135 | the run goes on at the byte after the next start code, or with nothing left |
| `Decoder.Mpeg2Dec.SeekHeader` | libmpeg2/decode.c:137-148 | the run goes on up to a return value, and nothing that is seen is lost or repeated |
| `Decoder.Mpeg2Dec.ParseHeader` | libmpeg2/decode.c:213-257 | the same for headers and their user data, with the chunk buffer full or not |
| `Decoder.Mpeg2Dec.Transit` | libmpeg2/decode.c:258-291 | the switch on code and state is the machine's transition |
| `Decoder.Mpeg2Dec.PictureLoop` | libmpeg2/decode.c:162-211 | the loop over the slices of a picture carries on the run |
| `Decoder.Mpeg2Dec.Parse` | libmpeg2/decode.c:152-211 | a call carries on the run from the stored action, returns its next state, or uses up the buffer |
| `Decoder.Mpeg2Dec.Feed` | libmpeg2/decode.c:111-115 | repeated calls on one buffer give exactly the events of the run over it, and terminate |
| `Decoder.Mpeg2Dec.Decode` | libmpeg2/decode.c:111-291 | so do calls on a sequence of buffers |
| `LegalStreams.UnitRuns` | libmpeg2/decode.c:152-291 | for any header functions that accept it, a sequence header, a group header or a picture with its extensions, user data and slices gives its chunks, the state that its header leads to, its slices, and the state at the next code, and the calls that finish headers and start slices come in that order |
| `LegalStreams.SequenceRuns` | libmpeg2/decode.c:152-291 | so do any number of them up to the end code, where STATE_END is returned and the header states are reset |
| `LegalStreams.FileRuns` | libmpeg2/decode.c:152-291 | so does any number of sequences, from any resting state |
| `LegalHeaders.UnitEventsAre` | libmpeg2/header.c:679-808 | with the states of `header.c` those are STATE_SEQUENCE or one of its three variants, STATE_GOP, STATE_PICTURE or STATE_PICTURE_2ND, and STATE_SLICE, or STATE_SLICE_1ST after a first field; only a picture may follow that |
| `LegalHeaders.LegalFile` | libmpeg2/decode.c:137-291 | from the reset decoder, over any buffers, the events of a file without errors are these and no others, and STATE_INVALID is not among them |
| `LegalHeaders.DecodeLegal` | libmpeg2/decode.c:111-291 | so they are for the calls of `mpeg2_parse` on those buffers |
| `FaultyStreams.HeaderFault` | libmpeg2/decode.c:213-291 | for any header with extensions and user data, if a code comes that is not legal in the state it led to, or its function reports an error, the chunks are handed over, STATE_INVALID is returned once, nothing is finalized, and a header is sought from that code on |
| `FaultyStreams.FieldMissing` | libmpeg2/decode.c:197-211 | a code that ends a frame after one field returns STATE_INVALID in place of STATE_SLICE |
| `FaultyStreams.StrayCode` | libmpeg2/decode.c:197-211 | any other code after the slices of a picture returns STATE_INVALID, and if the next code ends the picture its state is returned as well |
| `FaultyStreams.HeaderTooLong` | libmpeg2/decode.c:224-243 | a header of any length that the chunk buffer has no room for is not handed over, STATE_INVALID is returned once, and the start code at its end is found |
| `FaultyStreams.SliceTooLong` | libmpeg2/decode.c:163-182 | a slice that it has no room for returns STATE_INVALID |
| `FaultyStreams.Resumes` | libmpeg2/decode.c:137-148 | after an error everything is skipped up to the next header of a sequence, a group or a picture, and the units from there up to the end code give all that they give without an error |
| `FaultyStreams.Recovers` | libmpeg2/decode.c:137-291 | a broken header, anything up to the next header, and the rest of a sequence: the events are those of its parts with one STATE_INVALID |
| `HeaderStates.RunSafe` | libmpeg2/header.c:679-808 | over any bytes, from a state where `picture` is in its four slots, at most one second field is finalized since the last first field and only extensions that have a parser are dispatched, that stays so |
| `HeaderStates.DecoderSafe` | libmpeg2/header.c:679-808 | so it is from the reset decoder, over any buffers, however they are cut |
| `HeaderStates.ExtensionSafe` | libmpeg2/header.c:835-850 | a call of the extension dispatcher keeps that |
| `DisplayOrder.ShownOnce` | libmpeg2/header.c:942-965 | in the order of section 6.1.1.11 of ISO/IEC 13818-2 every frame is shown exactly once |
| `DisplayOrder.Reordering` | libmpeg2/header.c:679-725 | decoding undoes the reordering that an encoder makes |
| `DisplayOrder.CodedOrderKeeps` | libmpeg2/header.c:679-725 | the reordering loses no frame and adds none |
| `Pictures.PictureManager.SetFbuf` | libmpeg2/header.c:524-540 | the buffer taken is the one that is neither reference, and the three are pairwise distinct |
| `Pictures.PictureManager.HeaderPicture` | libmpeg2/header.c:542-551 | a picture header opens a frame unless the second field of one is due |
| `Pictures.PictureManager.FinalizeFirst` | libmpeg2/header.c:679-801 | the slot that is not the newest reference is taken; the rotation holds both references; `display_picture` and `display_fbuf` name one frame; the buffer reused is the one given up last |
| `Pictures.PictureManager.FinalizeSecond` | libmpeg2/header.c:679-808 | a second field keeps all that and is described with its first |
| `Pictures.PictureManager.SliceStart` | libmpeg2/header.c:904-930 | forward and backward references are the older and newest reference frames, by the rotation and by the toggle of the conversion path |
| `Pictures.PictureManager.ShowsPlanned` | libmpeg2/header.c:679-725 | what is shown is a frame under its own description, and it is the frame whose turn it is |
| `Pictures.PictureManager.HeaderEnd` | libmpeg2/header.c:942-965 | the end of a sequence names the newest reference frame by slot and by buffer; the buffer holds a frame if and only if a reference frame was decoded; without conversion the buffer given up is that of the older reference frame, with low delay that of the newest |
| `Pictures.EmptySequence` | libmpeg2/header.c:942-965 | a sequence that ends before its first picture is shown from a buffer that holds nothing |
| `Pictures.PictureManager.DecodeFrame` | libmpeg2/header.c:542-930 | a frame or pair of fields keeps the invariant that ties slots, buffers and toggle to what has been decoded |
| `Pictures.PictureManager.DecodeSequence` | libmpeg2/header.c:524-965 | a sequence is shown in display order; with low delay, in coded order |
| `Pictures.ShowSequence` | libmpeg2/header.c:524-965 | frames reordered by an encoder come out in the order in which they were to be shown |
| `Quantiser.NonLinearSteps` | libmpeg2/header.c:860-880 | the steps of the non-linear scale (Table 7-6) |
| `Quantiser.ScaleIsTable` | libmpeg2/header.c:860-880 | both columns of Table 7-6 in closed form: twice the code, or the code up to 8 and then in steps of 2, 4 and 8 |
| `Quantiser.ProductFits` | libmpeg2/header.c:860-880 | a prescaled value fits in 16 bits |
| `Quantiser.MatrixByteIs` | libmpeg2/header.c:818-833 | the byte put together from two is eight unaligned bits of the extension |
| `Quantiser.LoadMatrix` | libmpeg2/header.c:818-833 | a matrix is the 512 bits of the stream in zig-zag order |
| `Quantiser.Quantisers.CopyMatrix` | libmpeg2/header.c:411-419 | the matrix is replaced, and its table is marked if that changes it |
| `Quantiser.Quantisers.FinalizeMatrix` | libmpeg2/header.c:421-437 | the matrices that luma and chroma use, through pointers that may alias, are those in force by section 6.3.11 of ISO/IEC 13818-2 |
| `Quantiser.Quantisers.QuantMatrixExt` | libmpeg2/header.c:818-833 | the loads are those of the syntax of section 6.2.3.2, bit by bit |
| `Quantiser.PutInZigzag` | libmpeg2/header.c:165-187 | 64 values are stored in zig-zag order |
| `Quantiser.DefaultMatrix` | libmpeg2/header.c:43-59 | the default matrix has the entries of section 6.3.11, row by row, at the places of the transform |
| `Quantiser.Quantisers.HeaderSequence` | libmpeg2/header.c:165-187 | a sequence header loads both luma matrices, from the bits of section 6.2.2.1 or the defaults, and drops what waits for chroma |
| `Quantiser.Quantisers.Prescale` | libmpeg2/header.c:860-880 | a table is filled with scale times matrix, or was, and no other table changes |
| `Quantiser.Quantisers.SliceStart` | libmpeg2/header.c:882-901 | the tables that pictures of the type use are filled, from any values of `scaled` |
| `Quantiser.Quantisers.GetQuantizerScale` | libmpeg2/slice.c:135-157 | every table row that a slice uses is the matrix in force times a scale, which is that of Table 7-6 for the code |
| `MotionVectors.GetMotionDelta` | libmpeg2/slice.c:159-211 | for every `f_code` of the syntax the bits consumed are those of the code, and the difference is the one coded if and only if the window has its bits or they are zero |
| `MotionVectors.DeltaBound` | libmpeg2/slice.c:159-211 | a difference has magnitude at most 16 times 2^f, for any bits |
| `MotionVectors.DeltaHasCode` | libmpeg2/vlc.h:156-168 | every difference in that range but 0 has a code word and a residual |
| `MotionVectors.DeltaRoundTrip` | libmpeg2/vlc.h:156-168 | every difference in range, 0 included, written with Table B.10 is read back, and no bit more |
| `MotionVectors.DmvRoundTrip` | libmpeg2/vlc.h:170-172 | a difference of dual prime written with Table B.11 is read back, and no bit more |
| `MotionVectors.BoundCongruent` | libmpeg2/slice.c:213-216 | the pair of shifts gives the one congruent vector of the range |
| `MotionVectors.BoundAnyVector` | libmpeg2/slice.c:213-216 | the result is in range for every vector |
| `MotionVectors.BoundIsCorrected` | libmpeg2/slice.c:213-216 | for a predictor in range that is the single correction of section 7.6.3.1 |
| `MotionVectors.ComponentIsStandard` | libmpeg2/slice.c:213-216 | for a predictor in range a bounded sum with the coded difference is the component of section 7.6.3.1 |
| `MotionVectors.VectorRoundTrip` | libmpeg2/slice.c:1285-1305 | any vector in range, written as differences from any predictors in range, is read back |
| `MotionVectors.FieldRoundTrip` | libmpeg2/slice.c:1307-1345 | so is the vector of a field in a frame picture, whose vertical difference is from half the predictor |
| `MotionVectors.DualRoundTrip` | libmpeg2/slice.c:1347-1381 | so are a component, a `dmvector`, a difference and another `dmvector`, in that order |
| `MotionVectors.Mpeg1RoundTrip` | libmpeg2/slice.c:1257-1281 | so is a component of an MPEG-1 vector, in half pixels, or in full pixels if it is as even as its predictor |
| `MotionVectors.Motion.Reset` | libmpeg2/slice.c:1713-1716 | the predictors are zero, and in range |
| `MotionVectors.Motion.OneVector` | libmpeg2/slice.c:1285-1305 | for every `f_code` the predictors are in range afterwards and the position is that of the code; each component is what is coded if and only if the window has its bits or they are zero or only the sign of the largest difference is lost, and always for an `f_code` up to 9 |
| `MotionVectors.StandardFeeds` | libmpeg2/slice.c:1285-1305 | with an `f_code` up to 9 the window has the bits of both components |
| `MotionVectors.StarvedVector` | libmpeg2/slice.c:1285-1305 | five bytes for which, with a vertical `f_code` of 11, a vector is not what is coded |
| `MotionVectors.Motion.TwoVectors` | libmpeg2/slice.c:1434-1475 | with an `f_code` up to 9 both vectors of 16x8 prediction and their field selections are what is coded, and in range |
| `MotionVectors.Motion.FieldVectors` | libmpeg2/slice.c:1307-1345 | the field selections and vectors of field prediction in a frame are what is coded; a vertical component is that of section 7.6.3.1 if and only if it is in range, and its predictor is twice that |
| `MotionVectors.Motion.DualPrime` | libmpeg2/slice.c:1477-1509 | for dual prime the horizontal vector and difference are right, and the vertical ones and the position if and only if the bits after the end of the window are zero or the code brings a refill |
| `MotionVectors.Motion.FrameDual` | libmpeg2/slice.c:1347-1381 | so for dual prime in a frame, with a vertical component in lines of a field that is not bounded |
| `MotionVectors.LevelsFeed` | libmpeg2/slice.c:1477-1509 | up to a vertical `f_code` of 6 that is always so |
| `MotionVectors.StarvedDualPrime` | libmpeg2/slice.c:1477-1509 | five bytes for which dual prime does not read what is coded |
| `MotionVectors.Motion.Conceal` | libmpeg2/slice.c:1511-1549 | what holds for one vector, for concealment vectors with their marker bit |
| `MotionVectors.Mpeg1Motion.OneVector` | libmpeg2/slice.c:1257-1281 | so for MPEG-1 vectors, in half or full pixels |
| `Prediction.InitFbuf` | libmpeg2/slice.c:1600-1650 | where the fields of each reference start, of which frame they are (the same frame for the other parity of a second field), strides, those of rows of macroblocks included, and limits |
| `Prediction.FieldInFrame` | libmpeg2/slice.c:1600-1641 | what a field picture reads in a field plane, luma and chroma, lies in the planes of its frame, on every second line |
| `Prediction.ClampPosition` | libmpeg2/slice.c:974-989 | one unsigned comparison clamps the position at both ends |
| `Prediction.Motion420` | libmpeg2/slice.c:974-999 | every row and column read of luma and chroma lies in the plane, at the clamped position, for every vector, whole or 16x8; of chroma if and only if the stride is even, or for the lower half if the block starts at line 7.5 of the plane or below |
| `Prediction.MotionField420` | libmpeg2/slice.c:1001-1028 | so for one field of a frame, on lines of that field only |
| `Prediction.MotionDmv420` | libmpeg2/slice.c:1030-1064 | so for dual prime in a frame, both fields |
| `Prediction.MotionZero420` | libmpeg2/slice.c:1066-1075 | so without a vector |
| `Prediction.Motion422` | libmpeg2/slice.c:1077-1100 | so for 4:2:2, where half a luma address is a chroma address |
| `Prediction.MotionField422` | libmpeg2/slice.c:1102-1126 | so for one field in 4:2:2 |
| `Prediction.MotionDmv422` | libmpeg2/slice.c:1128-1160 | so for dual prime in 4:2:2 |
| `Prediction.MotionZero422` | libmpeg2/slice.c:1162-1170 | so without a vector in 4:2:2 |
| `Prediction.ChromaAddress` | libmpeg2/slice.c:990-993 | the chroma row modulo 2^32 gives the right address if and only if the sum is not negative or the stride is even; otherwise it is 2^31 bytes away |
| `Prediction.OddChroma` | libmpeg2/slice.c:974-999 | a decoder with an odd chroma stride and a vector for which chroma is not read where luma is |
| `Increments.GetIncrement` | libmpeg2/slice.c:2031-2054 | the increment and the bits consumed are those of Table B.1 with escapes and stuffing, for any bits |
| `Increments.GetFirstIncrement` | libmpeg2/slice.c:1742-1768 | the same at the start of a slice, where a zero bit is still in the window before the code |
| `Increments.ClearedDump` | libmpeg2/slice.c:1752-1764 | that bit is zero again after an escape, and after stuffing because it is cleared |
| `Increments.IncrementRoundTrip` | libmpeg2/vlc.h:398-434 | an increment of any size, written with escapes and a code word, is read back, and no bit more |
| `Increments.StuffedRoundTrip` | libmpeg2/slice.c:2035-2054 | escapes and stuffing before a code word, in any order, are read as 33 for every escape and nothing for stuffing |
| `Walk.Walker.Start` | libmpeg2/slice.c:1704-1783 | a slice starts at its row plus the increment in raster order, with offsets and destination of that address, or is refused if that is outside |
| `Walk.Walker.Next` | libmpeg2/slice.c:1565-1588 | the next raster address with its offsets and destination, or the end of the picture |
| `Walk.WritesInside` | libmpeg2/slice.c:1704-1785 | the 16 by 16 pixels of every visited macroblock lie in the picture, or in its first row of macroblocks when that is converted |
| `Walk.ChromaInside` | libmpeg2/slice.c:1704-1785 | so do its 8 by 8 pixels in either chroma plane, 8 by 16 in 4:2:2 |
| `Walk.Slice` | libmpeg2/slice.c:2027-2073 | a slice visits exactly its coded and skipped addresses in order, up to the end of the picture, each at base plus row times stride |
| `Lanes.Avg2Lanes` | libmpeg2/motion_comp_alpha.c:34-37 | the two-way average is rounded up in every byte with no carry between bytes |
| `Lanes.Avg4Lanes` | libmpeg2/motion_comp_alpha.c:135-165 | the four-way average is rounded in every byte |
| `Lanes.ShiftIn` | libmpeg2/motion_comp_alpha.c:74-83 | shifting and or-ing in a byte gives the word one pixel on |
| `Lanes.Minub8Lanes` | libmpeg2/idct_alpha.c:249-270 | the packed minimum, byte by byte |
| `Packed.McFunc` | libmpeg2/motion_comp.c:82-122 | the scalar prediction, from the rows and columns needed and no others |
| `Packed.Op` | libmpeg2/motion_comp_alpha.c:57-72 | the packed copy or average is the scalar one for any number of rows |
| `Packed.OpX2` | libmpeg2/motion_comp_alpha.c:74-95 | so with the pixel to the right |
| `Packed.OpY2` | libmpeg2/motion_comp_alpha.c:97-133 | so with the row below; the rolling loop reads no row after the last one needed |
| `Packed.OpXY2` | libmpeg2/motion_comp_alpha.c:135-212 | so with all four neighbours |
| `Packed.AddDc` | libmpeg2/idct_alpha.c:236-280 | the packed addition of a constant is clipped addition for each pixel |
| `PackedAdd.LaneSum` | libmpeg2/idct_alpha.c:213-220 | taking the sign off and putting it back adds in 16 bits with no carry out |
| `PackedAdd.AddBlock` | libmpeg2/idct_alpha.c:205-234 | the packed addition of a block is clipped addition for each pixel, and clears the block |
| `PackedAdd.AlphaRowShortcut` | libmpeg2/idct_alpha.c:69-81 | the row shortcut agrees with that of the C transform if and only if the first value is not negative |
| `Demux.ParsePrefix` | src/extract_mpeg2.c:134-157 | whether a header is complete depends on its own bytes only, and it has at most 264 |
| `Demux.HeaderEnds` | src/extract_mpeg2.c:101-132 | 264 bytes complete any header |
| `Demux.RunSound` | src/extract_mpeg2.c:101-301 | in every run the header in progress is incomplete and fits its buffer |
| `Demux.SplitInvariance` | src/extract_mpeg2.c:101-301 | any partition of the stream gives the same payload and the same pending state |
| `Demuxer.PsDemuxer.NeedBytes` | src/extract_mpeg2.c:134-157 | the header has the bytes, in place or in the saved header, or all there is of it is saved |
| `Demuxer.PsDemuxer.ReadHeader` | src/extract_mpeg2.c:201-301 | what the gotos find is what the header's bytes say |
| `Demuxer.PsDemuxer.Demux` | src/extract_mpeg2.c:101-301 | one call writes what the run writes, stores where it stands, and returns 1 at the end code |
| `Demuxer.PsDemuxer.PsLoop` | src/extract_mpeg2.c:303-312 | a file read in pieces gives the payload of the whole |
| `Mux.ParseUnit` | src/extract_mpeg2.c:201-301 | pack headers of MPEG-1 and MPEG-2, packet headers of both with stuffing, buffer size and time stamps of any kind, and headers of other streams are as long as they are written, and say how much of what follows is payload |
| `Mux.MuxRoundTrip` | src/extract_mpeg2.c:101-301 | from any list of packs and packets, the payloads of the track are written, in order, and nothing else |
| `Mux.EndedRoundTrip` | src/extract_mpeg2.c:101-301 | so they are from a stream in pieces, up to the end code, whatever comes after it |
| `Mux.Extract` | src/extract_mpeg2.c:303-312 | so does the program on a file |
| `Corrupt.MaskCovers` | src/corrupt_mpeg2.c:224-257 | the mask of an active rule has exactly the bits of the byte that the rule covers |
| `Corrupt.ActiveKeeps` | src/corrupt_mpeg2.c:224-257 | between rebuilds the list that would be built does not change |
| `Corrupt.Corrupter.Update` | src/corrupt_mpeg2.c:224-257 | a rebuild gives the exact list and masks, and a target before any change |
| `Corrupt.Corrupter.Advance` | src/corrupt_mpeg2.c:259-267 | at every byte of every chunk the cached list and masks are those of a rebuild |
| `Corrupt.Corrupter.CorruptByte` | src/corrupt_mpeg2.c:259-282 | the byte written is that of all rules applied with nothing cached |
| `Corrupt.OthersKept` | src/corrupt_mpeg2.c:269-281 | bits that no rule covers are left as they are |
| `Corrupt.CorruptedBit` | src/corrupt_mpeg2.c:269-281 | what becomes of every bit: of the rules in force in turn, those that cover it turn it where their random byte has a bit, or replace it by that bit |
| `Tags.Tagger.TagPicture` | libmpeg2/decode.c:369-377 | the tag is set at the present byte |
| `Tags.Tagger.Consume` | libmpeg2/decode.c:122-135 | consuming bytes in any pieces only moves the position |
| `Tags.Tagger.HeaderPicture` | libmpeg2/header.c:566-579 | a picture gets the latest unused tag set at or before its start code if and only if at most one was set since; otherwise a later one |
| `Tags.LateTag` | libmpeg2/header.c:566-579 | two tags set after a start code, of which its picture gets the first although none was set before it |
| `Tags.Tagger.Run` | doc/libmpeg2.txt:53-62 | over any course of events no tag reaches two pictures |

## Left out

- `mpeg2_slice` as a whole: macroblock modes, `coded_block_pattern` and quantiser changes between blocks are not decoded, so the pieces of a macroblock are proved one by one.
- MPEG-1 block decoders, and the data of D pictures.
- Bits and bytes after the end of a buffer are read as zero; the C code relies on what follows a chunk.
- 4:4:4 prediction, field pictures of 4:4:4, odd strides given by the user in frame pictures, and field heights below 16.
- The vectors of opposite parity that dual prime derives from the one that is read.
- MotionVectors.GetMotionDelta: takes `f_code` from 1 to 15, the values of the syntax that are allowed; the source also stores 0 less one.
- MotionVectors.Motion.TwoVectors: takes `f_code` up to 9, the largest that ISO/IEC 13818-2 allows; with larger ones the window can be left with fewer bits than a code word has.
- MotionVectors.Motion.FieldVectors: takes `f_code` up to 9, as TwoVectors does.
- MotionVectors.Motion.DualPrime: takes `f_code` up to 9, for the same reason.
- MotionVectors.Motion.FrameDual: takes `f_code` up to 9, as DualPrime does.
- Walk.Slice: takes the increments as numbers; reading them is in `Increments`, and the macroblock data between them is not modelled.
- Parser.BufferSplitInvariance: a slice chunk that overflows the chunk buffer ends the run.
- Decoder.Mpeg2Dec.Parse: the functions of `header.c` and `slice.c` are function values that it calls, and the two nested loops over slices are one.
- Demuxer.PsDemuxer.Demux: the local variables of `demux` are parameters of the methods that its labels became.
- Idct.TransformInPlace: the two-dimensional statement is for blocks whose row results fit in 16 bits; for others the rows wrap as the stored ones do, and only the statement for each pass holds.
- LegalHeaders.LegalFile: takes streams in which every chunk, with the user data before it, is smaller than the chunk buffer and every slice is decoded; `mpeg2_skip` and slice regions are not in it.
- Tags.Tagger.Consume: `bytes_since_tag`, a signed int, stays below 2^31.
- Pictures.PictureManager.HeaderPicture: of the header only the coding type, the number of fields and an identity; `Quantiser`, `Tags` and `HeaderStates` have the parts they need.
- Corrupt.Corrupter.CorruptByte: `current_bit` stays below 2^31, and what `randbyte` returns is a parameter.
- Pictures.PictureManager.DecodeSequence: skipped pictures, `mpeg2_reset`, `mpeg2_skip`, `mpeg2_slice_region`, `mpeg2_custom_fbuf` and `mpeg2_set_buf` during a sequence.
- Pictures.PictureManager.FinalizeFirst: allocation of frame buffers and the call of the conversion routine; buffers are given.
- HeaderStates.RunSafe: of the headers only what the state machine depends on; the other fields are not read.
- Packed.OpY2: rows are values; alignment and the unaligned loads of the Alpha are not modelled.
- MMX, SSE2, AltiVec, VIS and ARM code, RGB and UYVY conversion, libvo, the main loop of `mpeg2dec`, argument handling and printing.
- Transport streams, PVA and time stamps in `extract_mpeg2.c`.
- Aspect ratio and frame rate tables, `getopt.c`, MD5 output.
