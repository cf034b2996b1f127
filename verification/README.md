# A model of the JPEG library's lossless half

The JPEG library of the Independent JPEG Group (`mozilla/jpeg`) turns quantized DCT
coefficients into a JPEG file and back without loss. This project models that half in
Dafny, together with the buffer and pass controllers around it, and proves that it works:
what is written can be read, whatever the image, the scan script, the tables, the restart
interval, and the pieces in which the file is delivered.

The modules, from the bottom up:

- **Codes and bits.** `Bits`, `Tokens`, `HuffmanCode`, `ByteStream`: two's complement,
  canonical Huffman codes, byte stuffing and markers. `BitWriting`, `SymbolOutput` and
  `BitReading` are the imperative bit buffers.
- **Tables.** `DerivedTables`, `DecoderTables`: the derived tables of encoder and decoder.
  `HuffmanMerge`, `HuffmanOptimal`, `ReservedSymbol`, `OptimalTable`, `LongCodes`: Huffman's
  algorithm on linked chains, its optimality, the reserved code, and the limit of 16 bits.
- **Progressive scans.** `AcCoding`, `AcFirstScan`, `AcRefineScan`, `AcRuns`, `EobRuns`,
  `Coefficients`, `DcCoding`, `ScanCoding`, `ScanRoundTrip`, `ScanStream`: what the four
  kinds of scans emit and how it is read back. `ProgressiveEncoder` with `ScanPasses`, and
  `ProgressiveDecoder` with `Retry` and `SuspendedScan`, are the imperative coders, which
  refine that model; `ScanSymbols`, `OptimizedScan` and `EndToEnd` join them.
- **Sequential scans.** `SequentialCoding`, `SequentialScan`, `SequentialEncoder`,
  `SequentialDecoder`, `SequentialEndToEnd`.
- **Scripts and passes.** `ScanScript`, `SimpleProgression`, `Reconstruction`,
  `PassControl`.
- **Buffers.** `Rounding`, `McuAssembly`, `CoefController`, `McuOrder`, `BlockLayouts`:
  blocks and MCUs. `RowGroups`, `MainPointers`, `MainControl`, `PrepControl`: context rows
  in decompression and compression.
- **Files.** `Markers`, `MarkerParsing`, `SegmentLengths`, `HeaderSync`, `SentTables`,
  `ReceivedTables`, `MarkerWriter`, `MarkerReader`: headers that leave out what has been
  sent before. `FrameLayout`, `WholeFile`, `FileWriter`, `FileReader`, `FileTransfer`:
  progressive files from the first byte to the last.

Blocks are sequences of 64 coefficients, and quantization tables of 64 values, in zigzag
order. The library's fatal errors are results. A scan is described by the tokens (Huffman
symbols and raw bits) that an encoder emits; the imperative classes are proved against
functions on tokens, bits and bytes, and the properties below are about those functions.

`dafny verify dfyconfig.toml` verifies the project.

## Model

| member | source | states |
|---|---|---|
| `AcRuns.AcSegment` | mozilla/jpeg/jcphuff.c:464-761 | For any blocks of an AC band, first scan or refinement, decoding what the encoder emits for a segment (ZRLs, deferred end-of-band runs, correction bits carried along with a run or a ZRL) restores exactly the state the scan promises for every block, and leaves whatever follows untouched |
| `AcFirstScan.FirstInverts` | mozilla/jpeg/jcphuff.c:489-539 | Within a block of a first scan, decoding the emitted symbols from any point reached by both sides puts every coefficient up to the trailing zeros in place; the run that the rest becomes part of is the subject of AcRuns.AcSegment |
| `AcFirstScan.TrailingZeros` | mozilla/jpeg/jcphuff.c:489-545 | In a first scan a block leaves to the end-of-band the zeros after the last nonzero coefficient of the band, all of them and nothing else; it emits nothing itself exactly if the whole band vanishes |
| `AcFirstScan.EndsWithLast` | mozilla/jpeg/jcphuff.c:489-539 | The tokens a block emits end with the symbol and the bits of its last nonzero coefficient: no ZRL is spent on zeros after it |
| `AcRefineScan.RefineInverts` | mozilla/jpeg/jcphuff.c:666-711 | Within a block of a refinement scan, the decoder restores newly nonzero coefficients and corrects old ones in the order in which the encoder interleaves symbols, signs and correction bits, from any point reached by both sides |
| `AcRefineScan.QuietRest` | mozilla/jpeg/jcphuff.c:645-711 | Past the last newly nonzero coefficient (the EOB position of the first pass) nothing is emitted: zeros are folded into the end-of-band and correction bits wait for it |
| `EobRuns.SegmentIsRuns` | mozilla/jpeg/jcphuff.c:541-545 | A segment of an AC scan divides into runs of blocks, each of which emits the tokens of its first block and one end-of-band symbol with all correction bits; a run ends only before a block that emits something, at 32767 blocks, above 937 correction bits, after a block with nothing left, or with the segment |
| `EobRuns.RunsUnique` | mozilla/jpeg/jcphuff.c:712-722 | The blocks of a segment determine its runs |
| `EobRuns.OneSymbol` | mozilla/jpeg/jcphuff.c:541-545 | Up to 32767 blocks that leave everything to the end-of-band, with up to 937 correction bits in all, take exactly one symbol |
| `ScanRoundTrip.SegmentRoundTrip` | mozilla/jpeg/jdphuff.c:286-633 | For all four kinds of progressive scans, decoding a restart interval from its initial state brings every block to the precision of the scan, whatever follows it |
| `ScanRoundTrip.SegmentInRuns` | mozilla/jpeg/jcphuff.c:712-722 | What the stream model emits for a segment of an AC scan is the tokens of the runs its blocks divide into |
| `ScanStream.ScanRoundTrips` | mozilla/jpeg/jdphuff.c:228-260 | A whole progressive scan as bytes, with stuffing, padding and restart markers for any restart interval: every block is brought to the precision of the scan, no data is discarded, every RSTn is the expected one, and the decoder ends at the marker after the scan with less than a byte unread |
| `ScanStream.SegmentsAre` | mozilla/jpeg/jcphuff.c:347-368 | The encoder that flushes its run and starts over at each restart emits the same segments as encoding every restart interval on its own |
| `ScanStream.IntervalsAre` | mozilla/jpeg/jcphuff.c:377-456 | Every restart interval but the last has exactly as many MCUs as the restart interval says, and together they are the MCUs of the scan |
| `ProgressiveEncoder.PhuffEncoder.EmitEobrun` | mozilla/jpeg/jcphuff.c:316-339 | Emits the pending run symbol, its extra bits and the buffered correction bits, in that order, and leaves no run and no bits pending; it fails exactly if one of these symbols has no code |
| `ProgressiveEncoder.PhuffEncoder.EncodeAcFirst` | mozilla/jpeg/jcphuff.c:464-561 | The imperative coder of a first-scan block takes the abstract state one step further; it fails exactly if a coefficient is out of range or a code is missing. A block that emits nothing of its own emits nothing at all while fewer than 32766 end-of-bands are pending, and makes the pending run one longer |
| `ProgressiveEncoder.PhuffEncoder.EncodeAcRefine` | mozilla/jpeg/jcphuff.c:618-738 | The imperative coder of a refinement block keeps the bound on pending runs and correction bits, so that every write to bit_buffer stays inside it, and takes the abstract state one step further; it fails exactly if a code is missing. Without newly nonzero coefficients it just makes the pending run longer, by a block and its correction bits, unless that takes it to 32767 blocks or above 937 bits |
| `ProgressiveEncoder.PhuffEncoder.EmitRestart` | mozilla/jpeg/jcphuff.c:347-368 | The pending run is flushed before the restart marker, the segment is closed, and all predictions and runs start over |
| `ProgressiveEncoder.PhuffEncoder.EncodeMcu` | mozilla/jpeg/jcphuff.c:377-738 | encode_mcu of any scan refines the stream model: it succeeds exactly if coefficients are in range and codes exist, and then the new state is that of the model |
| `ProgressiveEncoder.PhuffEncoder.FinishPass` | mozilla/jpeg/jcphuff.c:746-806 | At the end of the pass the bytes are the rendering of all segments, or, in a gathering pass, the counts are those of the symbols of all segments |
| `ScanPasses.EncodePass` | mozilla/jpeg/jcphuff.c:106-189 | A whole pass succeeds exactly if no coefficient is out of range and no code is missing; a gathering pass counts exactly the symbols that an output pass writes, and an output pass puts out the rendered scan |
| `SymbolOutput.SymbolSink.EmitSymbol` | mozilla/jpeg/jcphuff.c:281-289 | One symbol is either counted or written with its code, depending on gather_statistics; writing fails exactly if the symbol has no code |
| `SymbolOutput.StatisticsCover` | mozilla/jpeg/jcphuff.c:767-806 | Any tables with codes for all symbols counted in a gathering pass let the output pass run without a missing code |
| `ProgressiveDecoder.PhuffDecoder.DecodeMcu` | mozilla/jpeg/jdphuff.c:286-633 | decode_mcu reads an MCU as the stream model says, or gives up without losing anything: then reading it again gives the same result even though blocks may have changed; it never gives up once the end of the segment has been delivered |
| `ProgressiveDecoder.PhuffDecoder.Undo` | mozilla/jpeg/jdphuff.c:626-632 | undoit: after newly nonzero coefficients are zeroed again, the block differs from its old state only by corrections that a second reading does not repeat |
| `Retry.CorrectTwice` | mozilla/jpeg/jdphuff.c:565-578 | Correcting a nonzero coefficient of either sign a second time with the same bit changes nothing, and keeps it nonzero |
| `Retry.BlockRetry` | mozilla/jpeg/jdphuff.c:491-633 | A block that was given up on, at any point, reads the same way again, to the same coefficients, run and bit position |
| `ProgressiveDecoder.PhuffDecoder.ProcessRestart` | mozilla/jpeg/jdphuff.c:228-260 | With only padding before the expected marker, process_restart passes it and resets run, predictions and the countdown; if the marker has not been delivered nothing but padding is lost |
| `SuspendedScan.DecodeScan` | mozilla/jpeg/jdphuff.c:286-633 | For every schedule of deliveries, decoding a scan MCU by MCU with retries ends with the blocks, and at the place in the data, that reading all of it at once ends with |
| `SuspendedScan.DecodeEncodedScan` | mozilla/jpeg/jdphuff.c:92-193 | For every schedule of deliveries, a scan that the encoder has written brings every block to the precision of the scan |
| `HuffmanCode.DecodeInverts` | mozilla/jpeg/jdhuff.c:398-433 | The bit-serial decoder returns the coded symbol and leaves exactly the bits that follow its code |
| `Bits.ExtendInverts` | mozilla/jpeg/jdhuff.c:447-447 | Sign extension gives back every nonzero value from the extra bits sent for it |
| `DcCoding.DiffInverts` | mozilla/jpeg/jdphuff.c:324-330 | Reading a DC difference gives back the difference that was sent, of either sign or zero |
| `BitWriting.BitWriter.EmitBits` | mozilla/jpeg/jchuff.c:302-336 | Packing into the 32-bit buffer appends the low bits of the code to the bits of the segment, with every completed FF byte stuffed; size 0 is refused |
| `BitWriting.BitWriter.FlushBits` | mozilla/jpeg/jchuff.c:340-347 | Filling up with seven ones completes the segment, and leaves no partial byte |
| `ByteStream.SegmentFound` | mozilla/jpeg/jdhuff.c:292-389 | In the stuffed bytes of a segment followed by a marker, a decoder finds the bits of the segment, less than a byte of padding, and the marker |
| `BitReading.BitReader.Fill` | mozilla/jpeg/jdhuff.c:292-389 | Filling the bit buffer never changes what lies ahead; it gives up only if the end of the segment has not been delivered, and inserts zeros only after a segment that has ended |
| `BitReading.BitReader.FetchBits` | mozilla/jpeg/jdhuff.h:138-144 | CHECK_BIT_BUFFER and GET_BITS fetch the next bits of the data ahead, or give up only for lack of delivered data |
| `BitReading.BitReader.HuffDecode` | mozilla/jpeg/jdhuff.h:176-196 | Lookahead and the two bit-serial paths together decode the next symbol of the data ahead |
| `BitReading.BitReader.NextMarker` | mozilla/jpeg/jdmarker.c:872-915 | Finds the first marker ahead, past any data, stuffed zeros and fill bytes, and stops right after it; if the source runs dry the marker is found on the next attempt |
| `DerivedTables.MakeEncTable` | mozilla/jpeg/jchuff.c:179-264 | jpeg_make_c_derived_tbl accepts a table exactly if its counts describe a code in which no word is all ones, no symbol is listed twice and DC symbols are at most 15; then it holds the canonical codes |
| `DecoderTables.MakeDecTable` | mozilla/jpeg/jdhuff.c:149-266 | jpeg_make_d_derived_tbl accepts a table exactly if its counts are legal and DC symbols are at most 15; then its limits and its lookahead cache are those of the table |
| `DecoderTables.LookaheadAgrees` | mozilla/jpeg/jdhuff.h:176-196 | For any eight bits ahead, an entry of the cache gives the symbol and length that serial decoding gives, and no entry means that serial decoding from nine bits on gives the same result as from the start |
| `HuffmanOptimal.CodeSizes` | mozilla/jpeg/jchuff.c:728-776 | The merge loop over freq, codesize and the linked others chains computes the lengths of Huffman's algorithm (HuffmanSizes) |
| `HuffmanOptimal.HuffmanSizesOptimal` | mozilla/jpeg/jchuff.c:728-776 | Those lengths minimise the total number of bits over all full prefix codes for the counted symbols; uncounted symbols have none; and a length of d takes a total count of at least the Fibonacci number d + 2 |
| `ReservedSymbol.ReservedIsLongest` | mozilla/jpeg/jchuff.c:722-751 | The pseudo-symbol 256 gets one of the longest codes: as ties go to the larger symbol, no symbol ever gets deeper in the trees than it is |
| `OptimalTable.LimitLengths` | mozilla/jpeg/jchuff.c:801-812 | The limiting loop leaves lengths alone if none exceeds 16 bits. Otherwise its result is that of adjusting them step by step as in section K.2 of ITU-T T.81, each step on the greatest length in use, until none exceeds 16 bits; the code stays full and the number of symbols the same |
| `OptimalTable.AdjustOne` | mozilla/jpeg/jchuff.c:803-811 | One step always finds a shorter code: k is the greatest length in use up to i - 2; two codes of i bits and one of k bits are exchanged for one of i - 1 bits and two of k + 1 bits, and no other count changes |
| `OptimalTable.DropReserved` | mozilla/jpeg/jchuff.c:814-817 | Exactly one code of the greatest length in use is taken back for the reserved symbol |
| `OptimalTable.SortSymbols` | mozilla/jpeg/jchuff.c:822-834 | Exactly the symbols with a code are listed, by increasing optimal length, each length in symbol order, and each symbol at the place that its length gives it |
| `OptimalTable.GenOptimalTable` | mozilla/jpeg/jchuff.c:705-838 | For 1 to 254 counted symbols, jpeg_gen_optimal_table gives up exactly if some Huffman length exceeds 32; otherwise the table is legal, has codes for exactly the counted symbols, none of them all ones, listed by optimal length. Its counts are those of the Huffman lengths, adjusted if some exceed 16 bits, less one of the greatest length; if none exceeds 16 bits, every symbol has a code of exactly its Huffman length |
| `OptimalTable.TooLongNeeds` | mozilla/jpeg/jchuff.c:779-788 | If table generation gives up, at least 9,227,464 symbols have been counted |
| `LongCodes.FibCountsTooLong` | mozilla/jpeg/jchuff.c:779-788 | Concrete counts within the declared bounds for which table generation gives up |
| `OptimizedScan.TallyBounds` | mozilla/jpeg/jchuff.c:846-880 | The statistics of any scan count at least one and at most 254 different symbols of each of its tables |
| `OptimizedScan.EncodeOptimized` | mozilla/jpeg/jcphuff.c:767-806 | Gathering, table generation and output of a progressive scan fail exactly if a coefficient is out of range, or some Huffman length exceeds 32, which needs more than nine million symbols; otherwise the bytes are the scan coded with the generated tables |
| `EndToEnd.SendScan` | mozilla/jpeg/jcphuff.c:106-189 | A progressive scan sent with optimal tables and read from arbitrary pieces of its bytes brings every block to its precision; the two ways to fail are characterised by conditions on the coefficients and on the counts |
| `SequentialCoding.McuInverts` | mozilla/jpeg/jchuff.c:353-443 | Reading an MCU into blank blocks undoes coding it, DC prediction included, and leaves the bits that follow |
| `SequentialCoding.EndOfBlock` | mozilla/jpeg/jchuff.c:392-440 | The tokens of a block end with those of its last nonzero coefficient, and an end-of-block symbol unless that is coefficient 63: no ZRL is spent on the zeros after it |
| `SequentialScan.ScanRoundTrips` | mozilla/jpeg/jdhuff.c:517-627 | A sequential scan, for any MCUs in range and any restart interval below 65536, is read back block by block; every RSTn is met in order, no data is discarded, and less than a byte is left at the end |
| `SequentialEncoder.EncodePass` | mozilla/jpeg/jchuff.c:476-673 | A sequential pass succeeds exactly if coefficients are in range and no code is missing; the gathering pass counts exactly the symbols that the output pass writes |
| `SequentialEncoder.HuffEncoder.EncodeMcuHuff` | mozilla/jpeg/jchuff.c:476-525 | encode_mcu_huff appends the MCU to the scan that has been encoded so far, with a restart first if one is due; it fails exactly if a coefficient is out of range or a code is missing |
| `SequentialEncoder.HuffEncoder.EncodeMcuGather` | mozilla/jpeg/jchuff.c:645-673 | encode_mcu_gather keeps the same scan as encode_mcu_huff, counting its symbols |
| `SequentialDecoder.HuffDecoder.DecodeMcu` | mozilla/jpeg/jdhuff.c:517-627 | decode_mcu reads an MCU as the scan model says, or gives up without losing anything, and never gives up once the end of the segment has been delivered |
| `SequentialDecoder.BlockRetry` | mozilla/jpeg/jdhuff.c:546-612 | A sequential block that was given up on reads the same way again over what has been stored |
| `SequentialEndToEnd.SendScan` | mozilla/jpeg/jchuff.c:846-880 | A sequential scan sent with optimal tables and read from arbitrary pieces of its bytes gives back every block; the two ways to fail are characterised by conditions on the coefficients and on the counts |
| `ScanScript.ValidateScript` | mozilla/jpeg/jcmaster.c:130-261 | A script is accepted exactly if it is a legal progressive script (every band continues what was sent before it, DC first, every component has DC data) or a legal sequential one (every component in exactly one scan); otherwise the error tells the first scan that is bad, and what is wrong with it |
| `SimpleProgression.MakeSimpleProgression` | mozilla/jpeg/jcparam.c:537-608 | For any number of components, the entries reserved for jpeg_simple_progression are filled exactly, with the recommended script |
| `SimpleProgression.YccScans` | mozilla/jpeg/jcparam.c:576-595 | The ten scans recommended for YCbCr images, one by one |
| `SimpleProgression.SimpleScriptAccepted` | mozilla/jpeg/jcparam.c:562-607 | The recommended script is accepted for any number of components, and its last scans send every coefficient down to its last bit |
| `SimpleProgression.ScriptTransfers` | mozilla/jpeg/jdphuff.c:100-146 | Every scan of an accepted progressive script passes the decoder's parameter check and gives no cause for a warning |
| `SimpleProgression.EncoderAndDecoder` | mozilla/jpeg/jdphuff.c:100-146 | The checks of the two sides compared: a scan may come next in a progressive script exactly if the decoder starts on it without error or warning, its components are listed in order, Ah and Al are at most 10, and none of its coefficients has been sent to its last bit |
| `SimpleProgression.StartAllScans` | mozilla/jpeg/jdphuff.c:100-146 | Starting the decoder on all scans of an accepted script in turn raises no error and no progression warning |
| `Reconstruction.PrefixReconstructs` | mozilla/jpeg/jcmaster.c:186-226 | After any prefix of an accepted progressive script, every coefficient of the image is held exactly to the precision last sent, and is zero if it has not been sent |
| `Reconstruction.SimpleProgressionIsLossless` | mozilla/jpeg/jcparam.c:576-607 | After the recommended script every coefficient is reproduced |
| `PassControl.Master.Compress` | mozilla/jpeg/jcmaster.c:401-535 | Over a whole compression, with or without a script or optimisation: every scan has its header and is output right after it, once and in order; the one frame header comes before all of them; in an optimized file, statistics are gathered after the scans before and ahead of the header, for exactly the scans that are not DC refinements; the first pass over the data saves it if it is needed again, and the last pass is marked as such. It fails exactly if the script or an MCU is illegal, and the error tells which |
| `PassControl.EachScanOnce` | mozilla/jpeg/jcapimin.c:147-175 | The log expected after k scans has these properties, for any job and any k |
| `PassControl.FirstScanGathers` | mozilla/jpeg/jcmaster.c:421-432 | The first scan of an accepted script is never a DC refinement, so that the first pass may gather statistics |
| `MainPointers.MakeFunnyPointers` | mozilla/jpeg/jdmainct.c:195-235 | Both pointer lists show the workspace as a contiguous iMCU row, the second with its last row groups where the other list has them, and the first with its top row above it |
| `MainPointers.SetWraparound` | mozilla/jpeg/jdmainct.c:238-262 | The wraparound pointers continue the list above and below by a row group |
| `MainControl.MainController.SetBottomPointers` | mozilla/jpeg/jdmainct.c:266-299 | The last real row is repeated below the image, and the number of row groups to be shown is that of the real rows |
| `MainControl.MainController.ProcessData` | mozilla/jpeg/jdmainct.c:385-447 | A call shows the next row groups in order with the rows around them that the image has, and overwrites none still needed. With data at hand, the iMCU row is finished unless the postprocessor takes less than it is offered or is full after the postponed row group: the number of row groups shown is given for every case, in terms of the image and of what the postprocessor takes; without data nothing changes |
| `MainControl.MainController.ShowAll` | mozilla/jpeg/jdmainct.c:385-447 | Whatever the calls, every row group of the image is shown exactly once, in order |
| `MainPointers.ContextRows` | mozilla/jpeg/jdmainct.c:384-447 | The context rows around a row group are those of the image, edge rows repeated, exactly if it is not the one just before a last iMCU row with less than a row group of real rows; the nearest row below is right in any case |
| `MainPointers.ContextOfImage` | mozilla/jpeg/jdmainct.c:266-299 | All row groups of an image have the right context exactly if its last iMCU row is full or has at least a row group of real rows |
| `MainPointers.ContextFails` | mozilla/jpeg/jdmainct.c:266-299 | A concrete image of which one row group is shown a padding row as context |
| `PrepControl.PrepController.PreProcess` | mozilla/jpeg/jcprepct.c:195-260 | For any number of rows and any room, the row groups made are those of the image in order, each with the rows above and below it (edge rows repeated); it stops early only when rows or room run out, never reads beyond the row group below the next one due, and reads nothing more once the room is used up |
| `PrepControl.PrepController.Downsample` | mozilla/jpeg/jcprepct.c:236-257 | When a row group is downsampled, the ring holds it and its neighbours, none of them overwritten, and the ring is ready for the next one |
| `PrepControl.PrepController.ExpandBottomEdge` | mozilla/jpeg/jcprepct.c:106-115 | The last row is repeated until the row group is full |
| `CoefController.Controller.CompressData` | mozilla/jpeg/jccoefct.c:143-218 | The single-pass path feeds the entropy encoder the next MCUs of the scan, as many as it takes, and resumes at the right one after a suspension |
| `CoefController.Controller.CompressFirstPass` | mozilla/jpeg/jccoefct.c:245-327 | The first buffered pass stores the iMCU row with its dummy blocks, and feeds the encoder the same MCUs as the single-pass path |
| `CoefController.Controller.CompressOutput` | mozilla/jpeg/jccoefct.c:341-395 | A later pass feeds the encoder the same MCUs from the buffer, resuming at the right one after a suspension |
| `McuAssembly.DummiesRepeat` | mozilla/jpeg/jccoefct.c:179-200 | In every MCU, a block beyond the right or bottom edge has the DC value of the block before it and no other coefficients, so that it costs next to nothing; the other blocks are those of the image |
| `McuAssembly.ColumnsAndRowsFit` | mozilla/jpeg/jcmaster.c:308-381 | For every image size and sampling factors, all components of an interleaved scan fill their MCU columns and rows up to the last, possibly partial, one |
| `McuOrder.NoninterleavedScan` | mozilla/jpeg/jccoefct.c:341-395 | A scan of one component sends each of its blocks once, row by row, and no dummy blocks |
| `McuOrder.InterleavedScan` | mozilla/jpeg/jccoefct.c:143-218 | Where every block of an interleaved scan is found in the MCUs, dummy blocks included, which repeat the DC value of the block before them |
| `BlockLayouts.InterleavedLayoutOk` | mozilla/jpeg/jccoefct.c:143-218 | In an interleaved scan no block occurs twice, and every block of the image occurs |
| `BlockLayouts.RasterGathered` | mozilla/jpeg/jccoefct.c:341-395 | The MCUs that whole files are made of are, for a scan of one component, those that the coefficient controller sends |
| `BlockLayouts.InterleavedGathered` | mozilla/jpeg/jccoefct.c:341-395 | The same for an interleaved scan, dummy blocks included |
| `MarkerWriter.Writer.EmitDqt` | mozilla/jpeg/jcmarker.c:142-178 | A quantization table that has been sent is not written; another is written in one or two bytes per entry as its values require, and marked as sent. The precision is reported in any case; it fails exactly if there is no such table |
| `MarkerWriter.Writer.EmitDht` | mozilla/jpeg/jcmarker.c:182-216 | A Huffman table that has been sent is not written; another is written as its counts and symbols, and marked as sent. It fails exactly if there is no such table |
| `MarkerWriter.Writer.WriteFrameHeader` | mozilla/jpeg/jcmarker.c:492-539 | The bytes written are the DQT segments of the components' tables that had not been sent, each once, in order, and the SOF segment; these tables are now marked as sent. The SOF code is the baseline one exactly if the file is sequential, has 8-bit samples and quantizers, and at most two tables of each kind |
| `MarkerWriter.Writer.WriteScanHeader` | mozilla/jpeg/jcmarker.c:549-592 | The bytes written are the DHT segments of the scan's tables that had not been sent, each once, in order, a DRI segment exactly if the interval differs from the last one written, and the SOS segment; with nothing new, the SOS segment alone. It fails exactly if a table of the scan is missing |
| `SentTables.NewOnes` | mozilla/jpeg/jcmarker.c:198-214 | Which tables of a list are written: exactly those that are new, each once, in the order of their first places in the list |
| `SentTables.HuffsWritten` | mozilla/jpeg/jcmarker.c:182-216 | Writing the tables of a scan one after the other, each time looking at and setting sent_table, writes exactly the new ones among them, and marks all as sent |
| `SentTables.QuantsWritten` | mozilla/jpeg/jcmarker.c:142-178 | The same for the quantization tables of the components |
| `SentTables.NothingNew` | mozilla/jpeg/jcmarker.c:549-592 | A scan whose tables have all been sent, with the same restart interval, has an SOS segment and nothing else for a header |
| `Markers.SampleFrame` | mozilla/jpeg/jcmarker.c:275-302 | The frame header of a progressive YCbCr image of 640 by 480 samples, byte by byte |
| `Markers.SampleScans` | mozilla/jpeg/jcmarker.c:306-348 | The SOS segments of two of its scans and a DRI segment, byte by byte |
| `MarkerReader.Reader.ReadUntilScan` | mozilla/jpeg/jdmarker.c:950-1095 | Reads markers up to the next scan or the end of the file as if all of the source were there; if it runs dry in the middle of any marker, what has been stored already does not change the result, and nothing is lost |
| `MarkerReader.DhtAgain` | mozilla/jpeg/jdmarker.c:417-484 | Reading a DHT segment again gives the same tables, whatever its slots have been set to in the meantime |
| `SegmentLengths.LengthHonoured` | mozilla/jpeg/jdmarker.c:235-295 | A SOF, SOS, DHT, DQT or DRI segment is accepted only if its parameters take exactly as many bytes as its length says |
| `SegmentLengths.WhateverIsRead` | mozilla/jpeg/jdmarker.c:950-1095 | Whatever the bytes: if the reader gets to a scan, all tables are in one of the four places and fit them, and the scan has one to four components, all of them of a frame that has been read |
| `HeaderSync.ScanHeaderRead` | mozilla/jpeg/jdmarker.c:299-365 | A scan header is understood by a decoder that is in step: it has all tables that the scan is coded with, though only new ones are sent, the scan's parameters, and the restart interval modulo 65536; it stays in step |
| `HeaderSync.FrameHeaderRead` | mozilla/jpeg/jdmarker.c:235-295 | After a frame header the decoder has the frame and the quantization table of every component |
| `HeaderSync.EveryScanUnderstood` | mozilla/jpeg/jcmarker.c:549-592 | In a file of any number of scans, with tables replaced between them, the decoder has at each scan the tables that the encoder uses, and the same restart interval, components, table numbers and parameters |
| `HeaderSync.RightComponents` | mozilla/jpeg/jdmarker.c:321-343 | The decoder takes every component for the right one exactly if no two ids are equal as bytes |
| `HeaderSync.SameIds` | mozilla/jpeg/jcmarker.c:296-301 | A concrete frame in which the second component is taken for the first |
| `HeaderSync.LongInterval` | mozilla/jpeg/jcmarker.c:263-271 | The restart interval arrives exactly if it is below 65536 |
| `HeaderSync.IntervalLost` | mozilla/jpeg/jcmarker.c:263-271 | A concrete restart interval that arrives as none |
| `ReceivedTables.ReceivedBook` | mozilla/jpeg/jdmarker.c:417-484 | A legal table that has been through a file assigns the same codes, and is decodable |
| `FrameLayout.ArrangedOk` | mozilla/jpeg/jdinput.c:121-195 | From the frame header alone, encoder and decoder get the same arrangement of blocks for any scan; it places no block twice and every block of the image |
| `WholeFile.ScanStep` | mozilla/jpeg/jdinput.c:254-261 | Reading one scan of a file, header and data, keeps the decoder in step with the encoder and exact, and ends at the marker after the scan |
| `WholeFile.FileReads` | mozilla/jpeg/jdinput.c:288-331 | Reading a progressive file gives every coefficient of the image to the precision last sent by its scans |
| `WholeFile.SimpleFileIsLossless` | mozilla/jpeg/jcparam.c:537-608 | A file with the recommended script gives back every coefficient |
| `FileWriter.WriteFile` | mozilla/jpeg/jcmaster.c:401-535 | Writes the file that WholeFile describes, with tables generated for each scan; it fails exactly if a quantization table is missing, a size does not fit its field, a coefficient is out of range, or a code gets too long |
| `FileReader.DecodePass` | mozilla/jpeg/jdinput.c:254-261 | The entropy decoder, started on a source that the marker reader has left at a scan, leaves the blocks and the source as reading all of the data at once does |
| `FileReader.ReadImage` | mozilla/jpeg/jdinput.c:288-331 | For every schedule of deliveries, with marker reader and entropy decoder giving up and resuming on the same source, the blocks end up as in reading the whole file at once |
| `FileTransfer.Transfer` | mozilla/jpeg/jcapimin.c:147-175 | A progressive file written with optimal tables and read back from arbitrary pieces holds every coefficient to the precision its script sends, unless one of the stated conditions makes the encoder refuse |
| `FileTransfer.SimpleArrivesWhole` | mozilla/jpeg/jcparam.c:537-608 | With the recommended script, what arrives is the image |

## Findings

Four properties that one would expect do not hold of the code. Each has a concrete input
and the exact condition under which the property does hold.

- **Context rows of a short last iMCU row.** A row group should be shown with the rows of
  the image around it. If the last iMCU row has less than a row group of real rows, the
  row group before it sees padding rows below (`MainPointers.ContextFails`: an image of
  five rows, in row groups of two). For whole images, context is right exactly if the last
  iMCU row is full or has at least a row group of real rows (`MainPointers.ContextOfImage`,
  row group by row group `MainPointers.ContextRows`).
- **Table generation can give up.** The counts may be as large as a billion, but lengths
  are limited only up to 32 bits before the limiting step. `LongCodes.FibCountsTooLong`
  gives counts of 33 symbols, fifteen million in all, for which table generation stops
  with an error. It does so exactly if a Huffman length exceeds 32
  (`OptimalTable.GenOptimalTable`, and for scans `OptimizedScan.EncodeOptimized`), and
  never below nine million symbols of one table (`OptimalTable.TooLongNeeds`).
- **Component ids of more than a byte.** The encoder sends the low byte of an id. Two
  components with ids 1 and 257 are one to the decoder (`HeaderSync.SameIds`); it takes
  every component for the right one exactly if no two ids are equal as bytes
  (`HeaderSync.RightComponents`).
- **Restart intervals of more than 16 bits.** An application may set an interval of 65536
  or more, which the DRI marker cannot hold (`HeaderSync.IntervalLost`). It arrives exactly
  if it is below 65536 (`HeaderSync.LongInterval`).

## Left out

- The forward and inverse DCT, quantization, colour conversion, sampling, colour
  quantization and postprocessing: coefficients and rows are given.
- Arithmetic coding, which the library does not implement; DAC and the arithmetic SOF
  markers are parsed as far as `jdmarker.c` does.
- Encoder-side suspension: the destination takes every byte. `CoefController` does model an
  encoder that refuses an MCU.
- Source managers that refill the buffer within a call: the source suspends, and the
  application delivers more between calls.
- Corrupt data: a run that leaves the block or the band, a scan without a marker after it,
  resynchronisation after a wrong restart marker, and the padding entries of the natural
  order table. Of the handling of short data, `BitReading.BitReader.Fill` models the zero
  bits that are inserted.
- Whole files are progressive. For sequential files there are the scans
  (`SequentialEndToEnd.SendScan`) and the headers (`HeaderSync.EveryScanUnderstood`), but
  no theorem that joins them.
- The contents of application markers and comments, which the reader skips; the JFIF and
  Adobe markers are among the markers that may follow SOI.
- `write_tables_only`, and files whose tables come from elsewhere; `HeaderSync` covers them
  as far as a decoder that already has the tables is in step.
- Quantization tables that change between scans (`latch_quant_tables`).
- The order of passes in `FileWriter`: it writes the frame header before it gathers
  statistics for the first scan, where `PassControl` has the real order. The bytes are the
  same.
- FileWriter.WriteFile: the MCUs of its scans are given; `BlockLayouts` shows that they are
  those of the coefficient controller.
- Counts of symbols above a billion, and tables of 255 or 256 symbols, for which the
  counters of `jpeg_gen_optimal_table` overflow; no scan has so many different symbols.
- MainControl and PrepControl treat one component, and rows by their numbers; the
  controllers without context rows are not modelled.
- Virtual arrays and memory pools are plain arrays.
- Entries of a Huffman table past its symbols, which are indeterminate after reading a DHT
  marker, are zero here.
- Transcoding of whole files (`jctrans.c`, `jdtrans.c`), except for the passes in
  `PassControl`.
