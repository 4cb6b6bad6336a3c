# Verified model of the mesh camera firmware

The firmware runs cameras that are nodes of a Wi-Fi mesh. One node is the root and talks to a server.
This project models four of its stateful parts in Dafny and proves what they promise. The verifier
checks all of it with `dafny verify dfyconfig.toml`.

**JPEG encoder** (`jpge.cpp`, `to_jpg.cpp`). The encoder is a class over arrays: lines, DCT,
quantisation, Huffman coding, bit packing, a 512-byte buffer and the sink. Beside it stands a decoder
written from ITU-T T.81 (section F.2.2 for the scan, B for the markers). The main theorem is the
contract of `ToJpg.ConvertImage`: for every frame, the file that reaches the sink decodes, from
its own header, to the quantised transform of every block of the picture extended by edge replication.
It rests on range results (samples to DCT to coefficients to Huffman symbols) and on round trips layer
by layer. `Fidelity` adds what that picture is, without a word about how it is computed: dequantised block
by block, the exact DCT (`Cosine`) of means of JFIF colours, with explicit error terms. Files: Bits,
Huffman, EntropyCoding, StandardTables, ByteStuffing, BitBuffer, BitWriter, Quantisation, Cosine, Dct,
Image, TableCache, BlockCoder, JpegFormat, JpegRoundTrip, Fidelity, HeaderWriter, Encoder, LineFormat,
ToJpg.

**Firmware upgrade** (`mupgrade_node.c`, `mupgrade_root.c`). Node and root are classes; the effect of
each message is a function on values that the methods are proved against. `UpgradeSystem` puts one root
and any number of nodes on a network that may lose, repeat and reorder reports, deliver any packet at any
time, stop nodes and reset them at any point, and in which calls to flash, snapshot and boot partition may
fail. Over all runs, a node counted as upgraded has had the whole image programmed over what its partition
held, unless one of two things has happened to it, and no packet a node lacks is skipped. `UpgradeFaults`
says exactly what these two are and when a partition that was not erased does harm, and with
`NodeOvercount` gives runs in which they strike. `RootAnswers` says, in both directions and of the reports
alone, what the root's lists and array become; `NodeRuns` what a node keeps between resets. `UpgradeEnds`
shows that the upgrade can always be ended by one pass without loss. `FirmwareCheck` is the
Knuth-Morris-Pratt search of `mupgrade_check.c`. Files: Bitmap, Firmware, UpgradeNode, NodeInvariant, NodeProgress, NodeOvercount,
NodeRuns, NodeDevice, AddressList, UpgradeRoot, RootAnswers, RootDevice, UpgradeSystem, UpgradeEnds,
UpgradeFaults, FirmwareCheck.

**Camera frame buffers** (`camera.c`). The ring of linked buffers, its two queues and the DMA filter,
for more than one buffer. `CameraRing` has the steps and the theorems over all runs, `CameraDevice` the
linked objects. Files: CameraFrame, CameraRing, CameraDevice.

**Picture relay and device list** (`node_task.c`, `router.c`, `node_dev_list.c`). Pictures cut into
packets and collected by the root, and the linked list of known nodes with its offline sweep. Files:
PictureRelay, DeviceList.

## Where the code does less than it seems to

- The flag search stops one target length early, so the firmware check misses flags that start 962 to 991
  bytes into a 992-byte step (`FirmwareCheck.AcceptsIffVisible`, `FirmwareCheck.FlagMissed`). A partition
  too small for one chunk is accepted unread.
- A snapshot leaves out the bits of packets 3968 to 4095 but keeps the byte counter, so for images beyond
  3968 packets a resumed node may finish with packets missing (`NodeInvariant.SnapshotTruthIff` says exactly
  which snapshots are true, `NodeOvercount.FinishesIncomplete` is a run of 3970 packets that ends without
  packet 395).
- When the last packet is in, the snapshot is dropped before the boot partition is switched. If the switch
  fails, or a later stop switches it back, the node is upgraded in the root's eyes, but a reset brings the
  old firmware up with nothing to resume from, and one more status request erases the partition
  (`UpgradeFaults.SurvivesResetIff`, `UpgradeFaults.BootFails`, `UpgradeFaults.StoppedAfterwards`).
- A node whose partition could not be erased goes on to take packets, reports completion and boots. It has
  the image exactly if no byte left over lacks a bit that the image needs (`UpgradeFaults.EraseFailsIff`,
  `UpgradeFaults.EraseFails`).
- The percentage at which the next snapshot is due starts again at ten after a reset, and the code compares
  for equality, so a node that resumes at twenty percent or later saves no snapshot until it finishes
  (`NodeRuns.ResumedSavesNone`, `NodeRuns.SnapshotsEnd`).
- A failed start is reported once: the next status request is answered with MDF_OK
  (`NodeRuns.FirstAnswers`). A node that answers incomplete and then stops while the root still waits stays in
  the requested list (`RootAnswers.ResponsesIff`).
- If a client takes the queued frame between the check that the queue is full and the attempt to displace
  that frame, the new frame's buffer is marked as referenced but is in no queue, for good
  (`CameraRing.LostIffRaced`, `CameraRing.RaceLoses`, `CameraRing.LostForGood`). One buffer always remains
  (`CameraRing.NeverAllLost`).
- The cursor of the picture relay has no bound: when the end of one picture and the beginning of the next are
  lost, it can pass the last slot (`PictureRelay.CursorStaysIff`, `PictureRelay.TornFitsIff`).
- The offline sweep keeps the routing table right behind the twenty places for reported addresses and
  overwrites it when more nodes are offline (`DeviceList.SweepExactIff`, `DeviceList.OverwrittenTable`).
- Between packets, a completed node that is not in the requested list leaves the unfinished list without
  joining the successed one (`UpgradeRoot.SendDrainJoinsIff`, `UpgradeFaults.LeftUnlisted`); so
  `UpgradeSystem.NobodyForgotten` speaks of flash contents, not of that list.

## Assumptions

- One firmware image per run, distinct addresses, packets numbered below the packet count and of the right
  size, and `addrs_remove` shifting as `memmove` does (the source calls `memcpy` on overlapping memory).
- A node that has booted the new firmware takes no further part in the run.
- Client calls, and each walk of a client's wait for a free buffer, fall between the steps of the filter
  task, but for the race above. Clients return each
  buffer once.
- The three bytes behind a frame buffer can be read by the search for the end marker.
- No ping, command or register message is received while a picture is being collected.

## Model

| member | source | states |
|---|---|---|
| Huffman.ComputeHuffmanTable | components/esp32-camera/conversions/jpge.cpp:145-179 | For any counts of at most 256 codes: both loops end, and each symbol gets the canonical code and length of T.81 section C.2 in the two 256-entry arrays, all others zero |
| Huffman.FillSizes | components/esp32-camera/conversions/jpge.cpp:153-161 | The length list holds every code's length in order and ends with a zero |
| Huffman.NumberCodes | components/esp32-camera/conversions/jpge.cpp:163-171 | The doubling loop numbers the codes as the canonical recurrence does, first code of each length and position within it |
| Huffman.CodeBelowOnes | components/esp32-camera/conversions/jpge.cpp:163-171 | With a strict Kraft sum every code is below 2^length - 1 |
| Huffman.PrefixFree | components/esp32-camera/conversions/jpge.cpp:163-171 | No code is a prefix of another |
| Huffman.NotAllOnes | components/esp32-camera/conversions/jpge.cpp:163-171 | No code consists of ones only |
| Huffman.CodeNoWrap | components/esp32-camera/conversions/jpge.cpp:155-171 | Numbering at most 256 codes never leaves 32 bits |
| Huffman.DecodeWord | components/esp32-camera/conversions/jpge.cpp:145-179 | The T.81 F.2.2.3 bit-by-bit decoder, given only counts and symbols, reads back any symbol from its code followed by anything |
| StandardTables.StandardReady | components/esp32-camera/conversions/jpge.cpp:43-64 | The four tables the encoder loads have strict Kraft sums and hold every symbol a DC difference up to 2047 or an AC value up to 1023 needs, with ZRL and EOB |
| StandardTables.EachSymbolOnce | components/esp32-camera/conversions/jpge.cpp:43-64 | No table lists a symbol twice; the AC tables hold the 160 run/size pairs, ZRL and EOB and nothing else; and the code looked up for a symbol is that of its own place in the list |
| EntropyCoding.BlockRoundTrip | components/esp32-camera/conversions/jpge.cpp:404-466 | Decoding a coded block, by T.81 sections F.2.2.1 and F.2.2.2, returns all 64 coefficients and exactly the bits that follow, over any usable tables |
| EntropyCoding.DcRoundTrip | components/esp32-camera/conversions/jpge.cpp:422-437 | The DC difference is recovered from category and magnitude bits, for positive and negative values |
| EntropyCoding.AcRoundTrip | components/esp32-camera/conversions/jpge.cpp:439-465 | From any position and run of zeros: runs beyond 16, nonzero values, and an end of block exactly when coefficient 63 is zero are all read back |
| EntropyCoding.ZrlRoundTrip | components/esp32-camera/conversions/jpge.cpp:445-449 | The decoder turns n ZRL codes into 16 n zeros |
| EntropyCoding.ScanRoundTrip | components/esp32-camera/conversions/jpge.cpp:404-466 | A whole interleaved scan of any number of components with DC prediction decodes to the coded blocks, leaving exactly the bits behind it |
| EntropyCoding.EncodeScanAppend | components/esp32-camera/conversions/jpge.cpp:422-423 | Coding one more block appends its bits under the predictions left by the blocks before, which stay in range |
| EntropyCoding.ExtendMagnitude | components/esp32-camera/conversions/jpge.cpp:425-460 | The magnitude bits of a value are its category's EXTEND preimage (T.81 section F.2.2.1) |
| ByteStuffing.DestuffStuff | components/esp32-camera/conversions/jpge.cpp:203-207 | Removing the zero after each 0xFF gives back the data, and the first 0xFF not followed by zero is the marker after the scan (T.81 section B.1.1.5) |
| BitBuffer.Insert | components/esp32-camera/conversions/jpge.cpp:201 | OR-ing a value into the 24-bit buffer appends its bits behind the pending ones, which it does not disturb |
| BitBuffer.Extract | components/esp32-camera/conversions/jpge.cpp:203-209 | Bits 16 to 23 are the eight oldest pending bits, and the shift keeps the others |
| BitBuffer.OrDisjoint | components/esp32-camera/conversions/jpge.cpp:201 | OR of numbers without common bits is their sum |
| BitWriter.MemoryStream.PutBuf | components/esp32-camera/conversions/to_jpg.cpp:181-196 | The sink keeps a prefix of everything put into it, as much as fits, and never reports failure |
| BitWriter.BitWriter.FlushOutputBuffer | components/esp32-camera/conversions/jpge.cpp:181-188 | After a flush the sink has received every byte emitted and the 512-byte buffer is empty |
| BitWriter.BitWriter.EmitByte | components/esp32-camera/conversions/jpge.cpp:190-196 | Sink and buffer together grow by one byte, whether or not the buffer runs full |
| BitWriter.BitWriter.PutBits | components/esp32-camera/conversions/jpge.cpp:198-211 | The unstuffed bytes emitted plus the fewer than eight pending bits are all bits put so far, the new ones last |
| Quantisation.ZagIsZigZag | components/esp32-camera/conversions/jpge.cpp:40 | The 64-entry table is the zig-zag order of T.81 figure 5, given there by a formula over rows and columns |
| Quantisation.ZagFinds | components/esp32-camera/conversions/jpge.cpp:40 | Every row and column is found in the table, at the index of the formula |
| Quantisation.StepMonotone | components/esp32-camera/conversions/jpge.cpp:549-561 | A higher quality never gives a coarser step |
| Quantisation.StepAnchors | components/esp32-camera/conversions/jpge.cpp:549-561 | Quality 50 gives the base table itself and quality 100 steps of one |
| Quantisation.QuantiseError | components/esp32-camera/conversions/jpge.cpp:385-399 | A quantised value times its step is within half a step of the sample; quantisation is odd, keeps the sign and never grows a value |
| Quantisation.DequantiseError | components/esp32-camera/conversions/jpge.cpp:379-402 | In every position of a block, un-zig-zagged and multiplied back, the error is at most half a step |
| Quantisation.QuantiseInRange | components/esp32-camera/conversions/jpge.cpp:379-402 | A transformed block within the DCT's bounds has a DC value within 1024 and AC values within 1023 for every step |
| TableCache.ComputeQuantTable | components/esp32-camera/conversions/jpge.cpp:549-561 | The loop stores the clamped, scaled step of every entry |
| TableCache.Cache.Load | components/esp32-camera/conversions/jpge.cpp:616-634 | After any sequence of opens the static tables are those of the current quality, though they are recomputed only when it changes, and the Huffman arrays implement the standard tables |
| Dct.ButterflyExact | components/esp32-camera/conversions/jpge.cpp:111-127 | Where no cast truncates and no 32-bit operation leaves its type, the butterfly equals the exact integer matrix product |
| Dct.ButterflyInRange | components/esp32-camera/conversions/jpge.cpp:111-127 | For inputs in the range of either pass every operand of an int16 cast fits 16 bits and every sum and product of the butterfly fits 32, each step on its own |
| Dct.TransformSafe | components/esp32-camera/conversions/jpge.cpp:111-143 | In neither pass over a block of 8-bit samples, including the scalings, does any 16-bit cast truncate or any 32-bit operation overflow |
| Dct.OddExact | components/esp32-camera/conversions/jpge.cpp:119-127 | Where no cast truncates and no 32-bit operation leaves its type, the odd half, with its shared multiplications, equals four linear forms |
| Dct.OddInRange | components/esp32-camera/conversions/jpge.cpp:119-127 | The odd half is within those types for all differences the passes can produce |
| Dct.ExactBounds | components/esp32-camera/conversions/jpge.cpp:113-127 | Sharp bounds of every output of the one-dimensional transform for inputs in an interval |
| Dct.TransformBounds | components/esp32-camera/conversions/jpge.cpp:129-143 | For any samples in -128..127 the DC output lies in [-1024,1016] and the other 63 in [-1023,1023] |
| Dct.TransformDc | components/esp32-camera/conversions/jpge.cpp:129-143 | The DC output is (4 * sum + 16) / 32 exactly |
| Dct.FoldingClose | components/esp32-camera/conversions/jpge.cpp:113-127 | Of the integer matrix behind the butterfly rows 0 and 4 are exact, and every other row differs from 8192 sqrt 2 cos((2x + 1)u pi / 16) by at most 6, all eight entries together, for roots known to five places |
| Dct.TransformNear | components/esp32-camera/conversions/jpge.cpp:111-143 | For every block of 8-bit samples every output is less than one from an eighth of the product with that matrix of roots on both sides, whatever its roots are beyond five places |
| Dct.TransformIsDct | components/esp32-camera/conversions/jpge.cpp:111-143 | For every block of 8-bit samples and every pair of frequencies the output at row v, column u is less than one from the exact coefficient of T.81 section A.3.3 |
| Dct.DCT2D | components/esp32-camera/conversions/jpge.cpp:129-143 | The two passes in place, with their casts, compute the reference transform, and leave in every place a value less than one from the exact DCT coefficient of that place |
| Image.WholeMcus | components/esp32-camera/conversions/jpge.cpp:566-612 | Lines are padded to a whole number of MCUs, and lines and MCU rows to no more of them than the picture needs |
| Image.BandReplicatesEdges | components/esp32-camera/conversions/jpge.cpp:510-539 | At column x of line y of an MCU row stands the converted source pixel at (min(x, w-1), min(y, h-1)) |
| Image.ColourIsJfif | components/esp32-camera/conversions/jpge.cpp:66-99 | Each component is the exact JFIF value Y = 0.299 R + 0.587 G + 0.114 B, Cb = 128 + (B - Y) / 1.772, Cr = 128 + (R - Y) / 1.402 to 0.503, also where it is clamped; grey stays the same grey |
| Image.PixelIsJfif | components/esp32-camera/conversions/jpge.cpp:86-107 | The three components of a pixel are the JFIF colour of its source bytes, red first; a single byte is a grey |
| Image.PaddedColours | components/esp32-camera/conversions/jpge.cpp:510-539 | Every pixel of a converted and padded line is the JFIF colour of the source pixel nearest to it |
| Image.CheckerRounding | components/esp32-camera/conversions/jpge.cpp:346-362 | The mean of a two by two area is rounded down at even places and to the nearest at odd ones |
| Image.UnitInRange | components/esp32-camera/conversions/jpge.cpp:468-473 | Every block of every picture, at every quality, is within the range the entropy coder can code |
| Image.ImageUnitsPrefix | components/esp32-camera/conversions/jpge.cpp:541-545 | MCU rows already coded do not depend on scanlines still to come |
| BlockCoder.Coder.CodeCoefficients | components/esp32-camera/conversions/jpge.cpp:404-466 | Adds exactly the bits of one more block of the scan; the DC predictor array always holds the predictions of the blocks coded so far |
| BlockCoder.Coder.CodeDc | components/esp32-camera/conversions/jpge.cpp:422-437 | Emits the code of the difference to the component's last DC value and stores the new one |
| BlockCoder.Coder.CodeAc | components/esp32-camera/conversions/jpge.cpp:439-465 | The run-length loop emits the coding of coefficients 1 to 63 |
| BlockCoder.MaskMagnitude | components/esp32-camera/conversions/jpge.cpp:437-460 | Masking the decremented two's complement value with 2^nbits - 1 leaves the T.81 magnitude bits |
| Encoder.JpegEncoder.LoadBlock88Grey | components/esp32-camera/conversions/jpge.cpp:319-330 | The sample array holds the level-shifted samples of the block |
| Encoder.JpegEncoder.LoadBlock88 | components/esp32-camera/conversions/jpge.cpp:332-344 | The same from interleaved colour lines |
| Encoder.JpegEncoder.LoadBlock168 | components/esp32-camera/conversions/jpge.cpp:346-362 | Chroma averaged over two by two pixels with the alternating rounding of the source |
| Encoder.JpegEncoder.LoadBlock1688 | components/esp32-camera/conversions/jpge.cpp:364-377 | Chroma averaged over two pixels |
| Encoder.JpegEncoder.LoadQuantizedCoefficients | components/esp32-camera/conversions/jpge.cpp:379-402 | In place, the coefficients are the quantised transform in zig-zag order, and the int16 casts change none |
| Encoder.JpegEncoder.CodeBlock | components/esp32-camera/conversions/jpge.cpp:468-473 | Transform, quantisation and coding of a loaded block append the one unit that the picture has at that place |
| Encoder.JpegEncoder.ProcessMcuRow | components/esp32-camera/conversions/jpge.cpp:475-508 | For each of the four subsamplings, codes the MCUs of a row in T.81 section A.2.3 order |
| Encoder.JpegEncoder.StoreLine | components/esp32-camera/conversions/jpge.cpp:510-532 | The line buffer then holds the converted, padded line, with the JFIF colour of the nearest source pixel at every place, and the other lines are as they were |
| Encoder.JpegEncoder.LoadMcu | components/esp32-camera/conversions/jpge.cpp:510-546 | Stores a converted and padded line and, when the band is full, codes it; the coded units are always those of the complete MCU rows so far |
| Encoder.JpegEncoder.PadLines | components/esp32-camera/conversions/jpge.cpp:657-662 | The last line is repeated down to the end of the band |
| Encoder.JpegEncoder.CodeLastRow | components/esp32-camera/conversions/jpge.cpp:655-664 | After the remainder, exactly ceil(height / MCU height) rows of MCUs have been coded |
| Encoder.JpegEncoder.FinishScan | components/esp32-camera/conversions/jpge.cpp:666-669 | Seven ones pad the last byte with ones only, no data bit is lost, and header, scan and EOI have reached the sink |
| Encoder.JpegEncoder.ProcessEndOfImage | components/esp32-camera/conversions/jpge.cpp:655-672 | The sink holds header, stuffed scan of every unit of the picture and EOI |
| Encoder.JpegEncoder.ProcessScanline | components/esp32-camera/conversions/jpge.cpp:706-721 | True exactly while the image is open; the call without a scanline completes the file |
| Encoder.SplitPadding | components/esp32-camera/conversions/jpge.cpp:666 | The fewer than eight bits left over are dropped ones, not data |
| HeaderWriter.EmitHeader | components/esp32-camera/conversions/jpge.cpp:645-650 | The marker segments in order: JFIF, quantisation and Huffman tables, frame and scan headers |
| JpegRoundTrip.ParseSegment | components/esp32-camera/conversions/jpge.cpp:213-222 | A reader of marker segments gets each payload back by its length field |
| JpegRoundTrip.HeaderRoundTrip | components/esp32-camera/conversions/jpge.cpp:224-318 | Reading the header gives back size, sampling factors, quantisation steps, Huffman tables and scan order |
| JpegRoundTrip.ImageUnitsOrder | components/esp32-camera/conversions/jpge.cpp:475-508 | The units are coded in the interleaved order that a decoder derives from the frame header |
| JpegRoundTrip.FileRoundTrip | components/esp32-camera/conversions/jpge.cpp:564-672 | A file of header, stuffed scan and EOI decodes, from its own header, to exactly the coded coefficients |
| Fidelity.SampleIsMean | components/esp32-camera/conversions/jpge.cpp:319-377 | A sample of a component plane, plus 128, is the mean of the exact JFIF values of the source pixels it covers (T.81 section A.1.1), nearest ones beyond the edge, to 0.503 for one pixel and 1.26 for two or four |
| Fidelity.BlockCodes | components/esp32-camera/conversions/jpge.cpp:379-402 | A coded block, multiplied by its steps at the zig-zag index of each row and column, is the exact DCT of its samples to half a step and one |
| Fidelity.ImageUnitsAt | components/esp32-camera/conversions/jpge.cpp:475-508 | The k-th block of MCU mx in MCU row my stands at place (my * MCUs per row + mx) * blocks per MCU + k of the scan |
| Fidelity.PictureShows | components/esp32-camera/conversions/jpge.cpp:319-546 | Taken with the sizes, sampling factors and step tables of its own header, in the order of T.81 section A.2.3, every block of the decoded picture, and there are no others, dequantises to the exact DCT, to half a step and one, of samples that are means of the JFIF colours of the source pixels at that place |
| ToJpg.Init | components/esp32-camera/conversions/jpge.cpp:691-698 | An encoder is opened exactly for the parameters the source accepts, with its header emitted |
| ToJpg.ProcessScanlines | components/esp32-camera/conversions/to_jpg.cpp:120-133 | Every line of the frame is converted and, with the end of the image, passes through the encoder; the file is that of the converted scanlines |
| ToJpg.ConvertImage | components/esp32-camera/conversions/to_jpg.cpp:87-136 | End to end, for a frame in memory in any of four pixel formats: what the sink received decodes to the quantised transform of every block of the converted, edge-extended picture, and so to a picture that shows the converted frame in the sense of Fidelity.PictureShows; it is false only for an empty picture or when no memory for a scanline is left; a buffer large enough holds the whole file |
| LineFormat.ConvertLine | components/esp32-camera/conversions/to_jpg.cpp:42-85 | In place, the scanline is the colour of every pixel of the frame's line, for grey, RGB888, RGB565 and YUV422 |
| LineFormat.FieldsOf565 | components/esp32-camera/conversions/to_jpg.cpp:58-62 | The masks and shifts take out the three fields of a 16-bit pixel |
| LineFormat.SameFields | components/esp32-camera/conversions/to_jpg.cpp:47-63 | An RGB888 pixel, blue first, and the RGB565 pixel of the same fields, red in the high bits, give the same colour |
| LineFormat.SharedColours | components/esp32-camera/conversions/to_jpg.cpp:64-84 | Four bytes Y, U, Y, V give two pixels that share U and V |
| LineFormat.LinesAreFrame | components/esp32-camera/conversions/to_jpg.cpp:42-85 | The lines converted are those of the frame, one after another |
| LineFormat.ConvertedOnce | components/esp32-camera/conversions/to_jpg.cpp:42-85 | The colours determine the scanline |
| Bitmap.GetSet | components/mupgrade/include/mupgrade.h:70-71 | Setting one bit of the progress array changes the reading of that bit only |
| Bitmap.MaskValue | components/mupgrade/include/mupgrade.h:70-71 | The bits of a byte belong to its packets in order, the least significant first |
| Firmware.Size | components/mupgrade/mupgrade_root.c:388-413 | Packets are 1024 bytes except the last, which ends where the image ends |
| Firmware.CompleteIffAllSet | components/mupgrade/mupgrade_node.c:196-197 | The byte counter never exceeds the image and equals its size exactly when every packet's bit is set |
| Firmware.WrittenSet | components/mupgrade/mupgrade_node.c:196-197 | A new bit raises the sum of the marked packets' sizes by that packet's size |
| Firmware.ProgramKeeps | components/mupgrade/mupgrade_node.c:189-193 | Programming all or part of a packet leaves every byte either what the partition held or that with the image programmed over it, and keeps the packets programmed before |
| Firmware.MixedIsImage | components/mupgrade/mupgrade_node.c:189-193 | Programming the whole image over a partition gives the image if and only if no bit that it needs is cleared already; over an erased one it always does |
| NodeInvariant.SnapshotTruthIff | components/mupgrade/mupgrade_node.c:110-213 | A saved configuration matches flash if and only if no packet from number 3968 on is marked, as the saved length cuts off the last 16 bitmap bytes |
| NodeInvariant.StatusKeeps | components/mupgrade/mupgrade_node.c:33-140 | A status request, whether or not erasing the partition and saving the snapshot succeed, keeps counter, bitmap, snapshot and flash consistent: what is marked has been programmed over what the partition held; and the report is true: an array is appended exactly between nothing and everything |
| NodeInvariant.WriteKeeps | components/mupgrade/mupgrade_node.c:142-246 | So does a packet, whatever flash, snapshot and boot calls return; when a node finishes, or tries to, the whole image has been programmed unless its counter was wrong |
| NodeInvariant.FinishKeeps | components/mupgrade/mupgrade_node.c:218-243 | With a true counter the finish branch is reached only when the whole image has been programmed |
| NodeInvariant.StopKeeps | components/mupgrade/mupgrade_node.c:286-313 | So does a stop, also when the boot partition cannot be switched back |
| NodeInvariant.ResetInWriteKeeps | components/mupgrade/mupgrade_node.c:142-243 | Crash and resume: wherever a reset strikes inside a packet, the snapshot reloaded is as true of flash as before |
| NodeInvariant.ResetInStatusKeeps | components/mupgrade/mupgrade_node.c:33-140 | The same for a reset inside a status request, after any part of the partition has been erased |
| NodeInvariant.ResetInStopKeeps | components/mupgrade/mupgrade_node.c:286-307 | The same for a reset inside a stop, before or after the snapshot is dropped |
| NodeProgress.WriteGrows | components/mupgrade/mupgrade_node.c:183-197 | While nothing is lost a node never loses a packet |
| NodeProgress.RoundCompletes | components/mupgrade/mupgrade_root.c:411-474 | Writing every packet that an array lacks completes any unstopped node that has what the array marks: the whole image has been programmed, and the node reports so and would boot it if it was not complete before |
| NodeProgress.DeliveredIsRound | components/mupgrade/mupgrade_root.c:411-474 | Delivering the list of packets a complete pass sends is that round |
| NodeProgress.OvercountFinishesEarly | components/mupgrade/mupgrade_node.c:110-243 | A counter ahead of its bitmap, as a cut snapshot has, lets the node finish with a packet missing |
| NodeOvercount.FinishesIncomplete | components/mupgrade/mupgrade_node.c:110-243 | A concrete run beyond 3968 packets: over an erased partition the node reports completion and switches its boot partition while the first byte of packet 395 is still erased |
| NodeDevice.Device.MupgradeStatus | components/mupgrade/mupgrade_node.c:33-140 | The method on the node's own variables has the effect and report of the status step, for every outcome of erasing and saving; a node that was stopped says so and leaves partition and boot partition alone |
| NodeDevice.Device.MupgradeWrite | components/mupgrade/mupgrade_node.c:142-246 | The method has the effect, report and result of the write step in all eight outcomes |
| NodeDevice.Device.MupgradeStop | components/mupgrade/mupgrade_node.c:286-313 | The method has the effect and report of the stop step, and returns early when the boot partition cannot be switched back |
| NodeDevice.Device.Restart | components/mupgrade/mupgrade_node.c:28-29 | A reset brings the device's variables back to their initial values and keeps partition, snapshot and boot partition, as the reset step does |
| NodeRuns.StopHalts | components/mupgrade/mupgrade_node.c:286-313 | An answered command to stop leaves no packet marked, no byte counted and no snapshot, switches the boot partition back exactly if the upgrade had finished, and its report says Stop |
| NodeRuns.UnansweredStop | components/mupgrade/mupgrade_node.c:286-299 | A command to stop is unanswered exactly if there is no upgrade or the boot partition cannot be switched back, and then changes nothing |
| NodeRuns.StoppedStays | components/mupgrade/mupgrade_node.c:130-179 | From an answered stop on, whatever status requests, packets and commands follow until a reset: partition and boot partition stay as they are, nothing is marked, counted or saved, and every report sent says Stop, one for each request and each packet |
| NodeRuns.FirstAnswers | components/mupgrade/mupgrade_node.c:101-132 | The first status request is answered with MDF_OK exactly if the partition was erased, and then every byte of it is, and a snapshot of the empty progress is saved; the next request is always answered with MDF_OK |
| NodeRuns.BeginsCurrent | components/mupgrade/mupgrade_node.c:101-118 | A node that starts its first upgrade since a reset begins with a snapshot that is up to date |
| NodeRuns.SnapshotsCurrent | components/mupgrade/mupgrade_node.c:199-213 | While an upgrade of 100 packets or more runs without a reset, whatever arrives, the snapshot is never ten percent behind the counter |
| NodeRuns.SnapshotsEnd | components/mupgrade/mupgrade_node.c:199-213 | Once the counter is beyond the percentage at which the next snapshot is due, no further one is saved |
| NodeRuns.ResumedSavesNone | components/mupgrade/mupgrade_node.c:199-213 | A node reset during an upgrade resumes with the counter of its snapshot, and if and only if that snapshot was taken at twenty percent or later it is then beyond that percentage |
| UpgradeFaults.FlagsRaised | components/mupgrade/mupgrade_node.c:33-313 | What each event does to the worth of a report of completion, exactly: a node has forgotten from a reset that finds neither a snapshot nor the new boot partition after completion was reported, until it is reported again; its counter is wrong from the load of a snapshot whose counter is, until it starts anew; and what its partition held is fixed by the start, however much of it was erased |
| UpgradeFaults.SurvivesResetIff | components/mupgrade/mupgrade_node.c:33-140 | A completed node keeps what it has programmed over a reset if and only if it boots the new firmware or has a snapshot; otherwise the next status request erases it |
| UpgradeFaults.BootFails | components/mupgrade/mupgrade_node.c:218-243 | The run of six events: status request, last packet with the boot switch failing, status request, the root takes the report and counts the node as upgraded, reset, status request; the partition is then empty |
| UpgradeFaults.StoppedAfterwards | components/mupgrade/mupgrade_node.c:286-313 | The run of six events: status request, last packet, the root counts the node as upgraded, a stop that switches the boot partition back, reset, status request; with the same end |
| UpgradeFaults.EraseFailsIff | components/mupgrade/mupgrade_node.c:101-140 | For every image and partition: a node that starts, whether or not its partition is erased, and gets every packet reports completion and would boot; it has the image if and only if the partition was erased or no byte left over lacks a bit that the image needs |
| UpgradeFaults.LeftUnlisted | components/mupgrade/mupgrade_root.c:425-449 | A run of ten events with two nodes: the completion of one, taken between packets of a round that it has not answered, takes it out of unfinished and into no list, with the image in flash |
| UpgradeFaults.EraseFails | components/mupgrade/mupgrade_node.c:101-118 | One cleared bit in a partition that could not be erased: the node finishes, reports so and would boot, with the wrong byte |
| AddressList.RemoveAt | components/mupgrade/mupgrade_root.c:165-178 | Exactly the first occurrence of an address goes; the others keep their order |
| AddressList.AddrsRemove | components/mupgrade/mupgrade_root.c:165-178 | The shift in place removes the first occurrence, tells whether there was one, and counts down only then |
| UpgradeRoot.DrainLists | components/mupgrade/mupgrade_root.c:199-223 | Successed never repeats and stays disjoint from unfinished; an address leaves unfinished only on its own completion or stop |
| UpgradeRoot.ResponseLists | components/mupgrade/mupgrade_root.c:243-305 | The same while waiting for answers |
| UpgradeRoot.SendDrainLists | components/mupgrade/mupgrade_root.c:425-449 | The same between packets, where a completed node that was not requested leaves unfinished without joining successed |
| UpgradeRoot.SendDrainJoinsIff | components/mupgrade/mupgrade_root.c:199-223 | The completion of an unfinished node taken before asking counts it as successed; taken between packets (lines 425-449), if and only if it is in requested |
| UpgradeRoot.ResponseAccounts | components/mupgrade/mupgrade_root.c:243-320 | Whoever is unfinished either has not answered or has left a gap in the array |
| RootAnswers.DrainsIff | components/mupgrade/mupgrade_root.c:199-229 | For any reports taken before asking: an address stays unfinished if and only if it was and none of them is its completion or stop, and joins successed if and only if the first of these is a completion |
| RootAnswers.ResponsesIff | components/mupgrade/mupgrade_root.c:243-305 | For any reports taken after asking, the answer of a node being its first report unless that is a stop: pending are exactly the nodes asked that are not heard of; unfinished exactly those that have neither stopped nor answered complete; requested exactly those that answered incomplete, also if they stop later; successed gains exactly those that answered complete |
| RootAnswers.MarkedIff | components/mupgrade/mupgrade_root.c:231-301 | A packet is marked in the progress array if and only if every node that answered has it, by its own report |
| RootAnswers.RequestedDistinct | components/mupgrade/mupgrade_root.c:273-279 | No node is requested twice |
| RootAnswers.SendDrainsIff | components/mupgrade/mupgrade_root.c:425-449 | For any reports taken between packets: an address stays unfinished if and only if none of them is its completion or stop; it stays requested if and only if it has not stopped incomplete and, if unfinished, has not ended; and it joins successed if and only if it ends by a completion while unfinished and requested |
| RootDevice.AskedLearns | components/mupgrade/mupgrade_root.c:180-324 | So a status request decides the lists and the array by the reports alone, in both directions |
| RootDevice.MissingLacked | components/mupgrade/mupgrade_root.c:411-414 | A packet that is not marked after asking is one that some node answered without |
| RootDevice.Root.RequestStatus | components/mupgrade/mupgrade_root.c:180-324 | Draining, asking and waiting on the root's lists and array are the drain, ask and response steps on what was received; afterwards lists and array are what the reports taken decide, as RootAnswers states; it stops waiting only when all have answered or three receives have timed out; the status returned is that of pending nodes and gaps |
| RootDevice.Root.SendRound | components/mupgrade/mupgrade_root.c:411-474 | A round that is not cut short sends exactly the packets that the array lacks, in order, each with the image's bytes and to every node still requested, a broadcast to everyone while fewer than two nodes have succeeded; it is cut short only by an empty list, the running flag or a flash read that fails |
| RootDevice.Root.OneRound | components/mupgrade/mupgrade_root.c:397-474 | One round asks and then sends: its reports lead from the lists before to those after, and every packet sent is one that a node answered without |
| RootDevice.Root.FirmwareSend | components/mupgrade/mupgrade_root.c:386-480 | MDF_OK exactly if nothing is unfinished; otherwise all ten rounds were made, or the running flag was cleared; reports are taken in order, each round asking before sending, and no packet is sent that no node lacked |
| RootDevice.OkMeansFinished | components/mupgrade/mupgrade_root.c:307-324 | A status request that returns MDF_OK leaves unfinished empty |
| RootDevice.ReportsEndSend | components/mupgrade/mupgrade_root.c:386-480 | If a report of completion of every node is taken, before asking or between packets, the send ends with MDF_OK |
| UpgradeEnds.ToldCanBeHeard | components/mupgrade/mupgrade_root.c:386-449 | From any reachable state in which every unfinished node has reported completion, the network holds the reports for one round that ends the send with MDF_OK |
| UpgradeEnds.SendCanEnd | components/mupgrade/mupgrade_root.c:386-474 | From any reachable state in which every unfinished node has answered and is as it was then: the packets that the array lacks and a status request, all delivered, and one round of the reports sent, are a run that ends the send with nothing unfinished and the whole image programmed on each of these nodes |
| RootDevice.Targets | components/mupgrade/mupgrade_root.c:355-378 | Without a list the nodes are those of the routing table, and for a broadcast those but the root; the codes on an unreadable table and an empty list |
| UpgradeSystem.SuccessedHoldImage | components/mupgrade/mupgrade_root.c:202-213 | In every run with loss, repetition, reordering, stops, failing calls and resets at any point: a node listed as successed has had the whole image programmed, and so has the image if and only if its partition took it, as an erased one does, unless it has forgotten or its counter was wrong; one that boots, or would boot, the new firmware also if it has forgotten; and up to 3968 packets the counter never is wrong |
| UpgradeSystem.CounterIsTrue | components/mupgrade/mupgrade_node.c:180-243 | In every run, unless a cut snapshot was loaded, the counter is the sum of the marked packets; each of these has been programmed; and a full counter means the whole image has |
| UpgradeSystem.NoneSkipped | components/mupgrade/mupgrade_root.c:281-301 | In every run a packet that the root skips is marked, and has been programmed, by every requested node whose progress was not lost since its answer |
| UpgradeSystem.LosslessRound | components/mupgrade/mupgrade_root.c:411-474 | From any reachable state the packets one pass of the root sends, all delivered, complete every such node that has not stopped: the whole image has been programmed, and the node reports so and would boot it |
| UpgradeSystem.NobodyForgotten | components/mupgrade/mupgrade_root.c:425-449 | In every run, once nothing is unfinished, each node asked for has itself said that it stopped, or has completed and had the whole image programmed, but for the same two things; also a node that left unfinished without joining successed |
| UpgradeSystem.ReportsSensible | components/mupgrade/mupgrade_node.c:119-124 | In every run the root reads a progress array from exactly the reports that carry one, and none with a true counter is full |
| UpgradeSystem.SendIsRun | components/mupgrade/mupgrade_root.c:386-480 | Whatever reports it takes, the root's code is a run of the system |
| UpgradeSystem.SendDelivers | components/mupgrade/mupgrade_root.c:386-480 | When the send ends with nothing unfinished, each node it was called for has itself said that it stopped, or has completed and had the whole image programmed, but for the same two things |
| FirmwareCheck.KmpNext | components/mupgrade/mupgrade_check.c:170-185 | Every entry is the longest proper border of its prefix, and the inner loop runs fewer times than there are bytes |
| FirmwareCheck.KmpFind | components/mupgrade/mupgrade_check.c:187-205 | Succeeds if and only if the target occurs ending no later than index src_size - target_size, in linear time |
| FirmwareCheck.FirmwareCheck | components/mupgrade/mupgrade_check.c:207-235 | Accepts exactly if no chunk is looked at, or some chunk has the flag where the search sees it and no read failed up to there |
| FirmwareCheck.AcceptsIffVisible | components/mupgrade/mupgrade_check.c:219-229 | A readable partition is accepted if and only if a flag starts at most 961 bytes into one of the 992-byte steps and its chunk ends before the partition |
| FirmwareCheck.FlagMissed | components/mupgrade/mupgrade_check.c:187-229 | A partition that has the flag, 970 bytes in, and is refused |
| CameraFrame.SplitLine | components/esp32-camera/driver/camera.c:278-297 | Halving ends below 4096 bytes, and buffer size times buffers per line is the line rounded down |
| CameraFrame.FilterFits | components/esp32-camera/driver/camera.c:710-719 | For every width, quality and halving of the line and 16 lines or more, the filter's output fits its share of the frame and the frame holds at least one share |
| CameraFrame.FilterExactIff | components/esp32-camera/driver/camera.c:756-768 | The filter fills its share up to a multiple of four bytes, so all of it if and only if the share is such a multiple |
| CameraFrame.TrimmedFrame | components/esp32-camera/driver/camera.c:671-688 | A frame with an end marker is cut behind its last one plus at most one zero byte, to a multiple of neither 512 nor 100; one without keeps its length |
| CameraFrame.Trim | components/esp32-camera/driver/camera.c:673-687 | The backward search computes that length |
| CameraRing.FilterStays | components/esp32-camera/driver/camera.c:709-719 | A filter write changes only bytes of its share, inside the frame buffer |
| CameraRing.FrameIsPayloads | components/esp32-camera/driver/camera.c:709-737 | Payloads that fit and begin as a JPEG file does stand in the buffer each at its own place; one shorter than its share leaves the old bytes behind it, and nothing beyond is touched |
| CameraRing.FullPayloadsJoin | components/esp32-camera/driver/camera.c:709-737 | Payloads that fill their shares follow each other without a gap |
| CameraRing.FinishQueues | components/esp32-camera/driver/camera.c:605-628 | A finished frame is queued alone, with the bytes written, cut to its length |
| CameraRing.BadIffSpoilt | components/esp32-camera/driver/camera.c:527-546 | In every run the frame being filled is marked if and only if, since the last frame ended, a DMA buffer was dropped while its buffer was free or its first payload (lines 721-727) did not begin as a JPEG file does |
| CameraRing.SpoiltIsDropped | components/esp32-camera/driver/camera.c:655-665 | In every run such a frame never reaches a client: when it ends, queue, newest frame and all other buffers are as they were, and its buffer is free, empty, not marked, its header overwritten |
| CameraRing.UnspoiltIsQueued | components/esp32-camera/driver/camera.c:605-670 | In every run any other frame with a payload is queued alone when it ends, with the bytes written, cut to its length |
| CameraRing.NextIsEmpty | components/esp32-camera/driver/camera.c:640-652 | When the camera moves on, the next buffer is free and empty, its header overwritten |
| CameraRing.SearchFinds | components/esp32-camera/driver/camera.c:640-643 | The search passes only referenced buffers and ends at a free one or just before its start |
| CameraRing.AdvanceFirstFree | components/esp32-camera/driver/camera.c:636-652 | The next current buffer is the first free one along the ring; it stays only if all are referenced |
| CameraRing.FinishKeeps | components/esp32-camera/driver/camera.c:655-700 | Finishing a frame, good, bad, empty or on a held buffer, keeps ownership; afterwards the current buffer is free and empty, or all are referenced |
| CameraRing.Ownership | components/esp32-camera/driver/camera.c:595-653 | In every run a buffer is referenced, and has data, exactly while it is queued, held, returned or lost, never in two of these; the queue of returned buffers has room for one more whenever a client holds one |
| CameraRing.NothingLost | components/esp32-camera/driver/camera.c:595-653 | Without a client taking the queued frame in the middle of displacing it no buffer is ever lost |
| CameraRing.LostOnlyWhenSnatched | components/esp32-camera/driver/camera.c:611-621 | In that race, and only then, the new frame's buffer is referenced and in no queue |
| CameraRing.LostIffRaced | components/esp32-camera/driver/camera.c:595-653 | A run has lost a buffer if and only if a frame in it was finished in that race |
| CameraRing.RaceLoses | components/esp32-camera/driver/camera.c:595-653 | With two buffers or more, from any initial state: fill, finish, fill, finish in the race is a run, and loses the second buffer |
| CameraRing.LostForGood | components/esp32-camera/driver/camera.c:595-653 | A buffer once lost is lost and referenced in every later state |
| CameraRing.NeverAllLost | components/esp32-camera/driver/camera.c:595-653 | In every run some buffer is not lost |
| CameraRing.SeekKeeps | components/esp32-camera/driver/camera.c:479-489 | The wait of a starting client for a free buffer keeps ownership and never leaves a free current buffer; with all buffers referenced it ends just before its start |
| CameraRing.FrameNeverChanges | components/esp32-camera/driver/camera.c:605-652 | Bytes and length do not change from the queue until the buffer is given back or displaced |
| CameraRing.GetNewest | components/esp32-camera/driver/camera.c:1340-1348 | A client gets the newest frame finished |
| CameraRing.ReturnHasRoom | components/esp32-camera/driver/camera.c:1351-1357 | Giving a held buffer back never blocks |
| CameraDevice.Camera.FbInit | components/esp32-camera/driver/camera.c:223-275 | Frees the old ring once around; then the linked buffers form one ring of the count asked for, empty and free, or, when one cannot be allocated, all built so far are freed; nothing for count zero |
| CameraDevice.Camera.FbDeinit | components/esp32-camera/driver/camera.c:209-221 | Frees the buffers of the ring, from the current one on |
| CameraDevice.AroundOnce | components/esp32-camera/driver/camera.c:209-221 | So each is freed exactly once |
| CameraDevice.DmaFilterJpeg | components/esp32-camera/driver/camera.c:756-768 | Copies one byte of each DMA element and nothing else |
| CameraDevice.Camera.FilterBuffer | components/esp32-camera/driver/camera.c:702-738 | On the linked buffers the method is the filter step, for the sizes of the constructor, and the ring stays |
| CameraDevice.Camera.MarkBad | components/esp32-camera/driver/camera.c:527-546 | On the linked buffers the interrupt's mark is the mark step, of which BadIffSpoilt and SpoiltIsDropped say what it leads to |
| CameraDevice.Camera.FbDone | components/esp32-camera/driver/camera.c:595-653 | Publishing, draining and the pointer walk are the done step |
| CameraDevice.Camera.FinishFrame | components/esp32-camera/driver/camera.c:655-700 | The method is the finish step and keeps the invariant |
| CameraDevice.Camera.FbGet | components/esp32-camera/driver/camera.c:1318-1349 | The buffer got has the newest frame; null exactly when none is queued or the camera did not start |
| CameraDevice.Camera.SeekFree | components/esp32-camera/driver/camera.c:479-489 | On the linked buffers one walk of the wait is the seek step, and finds a free buffer exactly if there is one |
| CameraDevice.Camera.FbReturn | components/esp32-camera/driver/camera.c:1351-1357 | The buffer given back joins the queue, which had room |
| CameraDevice.Camera.constructor | components/esp32-camera/driver/camera.c:278-297 | The sizes chosen at start satisfy what the filter step needs |
| DeviceList.PutIsUpdate | main/node_dev_list.c:13-70 | Adding updates the registry at one address, and addresses stay unique; without a version a registered node keeps its own and a new one has what its memory held |
| DeviceList.DelIsRemoval | main/node_dev_list.c:72-98 | Deleting removes one address and nothing else |
| DeviceList.Registry.Add | main/node_dev_list.c:13-70 | On the linked list: appends or updates; on failed allocation nothing changes and the code is ENOMEM for the first node, -1 for a later one |
| DeviceList.Registry.Delete | main/node_dev_list.c:72-98 | On the linked list: unlinks the node of that address, head or not |
| DeviceList.Registry.Exists | main/node_dev_list.c:100-117 | True exactly if the address is registered |
| DeviceList.Registry.OfflineSweep | main/router.c:335-363 | Deleting while walking on, with the table kept in the message itself, is the sweep of the list |
| DeviceList.SweepExactIff | main/router.c:327-363 | The sweep leaves exactly the entries in the routing table, in order, and reports exactly the others, if and only if no entry's place in the table is overwritten by a report before the entry is looked up |
| DeviceList.FewRemovalsIntact | main/router.c:327-363 | That holds whenever at most twenty nodes are offline |
| DeviceList.OverwrittenTable | main/router.c:327-363 | A list of 22 whose last node is in the table and yet removed |
| PictureRelay.PicBuffer.SendPicture | main/node_task.c:101-137 | The packets sent are the picture's parts, numbered from 1, up to one whose sending fails |
| PictureRelay.RootSendPhoto | main/router.c:546-584 | The root's own pictures are cut the same way, and an empty one sends nothing |
| PictureRelay.PayloadIsImage | main/node_task.c:101-130 | The bytes used in the parts, joined, are the picture |
| PictureRelay.Relay.Receive | main/router.c:1008-1085 | The method on the root's slots is the receive step |
| PictureRelay.PictureRelayed | main/router.c:1008-1085 | From the first slot a picture of at most 400 packets arriving in order is sent on whole, and the cursor returns, if and only if there are never more than ten strays in a row; else nothing of it is sent on; the cursor never passes the last slot |
| PictureRelay.PictureArrives | main/router.c:1008-1085 | Node, relay and server together: the payloads of the row sent on are the picture |
| PictureRelay.CursorStaysIff | main/router.c:1008-1085 | Whatever packets arrive from whichever nodes: the root writes only to its 400 slots if and only if never, before another arrival, 400 packets of the picture's owner have come since one last began or ended a picture; and its cursor counts them |
| PictureRelay.TornFitsIff | main/router.c:1062-1068 | Two pictures of which the last packet and the first are lost: the root writes past its slots if and only if more than 400 of their packets arrive |

## Left out

- The mesh, Wi-Fi, TCP, HTTP, LED and watchdog calls; sends and receives are steps or parameters.
- Allocation failure, except in the device list, the camera's ring and the scanline, and the recovery paths
  it leads to.
- The self-upgrade of the root and upgrades to two different images in one run.
- In `mupgrade_firmware_send`, the checks of its parameters and the choice between multicast and broadcast
  for a single node: who receives which packet is free in the model.
- The tables of `yuv2rgb`, which is a parameter of the conversion; the other pixel formats, for which
  `convert_line_format` leaves the scanline as it was allocated.
- `callback_stream` and sinks that report failure: the memory sink never does.
- The inverse transform of a decoder.
- Single-buffer camera mode, the pixel formats other than JPEG, the I2S registers and the interrupt
  timing; frame width and height fields.
- Registration and ping messages of the router, logging (one log line of the sweep reads a freed node),
  and the truncation of the number of removed nodes to a byte.
- The root's three address lists are values that its methods reassign; the shift in place is
  `AddressList.AddrsRemove`, on an array.
- A disconnected server: the relay then drops a complete row, and nothing else changes.
- The sensor drivers, `yuv.c`, `to_bmp.c`, `esp_jpg_decode.c`, `app_httpd.c` and `app_spiffs.c`: register
  tables, per-pixel copies and plumbing.
- ToJpg.Init: malformed widths beyond 65535 are accepted by the source too; the end-to-end theorem is for the
  16-bit sizes that `convert_image` takes.
- CameraRing.NothingLost: holds without the race described above, which the source does not exclude.
- NodeInvariant.StatusKeeps: does not model the branch for a node that is itself the mesh root, which
  belongs to the self-upgrade.
- NodeDevice.Device.MupgradeStatus: the same branch is missing.
- NodeRuns.SnapshotsCurrent: images below 100 packets, of which one packet may step over the percentage at
  which a snapshot is due; then NodeRuns.SnapshotsEnd applies.
- NodeDevice.Device.MupgradeWrite: does not model packet numbers from the packet count on, which the root
  never sends.
- PictureRelay.PicBuffer.SendPicture: does not model an empty picture, for which the source's loop runs past the
  end of the buffer.
- DeviceList.Registry.OfflineSweep: does not model routing tables of more than 216 addresses, which with the
  room for reports no longer fit the message, nor lists of more nodes than it has room for.
- LineFormat.ConvertLine: does not model YUV422 lines of odd width, for which the source writes three bytes
  past the scanline.
- ToJpg.ConvertImage: does not model YUV422 frames of odd width, for the same reason.
- UpgradeSystem.SuccessedHoldImage: states no more about a node that has forgotten or whose counter was wrong,
  since then the image may be gone, or may never have been complete.
