# Verified model of the espresso controller

This project models the parts of the firmware whose correctness is hardest to see by
reading, and proves what they promise. `dafny verify dfyconfig.toml` checks all of it.

**PNG decoding** (`components/tft-driver/pngle.c`). `PngFormat` says what a PNG image is
(RFC 2083): Adam7 passes, sample packing, scanline filters, the serialised stream, and
the pixels in stream order. `PngScan` decodes that stream with whole rows kept in plain
sequences; `PngRoundTrip` proves that this gives the image back, every pixel exactly once.
`PngDecoder` is the code's form, a ring of `stride + 2 * bytes-per-pixel` cells updated in
place, and refines `PngScan` byte by byte. `PngChunks` is a reference chunk parser that takes
one smallest unit at a time, `PngFeed` the in-place parser with its bulk reads and the
carry-over loop of the caller, `PngFile` the meaning of whole chunks and files, and `PngOrder`
the order in which chunks may stand. `PngStall` says
exactly which files stop the parser without an error, and `PngImage` what the file of an image
leaves, with its tables, unknown chunks anywhere and its payload cut anywhere. `PngPartial` shows
that no proper part of an image's bytes draws the image. The end of the chain is in `PngDraw`,
which adds the 32 KiB window between inflate and the scanlines: `PngDraw.FileDrawsImage` says of
any such file, fed in any calls, exactly when it draws its image, and `PngDraw.DrawFile` runs both
classes, parser and scanline decoder, on it.

**The layered runtime** (`components/rebel-espresso/src/runtime`). `Seqlock` interleaves one
writer and any readers word by word. `Debounce`, `Refill`, `IoScan`, `SensorTask` and
`ProcessImage` are the tasks' own code, as classes that update their fields in place, each
proved equal to a function of its old state. `MachineRuns` puts scans, remote power,
publications, level readings, control steps and power events together as a step system, one
scan being one step as `components/rebel-espresso/src/runtime/process_image.h:17-22` assumes,
and proves invariants and trace properties of every run. `SharedRuns` puts the seqlock's words
under it: the temperatures that scans and the control loop use are then the results their read
attempts accept while the sensor task may be writing, and every such run is shown to be one of
`MachineRuns`.

**Control and diagnostics.** `Pid` and `BoilerTemp` (over `real`), `WaterProbe` (window and
median) and `Corrosion` (the timed classification).

**Two loops.** `Line` (the display's line drawing) and `Eeprom` (page splitting, and the
device record kept there).

Results that are not what a reader of the source would expect, each with the exact condition:

- A boiler setpoint S below 102, although 50 to 140 is configurable, and no trim: the trimmed
  setpoint alternates from one regulating step to the next between S and the floor of 102
  (`components/rebel-espresso/src/machine/boiler_temp.cpp:205-209`; 102 is above the cap, so the
  next step caps it to S, which is below the floor). The over-temperature percentage is measured
  from it, so the cutoff meant for S is sure to act on every second step only: in a run from boot
  one reading above it, taken for the third time, is heated at 100 percent. `BoilerTemp.TrimAlternates`,
  `BoilerTemp.EverySecondStepCuts`, `BoilerTemp.BelowFloorHeats`, `BoilerTemp.CutoffIffAboveFloor`,
  `BoilerTemp.TrimExact`.
- The refill hysteresis timer is 32 bits wide under a 64-bit clock: from 2^32 ms (about 50
  days) on, the first low reading trips at once. `Refill.FirstLowTrips`.
- A write of at most 32 bytes that crosses a page boundary is not split and wraps.
  `Eeprom.RightIffSplitRight`. The device record is not affected. A commit that fails half
  way leaves a device that still loads. `Eeprom.TornCommitLoads`.
- The brew and steam filters are seeded by two reads of the switch; if they differ, one
  reading can flip the filter. `Debounce.SeedMustAgree`.
- Two kinds of file stop the PNG parser without an error, so that no later byte is taken: those
  with a gAMA chunk whose length is no multiple of four, and those with IDAT bytes behind the end
  of the zlib stream (`components/tft-driver/pngle.c:533-559`, where nothing is consumed any
  more). The caller's loop then gives up with a full buffer exactly when 1024 bytes or more are
  never taken; with fewer it ends as if all were well. `PngStall.ChunkStallsIff`,
  `PngStall.FileStallsIff`, `PngDraw.PngStallsIff`, `PngStall.DecodeChunks`. In the second case the
  image has been drawn in full, although its end is never reached. `PngDraw.TrailingBytesDraw`.
- Inflated bytes are handed to the scanlines only when the 32 KiB window is full or inflate is
  done (`components/tft-driver/pngle.c:543-556`). A file whose compressed stream breaks off before
  its end is read to EOF without an error, and its image is drawn exactly when whole windows cover
  its bytes; with less than a window nothing is drawn at all. `PngDraw.FlushRule`,
  `PngDraw.FileDrawsImage`, `PngDraw.IncompleteDrawsNothing`.
- With 2^31 writes during one read attempt the seqlock accepts a torn pair.
  `Seqlock.TornAfterWrap`.

## Model

| member | source | states |
|---|---|---|
| PngFormat.StepsExact | components/tft-driver/pngle.c:376-390 | The columns (or rows) a pass visits below the image's edge are exactly the first `Steps` of them |
| PngFormat.StepsCeil | components/tft-driver/pngle.c:325-325 | Counting those columns is ceil((width - off) / div) |
| PngFormat.StepsAsComputed | components/tft-driver/pngle.c:325-325 | The unsigned 32-bit arithmetic gives that count too, zero for an empty pass included, exactly when rounding the width up does not overflow |
| PngFormat.PassesOf | components/tft-driver/pngle.c:509-510 | Without interlacing there is one pass and it is the image; with it the first of seven comes first |
| PngFormat.GroupAgreement | components/tft-driver/pngle.c:244-244 | Byte group g of a row lies inside the stride exactly when it still holds a pixel of the row, so drawing and stride end together |
| PngFormat.PackGroupBytes | components/tft-driver/pngle.c:201-233 | Packing the pixels of a group gives bytes, as many as the group has |
| PngFormat.ReadPacked | components/tft-driver/pngle.c:201-233 | Unpacking pixel k of a packed group gives back its samples, for depths 1, 2, 4, 8 and 16 |
| PngFormat.DigitOfPacked | components/tft-driver/pngle.c:205-216 | The shift and mask pick out the k-th packed sample, leftmost in the high bits |
| PngFormat.Paeth | components/tft-driver/pngle.c:308-318 | Of left, up and upper left the one nearest to left + up - upper left, ties in that order (RFC 2083, section 6.6) |
| PngFormat.FilterByteIs | components/tft-driver/pngle.c:418-427 | The encoder of RFC 2083, sections 6.3 to 6.6, written without the decoder's predictor (Sub the left byte, Up the one above, Average the lower half of their sum, Paeth the nearest), subtracts what the decoder adds back |
| PngFormat.BlockInside | components/tft-driver/pngle.c:297-301 | The block drawn for a pixel is never empty and stays inside the image |
| PngColors.ScaleNearest | components/tft-driver/pngle.c:282-287 | Scaling to 8 bits is to the nearest value and never truncated by the cast |
| PngColors.ScaleInvertible | components/tft-driver/pngle.c:282-287 | Up to 8 bits per sample the scaled value determines the sample |
| PngColors.ChannelsMean | components/tft-driver/pngle.c:249-279 | The channels of a pixel: colours as stored, grey three times over, or the three bytes of the palette entry; alpha as stored, from the table of a palette, or opaque except for exactly the colour that tRNS names |
| PngColors.EightBitsUnscaled | components/tft-driver/pngle.c:281-287 | Eight-bit colours and palette entries are drawn as they are stored |
| PngColors.TableCovers | components/tft-driver/pngle.c:289-294 | Whatever bytes are decoded, a value looked up in a gamma table set up for the header lies inside it; colours are taken from the table, alpha is scaled |
| PngScan.RowEnd | components/tft-driver/pngle.c:376-380 | The drawing column passes the right edge exactly when stride bytes of the row have been taken, never earlier or later |
| PngScan.RunConcat | components/tft-driver/pngle.c:369-374 | Decoding two pieces of the inflated stream in turn is decoding their concatenation |
| PngScan.AnyCalls | components/tft-driver/pngle.c:369-374 | Any division of the inflated stream into calls gives the state of one call |
| PngScan.StepInv | components/tft-driver/pngle.c:375-439 | Every byte keeps the row and column invariants |
| PngRoundTrip.FilterInverted | components/tft-driver/pngle.c:420-427 | Reversing a filter on the filtered byte, with the same neighbours, gives the raw byte |
| PngRoundTrip.RebuildsRow | components/tft-driver/pngle.c:401-429 | Byte i of a row filtered by that encoder rebuilds to byte i of the row, left, up and upper left being the rebuilt neighbours, zero outside the pass |
| PngRoundTrip.DecodesImage | components/tft-driver/pngle.c:369-442 | Decoding the serialisation of any image, with any filter per row, interlaced or not, draws exactly its pixels in stream order and does not fail |
| PngRoundTrip.TrailingIgnored | components/tft-driver/pngle.c:383-384 | After the last row further bytes change nothing |
| PngRoundTrip.DecodesInAnyCalls | components/tft-driver/pngle.c:369-442 | The same in any number of calls, with any bytes behind the image |
| PngRoundTrip.Adam7Table | components/tft-driver/pngle.c:42-45 | The pass tables are the 8 by 8 pattern of RFC 2083, section 2.6 |
| PngRoundTrip.PassesPartition | components/tft-driver/pngle.c:42-45 | Every pixel belongs to exactly one of the seven passes |
| PngRoundTrip.BlocksFillIn | components/tft-driver/pngle.c:297-301 | The block drawn for a pixel covers no pixel drawn before but its own, and extends to one on either side, or to the edge of the image |
| PngRoundTrip.EveryPixelOnce | components/tft-driver/pngle.c:369-442 | Whatever the calls: no failure, every pixel of the image drawn exactly once, with the colour of its own samples, and nothing drawn outside |
| PngDecoder.U32ClampAdd | components/tft-driver/pngle.c:62-68 | The overflow-safe addition is the minimum of the true sum and the limit |
| PngDecoder.ScanlineStride | components/tft-driver/pngle.c:325-326 | The stride computed in 32 bits is the true number of bytes of a row of the pass |
| PngDecoder.Decoder.SetInterlacePass | components/tft-driver/pngle.c:320-341 | A pass starts at its offsets with a zeroed ring of stride + 2 bytes-per-pixel cells, that is with a zero row above |
| PngDecoder.Decoder.RingbufPush | components/tft-driver/pngle.c:195-199 | Pushing drops the oldest cell and appends the new one |
| PngDecoder.Decoder.GetValue | components/tft-driver/pngle.c:201-233 | One sample and the moved cursor, wrapping round the ring |
| PngDecoder.Decoder.GetPixel | components/tft-driver/pngle.c:245-247 | The samples of one pixel of the group in the ring |
| PngDecoder.Decoder.HasTransColor | components/tft-driver/pngle.c:185-193 | Whether the pixel has, in all its 16-bit samples, the one colour that tRNS makes transparent |
| PngDecoder.Decoder.Convert | components/tft-driver/pngle.c:249-279 | The conversion by bits of the colour type gives the channels that the table of colour types says: palette entry, transparency, opaque by default; false exactly for a palette index out of range |
| PngDecoder.Decoder.DrawPixel | components/tft-driver/pngle.c:281-303 | One draw of the scaled colour at the current column, which then moves on, saturating at the width |
| PngDecoder.Decoder.DrawPixels | components/tft-driver/pngle.c:235-306 | Drawing from the ring is drawing the group the ring holds, wherever it wraps |
| PngDecoder.Decoder.Neighbours | components/tft-driver/pngle.c:407-413 | The three ring indices are the upper-left, up and left rebuilt bytes, zero outside the pass image |
| PngDecoder.Decoder.Undo | components/tft-driver/pngle.c:415-429 | Adding back under filter 1 undoes subtracting the left byte, under 2 the byte above, under 3 the lower half of their sum, under 4 the Paeth byte, and 0 leaves the byte |
| PngDecoder.Decoder.Unfilter | components/tft-driver/pngle.c:407-427 | The byte rebuilt from the ring is the one rebuilt from the full rows, and, filter by filter, the one from which the encoder got the byte read |
| PngDecoder.Decoder.OnRowByte | components/tft-driver/pngle.c:407-438 | One byte of row data, rendering a group when it is complete |
| PngDecoder.Decoder.BeginRow | components/tft-driver/pngle.c:376-381 | A finished row becomes the row above without being copied |
| PngDecoder.Decoder.OneTurn | components/tft-driver/pngle.c:375-439 | Each turn of the loop takes a byte, moves to a later pass, or ends it |
| PngDecoder.Decoder.OnData | components/tft-driver/pngle.c:369-442 | The ring decoder's whole state, its draws and its result are those of the reference scan run on the bytes of the call, or on its first byte if the image has no columns; the loop terminates |
| PngChunks.CrcConcat | components/tft-driver/pngle.c:731-737 | The running check value does not see where the data was split |
| PngChunks.EndCheckValue | components/tft-driver/pngle.c:742-750 | The check value of the empty IEND chunk is AE426082, the last four bytes of every PNG file |
| PngChunks.ChunkNames | components/tft-driver/pngle.h:73-79 | Chunk types and the signature are the letters that name them, read with the most significant byte first |
| PngChunks.HeaderLayout | components/tft-driver/pngle.c:457-463 | The 13 bytes of IHDR give width, height, depth, colour type, compression, filter and interlace in this order |
| PngChunks.HeaderTable | components/tft-driver/pngle.c:496-507 | A header is accepted exactly for the fifteen combinations of colour type and depth of RFC 2083 with compression and filter method 0, and determines the samples per pixel |
| PngChunks.PaletteLimitIs | components/tft-driver/pngle.c:688-688 | The palette limit is the smaller of 256 and 2 to the depth |
| PngChunks.UnitFits | components/tft-driver/pngle.c:445-768 | Every parser move keeps the table sizes in step with the payload still to come: the palette and transparency tables are never overrun, and IDAT is reached only with a legal header and, for type 3, a palette |
| PngChunks.ParseConcat | components/tft-driver/pngle.c:771-787 | Parsing a concatenation is parsing the first part, then its leftover with the second |
| PngChunks.LeftoverIsShort | components/tft-driver/pngle.c:771-787 | A call leaves fewer than 13 bytes unconsumed unless the parser has failed or has stalled for good |
| PngChunks.StalledIff | components/tft-driver/pngle.c:533-606 | Of 13 bytes or more a parser that has not failed takes none exactly when it is inside a gAMA chunk of which one to three bytes are left, or inside an IDAT chunk before a byte that inflate does not take |
| PngChunks.StalledTakesNothing | components/tft-driver/pngle.c:776-784 | A stalled parser takes nothing more of whatever follows |
| PngChunks.BulkIdat | components/tft-driver/pngle.c:517-560 | Taking the IDAT bytes on offer at once, up to the first that inflate does not take or breaks on, is taking them one by one |
| PngChunks.BulkSkip | components/tft-driver/pngle.c:607-612 | So is skipping an unknown chunk in bulk |
| PngChunks.SplitIndependent | components/tft-driver/pngle.c:771-787 | For every stream and every division into calls that carry leftovers forward, the final state, tables, check value and leftover are those of one call, in errors too |
| PngFeed.Pngle.HandleChunk | components/tft-driver/pngle.c:445-616 | Payload bytes change the fields as the reference's units do, or wait, or fail where it fails; of IDAT bytes those are consumed that inflate takes |
| PngFeed.Pngle.BeginChunk | components/tft-driver/pngle.c:654-720 | The checks on a chunk header, and the tables allocated for it |
| PngFeed.Pngle.FeedInternal | components/tft-driver/pngle.c:618-769 | One move of the parser agrees with the reference; no move without progress unless nothing more can be taken |
| PngFeed.Pngle.Feed | components/tft-driver/pngle.c:771-787 | A call returns -1 exactly when the reference fails, else its state and the bytes it took; the loop terminates |
| PngFeed.DecodeFile | components/tft-driver/main.c:949-969 | The carry-over loop with its 1024-byte buffer reports an error exactly when parsing the whole file does, gives up with a full buffer exactly when parsing leaves 1024 bytes or more untaken, and else ends in the state of parsing the file |
| PngFile.CrcDecides | components/tft-driver/pngle.c:742-765 | After any acceptable chunk the next four bytes are accepted exactly when they are its CRC, and the chunk then has its meaning; otherwise the parser fails |
| PngFile.FileRead | components/tft-driver/pngle.c:618-787 | A file of acceptable chunks is read as their meanings in order |
| PngOrder.AllowedAsOrdered | components/tft-driver/pngle.c:634-720 | The parser allows a chunk next exactly when the chunks before it do: one header before all that depends on it, at most one palette and one transparency table of allowed sizes, a palette before indexed pixels, pixels before the end, nothing behind it |
| PngOrder.AcceptedIffOrdered | components/tft-driver/pngle.c:618-769 | A sequence of chunks is accepted exactly when each may follow those before it, told by the chunks alone |
| PngStall.ChunkStallsIff | components/tft-driver/pngle.c:599-606 | Reading a chunk, whatever it holds, stalls the parser exactly when it is a gAMA chunk whose length is no multiple of four, or an IDAT chunk with bytes that inflate does not take; what is then never taken of it is known |
| PngStall.UnacceptableFails | components/tft-driver/pngle.c:463-560 | Every other chunk that opens but is not acceptable is an error |
| PngStall.StallsAnyIff | components/tft-driver/pngle.c:517-606 | Whether some chunk stalls can be told without parsing, from the lengths of gAMA chunks and from the stream made of the IDAT payloads |
| PngStall.FileStallsIff | components/tft-driver/pngle.c:618-787 | A file of acceptable chunks, but for what stalls, never fails; it stalls exactly if a gAMA chunk has a bad length or its IDAT payloads, as one stream, hold bytes that are not taken, and everything from inside that chunk on is never taken |
| PngStall.FiveByteGammaStalls | components/tft-driver/pngle.c:599-606 | A file with a five-byte gAMA chunk behind the signature is such a file, whatever follows |
| PngStall.DecodeChunks | components/tft-driver/main.c:949-969 | On such files the caller's loop never reports an error: it gives up with a full buffer exactly when 1024 bytes or more are never taken |
| PngImage.AncillaryIgnored | components/tft-driver/pngle.c:607-612 | Unknown chunks anywhere before the end change neither the lasting fields nor whether the file stalls |
| PngImage.PayloadRead | components/tft-driver/pngle.c:659-668 | The IDAT payload is one stream however it is divided into chunks; then the end chunk ends the file, unless bytes of the stream are left over |
| PngImage.FileReadInAnyCalls | components/tft-driver/pngle.c:618-787 | The file of an image leaves its header, gamma value, palette, transparency table and payload, in any calls, and is at its end or stalled |
| PngPartial.PendingDraws | components/tft-driver/pngle.c:375-439 | While a row is under way, the image cannot be completed without a further draw |
| PngPartial.PartIsNotDrawn | components/tft-driver/pngle.c:369-442 | With its last byte missing, or more, an image is not drawn: no byte of a serialised image is superfluous |
| PngPartial.DrawnIffWhole | components/tft-driver/pngle.c:369-442 | Bytes that begin an image, or that the image begins, draw every pixel exactly once in its own colour exactly when they hold all of it |
| PngDraw.FlushRule | components/tft-driver/pngle.c:526-556 | With any inflater, a complete stream reaches the scanlines in full, and an incomplete one in its first 32768 * (n / 32768) bytes, wherever its bursts of output end; of the bytes offered, those that belong to the stream are taken |
| PngDraw.StreamIff | components/tft-driver/pngle.c:526-559 | IDAT bytes are left over exactly when the stream is complete before them, and the stream fails exactly when inflate does |
| PngDraw.PngStallsIff | components/tft-driver/pngle.c:517-606 | A file of acceptable chunks, but for what stalls, stalls exactly if a gAMA chunk has a bad length or bytes follow the point where the stream of its IDAT payloads is complete |
| PngDraw.FileReachesScanlines | components/tft-driver/pngle.c:517-787 | The file of an image, fed in any calls, is read without an error, to its end unless bytes follow a complete stream, and the scanlines have then seen what the flush rule says |
| PngDraw.FileDrawsImage | components/tft-driver/pngle.c:369-787 | That file draws every pixel of its image exactly once in its own colour, through the gamma table if it has a gAMA chunk, exactly when its stream is complete and holds the image, or whole windows cover the image's bytes; it ends in EOF exactly when no bytes follow a complete stream |
| PngDraw.TrailingBytesDraw | components/tft-driver/pngle.c:533-559 | With bytes behind its complete stream a file has drawn its image in full, but its end is never reached, whatever further calls bring |
| PngDraw.IncompleteDrawsNothing | components/tft-driver/pngle.c:543-556 | An incomplete stream of less than a window ends in EOF with nothing handed on |
| PngDraw.EveryImageHasAFile | components/tft-driver/pngle.c:445-787 | For every decodable image its chunks, with the payload left uncompressed and ended by one byte, are a file that draws it |
| PngDraw.FeedCalls | components/tft-driver/main.c:949-969 | Feeding calls with leftovers carried forward ends where the reference does, and is false exactly when it fails |
| PngDraw.DrawWindows | components/tft-driver/pngle.c:543-556 | Handing bytes to the ring decoder a window at a time is scanning them all |
| PngDraw.DrawFlushed | components/tft-driver/pngle.c:543-556 | The ring decoder, set up with the header, tables and gamma table that the parser holds, comes to the reference scan of all bytes handed on |
| PngDraw.GammaTableFits | components/tft-driver/pngle.c:343-359 | A gamma table has an entry for every sample value of the header, and none is set up for a gamma of 0 |
| PngDraw.DrawFile | components/tft-driver/pngle.c:369-787 | The parser class and the ring decoder class, one behind the other, draw the image of its file exactly under the condition of `FileDrawsImage` |
| Seqlock.StepKeepsInv | components/rebel-espresso/src/runtime/process_image.cpp:59-89 | Every word-level step of writer or reader keeps the seqlock invariant while fewer than 2^31 writes complete in one attempt |
| Seqlock.NoWrap | components/rebel-espresso/src/runtime/process_image.cpp:80-87 | An even counter that looks unchanged is unchanged, within that bound |
| Seqlock.AcceptedPairsAreWhole | components/rebel-espresso/src/runtime/process_image.cpp:59-89 | In every interleaving each accepted (value, fault) pair is one published pair or the boot default, and a reader's successive results never go back in time |
| Seqlock.AcceptedIsFresh | components/rebel-espresso/src/runtime/process_image.cpp:73-89 | An accepted pair is the newest one published when the attempt began |
| Seqlock.QuietReadAccepts | components/rebel-espresso/src/runtime/process_image.cpp:80-87 | An attempt no writer meets succeeds, with the newest pair |
| Seqlock.TornAfterWrap | components/rebel-espresso/src/runtime/process_image.cpp:80-87 | The bound is tight: with 2^31 writes in one attempt a torn pair is accepted |
| Debounce.StableIsLatestRun | components/rebel-espresso/src/runtime/io_scan.cpp:49-77 | From the boot seed, after any readings, the stable state is the value of the latest run of five equal readings, else the seed |
| Debounce.SettledOnce | components/rebel-espresso/src/runtime/io_scan.cpp:62-77 | That description admits one value only |
| Debounce.SeedMustAgree | components/rebel-espresso/src/runtime/io_scan.cpp:254-259 | The seeded filter keeps that promise for all readings exactly when the two boot reads of the switch agree |
| Debounce.ReportsOnRun | components/rebel-espresso/src/runtime/io_scan.cpp:72-76 | A change is reported exactly when a reading completes a run of the other value |
| Debounce.ReportsAlternate | components/rebel-espresso/src/runtime/io_scan.cpp:72-76 | Reported values alternate, starting opposite to the seed; the last is the stable state |
| Debounce.ReportsApart | components/rebel-espresso/src/runtime/io_scan.cpp:30-33 | Two reports are at least five readings apart |
| Debounce.Input.Update | components/rebel-espresso/src/runtime/io_scan.cpp:62-77 | The three fields after one reading, and true exactly when the stable state changed |
| Refill.ChangeNeedsStretch | components/rebel-espresso/src/machine/boiler_refill_states.cpp:53-87 | Below 2^32 ms, IDLE to ACTIVE needs a stretch longer than the low hysteresis in which every call reported low; dually ACTIVE to IDLE |
| Refill.StretchForcesChange | components/rebel-espresso/src/machine/boiler_refill_states.cpp:53-87 | Conversely such a stretch, from a positive time on, never leaves the state unchanged |
| Refill.FirstLowTrips | components/rebel-espresso/src/machine/boiler_refill_states.cpp:25-61 | With the timer not running, a low reading starts a refill at once exactly from 2^32 ms on |
| Refill.FirstFullTrips | components/rebel-espresso/src/machine/boiler_refill_states.cpp:74-83 | The same for a full reading ending a refill |
| Refill.RefillIsBounded | components/rebel-espresso/src/machine/boiler_refill_states.cpp:74-76 | While ACTIVE, no more than the maximum refill time has passed since the call that entered it |
| Refill.ErrorLatches | components/rebel-espresso/src/machine/boiler_refill_states.cpp:93-95 | No call leaves ERROR |
| Refill.ErrorIff | components/rebel-espresso/src/machine/boiler_refill_states.cpp:53-95 | A call leaves ERROR exactly if it was latched, an error is reported in IDLE or ACTIVE, or more than the maximum has passed since ACTIVE was entered |
| Refill.StartsByLevel | components/rebel-espresso/src/machine/boiler_refill_states.cpp:26-47 | The machine settles only after the start delay, in IDLE on a full level and in ACTIVE on a low one |
| Refill.CallMoves | components/rebel-espresso/src/machine/boiler_refill_states.cpp:49-87 | A change of state, and nothing else, restarts the clock of the time limits, and clears the hysteresis timer; a level that does not ask for a change stops that timer and changes nothing |
| Refill.PowerStartsOver | components/rebel-espresso/src/machine/boiler_refill_states.cpp:107-113 | A power change starts over, but keeps the hysteresis timer |
| Refill.RefillMachine.MoveTo | components/rebel-espresso/src/utils/state_machine.h:95-112 | A transition stamps the begin time, sets the state, and runs its enter handler |
| Refill.RefillMachine.Drive | components/rebel-espresso/src/machine/boiler_refill_states.cpp:97-101 | One call of the machine, all five states, in place |
| Refill.RefillMachine.PowerChanged | components/rebel-espresso/src/machine/boiler_refill_states.cpp:107-113 | A power change restarts the machine and leaves the stability timer as it is |
| ProcessImage.Shared.Standby | components/rebel-espresso/src/runtime/process_image.cpp:45-57 | Standby clears what the scan owns and latches, and no other field |
| IoScanSafety.ApplySafety | components/rebel-espresso/src/runtime/io_scan_safety.cpp:6-51 | The overrides one after another are one condition: power on and no inhibit, else duty 0; everything off in standby |
| IoScanSafety.GateGives | components/rebel-espresso/src/runtime/io_scan_safety.cpp:6-51 | Each relay is given what the image asks of it and nothing without power; the heater gets the desired duty exactly if power is on, water and level are known good, there is no refill error and no descale, and the boiler reading is without fault and at most 140 degrees |
| IoScan.InputsKeep | components/rebel-espresso/src/runtime/io_scan.cpp:81-166 | Reading the inputs keeps the actuation, lockout and refill invariants, and leaves the detected power equal to the current one |
| IoScan.RefillKeeps | components/rebel-espresso/src/runtime/io_scan.cpp:170-217 | So does driving the refill machine, untrusted levels included |
| IoScan.ScanInDescale | components/rebel-espresso/src/runtime/io_scan.cpp:106-165 | A descale begins locked out; only a release unlocks it, and only the next press pumps |
| IoScan.BootShows | components/rebel-espresso/src/runtime/io_scan.cpp:252-271 | At boot the power switch is believed and held switches count as read, and nothing else is on or known |
| IoScan.ScanDetects | components/rebel-espresso/src/runtime/io_scan.cpp:81-138 | The image shows the debounced switches; a power edge begins a descale exactly if the brew switch is held, and only a power-off ends it, which also clears the refill machine |
| IoScan.BrewFollowsSwitch | components/rebel-espresso/src/runtime/io_scan.cpp:141-165 | With power on a brew runs exactly from a press to the next release, a descale waiting for a first release; its start time is that of the press |
| IoScan.RefillFollowsLevel | components/rebel-espresso/src/runtime/io_scan.cpp:170-204 | Outside descale the solenoid is open exactly while the refill is active and the level known; a refill starts only on a confirmed low level, and a low level never starts idle |
| IoScan.ScanKeepsInv | components/rebel-espresso/src/runtime/io_scan.cpp:269-315 | Every whole scan keeps all three invariants |
| IoScan.ScanLeavesOthers | components/rebel-espresso/src/runtime/process_image.h:28-34 | A scan writes no field owned by the sensor task or the control loop |
| IoScan.Task.Start | components/rebel-espresso/src/runtime/io_scan.cpp:252-271 | Boot seeds the filters and takes the power switch at once, with no descale |
| IoScan.Task.DetectPower | components/rebel-espresso/src/runtime/io_scan.cpp:104-138 | A power change by switch or remotely: descale entry, refill restart, standby |
| IoScan.Task.DetectBrew | components/rebel-espresso/src/runtime/io_scan.cpp:141-165 | A brew edge under the lockout, and the actuators it moves |
| IoScan.Task.InputsStep | components/rebel-espresso/src/runtime/io_scan.cpp:81-166 | The three switches, power and brew in the code's order |
| IoScan.Task.RefillStep | components/rebel-espresso/src/runtime/io_scan.cpp:170-204 | The refill machine and its outputs; nothing in standby or descale |
| IoScan.Task.Turn | components/rebel-espresso/src/runtime/io_scan.cpp:273-310 | One turn of the scan loop, with the outputs the gate lets through |
| MachineRuns.HeatsOnlyWhenSafe | components/rebel-espresso/src/runtime/io_scan_safety.cpp:6-51 | In every run a scan that drives the heater does so with the desired duty, 1 to 100, with power on, water and level OK, no refill error, no descale, and with the newest published boiler reading a genuine one, without fault and at most 140 degrees |
| MachineRuns.HeatsExactlyWhenSafe | components/rebel-espresso/src/runtime/io_scan_safety.cpp:6-51 | And whenever all these conditions hold what is applied is the desired duty |
| MachineRuns.UntrustedLevelIsOff | components/rebel-espresso/src/runtime/io_scan_safety.cpp:35-38 | After a reading with a failed ADC, or a committed probe fault under the guard, every scan until the next reading has heater duty 0, outside descale the solenoid closed, and starts no refill |
| MachineRuns.BadReadingCuts | components/rebel-espresso/src/runtime/io_scan_safety.cpp:6-51 | In every run a scan that finds the newest published reading faulted, above 140 degrees or missing leaves the heater at 0 |
| MachineRuns.OnlyPublishedIsRead | components/rebel-espresso/src/runtime/sensor_task.cpp:34-39 | What readers can be given is the boot default and what the sensor task published, in order |
| MachineRuns.ActuatorsAgree | components/rebel-espresso/src/runtime/io_scan.cpp:81-217 | After every scan of every run: pump iff brew or solenoid, three-way iff brew; with power on outside descale the solenoid is open iff the refill is active and the level known, in descale iff brew; all off in standby |
| MachineRuns.OutputsAgree | components/rebel-espresso/src/runtime/io_scan.cpp:219-241 | The same of the outputs that `Turn` hands to the relays: three-way iff brew, pump iff brew or solenoid, solenoid iff an active refill at a known level or in descale a brew, aux iff power, all off in standby |
| MachineRuns.BrewRunsFromPressToRelease | components/rebel-espresso/src/runtime/io_scan.cpp:141-165 | In every run with power on a brew is running exactly if the last switch or power event was a press and no descale is locked out |
| MachineRuns.LockedOutIsStill | components/rebel-espresso/src/runtime/io_scan.cpp:43-47 | While locked out, descale is on, the brew switch is still on, and nothing runs |
| MachineRuns.DescalePumpsAfterReleaseAndPress | components/rebel-espresso/src/runtime/io_scan.cpp:106-165 | In every run descale pumping was preceded, since a power-on with power on ever since, by a release and then a press |
| MachineRuns.RefillTimeIsBounded | components/rebel-espresso/src/runtime/io_scan.cpp:170-204 | Whenever a scan leaves the solenoid open outside descale, the time since the scan that entered ACTIVE is at most the maximum refill time |
| MachineRuns.RefillTimesOut | components/rebel-espresso/src/machine/boiler_refill_states.cpp:74-76 | In every run a scan with power staying on enters ERROR exactly if it finds the refill active for more than its maximum since the scan that started it; the heater is then off and the solenoid closed |
| MachineRuns.ErrorLatchesUntilPowerOff | components/rebel-espresso/src/machine/boiler_refill_states.cpp:89-113 | From ERROR on, every scan has heater duty 0 and the solenoid closed until a power-off is detected |
| MachineRuns.RunKeepsInv | components/rebel-espresso/src/runtime/process_image.h:17-22 | The conjunction of all run invariants is kept by every step of every task |
| SharedRuns.AcceptedResult | components/rebel-espresso/src/runtime/process_image.cpp:73-89 | The result a read attempt accepts is the newest pair published, and no write is in progress |
| SharedRuns.ScanReadsNewest | components/rebel-espresso/src/runtime/io_scan_safety.cpp:41-48 | A scan that uses the result its read attempt accepts is the scan that uses the newest published temperature |
| SharedRuns.ControlReadsPublished | components/rebel-espresso/src/runtime/process_loop.cpp:54-61 | The control loop's last result is a published temperature, and none older than the one it used before |
| SharedRuns.RunRefines | components/rebel-espresso/src/runtime/process_image.cpp:59-89 | Every run of tasks and words together, with fewer than 2^31 writes during any attempt, is a run of the machine |
| SharedRuns.HeatsOnAcceptedReading | components/rebel-espresso/src/runtime/io_scan_safety.cpp:41-51 | In every such run a scan that drives the heater has read, whole, the newest temperature the sensor task published, without fault and at most 140 degrees |
| SensorTask.ReadingIsCoherent | components/rebel-espresso/src/runtime/sensor_task.cpp:75-110 | After every reading a known level agrees with the level-OK flag, and a faulted ADC gives neither |
| SensorTask.LevelKnownIff | components/rebel-espresso/src/runtime/sensor_task.cpp:104-110 | The level is unknown exactly if the ADC failed, or the committed status is a fault and the guard is on; else it is OK exactly on a wet reading |
| SensorTask.LowVoltageIsWet | components/rebel-espresso/src/runtime/sensor_task.cpp:72-75 | A lower voltage is never drier, and the threshold itself counts as wet |
| SensorTask.MonitoringRules | components/rebel-espresso/src/runtime/sensor_task.cpp:77-102 | Monitoring that is off is healthy, new thresholds forget all history, a dry reading holds the status |
| SensorTask.WetReadingsAreARun | components/rebel-espresso/src/runtime/sensor_task.cpp:93-98 | Wet readings on one set of thresholds take the tracker through the run of their medians for which commits are timed |
| SensorTask.WindowHoldsValid | components/rebel-espresso/src/runtime/sensor_task.cpp:62-68 | The window holds the newest valid samples; what a failed ADC gave never enters it |
| SensorTask.TruncatedIs | components/rebel-espresso/src/runtime/sensor_task.cpp:67-67 | A voltage from 0 to below 65536 loses only its fraction by the cast |
| SensorTask.ShownIsCommitted | components/rebel-espresso/src/runtime/sensor_task.cpp:77-102 | The published corrosion status stays the monitor's committed one through rebasing, disabling and dry readings |
| SensorTask.Task.ReadWaterLevel | components/rebel-espresso/src/runtime/sensor_task.cpp:52-111 | One reading updates the window, the monitor and the five image fields the sensor task owns, with the true median |
| WaterProbe.WindowHoldsNewest | components/rebel-espresso/src/machine/water_probe.cpp:11-17 | After any pushes the window holds exactly the last min(n, 15) samples, in order |
| WaterProbe.NewestEnds | components/rebel-espresso/src/machine/water_probe.cpp:11-17 | These samples end the sequence of all pushed, and are all of it or 15 |
| WaterProbe.SortSorts | components/rebel-espresso/src/machine/water_probe.cpp:29-38 | The insertion sort gives a sorted permutation |
| WaterProbe.MedianUnique | components/rebel-espresso/src/machine/water_probe.cpp:40-44 | A multiset of samples has one median |
| WaterProbe.MiddleIsBetween | components/rebel-espresso/src/machine/water_probe.cpp:40-44 | As many sorted samples stand before the middle as behind it; for an even count it is the lower half of the sum of the two |
| WaterProbe.MedianInMajority | components/rebel-espresso/src/machine/water_probe.cpp:19-45 | If more than half of the samples lie in a range, so does the median |
| WaterProbe.Window.Push | components/rebel-espresso/src/machine/water_probe.cpp:11-17 | The ring drops the oldest sample once full, and nothing else |
| WaterProbe.Window.Median | components/rebel-espresso/src/machine/water_probe.cpp:19-45 | The median of the multiset held, wherever the ring starts; floor of the mean of the middle two for even counts, 0 when empty |
| WaterProbe.InsertionSort | components/rebel-espresso/src/machine/water_probe.cpp:29-38 | In place, the first n cells become their sort and the rest stays |
| Corrosion.CommitNeedsSpan | components/rebel-espresso/src/machine/water_probe.cpp:63-79 | A new status is committed only if every update over at least the consistency time was classified to it |
| Corrosion.SpanCommits | components/rebel-espresso/src/machine/water_probe.cpp:63-79 | Two or more consecutive updates spanning that time always commit it, for elapsed times below 2^32 ms |
| Corrosion.MostSevereReached | components/rebel-espresso/src/machine/water_probe.cpp:47-55 | The status is the most severe whose threshold is on and reached, so a higher voltage is never less severe |
| Corrosion.CorrosionMonitor.Observe | components/rebel-espresso/src/machine/water_probe.cpp:63-79 | One update in place, and the committed status |
| Pid.ProcessKeepsInv | components/rebel-espresso/src/utils/pid.cpp:111-153 | The integral stays within 25 either way, and before the first sample there is no error on record: kept exactly unless a clock that had run reads 0 again within 5 s with an error present |
| Pid.ProcessYields | components/rebel-espresso/src/utils/pid.cpp:111-153 | A step either asks for nothing with no error on record (first sample, or a gap of 5 s), or acts on the present error |
| Pid.IdleSteps | components/rebel-espresso/src/utils/pid.cpp:111-118 | A first sample asks for nothing; one after 5 s or more asks for nothing and forgets error and sum |
| Pid.StillResponse | components/rebel-espresso/src/utils/pid.cpp:119-143 | With the reading standing still a step asks for p times the error plus the sum, which grows by i times error times seconds, within 25 either way, and is 0 while the error is outside its band |
| Pid.SlopeResponse | components/rebel-espresso/src/utils/pid.cpp:125-139 | A reading that moved changes only the duty, by exactly d times its slope: less if it rose, more if it fell |
| Pid.OverIff | components/rebel-espresso/src/utils/pid.cpp:143-147 | The cutoff is reported exactly if it is on and the reading exceeds the setpoint by more than its percentage |
| Pid.IntegralIsArea | components/rebel-espresso/src/utils/pid.cpp:124-137 | Over a run of samples inside the band and the limit the sum grows by exactly i times the area under the error |
| Pid.UpdatesStayInRange | components/rebel-espresso/src/utils/pid.cpp:68-91 | Whatever updates arrive the configuration stays in its ranges |
| Pid.UpdateAdopts | components/rebel-espresso/src/utils/pid.cpp:68-91 | An update in range is taken over whole, but for the choice of setpoint, and a field out of range leaves the old one |
| Pid.Controller.Sample | components/rebel-espresso/src/utils/pid.cpp:111-153 | One step of the controller in place |
| BoilerTemp.DutyInRange | components/rebel-espresso/src/machine/boiler_temp.cpp:148-245 | The desired duty is 0 to 100, and positive only with power, no descale, water, and a valid reading |
| BoilerTemp.RegulatedDuty | components/rebel-espresso/src/machine/boiler_temp.cpp:190-245 | A regulating step runs the PID on the target: 0 above its cutoff, 100 further below it than configured, else the whole number nearest to what the PID asks for, within 0 to 100; only cutoffs are counted |
| BoilerTemp.IdleSteps | components/rebel-espresso/src/machine/boiler_temp.cpp:148-191 | Without power, in descale or without water nothing changes; a fault or a reading out of range is counted, and the latter leaves the PID alone |
| BoilerTemp.PowerEventForgets | components/rebel-espresso/src/machine/boiler_temp.cpp:107-118 | A power event forgets the PID and the error time, and nothing else |
| BoilerTemp.TrimStaysBelow | components/rebel-espresso/src/machine/boiler_temp.cpp:193-212 | With a setpoint S of at least 102 every regulating step leaves the trimmed setpoint in [102, S] |
| BoilerTemp.TrimExact | components/rebel-espresso/src/machine/boiler_temp.cpp:193-212 | The trimmed setpoint is at most S exactly when S is at least 102 or the untrimmed proposal exceeds S; for a lower S it is S or 102 according to that proposal; it is what the step regulates to |
| BoilerTemp.TrimIsAdded | components/rebel-espresso/src/machine/boiler_temp.cpp:193-212 | A trim is added to the trimmed setpoint as far as floor and cap leave room, none leaves it, and without one it starts from the setpoint |
| BoilerTemp.LowerTargetCutsSooner | components/rebel-espresso/src/machine/boiler_temp.cpp:214-245 | A regulation target no higher than the setpoint yields duty 0 on every reading too hot for the setpoint, PID reset steps included |
| BoilerTemp.TrimUntouched | components/rebel-espresso/src/machine/boiler_temp.cpp:107-118 | Power events and steps that do not regulate to the primary setpoint leave the trimmed setpoint alone |
| BoilerTemp.TrimmedInRange | components/rebel-espresso/src/machine/boiler_temp.cpp:193-212 | In every run from boot with settings in their ranges the trimmed setpoint stays within 50 to 140, so it is never unset again |
| BoilerTemp.TrimAlternates | components/rebel-espresso/src/machine/boiler_temp.cpp:193-212 | Below 102 and without trim, two successive regulating steps, with anything between that does not regulate, regulate one to S and the other to 102 |
| BoilerTemp.EverySecondStepCuts | components/rebel-espresso/src/machine/boiler_temp.cpp:193-245 | Of two such steps with readings too hot for S at least one yields duty 0 |
| BoilerTemp.CutoffIffAboveFloor | components/rebel-espresso/src/machine/boiler_temp.cpp:107-245 | Over all runs from boot, settings in their ranges, trims and readings, the cutoff at the configured setpoint holds at every step exactly for setpoints of at least 102 |
| BoilerTemp.BelowFloorHeats | components/rebel-espresso/src/machine/boiler_temp.cpp:207-209 | For every lower setpoint, a run from boot with one fixed configuration, no trim and a reading above the cutoff: taken for the third time, that reading is heated at 100 percent |
| BoilerTemp.SteamCutoff | components/rebel-espresso/src/machine/boiler_temp.cpp:140-146 | The untrimmed steam setpoint cuts off at itself |
| BoilerTemp.EveryRunCutsOff | components/rebel-espresso/src/machine/boiler_temp.cpp:107-245 | The bounds and the cutoff hold at every regulating step of every run from boot, with arbitrary trims, configurations and power events |
| BoilerTemp.ErrorTimeAdds | components/rebel-espresso/src/machine/boiler_temp.cpp:165-183 | The accumulated error time is exactly the time since the last sample before the faults |
| BoilerTemp.RestartIff | components/rebel-espresso/src/machine/boiler_temp.cpp:171-180 | The controller restarts exactly when enabled and the error time passes its limit on a fault |
| BoilerTemp.Control.Run | components/rebel-espresso/src/machine/boiler_temp.cpp:148-245 | One control step in place: inhibits, fault path, range check, trim, PID, duty; only the desired duty of the image changes |
| BoilerTemp.Control.OnPower | components/rebel-espresso/src/machine/boiler_temp.cpp:107-118 | Power events reset the PID and the error time; standby takes the desired duty back |
| Line.OffsetIs | components/tft-driver/ili9340.c:793-801 | The error term determines the minor offset floor((2 i minor + major) / (2 major)) |
| Line.LineIsTrue | components/tft-driver/ili9340.c:778-818 | In all octants no drawn coordinate wraps, the line starts and ends at its end points, and each pixel is within half a pixel of the ideal line |
| Line.LineIsConnected | components/tft-driver/ili9340.c:778-818 | Neighbouring points touch and differ: the line has no gaps and no repeats |
| Line.DrawLine | components/tft-driver/ili9340.c:778-818 | Exactly max(dx, dy) + 1 points are drawn, point i being the i-th of the line |
| Eeprom.PageWriteStores | components/rebel-espresso/src/device/eeprom.cpp:36-52 | A write that fits its page stores its data and changes nothing else |
| Eeprom.StoredConcat | components/rebel-espresso/src/device/eeprom.cpp:74-77 | Consecutive chunks amount to their concatenation |
| Eeprom.StoredReadsBack | components/rebel-espresso/src/device/eeprom.cpp:28-34 | Stored data is read back and the other cells are as before |
| Eeprom.ChunkIsGood | components/rebel-espresso/src/device/eeprom.cpp:63-77 | Every chunk of a long write fits its page, and the next one starts on a page |
| Eeprom.ChunksStore | components/rebel-espresso/src/device/eeprom.cpp:63-77 | From any chunk of a well-split write on, the remaining chunks, written one by one, leave the data stored |
| Eeprom.WrittenStores | components/rebel-espresso/src/device/eeprom.cpp:57-81 | Chunk by chunk, a write longer than 32 bytes or within one page leaves exactly its data stored |
| Eeprom.RightIffSplitRight | components/rebel-espresso/src/device/eeprom.cpp:57-81 | Writes of n bytes at an address come out right for all data exactly when n exceeds 32 or the write fits in one page |
| Eeprom.Device.WriteInPage | components/rebel-espresso/src/device/eeprom.cpp:36-52 | The device's write, wrapping inside the page; nothing if not acknowledged |
| Eeprom.Device.WriteStream | components/rebel-espresso/src/device/eeprom.cpp:57-81 | The loop terminates with all data written, or on an error with a prefix written and all else as before |
| Eeprom.CommitThenLoad | components/rebel-espresso/src/device/thing_info.cpp:103-122 | Committing the device record and loading it is the identity, whatever the device held |
| Eeprom.RecordLayout | components/rebel-espresso/src/device/thing_info.cpp:103-122 | The magic number 6B4A lies in the first two cells, low byte first, the 64 bytes of the record right behind, and all other cells are as before |
| Eeprom.TornCommitLoads | components/rebel-espresso/src/device/thing_info.cpp:216-235 | A commit that failed in the record loads as the part that went out followed by what was there |
| Eeprom.Commit | components/rebel-espresso/src/device/thing_info.cpp:103-122 | Magic number, then record; on failure the device is unchanged or holds a prefix of the record |
| Eeprom.Load | components/rebel-espresso/src/device/thing_info.cpp:216-235 | None without the magic number, else the record behind it |

## Left out

- PngDraw.FlushRule: inflate itself is an arbitrary function from compressed bytes to bursts of output and a report of being done; which bytes are valid zlib is not modelled.
- PngDraw.FileDrawsImage: the scanline decoder stands at the image's first pass from the start, where the code sets it up on reading IHDR. The gamma curve, a power function in floating point, is an arbitrary function to bytes, for the positive display gamma that the caller sets (components/tft-driver/main.c:945-946), and the gAMA chunk stands before PLTE.
- PngDraw.DrawFile: the bytes handed on are decoded after the calls, with the tables read by then, instead of inside the calls. For the file of an image this makes no difference; when a scanline fails, the code stops reading the file at that point.
- PngRoundTrip.EveryPixelOnce: needs what the code does not check, namely sizes within the 32-bit arithmetic and palette indices in range; an index out of range fails the scan, as in the code.
- PngDecoder.Decoder.OnData: the colour tables do not change while scanlines are decoded, and a failed ring allocation is not modelled.
- PngDecoder.Decoder.DrawPixels: the bodies of the callbacks are not modelled.
- PngFeed.Pngle.HandleChunk: a failed table allocation is not modelled, and the C checks that cannot fire (a chunk consumed too far, a transparency chunk whose colour type changed) are proved not to be needed instead of being copied.
- Seqlock.QuietReadAccepts: a reader's loop is proved to end only once the writer pauses; the reader's retries against a writer that never does are not bounded. Words are copied one at a time in any order, and memory is sequentially consistent (the barriers of the code).
- Debounce.StableIsLatestRun: from a seed whose two reads agree; see `Debounce.SeedMustAgree`.
- Refill.ChangeNeedsStretch: timestamps below 2^32 ms; `Refill.FirstLowTrips` says exactly what happens from there on.
- Refill.StretchForcesChange: the stretch starts at a positive time, since 0 in the timer means that it is not running.
- Corrosion.SpanCommits: all updates within 2^32 ms of the first, the range of the 32-bit clock.
- MachineRuns.HeatsOnlyWhenSafe: a scan, and every write of another task, is one atomic step; a remote command that lands inside a scan is not modelled. Temperatures are read as `SharedRuns` derives from the words.
- SharedRuns.ScanReadsNewest: the scan is one step, taken when its read attempt is accepted; the attempt itself interleaves freely with the writer.
- IoScan.Task.Turn: events posted to other tasks, the event-group mirror, the watchdog and the relay writes are not modelled; power events reach the control loop as steps of their own, at any time or never.
- SensorTask.Task.ReadWaterLevel: the cast of the voltage to 16 bits wraps where C++ leaves the result undefined, and the probe is any reading.
- BoilerTemp.Control.Run: doubles are modelled as reals; two samples in the same microsecond divide by zero in the code, and the model then uses an arbitrary value. Statistics are counted but not saved, and configuration is a parameter of each step.
- BoilerTemp.EveryRunCutsOff: sample times are positive, as they are once the clock has started.
- Eeprom.Device.WriteStream: the device has 64 KiB and a transfer that is not acknowledged writes nothing; at most 64 KiB are written at once.
- Eeprom.CommitThenLoad: the record is 64 bytes with the controller's alignment, and integers are little-endian.
- JPEG decoding, fonts, shapes other than lines and the rest of the display driver: device writes and user interface.
- ADC, SPI, I2C, GPIO and RTD drivers: readings are arbitrary inputs here.
- Networking, web server, MQTT, HomeKit, updates: plumbing over libraries.
- Stored configuration and its JSON form, schedules: field-by-field copying; configuration is a parameter here.
- The brew-head PID: its trim is arbitrary here.
- Task scheduling, event loss and logging.
