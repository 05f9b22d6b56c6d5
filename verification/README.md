# Verified model of the camera firmware

This project models the parts of a camera firmware and of its host tools that
carry real invariants, and proves them with Dafny 4.11. `dafny verify
dfyconfig.toml` checks everything.

## What is modelled

**The baseline JPEG encoder** (`jpge.cpp`, driven by `to_jpg.cpp`). The model
follows the code from scanlines to bytes: colour conversion and line buffers
(`Geometry`, `BlockLoading`), the integer transform (`Dct`), quantisation and the
shared tables (`Quant`), Huffman code generation (`Huffman`, `StandardTables`),
run-length coding (`Entropy`, `BlockCoding`, `Scan`), the bit packer and the
output buffer (`Packer`, `Output`), the marker segments (`Headers`,
`HeaderWriting`), MCU rows (`ScanCoding`), and the encoder object and its driver
(`Encoder`, `ImageFile`, `ToJpg`). `CodeLength` and `FileSize` bound the length of
the code and of the file. Its partner is a decoder written after ITU-T T.81
(Annex B, Annex C, sections A.2, F.1.2 and F.2.2), in `Headers`, `Huffman`,
`Entropy`, `Scan`, `Packer` and `JpegFile`. The main theorem,
`ImageFile.ImageRoundTrip`, says that this decoder, given nothing but the bytes,
recovers every quantised coefficient of every image; `ImageFile.ConvertImage`
says that the stream receives exactly these bytes, and when. `Placement` computes
the place of each block from the sampling factors (section A.2.3), `Inverse` holds
the inverse transform (section A.3.3), and `DecodedImage` joins all of this: from
the bytes alone, every block shows its place of the image, and its samples come
back within a stated bound.

**The capture protocol** (`cam_hal.c`). `FramePool` holds the frames, the queue
and the consumers; `CamHal` is the state machine of the capture task, the
interrupt and the consumers, one step for each queue operation and each write of
`en` or `state`. A run is any sequence of actions, so that the theorems hold for
every interleaving. `CamRace` says for exactly which configurations a run can
drop a completed frame although the queue is empty, and `CamHal.LostIffDrained`
for which schedules. `CamContent` says what the frames in the queue hold, after any
run, `CamCapture` what comes of a capture that nothing interrupts. `CamJpeg` shows
that the frames in the queue start with the JPEG marker (`Markers`) that the capture
task looks for. `CamTake` holds the sequential parts: marker scans, the choice of a
frame, and the recursion of `cam_take`.

**The serial link** (`uart_service.c` printing, `camera_uart_test.py` parsing),
**the quota store** (`file_store.c`), **the message bus** in C and in C++
(`msg_bus.c`, `MessageBus.cpp`; `MsgBus`, `MsgBusImpl` and, over runs, `BusRuns`), and **the retry cache** with the HTTP sink
(`cache.c`, `http_uploader_service.c`).

## How it is modelled

- Objects whose methods update fields are classes with ghost abstract state; each
  method is proved against a function of the old state. Arrays are updated in place.
- Machine integers are subset types with explicit wrap-around where the code relies
  on it: 16-bit transform factors, the 32-bit bit buffer and code counter, 16-bit
  image dimensions, the difference of times returned as an int.
- The results of outside calls are parameters: memory allocation, writes of the
  output stream, `ll_cam_start`, `ll_cam_memcpy`, `fopen`, `fwrite`, `unlink`, the
  order in which `qsort` leaves the files, network sends, elapsed ticks.
- The facts about the constant tables are many small lemmas, one row of a table each.
- Callers of the capture protocol are assumed to touch only frames that they hold,
  and `ll_cam_memcpy` to deliver at most `pixels_per_dma` bytes outside psram mode.

## Where the code and its description differ

- Encoder sources with four channels are accepted, but read as one byte a pixel:
  every column but the first shows bytes of another pixel
  (`Geometry.PixelDecidesIff`, `Geometry.FourChannelsMisread`).
- `fmt2jpg` reports success with a cut file when the file is longer than 131072
  bytes (`ToJpg.Fmt2Jpg`, `ToJpg.WholeIffFits`). From the dimensions alone: above
  an exact size this happens to every image (`ToJpg.SomeIsWholeIff`,
  `ToJpg.BlackIsCut`), below another to none (`ToJpg.SmallIsWhole`); between the
  two it depends on the pixels.
- The comparison of `file_store.c` orders two files by age if and only if their
  times are equal or their distance modulo 2^32 lies in 1 to 2^31 - 1
  (`FileStore.CompareIsAge`); otherwise the purge can delete the newer file
  (`FileStore.OlderGoesFirstIff`, `FileStore.NewerIsPurged`).
- A file name that already exists makes the running total too large by the size of
  the old file, for good (`FileStore.Store.Save` states the exact difference,
  `FileStore.TotalStaysRightIff` when there is none, `FileStore.ReusedNameOvercounts`
  an example).
- Strings of the item size or longer lose their end in the cache
  (`RetryCache.StringSurvives`).
- Strings and pictures share one cache, and the first flush takes the oldest entry
  for a string: a picture is then handed over up to its first zero, and removed if
  that send succeeds (`RetryCache.HandedWholeIff`, `RetryCache.PictureHandedAsString`).
- In the mode that grabs the latest of several frames, the newest frame can be lost
  instead of the oldest: in every configuration in which frames can complete at all,
  and in no other mode (`CamRace.LossIff`).

## Model

| member | source | states |
|---|---|---|
| `ImageFile.ImageRoundTrip` | managed_components/espressif__esp32-camera/conversions/jpge.cpp:409-513 | Main result. For every image (any width and height up to 65535, any subsampling, any quality): a T.81 decoder that starts from the bytes of the file alone recovers the size, the sampling factors, both tables, the Huffman specifications and every quantised coefficient, in order. |
| `ImageFile.DecodedIsNear` | managed_components/espressif__esp32-camera/conversions/jpge.cpp:384-407 | From the bytes alone: each decoded coefficient times the step that the file declares for its place and component is within half a step of the transform of the image block at its place, halves away from zero. |
| `DecodedImage.FileShowsImage` | managed_components/espressif__esp32-camera/conversions/jpge.cpp:480-513 | Main result, from the bytes of the file alone, without the block order of the encoder: the declared MCUs are all there, and each block belongs to the component and the place that T.81 A.2.3 gives to its index; its coefficients are the nearest multiples of the declared steps to the transform of the image samples at that place. |
| `DecodedImage.SamplesNear` | managed_components/espressif__esp32-camera/conversions/jpge.cpp:134-149 | The inverse transform of T.81 A.3.3, applied to such a block times its steps, is for each of the 64 samples within 4 and three and a half times the coarsest step of the sample of the image at its place. |
| `Placement.BlockShows` | managed_components/espressif__esp32-camera/conversions/jpge.cpp:480-513 | In all four modes: block n of the scan is the block of 8 by 8 samples of the image at the place of index n, computed from the sampling factors alone; colour samples are the means of the 1, 2 or 4 samples of their own plane that they cover. |
| `ImageFile.ConvertImage` | managed_components/espressif__esp32-camera/conversions/to_jpg.cpp:91-140 | It succeeds if and only if there are pixels, both allocations succeed and no call of the stream fails; a stream that never fails thus always gets the file. On success the stream received exactly the file of the image and was told once of its end; on failure an exact prefix of it; with no pixels or no encoder memory, nothing at all. |
| `ToJpg.Fmt2Jpg` | managed_components/espressif__esp32-camera/conversions/to_jpg.cpp:208-230 | Succeeds if and only if there are pixels and all three allocations succeed, however large the file is; the buffer of 131072 bytes then holds the first min(131072, n) bytes of the file of n bytes. |
| `ToJpg.WholeIffFits` | managed_components/espressif__esp32-camera/conversions/to_jpg.cpp:182-192 | The caller gets the whole file of an image if and only if that is at most 131072 bytes long. |
| `ToJpg.SomeIsWholeIff` | managed_components/espressif__esp32-camera/conversions/to_jpg.cpp:208-230 | By the dimensions alone: some image of this size is handed out whole if and only if the shortest file of this size is at most 131072 bytes. Above that every image is cut, and reported as success. |
| `ToJpg.SmallIsWhole` | managed_components/espressif__esp32-camera/conversions/to_jpg.cpp:208-230 | When the bound on the longest file of this size is at most 131072 bytes, every image is handed out whole. |
| `ToJpg.BlackIsCut` | managed_components/espressif__esp32-camera/conversions/to_jpg.cpp:208-230 | A concrete image that is cut: black, 3344 by 3344 grey pixels, at the lowest quality. |
| `ToJpg.ThumbnailIsWhole` | managed_components/espressif__esp32-camera/conversions/to_jpg.cpp:208-230 | Every colour image of 112 by 112 pixels is handed out whole, at every quality. |
| `FileSize.FileLength` | managed_components/espressif__esp32-camera/conversions/jpge.cpp:649-677 | Whatever the pixels and the quality, the length of the file lies between two bounds that depend on the dimensions and the subsampling only: header, 6 bits a luma and 4 a chroma block at least, 1665 bits a block with every byte stuffed at most. |
| `FileSize.GreyIsShortest` | managed_components/espressif__esp32-camera/conversions/jpge.cpp:649-677 | The lower bound is reached, for all dimensions, modes and qualities, by the mid-grey image: no stuffing at all occurs in its file. |
| `ImageFile.McuTotal` | managed_components/espressif__esp32-camera/conversions/jpge.cpp:606-619 | Exactly ceil(width / MCU width) * ceil(height / MCU height) MCUs are coded. |
| `ImageFile.ImageComps` | managed_components/espressif__esp32-camera/conversions/jpge.cpp:480-513 | The components of the blocks in coding order are the MCU pattern, repeated once per MCU. |
| `ImageFile.PatternIsMcu` | managed_components/espressif__esp32-camera/conversions/jpge.cpp:259-274 | The pattern that a decoder derives from the sampling factors of the frame header (T.81 A.2.3) is the one in which the encoder codes an MCU. |
| `ImageFile.EmittedIsPrefix` | managed_components/espressif__esp32-camera/conversions/jpge.cpp:203-216 | After any number of scanlines the bytes emitted are the beginning of the file of any image that starts with these scanlines and has the declared height. |
| `JpegFile.FileRoundTrip` | managed_components/espressif__esp32-camera/conversions/jpge.cpp:649-677 | For any Huffman specifications that cover the symbols (not only the standard ones): decoding the file returns the declarations and all blocks. |
| `JpegFile.ScanBytesRoundTrip` | managed_components/espressif__esp32-camera/conversions/jpge.cpp:660-672 | The entropy-coded bytes, with stuffing and the final one-padding, are unstuffed up to the end marker and decode to exactly the blocks. |
| `JpegFile.CodeAllCodable` | managed_components/espressif__esp32-camera/conversions/jpge.cpp:473-478 | Whatever the samples and the tables, every block the encoder makes has coefficients for which codes exist. |
| `Encoder.JpegEncoder.Init` | managed_components/espressif__esp32-camera/conversions/jpge.cpp:696-703 | Accepts exactly the arguments that the tests allow; then an image is open with an empty scan, tables of the requested quality, and the header emitted. |
| `Encoder.JpegEncoder.JpgOpen` | managed_components/espressif__esp32-camera/conversions/jpge.cpp:569-658 | Opens an image even when a write of the headers failed, and reports that failure. |
| `Encoder.JpegEncoder.LoadMcu` | managed_components/espressif__esp32-camera/conversions/jpge.cpp:515-551 | Keeps the invariant of an open image: the scan codes the complete MCU rows of what was fed, the line buffers hold the rest. |
| `Encoder.JpegEncoder.FinishMcuRow` | managed_components/espressif__esp32-camera/conversions/jpge.cpp:546-550 | The scanline that completes an MCU row has this row coded, from line buffers that hold exactly its lines. |
| `Encoder.JpegEncoder.RepeatLastLine` | managed_components/espressif__esp32-camera/conversions/jpge.cpp:662-669 | The missing lines of the last MCU row become copies of the last scanline. |
| `Encoder.JpegEncoder.ProcessEndOfImage` | managed_components/espressif__esp32-camera/conversions/jpge.cpp:660-677 | Everything fed is coded, padded and terminated: what was emitted is the whole file. The stream holds a prefix of it; unless a call of the stream has failed since init, which the flag says exactly, it holds all of it and was told once of the end. |
| `Encoder.JpegEncoder.ProcessScanline` | managed_components/espressif__esp32-camera/conversions/jpge.cpp:711-726 | Outside an image or after a failed write it changes nothing and returns false; otherwise it takes the scanline or ends the image. |
| `Huffman.CanonicalOrder` | managed_components/espressif__esp32-camera/conversions/jpge.cpp:158-176 | The codes are those of T.81 Annex C: first zero, then predecessor plus one, shifted to the next length. |
| `Huffman.CodesFitIffKraft` | managed_components/espressif__esp32-camera/conversions/jpge.cpp:168-176 | Every code is below 2^size if and only if the length counts satisfy the Kraft inequality. |
| `Huffman.PrefixFree` | managed_components/espressif__esp32-camera/conversions/jpge.cpp:168-176 | No code word is a prefix of another. |
| `Huffman.DecodeWord` | managed_components/espressif__esp32-camera/conversions/jpge.cpp:168-176 | The greedy decoder of T.81 F.2.2.3 reads a code word back as its symbol and leaves the other bits. |
| `Huffman.DistinctEntries` | managed_components/espressif__esp32-camera/conversions/jpge.cpp:178-183 | With distinct symbols, every listed symbol gets its canonical code and length in the tables. |
| `Huffman.TableEntry` | managed_components/espressif__esp32-camera/conversions/jpge.cpp:178-183 | A symbol has a nonzero length in the tables if and only if the specification lists it. |
| `Huffman.ComputeHuffmanTable` | managed_components/espressif__esp32-camera/conversions/jpge.cpp:151-184 | For any length counts and symbols it terminates, stays inside its tables, never wraps its 32-bit counter, and fills in the canonical tables. |
| `StandardTables.StandardCovers` | managed_components/espressif__esp32-camera/conversions/jpge.cpp:48-71 | The standard tables have a code for every symbol the coder can emit: all DC sizes up to 11, all (run, size) with size up to 10, ZRL and EOB; and their length counts satisfy the Kraft inequality. |
| `StandardTables.StandardWellSized` | managed_components/espressif__esp32-camera/conversions/jpge.cpp:48-71 | Each standard specification lists as many symbols as its length counts say, at most 256. |
| `Entropy.SymbolDecodes` | managed_components/espressif__esp32-camera/conversions/jpge.cpp:441-470 | A symbol with a code is decoded from it, and its code has 1 to 16 bits. |
| `Entropy.MagnitudeExtends` | managed_components/espressif__esp32-camera/conversions/jpge.cpp:430-442 | EXTEND of T.81 F.2.2.1 undoes the one-complement magnitude bits, for every integer. |
| `Entropy.DcRoundTrip` | managed_components/espressif__esp32-camera/conversions/jpge.cpp:427-442 | DC differences are recovered. |
| `Entropy.AcRoundTrip` | managed_components/espressif__esp32-camera/conversions/jpge.cpp:444-470 | The AC coefficients are recovered from any point of the block, zero runs, ZRL and EOB included. |
| `Entropy.BlockRoundTrip` | managed_components/espressif__esp32-camera/conversions/jpge.cpp:409-471 | A coded block decodes to its 64 coefficients and leaves the bits that follow. |
| `CodeLength.BlockLength` | managed_components/espressif__esp32-camera/conversions/jpge.cpp:409-471 | With the standard tables a block takes at least 6 (luma) or 4 (chroma) and at most 1665 bits: none is shorter than the block of zeros, even without an end-of-block code. |
| `CodeLength.ScanLength` | managed_components/espressif__esp32-camera/conversions/jpge.cpp:409-471 | The same, summed over any scan with its predictions. |
| `Entropy.SmallCategory` | managed_components/espressif__esp32-camera/conversions/jpge.cpp:435-462 | Values within 11 (10) magnitude bits have size at most 11 (10), and only zero has size 0. |
| `Scan.ScanRoundTrip` | managed_components/espressif__esp32-camera/conversions/jpge.cpp:409-471 | The scan decoder of T.81 F.2.2, with one DC prediction per component, recovers every block of every scan, whatever bits follow. |
| `Scan.EncodeAppend` | managed_components/espressif__esp32-camera/conversions/jpge.cpp:427-428 | Coding one more block appends its bits, predicted from the last block of its component. |
| `BlockCoding.CodeCoefficients` | managed_components/espressif__esp32-camera/conversions/jpge.cpp:409-471 | Appends exactly the code of the block to the bits of the scan and remembers its DC value. |
| `BlockCoding.CountBits` | managed_components/espressif__esp32-camera/conversions/jpge.cpp:435-439 | The shift loop counts the magnitude bits. |
| `BlockCoding.PutZeroRuns` | managed_components/espressif__esp32-camera/conversions/jpge.cpp:450-454 | One ZRL for each 16 zeros; the rest of the run is returned. |
| `BlockCoding.PutAc` | managed_components/espressif__esp32-camera/conversions/jpge.cpp:444-470 | The AC loop appends exactly the code of the AC coefficients. |
| `Packer.PackSplits` | managed_components/espressif__esp32-camera/conversions/jpge.cpp:203-216 | No bit is lost: the packed bytes followed by the incomplete byte are the bit string. |
| `Packer.UnstuffStuff` | managed_components/espressif__esp32-camera/conversions/jpge.cpp:209-212 | Removing the stuffed zeros restores the bytes and stops exactly at the marker that follows. |
| `Packer.StuffHidesMarkers` | managed_components/espressif__esp32-camera/conversions/jpge.cpp:209-212 | Every 0xFF in stuffed data is followed by 0x00. |
| `Packer.PaddingFlushes` | managed_components/espressif__esp32-camera/conversions/jpge.cpp:671-671 | Seven one bits push every pending bit out, and fill the last byte with ones. |
| `Output.PushField` | managed_components/espressif__esp32-camera/conversions/jpge.cpp:203-206 | Or-ing a field into the 32-bit buffer appends its bits to the pending ones; no bit of either is overwritten. |
| `Output.PopByte` | managed_components/espressif__esp32-camera/conversions/jpge.cpp:207-214 | The byte taken out of the buffer is the value of the first eight pending bits; the others stay. |
| `Output.Writer.PutBits` | managed_components/espressif__esp32-camera/conversions/jpge.cpp:203-216 | Bit packer: at most 7 bits stay pending, the shift count stays in range, the complete bytes of all bits ever put are emitted with stuffing, the rest is pending. |
| `Output.Writer.EmitByte` | managed_components/espressif__esp32-camera/conversions/jpge.cpp:195-201 | The bytes accepted by the sink followed by the buffer are all bytes emitted; 1 to 512 places are left between calls; the success flag is set if and only if no call of the sink has failed since init, and the sink is not told of an end; after a failure the sink keeps a prefix. |
| `Output.Writer.FlushOutputBuffer` | managed_components/espressif__esp32-camera/conversions/jpge.cpp:186-193 | Empties the buffer and delivers it; the flag drops if and only if the sink reports failure, and nothing is written after that. |
| `Output.Writer.EmitWord` | managed_components/espressif__esp32-camera/conversions/jpge.cpp:218-222 | Big-endian, truncated to 16 bits. |
| `Output.Writer.Finish` | managed_components/espressif__esp32-camera/conversions/jpge.cpp:673-674 | The flag drops if and only if one of the two calls fails. With the flag set, the sink holds everything that was emitted and was told once that the image ends. |
| `Output.Writer.EndScan` | managed_components/espressif__esp32-camera/conversions/jpge.cpp:671-674 | The bits put so far, seven ones and the marker: all their bytes are emitted; unless a call of the sink has failed they are delivered, and the sink is told once of the end. |
| `Output.MemoryStream.PutBuf` | managed_components/espressif__esp32-camera/conversions/to_jpg.cpp:175-206 | Holds exactly the first min(max_len, n) of the n bytes offered, and always reports success. |
| `Output.SevenOnes` | managed_components/espressif__esp32-camera/conversions/jpge.cpp:671-671 | put_bits(0x7F, 7) is seven one bits. |
| `Dct.Dct1D` | managed_components/espressif__esp32-camera/conversions/jpge.cpp:117-132 | The factored network equals the product with an explicit 8x8 integer matrix, which is that of the cosines by Inverse.MatrixIsCosine; no factor of DCT_MUL leaves 16 bits (at most 32640), nothing leaves 32 bits. |
| `Dct.Transform` | managed_components/espressif__esp32-camera/conversions/jpge.cpp:134-149 | Rows, then columns, by that matrix, with one rounding shift per pass; Inverse.InverseRecovers says that nothing is lost but rounding. |
| `Dct.CoefficientRange` | managed_components/espressif__esp32-camera/conversions/jpge.cpp:134-149 | For every block of samples in -128..127: DC in -1024..1016, AC in -1020..1020. |
| `Dct.RangeIsTight` | managed_components/espressif__esp32-camera/conversions/jpge.cpp:134-149 | All four bounds are reached: by a black and a white block, and by two striped ones. |
| `Dct.DctMul` | managed_components/espressif__esp32-camera/conversions/jpge.cpp:117-117 | On its range, cutting the factor to 16 bits changes nothing. |
| `Inverse.MatrixIsCosine` | managed_components/espressif__esp32-camera/conversions/jpge.cpp:117-132 | At every unit vector row u of the transform is the basis function u of T.81 A.3.3, up to one unit of 2^-13. |
| `Inverse.WaveIsCosine` | managed_components/espressif__esp32-camera/conversions/jpge.cpp:117-132 | These basis functions are cosines: from the square root of 2 they fall to 0 and satisfy the half-angle identity, up to rounding. |
| `Inverse.InverseRecovers` | managed_components/espressif__esp32-camera/conversions/jpge.cpp:134-149 | For every block of 8-bit samples the inverse transform of T.81 A.3.3 gives each sample back with an error below 4. |
| `Quant.QuantiseNearest` | managed_components/espressif__esp32-camera/conversions/jpge.cpp:391-404 | The quantiser rounds to the nearest multiple, halves away from zero; the error is at most half a step. |
| `Quant.NearestIsUnique` | managed_components/espressif__esp32-camera/conversions/jpge.cpp:391-404 | No other value does. |
| `Quant.QuantiseShape` | managed_components/espressif__esp32-camera/conversions/jpge.cpp:391-404 | The quantiser is odd and monotone and never grows a magnitude. |
| `Quant.QuantisedCodable` | managed_components/espressif__esp32-camera/conversions/jpge.cpp:384-407 | With the transform in its range, every quantised block is codable, for every table. |
| `Quant.LoadQuantizedCoefficients` | managed_components/espressif__esp32-camera/conversions/jpge.cpp:384-407 | The coefficients are the quantised samples in zigzag order. |
| `Quant.ZagIsZigzag` | managed_components/espressif__esp32-camera/conversions/jpge.cpp:45-45 | The table is the zigzag order of T.81: it starts in the corner, and each entry is the next cell of the zigzag. |
| `Quant.StepMono` | managed_components/espressif__esp32-camera/conversions/jpge.cpp:554-566 | A higher quality never has a coarser step. |
| `Quant.TablesAreStandard` | managed_components/espressif__esp32-camera/conversions/jpge.cpp:46-47 | The two tables are those of T.81 K.1 and K.2, taken along the zigzag. |
| `Quant.QualityMarks` | managed_components/espressif__esp32-camera/conversions/jpge.cpp:557-565 | Quality 50 gives the standard steps, quality 100 steps of one. |
| `Quant.StepScales` | managed_components/espressif__esp32-camera/conversions/jpge.cpp:557-565 | Any step that is not cut is the standard one times 50 / quality below 50, times 2 - quality / 50 from there on, to the nearest; below 50 the percentage is rounded down first. |
| `Quant.StepIsCut` | managed_components/espressif__esp32-camera/conversions/jpge.cpp:557-565 | A step is 1, or 255, exactly when the scaled one is below 1.5, or at least 254.5. |
| `Quant.ComputeQuantTable` | managed_components/espressif__esp32-camera/conversions/jpge.cpp:554-566 | The loop computes the scaled table; no product overflows, all steps lie in 1..255. |
| `Quant.Statics.Prepare` | managed_components/espressif__esp32-camera/conversions/jpge.cpp:621-639 | Whatever images came before, the shared tables are those of the requested quality, and the Huffman tables are the standard ones. |
| `Geometry.LinesShowImage` | managed_components/espressif__esp32-camera/conversions/jpge.cpp:515-544 | Every entry of a line buffer is the sample of the image continued by its last column and row (T.81 A.2.4). |
| `Geometry.PixelDecidesIff` | managed_components/espressif__esp32-camera/conversions/jpge.cpp:515-532 | The sample of a column depends on the bytes of the pixel in that column only, for every row of pixels, if and only if there are not four channels or it is the first column. |
| `Geometry.FourChannelsMisread` | managed_components/espressif__esp32-camera/conversions/jpge.cpp:525-532 | A concrete row of a black and a white pixel with four channels: the second column shows a byte of the black one. |
| `Geometry.PlaneShowsPixel` | managed_components/espressif__esp32-camera/conversions/jpge.cpp:91-112 | With one or three channels the sample at any column and row of the continued image is the grey value, the luma or the colour difference of its own pixel; LumaIsStandard, BlueIsStandard and RedIsStandard say what these are. |
| `Geometry.LumaIsStandard` | managed_components/espressif__esp32-camera/conversions/jpge.cpp:91-105 | For every pixel the luma is 0.299 R + 0.587 G + 0.114 B, with an error of at most 0.505. |
| `Geometry.BlueIsStandard` | managed_components/espressif__esp32-camera/conversions/jpge.cpp:91-98 | The blue difference is 128 - 0.168736 R - 0.331264 G + 0.5 B, with an error of at most 0.504. |
| `Geometry.RedIsStandard` | managed_components/espressif__esp32-camera/conversions/jpge.cpp:91-98 | The red difference is 128 + 0.5 R - 0.418688 G - 0.081312 B, with an error of at most 0.504. |
| `Geometry.FullBlockShows` | managed_components/espressif__esp32-camera/conversions/jpge.cpp:324-349 | Each column and row of the image, as read, lands at its own position of its own block. By PlaneShowsPixel this is its source pixel, with one or three channels; with four it is not (PixelDecidesIff). |
| `Geometry.HalfBlockShows` | managed_components/espressif__esp32-camera/conversions/jpge.cpp:369-382 | H2V1 chroma: the mean of two samples, rounded down. |
| `Geometry.QuarterBlockShows` | managed_components/espressif__esp32-camera/conversions/jpge.cpp:351-367 | H2V2 chroma: the mean of four samples, with the alternating rounding of the code. |
| `Geometry.GreyIsNeutral` | managed_components/espressif__esp32-camera/conversions/jpge.cpp:91-112 | Grey pixels keep their value and have no colour difference. |
| `Geometry.BlueFollowsBlue` | managed_components/espressif__esp32-camera/conversions/jpge.cpp:91-98 | More blue, or less of the other two, never lowers the blue difference. |
| `Geometry.RedFollowsRed` | managed_components/espressif__esp32-camera/conversions/jpge.cpp:91-98 | More red, or less of the other two, never lowers the red difference. |
| `Geometry.McuRowCount` | managed_components/espressif__esp32-camera/conversions/jpge.cpp:606-619 | The MCU rows of n scanlines, complete and padded, are ceil(n / MCU height). |
| `Geometry.EarlierRowsStay` | managed_components/espressif__esp32-camera/conversions/jpge.cpp:546-550 | A complete MCU row does not depend on later scanlines. |
| `Geometry.RowBlockCount` | managed_components/espressif__esp32-camera/conversions/jpge.cpp:480-513 | An MCU has 1, 3, 4 or 6 blocks. |
| `BlockLoading.LoadLine` | managed_components/espressif__esp32-camera/conversions/jpge.cpp:515-544 | One line buffer is filled and padded, within its bounds, the others stay. |
| `BlockLoading.LoadGrey` | managed_components/espressif__esp32-camera/conversions/jpge.cpp:324-335 | Reads only inside the line buffers; the block is the grey one. |
| `BlockLoading.LoadFull` | managed_components/espressif__esp32-camera/conversions/jpge.cpp:337-349 | Reads only inside the line buffers; the block is the full-resolution one. |
| `BlockLoading.LoadHalf` | managed_components/espressif__esp32-camera/conversions/jpge.cpp:369-382 | Reads only inside the line buffers; the block is the H2V1 chroma one. |
| `BlockLoading.LoadQuarter` | managed_components/espressif__esp32-camera/conversions/jpge.cpp:351-367 | Reads only inside the line buffers; the block is the H2V2 chroma one. |
| `ScanCoding.ScanCoder.CodeBlock` | managed_components/espressif__esp32-camera/conversions/jpge.cpp:473-478 | Transforms, quantises and codes one block; the bits put are then the code of all blocks so far. |
| `ScanCoding.ProcessMcuRow` | managed_components/espressif__esp32-camera/conversions/jpge.cpp:480-513 | Codes exactly the blocks of the MCU row, in order, in all four modes. Placement.BlockShows says which place of the image each of them shows. |
| `ScanCoding.ImageInRange` | managed_components/espressif__esp32-camera/conversions/jpge.cpp:324-382 | Every sample that the blocks of an image hold lies in -128..127. |
| `Headers.HeaderRoundTrip` | managed_components/espressif__esp32-camera/conversions/jpge.cpp:649-655 | A marker reader after T.81 Annex B, with the marker codes of its Table B.1, recovers the dimensions modulo 2^16, sampling factors, quantisation tables and Huffman specifications, and the JFIF version 1.01, density 1 by 1 without unit and no thumbnail. |
| `Headers.DimensionsSurvive` | managed_components/espressif__esp32-camera/conversions/jpge.cpp:259-274 | The dimensions are recovered if and only if both are at most 65535. |
| `Headers.SegmentsRoundTrip` | managed_components/espressif__esp32-camera/conversions/jpge.cpp:230-322 | Every length field is the actual length: a reader that trusts it finds all segments and the byte after them. |
| `HeaderWriting.EmitHeader` | managed_components/espressif__esp32-camera/conversions/jpge.cpp:649-655 | The emit functions put out the segments byte by byte, in order. |
| `HeaderWriting.EmitDqt` | managed_components/espressif__esp32-camera/conversions/jpge.cpp:246-257 | One table segment, steps in zigzag order. |
| `HeaderWriting.EmitSof` | managed_components/espressif__esp32-camera/conversions/jpge.cpp:259-274 | The frame segment with size and sampling factors. |
| `HeaderWriting.EmitDht` | managed_components/espressif__esp32-camera/conversions/jpge.cpp:276-293 | One Huffman segment with its counts and symbols. |
| `HeaderWriting.EmitSos` | managed_components/espressif__esp32-camera/conversions/jpge.cpp:306-322 | The scan segment with the table selectors. |
| `CamHal.RunInv` | managed_components/espressif__esp32-camera/driver/cam_hal.c:115-231 | Whatever the interleaving of task, interrupt, takers and givers, the protocol invariant holds after every run. |
| `CamHal.StepInv` | managed_components/espressif__esp32-camera/driver/cam_hal.c:115-231 | Every atomic step keeps it. What the steps do with the bytes is in CamContent and CamCapture. |
| `CamHal.Ownership` | managed_components/espressif__esp32-camera/driver/cam_hal.c:75-223 | In every reachable state each frame is in exactly one hand: free or being filled, in the queue, with one consumer, or carried by the capture task; no frame is queued twice; capture and hardware write only a frame with en set. |
| `CamHal.HeldFrameKept` | managed_components/espressif__esp32-camera/driver/cam_hal.c:477-531 | What a consumer holds stays as it was captured, for as long as it does not trim it or give it back. |
| `CamHal.StepLeavesFrame` | managed_components/espressif__esp32-camera/driver/cam_hal.c:141-225 | No step writes a frame that is queued or held, except its holder. |
| `CamHal.NothingDropped` | managed_components/espressif__esp32-camera/driver/cam_hal.c:185-216 | With a queue as long as the pool, every completed frame was taken or is still queued. |
| `CamHal.SendHasRoom` | managed_components/espressif__esp32-camera/driver/cam_hal.c:200-200 | Then the queue is never full when a frame is sent. |
| `CamHal.PushSucceeds` | managed_components/espressif__esp32-camera/driver/cam_hal.c:203-210 | After a successful pop the push never fails: the capture task is the only producer. |
| `CamHal.EvictsOldest` | managed_components/espressif__esp32-camera/driver/cam_hal.c:203-205 | What is evicted is older than every frame that stays and than the new one. |
| `CamHal.TakenInOrder` | managed_components/espressif__esp32-camera/driver/cam_hal.c:477-487 | Frames are taken in strictly increasing order of capture. |
| `CamHal.FreeFrameExists` | managed_components/espressif__esp32-camera/driver/cam_hal.c:75-88 | Grabbing the latest of several frames, a free one exists whenever the capture task looks for one while no consumer holds any. |
| `CamHal.LostIffDrained` | managed_components/espressif__esp32-camera/driver/cam_hal.c:200-214 | A new frame that found the queue full is dropped if and only if consumers empty the queue before the capture task receives from it. |
| `CamContent.SentIffComplete` | managed_components/espressif__esp32-camera/driver/cam_hal.c:193-200 | Outside psram mode and without JPEG a disabled frame is sent, and counted, if and only if it has exactly fb_size bytes; otherwise it is free again and not queued. |
| `CamContent.RawFramesAreComplete` | managed_components/espressif__esp32-camera/driver/cam_hal.c:193-214 | In every reachable state, outside psram mode and without JPEG, every frame in the queue has exactly fb_size bytes, and so has every one on its way into the queue, whether it is then queued, evicts another or is lost. |
| `CamContent.QueuedFramesAreTheirChunks` | managed_components/espressif__esp32-camera/driver/cam_hal.c:141-184 | Whatever the interleaving: a frame in the queue holds the transfers copied since its capture began, each once and in order. |
| `CamCapture.FrameArrives` | managed_components/espressif__esp32-camera/driver/cam_hal.c:115-225 | For any transfers of a capture outside psram mode, with room in the queue and a free frame: the frame that goes to the end of the queue holds every transfer for which there was room, with JPEG also the one cut off by the frame synchronisation; it is sent if and only if it is a JPEG or all pixels are there; the next capture begins with the first free frame, empty, and no other frame changes. |
| `CamCapture.AllReceived` | managed_components/espressif__esp32-camera/driver/cam_hal.c:141-156 | Transfers of full length arrive complete while they fit the frame together. |
| `CamRace.LostRace` | managed_components/espressif__esp32-camera/driver/cam_hal.c:211-214 | It happens with two JPEG frames of 15360 bytes and transfers of 512 bytes: a completed frame is dropped with the queue empty and nothing evicted. |
| `CamRace.LossIff` | managed_components/espressif__esp32-camera/driver/cam_hal.c:200-214 | For every configuration: a run that loses a completed frame exists if and only if the latest of several frames is grabbed and the sizes let a frame complete at all (psram mode, or transfers of 1 to fb_size bytes, or an empty raw frame). |
| `CamRace.LossHappens` | managed_components/espressif__esp32-camera/driver/cam_hal.c:199-216 | In every such configuration a run from the start fills the queue, lets consumers empty it at the wrong moment, and drops the next completed frame with nothing evicted. |
| `FramePool.EnqueuePool` | managed_components/espressif__esp32-camera/driver/cam_hal.c:200-205 | Sending the newest frame moves it from the capture task to the queue and keeps owners and order. |
| `FramePool.DequeuePool` | managed_components/espressif__esp32-camera/driver/cam_hal.c:203-203 | Popping moves the oldest frame from the queue to the capture task. |
| `FramePool.TakePool` | managed_components/espressif__esp32-camera/driver/cam_hal.c:481-481 | Taking moves the oldest frame from the queue to the consumer. |
| `FramePool.GivePool` | managed_components/espressif__esp32-camera/driver/cam_hal.c:523-531 | Giving back a held frame makes it free. |
| `FramePool.StampPool` | managed_components/espressif__esp32-camera/driver/cam_hal.c:90-103 | A capture that starts in a free frame is the newest. |
| `CamJpeg.QueuedFramesStartWithSoi` | managed_components/espressif__esp32-camera/driver/cam_hal.c:159-162 | After every run outside psram mode in which the first copy of each capture delivers at least three bytes, each JPEG frame in the queue starts with FF D8 FF. Later copies may have any size. |
| `CamJpeg.StepMarked` | managed_components/espressif__esp32-camera/driver/cam_hal.c:150-217 | Every step of task, interrupt and consumers keeps this. |
| `CamTake.VerifyJpegSoi` | managed_components/espressif__esp32-camera/driver/cam_hal.c:48-58 | The first start marker at an offset below length, or -1; at the last offsets the comparison includes the two bytes beyond, whatever they are. The result is 0 exactly when the test of the capture task accepts the frame. |
| `CamTake.VerifyJpegEoi` | managed_components/espressif__esp32-camera/driver/cam_hal.c:60-73 | The last end marker at offset 1 or above, or -1 if there is none. |
| `CamTake.GetNextFrame` | managed_components/espressif__esp32-camera/driver/cam_hal.c:75-88 | Stays at an enabled frame, else the lowest enabled one; fails if and only if none is. |
| `CamTake.CamObj.Take` | managed_components/espressif__esp32-camera/driver/cam_hal.c:477-521 | The result is the one outcome that the queue, the frames and the times allow: frames without end marker are given back, each exactly once; nothing is returned only when the queue is empty or the attempts have used up the timeout. A returned JPEG ends right after its last FF D9; others are untouched. |
| `CamTake.OutcomeIsUnique` | managed_components/espressif__esp32-camera/driver/cam_hal.c:477-521 | For each queue, frame data, timeout and times of the attempts there is only one outcome: the frame returned, the frames given back and the rest of the queue are determined. |
| `CamTake.FirstMarkedIsTaken` | managed_components/espressif__esp32-camera/driver/cam_hal.c:496-511 | If time is left when its turn comes, the frame returned is the first one in the queue with an end marker at offset 1 or above, and exactly the frames before it are given back. |
| `CamTake.CamObj.CamGive` | managed_components/espressif__esp32-camera/driver/cam_hal.c:523-531 | Enables exactly the given frame. |
| `UartLink.PicturesArrive` | camera_uart_test.py:37-94 | Main result. For any pictures of at most 1 MiB, with text between them that holds no start mark and does not end in 0xA5, such that each text, header and payload together stay within the buffer limit of 2 MiB (but for one byte) and the text at the end does too, cut into any chunks: the receiver never trims its buffer and finds exactly those pictures, in order. |
| `UartLink.ChunkIndependence` | camera_uart_test.py:40-94 | For any bytes at all: without trimming, the frames found do not depend on how the bytes are cut into chunks. |
| `UartLink.ParseSplit` | camera_uart_test.py:45-90 | Parsing a first part, then what is left with the second part, is parsing the whole. |
| `UartLink.ParseStream` | camera_uart_test.py:45-90 | The parser finds exactly the pictures printed, numbered in order, with correct checksums, and skips plain text. |
| `UartLink.HeaderFoundIff` | camera_uart_test.py:46-48 | The parser finds the header at its place after a text if and only if the text holds no start mark and does not end in 0xA5. |
| `UartLink.InspectFrame` | components/service/src/uart_service.c:20-31 | A printed frame is delivered with its payload and a matching checksum. |
| `UartLink.UnpackHeader` | camera_uart_test.py:57-57 | Unpacking a printed header gives the start mark, the width and then the height modulo 2^16, the length and the checksum. |
| `UartLink.ChecksumDecides` | camera_uart_test.py:72-83 | A frame with any checksum in its header is delivered, and reported good if and only if that is the checksum of its payload. |
| `UartLink.OverlongSkipped` | camera_uart_test.py:63-66 | A picture above 1 MiB is not recognised; the parser steps one byte over its start. |
| `UartLink.TrimIffLarge` | camera_uart_test.py:92-95 | While a piece arrives the buffer is never trimmed if and only if text, header and payload fit the limit but for one byte. |
| `UartLink.Receiver.OnChunk` | camera_uart_test.py:40-95 | The nested loops compute the parse of buffer and chunk, then trim. |
| `UartLink.Listen` | camera_uart_test.py:37-95 | The outer loop over all chunks. |
| `UartLink.Uart.SinkPicture` | components/service/src/uart_service.c:20-31 | Writes header and payload. |
| `UartLink.Find` | camera_uart_test.py:46-48 | The first position of the start mark, or none. |
| `FileStore.Store.ScanTotal` | server/src/storage/file_store.c:27-43 | The total is the sum of the file sizes. |
| `FileStore.Store.PurgeIfNeeded` | server/src/storage/file_store.c:46-84 | For any listing, sorted or not: deletes exactly the victims of the listing; the total stays the sum of the file sizes plus what is counted for overwritten files, whichever files cannot be deleted. |
| `FileStore.Store.Save` | server/src/storage/file_store.c:97-124 | For any listing, sorted or not: succeeds if and only if there is data, the file opens and all of it is written. After any sequence of saves the total is the sum of the file sizes plus the sizes of the files overwritten; with a directory that opens and no locked file, a save ends within the quota if and only if the data is, less those sizes. |
| `FileStore.VictimsArePrefix` | server/src/storage/file_store.c:76-83 | The files deleted are the shortest prefix of the listing that makes room, or all of it. |
| `FileStore.VictimsAreSwept` | server/src/storage/file_store.c:76-83 | With any locked files: the files deleted are the deletable ones of the shortest prefix of the listing whose deletable files make room, or of all of it. |
| `FileStore.PurgesOldest` | server/src/storage/file_store.c:69-83 | No file that stays is older than one that goes, when all files of the store are comparable. |
| `FileStore.CompareIsAge` | server/src/storage/file_store.c:71-73 | For any two times: the comparison orders them by age, both ways round, if and only if they are equal or their distance modulo 2^32 lies in 1 to 2^31 - 1. |
| `FileStore.OlderGoesFirstIff` | server/src/storage/file_store.c:69-83 | With two files and any two times: every sorted listing makes the purge delete the older first if and only if the two are comparable in this sense. |
| `FileStore.NewerIsPurged` | server/src/storage/file_store.c:69-83 | A concrete store of two files, 2^31 + 1 seconds apart: the newer is deleted and the older stays. |
| `FileStore.PurgeMakesRoom` | server/src/storage/file_store.c:46-84 | For any listing: when every file can be deleted, there is room after the purge if and only if the need is within the quota, less what is counted for overwritten files. |
| `FileStore.FreshNameKeepsTotal` | server/src/storage/file_store.c:97-124 | With a new name nothing is overwritten, so the total stays exact. |
| `FileStore.AfterWriteHolds` | server/src/storage/file_store.c:104-120 | A write keeps exactly the files of other names, and the file written; one that cannot be opened changes nothing. |
| `FileStore.TotalStaysRightIff` | server/src/storage/file_store.c:104-120 | After a file is written, or fails to be, the total is the sum of the file sizes if and only if nothing was overcounted before and no nonempty file of that name survived the purge. |
| `FileStore.ReusedNameOvercounts` | server/src/storage/file_store.c:97-124 | A concrete store: 1000 bytes, then 500 under the same name; 500 are stored, 1500 counted. |
| `MsgBusImpl.SameRun` | components/monet_core/src_cpp/MessageBus.cpp:36-82 | Main result. For every sequence of subscriptions, publications and queue reads, both buses, each with its own arrays and loops, return the same results and leave the same messages in every queue. |
| `MsgBus.PublishDelivers` | components/monet_core/src/msg_bus.c:33-60 | A queue gets one copy of a message for each of its subscriptions to the topic and, for the sensor topics, to the group, as far as it has room; others get none. |
| `MsgBus.Delivery` | components/monet_core/src/msg_bus.c:41-58 | The same for one list of subscribers. |
| `BusRuns.SubscribeSucceedsIff` | components/monet_core/src/msg_bus.c:62-81 | After any calls on an empty bus: a subscription succeeds if and only if the queue is not null, the topic is known, and fewer than 8 earlier ones to this topic succeeded. |
| `BusRuns.GroupSucceedsIff` | components/monet_core/src/msg_bus.c:83-103 | The same for the group: the queue is not null, the group is that of the sensors, and fewer than 8 earlier ones succeeded. |
| `BusRuns.PublicationsArrive` | components/monet_core/src/msg_bus.c:33-60 | After any calls on an empty bus: a publication adds to a queue one copy for each successful subscription of this queue to its topic and one for each to the group, as far as there is room; nothing for an unknown topic. |
| `BusRuns.SameResults` | components/monet_core/src/msg_bus.c:62-103 | The results that these lemmas count are those that both buses return (SameRun). |
| `MsgBusImpl.CBus.Publish` | components/monet_core/src/msg_bus.c:33-60 | Sends to topic subscribers, then to the group, in order; a null message does nothing. |
| `MsgBusImpl.CBus.Subscribe` | components/monet_core/src/msg_bus.c:62-81 | Takes the first free slot of the topic; fails for a null queue, an unknown topic or a full one. BusRuns says what this means over runs. |
| `MsgBusImpl.CBus.SubscribeGroup` | components/monet_core/src/msg_bus.c:83-103 | Searching the first free slot fills the slots without gaps, so that the count is the number of subscribers. |
| `MsgBusImpl.MessageBus.Publish` | components/monet_core/src_cpp/MessageBus.cpp:88-92 | A null message does nothing, any other is fanned out. |
| `MsgBusImpl.MessageBus.FanOut` | components/monet_core/src_cpp/MessageBus.cpp:36-54 | The loops of the object deliver what those in C do: topic subscribers, then the group. |
| `MsgBusImpl.MessageBus.Subscribe` | components/monet_core/src_cpp/MessageBus.cpp:56-69 | The same as in C. |
| `MsgBusImpl.MessageBus.SubscribeGroup` | components/monet_core/src_cpp/MessageBus.cpp:71-82 | Appending at the count is the same as searching a free slot. |
| `RetryCache.Cache.Push` | components/utils/src/cache.c:26-44 | Appends the string, cut and terminated, or refuses when full. |
| `RetryCache.Cache.PushBlob` | components/utils/src/cache.c:88-107 | Appends the bytes, or refuses when full or too large. |
| `RetryCache.Cache.FlushOnce` | components/utils/src/cache.c:46-83 | The sender is handed the oldest entry, as a C string up to its first zero or with its length. The entry is removed if and only if there is one and the sender succeeds; a failed send changes nothing. Over any run, the entries accepted are those removed followed by the contents. |
| `RetryCache.HandedWholeIff` | components/utils/src/cache.c:46-64 | The sender of strings is handed the whole entry, up to the zero at its end, if and only if the first zero of the entry is its last byte; every cached string is of this kind. |
| `RetryCache.PictureHandedAsString` | components/utils/src/cache.c:46-64 | A concrete cached picture: the sender of strings is handed its first four bytes only. |
| `RetryCache.Cache.TailOnRing` | components/utils/src/cache.c:18-24 | tail == (head + count) mod N. |
| `RetryCache.StringSurvives` | components/utils/src/cache.c:33-36 | A string is read back unchanged if and only if it is shorter than an item; otherwise its end is missing. |
| `RetryCache.Uploader.Handle` | components/service/src/http_uploader_service.c:12-58 | Send, else cache, then flush twice when online, first as a string and then as a picture: the new contents, the result, and what each sender is handed, for every combination of outcomes. |
| `RetryCache.Uploader.Conservation` | components/service/src/http_uploader_service.c:12-58 | Over any run, non-empty messages = sent directly + removed after a send that reported success + still cached + rejected. |

## Left out

- Encoder.JpegEncoder: the one class of the source is split into `Writer`, `ScanCoder` and `JpegEncoder`; the line buffers are a two-dimensional array, so that their adjacency in one allocation is not modelled.
- Output.OutputStream: the virtual sink is one class whose calls may fail at any time unless it is one that never fails; `Fmt2Jpg` collects the data of all calls and gives it to `MemoryStream` in one, which keeps the same bytes; `callback_stream` is left out because its callback decides everything.
- ImageFile.ConvertImage: starts from the rows that the line conversion delivers; the conversion of pixel formats is not modelled.
- Scaling of 32-bit sizes: widths and heights are unbounded up to the 16-bit header fields; allocation sizes that exceed 32 bits are not modelled.
- Two encoders of different quality used alternately: the tables are file statics, and one encoder at a time is modelled.
- Inverse.MatrixIsCosine: the cosines are integers, to the nearest unit of 2^-13, not reals.
- Decoding of JPEG on the device.
- CamHal.TaskStep: the loop of `cam_task` runs concurrently with the interrupt and the consumers, so it is a step function on values with an explicit program counter, not a loop over a mutable object; each queue operation and each write of a shared field is taken to be atomic.
- CamHal.Step: in psram mode the bytes of a frame are whatever the hardware wrote, and the length computed from the interrupt count is not bounded, because the bound depends on hardware that is not part of this model.
- `cam_give_all`: it enables frames that are still queued or held, so no ownership is claimed across it.
- CamTake.CamObj.Take: the frames that arrive in time are those in the queue at the call; the second wait after a DMA reset and the grey conversion in psram mode are not modelled. Concurrent arrival is covered by `CamHal`.
- The checksum of the serial link: any function of the payload, the same at both ends.
- FileStore.Store: one caller at a time, a listing that names every file, a total that does not exceed the machine word, and an incompletely written file that can be deleted; there is no lock in the code.
- MsgBusImpl: the mutex makes each call atomic; queue handles stay valid.
- The release of image buffers after a message went to several subscribers: no reference count exists.
- The memory behind a slot of the cache, into which a picture handed over as a string can run on: its bytes are a parameter.
- Sensor drivers, SCCB, Bluetooth, Wi-Fi, HTTP, TLS, OTA, the web viewer, the service registry and logging: input and output around libraries that are not part of this model.
