# SEMImage: a verified model of SEM image reconstruction

This project models the image-reconstruction core of the SEMConsole acquisition console,
the class `SEMImage`. A scanning electron microscope's ADC sends lines of 16-bit words.
Each word holds a 4-bit channel tag above a 12-bit intensity, and the channels of a line
are interleaved word by word. An `SEMImage` does four things:

- It files each line with its line index (`fileDataLine`).
- It estimates a contrast range per channel from the first three quarters of the lines,
  skipping a line whose index repeats the previous one (`rangeImages`, `rangeLine`,
  `recordRange`).
- It makes one image per channel (`makeImagesForDisplay`, `parseRawLineToWriters`).
  - Each line is shifted down by `height - maxLine + 1` to correct vertical-sync jitter.
  - Each channel's samples are auto-contrasted and packed into a nearly gray ARGB pixel.
  - The row is written into the image whose pin matches the channel's tag.
  - The rows between the previous line's target row and this one are filled with this
    line.
- It combines two packed pixels into a red/blue stereo pixel (`combinePixels`).

The Dafny modules follow those parts:

- `WordCodec`: the word decoder and the channel-to-pin map.
- `Contrast`: `autoContrast`.
- `Pixels`: the grayscale packing, its decoder, and the stereo combination.
- `Ranges`: range folding as functions.
- `Assembly`: demultiplexing, gap filling and assembly as functions of the row buffer and
  the images, plus a reference description of the assembled images.
- `Stereo`: the in-place pixel loop of stereo knitting.
- `SemImage`: the class `SEMImage`, whose methods update its arrays and lists in place.
  Each method is proved against the functions of `Ranges` and `Assembly`.

Notes on the modelling:

- A packed pixel is the unsigned reading of the Java `int` bit pattern, so
  `0xFF000000 + ...` is an ordinary sum below 2^32.
- `word >> 12` is `word / 4096`, `word & 0xFFF` is `word % 4096`, and `x & 0xFF` is
  `x % 256`. All of these are Dafny's floor division and non-negative remainder, which is
  what the two's-complement operations compute.
- `autoContrast` computes in `double` and casts to `int`. The model uses the integer
  quotient rounded toward zero. For 32-bit operands and `min != max`, the exact quotient
  is at least `1/|max - min|` away from the next integer, while the double rounding error
  is far smaller. So the truncated double and the integer quotient agree.
- `min == max` is modelled as the cast of an infinity or of NaN behaves: the result is
  4095 when `value > min`, and 0 otherwise.
- Gap rows are filled with the current line, not the previous one. Every row after the
  previous target row, up to and including this line's target row, gets this line's
  pixels. For target rows 2 then 5, rows 3, 4 and 5 all hold the second line.
- After ranging, the lines with indices `maxLine` and `maxLine - 1` target rows
  `height + 1` and `height`, past the image (`Assembly.TargetRow`). Each is drawn only
  into the gap rows before it that are still inside the image. The model keeps the
  source's offset.
- A row at or past the height is skipped before the line is read. So a line must fit the
  row buffer only where it is drawn on a row below the height (`Assembly.FitsRows`,
  `Assembly.FitsWhereDrawn`). A line that repeats the previous index, or whose rows all lie
  at or past the height, is never read.
- When a frame has a single line, `size * 3 / 4` is 0 and no line is ranged. Every range
  then keeps its reset values (least 4095, greatest 0), and auto-contrast turns each intensity into
  `4095 - intensity` (`Contrast.UnrangedInverts`).

## Model

| member | source | states |
|---|---|---|
| WordCodec.Clamp | Console/src/console/SEMImage.java:283-292 | the result is in [0, 4095]; a value already in range is unchanged, one above becomes 4095, one below becomes 0 |
| WordCodec.EncodedChannel | Console/src/console/SEMImage.java:277-280 | the tag is the floor of word / 2^12, so a 16-bit word has a tag in [0, 15] |
| WordCodec.Value | Console/src/console/SEMImage.java:283-292 | the intensity is in [0, 4095] and differs from the word by a multiple of 2^12 (the mask keeps the low 12 bits; the clamp never fires) |
| WordCodec.TranslateChannel | Console/src/console/SEMImage.java:341-344 | tag and pin add up to 7, so tags 0-7 map onto pins 0-7 |
| WordCodec.Word | Console/src/console/SEMImage.java:277-292 | the word made from a tag in [0, 15] and an intensity is a 16-bit value |
| WordCodec.DecodeWord | Console/src/console/SEMImage.java:277-292 | decoding an encoded word gives back its tag and its intensity |
| WordCodec.EncodeDecodedWord | Console/src/console/SEMImage.java:277-292 | every 16-bit word is the encoding of its decoded tag and intensity |
| WordCodec.TranslateChannelInvolution | Console/src/console/SEMImage.java:341-344 | translating a tag twice gives the tag back |
| Contrast.TruncDiv | Console/src/console/SEMImage.java:160 | the cast of the quotient rounds toward zero: for either sign of the divisor, the remainder `a - q * b` is zero or has the sign of `a` and is smaller than the divisor in magnitude; for a non-negative numerator and a positive divisor it is floor division |
| Contrast.AutoContrast | Console/src/console/SEMImage.java:157-167 | the result is in [0, 4095]; with min < max and min <= value <= max it is (value - min) * 4095 / (max - min); at or below min it is 0; at or above max it is 4095; with min == max it is 4095 above min and 0 otherwise |
| Contrast.AutoContrastMonotone | Console/src/console/SEMImage.java:157-167 | with min < max, a brighter input never comes out darker |
| Contrast.UnrangedInverts | Console/src/console/SEMImage.java:224-227 | with the range left at its reset values (4095, 0), auto-contrast maps every intensity i to 4095 - i |
| Pixels.Pack | Console/src/console/SEMImage.java:323-326 | a pixel built from four bytes is below 2^32, and each lane reads back the byte put into it |
| Pixels.GrayScale | Console/src/console/SEMImage.java:305-327 | the pixel is below 2^32 with alpha 0xFF; red, green and blue each hold the clamped intensity's six high bits shifted left by 2, plus bits 0-1, 2-3 and 4-5 of the intensity respectively (so blue is the eight high bits) |
| Pixels.GrayLevel | Console/src/console/SEMImage.java:305-306 | the intensity read back from a pixel is in [0, 4095] |
| Pixels.GrayScaleLossless | Console/src/console/SEMImage.java:305-306 | reading a packed pixel back gives exactly the clamped intensity |
| Pixels.GrayScaleInjective | Console/src/console/SEMImage.java:305-327 | two intensities in [0, 4095] that pack to the same pixel are equal, whatever the channels |
| Pixels.GrayScaleChannelFree | Console/src/console/SEMImage.java:307-327 | the packed pixel does not depend on the channel argument |
| Pixels.CombinePixels | Console/src/console/SEMImage.java:329-339 | the stereo pixel is below 2^32, with alpha 0xFF, green 0, red the low byte of the right pixel and blue the low byte of the left pixel |
| Pixels.CombineGrayScale | Console/src/console/SEMImage.java:329-331 | combining two grayscale pixels puts the right intensity's eight high bits in red and the left intensity's in blue, with full alpha and no green |
| Pixels.CombineExample | Console/src/console/SEMImage.java:332-339 | left byte 0x10 and right byte 0x20 combine to 0xFF200010 |
| Ranges.StridedBounded | Console/src/console/SEMImage.java:149-150 | every intensity of a channel's sub-stream is in [0, 4095] |
| Ranges.Strided | Console/src/console/SEMImage.java:149-150 | the sub-stream from word i is empty exactly when i is at or past `count`, and otherwise starts with the intensity of word i |
| Ranges.StridedAt | Console/src/console/SEMImage.java:149-150 | the k-th sample of channel c's sub-stream is the intensity of word c + k * channels, which is below count |
| Ranges.StridedLength | Console/src/console/SEMImage.java:149 | the sub-stream from word i has n samples when word i + (n - 1) * channels is below count and word i + n * channels is not |
| Ranges.Record | Console/src/console/SEMImage.java:294-303 | afterwards least <= intensity <= greatest; the least and the greatest only move outward, and only to the intensity; the line of the greatest changes exactly when the greatest strictly grows, and then to this line |
| Ranges.FoldSamples | Console/src/console/SEMImage.java:149-152 | folding a channel's intensities, in order, only moves the least down and the greatest up; folding none changes nothing |
| Ranges.RangeLine | Console/src/console/SEMImage.java:144-154 | ranging a line keeps one range per channel, and every channel's least only moves down and its greatest only up |
| Ranges.FoldSamplesSpec | Console/src/console/SEMImage.java:149-152 | after a channel's sub-stream is folded in, the range covers every sample; each end is the old end or a sample; the line of the greatest moved only when the greatest grew, and then to this line |
| Ranges.Reset | Console/src/console/SEMImage.java:224-227 | every channel's least becomes 4095 and its greatest 0 |
| Ranges.RangeOver | Console/src/console/SEMImage.java:229-239 | folding the first n records, skipping each record whose index (`LineOf`, the record's last word) repeats the one before it (`PrevLine`, -1 before the first; `Retained`), each ranged over its `Count` data words, keeps one range per channel, and every least only moves down and every greatest only up |
| Ranges.RangeOverSpec | Console/src/console/SEMImage.java:229-239 | folding the first n records covers every ranged intensity of a channel; each end is the starting end or a ranged intensity; the line of the greatest is kept, or is the index of a retained record whose own sub-stream for the channel holds the greatest; a record that repeats the previous line index contributes nothing |
| Ranges.ResetRangeIsMinMax | Console/src/console/SEMImage.java:224-239 | from the reset ranges each channel ends with exactly the least and the greatest of its ranged intensities, or 4095 and 0 when it has none |
| Assembly.ChannelPixels | Console/src/console/SEMImage.java:185-192 | a channel's row has one pixel per sample of its sub-stream, and no more than the row width |
| Assembly.SlotFrom | Console/src/console/SEMImage.java:195-201 | the search from position j returns 0 or a position at or after j inside the captured channels |
| Assembly.Slot | Console/src/console/SEMImage.java:195-201 | with at least one captured channel, the slot is an index of an image |
| Assembly.SlotFromFinds | Console/src/console/SEMImage.java:195-201 | the search from position j returns the first position at or after j that holds the tag, or 0 if none does |
| Assembly.SlotFinds | Console/src/console/SEMImage.java:195-201 | a captured pin's slot is its first position among the captured channels; a pin that is not captured gets slot 0 |
| Assembly.WriteSlot | Console/src/console/SEMImage.java:195-201 | the search loop, which stops at the first match, returns that slot |
| Assembly.WriteRow | Console/src/console/SEMImage.java:203-209 | writing a row keeps one image per channel and leaves every other image unchanged; the written image stays present or absent and keeps its number of rows |
| Assembly.ParseChannel | Console/src/console/SEMImage.java:186-209 | demultiplexing one channel, into the image slot of its tag (`Tag`: the pin translated from the channel's first word), keeps the row buffer `width` long and one image per channel |
| Assembly.ParseChannels | Console/src/console/SEMImage.java:183-210 | demultiplexing the first k channels keeps the row buffer `width` long and one image per channel |
| Assembly.ParseRawLine | Console/src/console/SEMImage.java:172-211 | a row at or past the height changes nothing, and only a line drawn on a row below the height has to fit; the row buffer and the image count keep their sizes |
| Assembly.TargetRow | Console/src/console/SEMImage.java:267 | a line (its index read by `LineOf` from the record's last word) lands above row `height` exactly when it is at least two lines above the largest index, and the largest index lands on row `height + 1` |
| Assembly.FillRows | Console/src/console/SEMImage.java:268-270 | filling rows first to last with one line, parsed over its `Count` data words (the record less its index), needs the line to fit only when one of those rows is below the height, and keeps the row buffer and the image count |
| Assembly.Assemble | Console/src/console/SEMImage.java:263-272 | assembling needs each line to fit only where it is drawn below the height, and keeps the row buffer and the image count |
| Assembly.FullChannelPixels | Console/src/console/SEMImage.java:187-192 | for a line of channels * width words, every channel's row is exactly width pixels |
| Assembly.ParseChannelsShaped | Console/src/console/SEMImage.java:203-209 | demultiplexing a line only replaces rows of existing images, so every image keeps its rows |
| Assembly.ParseChannelCell | Console/src/console/SEMImage.java:186-209 | parsing channel c of a full line into a row sets that row of the image for the channel's slot to the channel's pixels; every other row and image is unchanged |
| Assembly.ParseChannelsCell | Console/src/console/SEMImage.java:183-210 | after the first k channels, each image's row holds the pixels of the last of those channels that resolves to its slot; other rows, and images no channel resolves to, are unchanged |
| Assembly.FillRowsRows | Console/src/console/SEMImage.java:268-270 | filling rows first to last with one full line gives each such row below the height, in each image, the pixels of the line's last channel for that image; every other row is unchanged |
| Assembly.AssembleRows | Console/src/console/SEMImage.java:264-272 | assembly from record i on, with the images holding what the first i records draw, ends with them holding what all records draw |
| Assembly.AssembleMatchesReference | Console/src/console/SEMImage.java:263-272 | for full lines from blank images: row r of image w holds the pixels of the last channel for slot w of the last record drawn on row r; record i is drawn on the rows after the previous record's target row up to its own; a repeated index is drawn nowhere; untouched rows stay blank |
| SemImage.FiledRecord | Console/src/console/SEMImage.java:134-135 | the stored record has count data words (the line's words, zero-padded past its end) and ends with the line index |
| SemImage.SEMImage.constructor | Console/src/console/SEMImage.java:50-69 | the new image keeps the first `channels` pins, has no lines, maxLine 0, zeroed row buffer and ranges, and no images or file names |
| SemImage.SEMImage.Dehydrate | Console/src/console/SEMImage.java:94-100 | every image saved to a file is dropped, and every other image is kept |
| SemImage.SEMImage.FileDataLine | Console/src/console/SEMImage.java:129-141 | a negative index changes nothing; otherwise exactly one record (count words, then the index) is appended and maxLine becomes the larger of itself and the index; every stored index stays in [0, maxLine] |
| SemImage.SEMImage.RecordRange | Console/src/console/SEMImage.java:294-303 | the channel's range becomes Record of its old range (covering the intensity); every other channel's range is unchanged |
| SemImage.SEMImage.RangeLine | Console/src/console/SEMImage.java:144-154 | every channel folds its own sub-stream of the line, in order, into its range |
| SemImage.SEMImage.RangeChannel | Console/src/console/SEMImage.java:149-152 | one channel's sub-stream is folded into its range, in order; other channels are unchanged |
| SemImage.SEMImage.ResetRanges | Console/src/console/SEMImage.java:224-227 | every range is reset to least 4095 and greatest 0; the line of the greatest is kept |
| SemImage.SEMImage.RangeImages | Console/src/console/SEMImage.java:213-240 | with no lines nothing changes; otherwise the height grows to maxLine + 1 if it was smaller, and the ranges are the reset ranges folded over the first size * 3 / 4 records, skipping a record whose index repeats the previous one |
| SemImage.SEMImage.RangeRecords | Console/src/console/SEMImage.java:229-239 | the ranging loop folds exactly the retained records among the first size * 3 / 4, in order |
| SemImage.SEMImage.ParseRawLineToWriters | Console/src/console/SEMImage.java:172-211 | a row at or past the height changes nothing; otherwise every channel, in order, is demultiplexed into the row buffer and written as the row of its slot's image |
| SemImage.SEMImage.ParseChannelToWriter | Console/src/console/SEMImage.java:186-209 | the channel's pixels fill the front of the row buffer, and the whole buffer is written as the row of the image for the channel's slot; a write into a missing image or outside it changes nothing |
| SemImage.SEMImage.FillRawBuffer | Console/src/console/SEMImage.java:185-192 | the strided loop leaves the channel's auto-contrasted, packed samples at the front of the row buffer and the rest of the buffer as it was |
| SemImage.SEMImage.MakeImagesForDisplay | Console/src/console/SEMImage.java:242-274 | with no lines, or once the first image exists, nothing changes (so a second call is a no-op); otherwise the frame is ranged, each channel gets a blank image of the new height, and the images are the assembly of all records; afterwards the first image exists; the lines must fit where they are drawn only when the images are still to be made |
| SemImage.SEMImage.AllocateImages | Console/src/console/SEMImage.java:257-261 | every channel gets a blank image of the current height and width (`Assembly.BlankImages`, one `Assembly.BlankRaster` of transparent black pixels per channel) |
| SemImage.SEMImage.ParseAll | Console/src/console/SEMImage.java:263-272 | the record loop yields the assembly of all records, each filling the rows after the previous target row up to its own |
| SemImage.SEMImage.FillGap | Console/src/console/SEMImage.java:268-270 | the gap loop parses the same line into every row from the previous target row + 1 up to the current target row, in order |
| Stereo.KnitRow | Console/src/console/SEMImage.java:120-122 | the first width pixels of the left row become the stereo combination of the old left and right pixels, even if the two rows are the same array; the rest of the left row is unchanged |

## Left out

- `SEMThread` (the worker loop, the serial port, `Platform.runLater`) is not part of this
  model. It is concurrency and I/O around code that is not shown.
- JavaFX images and pixel writers are modelled as one `seq<seq<int>>` per channel. A
  failed `setPixels` is caught by the source and changes nothing. The model writes a row
  only into an existing image and inside its rows.
- `SEMImage.Dehydrate` drops images only. The source keeps the pixel writers, so a later
  parse would still draw into the dropped image. Writers are not modelled.
- `knitStereoImage` is modelled only as its per-row pixel loop (`Stereo.KnitRow`). Left
  out are the pixel reader and writer traffic and the stereo constructor, which never
  allocates images or a row buffer.
- `rehydrate` (an empty loop), `cleanUp` (it only drops references), the thumbnail and
  the file name are left out.
- `autoContrast`'s `double` arithmetic is replaced by integer division rounded toward
  zero, which agrees with it for 32-bit operands (see the notes above).
- Java's signed 32-bit arithmetic is not modelled. Pixels are the unsigned reading of the
  bit pattern, and line indices, counts and heights are unbounded integers.
- JavaFX rejects an image of zero width or height. The model allows a zero width.
- `SemImage.SEMImage.FileDataLine` takes `count` as a natural number. The source throws
  for a negative `count`.
- `SemImage.SEMImage.ParseRawLineToWriters` does not model the index error. For a row below
  the height it requires that the line has a word for every channel tag, at least `count`
  words, and no more than `channels * width` words below `count`. Otherwise the source
  throws. A row at or past the height needs nothing.
- `SemImage.SEMImage.MakeImagesForDisplay` does not model the index errors either. With
  lines stored, it requires at least one channel, since the source reads `images[0]`.
  When the images are still to be made, it also requires every line that is drawn on a
  row below the ranged height to meet the condition above. In either case the source
  throws otherwise. Once the images exist, the source returns without reading a line, and
  the model requires nothing of the lines.
- `SemImage.SEMImage.constructor` takes `channels` and `width` as natural numbers and
  `capturedChannels` with at least `channels` pins. The source throws
  `NegativeArraySizeException` for a negative size, and an index error for too few pins.
- A failed pixel write prints a message and a stack trace before it is ignored
  (`Console/src/console/SEMImage.java:206-207`). Console output is not modelled.
- `Assembly.AssembleMatchesReference` describes the images only for full lines, with
  `channels * width` words each. Shorter lines leave the end of the row buffer as the
  previous channel or line left it. That case is covered exactly by `Assembly.Assemble`
  and the class methods, but not by the reference description.
