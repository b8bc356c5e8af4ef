/**
 * An image being acquired: the lines received so far, the per-channel contrast ranges, the
 * shared row buffer and one image per channel. Lines are filed as they arrive; the images
 * are made once, when the frame is displayed.
 */
module SemImage {
  import opened Optional
  import opened WordCodec
  import opened Contrast
  import opened Pixels
  import opened Ranges
  import opened Assembly

  /**
   * The record fileDataLine stores: the first `count` words of the line, padded with zeros
   * if the line is shorter, followed by the line index.
   */
  function FiledRecord(data: seq<int>, count: nat, line: int): (rec: seq<int>)
    ensures Stored(rec) && Count(rec) == count && LineOf(rec) == line
    ensures forall k :: 0 <= k < count ==> rec[k] == if k < |data| then data[k] else 0
  {
    seq(count, k requires 0 <= k < count => if k < |data| then data[k] else 0) + [line]
  }

  class SEMImage {
    const channels: nat
    const width: nat
    var height: int
    /** The pin number of each channel, in capture order. */
    const capturedChannels: seq<int>

    /** One row of packed pixels, shared by every channel while a line is demultiplexed. */
    const rawBuffer: array<int>
    /** The stored lines, in arrival order, each followed by its line index. */
    var alineBuffers: seq<seq<int>>
    const rangeMin: array<int>
    const rangeMax: array<int>
    const rangeMaxLine: array<int>
    /** The largest line index filed so far (0 before any). */
    var maxLine: int

    /** One image per channel, absent until made (or after it was dropped). */
    const images: array<Option<Raster>>
    /** The file an image was saved to, if any. */
    const imageNames: array<Option<string>>

    /** The arrays have their sizes and the integer arrays are distinct. */
    ghost predicate Valid() {
      Sized() && Distinct()
    }

    /** Each array has one entry per channel, the row buffer one per pixel of a row. */
    ghost predicate Sized()
    {
      && |capturedChannels| == channels
      && rawBuffer.Length == width
      && rangeMin.Length == channels && rangeMax.Length == channels && rangeMaxLine.Length == channels
      && images.Length == channels && imageNames.Length == channels
    }

    /** The integer arrays are distinct, so writing one leaves the others unchanged. */
    ghost predicate Distinct()
    {
      && rawBuffer != rangeMin && rawBuffer != rangeMax && rawBuffer != rangeMaxLine
      && rangeMin != rangeMax && rangeMin != rangeMaxLine && rangeMax != rangeMaxLine
    }

    /** Every stored line ends with its index, which is at least 0 and at most `maxLine`. */
    ghost predicate Indexed()
      reads this`alineBuffers, this`maxLine
    {
      && maxLine >= 0
      && AllStored(alineBuffers)
      && forall j :: 0 <= j < |alineBuffers| ==> 0 <= LineOf(alineBuffers[j]) <= maxLine
    }

    /** The contrast ranges, channel by channel. */
    ghost function CurrentRanges(): (rs: seq<Range>)
      reads rangeMin, rangeMax, rangeMaxLine
      requires Valid()
      ensures |rs| == channels
    {
      var lo, hi, hiLine := rangeMin[..], rangeMax[..], rangeMaxLine[..];
      seq(channels, c requires 0 <= c < channels => Range(lo[c], hi[c], hiLine[c]))
    }

    /** The row buffer and the images. */
    ghost function CurrentCanvas(): Canvas
      reads rawBuffer, images
    {
      Canvas(rawBuffer[..], images[..])
    }

    /** What demultiplexing reads: sizes, captured pins, height, largest index and ranges. */
    ghost function AssemblyEnv(): (e: Env)
      reads this`height, this`maxLine, rangeMin, rangeMax
      requires Valid()
      ensures e.Valid()
    {
      Env(channels, width, capturedChannels, height, maxLine, rangeMin[..], rangeMax[..])
    }

    /**
     * A new image with `channels` channels whose pins are the first `channels` entries of
     * `capturedChannels`: no lines, zeroed buffers and ranges, no images and no file names.
     */
    constructor (channels: nat, capturedChannels: seq<int>, width: nat, height: int)
      requires channels <= |capturedChannels|
      ensures Valid() && Indexed()
      ensures this.channels == channels && this.width == width && this.height == height
      ensures this.capturedChannels == capturedChannels[..channels]
      ensures alineBuffers == [] && maxLine == 0
      ensures rawBuffer[..] == seq(width, _ => 0)
      ensures rangeMin[..] == seq(channels, _ => 0) && rangeMax[..] == seq(channels, _ => 0)
      ensures rangeMaxLine[..] == seq(channels, _ => 0)
      ensures images[..] == seq(channels, _ => None) && imageNames[..] == seq(channels, _ => None)
      ensures fresh(rawBuffer) && fresh(rangeMin) && fresh(rangeMax) && fresh(rangeMaxLine)
      ensures fresh(images) && fresh(imageNames)
    {
      this.channels := channels;
      this.width := width;
      this.height := height;
      rawBuffer := new int[width](_ => 0);
      alineBuffers := [];
      this.capturedChannels := capturedChannels[..channels];
      rangeMin := new int[channels](_ => 0);
      rangeMax := new int[channels](_ => 0);
      rangeMaxLine := new int[channels](_ => 0);
      maxLine := 0;
      images := new Option<Raster>[channels](_ => None);
      imageNames := new Option<string>[channels](_ => None);
    }

    /**
     * Drops every image that has been saved to a file; images without a file are kept.
     */
    method Dehydrate()
      requires Valid()
      modifies images
      ensures forall i :: 0 <= i < channels ==>
        images[i] == if imageNames[i].Some? then None else old(images[i])
    {
      var i := 0;
      while i < channels
        invariant 0 <= i <= channels
        invariant forall k :: 0 <= k < i ==>
          images[k] == if imageNames[k].Some? then None else old(images[k])
        invariant forall k :: i <= k < channels ==> images[k] == old(images[k])
      {
        if imageNames[i].Some? {
          images[i] := None;
        }
        i := i + 1;
      }
    }

    /**
     * Files a line: a negative index is ignored; otherwise the record of the first `count`
     * words and the index is appended and `maxLine` grows to the index.
     */
    method FileDataLine(line: int, data: seq<int>, count: nat)
      requires Indexed()
      modifies this`alineBuffers, this`maxLine
      ensures Indexed()
      ensures line < 0 ==> alineBuffers == old(alineBuffers) && maxLine == old(maxLine)
      ensures line >= 0 ==> alineBuffers == old(alineBuffers) + [FiledRecord(data, count, line)]
      ensures line >= 0 ==> maxLine == if line > old(maxLine) then line else old(maxLine)
    {
      if line < 0 {
        return;
      }
      var copy := FiledRecord(data, count, line);
      alineBuffers := alineBuffers + [copy];
      if line > maxLine {
        maxLine := line;
      }
    }

    /**
     * Folds one intensity into channel `channel`'s range; the other channels' ranges do not
     * change.
     */
    method RecordRange(channel: nat, line: int, intensity: int)
      requires Valid() && channel < channels
      modifies rangeMin, rangeMax, rangeMaxLine
      ensures CurrentRanges() ==
        old(CurrentRanges())[channel := Record(old(CurrentRanges())[channel], line, intensity)]
    {
      if intensity < rangeMin[channel] {
        rangeMin[channel] := intensity;
      }
      if intensity > rangeMax[channel] {
        rangeMax[channel] := intensity;
        rangeMaxLine[channel] := line;
      }
    }

    /**
     * Folds the first `count` words of a line into the ranges: each channel its own
     * sub-stream, words `channel`, `channel + channels`, ... in order.
     */
    method RangeLine(line: int, data: seq<int>, count: int)
      requires Valid() && count <= |data|
      modifies rangeMin, rangeMax, rangeMaxLine
      ensures CurrentRanges() == Ranges.RangeLine(old(CurrentRanges()), line, data, count, channels)
    {
      ghost var start := CurrentRanges();
      ghost var goal := Ranges.RangeLine(start, line, data, count, channels);
      var channel := 0;
      while channel < channels
        invariant 0 <= channel <= channels
        invariant forall c :: 0 <= c < channel ==> CurrentRanges()[c] == goal[c]
        invariant forall c :: channel <= c < channels ==> CurrentRanges()[c] == start[c]
      {
        RangeChannel(channel, line, data, count);
        channel := channel + 1;
      }
      assert CurrentRanges() == goal;
    }

    /** Folds channel `channel`'s sub-stream of a line into its range, in order. */
    method RangeChannel(channel: nat, line: int, data: seq<int>, count: int)
      requires Valid() && channel < channels && count <= |data|
      modifies rangeMin, rangeMax, rangeMaxLine
      ensures CurrentRanges() == old(CurrentRanges())[channel :=
        FoldSamples(old(CurrentRanges())[channel], line, Strided(data, channel, count, channels))]
    {
      ghost var start := CurrentRanges();
      ghost var goal := FoldSamples(start[channel], line, Strided(data, channel, count, channels));
      var i: nat := channel;
      while i < count
        invariant FoldSamples(CurrentRanges()[channel], line, Strided(data, i, count, channels)) == goal
        invariant CurrentRanges() == start[channel := CurrentRanges()[channel]]
        decreases count - i
      {
        var intensity := Value(data[i]);
        ghost var rest := Strided(data, i + channels, count, channels);
        assert Strided(data, i, count, channels) == [intensity] + rest;
        assert ([intensity] + rest)[1..] == rest;
        RecordRange(channel, line, intensity);
        i := i + channels;
      }
    }

    /** Resets every channel's range to least 4095 and greatest 0, keeping the line of the greatest. */
    method ResetRanges()
      requires Valid()
      modifies rangeMin, rangeMax
      ensures CurrentRanges() == Reset(old(CurrentRanges()))
    {
      var i := 0;
      while i < channels
        invariant 0 <= i <= channels
        invariant forall c :: 0 <= c < i ==> rangeMin[c] == MAX_INTENSITY && rangeMax[c] == 0
        invariant forall c :: i <= c < channels ==> rangeMin[c] == old(rangeMin[c]) && rangeMax[c] == old(rangeMax[c])
      {
        rangeMin[i] := MAX_INTENSITY;
        rangeMax[i] := 0;
        i := i + 1;
      }
    }

    /**
     * Ranges the frame: with no lines nothing changes; otherwise the height grows to fit the
     * largest line index, every channel's range is reset to least 4095 and greatest 0, and
     * the lines among the first three quarters are folded in, in order, skipping a line
     * whose index repeats the one before it.
     */
    method RangeImages()
      requires Valid() && Indexed()
      modifies this`height, rangeMin, rangeMax, rangeMaxLine
      ensures alineBuffers == [] ==> height == old(height) && CurrentRanges() == old(CurrentRanges())
      ensures alineBuffers != [] ==> height == if maxLine + 1 > old(height) then maxLine + 1 else old(height)
      ensures alineBuffers != [] ==>
        CurrentRanges() == RangeOver(Reset(old(CurrentRanges())), alineBuffers, |alineBuffers| * 3 / 4, channels)
    {
      if alineBuffers == [] {
        return;
      }
      var size := |alineBuffers|;
      if maxLine + 1 > height {
        height := maxLine + 1;
      }
      ghost var start := CurrentRanges();
      ResetRanges();
      RangeRecords(start);
    }

    /**
     * The ranging loop of rangeImages: from ranges `start` reset, the records among the first
     * three quarters are folded in, in order, a record being skipped when its index repeats
     * the one before it.
     */
    method RangeRecords(ghost start: seq<Range>)
      requires Valid() && Indexed() && |start| == channels && alineBuffers != []
      requires CurrentRanges() == Reset(start)
      modifies rangeMin, rangeMax, rangeMaxLine
      ensures CurrentRanges() == RangeOver(Reset(start), alineBuffers, |alineBuffers| * 3 / 4, channels)
    {
      var size := |alineBuffers|;
      var prevLine := -1;
      var i := 0;
      while i < size * 3 / 4
        invariant 0 <= i <= size * 3 / 4
        invariant prevLine == if i == 0 then -1 else LineOf(alineBuffers[i - 1])
        invariant CurrentRanges() == RangeOver(Reset(start), alineBuffers, i, channels)
      {
        var data := alineBuffers[i];
        var line := data[|data| - 1];
        if line != prevLine {
          RangeLine(line, data, |data| - 1);
        }
        prevLine := line;
        i := i + 1;
      }
    }

    /**
     * Demultiplexes one line into row `line` of the images, unless the row is at or past the
     * height: channel by channel, the channel's auto-contrasted samples are packed into the
     * front of the row buffer and the buffer is written as the row of the image whose pin
     * matches the channel's tag.
     */
    method ParseRawLineToWriters(line: int, data: seq<int>, count: int)
      requires Valid() && (line < height ==> Fits(channels, width, data, count))
      modifies rawBuffer, images
      ensures CurrentCanvas() == ParseRawLine(AssemblyEnv(), old(CurrentCanvas()), line, data, count)
    {
      if line >= height {
        return;
      }
      ghost var e := AssemblyEnv();
      ghost var start := CurrentCanvas();
      var channel := 0;
      while channel < channels
        invariant 0 <= channel <= channels
        invariant CurrentCanvas() == ParseChannels(e, start, line, data, count, channel)
      {
        ParseChannelToWriter(line, data, count, channel);
        channel := channel + 1;
      }
    }

    /**
     * One channel of a line: its samples, auto-contrasted and packed, fill the front of the
     * row buffer, and the buffer is written as row `line` of the image for the channel's pin.
     */
    method ParseChannelToWriter(line: int, data: seq<int>, count: int, channel: nat)
      requires Valid() && Fits(channels, width, data, count) && channel < channels
      modifies rawBuffer, images
      ensures CurrentCanvas() == ParseChannel(AssemblyEnv(), old(CurrentCanvas()), line, data, count, channel)
    {
      var capturedChannel := TranslateChannel(EncodedChannel(data[channel]));
      FillRawBuffer(data, count, channel);
      var writeChannel := WriteSlot(capturedChannels, capturedChannel);
      if images[writeChannel].Some? && 0 <= line < |images[writeChannel].value| {
        images[writeChannel] := Some(images[writeChannel].value[line := rawBuffer[..]]);
      }
    }

    /**
     * Packs channel `channel`'s sub-stream of a line into the front of the row buffer; the
     * rest of the buffer keeps what was there.
     */
    method FillRawBuffer(data: seq<int>, count: int, channel: nat)
      requires Valid() && Fits(channels, width, data, count) && channel < channels
      modifies rawBuffer
      ensures rawBuffer[..] == ChannelPixels(AssemblyEnv(), data, count, channel)
                               + old(rawBuffer[..])[|ChannelPixels(AssemblyEnv(), data, count, channel)|..]
    {
      ghost var px := ChannelPixels(AssemblyEnv(), data, count, channel);
      ghost var vs := Strided(data, channel, count, channels);
      var capturedChannel := TranslateChannel(EncodedChannel(data[channel]));
      var pixel := 0;
      var i: nat := channel;
      while i < count
        invariant 0 <= pixel <= |vs|
        invariant vs[pixel..] == Strided(data, i, count, channels)
        invariant forall k :: 0 <= k < pixel ==> rawBuffer[k] == px[k]
        invariant forall k :: pixel <= k < width ==> rawBuffer[k] == old(rawBuffer[k])
        decreases count - i
      {
        var intensity := Value(data[i]);
        intensity := AutoContrast(intensity, rangeMin[channel], rangeMax[channel]);
        ghost var rest := Strided(data, i + channels, count, channels);
        assert vs[pixel..] == [Value(data[i])] + rest;
        assert vs[pixel + 1..] == vs[pixel..][1..];
        rawBuffer[pixel] := GrayScale(capturedChannel, intensity);
        pixel := pixel + 1;
        i := i + channels;
      }
    }

    /**
     * Makes the images, once: with no lines, or once the first image exists, nothing
     * changes. Otherwise the frame is ranged, every channel gets a blank image of the new
     * height, and each stored line, in order, is demultiplexed into every row after the
     * previous line's target row up to its own target row, its index moved down by
     * `height - maxLine + 1`.
     */
    method MakeImagesForDisplay()
      requires Valid() && Indexed()
      requires alineBuffers != [] ==> channels > 0
      requires alineBuffers != [] && images[0].None? ==>
        FitsWhereDrawn(channels, width, if maxLine + 1 > height then maxLine + 1 else height, maxLine,
                       alineBuffers, 0, -1)
      modifies this`height, rangeMin, rangeMax, rangeMaxLine, rawBuffer, images
      ensures alineBuffers == [] || old(images[0]).Some? ==>
        height == old(height) && CurrentRanges() == old(CurrentRanges()) && CurrentCanvas() == old(CurrentCanvas())
      ensures alineBuffers != [] && old(images[0]).None? ==>
        && height == (if maxLine + 1 > old(height) then maxLine + 1 else old(height))
        && CurrentRanges() == RangeOver(Reset(old(CurrentRanges())), alineBuffers, |alineBuffers| * 3 / 4, channels)
        && CurrentCanvas() == Assemble(AssemblyEnv(), Canvas(old(rawBuffer[..]), BlankImages(AssemblyEnv())), alineBuffers, 0, -1)
      ensures alineBuffers != [] ==> images[0].Some?
    {
      if alineBuffers == [] {
        return;
      }
      if images[0].Some? {
        return;
      }
      RangeImages();
      AllocateImages();
      AssembleShaped(AssemblyEnv(), CurrentCanvas(), alineBuffers, 0, -1);
      ParseAll();
    }

    /** Gives every channel a blank image of the current height and width. */
    method AllocateImages()
      requires Valid() && height >= 0
      modifies images
      ensures images[..] == BlankImages(AssemblyEnv())
    {
      var blank: Raster := seq(height, _ => seq(width, _ => 0));
      assert blank == BlankRaster(AssemblyEnv());
      var i := 0;
      while i < channels
        invariant 0 <= i <= channels
        invariant forall k :: 0 <= k < i ==> images[k] == Some(blank)
      {
        images[i] := Some(blank);
        i := i + 1;
      }
    }

    /**
     * The parsing loop of makeImagesForDisplay: every stored line fills the rows after the
     * previous line's target row up to its own.
     */
    method ParseAll()
      requires Valid() && FitsWhereDrawn(channels, width, height, maxLine, alineBuffers, 0, -1)
      modifies rawBuffer, images
      ensures CurrentCanvas() == Assemble(AssemblyEnv(), old(CurrentCanvas()), alineBuffers, 0, -1)
    {
      ghost var e := AssemblyEnv();
      ghost var goal := Assemble(e, CurrentCanvas(), alineBuffers, 0, -1);
      var size := |alineBuffers|;
      var prevLine := -1;
      var i := 0;
      while i < size
        invariant 0 <= i <= size
        invariant FitsWhereDrawn(channels, width, height, maxLine, alineBuffers, i, prevLine)
        invariant Assemble(e, CurrentCanvas(), alineBuffers, i, prevLine) == goal
      {
        var lineData := alineBuffers[i];
        var line := lineData[|lineData| - 1] + (height - maxLine + 1);
        FillGap(prevLine, line, lineData);
        prevLine := line;
        i := i + 1;
      }
    }

    /** The gap-filling loop: rows `prevLine + 1` to `line` all get the same stored line. */
    method FillGap(prevLine: int, line: int, lineData: seq<int>)
      requires Valid() && Stored(lineData) && FitsRows(channels, width, height, lineData, prevLine + 1, line)
      modifies rawBuffer, images
      ensures CurrentCanvas() == FillRows(AssemblyEnv(), old(CurrentCanvas()), lineData, prevLine + 1, line)
    {
      ghost var e := AssemblyEnv();
      ghost var goal := FillRows(e, CurrentCanvas(), lineData, prevLine + 1, line);
      var row := prevLine + 1;
      while row <= line
        invariant prevLine + 1 <= row
        invariant FillRows(e, CurrentCanvas(), lineData, row, line) == goal
        decreases line - row
      {
        ParseRawLineToWriters(row, lineData, |lineData| - 1);
        row := row + 1;
      }
    }
  }
}
