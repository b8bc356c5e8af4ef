/**
 * Image assembly as functions of the state it works on: the shared row buffer and the
 * per-channel images. Each stored line is demultiplexed channel by channel into the row
 * buffer (auto-contrasted and packed), the buffer is written into the image slot of the
 * channel's tag, and each line is placed at a jitter-corrected row, gaps above it being
 * filled with the same line.
 */
module Assembly {
  import opened Optional
  import opened WordCodec
  import opened Contrast
  import opened Pixels
  import opened Ranges

  /** A channel image: rows of packed pixels. */
  type Raster = seq<seq<int>>

  /** The state assembly changes: the shared row buffer and one image (or none) per channel. */
  datatype Canvas = Canvas(buf: seq<int>, imgs: seq<Option<Raster>>)

  /**
   * What assembly reads and does not change: the channel count, the row width, the captured
   * channel tags, the (possibly grown) height, the largest line index, and the ranges.
   */
  datatype Env = Env(channels: nat, width: nat, captured: seq<int>, height: int, maxLine: int,
                     lo: seq<int>, hi: seq<int>)
  {
    predicate Valid() {
      |captured| == channels && |lo| == channels && |hi| == channels
    }
  }

  /**
   * A line the source can demultiplex without an index error: it has a word for each
   * channel's tag, and no channel has more samples than the row is wide.
   */
  predicate Fits(channels: nat, width: nat, data: seq<int>, count: int) {
    channels <= |data| && 0 <= count <= |data| && count <= channels * width
  }

  /** The pin number of channel c's sub-stream, read from its first word. */
  function Tag(data: seq<int>, c: nat): int
    requires c < |data|
  {
    TranslateChannel(EncodedChannel(data[c]))
  }

  /** Channel c's row: its sub-stream auto-contrasted with channel c's range and packed. */
  function ChannelPixels(e: Env, data: seq<int>, count: int, c: nat): (px: seq<int>)
    requires e.Valid() && Fits(e.channels, e.width, data, count) && c < e.channels
    ensures |px| == |Strided(data, c, count, e.channels)| <= e.width
  {
    var vs := Strided(data, c, count, e.channels);
    assert count <= c + e.width * e.channels;
    StridedAtMost(data, c, count, e.channels, e.width);
    seq(|vs|, k requires 0 <= k < |vs| => GrayScale(Tag(data, c), AutoContrast(vs[k], e.lo[c], e.hi[c])))
  }

  /** The position of `tag` in `captured` at or after j, or 0 if it is not there. */
  function SlotFrom(captured: seq<int>, tag: int, j: nat): (w: nat)
    requires j <= |captured|
    ensures w == 0 || j <= w < |captured|
    decreases |captured| - j
  {
    if j == |captured| then 0
    else if captured[j] == tag then j
    else
      SlotFrom(captured, tag, j + 1)
  }

  /** The search from j finds the first position at or after j that holds the tag. */
  lemma {:induction false} SlotFromFinds(captured: seq<int>, tag: int, j: nat)
    requires j <= |captured|
    ensures tag in captured[j..] ==>
      && j <= SlotFrom(captured, tag, j) < |captured|
      && captured[SlotFrom(captured, tag, j)] == tag
      && forall k :: j <= k < SlotFrom(captured, tag, j) ==> captured[k] != tag
    ensures tag !in captured[j..] ==> SlotFrom(captured, tag, j) == 0
    decreases |captured| - j
  {
    if j < |captured| {
      assert captured[j..] == [captured[j]] + captured[j + 1..];
      if captured[j] != tag {
        SlotFromFinds(captured, tag, j + 1);
      }
    }
  }

  /** The image slot for a tag: its first position among the captured channels, or 0. */
  function Slot(captured: seq<int>, tag: int): (w: nat)
    ensures |captured| > 0 ==> w < |captured|
  {
    SlotFrom(captured, tag, 0)
  }

  /** A captured tag gets the slot of its first occurrence; any other tag gets slot 0. */
  lemma SlotFinds(captured: seq<int>, tag: int)
    ensures tag in captured ==>
      && captured[Slot(captured, tag)] == tag
      && forall k :: 0 <= k < Slot(captured, tag) ==> captured[k] != tag
    ensures tag !in captured ==> Slot(captured, tag) == 0
  {
    assert captured[0..] == captured;
    SlotFromFinds(captured, tag, 0);
  }

  /** The slot search as the source writes it: a loop that stops at the first match. */
  method WriteSlot(captured: seq<int>, tag: int) returns (w: nat)
    ensures w == Slot(captured, tag)
  {
    SlotFinds(captured, tag);
    w := 0;
    var i := 0;
    while i < |captured|
      invariant 0 <= i <= |captured|
      invariant forall k :: 0 <= k < i ==> captured[k] != tag
    {
      if captured[i] == tag {
        w := i;
        return;
      }
      i := i + 1;
    }
  }

  /**
   * Writes a row into image w. A write into a missing image or outside its rows fails,
   * and a failed write changes nothing (the source catches the exception and goes on).
   */
  function WriteRow(imgs: seq<Option<Raster>>, w: nat, row: int, pixels: seq<int>): (imgs': seq<Option<Raster>>)
    requires w < |imgs|
    ensures |imgs'| == |imgs|
    ensures forall v :: 0 <= v < |imgs| && v != w ==> imgs'[v] == imgs[v]
    ensures imgs'[w].Some? == imgs[w].Some?
    ensures imgs[w].Some? ==> |imgs'[w].value| == |imgs[w].value|
  {
    if imgs[w].Some? && 0 <= row < |imgs[w].value| then imgs[w := Some(imgs[w].value[row := pixels])] else imgs
  }

  /**
   * One channel of parseRawLineToWriters: its pixels overwrite the front of the row buffer
   * (the rest keeps what earlier channels and lines left there) and the whole buffer is
   * written as the row of the image slot of the channel's tag.
   */
  function ParseChannel(e: Env, cv: Canvas, row: int, data: seq<int>, count: int, c: nat): (cv': Canvas)
    requires e.Valid() && Fits(e.channels, e.width, data, count) && c < e.channels
    requires |cv.buf| == e.width && |cv.imgs| == e.channels
    ensures |cv'.buf| == e.width && |cv'.imgs| == e.channels
  {
    var px := ChannelPixels(e, data, count, c);
    var buf := px + cv.buf[|px|..];
    Canvas(buf, WriteRow(cv.imgs, Slot(e.captured, Tag(data, c)), row, buf))
  }

  /** The first k channels of parseRawLineToWriters, in order. */
  function ParseChannels(e: Env, cv: Canvas, row: int, data: seq<int>, count: int, k: nat): (cv': Canvas)
    requires e.Valid() && Fits(e.channels, e.width, data, count) && k <= e.channels
    requires |cv.buf| == e.width && |cv.imgs| == e.channels
    ensures |cv'.buf| == e.width && |cv'.imgs| == e.channels
  {
    if k == 0 then cv else ParseChannel(e, ParseChannels(e, cv, row, data, count, k - 1), row, data, count, k - 1)
  }

  /**
   * parseRawLineToWriters: rows at or past the height are skipped before the line is read,
   * so only a line drawn below the height has to fit; other rows get every channel.
   */
  function ParseRawLine(e: Env, cv: Canvas, row: int, data: seq<int>, count: int): (cv': Canvas)
    requires e.Valid() && (row < e.height ==> Fits(e.channels, e.width, data, count))
    requires |cv.buf| == e.width && |cv.imgs| == e.channels
    ensures |cv'.buf| == e.width && |cv'.imgs| == e.channels
    ensures row >= e.height ==> cv' == cv
  {
    if row >= e.height then cv else ParseChannels(e, cv, row, data, count, e.channels)
  }

  /**
   * The row a record lands on: its line index moved down by `height - maxLine + 1`. A line
   * lands above row `height` exactly when it is at least two lines above the largest index;
   * the two lowest lines land at or past row `height`, so each is drawn only into the gap
   * rows above it that are still inside the image.
   */
  function TargetRow(height: int, maxLine: int, rec: seq<int>): (t: int)
    requires Stored(rec)
    ensures t < height <==> LineOf(rec) < maxLine - 1
    ensures LineOf(rec) == maxLine ==> t == height + 1
  {
    LineOf(rec) + (height - maxLine + 1)
  }

  /**
   * A record drawn on rows `first` to `last` can be demultiplexed: it has to fit only if
   * one of those rows is below the height.
   */
  predicate FitsRows(channels: nat, width: nat, height: int, rec: seq<int>, first: int, last: int)
    requires Stored(rec)
  {
    first <= last && first < height ==> Fits(channels, width, rec, Count(rec))
  }

  /**
   * From record i on, the record before having landed on row `prev`, every record is a
   * stored line that fits wherever it is drawn below the height.
   */
  predicate FitsWhereDrawn(channels: nat, width: nat, height: int, maxLine: int,
                           recs: seq<seq<int>>, i: nat, prev: int)
    requires i <= |recs|
    decreases |recs| - i
  {
    i < |recs| ==>
      && Stored(recs[i])
      && FitsRows(channels, width, height, recs[i], prev + 1, TargetRow(height, maxLine, recs[i]))
      && FitsWhereDrawn(channels, width, height, maxLine, recs, i + 1, TargetRow(height, maxLine, recs[i]))
  }

  /** Rows `first` to `last`, in order, each parsed from the same record. */
  function FillRows(e: Env, cv: Canvas, rec: seq<int>, first: int, last: int): (cv': Canvas)
    requires e.Valid() && Stored(rec) && FitsRows(e.channels, e.width, e.height, rec, first, last)
    requires |cv.buf| == e.width && |cv.imgs| == e.channels
    ensures |cv'.buf| == e.width && |cv'.imgs| == e.channels
    decreases last - first + 1
  {
    if first > last then cv else FillRows(e, ParseRawLine(e, cv, first, rec, Count(rec)), rec, first + 1, last)
  }

  /**
   * makeImagesForDisplay's parsing loop from record i on, the previous record having
   * landed on row `prev`: each record fills the rows after `prev` up to its own target row.
   */
  function Assemble(e: Env, cv: Canvas, recs: seq<seq<int>>, i: nat, prev: int): (cv': Canvas)
    requires e.Valid() && i <= |recs| && FitsWhereDrawn(e.channels, e.width, e.height, e.maxLine, recs, i, prev)
    requires |cv.buf| == e.width && |cv.imgs| == e.channels
    ensures |cv'.buf| == e.width && |cv'.imgs| == e.channels
    decreases |recs| - i
  {
    if i == |recs| then cv
    else
      var target := TargetRow(e.height, e.maxLine, recs[i]);
      Assemble(e, FillRows(e, cv, recs[i], prev + 1, target), recs, i + 1, target)
  }

  /** A blank image of the current height and width: transparent black pixels. */
  function BlankRaster(e: Env): Raster
    requires e.height >= 0
  {
    seq(e.height, _ => seq(e.width, _ => 0))
  }

  /** One freshly allocated image per channel. */
  function BlankImages(e: Env): (imgs: seq<Option<Raster>>)
    requires e.height >= 0
    ensures |imgs| == e.channels
  {
    seq(e.channels, _ => Some(BlankRaster(e)))
  }

  // ---------------------------------------------------------------------------------
  // A reference description of the assembled images, for lines of full length.

  /** A line with a word for every pixel of every channel. */
  predicate Full(e: Env, rec: seq<int>) {
    Stored(rec) && e.channels <= |rec| && Count(rec) == e.channels * e.width
  }

  /** Every record is a full line. */
  predicate AllFull(e: Env, recs: seq<seq<int>>) {
    forall j :: 0 <= j < |recs| ==> Full(e, recs[j])
  }

  /** The last of the first k channels whose tag resolves to image slot w, if any. */
  function LastChannel(e: Env, data: seq<int>, w: nat, k: nat): (c: Option<nat>)
    requires e.Valid() && k <= e.channels <= |data|
    ensures c.Some? ==> c.value < k
  {
    if k == 0 then None
    else if Slot(e.captured, Tag(data, k - 1)) == w then Some(k - 1)
    else LastChannel(e, data, w, k - 1)
  }

  /** The target row of the record before record i, or -1 before the first. */
  function PrevTarget(e: Env, recs: seq<seq<int>>, i: nat): int
    requires i < |recs| && AllStored(recs)
  {
    if i == 0 then -1 else TargetRow(e.height, e.maxLine, recs[i - 1])
  }

  /** Record i is drawn on row r: r is after the previous target row and at most its own. */
  predicate Covers(e: Env, recs: seq<seq<int>>, i: nat, r: int)
    requires i < |recs| && AllStored(recs)
  {
    PrevTarget(e, recs, i) < r <= TargetRow(e.height, e.maxLine, recs[i])
  }

  /** The last of the first n records that is drawn on row r and has a channel for slot w. */
  function LastWriter(e: Env, recs: seq<seq<int>>, n: nat, w: nat, r: int): (i: Option<nat>)
    requires e.Valid() && n <= |recs| && AllFull(e, recs)
    ensures i.Some? ==> i.value < n && LastChannel(e, recs[i.value], w, e.channels).Some?
  {
    if n == 0 then None
    else if Covers(e, recs, n - 1, r) && LastChannel(e, recs[n - 1], w, e.channels).Some? then Some(n - 1)
    else LastWriter(e, recs, n - 1, w, r)
  }

  /**
   * Row r of image w after the first n records: the pixels of the last channel for slot w
   * of the last record drawn on row r with such a channel, or blank if there is none.
   */
  function ExpectedRow(e: Env, recs: seq<seq<int>>, n: nat, w: nat, r: int): seq<int>
    requires e.Valid() && n <= |recs| && AllFull(e, recs)
  {
    match LastWriter(e, recs, n, w, r)
    case None => seq(e.width, _ => 0)
    case Some(i) => ChannelPixels(e, recs[i], Count(recs[i]), LastChannel(e, recs[i], w, e.channels).value)
  }

  /** Every channel has an image of `height` rows. */
  predicate Shaped(e: Env, imgs: seq<Option<Raster>>) {
    |imgs| == e.channels && forall w :: 0 <= w < |imgs| ==> imgs[w].Some? && |imgs[w].value| == e.height
  }

  /** Parsing channels only replaces rows of existing images: every image keeps its rows. */
  lemma {:induction false} ParseChannelsShaped(e: Env, cv: Canvas, row: int, data: seq<int>, count: int, k: nat)
    requires e.Valid() && Fits(e.channels, e.width, data, count) && k <= e.channels
    requires |cv.buf| == e.width && Shaped(e, cv.imgs)
    ensures Shaped(e, ParseChannels(e, cv, row, data, count, k).imgs)
  {
    if k > 0 {
      ParseChannelsShaped(e, cv, row, data, count, k - 1);
    }
  }

  /** Filling rows keeps every image's rows. */
  lemma {:induction false} FillRowsShaped(e: Env, cv: Canvas, rec: seq<int>, first: int, last: int)
    requires e.Valid() && Stored(rec) && FitsRows(e.channels, e.width, e.height, rec, first, last)
    requires |cv.buf| == e.width && Shaped(e, cv.imgs)
    ensures Shaped(e, FillRows(e, cv, rec, first, last).imgs)
    decreases last - first + 1
  {
    if first <= last {
      if first < e.height {
        ParseChannelsShaped(e, cv, first, rec, Count(rec), e.channels);
      }
      FillRowsShaped(e, ParseRawLine(e, cv, first, rec, Count(rec)), rec, first + 1, last);
    }
  }

  /** Assembling keeps every image's rows. */
  lemma {:induction false} AssembleShaped(e: Env, cv: Canvas, recs: seq<seq<int>>, i: nat, prev: int)
    requires e.Valid() && i <= |recs| && FitsWhereDrawn(e.channels, e.width, e.height, e.maxLine, recs, i, prev)
    requires |cv.buf| == e.width && Shaped(e, cv.imgs)
    ensures Shaped(e, Assemble(e, cv, recs, i, prev).imgs)
    decreases |recs| - i
  {
    if i < |recs| {
      var target := TargetRow(e.height, e.maxLine, recs[i]);
      FillRowsShaped(e, cv, recs[i], prev + 1, target);
      AssembleShaped(e, FillRows(e, cv, recs[i], prev + 1, target), recs, i + 1, target);
    }
  }

  /** For a full line every channel has exactly `width` samples. */
  lemma FullChannelPixels(e: Env, rec: seq<int>, c: nat)
    requires e.Valid() && Full(e, rec) && c < e.channels
    ensures Fits(e.channels, e.width, rec, Count(rec))
    ensures |ChannelPixels(e, rec, Count(rec), c)| == e.width
  {
    var n := e.width;
    assert c + (n - 1) * e.channels < Count(rec) <= c + n * e.channels by {
      assert (n - 1) * e.channels + e.channels == n * e.channels;
    }
    StridedLength(rec, c, Count(rec), e.channels, n);
  }

  /**
   * Parsing channel c of a full line into row `row`: that row of the channel's image slot
   * holds the channel's pixels (and so does the buffer); every other row is unchanged.
   */
  lemma ParseChannelCell(e: Env, cv: Canvas, row: int, rec: seq<int>, c: nat, w: nat, r: int)
    requires e.Valid() && Full(e, rec) && c < e.channels && row < e.height
    requires |cv.buf| == e.width && Shaped(e, cv.imgs)
    requires w < e.channels && 0 <= r < e.height
    ensures Shaped(e, ParseChannel(e, cv, row, rec, Count(rec), c).imgs)
    ensures ParseChannel(e, cv, row, rec, Count(rec), c).imgs[w].value[r] ==
              (if r == row && w == Slot(e.captured, Tag(rec, c))
               then ChannelPixels(e, rec, Count(rec), c)
               else cv.imgs[w].value[r])
  {
    FullChannelPixels(e, rec, c);
    var px := ChannelPixels(e, rec, Count(rec), c);
    assert px + cv.buf[|px|..] == px;
  }

  /**
   * Parsing the first k channels of a full line into row `row`: each image's row holds the
   * pixels of the last of those channels for that slot; other rows, and slots with no such
   * channel, are unchanged.
   */
  lemma {:induction false} ParseChannelsCell(e: Env, cv: Canvas, row: int, rec: seq<int>, k: nat, w: nat, r: int)
    requires e.Valid() && Full(e, rec) && k <= e.channels && row < e.height
    requires |cv.buf| == e.width && Shaped(e, cv.imgs)
    requires w < e.channels && 0 <= r < e.height
    ensures Shaped(e, ParseChannels(e, cv, row, rec, Count(rec), k).imgs)
    ensures ParseChannels(e, cv, row, rec, Count(rec), k).imgs[w].value[r] ==
              (if r == row && LastChannel(e, rec, w, k).Some?
               then ChannelPixels(e, rec, Count(rec), LastChannel(e, rec, w, k).value)
               else cv.imgs[w].value[r])
  {
    if k > 0 {
      var c := k - 1;
      var prior := ParseChannels(e, cv, row, rec, Count(rec), c);
      ParseChannelsCell(e, cv, row, rec, c, w, r);
      ParseChannelCell(e, prior, row, rec, c, w, r);
    }
  }

  /**
   * Filling rows `first` to `last` with a full line: every such row below the height holds,
   * in each slot, the pixels of the line's last channel for that slot; the rest is unchanged.
   */
  lemma {:induction false} FillRowsRows(e: Env, cv: Canvas, rec: seq<int>, first: int, last: int)
    requires e.Valid() && Full(e, rec)
    requires |cv.buf| == e.width && Shaped(e, cv.imgs)
    ensures FitsRows(e.channels, e.width, e.height, rec, first, last)
    ensures Shaped(e, FillRows(e, cv, rec, first, last).imgs)
    ensures forall w, r :: 0 <= w < e.channels && 0 <= r < e.height ==>
              FillRows(e, cv, rec, first, last).imgs[w].value[r] ==
                (if first <= r <= last && LastChannel(e, rec, w, e.channels).Some?
                 then ChannelPixels(e, rec, Count(rec), LastChannel(e, rec, w, e.channels).value)
                 else cv.imgs[w].value[r])
    decreases last - first + 1
  {
    if first <= last {
      var next := ParseRawLine(e, cv, first, rec, Count(rec));
      var done := FillRows(e, next, rec, first + 1, last);
      assert FillRows(e, cv, rec, first, last) == done;
      ParseChannelsShaped(e, cv, first, rec, Count(rec), e.channels);
      FillRowsRows(e, next, rec, first + 1, last);
      forall w, r | 0 <= w < e.channels && 0 <= r < e.height
        ensures done.imgs[w].value[r] ==
                (if first <= r <= last && LastChannel(e, rec, w, e.channels).Some?
                 then ChannelPixels(e, rec, Count(rec), LastChannel(e, rec, w, e.channels).value)
                 else cv.imgs[w].value[r])
      {
        if first < e.height {
          ParseChannelsCell(e, cv, first, rec, e.channels, w, r);
        }
      }
    }
  }

  /**
   * Assembling full lines first record i on, when the images already hold what the first i
   * records draw, leaves them holding what all records draw.
   */
  lemma {:induction false} AssembleRows(e: Env, cv: Canvas, recs: seq<seq<int>>, i: nat, prev: int)
    requires e.Valid() && i <= |recs| && AllFull(e, recs)
    requires |cv.buf| == e.width && Shaped(e, cv.imgs)
    requires i < |recs| ==> prev == PrevTarget(e, recs, i)
    requires forall w, r :: 0 <= w < e.channels && 0 <= r < e.height ==>
      cv.imgs[w].value[r] == ExpectedRow(e, recs, i, w, r)
    ensures FitsWhereDrawn(e.channels, e.width, e.height, e.maxLine, recs, i, prev)
    ensures Shaped(e, Assemble(e, cv, recs, i, prev).imgs)
    ensures forall w, r :: 0 <= w < e.channels && 0 <= r < e.height ==>
      Assemble(e, cv, recs, i, prev).imgs[w].value[r] == ExpectedRow(e, recs, |recs|, w, r)
    decreases |recs| - i
  {
    if i < |recs| {
      var rec := recs[i];
      var target := TargetRow(e.height, e.maxLine, rec);
      var next := FillRows(e, cv, rec, prev + 1, target);
      FillRowsRows(e, cv, rec, prev + 1, target);
      forall w, r | 0 <= w < e.channels && 0 <= r < e.height
        ensures next.imgs[w].value[r] == ExpectedRow(e, recs, i + 1, w, r)
      {
        if Covers(e, recs, i, r) && LastChannel(e, rec, w, e.channels).Some? {
          assert LastWriter(e, recs, i + 1, w, r) == Some(i);
        } else {
          assert LastWriter(e, recs, i + 1, w, r) == LastWriter(e, recs, i, w, r);
        }
      }
      AssembleRows(e, next, recs, i + 1, target);
    }
  }

  /**
   * The assembled images, for full lines: row r of image w holds the pixels of the last
   * channel for slot w of the last record drawn on row r that has such a channel, and is
   * blank if no record has. Record i is drawn on the rows after the previous record's
   * target row up to its own target row: a gap is filled with the record after it, a
   * record that repeats the previous line index is drawn nowhere, and rows at or past the
   * height are never drawn.
   */
  lemma AssembleMatchesReference(e: Env, buf: seq<int>, recs: seq<seq<int>>)
    requires e.Valid() && e.height >= 0 && |buf| == e.width
    requires AllFull(e, recs)
    ensures FitsWhereDrawn(e.channels, e.width, e.height, e.maxLine, recs, 0, -1)
    ensures Shaped(e, Assemble(e, Canvas(buf, BlankImages(e)), recs, 0, -1).imgs)
    ensures forall w, r :: 0 <= w < e.channels && 0 <= r < e.height ==>
      Assemble(e, Canvas(buf, BlankImages(e)), recs, 0, -1).imgs[w].value[r] == ExpectedRow(e, recs, |recs|, w, r)
  {
    AssembleRows(e, Canvas(buf, BlankImages(e)), recs, 0, -1);
  }
}
