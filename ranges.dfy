/**
 * Per-channel contrast ranges. A stored line is a record: the line's words followed by its
 * line index as the last element. The channels of a line are interleaved: channel `c`
 * holds the words at positions c, c + channels, c + 2 * channels, ...
 */
module Ranges {
  import opened WordCodec

  /** A stored line: its data words and, last, its line index. */
  predicate Stored(rec: seq<int>) { |rec| >= 1 }

  /** Every record is a stored line. */
  predicate AllStored(recs: seq<seq<int>>) {
    forall j :: 0 <= j < |recs| ==> Stored(recs[j])
  }

  /** The line index of a stored line. */
  function LineOf(rec: seq<int>): int
    requires Stored(rec)
  {
    rec[|rec| - 1]
  }

  /** The number of data words of a stored line (the line index is not one). */
  function Count(rec: seq<int>): nat
    requires Stored(rec)
  {
    |rec| - 1
  }

  /**
   * The intensities of the words at positions i, i + channels, i + 2 * channels, ...
   * below `count`: one channel's sub-stream of a line, from word `i` on.
   */
  function Strided(data: seq<int>, i: nat, count: int, channels: nat): (vs: seq<int>)
    requires channels > 0 && count <= |data|
    ensures (vs == []) == (count <= i)
    ensures i < count ==> vs[0] == Value(data[i])
    decreases count - i
  {
    if i >= count then [] else [Value(data[i])] + Strided(data, i + channels, count, channels)
  }

  /** Every intensity of a sub-stream is a 12-bit value. */
  lemma {:induction false} StridedBounded(data: seq<int>, i: nat, count: int, channels: nat)
    requires channels > 0 && count <= |data|
    ensures forall v :: v in Strided(data, i, count, channels) ==> 0 <= v <= MAX_INTENSITY
    decreases count - i
  {
    if i < count {
      StridedBounded(data, i + channels, count, channels);
    }
  }

  /** The k-th element of a sub-stream is the intensity of word `i + k * channels`. */
  lemma {:induction false} StridedAt(data: seq<int>, i: nat, count: int, channels: nat, k: nat)
    requires channels > 0 && count <= |data|
    requires k < |Strided(data, i, count, channels)|
    ensures i + k * channels < count
    ensures Strided(data, i, count, channels)[k] == Value(data[i + k * channels])
    decreases count - i
  {
    if k > 0 {
      StridedAt(data, i + channels, count, channels, k - 1);
      assert i + channels + (k - 1) * channels == i + k * channels;
    }
  }

  /**
   * A sub-stream has exactly n elements when position i + (n - 1) * channels is below
   * `count` and position i + n * channels is not.
   */
  lemma {:induction false} StridedLength(data: seq<int>, i: nat, count: int, channels: nat, n: nat)
    requires channels > 0 && count <= |data|
    requires i + (n - 1) * channels < count <= i + n * channels
    ensures |Strided(data, i, count, channels)| == n
    decreases n
  {
    if n > 0 {
      assert (i + channels) + (n - 2) * channels == i + (n - 1) * channels;
      assert (i + channels) + (n - 1) * channels == i + n * channels;
      StridedLength(data, i + channels, count, channels, n - 1);
    }
  }

  /** A sub-stream has at most n elements when position i + n * channels is at or past `count`. */
  lemma {:induction false} StridedAtMost(data: seq<int>, i: nat, count: int, channels: nat, n: nat)
    requires channels > 0 && count <= |data|
    requires count <= i + n * channels
    ensures |Strided(data, i, count, channels)| <= n
    decreases n
  {
    if i < count {
      assert (i + channels) + (n - 1) * channels == i + n * channels;
      StridedAtMost(data, i + channels, count, channels, n - 1);
    }
  }

  /** A channel's running range: least and greatest intensity, and the line of the greatest. */
  datatype Range = Range(lo: int, hi: int, hiLine: int)

  /**
   * Folds one intensity into a running range: the least and greatest grow to include it,
   * and the line of the greatest moves exactly when the greatest strictly grows.
   */
  function Record(r: Range, line: int, intensity: int): (r': Range)
    ensures r'.lo <= intensity <= r'.hi
    ensures r'.lo <= r.lo && r'.hi >= r.hi
    ensures r'.lo == r.lo || r'.lo == intensity
    ensures r'.hi == r.hi || r'.hi == intensity
    ensures r'.hiLine == if r'.hi > r.hi then line else r.hiLine
  {
    Range(if intensity < r.lo then intensity else r.lo,
          if intensity > r.hi then intensity else r.hi,
          if intensity > r.hi then line else r.hiLine)
  }

  /** Records the intensities of `vs`, first to last, all with the same line index. */
  function FoldSamples(r: Range, line: int, vs: seq<int>): (r': Range)
    ensures r'.lo <= r.lo && r'.hi >= r.hi
    ensures vs == [] ==> r' == r
    decreases |vs|
  {
    if vs == [] then r else FoldSamples(Record(r, line, vs[0]), line, vs[1..])
  }

  /**
   * After folding a list of intensities, the range covers each of them, its ends are either
   * the old ends or members of the list, and the line of the greatest moved only if the
   * greatest grew, to the given line.
   */
  lemma {:induction false} FoldSamplesSpec(r: Range, line: int, vs: seq<int>)
    ensures FoldSamples(r, line, vs).lo <= r.lo && FoldSamples(r, line, vs).hi >= r.hi
    ensures forall v :: v in vs ==> FoldSamples(r, line, vs).lo <= v <= FoldSamples(r, line, vs).hi
    ensures FoldSamples(r, line, vs).lo == r.lo || FoldSamples(r, line, vs).lo in vs
    ensures || (FoldSamples(r, line, vs).hi == r.hi && FoldSamples(r, line, vs).hiLine == r.hiLine)
            || (FoldSamples(r, line, vs).hi > r.hi && FoldSamples(r, line, vs).hi in vs
                && FoldSamples(r, line, vs).hiLine == line)
    decreases |vs|
  {
    if vs != [] {
      var r1 := Record(r, line, vs[0]);
      FoldSamplesSpec(r1, line, vs[1..]);
      assert vs == [vs[0]] + vs[1..];
    }
  }

  /**
   * rangeLine: every channel folds its own sub-stream of the line into its range; the
   * channels do not touch each other's entries.
   */
  function RangeLine(rs: seq<Range>, line: int, data: seq<int>, count: int, channels: nat): (rs': seq<Range>)
    requires |rs| == channels && count <= |data|
    ensures |rs'| == channels
    ensures forall c :: 0 <= c < channels ==> rs'[c].lo <= rs[c].lo && rs'[c].hi >= rs[c].hi
  {
    seq(channels, c requires 0 <= c < channels => FoldSamples(rs[c], line, Strided(data, c, count, channels)))
  }

  /** The line index before record i: that of record i - 1, or -1 before the first. */
  function PrevLine(recs: seq<seq<int>>, i: nat): int
    requires i < |recs| && AllStored(recs)
  {
    if i == 0 then -1 else LineOf(recs[i - 1])
  }

  /** A record is ranged unless it repeats the line index of the record just before it. */
  predicate Retained(recs: seq<seq<int>>, i: nat)
    requires i < |recs| && AllStored(recs)
  {
    LineOf(recs[i]) != PrevLine(recs, i)
  }

  /** The ranges after folding in the retained records among the first n. */
  function RangeOver(rs: seq<Range>, recs: seq<seq<int>>, n: nat, channels: nat): (rs': seq<Range>)
    requires |rs| == channels && n <= |recs| && AllStored(recs)
    ensures |rs'| == channels
    ensures forall c :: 0 <= c < channels ==> rs'[c].lo <= rs[c].lo && rs'[c].hi >= rs[c].hi
  {
    if n == 0 then rs
    else
      var prior := RangeOver(rs, recs, n - 1, channels);
      var rec := recs[n - 1];
      if Retained(recs, n - 1) then RangeLine(prior, LineOf(rec), rec, Count(rec), channels) else prior
  }

  /** Channel c's intensities in the retained records among the first n, in order. */
  function RangedValues(recs: seq<seq<int>>, n: nat, c: nat, channels: nat): (vs: seq<int>)
    requires c < channels && n <= |recs| && AllStored(recs)
    ensures forall v :: v in vs ==> 0 <= v <= MAX_INTENSITY
  {
    if n == 0 then []
    else
      var rec := recs[n - 1];
      StridedBounded(rec, c, Count(rec), channels);
      RangedValues(recs, n - 1, c, channels)
        + if Retained(recs, n - 1) then Strided(rec, c, Count(rec), channels) else []
  }

  /**
   * Folding records gives each channel a range that covers all of its ranged intensities,
   * with ends that are either the starting ends or ranged intensities; the line of the
   * greatest is kept, or is the line index of a retained record whose own sub-stream for
   * the channel holds the greatest.
   * Records that repeat their predecessor's line index contribute nothing.
   */
  lemma {:induction false} RangeOverSpec(rs: seq<Range>, recs: seq<seq<int>>, n: nat, channels: nat, c: nat)
    requires |rs| == channels && n <= |recs| && AllStored(recs)
    requires c < channels
    ensures RangeOver(rs, recs, n, channels)[c].lo <= rs[c].lo
    ensures RangeOver(rs, recs, n, channels)[c].hi >= rs[c].hi
    ensures forall v :: v in RangedValues(recs, n, c, channels) ==>
      RangeOver(rs, recs, n, channels)[c].lo <= v <= RangeOver(rs, recs, n, channels)[c].hi
    ensures RangeOver(rs, recs, n, channels)[c].lo == rs[c].lo
         || RangeOver(rs, recs, n, channels)[c].lo in RangedValues(recs, n, c, channels)
    ensures RangeOver(rs, recs, n, channels)[c].hi == rs[c].hi
         || RangeOver(rs, recs, n, channels)[c].hi in RangedValues(recs, n, c, channels)
    ensures || (RangeOver(rs, recs, n, channels)[c].hi == rs[c].hi
                && RangeOver(rs, recs, n, channels)[c].hiLine == rs[c].hiLine)
            || (RangeOver(rs, recs, n, channels)[c].hi > rs[c].hi
                && exists i :: 0 <= i < n && Retained(recs, i)
                               && RangeOver(rs, recs, n, channels)[c].hiLine == LineOf(recs[i])
                               && RangeOver(rs, recs, n, channels)[c].hi in Strided(recs[i], c, Count(recs[i]), channels))
  {
    if n > 0 {
      RangeOverSpec(rs, recs, n - 1, channels, c);
      var prior := RangeOver(rs, recs, n - 1, channels);
      var before := RangedValues(recs, n - 1, c, channels);
      var rec := recs[n - 1];
      var vs := RangedValues(recs, n, c, channels);
      if Retained(recs, n - 1) {
        var s := Strided(rec, c, Count(rec), channels);
        FoldSamplesSpec(prior[c], LineOf(rec), s);
        var f := FoldSamples(prior[c], LineOf(rec), s);
        assert RangeOver(rs, recs, n, channels)[c] == f;
        assert vs == before + s;
        forall v | v in vs
          ensures f.lo <= v <= f.hi
        {
          if v in before {
            assert prior[c].lo <= v <= prior[c].hi;
          }
        }
        if f.hi > prior[c].hi {
          assert f.hiLine == LineOf(recs[n - 1]) && f.hi in s;
        }
      } else {
        assert RangeOver(rs, recs, n, channels) == prior;
        assert vs == before;
      }
    }
  }

  /** The ranges rangeImages starts from: least 4095, greatest 0, line of the greatest kept. */
  function Reset(rs: seq<Range>): (rs': seq<Range>)
    ensures |rs'| == |rs|
    ensures forall c :: 0 <= c < |rs| ==> rs'[c].lo == MAX_INTENSITY && rs'[c].hi == 0
  {
    seq(|rs|, c requires 0 <= c < |rs| => Range(MAX_INTENSITY, 0, rs[c].hiLine))
  }

  /**
   * From the reset ranges, folding records gives each channel exactly the least and the
   * greatest of its ranged intensities, or 4095 and 0 when it has none.
   */
  lemma ResetRangeIsMinMax(rs: seq<Range>, recs: seq<seq<int>>, n: nat, channels: nat, c: nat)
    requires |rs| == channels && n <= |recs| && AllStored(recs)
    requires c < channels
    ensures forall v :: v in RangedValues(recs, n, c, channels) ==>
      RangeOver(Reset(rs), recs, n, channels)[c].lo <= v <= RangeOver(Reset(rs), recs, n, channels)[c].hi
    ensures RangedValues(recs, n, c, channels) == [] ==>
      RangeOver(Reset(rs), recs, n, channels)[c].lo == MAX_INTENSITY
      && RangeOver(Reset(rs), recs, n, channels)[c].hi == 0
    ensures RangedValues(recs, n, c, channels) != [] ==>
      RangeOver(Reset(rs), recs, n, channels)[c].lo in RangedValues(recs, n, c, channels)
      && RangeOver(Reset(rs), recs, n, channels)[c].hi in RangedValues(recs, n, c, channels)
  {
    var start := Reset(rs);
    RangeOverSpec(start, recs, n, channels, c);
    var f := RangeOver(start, recs, n, channels)[c];
    var vs := RangedValues(recs, n, c, channels);
    assert start[c].lo == MAX_INTENSITY && start[c].hi == 0;
    if vs != [] {
      var v0 := vs[0];
      assert v0 in vs;
      assert f.lo <= v0 <= f.hi && 0 <= v0 <= MAX_INTENSITY;
      assert f.lo == MAX_INTENSITY ==> v0 == f.lo;
      assert f.hi == 0 ==> v0 == f.hi;
    }
  }
}
