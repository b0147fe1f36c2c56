/** The segment part of the SLR trailer: Finish cuts the restart indices
    0 .. high (high = num_restarts - 2) into ten adjacent segments of
    width segment_size = high / 10, clamping every end to high, and writes
    one triplet (dividend, divisor, first key) per segment. */
module Segments {
  import opened Coding

  /** segment_len: the number of segments Finish writes. */
  const SEGMENT_COUNT: nat := 10

  /** The segment model is built only above this many restart gaps. */
  const SEGMENT_THRESHOLD: int := 50

  /** Restart indices start .. end of one segment; end = start - 1 for an
      empty one. */
  datatype Segment = Segment(start: int, end: int)

  /** The segment loop of Finish from start s: every segment ends at
      s + w clamped to high, and the next one starts just after it. */
  function SegmentsFrom(high: int, w: int, s: int, count: nat): (r: seq<Segment>)
    ensures |r| == count
    ensures count > 0 ==> r[0].start == s
    decreases count
  {
    if count == 0 then []
    else
      var hi := if s + w > high then high else s + w;
      [Segment(s, hi)] + SegmentsFrom(high, w, hi + 1, count - 1)
  }

  /** The ten segments Finish writes for the given high. */
  function Cut(high: int): (r: seq<Segment>)
    ensures |r| == SEGMENT_COUNT
  {
    SegmentsFrom(high, high / SEGMENT_COUNT, 0, SEGMENT_COUNT)
  }


  /** Every segment ends at its start plus w, clamped to high. */
  predicate Clamped(r: seq<Segment>, high: int, w: int)
  {
    forall i | 0 <= i < |r| :: r[i].end == if r[i].start + w > high then high else r[i].start + w
  }

  /** Each segment starts right after the previous one ends. */
  predicate Consecutive(r: seq<Segment>)
  {
    forall i | 0 <= i < |r| - 1 :: r[i + 1].start == r[i].end + 1
  }

  lemma {:induction false} SegmentsFromShape(high: int, w: int, s: int, count: nat)
    ensures Clamped(SegmentsFrom(high, w, s, count), high, w)
    ensures Consecutive(SegmentsFrom(high, w, s, count))
    decreases count
  {
    if count > 0 {
      var hi := if s + w > high then high else s + w;
      var r, rest := SegmentsFrom(high, w, s, count), SegmentsFrom(high, w, hi + 1, count - 1);
      SegmentsFromShape(high, w, hi + 1, count - 1);
      assert r == [Segment(s, hi)] + rest;
    }
  }

  /** Every start lies within lo .. high + 1, every end at most at high,
      and every divisor end - start within -1 .. w. */
  predicate Bounded(r: seq<Segment>, lo: int, high: int, w: int)
  {
    forall i | 0 <= i < |r| ::
      && lo <= r[i].start <= high + 1
      && r[i].end <= high
      && -1 <= r[i].end - r[i].start <= w
  }

  /** Starting at most one past high with a non-negative width, the
      segments stay Bounded. */
  lemma {:induction false} SegmentsFromBounds(high: int, w: int, s: int, count: nat)
    requires 0 <= s <= high + 1 && 0 <= w
    ensures Bounded(SegmentsFrom(high, w, s, count), s, high, w)
    decreases count
  {
    if count > 0 {
      var hi := if s + w > high then high else s + w;
      var r, rest := SegmentsFrom(high, w, s, count), SegmentsFrom(high, w, hi + 1, count - 1);
      SegmentsFromBounds(high, w, hi + 1, count - 1);
      assert r == [Segment(s, hi)] + rest;
    }
  }

  /** Once the starts have room for count segments of w + 1 indices past
      high, the last segment ends exactly at high. */
  lemma {:induction false} SegmentsFromReachHigh(high: int, w: int, s: int, count: nat, room: int)
    requires 1 <= count && 0 <= w && 0 <= s <= high + 1
    requires room == count * (w + 1) && s + room > high
    ensures SegmentsFrom(high, w, s, count)[count - 1].end == high
    decreases count
  {
    var hi := if s + w > high then high else s + w;
    if count > 1 {
      assert room - (w + 1) == (count - 1) * (w + 1);
      SegmentsFromReachHigh(high, w, hi + 1, count - 1, room - (w + 1));
    }
  }

  /** The segments of Finish partition 0 .. high: the first starts at 0,
      each starts right after the previous end, the last ends at high, and
      every GetKey index (a start or an end) lies within 0 .. high + 1,
      that is inside the restart array of high + 2 entries. */
  lemma CutPartitions(high: int)
    requires high > SEGMENT_THRESHOLD
    ensures var r, w := Cut(high), high / 10;
      && r[0].start == 0
      && r[SEGMENT_COUNT - 1].end == high
      && Consecutive(r)
      && Clamped(r, high, w)
      && Bounded(r, 0, high, w)
      && (forall i | 0 <= i < SEGMENT_COUNT :: 0 <= r[i].end)
  {
    var w := high / 10;
    SegmentsFromShape(high, w, 0, SEGMENT_COUNT);
    SegmentsFromBounds(high, w, 0, SEGMENT_COUNT);
    SegmentsFromReachHigh(high, w, 0, SEGMENT_COUNT, SEGMENT_COUNT * (w + 1));
  }

  /** One step of the segment loop: the segments still to come start with
      the one from s to s + w clamped to high. */
  lemma SegmentsFromStep(high: int, w: int, all: seq<Segment>, done: seq<Segment>, s: int, hi: int, count: nat, rest: nat)
    requires count == rest + 1 && hi == (if s + w > high then high else s + w)
    requires all == done + SegmentsFrom(high, w, s, count)
    ensures all == (done + [Segment(s, hi)]) + SegmentsFrom(high, w, hi + 1, rest)
  {
  }

  /** Every restart index 0 .. high falls in exactly one segment. */
  lemma {:induction false} CutCovers(high: int, x: int)
    requires high > SEGMENT_THRESHOLD && 0 <= x <= high
    ensures exists i :: 0 <= i < SEGMENT_COUNT && Cut(high)[i].start <= x <= Cut(high)[i].end
    ensures forall i, k | 0 <= i < k < SEGMENT_COUNT :: Cut(high)[i].end < Cut(high)[k].start
  {
    var r := Cut(high);
    CutPartitions(high);
    EndsBelowLaterStarts(r);
    var i := 0;
    while r[i].end < x
      invariant 0 <= i < SEGMENT_COUNT && r[i].start <= x
      decreases SEGMENT_COUNT - i
    {
      i := i + 1;
    }
  }

  /** In consecutive segments whose ends never fall more than one below
      their starts, every end lies below every later start. */
  lemma {:induction false} EndsBelowLaterStarts(r: seq<Segment>)
    requires forall i | 0 <= i < |r| - 1 :: r[i + 1].start == r[i].end + 1
    requires forall i | 0 <= i < |r| :: r[i].end >= r[i].start - 1
    ensures forall i, k | 0 <= i < k < |r| :: r[i].end < r[k].start
  {
    forall i, k | 0 <= i < k < |r|
      ensures r[i].end < r[k].start
    {
      var m := i + 1;
      while m < k
        invariant i < m <= k && r[i].end < r[m].start
        decreases k - m
      {
        m := m + 1;
      }
    }
  }

  /** Every segment's endpoints index a key. */
  predicate WithinKeys(segs: seq<Segment>, n: int)
  {
    forall i | 0 <= i < |segs| :: 0 <= segs[i].start < n && 0 <= segs[i].end < n
  }

  /** The words written for one segment: dividend = key(end) - key(start),
      divisor = end - start and the first key, each as a fixed32 of the
      int value. */
  function Triplet(keys: seq<int>, seg: Segment): (r: seq<Byte>)
    requires 0 <= seg.start < |keys| && 0 <= seg.end < |keys|
    ensures |r| == 12
  {
    Fixed32(keys[seg.end] - keys[seg.start]) + Fixed32(seg.end - seg.start) + Fixed32(keys[seg.start])
  }

  /** The triplets of the segments in order. */
  function Triplets(keys: seq<int>, segs: seq<Segment>): (r: seq<Byte>)
    requires WithinKeys(segs, |keys|)
    ensures |r| == 12 * |segs|
  {
    if |segs| == 0 then []
    else Triplets(keys, segs[..|segs| - 1]) + Triplet(keys, segs[|segs| - 1])
  }

  /** One more segment: the triplets of the longer list end with the
      triplet of the new segment. */
  lemma TripletsSnoc(keys: seq<int>, segs: seq<Segment>, seg: Segment)
    requires WithinKeys(segs, |keys|) && 0 <= seg.start < |keys| && 0 <= seg.end < |keys|
    ensures WithinKeys(segs + [seg], |keys|)
    ensures Triplets(keys, segs + [seg]) == Triplets(keys, segs) + Triplet(keys, seg)
  {
    assert (segs + [seg])[..|segs|] == segs;
  }

  /** The state of the segment loop of Finish: done are the segments
      written so far, words their triplets, and the rest of cut are the
      rest segments that start at s. */
  ghost predicate SegmentsSoFar(keys: seq<int>, high: int, w: int, cut: seq<Segment>, done: seq<Segment>, s: int, rest: nat, words: seq<Byte>)
  {
    && |keys| == high + 2 && 0 <= high && 0 <= w && 0 <= s <= high + 1
    && cut == done + SegmentsFrom(high, w, s, rest)
    && WithinKeys(done, |keys|)
    && words == Triplets(keys, done)
  }

  /** Before the first pass nothing is written and all of cut is to come. */
  lemma SegmentsSoFarStart(keys: seq<int>, high: int, w: int, cut: seq<Segment>)
    requires |keys| == high + 2 && 0 <= high && w == high / SEGMENT_COUNT && cut == Cut(|keys| - 2)
    ensures SegmentsSoFar(keys, high, w, cut, [], 0, SEGMENT_COUNT, [])
  {
    assert cut == SegmentsFrom(high, w, 0, SEGMENT_COUNT);
    assert [] + cut == cut;
  }

  /** One pass of the segment loop keeps its state. */
  lemma SegmentsSoFarStep(keys: seq<int>, high: int, w: int, cut: seq<Segment>, done: seq<Segment>, s: int, rest: nat, words: seq<Byte>, hi: int, triplet: seq<Byte>)
    requires SegmentsSoFar(keys, high, w, cut, done, s, rest, words) && rest > 0
    requires hi == (if s + w > high then high else s + w) && triplet == Triplet(keys, Segment(s, hi))
    ensures SegmentsSoFar(keys, high, w, cut, done + [Segment(s, hi)], hi + 1, rest - 1, words + triplet)
  {
    TripletsSnoc(keys, done, Segment(s, hi));
    SegmentsFromStep(high, w, cut, done, s, hi, rest, rest - 1);
  }

  /** A triplet read back word by word gives the dividend, the divisor and
      the first key, each modulo 2^32. */
  lemma TripletWords(keys: seq<int>, seg: Segment)
    requires 0 <= seg.start < |keys| && 0 <= seg.end < |keys|
    ensures var t := Triplet(keys, seg);
      && DecodeFixed32(t, 0) == Wrap32(keys[seg.end] - keys[seg.start])
      && DecodeFixed32(t, 4) == Wrap32(seg.end - seg.start)
      && DecodeFixed32(t, 8) == Wrap32(keys[seg.start])
  {
    var a, b, c := Fixed32(keys[seg.end] - keys[seg.start]), Fixed32(seg.end - seg.start), Fixed32(keys[seg.start]);
    assert Triplet(keys, seg) == a + b + c;
    DecodeFixed32Prefix(a + b, c, 0);
    DecodeFixed32Prefix(a, b, 0);
    DecodeFixed32Prefix(a + b, c, 4);
    DecodeFixed32Suffix(a, b, 0);
    DecodeFixed32Suffix(a + b, c, 0);
  }

  /** Triplet i of the trailer lies at offset 12 * i. */
  lemma {:induction false} TripletsAt(keys: seq<int>, segs: seq<Segment>, i: nat)
    requires WithinKeys(segs, |keys|) && i < |segs|
    ensures Triplets(keys, segs)[12 * i..12 * i + 12] == Triplet(keys, segs[i])
    decreases |segs|
  {
    var front := segs[..|segs| - 1];
    assert WithinKeys(front, |keys|);
    if i < |segs| - 1 {
      TripletsAt(keys, front, i);
      assert segs[i] == front[i];
      assert Triplets(keys, segs)[12 * i..12 * i + 12] == Triplets(keys, front)[12 * i..12 * i + 12];
    } else {
      assert Triplets(keys, segs)[12 * i..] == Triplet(keys, segs[i]);
    }
  }

  /** The trailer read back: word 3i + 0, 1, 2 are the dividend, divisor
      and first key of segment i. */
  lemma TripletsReadBack(keys: seq<int>, segs: seq<Segment>, i: nat)
    requires WithinKeys(segs, |keys|) && i < |segs|
    ensures var t, g := Triplets(keys, segs), segs[i];
      && DecodeFixed32(t, 12 * i) == Wrap32(keys[g.end] - keys[g.start])
      && DecodeFixed32(t, 12 * i + 4) == Wrap32(g.end - g.start)
      && DecodeFixed32(t, 12 * i + 8) == Wrap32(keys[g.start])
  {
    var t, o := Triplets(keys, segs), 12 * i;
    TripletsAt(keys, segs, i);
    TripletWords(keys, segs[i]);
    WordInSlice(t, o, Triplet(keys, segs[i]), 0);
    WordInSlice(t, o, Triplet(keys, segs[i]), 4);
    WordInSlice(t, o, Triplet(keys, segs[i]), 8);
  }

  /** A fixed32 word of a slice w = s[o..o + |w|] reads the same in s. */
  lemma WordInSlice(s: seq<Byte>, o: nat, w: seq<Byte>, k: nat)
    requires o + |w| <= |s| && s[o..o + |w|] == w && k + 4 <= |w|
    ensures DecodeFixed32(s, o + k) == DecodeFixed32(w, k)
  {
    DecodeFixed32Window(s, o, o + |w|, k);
  }

  /** The thirty segment words Finish writes for the restart values keys,
      one per restart point (high = |keys| - 2). */
  function SegmentTrailer(keys: seq<int>): (r: seq<Byte>)
    requires |keys| - 2 > SEGMENT_THRESHOLD
    ensures |r| == 12 * SEGMENT_COUNT
  {
    CutPartitions(|keys| - 2);
    Triplets(keys, Cut(|keys| - 2))
  }

  /** The words written on the path without a segment model: thirty
      zeros. */
  function ZeroWords(count: nat): (r: seq<Byte>)
    ensures |r| == 4 * count
    ensures forall i | 0 <= i < |r| :: r[i] == 0
  {
    if count == 0 then [] else ZeroWords(count - 1) + Fixed32(0)
  }
}
