/** BlockBuilder: the object that accumulates prefix-compressed entries in
    buffer_, records restart points in restarts_ and, on Finish, appends
    the trailer. Add and Reset are shared by the three revisions;
    FinishSegmented and SegmentedSizeEstimate are Finish and
    CurrentSizeEstimate of the two SLR revisions (table and
    tablebup0516pagi), FinishTwoKey and TwoKeySizeEstimate those of
    table_bup_0511. Every state the builder reaches before Finish is the
    image Build computes from the pairs added since construction or the
    last Reset. */
module Builder {
  import opened Wrappers
  import opened Coding
  import opened Keys
  import opened Entry
  import opened Layout
  import opened Segments
  import opened TwoKey

  /** Whether Finish builds the segment model: SLR is on and there are more
      than fifty restart gaps. */
  function SegmentModelBuilt(slr: bool, restartCount: nat): (r: bool)
    ensures r <==> slr && restartCount >= 53
  {
    slr && restartCount - 2 > SEGMENT_THRESHOLD
  }

  /** res in Finish: the buffer length after the restart array plus meta
      words, minus meta words and restart words, all in uint32_t
      arithmetic, is the length of the entry data, whatever the number of
      meta words. */
  lemma DataRegionOffset(bufferLength: nat, dataLength: nat, restartCount: nat, meta: nat, helper: U32, res: U32)
    requires dataLength < TWO32 && bufferLength == dataLength + 4 * restartCount
    requires helper == Wrap32(bufferLength + 4 * meta) && res == Wrap32(helper - (meta + restartCount) * 4)
    ensures res == dataLength
  {
    var x := bufferLength + 4 * meta;
    var k := x / TWO32;
    assert Wrap32(x) == x - k * TWO32;
    assert Wrap32(x) - (meta + restartCount) * 4 == dataLength - k * TWO32;
  }

  /** With at least 32 meta words the SLR revisions' size estimate is at
      least the finished size: the data, four bytes per restart and 128
      trailer bytes. */
  lemma EstimateCoversFinished(dataLength: nat, restartCount: nat, meta: nat)
    requires restartCount >= 1 && meta >= 32
    ensures dataLength + restartCount * (4 * meta) + 4 >= dataLength + 4 * restartCount + 128
  {
    assert restartCount * (4 * meta) == restartCount * 128 + Product(restartCount, 4 * (meta - 32));
  }

  /** CurrentSizeEstimate of the SLR revisions for a builder holding img:
      the data, new_meta_size words per restart point and one word. */
  function SegmentedEstimate(img: Image, meta: nat): (r: nat)
    ensures meta >= 32 && |img.restarts| >= 1 ==> r >= |img.data + RestartArray(img.restarts)| + 128
  {
    if meta >= 32 && |img.restarts| >= 1 then
      EstimateCoversFinished(|img.data|, |img.restarts|, meta);
      |img.data| + |img.restarts| * (4 * meta) + 4
    else
      |img.data| + |img.restarts| * (4 * meta) + 4
  }

  /** CurrentSizeEstimate of table_bup_0511: the data, one word per
      restart point and three words. */
  function TwoKeyEstimate(img: Image): (r: nat)
    ensures r == |img.data + RestartArray(img.restarts)| + 12
  {
    |img.data| + 4 * |img.restarts| + 12
  }

  /** Every Add makes both size estimates grow: the data grows and no
      restart point is dropped. */
  lemma EstimatesGrow(img: Image, interval: nat, kv: KV, meta: nat)
    ensures SegmentedEstimate(AddStep(img, interval, kv), meta) > SegmentedEstimate(img, meta)
    ensures TwoKeyEstimate(AddStep(img, interval, kv)) > TwoKeyEstimate(img)
  {
    var next := AddStep(img, interval, kv);
    assert |next.restarts| * (4 * meta) >= |img.restarts| * (4 * meta) by {
      assert |next.restarts| * (4 * meta) == |img.restarts| * (4 * meta) + Product(|next.restarts| - |img.restarts|, 4 * meta);
    }
  }

  /** The loop of Add that counts the bytes the new key shares with the
      last key. */
  method SharedPrefixLength(lastKey: seq<Byte>, key: seq<Byte>) returns (shared: nat)
    ensures shared == CommonPrefixLength(lastKey, key)
    ensures lastKey[..shared] == key[..shared]
  {
    var minLength := if |lastKey| < |key| then |lastKey| else |key|;
    shared := 0;
    while shared < minLength && lastKey[shared] == key[shared]
      invariant shared <= minLength
      invariant lastKey[..shared] == key[..shared]
      decreases minLength - shared
    {
      shared := shared + 1;
    }
    CommonPrefixLengthUnique(lastKey, key, shared);
  }

  /** A builder's state before Finish: the image of the pairs added, whose
      keys are strictly increasing. */
  ghost predicate Accumulated(interval: nat, entries: seq<KV>, img: Image)
  {
    img == Build(interval, entries) && StrictlyIncreasing(entries)
  }

  /** The state Add computes is the image of the pairs with the new one
      appended, and the keys stay strictly increasing. */
  lemma AddPreservesBuild(interval: nat, prev: seq<KV>, before: Image, kv: KV, shared: nat, after: Image)
    requires Accumulated(interval, prev, before) && before.counter <= interval
    requires |before.data| == 0 || Less(before.lastKey, kv.key)
    requires before.counter < interval ==> shared == CommonPrefixLength(before.lastKey, kv.key)
    requires before.counter == interval ==> shared == 0
    requires shared <= |kv.key| && shared <= |before.lastKey|
    requires after == Image(
      before.data + EncodeEntry(shared, kv.key[shared..], kv.value),
      if before.counter < interval then before.restarts else before.restarts + [Wrap32(|before.data|)],
      (if before.counter < interval then before.counter else 0) + 1,
      before.lastKey[..shared] + kv.key[shared..])
    ensures after == AddStep(before, interval, kv)
    ensures Accumulated(interval, prev + [kv], after)
  {
    AddStepParts(before, interval, kv, shared);
    AddExtendsBuild(interval, prev, kv);
  }

  /** AddStep written out the way Add computes it: shared is the common
      prefix below the interval and 0 at a restart. */
  lemma AddStepParts(before: Image, interval: nat, kv: KV, shared: nat)
    requires before.counter <= interval
    requires before.counter < interval ==> shared == CommonPrefixLength(before.lastKey, kv.key)
    requires before.counter == interval ==> shared == 0
    ensures shared <= |kv.key| && shared <= |before.lastKey|
    ensures before.lastKey[..shared] + kv.key[shared..] == kv.key
    ensures AddStep(before, interval, kv) == Image(
      before.data + EncodeEntry(shared, kv.key[shared..], kv.value),
      if before.counter < interval then before.restarts else before.restarts + [Wrap32(|before.data|)],
      (if before.counter < interval then before.counter else 0) + 1,
      kv.key)
  {
    assert kv.key == kv.key[..shared] + kv.key[shared..];
  }

  /** One more pair extends the built image by one AddStep, and a key
      above the last one keeps the keys strictly increasing. */
  lemma AddExtendsBuild(interval: nat, prev: seq<KV>, kv: KV)
    requires StrictlyIncreasing(prev)
    requires |Build(interval, prev).data| == 0 || Less(Build(interval, prev).lastKey, kv.key)
    ensures Build(interval, prev + [kv]) == AddStep(Build(interval, prev), interval, kv)
    ensures StrictlyIncreasing(prev + [kv])
  {
    assert (prev + [kv])[..|prev|] == prev;
  }

  /** GetKey(pos).value on a restart array whose keys all parse. */
  method ReadRestartKey(block: seq<Byte>, res: nat, pos: nat, ghost keys: seq<int>) returns (value: int)
    requires KeysRead(block, res, keys) && pos < |keys|
    ensures value == keys[pos]
  {
    value := GetKey(block, res, pos).value;
  }

  /** One pass of the segment loop of Finish: the segment from s to
      s + segment_size, clamped to high, and its three words read through
      GetKey from the restart array at res. */
  method NextSegment(block: seq<Byte>, res: nat, high: int, segmentSize: int, s: int, ghost keys: seq<int>) returns (hi: int, triplet: seq<Byte>)
    requires KeysRead(block, res, keys) && |keys| == high + 2 && 0 <= s <= high + 1 && high >= 0 && segmentSize >= 0
    ensures hi == if s + segmentSize > high then high else s + segmentSize
    ensures 0 <= hi < |keys| && triplet == Triplet(keys, Segment(s, hi))
  {
    hi := s + segmentSize;
    var firstKey := ReadRestartKey(block, res, s, keys);
    if hi > high {
      hi := high;
    }
    var lastKeyValue := ReadRestartKey(block, res, hi, keys);
    triplet := Fixed32(lastKeyValue - firstKey) + Fixed32(hi - s) + Fixed32(firstKey);
    ghost var segment := Segment(s, hi);
    assert segment.start == s && segment.end == hi;
    assert Triplet(keys, segment) == triplet;
  }

  /** The segment loop of Finish over the restart array at res in block:
      segment_size = high / segment_len; every segment runs from s to
      s + segment_size clamped to high, its first and last keys come from
      GetKey, and dividend, divisor and first key are appended. */
  method SegmentWords(block: seq<Byte>, res: nat, high: int, ghost keys: seq<int>) returns (words: seq<Byte>, segmentSize: int)
    requires high > SEGMENT_THRESHOLD && |keys| == high + 2 && KeysRead(block, res, keys)
    ensures segmentSize == high / SEGMENT_COUNT
    ensures words == SegmentTrailer(keys)
  {
    var low := 0;
    segmentSize := (high - low) / SEGMENT_COUNT;
    var s := low;
    var seg := 1;
    ghost var done: seq<Segment> := [];
    ghost var rest: nat := SEGMENT_COUNT;
    ghost var cut := Cut(|keys| - 2);
    SegmentsSoFarStart(keys, high, segmentSize, cut);
    words := [];
    while seg <= SEGMENT_COUNT
      invariant 1 <= seg <= SEGMENT_COUNT + 1 && rest == SEGMENT_COUNT + 1 - seg
      invariant SegmentsSoFar(keys, high, segmentSize, cut, done, s, rest, words)
    {
      var hi, triplet := NextSegment(block, res, high, segmentSize, s, keys);
      SegmentsSoFarStep(keys, high, segmentSize, cut, done, s, rest, words, hi, triplet);
      words := words + triplet;
      seg := seg + 1;
      rest := rest - 1;
      done := done + [Segment(s, hi)];
      s := hi + 1;
    }
    assert done == cut;
  }

  /** On a block the builder wrote, data then restart array, GetKey on
      the restart array (the last four bytes per restart) reads the value
      of every restart key. */
  lemma BuiltKeysRead(img: Image, buffer: seq<Byte>, interval: nat, entries: seq<KV>)
    requires interval >= 1 && Accumulated(interval, entries, img)
    requires |img.data| < TWO32 && |img.restarts| > 1 && buffer == img.data + RestartArray(img.restarts)
    requires RestartKeysParse(interval, entries)
    ensures |entries| > 0
    ensures && |RestartValues(interval, entries)| == |img.restarts| && 4 * |img.restarts| <= |buffer| < TWO32 + 4 * |img.restarts|
      && KeysRead(buffer, |buffer| - 4 * |img.restarts|, RestartValues(interval, entries))
  {
    assert |entries| > 0;
    GetKeysOfBuilt(interval, entries, buffer, |img.data|);
  }

  /** body and the last word read back from body followed by two words. */
  lemma LastTwoWords(body: seq<Byte>, words: seq<Byte>, a: seq<Byte>, b: seq<Byte>)
    requires |a| == 4 && |b| == 4
    ensures body + (words + a + b) == body + words + a + b
    ensures var s := body + words + a + b;
      && |s| == |body| + |words| + 8 && s[..|s| - 8] == body + words && s[|s| - 4..] == b
  {
  }

  /** The last three words after body, and body itself, read back from
      body followed by the words. */
  lemma TrailingWords(body: seq<Byte>, a: seq<Byte>, b: seq<Byte>, c: seq<Byte>)
    requires |a| == 4 && |b| == 4 && |c| == 4
    ensures body + (a + b + c) == body + a + b + c
    ensures var s := body + a + b + c;
      && |s| == |body| + 12 && s[..|s| - 12] == body
      && s[|s| - 12..|s| - 8] == a && s[|s| - 8..|s| - 4] == b && s[|s| - 4..] == c
  {
  }

  /** The else branch of the segmentation: ten times three zero words. */
  method ZeroSegmentWords() returns (words: seq<Byte>)
    ensures words == ZeroWords(3 * SEGMENT_COUNT)
  {
    words := [];
    var seg := 1;
    while seg <= SEGMENT_COUNT
      invariant 1 <= seg <= SEGMENT_COUNT + 1
      invariant words == ZeroWords(3 * (seg - 1))
    {
      words := words + Fixed32(0) + Fixed32(0) + Fixed32(0);
      seg := seg + 1;
    }
  }

  /** The thirty words of Finish after the restart array, with the
      segment_size it computes: the segment triplets when the segment
      model is built, thirty zero words otherwise (segment_size is then
      uninitialised). buffer is the data followed by the restart array of
      restartCount words; keys are the values GetKey reads from it. */
  method SegmentedTrailer(buffer: seq<Byte>, restartCount: nat, slr: bool, newMetaSize: nat, ghost keys: seq<int>)
    returns (words: seq<Byte>, segmentSize: int)
    requires 4 * restartCount <= |buffer| < TWO32 + 4 * restartCount
    requires SegmentModelBuilt(slr, restartCount) ==>
      |keys| == restartCount && KeysRead(buffer, |buffer| - 4 * restartCount, keys)
    ensures SegmentModelBuilt(slr, restartCount) ==>
      && segmentSize == (restartCount - 2) / SEGMENT_COUNT
      && words == SegmentTrailer(keys)
    ensures !SegmentModelBuilt(slr, restartCount) ==> words == ZeroWords(3 * SEGMENT_COUNT)
  {
    segmentSize := *;
    var high := restartCount - 2;
    if high > SEGMENT_THRESHOLD && slr {
      var helper := Wrap32(|buffer| + 4 * newMetaSize);
      var res := Wrap32(helper - (newMetaSize + restartCount) * 4);
      DataRegionOffset(|buffer|, |buffer| - 4 * restartCount, restartCount, newMetaSize, helper, res);
      words, segmentSize := SegmentWords(buffer, res, high, keys);
    } else {
      words := ZeroSegmentWords();
    }
  }

  /** skey_i_low and diff as the table_bup_0511 Finish computes them from
      the restart values keys of a block with n restarts: above fifty
      restart gaps skey_i_low is the uint32_t value of the key of restart
      0, rescaled when both it and the one of restart high (n - 2) are
      nonzero, and diff is then their difference. Otherwise both are
      uninitialised and nothing is said of them. */
  predicate TwoKeyWords(keys: seq<int>, n: nat, skeyLow: U32, diff: U32)
  {
    n - 2 > SEGMENT_THRESHOLD ==>
      && |keys| == n
      && var low, high := Wrap32(keys[0]), Wrap32(keys[n - 2]);
         && skeyLow == (if low != 0 && high != 0 then Rescale(low, high).0 else low)
         && (low != 0 && high != 0 ==> diff == Diff(low, high))
  }

  /** skey_i_low and diff of the table_bup_0511 Finish. Above fifty restart
      gaps the keys of restart 0 and restart high are read from the
      restart array and converted to uint32_t; when both are nonzero, the
      one with fewer decimal digits is rescaled and diff is their
      difference. Both words are uninitialised otherwise. buffer is the
      data followed by the restart array of restartCount words; keys are
      the values read from it. */
  method TwoKeyTrailer(buffer: seq<Byte>, restartCount: nat, ghost keys: seq<int>)
    returns (skeyLow: U32, diff: U32)
    requires 4 * restartCount <= |buffer| < TWO32 + 4 * restartCount
    requires restartCount - 2 > SEGMENT_THRESHOLD ==>
      |keys| == restartCount && KeysRead(buffer, |buffer| - 4 * restartCount, keys)
    ensures TwoKeyWords(keys, restartCount, skeyLow, diff)
  {
    skeyLow, diff := *, *;
    var helper := Wrap32(|buffer| + 4 + 4 + 4);
    var res := Wrap32(helper - (3 + restartCount) * 4);
    var low := 0;
    var high := restartCount - 2;
    if high > SEGMENT_THRESHOLD {
      DataRegionOffset(|buffer|, |buffer| - 4 * restartCount, restartCount, 3, helper, res);
      var first := ReadRestartKey(buffer, res, low, keys);
      var last := ReadRestartKey(buffer, res, high, keys);
      skeyLow := Wrap32(first);
      var skeyHigh := Wrap32(last);
      if skeyLow != 0 && skeyHigh != 0 {
        skeyLow, skeyHigh := Rescale(skeyLow, skeyHigh).0, Rescale(skeyLow, skeyHigh).1;
        diff := Wrap32(skeyHigh - skeyLow);
      }
    }
  }

  /** The block Finish of the SLR revisions returns for the image img of
      entries: the data, the restart array, the ten segment triplets of the
      restart values when the segment model is built (thirty zero words
      otherwise), segment_size + 1 and num_restarts. On the zero path
      segment_size is uninitialised, so that word is left open. */
  ghost function SegmentedFinished(interval: nat, entries: seq<KV>, slr: bool, img: Image, block: seq<Byte>): (r: bool)
    requires interval >= 1 && Accumulated(interval, entries, img) && |img.data| < TWO32
    ensures r ==> |block| == |img.data| + 4 * |img.restarts| + 128
    ensures r && (SegmentModelBuilt(slr, |img.restarts|) ==> RestartKeysParse(interval, entries)) ==>
      block[..|img.data|] == img.data && DecodeFixed32(block, |block| - 4) == Wrap32(|img.restarts|)
  {
    var n := |img.restarts|;
    && |block| == |img.data| + 4 * n + 128
    && (SegmentModelBuilt(slr, n) && RestartKeysParse(interval, entries) ==>
        && |entries| > 0
        && block == img.data + RestartArray(img.restarts) + SegmentTrailer(RestartValues(interval, entries))
                    + Fixed32((n - 2) / SEGMENT_COUNT + 1) + Fixed32(n))
    && (!SegmentModelBuilt(slr, n) ==>
        && block[..|block| - 8] == img.data + RestartArray(img.restarts) + ZeroWords(3 * SEGMENT_COUNT)
        && block[|block| - 4..] == Fixed32(n))
    && (SegmentModelBuilt(slr, n) && RestartKeysParse(interval, entries) ==>
        var front := img.data + RestartArray(img.restarts) + SegmentTrailer(RestartValues(interval, entries))
                     + Fixed32((n - 2) / SEGMENT_COUNT + 1);
        PrefixOfAppends(img.data, RestartArray(img.restarts), SegmentTrailer(RestartValues(interval, entries)),
                        Fixed32((n - 2) / SEGMENT_COUNT + 1));
        Framed(block, front, img.data, n);
        true)
    && (!SegmentModelBuilt(slr, n) ==>
        (PrefixOfAppends(img.data, RestartArray(img.restarts), ZeroWords(3 * SEGMENT_COUNT), []);
         Framed(block, block[..|block| - 8], img.data, n);
         true))
  }

  /** data is a prefix of data followed by a, b and c. */
  lemma PrefixOfAppends(data: seq<Byte>, a: seq<Byte>, b: seq<Byte>, c: seq<Byte>)
    ensures (data + a + b)[..|data|] == data && (data + a + b + c)[..|data|] == data
  {
    assert (data + a + b)[..|data|] == (data + a)[..|data|];
    assert (data + a + b + c)[..|data|] == (data + a + b)[..|data|];
  }

  /** A block that begins with front, which begins with data, and ends
      with the word n begins with data and its last word reads back n. */
  lemma Framed(block: seq<Byte>, front: seq<Byte>, data: seq<Byte>, n: nat)
    requires |front| + 4 <= |block| && block[..|front|] == front
    requires |data| <= |front| && front[..|data|] == data
    requires block[|block| - 4..] == Fixed32(n)
    ensures block[..|data|] == data && DecodeFixed32(block, |block| - 4) == Wrap32(n)
  {
    assert block[..|data|] == front[..|data|];
    DecodeFixed32At(block, |block| - 4, n);
  }

  /** The block Finish of table_bup_0511 returns for the image img of
      entries: the data, the restart array, skey_i_low, diff and
      num_restarts. Above fifty restart gaps skey_i_low is the uint32_t
      value of the key of restart 0, rescaled when both it and the one of
      restart high are nonzero, and diff is then their difference; the two
      words are uninitialised otherwise. */
  ghost function TwoKeyFinished(interval: nat, entries: seq<KV>, img: Image, block: seq<Byte>): (r: bool)
    requires interval >= 1 && Accumulated(interval, entries, img) && |img.data| < TWO32
    ensures r ==> |block| == |img.data| + 4 * |img.restarts| + 12
    ensures r ==> block[..|img.data|] == img.data && DecodeFixed32(block, |block| - 4) == Wrap32(|img.restarts|)
  {
    var n := |img.restarts|;
    && |block| == |img.data| + 4 * n + 12
    && block[..|block| - 12] == img.data + RestartArray(img.restarts)
    && block[|block| - 4..] == Fixed32(n)
    && (n - 2 > SEGMENT_THRESHOLD && RestartKeysParse(interval, entries) ==>
        && |entries| > 0
        && var keys := RestartValues(interval, entries);
           var low, high := Wrap32(keys[0]), Wrap32(keys[n - 2]);
           && block[|block| - 12..|block| - 8] == Fixed32(if low != 0 && high != 0 then Rescale(low, high).0 else low)
           && (low != 0 && high != 0 ==> block[|block| - 8..|block| - 4] == Fixed32(Diff(low, high))))
    && (Framed(block, block[..|block| - 12], img.data, n); true)
  }

  /** What Finish of the SLR revisions appends after the restart array:
      buffer is the data of img followed by its restart array. */
  method SegmentedTail(buffer: seq<Byte>, restartCount: nat, slr: bool, newMetaSize: nat, ghost interval: nat, ghost entries: seq<KV>, ghost img: Image)
    returns (tail: seq<Byte>)
    requires interval >= 1 && Accumulated(interval, entries, img) && |img.data| < TWO32
    requires buffer == img.data + RestartArray(img.restarts) && restartCount == |img.restarts|
    requires SegmentModelBuilt(slr, restartCount) ==> RestartKeysParse(interval, entries)
    ensures SegmentedFinished(interval, entries, slr, img, buffer + tail)
  {
    ghost var keys: seq<int> := [];
    if SegmentModelBuilt(slr, restartCount) {
      BuiltKeysRead(img, buffer, interval, entries);
      keys := RestartValues(interval, entries);
    }
    var words, segmentSize := SegmentedTrailer(buffer, restartCount, slr, newMetaSize, keys);
    LastTwoWords(buffer, words, Fixed32(segmentSize + 1), Fixed32(restartCount));
    tail := words + Fixed32(segmentSize + 1) + Fixed32(restartCount);
  }

  /** What Finish of table_bup_0511 appends after the restart array: buffer
      is the data of img followed by its restart array. */
  method TwoKeyTail(buffer: seq<Byte>, restartCount: nat, ghost interval: nat, ghost entries: seq<KV>, ghost img: Image)
    returns (tail: seq<Byte>)
    requires interval >= 1 && Accumulated(interval, entries, img) && |img.data| < TWO32
    requires buffer == img.data + RestartArray(img.restarts) && restartCount == |img.restarts|
    requires restartCount - 2 > SEGMENT_THRESHOLD ==> RestartKeysParse(interval, entries)
    ensures TwoKeyFinished(interval, entries, img, buffer + tail)
  {
    ghost var keys: seq<int> := [];
    if restartCount - 2 > SEGMENT_THRESHOLD {
      BuiltKeysRead(img, buffer, interval, entries);
      keys := RestartValues(interval, entries);
    }
    var skeyLow, diff := TwoKeyTrailer(buffer, restartCount, keys);
    tail := Fixed32(skeyLow) + Fixed32(diff) + Fixed32(restartCount);
    TwoKeyTailFinished(interval, entries, img, buffer, keys, skeyLow, diff);
  }

  /** The three words skey_i_low, diff and num_restarts after the restart
      array make the block TwoKeyFinished describes. */
  lemma TwoKeyTailFinished(interval: nat, entries: seq<KV>, img: Image, buffer: seq<Byte>, keys: seq<int>, skeyLow: U32, diff: U32)
    requires interval >= 1 && Accumulated(interval, entries, img) && |img.data| < TWO32
    requires buffer == img.data + RestartArray(img.restarts)
    requires |img.restarts| - 2 > SEGMENT_THRESHOLD && RestartKeysParse(interval, entries) ==>
      |entries| > 0 && keys == RestartValues(interval, entries)
    requires TwoKeyWords(keys, |img.restarts|, skeyLow, diff)
    ensures TwoKeyFinished(interval, entries, img, buffer + (Fixed32(skeyLow) + Fixed32(diff) + Fixed32(|img.restarts|)))
  {
    TrailingWords(buffer, Fixed32(skeyLow), Fixed32(diff), Fixed32(|img.restarts|));
  }

  class BlockBuilder {
    /** options_->block_restart_interval */
    const interval: nat
    /** SLR: build the segment model */
    const slr: bool
    /** new_meta_size: meta words per restart in the size estimate */
    const newMetaSize: nat

    var buffer: seq<Byte>
    var restarts: seq<U32>
    var counter: nat
    var finished: bool
    var lastKey: seq<Byte>
    /** The pairs added since construction or the last Reset. */
    ghost var entries: seq<KV>

    /** Before Finish the fields are the image of the pairs added, whose
        keys are strictly increasing. */
    ghost predicate Valid()
      reads this
    {
      && interval >= 1
      && |restarts| >= 1
      && (!finished ==> Accumulated(interval, entries, Image(buffer, restarts, counter, lastKey)))
    }

    constructor(interval: nat, slr: bool, newMetaSize: nat)
      requires interval >= 1
      ensures this.interval == interval && this.slr == slr && this.newMetaSize == newMetaSize
      ensures Valid() && !finished && entries == []
      ensures Image(buffer, restarts, counter, lastKey) == Empty()
    {
      this.interval := interval;
      this.slr := slr;
      this.newMetaSize := newMetaSize;
      buffer := [];
      restarts := [0];
      counter := 0;
      finished := false;
      lastKey := [];
      entries := [];
    }

    /** Back to the state of a new builder. */
    method Reset()
      requires Valid()
      modifies this
      ensures Valid() && !finished && entries == []
      ensures Image(buffer, restarts, counter, lastKey) == Empty()
    {
      buffer := [];
      restarts := [0];
      counter := 0;
      finished := false;
      lastKey := [];
      entries := [];
    }

    /** CurrentSizeEstimate of the SLR revisions. */
    function SegmentedSizeEstimate(): (r: nat)
      reads this
      ensures newMetaSize >= 32 && |restarts| >= 1 ==> r >= |buffer + RestartArray(restarts)| + 128
    {
      SegmentedEstimate(Image(buffer, restarts, counter, lastKey), newMetaSize)
    }

    /** CurrentSizeEstimate of table_bup_0511. */
    function TwoKeySizeEstimate(): (r: nat)
      reads this
      ensures r == |buffer + RestartArray(restarts)| + 12
    {
      TwoKeyEstimate(Image(buffer, restarts, counter, lastKey))
    }

    /** Add(key, value): the entry is prefix-compressed against the last
        key below the restart interval; at the interval the current
        offset becomes a restart point and the key is stored whole. */
    method Add(key: seq<Byte>, value: seq<Byte>)
      requires Valid() && !finished && counter <= interval
      requires |buffer| == 0 || Less(lastKey, key)
      requires |key| < TWO32 && |value| < TWO32
      modifies this
      ensures Valid() && !finished
      ensures Image(buffer, restarts, counter, lastKey) == AddStep(old(Image(buffer, restarts, counter, lastKey)), interval, KV(key, value))
      ensures entries == old(entries) + [KV(key, value)]
      ensures lastKey == key
    {
      var shared := 0;
      var newRestarts, newCounter := restarts, counter;
      if counter < interval {
        shared := SharedPrefixLength(lastKey, key);
      } else {
        newRestarts := restarts + [Wrap32(|buffer|)];
        newCounter := 0;
      }
      var newBuffer := buffer + EncodeEntry(shared, key[shared..], value);
      var newLastKey := lastKey[..shared] + key[shared..];
      ghost var next := entries + [KV(key, value)];
      AddPreservesBuild(interval, entries, Image(buffer, restarts, counter, lastKey), KV(key, value), shared,
        Image(newBuffer, newRestarts, newCounter + 1, newLastKey));
      buffer, restarts, counter, lastKey, entries := newBuffer, newRestarts, newCounter + 1, newLastKey, next;
    }

    /** Appends restart offset i as a fixed32, for i in order. */
    method AppendRestartArray()
      requires |restarts| >= 1
      modifies this
      ensures buffer == old(buffer) + RestartArray(restarts)
      ensures restarts == old(restarts) && counter == old(counter) && lastKey == old(lastKey)
      ensures finished == old(finished) && entries == old(entries)
    {
      var i := 0;
      while i < |restarts|
        invariant 0 <= i <= |restarts|
        invariant buffer == old(buffer) + RestartArray(restarts[..i])
        invariant restarts == old(restarts) && counter == old(counter) && lastKey == old(lastKey)
        invariant finished == old(finished) && entries == old(entries)
      {
        assert restarts[..i + 1][..i] == restarts[..i];
        buffer := buffer + Fixed32(restarts[i]);
        i := i + 1;
      }
      assert restarts[..i] == restarts;
    }

    /** Finish of the SLR revisions: the restart array, then the ten
        segment triplets (or thirty zero words when the segment model is
        not built), then segment_size + 1 and num_restarts. segment_size is
        uninitialised on the zero path, so that word is unconstrained. The
        precondition asks every restart key to parse, although the loop
        applies std::stoi only to the keys at segment bounds. */
    method FinishSegmented() returns (block: seq<Byte>)
      requires Valid() && !finished && |buffer| < TWO32
      requires SegmentModelBuilt(slr, |restarts|) ==> RestartKeysParse(interval, entries)
      modifies this
      ensures Valid() && finished && block == buffer
      ensures restarts == old(restarts) && counter == old(counter) && lastKey == old(lastKey)
      ensures entries == old(entries)
      ensures SegmentedFinished(interval, entries, slr, old(Image(buffer, restarts, counter, lastKey)), buffer)
      ensures newMetaSize >= 32 ==> |buffer| <= SegmentedEstimate(old(Image(buffer, restarts, counter, lastKey)), newMetaSize)
    {
      ghost var img := Image(buffer, restarts, counter, lastKey);
      AppendRestartArray();
      var tail := SegmentedTail(buffer, |restarts|, slr, newMetaSize, interval, entries, img);
      buffer, finished := buffer + tail, true;
      block := buffer;
    }

    /** Finish of table_bup_0511: the restart array, then skey_i_low, diff
        and num_restarts. Above fifty restart gaps skey_i_low and
        skey_i_high are the stoi values of the keys of restart 0 and
        restart high, converted to uint32_t; when both are nonzero the
        shorter one in decimal is rescaled and diff is their difference.
        skey_i_low and diff are uninitialised otherwise, so those words are
        unconstrained. The precondition asks every restart key to parse,
        although only those of restart 0 and restart high are read. */
    method FinishTwoKey() returns (block: seq<Byte>)
      requires Valid() && !finished && |buffer| < TWO32
      requires |restarts| - 2 > SEGMENT_THRESHOLD ==> RestartKeysParse(interval, entries)
      modifies this
      ensures Valid() && finished && block == buffer
      ensures restarts == old(restarts) && counter == old(counter) && lastKey == old(lastKey)
      ensures entries == old(entries)
      ensures TwoKeyFinished(interval, entries, old(Image(buffer, restarts, counter, lastKey)), buffer)
      ensures |buffer| == TwoKeyEstimate(old(Image(buffer, restarts, counter, lastKey)))
    {
      ghost var img := Image(buffer, restarts, counter, lastKey);
      AppendRestartArray();
      var tail := TwoKeyTail(buffer, |restarts|, interval, entries, img);
      buffer, finished := buffer + tail, true;
      block := buffer;
    }
  }
}
