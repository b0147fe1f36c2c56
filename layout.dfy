/** The contents of a data block as values: the bytes, restart offsets,
    counter and last key that BlockBuilder::Add leaves behind after a
    sequence of key/value pairs, the restart array Finish appends, and
    GetKey, which reads the key of a restart entry back out of the block.
    The BlockBuilder class is proved against these functions. */
module Layout {
  import opened Wrappers
  import opened Coding
  import opened Keys
  import opened Entry

  datatype KV = KV(key: seq<Byte>, value: seq<Byte>)

  /** buffer_, restarts_, counter_ and last_key_ of a builder that has not
      finished. */
  datatype Image = Image(data: seq<Byte>, restarts: seq<U32>, counter: nat, lastKey: seq<Byte>)

  /** The state after construction or Reset: no data, one restart point at
      offset 0. */
  function Empty(): (r: Image)
  {
    Image([], [0], 0, [])
  }

  /** Keys strictly increasing in bytewise order, as Add demands. */
  predicate StrictlyIncreasing(entries: seq<KV>)
  {
    forall i | 0 <= i < |entries| - 1 :: Less(entries[i].key, entries[i + 1].key)
  }

  /** One Add: below the restart interval the key shares its common prefix
      with the previous key; at the interval a new restart point is
      recorded at the current offset (converted to uint32_t) and the key is
      stored whole. */
  function AddStep(img: Image, interval: nat, kv: KV): (r: Image)
    ensures |r.data| >= |img.data| + 3 && r.data[..|img.data|] == img.data
    ensures r.lastKey == kv.key
    ensures |r.restarts| >= |img.restarts| && r.restarts[..|img.restarts|] == img.restarts
  {
    if img.counter < interval then
      var shared := CommonPrefixLength(img.lastKey, kv.key);
      var r := Image(img.data + EncodeEntry(shared, kv.key[shared..], kv.value), img.restarts, img.counter + 1, kv.key);
      assert r.data[..|img.data|] == img.data;
      r
    else
      var r := Image(img.data + EncodeEntry(0, kv.key, kv.value), img.restarts + [Wrap32(|img.data|)], 1, kv.key);
      assert r.data[..|img.data|] == img.data;
      r
  }

  /** The image after adding the given pairs in order, starting empty. */
  function Build(interval: nat, entries: seq<KV>): (r: Image)
    ensures |r.restarts| >= 1
    ensures |entries| == 0 ==> r == Empty()
    ensures |entries| > 0 ==> |r.data| > 0 && r.lastKey == entries[|entries| - 1].key
  {
    if |entries| == 0 then Empty()
    else AddStep(Build(interval, entries[..|entries| - 1]), interval, entries[|entries| - 1])
  }

  /** The restart entry for kv is stored whole (shared length 0) at
      data[offset..]. */
  predicate RestartEntryAt(data: seq<Byte>, offset: nat, kv: KV)
  {
    var e := EncodeEntry(0, kv.key, kv.value);
    offset + |e| <= |data| && data[offset..offset + |e|] == e
  }

  /** What the restart points of a built image satisfy. */
  predicate RestartsOf(img: Image, interval: nat, entries: seq<KV>)
  {
    && |img.restarts| >= 1 && img.restarts[0] == 0
    && (forall j | 0 <= j < |img.restarts| - 1 :: img.restarts[j] < img.restarts[j + 1])
    && (forall j | 0 <= j < |img.restarts| ::
          j * interval < |entries| && img.restarts[j] < |img.data| &&
          RestartEntryAt(img.data, img.restarts[j], entries[j * interval]))
  }

  lemma RestartEntryAtExtend(data: seq<Byte>, more: seq<Byte>, offset: nat, kv: KV)
    requires RestartEntryAt(data, offset, kv)
    ensures RestartEntryAt(data + more, offset, kv)
  {
    var e := EncodeEntry(0, kv.key, kv.value);
    assert (data + more)[offset..offset + |e|] == data[offset..offset + |e|];
  }

  /** The shape of a built block: the data is empty exactly when no pair was
      added; every interval-th pair starts a restart; restart offsets are
      strictly increasing and each one holds its pair stored whole; the
      counter is the number of pairs since the last restart; the last key
      is the last pair's key. */
  predicate Shape(interval: nat, entries: seq<KV>, img: Image)
  {
    && (|entries| == 0 <==> |img.data| == 0)
    && (|entries| == 0 ==> img == Empty())
    && (|entries| > 0 ==>
          && 1 <= img.counter <= interval
          && |entries| == (|img.restarts| - 1) * interval + img.counter
          && img.lastKey == entries[|entries| - 1].key
          && RestartsOf(img, interval, entries))
  }

  lemma ShapeFirst(interval: nat, kv: KV)
    requires interval >= 1
    ensures Shape(interval, [kv], AddStep(Empty(), interval, kv))
  {
    var img := AddStep(Empty(), interval, kv);
    assert kv.key[0..] == kv.key;
    assert img.data == EncodeEntry(0, kv.key, kv.value);
    assert img.data[0..|img.data|] == img.data;
    assert RestartEntryAt(img.data, img.restarts[0], [kv][0 * interval]);
  }

  /** Appending to the data keeps every recorded restart entry in place. */
  lemma OldRestartsKept(interval: nat, prev: seq<KV>, before: Image, more: seq<Byte>, kv: KV)
    requires RestartsOf(before, interval, prev)
    ensures forall j | 0 <= j < |before.restarts| ::
      j * interval < |prev + [kv]| && before.restarts[j] < |before.data + more| &&
      RestartEntryAt(before.data + more, before.restarts[j], (prev + [kv])[j * interval])
  {
    forall j | 0 <= j < |before.restarts|
      ensures j * interval < |prev + [kv]| && before.restarts[j] < |before.data + more|
      ensures RestartEntryAt(before.data + more, before.restarts[j], (prev + [kv])[j * interval])
    {
      RestartEntryAtExtend(before.data, more, before.restarts[j], prev[j * interval]);
    }
  }

  /** Adding below the restart interval keeps the restart points. */
  lemma ShapeExtend(interval: nat, prev: seq<KV>, before: Image, kv: KV)
    requires interval >= 1 && |prev| > 0 && Shape(interval, prev, before) && before.counter < interval
    ensures Shape(interval, prev + [kv], AddStep(before, interval, kv))
  {
    var img := AddStep(before, interval, kv);
    var more := img.data[|before.data|..];
    assert img.data == before.data + more;
    OldRestartsKept(interval, prev, before, more, kv);
  }

  /** Adding at the restart interval records a restart at the old data
      length, which holds the new pair stored whole. */
  lemma ShapeRestart(interval: nat, prev: seq<KV>, before: Image, kv: KV)
    requires interval >= 1 && |prev| > 0 && Shape(interval, prev, before) && before.counter == interval
    requires |AddStep(before, interval, kv).data| < TWO32
    ensures Shape(interval, prev + [kv], AddStep(before, interval, kv))
  {
    var img := AddStep(before, interval, kv);
    var more := EncodeEntry(0, kv.key, kv.value);
    assert img.data == before.data + more;
    assert img.restarts == before.restarts + [|before.data|];
    assert |prev| == |before.restarts| * interval;
    NewRestartEntry(interval, prev, before, kv, more);
    OldRestartsKept(interval, prev, before, more, kv);
  }

  lemma NewRestartEntry(interval: nat, prev: seq<KV>, before: Image, kv: KV, more: seq<Byte>)
    requires more == EncodeEntry(0, kv.key, kv.value) && |prev| == |before.restarts| * interval
    ensures |before.restarts| * interval < |prev + [kv]|
    ensures RestartEntryAt(before.data + more, |before.data|, (prev + [kv])[|before.restarts| * interval])
  {
    assert (before.data + more)[|before.data|..|before.data| + |more|] == more;
  }

  lemma {:induction false} BuildShape(interval: nat, entries: seq<KV>)
    requires interval >= 1 && |Build(interval, entries).data| < TWO32
    ensures Shape(interval, entries, Build(interval, entries))
  {
    if |entries| > 0 {
      var prev := entries[..|entries| - 1];
      var kv := entries[|entries| - 1];
      var before := Build(interval, prev);
      assert entries == prev + [kv];
      assert Build(interval, entries) == AddStep(before, interval, kv);
      BuildShape(interval, prev);
      if |prev| == 0 {
        ShapeFirst(interval, kv);
      } else if before.counter < interval {
        ShapeExtend(interval, prev, before, kv);
      } else {
        ShapeRestart(interval, prev, before, kv);
      }
    }
  }

  /** The restart array Finish appends: each offset as a fixed32 word. */
  function RestartArray(restarts: seq<U32>): (r: seq<Byte>)
    ensures |r| == 4 * |restarts|
  {
    if |restarts| == 0 then []
    else RestartArray(restarts[..|restarts| - 1]) + Fixed32(restarts[|restarts| - 1])
  }

  /** Word j of the restart array is restart offset j. */
  lemma {:induction false} RestartArrayWord(restarts: seq<U32>, j: nat)
    requires j < |restarts|
    ensures DecodeFixed32(RestartArray(restarts), 4 * j) == restarts[j]
    decreases |restarts|
  {
    var front := restarts[..|restarts| - 1];
    var last := Fixed32(restarts[|restarts| - 1]);
    if j == |restarts| - 1 {
      DecodeFixed32Suffix(RestartArray(front), last, 0);
    } else {
      RestartArrayWord(front, j);
      DecodeFixed32Prefix(RestartArray(front), last, 4 * j);
    }
  }

  /** What GetKey yields: the source leaves its result uninitialised when
      the entry does not decode or is not stored whole, and propagates the
      exception of std::stoi. */
  datatype KeyRead = Uninitialised | StoiThrows | KeyValue(value: int)

  function FromStoi(parsed: Option<int>): (r: KeyRead)
  {
    match parsed
    case None => StoiThrows
    case Some(v) => KeyValue(v)
  }

  /** The key bytes of the entry at offset when it decodes before limit
      and shares nothing with a previous key; None where the source leaves
      its result uninitialised. */
  function WholeKeyAt(block: seq<Byte>, offset: nat, limit: nat): (r: Option<seq<Byte>>)
    requires limit <= |block|
    ensures r.Some? ==> |r.value| <= limit
  {
    match DecodeEntry(block, offset, limit)
    case None => None
    case Some(h) => if h.shared != 0 then None else Some(block[h.keyStart..h.keyStart + h.nonShared])
  }

  /** GetKey(data_, res, pos): restart offset number pos, read from the
      restart array at res, locates an entry (limit res); when it decodes
      and shares nothing with a previous key, its key bytes go through
      std::stoi. The uint32_t result read back as int is the int stoi
      returned. */
  function GetKey(block: seq<Byte>, res: nat, pos: nat): (r: KeyRead)
    requires res + 4 * pos + 4 <= |block|
    ensures r.KeyValue? ==> INT32_MIN <= r.value <= INT32_MAX
  {
    match WholeKeyAt(block, DecodeFixed32(block, res + 4 * pos), res)
    case None => Uninitialised
    case Some(key) => FromStoi(Stoi(key))
  }

  /** The key that starts restart j. */
  function RestartKey(interval: nat, entries: seq<KV>, j: nat): (r: seq<Byte>)
    requires j * interval < |entries|
  {
    entries[j * interval].key
  }

  /** An entry the builder stored whole at offset, before limit, yields its
      key. */
  lemma WholeKeyOfEncoded(block: seq<Byte>, offset: nat, limit: nat, kv: KV)
    requires |kv.key| < TWO32 && |kv.value| < TWO32
    requires offset + |EncodeEntry(0, kv.key, kv.value)| <= limit <= |block|
    requires block[offset..offset + |EncodeEntry(0, kv.key, kv.value)|] == EncodeEntry(0, kv.key, kv.value)
    ensures WholeKeyAt(block, offset, limit) == Some(kv.key)
  {
    var h := DecodeEncodedEntry(block, offset, limit, 0, kv.key, kv.value);
    WholeKeyOfHeader(block, offset, limit, h, kv.key);
  }

  lemma WholeKeyOfHeader(block: seq<Byte>, offset: nat, limit: nat, h: EntryHeader, key: seq<Byte>)
    requires limit <= |block| && DecodeEntry(block, offset, limit) == Some(h) && h.shared == 0
    requires h.keyStart + h.nonShared <= |block| && block[h.keyStart..h.keyStart + h.nonShared] == key
    ensures WholeKeyAt(block, offset, limit) == Some(key)
  {
  }

  lemma GetKeyOfWord(block: seq<Byte>, res: nat, pos: nat, offset: nat, key: seq<Byte>)
    requires res + 4 * pos + 4 <= |block| && DecodeFixed32(block, res + 4 * pos) == offset
    requires WholeKeyAt(block, offset, res) == Some(key)
    ensures GetKey(block, res, pos) == FromStoi(Stoi(key))
  {
  }

  /** GetKey on a restart word that locates an entry stored whole, before
      the restart array, yields stoi of that entry's key. */
  lemma GetKeyOfStoredEntry(block: seq<Byte>, res: nat, j: nat, offset: nat, kv: KV)
    requires res + 4 * j + 4 <= |block| && DecodeFixed32(block, res + 4 * j) == offset
    requires res < TWO32 && offset + |EncodeEntry(0, kv.key, kv.value)| <= res
    requires block[offset..offset + |EncodeEntry(0, kv.key, kv.value)|] == EncodeEntry(0, kv.key, kv.value)
    ensures GetKey(block, res, j) == FromStoi(Stoi(kv.key))
  {
    var e := EncodeEntry(0, kv.key, kv.value);
    assert WholeKeyAt(block, offset, res) == Some(kv.key) by {
      assert |e| >= |kv.key| + |kv.value|;
      WholeKeyOfEncoded(block, offset, res, kv);
    }
    GetKeyOfWord(block, res, j, offset, kv.key);
  }

  /** GetKey on restart j of a finished block whose restart j holds kv
      stored whole. */
  lemma GetKeyOfRestart(data: seq<Byte>, restarts: seq<U32>, j: nat, kv: KV)
    requires |data| < TWO32 && j < |restarts| && RestartEntryAt(data, restarts[j], kv)
    ensures GetKey(data + RestartArray(restarts), |data|, j) == FromStoi(Stoi(kv.key))
  {
    RestartArrayWord(restarts, j);
    GetKeyOfTail(data, RestartArray(restarts), j, restarts[j], kv);
  }

  /** The same for any trailer whose word j holds the offset. */
  lemma GetKeyOfTail(data: seq<Byte>, tail: seq<Byte>, j: nat, offset: nat, kv: KV)
    requires |data| < TWO32 && 4 * j + 4 <= |tail| && DecodeFixed32(tail, 4 * j) == offset
    requires RestartEntryAt(data, offset, kv)
    ensures GetKey(data + tail, |data|, j) == FromStoi(Stoi(kv.key))
  {
    var e := EncodeEntry(0, kv.key, kv.value);
    DecodeFixed32Suffix(data, tail, 4 * j);
    WindowInPrefix(data, tail, offset, e);
    GetKeyOfStoredEntry(data + tail, |data|, j, offset, kv);
  }

  function Product(a: nat, b: nat): (r: nat)
    ensures r == a * b
  {
    a * b
  }

  /** On a block the builder wrote, GetKey on restart j never reads an
      uninitialised value: it is std::stoi of the key of pair j * interval. */
  lemma GetKeyOfBuilt(interval: nat, entries: seq<KV>, j: nat)
    requires interval >= 1 && |entries| > 0 && |Build(interval, entries).data| < TWO32
    requires j < |Build(interval, entries).restarts|
    ensures var img := Build(interval, entries);
      && j * interval < |entries|
      && GetKey(img.data + RestartArray(img.restarts), |img.data|, j) == FromStoi(Stoi(RestartKey(interval, entries, j)))
  {
    var img := Build(interval, entries);
    var k: nat := Product(j, interval);
    assert k < |entries| && RestartEntryAt(img.data, img.restarts[j], entries[k]) by {
      BuildShape(interval, entries);
    }
    GetKeyOfRestart(img.data, img.restarts, j, entries[k]);
  }

  /** On a block the builder wrote, restart j holds pair j * interval,
      and that pair exists. */
  lemma RestartIndices(interval: nat, entries: seq<KV>)
    requires interval >= 1 && |entries| > 0 && |Build(interval, entries).data| < TWO32
    ensures var img := Build(interval, entries);
      forall j | 0 <= j < |img.restarts| ::
        && Product(j, interval) < |entries|
        && RestartEntryAt(img.data, img.restarts[j], entries[Product(j, interval)])
  {
    BuildShape(interval, entries);
  }

  /** Every key stored at a restart point is a decimal int: std::stoi finds
      a digit and the value fits an int. */
  predicate RestartKeysParse(interval: nat, entries: seq<KV>)
    requires interval >= 1
  {
    forall i | 0 <= i < |entries| && i % interval == 0 :: Stoi(entries[i].key).Some?
  }

  /** When the restart keys parse, the key of the pair every restart point
      of a built block holds parses. */
  lemma RestartKeysOfBuilt(interval: nat, entries: seq<KV>)
    requires interval >= 1 && |entries| > 0 && |Build(interval, entries).data| < TWO32
    requires RestartKeysParse(interval, entries)
    ensures forall j | 0 <= j < |Build(interval, entries).restarts| ::
      Product(j, interval) < |entries| && Stoi(entries[Product(j, interval)].key).Some?
  {
    var n := |Build(interval, entries).restarts|;
    assert forall j | 0 <= j < n :: Product(j, interval) < |entries| by {
      RestartIndices(interval, entries);
    }
    forall j | 0 <= j < n
      ensures Product(j, interval) < |entries| && Stoi(entries[Product(j, interval)].key).Some?
    {
      MultipleMod(j, interval);
    }
  }

  lemma MultipleMod(j: nat, interval: nat)
    requires interval >= 1
    ensures Product(j, interval) % interval == 0
  {
    var a := Product(j, interval);
    QuotientOfParts(a, j, interval, 0);
    assert a == (a / interval) * interval + a % interval;
  }

  /** The int std::stoi reads from the key of each restart point. */
  function RestartValues(interval: nat, entries: seq<KV>): (r: seq<int>)
    requires interval >= 1 && |entries| > 0 && |Build(interval, entries).data| < TWO32
    requires RestartKeysParse(interval, entries)
    ensures |r| == |Build(interval, entries).restarts|
    ensures forall j | 0 <= j < |r| :: Product(j, interval) < |entries| && Stoi(entries[Product(j, interval)].key) == Some(r[j])
  {
    RestartKeysOfBuilt(interval, entries);
    var n := |Build(interval, entries).restarts|;
    seq(n, j requires 0 <= j < n => Stoi(entries[Product(j, interval)].key).value)
  }

  /** GetKey on restart j of the array at res returns keys[j], for every j
      below |keys|. */
  predicate KeysRead(block: seq<Byte>, res: nat, keys: seq<int>)
  {
    && res + 4 * |keys| <= |block|
    && forall j {:trigger GetKey(block, res, j)} | 0 <= j < |keys| :: GetKey(block, res, j) == KeyValue(keys[j])
  }

  /** On a block the builder wrote, GetKey on every restart returns the
      value std::stoi reads from that restart's key. */
  lemma GetKeysOfBuilt(interval: nat, entries: seq<KV>, block: seq<Byte>, res: nat)
    requires interval >= 1 && |entries| > 0 && |Build(interval, entries).data| < TWO32
    requires RestartKeysParse(interval, entries)
    requires var img := Build(interval, entries);
      block == img.data + RestartArray(img.restarts) && res == |img.data|
    ensures KeysRead(block, res, RestartValues(interval, entries))
  {
    var img, keys := Build(interval, entries), RestartValues(interval, entries);
    forall j | 0 <= j < |img.restarts|
      ensures GetKey(block, res, j) == KeyValue(keys[j])
    {
      GetKeyOfBuilt(interval, entries, j);
    }
  }

  /** After k >= 1 pairs there are 1 + (k - 1) / interval restart points. */
  lemma RestartCount(interval: nat, entries: seq<KV>)
    requires interval >= 1 && |entries| > 0 && |Build(interval, entries).data| < TWO32
    ensures |Build(interval, entries).restarts| == 1 + (|entries| - 1) / interval
  {
    var img := Build(interval, entries);
    BuildShape(interval, entries);
    var q, r := |img.restarts| - 1, img.counter - 1;
    assert |entries| - 1 == q * interval + r;
    QuotientOfParts(|entries| - 1, q, interval, r);
  }

  lemma QuotientOfParts(a: int, q: nat, d: int, r: int)
    requires d > 0 && 0 <= r < d && a == q * d + r
    ensures a / d == q
  {
    var q', r' := a / d, a % d;
    assert a == q' * d + r';
    if q' < q {
      AtLeastOnce(q - q', d);
      assert false;
    } else if q' > q {
      AtLeastOnce(q' - q, d);
      assert false;
    }
  }

  lemma AtLeastOnce(k: int, d: int)
    requires k >= 1 && d > 0
    ensures k * d >= d
  {
    assert k * d == (k - 1) * d + d;
    assert (k - 1) * d >= 0 by { assert Product(k - 1, d) == (k - 1) * d; }
  }
}
