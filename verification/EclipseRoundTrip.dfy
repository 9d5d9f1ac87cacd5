/** Writing Eclipse binary files, and why indexing and loading them gives back what
    was written. */
module EclipseRoundTrip {
  import opened Bytes
  import opened Collections
  import opened Wrappers
  import opened Words
  import opened EclipseBinary

  /** An item to write: its payload is split into chunks in any way. */
  datatype Item = Item(keyword: seq<byte>, itemType: seq<byte>, count: nat, chunks: seq<seq<byte>>)

  function Total(chunks: seq<seq<byte>>): nat {
    if chunks == [] then 0 else |chunks[0]| + Total(chunks[1..])
  }

  /** The format's own limits: names fit and carry no trailing blanks, the payload is
      as long as count and type say, and no chunk follows once it is complete. Empty
      chunks may come before that. */
  predicate Writable(item: Item) {
    && |item.keyword| <= 8 && TrimRight(item.keyword) == item.keyword
    && |item.itemType| <= 4 && TrimRight(item.itemType) == item.itemType
    && item.count < TWO_31
    && ExpectedDataBytes(item.count, item.itemType) == Ok(Total(item.chunks))
    && ChunksWritable(item.chunks)
  }

  predicate ChunksWritable(chunks: seq<seq<byte>>) {
    && (forall k :: 0 <= k < |chunks| ==> |chunks[k]| < TWO_31)
    && (chunks != [] ==> chunks[|chunks| - 1] != [])
  }

  function Pad(s: seq<byte>, n: nat): (r: seq<byte>)
    requires |s| <= n
    ensures |r| == n
  {
    s + seq(n - |s|, _ => 32)
  }

  function Frame(bytes: seq<byte>, endian: Endian): seq<byte>
    requires |bytes| < TWO_31
  {
    Int32Bytes(|bytes|, endian) + bytes + Int32Bytes(|bytes|, endian)
  }

  function Header(item: Item, endian: Endian): (r: seq<byte>)
    requires Writable(item)
    ensures |r| == 16
  {
    Pad(item.keyword, 8) + Int32Bytes(item.count, endian) + Pad(item.itemType, 4)
  }

  function Frames(chunks: seq<seq<byte>>, endian: Endian): seq<byte>
    requires ChunksWritable(chunks)
  {
    if chunks == [] then [] else Frame(chunks[0], endian) + Frames(chunks[1..], endian)
  }

  function ItemBytes(item: Item, endian: Endian): seq<byte>
    requires Writable(item)
  {
    Frame(Header(item, endian), endian) + Frames(item.chunks, endian)
  }

  function FileBytes(items: seq<Item>, endian: Endian): seq<byte>
    requires forall k :: 0 <= k < |items| ==> Writable(items[k])
  {
    if items == [] then [] else ItemBytes(items[0], endian) + FileBytes(items[1..], endian)
  }

  // -------------------------------------------------- reading what is there

  lemma MarkerOf(file: seq<byte>, endian: Endian, pos: nat, n: int)
    requires IsInt32(n) && At(file, pos, Int32Bytes(n, endian))
    ensures MarkerAt(file, endian, pos) == Length(n)
  {
  }

  lemma FrameOf(file: seq<byte>, endian: Endian, pos: nat, bytes: seq<byte>)
    requires |bytes| < TWO_31 && At(file, pos, Frame(bytes, endian))
    ensures MarkerAt(file, endian, pos) == Length(|bytes|) && At(file, pos + 4, bytes)
    ensures MarkerAt(file, endian, pos + 4 + |bytes|) == Length(|bytes|)
    ensures pos + 8 + |bytes| <= |file|
  {
    hide Int32Bytes;
    var m := Int32Bytes(|bytes|, endian);
    AtSplit(file, pos, m + bytes, m);
    AtSplit(file, pos, m, bytes);
    MarkerOf(file, endian, pos, |bytes|);
    MarkerOf(file, endian, pos + 4 + |bytes|, |bytes|);
  }

  /** The index entry of a chunk leads to its bytes. */
  predicate LeadsTo(file: seq<byte>, chunk: Chunk, bytes: seq<byte>) {
    chunk.byteCount == |bytes| && At(file, chunk.offset, bytes)
  }

  predicate AllLead(file: seq<byte>, chunks: seq<Chunk>, written: seq<seq<byte>>) {
    |chunks| == |written| && forall k :: 0 <= k < |written| ==> LeadsTo(file, chunks[k], written[k])
  }

  lemma {:induction false} TotalPositive(chunks: seq<seq<byte>>)
    requires chunks != [] && chunks[|chunks| - 1] != []
    ensures Total(chunks) > 0
  {
    if |chunks| > 1 {
      TotalPositive(chunks[1..]);
    }
  }

  lemma ChunkOf(file: seq<byte>, endian: Endian, pos: nat, bytes: seq<byte>, rest: nat)
    requires |bytes| < TWO_31 && |bytes| <= rest && At(file, pos, Frame(bytes, endian))
    ensures ChunkAt(file, endian, pos, rest) == Ok(Chunk(pos + 4, |bytes|))
    ensures LeadsTo(file, Chunk(pos + 4, |bytes|), bytes) && pos + 8 + |bytes| <= |file|
  {
    FrameOf(file, endian, pos, bytes);
  }

  lemma AllLeadCons(file: seq<byte>, chunk: Chunk, bytes: seq<byte>, chunks: seq<Chunk>, written: seq<seq<byte>>)
    requires LeadsTo(file, chunk, bytes) && AllLead(file, chunks, written)
    ensures AllLead(file, [chunk] + chunks, [bytes] + written)
  {
  }

  lemma {:induction false} ChunksCons(file: seq<byte>, endian: Endian, pos: nat, rest: nat)
    requires rest > 0 && ChunkAt(file, endian, pos, rest).Ok?
    ensures var chunk := ChunkAt(file, endian, pos, rest).value;
            var more := Chunks(file, endian, pos + 8 + chunk.byteCount, rest - chunk.byteCount);
            more.Ok? ==> Chunks(file, endian, pos, rest) == Ok(([chunk] + more.value.0, more.value.1))
  {
    hide ChunkAt;
  }

  lemma {:induction false} FramesCons(written: seq<seq<byte>>, endian: Endian)
    requires ChunksWritable(written) && written != []
    ensures |written[0]| < TWO_31 && ChunksWritable(written[1..])
    ensures Frames(written, endian) == Frame(written[0], endian) + Frames(written[1..], endian)
    ensures |Frame(written[0], endian)| == 8 + |written[0]|
    ensures Total(written) == |written[0]| + Total(written[1..]) > 0
  {
    TotalPositive(written);
  }

  lemma ChunksOfNothing(file: seq<byte>, endian: Endian, pos: nat)
    ensures Chunks(file, endian, pos, Total([])) == Ok(([], pos)) && AllLead(file, [], [])
    ensures Frames([], endian) == []
  {
  }

  lemma {:induction false} ChunksOf(file: seq<byte>, endian: Endian, pos: nat, written: seq<seq<byte>>)
    requires ChunksWritable(written) && At(file, pos, Frames(written, endian))
    ensures var r := Chunks(file, endian, pos, Total(written));
            r.Ok? && AllLead(file, r.value.0, written) && r.value.1 == pos + |Frames(written, endian)|
    decreases |written|
  {
    hide *;
    if written == [] {
      ChunksOfNothing(file, endian, pos);
    } else {
      var head, tail := written[0], written[1..];
      var rest, n := Total(written), |head|;
      FramesCons(written, endian);
      AtSplit(file, pos, Frame(head, endian), Frames(tail, endian));
      ChunkOf(file, endian, pos, head, rest);
      ChunksOf(file, endian, pos + 8 + n, tail);
      ChunksCons(file, endian, pos, rest);
      AllLeadCons(file, Chunk(pos + 4, n), head, Chunks(file, endian, pos + 8 + n, rest - n).value.0, tail);
      assert written == [head] + tail;
    }
  }

  /** The index entry of an item: its names, type and count, and its chunks. */
  predicate Describes(file: seq<byte>, endian: Endian, record: Record, item: Item) {
    && record.keyword == item.keyword && record.itemType == item.itemType && record.count == item.count
    && record.endian == endian && AllLead(file, record.chunks, item.chunks)
  }

  lemma {:induction false} TrimPadding(s: seq<byte>, padded: seq<byte>)
    requires s <= padded && TrimRight(s) == s && forall k :: |s| <= k < |padded| ==> padded[k] == 32
    ensures TrimRight(padded) == s
    decreases |padded|
  {
    if |padded| > |s| {
      TrimPadding(s, padded[..|padded| - 1]);
    }
  }

  lemma HeaderOf(file: seq<byte>, endian: Endian, pos: nat, item: Item)
    requires Writable(item) && At(file, pos, Header(item, endian))
    ensures TrimRight(file[pos..pos + 8]) == item.keyword
    ensures Int32(file[pos + 8..pos + 12], endian) == item.count
    ensures TrimRight(file[pos + 12..pos + 16]) == item.itemType
  {
    hide Int32Bytes;
    var (a, b, c) := (Pad(item.keyword, 8), Int32Bytes(item.count, endian), Pad(item.itemType, 4));
    AtSplit(file, pos, a + b, c);
    AtSplit(file, pos, a, b);
    TrimPadding(item.keyword, a);
    TrimPadding(item.itemType, c);
  }

  lemma RecordOf(file: seq<byte>, endian: Endian, pos: nat, item: Item)
    requires Writable(item) && At(file, pos, ItemBytes(item, endian))
    ensures MarkerAt(file, endian, pos) == Length(HEADER_BYTES)
    ensures var r := RecordAt(file, endian, pos + 4, HEADER_BYTES);
            && r.Ok? && r.value.1 == pos + |ItemBytes(item, endian)|
            && Describes(file, endian, r.value.0, item)
  {
    hide Frames, Chunks, MarkerAt, Header, TrimRight, Int32;
    var header := Header(item, endian);
    AtSplit(file, pos, Frame(header, endian), Frames(item.chunks, endian));
    FrameOf(file, endian, pos, header);
    HeaderOf(file, endian, pos + 4, item);
    ChunksOf(file, endian, pos + 24, item.chunks);
  }

  lemma RecordsEndAt(file: seq<byte>, endian: Endian, pos: nat)
    requires pos == |file|
    ensures RecordsFrom(file, endian, pos, []) == Ok([])
  {
  }

  lemma {:induction false} RecordsCons(file: seq<byte>, endian: Endian, pos: nat)
    requires MarkerAt(file, endian, pos) == Length(HEADER_BYTES)
    ensures var record := RecordAt(file, endian, pos + 4, HEADER_BYTES);
            record.Ok? && RecordsFrom(file, endian, record.value.1, []).Ok? ==>
              RecordsFrom(file, endian, pos, []) ==
              Ok([record.value.0] + RecordsFrom(file, endian, record.value.1, []).value)
  {
    hide RecordAt, MarkerAt;
    RecordEndsInside(file, endian, pos + 4, HEADER_BYTES);
  }

  lemma {:induction false} RecordsOf(file: seq<byte>, endian: Endian, pos: nat, items: seq<Item>)
    requires forall k :: 0 <= k < |items| ==> Writable(items[k])
    requires At(file, pos, FileBytes(items, endian)) && pos + |FileBytes(items, endian)| == |file|
    ensures var r := RecordsFrom(file, endian, pos, []);
            && r.Ok? && |r.value| == |items|
            && forall k :: 0 <= k < |items| ==> Describes(file, endian, r.value[k], items[k])
    decreases |items|
  {
    hide Describes, RecordAt, Writable, ItemBytes, MarkerAt;
    if items == [] {
      RecordsEndAt(file, endian, pos);
    } else {
      hide At;
      var n := |ItemBytes(items[0], endian)|;
      AtSplit(file, pos, ItemBytes(items[0], endian), FileBytes(items[1..], endian));
      RecordOf(file, endian, pos, items[0]);
      RecordsOf(file, endian, pos + n, items[1..]);
      RecordsCons(file, endian, pos);
    }
  }

  lemma EndianOfMarker(file: seq<byte>, endian: Endian)
    requires Int32Bytes(HEADER_BYTES, endian) <= file
    ensures DetectEndian(file) == Some(endian)
  {
    assert LittleBytes(HEADER_BYTES) == [16, 0, 0, 0];
    assert file[..4] == Int32Bytes(HEADER_BYTES, endian);
  }

  lemma FirstMarker(item: Item, endian: Endian)
    requires Writable(item)
    ensures Int32Bytes(HEADER_BYTES, endian) <= ItemBytes(item, endian)
  {
    hide Writable, Header, Int32Bytes, Frames;
    var m, header := Int32Bytes(HEADER_BYTES, endian), Header(item, endian);
    assert m <= m + header <= Frame(header, endian) <= ItemBytes(item, endian);
  }

  lemma EndianOf(items: seq<Item>, endian: Endian)
    requires items != [] && forall k :: 0 <= k < |items| ==> Writable(items[k])
    ensures DetectEndian(FileBytes(items, endian)) == Some(endian)
  {
    hide Writable, ItemBytes, Int32Bytes, DetectEndian;
    FirstMarker(items[0], endian);
    assert Int32Bytes(HEADER_BYTES, endian) <= ItemBytes(items[0], endian) <= FileBytes(items, endian);
    EndianOfMarker(FileBytes(items, endian), endian);
  }

  /** Indexing a written file detects its byte order and gives back every item: its
      keyword, type and count, and the places of its chunks. */
  lemma IndexOfWritten(items: seq<Item>, endian: Endian)
    requires items != [] && forall k :: 0 <= k < |items| ==> Writable(items[k])
    ensures var file := FileBytes(items, endian);
            var r := IndexOf(file, []);
            && r.Ok? && r.value.endian == endian && |r.value.records| == |items|
            && forall k :: 0 <= k < |items| ==> Describes(file, endian, r.value.records[k], items[k])
  {
    hide Describes, RecordsFrom, Writable, FileBytes, DetectEndian;
    var file := FileBytes(items, endian);
    assert file[0..0 + |file|] == file;
    RecordsOf(file, endian, 0, items);
    EndianOf(items, endian);
  }

  // --------------------------------------------------------- integer items

  function Flatten(parts: seq<seq<int>>): seq<int> {
    if parts == [] then [] else parts[0] + Flatten(parts[1..])
  }

  /** The chunk list writes these integers, some in each chunk. */
  predicate Spells(chunks: seq<seq<byte>>, parts: seq<seq<int>>, endian: Endian) {
    |chunks| == |parts| && forall k :: 0 <= k < |parts| ==> AllInt32(parts[k]) && chunks[k] == IntBytes(parts[k], endian)
  }

  lemma IntsOf(file: seq<byte>, endian: Endian, offset: nat, values: seq<int>)
    requires AllInt32(values) && At(file, offset, IntBytes(values, endian))
    ensures IntsAt(file, endian, offset, |values|) == values
  {
    hide Int32Bytes, Int32, IntBytes;
    forall k | 0 <= k < |values| ensures IntsAt(file, endian, offset, |values|)[k] == values[k] {
      IntBytesAt(values, endian, k);
      WordIn(file, offset, |values|, k);
    }
  }

  lemma ChunkIntsOf(file: seq<byte>, endian: Endian, chunk: Chunk, values: seq<int>)
    requires AllInt32(values) && LeadsTo(file, chunk, IntBytes(values, endian))
    ensures ChunkInts(file, endian, chunk) == Ok(values)
  {
    hide IntBytes;
    if values != [] {
      IntsOf(file, endian, chunk.offset, values);
    }
  }

  lemma {:induction false} JoinOf(file: seq<byte>, endian: Endian, chunks: seq<Chunk>, written: seq<seq<byte>>, parts: seq<seq<int>>)
    requires Spells(written, parts, endian) && AllLead(file, chunks, written)
    ensures JoinInts(file, endian, chunks) == Ok(Flatten(parts))
    decreases |parts|
  {
    if parts != [] {
      hide LeadsTo, ChunkInts, IntBytes;
      JoinOf(file, endian, chunks[1..], written[1..], parts[1..]);
      assert LeadsTo(file, chunks[0], written[0]);
      ChunkIntsOf(file, endian, chunks[0], parts[0]);
    }
  }

  /** Loading the index entry of an integer item gives the integers written. */
  lemma LoadOfWritten(file: seq<byte>, endian: Endian, record: Record, item: Item, parts: seq<seq<int>>)
    requires Writable(item) && Describes(file, endian, record, item) && IsIntegerRecord(record)
    requires Spells(item.chunks, parts, endian)
    ensures IntValues(file, record) == Ok(Flatten(parts))
  {
    JoinOf(file, endian, record.chunks, item.chunks, parts);
    TotalOf(item.chunks, parts, endian);
  }

  lemma {:induction false} TotalOf(chunks: seq<seq<byte>>, parts: seq<seq<int>>, endian: Endian)
    requires Spells(chunks, parts, endian)
    ensures Total(chunks) == 4 * |Flatten(parts)|
    decreases |parts|
  {
    hide IntBytes;
    if parts != [] {
      TotalOf(chunks[1..], parts[1..], endian);
      assert chunks[0] == IntBytes(parts[0], endian);
    }
  }

  /** The whole round trip: writing items and then indexing and loading gives back
      every item and, for an integer item, its values. */
  lemma RoundTrip(items: seq<Item>, endian: Endian, k: nat, parts: seq<seq<int>>)
    requires k < |items| && forall i :: 0 <= i < |items| ==> Writable(items[i])
    requires items[k].itemType == INTE || items[k].itemType == LOGI
    requires Spells(items[k].chunks, parts, endian)
    ensures var file := FileBytes(items, endian);
            var r := IndexOf(file, []);
            && r.Ok? && |r.value.records| == |items|
            && r.value.records[k].keyword == items[k].keyword
            && IntValues(file, r.value.records[k]) == Ok(Flatten(parts))
  {
    hide IntValues, Writable, Spells;
    IndexOfWritten(items, endian);
    var file := FileBytes(items, endian);
    LoadOfWritten(file, endian, IndexOf(file, []).value.records[k], items[k], parts);
  }
}
