/** Indexing Eclipse binary files, whose records are framed by length markers, and
    loading integer records from the chunks the index remembers. */
module EclipseBinary {
  import opened Bytes
  import opened Collections
  import opened Wrappers
  import opened Words

  const INTE: seq<byte> := [73, 78, 84, 69]
  const LOGI: seq<byte> := [76, 79, 71, 73]
  const REAL: seq<byte> := [82, 69, 65, 76]
  const DOUB: seq<byte> := [68, 79, 85, 66]
  const CHAR: seq<byte> := [67, 72, 65, 82]

  const HEADER_BYTES: nat := 16

  /** The file position of a piece of payload, and its size. */
  datatype Chunk = Chunk(offset: nat, byteCount: nat)

  datatype Record = Record(keyword: seq<byte>, count: nat, itemType: seq<byte>, endian: Endian, chunks: seq<Chunk>)

  datatype FileIndex = FileIndex(endian: Endian, records: seq<Record>)

  // -------------------------------------------------------- specification

  datatype Marker = EndOfFile | Cut | Length(value: int)

  /** The record marker at a position: four bytes, or none, or too few. */
  function MarkerAt(file: seq<byte>, endian: Endian, pos: nat): (m: Marker)
    ensures m.Length? ==> pos + 4 <= |file| && IsInt32(m.value)
  {
    if pos >= |file| then EndOfFile
    else if pos + 4 > |file| then Cut
    else Length(Int32(file[pos..pos + 4], endian))
  }

  predicate Blank(c: byte) {
    c == 0 || c == 32 || 9 <= c <= 13
  }

  function TrimRight(value: seq<byte>): (r: seq<byte>)
    ensures r <= value && (r != [] ==> !Blank(r[|r| - 1]))
    ensures forall k :: |r| <= k < |value| ==> Blank(value[k])
    decreases |value|
  {
    if value == [] || !Blank(value[|value| - 1]) then value else TrimRight(value[..|value| - 1])
  }

  function TypeItemSize(itemType: seq<byte>): Result<nat> {
    if itemType == INTE || itemType == LOGI || itemType == REAL then Ok(4)
    else if itemType == DOUB || itemType == CHAR then Ok(8)
    else Throws
  }

  /** A record of count zero has no payload, whatever its type is called. */
  function ExpectedDataBytes(count: nat, itemType: seq<byte>): Result<nat> {
    if count == 0 then Ok(0)
    else
      var size :- TypeItemSize(itemType);
      Ok(count * size)
  }

  /** The chunk whose marker is at a position, when at most `rest` bytes may follow
      and the markers on both sides agree. */
  function ChunkAt(file: seq<byte>, endian: Endian, pos: nat, rest: nat): (r: Result<Chunk>)
    ensures r.Ok? ==> r.value.offset == pos + 4 && r.value.byteCount <= rest && pos + 8 + r.value.byteCount <= |file|
  {
    match MarkerAt(file, endian, pos)
    case Length(n) =>
      if 0 <= n <= rest && MarkerAt(file, endian, pos + 4 + n) == Length(n) then Ok(Chunk(pos + 4, n)) else Throws
    case _ => Throws
  }

  /** The chunks of a payload of which `rest` bytes are still to come, and the
      position after them. */
  function Chunks(file: seq<byte>, endian: Endian, pos: nat, rest: nat): (r: Result<(seq<Chunk>, nat)>)
    decreases |file| - pos
  {
    if rest == 0 then Ok(([], pos))
    else
      var chunk :- ChunkAt(file, endian, pos, rest);
      var more :- Chunks(file, endian, pos + 8 + chunk.byteCount, rest - chunk.byteCount);
      Ok(([chunk] + more.0, more.1))
  }

  /** The record whose first header marker, of value `headerLength`, ends at `pos`. */
  function RecordAt(file: seq<byte>, endian: Endian, pos: nat, headerLength: int): (r: Result<(Record, nat)>) {
    if headerLength != HEADER_BYTES || pos + HEADER_BYTES > |file|
       || MarkerAt(file, endian, pos + HEADER_BYTES) != Length(headerLength) then Throws
    else
      var count := Int32(file[pos + 8..pos + 12], endian);
      if count < 0 then Throws
      else
        var itemType := TrimRight(file[pos + 12..pos + 16]);
        var expected :- ExpectedDataBytes(count, itemType);
        var chunks :- Chunks(file, endian, pos + HEADER_BYTES + 4, expected);
        Ok((Record(TrimRight(file[pos..pos + 8]), count, itemType, endian, chunks.0), chunks.1))
  }

  predicate StopsAfter(record: Record, stop: seq<byte>) {
    stop != [] && record.keyword == stop
  }

  /** The records from a position on, up to the stop keyword if there is one. */
  function RecordsFrom(file: seq<byte>, endian: Endian, pos: nat, stop: seq<byte>): (r: Result<seq<Record>>)
    decreases |file| - pos
  {
    match MarkerAt(file, endian, pos)
    case EndOfFile => Ok([])
    case Cut => Throws
    case Length(headerLength) =>
      RecordEndsInside(file, endian, pos + 4, headerLength);
      var record :- RecordAt(file, endian, pos + 4, headerLength);
      if StopsAfter(record.0, stop) then Ok([record.0])
      else
        var more :- RecordsFrom(file, endian, record.1, stop);
        Ok([record.0] + more)
  }

  function DetectEndian(file: seq<byte>): Option<Endian> {
    if |file| < 4 then None
    else if Int32(file[..4], Big) == HEADER_BYTES then Some(Big)
    else if Int32(file[..4], Little) == HEADER_BYTES then Some(Little)
    else None
  }

  function IndexOf(file: seq<byte>, stop: seq<byte>): Result<FileIndex> {
    match DetectEndian(file)
    case None => Throws
    case Some(endian) =>
      var records :- RecordsFrom(file, endian, 0, stop);
      Ok(FileIndex(endian, records))
  }

  function ChunkBytes(chunks: seq<Chunk>): nat {
    if chunks == [] then 0 else chunks[0].byteCount + ChunkBytes(chunks[1..])
  }

  /** The chunks lie one after the other between two positions of the file. */
  predicate Laid(chunks: seq<Chunk>, lo: nat, hi: nat) {
    if chunks == [] then lo <= hi
    else lo <= chunks[0].offset && Laid(chunks[1..], chunks[0].offset + chunks[0].byteCount, hi)
  }

  lemma {:induction false} ChunksSafe(file: seq<byte>, endian: Endian, pos: nat, rest: nat)
    requires Chunks(file, endian, pos, rest).Ok?
    ensures var (chunks, end) := Chunks(file, endian, pos, rest).value;
            Laid(chunks, pos, end) && ChunkBytes(chunks) == rest && (pos <= |file| ==> pos <= end <= |file|)
    decreases |file| - pos
  {
    hide ChunkAt;
    if rest > 0 {
      var chunk := ChunkAt(file, endian, pos, rest).value;
      var n := chunk.byteCount;
      ChunksSafe(file, endian, pos + 8 + n, rest - n);
      var (more, end) := Chunks(file, endian, pos + 8 + n, rest - n).value;
      LaidWider(more, pos + 8 + n, pos + 4 + n, end);
      assert ([chunk] + more)[1..] == more;
    }
  }

  lemma LaidWider(chunks: seq<Chunk>, lo: nat, below: nat, hi: nat)
    requires Laid(chunks, lo, hi) && below <= lo
    ensures Laid(chunks, below, hi)
  {
  }

  /** A record ends behind its start, within the file: the scan always advances. */
  lemma RecordEndsInside(file: seq<byte>, endian: Endian, pos: nat, headerLength: int)
    ensures RecordAt(file, endian, pos, headerLength).Ok? ==>
              pos + HEADER_BYTES + 4 <= RecordAt(file, endian, pos, headerLength).value.1 <= |file|
  {
    if RecordAt(file, endian, pos, headerLength).Ok? {
      var expected := ExpectedDataBytes(
        Int32(file[pos + 8..pos + 12], endian), TrimRight(file[pos + 12..pos + 16])).value;
      ChunksSafe(file, endian, pos + HEADER_BYTES + 4, expected);
    }
  }

  // --------------------------------------------------- safety for any file

  function AllChunks(records: seq<Record>): seq<Chunk> {
    if records == [] then [] else records[0].chunks + AllChunks(records[1..])
  }

  lemma {:induction false} LaidJoin(a: seq<Chunk>, b: seq<Chunk>, lo: nat, mid: nat, hi: nat)
    requires Laid(a, lo, mid) && Laid(b, mid, hi)
    ensures Laid(a + b, lo, hi)
    decreases |a|
  {
    if a == [] {
      assert a + b == b;
      LaidWider(b, mid, lo, hi);
    } else {
      LaidJoin(a[1..], b, a[0].offset + a[0].byteCount, mid, hi);
      assert (a + b)[1..] == a[1..] + b;
    }
  }

  predicate PayloadComplete(record: Record) {
    ExpectedDataBytes(record.count, record.itemType) == Ok(ChunkBytes(record.chunks))
  }

  lemma {:induction false} RecordsSafe(file: seq<byte>, endian: Endian, pos: nat, stop: seq<byte>)
    requires RecordsFrom(file, endian, pos, stop).Ok? && pos <= |file|
    ensures var records := RecordsFrom(file, endian, pos, stop).value;
            && Laid(AllChunks(records), pos, |file|)
            && forall k :: 0 <= k < |records| ==> PayloadComplete(records[k]) && records[k].endian == endian
    decreases |file| - pos
  {
    if MarkerAt(file, endian, pos).Length? {
      var length := MarkerAt(file, endian, pos).value;
      var (record, end) := RecordAt(file, endian, pos + 4, length).value;
      RecordEndsInside(file, endian, pos + 4, length);
      ChunksSafe(file, endian, pos + 24, ExpectedDataBytes(record.count, record.itemType).value);
      LaidWider(record.chunks, pos + 24, pos, end);
      if StopsAfter(record, stop) {
        LaidJoin(record.chunks, [], pos, end, |file|);
        assert [record][1..] == [] && AllChunks([record]) == record.chunks + [];
      } else {
        RecordsSafe(file, endian, end, stop);
        var more := RecordsFrom(file, endian, end, stop).value;
        assert ([record] + more)[1..] == more;
        LaidJoin(record.chunks, AllChunks(more), pos, end, |file|);
      }
    }
  }

  lemma {:induction false} LaidInOrder(chunks: seq<Chunk>, lo: nat, hi: nat)
    requires Laid(chunks, lo, hi)
    ensures lo <= hi
    ensures forall i :: 0 <= i < |chunks| ==> lo <= chunks[i].offset && chunks[i].offset + chunks[i].byteCount <= hi
    ensures forall i, j :: 0 <= i < j < |chunks| ==> chunks[i].offset + chunks[i].byteCount <= chunks[j].offset
    decreases |chunks|
  {
    if chunks != [] {
      LaidInOrder(chunks[1..], chunks[0].offset + chunks[0].byteCount, hi);
      assert chunks == [chunks[0]] + chunks[1..];
    }
  }

  /** Whatever the bytes of a file are: if it is indexed, the chunks of all records
      lie inside the file, in order and apart, and those of each record add up to
      its payload. */
  lemma AnyIndexIsSafe(file: seq<byte>, stop: seq<byte>)
    requires IndexOf(file, stop).Ok?
    ensures var records := IndexOf(file, stop).value.records;
            var chunks := AllChunks(records);
            && (forall i :: 0 <= i < |chunks| ==> chunks[i].offset + chunks[i].byteCount <= |file|)
            && (forall i, j :: 0 <= i < j < |chunks| ==> chunks[i].offset + chunks[i].byteCount <= chunks[j].offset)
            && forall k :: 0 <= k < |records| ==> PayloadComplete(records[k])
  {
    var endian := DetectEndian(file).value;
    RecordsSafe(file, endian, 0, stop);
    LaidInOrder(AllChunks(RecordsFrom(file, endian, 0, stop).value), 0, |file|);
  }

  // ------------------------------------------------------ the stop keyword

  /** The records that can be read from a position on, and whether the file ends behind
      them. No keyword stops this. */
  function Readable(file: seq<byte>, endian: Endian, pos: nat): (seq<Record>, bool)
    decreases |file| - pos
  {
    match MarkerAt(file, endian, pos)
    case EndOfFile => ([], true)
    case Cut => ([], false)
    case Length(headerLength) =>
      RecordEndsInside(file, endian, pos + 4, headerLength);
      match RecordAt(file, endian, pos + 4, headerLength)
      case Throws => ([], false)
      case Ok(record) =>
        var more := Readable(file, endian, record.1);
        ([record.0] + more.0, more.1)
  }

  /** The records through the first one with the keyword. */
  function Through(records: seq<Record>, stop: seq<byte>): seq<Record> {
    if records == [] then []
    else if StopsAfter(records[0], stop) then [records[0]]
    else [records[0]] + Through(records[1..], stop)
  }

  predicate HasStop(records: seq<Record>, stop: seq<byte>) {
    records != [] && (StopsAfter(records[0], stop) || HasStop(records[1..], stop))
  }

  lemma {:induction false} StopFrom(file: seq<byte>, endian: Endian, pos: nat, stop: seq<byte>)
    ensures var (records, clean) := Readable(file, endian, pos);
            RecordsFrom(file, endian, pos, stop) ==
            if clean || HasStop(records, stop) then Ok(Through(records, stop)) else Throws
    decreases |file| - pos
  {
    hide RecordAt, MarkerAt;
    var marker := MarkerAt(file, endian, pos);
    if marker.Length? {
      RecordEndsInside(file, endian, pos + 4, marker.value);
      var record := RecordAt(file, endian, pos + 4, marker.value);
      if record.Ok? {
        StopFrom(file, endian, record.value.1, stop);
        var more := Readable(file, endian, record.value.1).0;
        assert ([record.value.0] + more)[1..] == more;
      }
    }
  }

  /** Whatever stands in a file: a stop keyword yields the records through its first
      occurrence among those that can be read, even if what follows is malformed; if it
      does not occur there, all of them, or nothing if what follows is malformed. */
  lemma StopYieldsPrefix(file: seq<byte>, stop: seq<byte>)
    ensures IndexOf(file, stop) ==
            match DetectEndian(file)
            case None => Throws
            case Some(endian) =>
              var (records, clean) := Readable(file, endian, 0);
              if clean || HasStop(records, stop) then Ok(FileIndex(endian, Through(records, stop))) else Throws
  {
    hide RecordsFrom, Readable;
    if DetectEndian(file).Some? {
      StopFrom(file, DetectEndian(file).value, 0, stop);
    }
  }

  /** Where the first record with the keyword ends, if one can be read. */
  function StopEnd(file: seq<byte>, endian: Endian, pos: nat, stop: seq<byte>): Option<nat>
    decreases |file| - pos
  {
    match MarkerAt(file, endian, pos)
    case Length(headerLength) =>
      RecordEndsInside(file, endian, pos + 4, headerLength);
      var record := RecordAt(file, endian, pos + 4, headerLength);
      if record.Throws? then None
      else if StopsAfter(record.value.0, stop) then Some(record.value.1)
      else StopEnd(file, endian, record.value.1, stop)
    case _ => None
  }

  /** Two files have the same first `n` bytes. */
  predicate SameStart(file: seq<byte>, other: seq<byte>, n: nat) {
    n <= |file| && n <= |other| && file[..n] == other[..n]
  }

  lemma SameSlice(file: seq<byte>, other: seq<byte>, n: nat, lo: nat, hi: nat)
    requires SameStart(file, other, n) && lo <= hi <= n
    ensures file[lo..hi] == other[lo..hi]
  {
    assert file[lo..hi] == file[..n][lo..hi] && other[lo..hi] == other[..n][lo..hi];
  }

  lemma SameMarker(file: seq<byte>, other: seq<byte>, n: nat, endian: Endian, pos: nat)
    requires SameStart(file, other, n) && pos + 4 <= n
    ensures MarkerAt(file, endian, pos) == MarkerAt(other, endian, pos)
  {
    SameSlice(file, other, n, pos, pos + 4);
  }

  lemma {:induction false} SameChunks(file: seq<byte>, other: seq<byte>, n: nat, endian: Endian, pos: nat, rest: nat)
    requires SameStart(file, other, n)
    requires Chunks(file, endian, pos, rest).Ok? && Chunks(file, endian, pos, rest).value.1 <= n
    ensures Chunks(other, endian, pos, rest) == Chunks(file, endian, pos, rest)
    decreases |file| - pos
  {
    hide MarkerAt;
    if rest > 0 {
      var chunk := ChunkAt(file, endian, pos, rest).value;
      var end := pos + 8 + chunk.byteCount;
      ChunksSafe(file, endian, end, rest - chunk.byteCount);
      SameMarker(file, other, n, endian, pos);
      SameMarker(file, other, n, endian, end - 4);
      SameChunks(file, other, n, endian, end, rest - chunk.byteCount);
    }
  }

  lemma SameRecord(file: seq<byte>, other: seq<byte>, n: nat, endian: Endian, pos: nat, headerLength: int)
    requires SameStart(file, other, n)
    requires var r := RecordAt(file, endian, pos, headerLength); r.Ok? && r.value.1 <= n
    ensures RecordAt(other, endian, pos, headerLength) == RecordAt(file, endian, pos, headerLength)
  {
    hide MarkerAt, Chunks, TrimRight;
    RecordEndsInside(file, endian, pos, headerLength);
    SameMarker(file, other, n, endian, pos + HEADER_BYTES);
    SameSlice(file, other, n, pos, pos + 8);
    SameSlice(file, other, n, pos + 8, pos + 12);
    SameSlice(file, other, n, pos + 12, pos + 16);
    var expected := ExpectedDataBytes(Int32(file[pos + 8..pos + 12], endian), TrimRight(file[pos + 12..pos + 16])).value;
    SameChunks(file, other, n, endian, pos + HEADER_BYTES + 4, expected);
  }

  lemma {:induction false} EndInFile(file: seq<byte>, endian: Endian, pos: nat, stop: seq<byte>)
    requires StopEnd(file, endian, pos, stop).Some?
    ensures pos + 24 <= StopEnd(file, endian, pos, stop).value <= |file|
    decreases |file| - pos
  {
    hide RecordAt;
    var length := MarkerAt(file, endian, pos).value;
    RecordEndsInside(file, endian, pos + 4, length);
    var record := RecordAt(file, endian, pos + 4, length).value;
    if !StopsAfter(record.0, stop) {
      EndInFile(file, endian, record.1, stop);
    }
  }

  lemma {:induction false} SameRecords(
      file: seq<byte>, other: seq<byte>, n: nat, endian: Endian, pos: nat, stop: seq<byte>)
    requires StopEnd(file, endian, pos, stop) == Some(n) && SameStart(file, other, n)
    ensures RecordsFrom(file, endian, pos, stop).Ok?
    ensures RecordsFrom(other, endian, pos, stop) == RecordsFrom(file, endian, pos, stop)
    decreases |file| - pos
  {
    hide RecordAt, MarkerAt;
    EndInFile(file, endian, pos, stop);
    SameMarker(file, other, n, endian, pos);
    var length := MarkerAt(file, endian, pos).value;
    RecordEndsInside(file, endian, pos + 4, length);
    RecordEndsInside(other, endian, pos + 4, length);
    var record := RecordAt(file, endian, pos + 4, length).value;
    if StopsAfter(record.0, stop) {
      SameRecord(file, other, n, endian, pos + 4, length);
    } else {
      EndInFile(file, endian, record.1, stop);
      SameRecord(file, other, n, endian, pos + 4, length);
      SameRecords(file, other, n, endian, record.1, stop);
    }
  }

  /** Nothing behind the record where indexing stops decides what the index is: any file
      with the same bytes up to there is indexed alike. */
  lemma BytesBehindStop(file: seq<byte>, other: seq<byte>, stop: seq<byte>, n: nat)
    requires DetectEndian(file).Some? && StopEnd(file, DetectEndian(file).value, 0, stop) == Some(n)
    requires SameStart(file, other, n)
    ensures IndexOf(file, stop).Ok? && IndexOf(other, stop) == IndexOf(file, stop)
  {
    hide RecordsFrom, StopEnd;
    var endian := DetectEndian(file).value;
    EndInFile(file, endian, 0, stop);
    SameSlice(file, other, n, 0, 4);
    assert file[..4] == file[0..4] && other[..4] == other[0..4];
    SameRecords(file, other, n, endian, 0, stop);
  }

  // ------------------------------------------------------ the stream methods

  class InputStream {
    const file: seq<byte>
    var pos: nat

    constructor (file: seq<byte>)
      ensures this.file == file && pos == 0
    {
      this.file, pos := file, 0;
    }

    method ReadRecordLength(endian: Endian) returns (marker: Marker)
      modifies this`pos
      ensures marker == MarkerAt(file, endian, old(pos))
      ensures marker.Length? ==> pos == old(pos) + 4
    {
      marker := MarkerAt(file, endian, pos);
      if marker.Length? {
        pos := pos + 4;
      }
    }

    /** A seek past the end of the file succeeds; only the next read finds out. */
    method SeekForward(byteCount: nat)
      modifies this`pos
      ensures pos == old(pos) + byteCount
    {
      pos := pos + byteCount;
    }

    method ReadExact(byteCount: nat) returns (bytes: Result<seq<byte>>)
      modifies this`pos
      ensures bytes == if old(pos) + byteCount <= |file| then Ok(file[old(pos)..old(pos) + byteCount]) else Throws
      ensures bytes.Ok? ==> pos == old(pos) + byteCount
    {
      if pos + byteCount > |file| {
        return Throws;
      }
      bytes := Ok(file[pos..pos + byteCount]);
      pos := pos + byteCount;
    }
  }

  function PrependChunks(head: seq<Chunk>, r: Result<(seq<Chunk>, nat)>): Result<(seq<Chunk>, nat)> {
    match r
    case Ok(v) => Ok((head + v.0, v.1))
    case Throws => Throws
  }

  lemma PrependNoChunks(r: Result<(seq<Chunk>, nat)>)
    ensures PrependChunks([], r) == r
  {
    if r.Ok? {
      assert [] + r.value.0 == r.value.0;
    }
  }

  lemma {:induction false} ChunksStep(file: seq<byte>, endian: Endian, pos: nat, rest: nat, head: seq<Chunk>)
    requires rest > 0
    ensures var chunk := ChunkAt(file, endian, pos, rest);
            PrependChunks(head, Chunks(file, endian, pos, rest)) ==
            if chunk.Throws? then Throws
            else
              var n := chunk.value.byteCount;
              PrependChunks(head + [chunk.value], Chunks(file, endian, pos + 8 + n, rest - n))
  {
    hide ChunkAt;
    var chunk := ChunkAt(file, endian, pos, rest);
    if chunk.Ok? {
      var more := Chunks(file, endian, pos + 8 + chunk.value.byteCount, rest - chunk.value.byteCount);
      if more.Ok? {
        assert head + ([chunk.value] + more.value.0) == head + [chunk.value] + more.value.0;
      }
    }
  }

  /** One turn of the loop over the chunks of a payload. */
  method ReadChunk(input: InputStream, endian: Endian, rest: nat) returns (chunk: Result<Chunk>)
    modifies input`pos
    ensures chunk == ChunkAt(input.file, endian, old(input.pos), rest)
    ensures chunk.Ok? ==> input.pos == old(input.pos) + 8 + chunk.value.byteCount
  {
    var dataLength := input.ReadRecordLength(endian);
    if !dataLength.Length? || dataLength.value < 0 {
      return Throws;
    }
    var chunkBytes := dataLength.value;
    if chunkBytes > rest {
      return Throws;
    }
    chunk := Ok(Chunk(input.pos, chunkBytes));
    input.SeekForward(chunkBytes);
    var endDataLength := input.ReadRecordLength(endian);
    if endDataLength != dataLength {
      return Throws;
    }
  }

  method ReadEclipseRecordChunks(input: InputStream, expected: nat, endian: Endian) returns (r: Result<seq<Chunk>>)
    modifies input`pos
    ensures var chunks := Chunks(input.file, endian, old(input.pos), expected);
            && (r.Ok? <==> chunks.Ok?)
            && (r.Ok? ==> chunks.value == (r.value, input.pos))
  {
    hide ChunkAt;
    var bytesRead := 0;
    var chunks: seq<Chunk> := [];
    ghost var all := Chunks(input.file, endian, input.pos, expected);
    PrependNoChunks(all);
    while bytesRead < expected
      invariant 0 <= bytesRead <= expected
      invariant all == PrependChunks(chunks, Chunks(input.file, endian, input.pos, expected - bytesRead))
      decreases |input.file| - input.pos
    {
      ChunksStep(input.file, endian, input.pos, expected - bytesRead, chunks);
      var chunk := ReadChunk(input, endian, expected - bytesRead);
      if chunk.Throws? {
        return Throws;
      }
      chunks := chunks + [chunk.value];
      bytesRead := bytesRead + chunk.value.byteCount;
    }
    assert chunks + [] == chunks;
    r := Ok(chunks);
  }

  method ReadIndexedEclipseRecord(input: InputStream, endian: Endian, headerLength: int) returns (r: Result<Record>)
    modifies input`pos
    ensures var record := RecordAt(input.file, endian, old(input.pos), headerLength);
            && (r.Ok? <==> record.Ok?)
            && (r.Ok? ==> record.value == (r.value, input.pos))
  {
    if headerLength != HEADER_BYTES {
      return Throws;
    }
    ghost var start := input.pos;
    var header := input.ReadExact(HEADER_BYTES);
    if header.Throws? {
      return Throws;
    }
    var endHeaderLength := input.ReadRecordLength(endian);
    if endHeaderLength != Length(headerLength) {
      return Throws;
    }
    HeaderFields(input.file, start);
    var count := Int32(header.value[8..12], endian);
    if count < 0 {
      return Throws;
    }
    var keyword, itemType := TrimRight(header.value[..8]), TrimRight(header.value[12..16]);
    var expected := ExpectedDataBytes(count, itemType);
    if expected.Throws? {
      return Throws;
    }
    var chunks := ReadEclipseRecordChunks(input, expected.value, endian);
    if chunks.Throws? {
      return Throws;
    }
    r := Ok(Record(keyword, count, itemType, endian, chunks.value));
  }

  lemma HeaderFields(file: seq<byte>, pos: nat)
    requires pos + HEADER_BYTES <= |file|
    ensures var header := file[pos..pos + HEADER_BYTES];
            && header[..8] == file[pos..pos + 8] && header[8..12] == file[pos + 8..pos + 12]
            && header[12..16] == file[pos + 12..pos + 16]
  {
    SliceOfSlice(file, pos, HEADER_BYTES, 0, 8);
    SliceOfSlice(file, pos, HEADER_BYTES, 8, 12);
    SliceOfSlice(file, pos, HEADER_BYTES, 12, 16);
  }

  method CaeIndexEclipseBinaryFile(file: seq<byte>, stopAfterKeyword: seq<byte>) returns (r: Result<FileIndex>)
    ensures r == IndexOf(file, stopAfterKeyword)
  {
    hide RecordsFrom, RecordAt, MarkerAt;
    var endian := DetectEndian(file);
    if endian.None? {
      return Throws;
    }
    var input := new InputStream(file);
    var records: seq<Record> := [];
    ghost var all := RecordsFrom(file, endian.value, 0, stopAfterKeyword);
    PrependNothing(all);
    ghost var start := 0;
    var headerLength := input.ReadRecordLength(endian.value);
    while headerLength.Length?
      invariant fresh(input) && input.file == file
      invariant headerLength == MarkerAt(file, endian.value, start)
      invariant headerLength.Length? ==> input.pos == start + 4
      invariant all == Prepend(records, RecordsFrom(file, endian.value, start, stopAfterKeyword))
      decreases |file| - start
    {
      RecordEndsInside(file, endian.value, start + 4, headerLength.value);
      RecordsStep(file, endian.value, start, stopAfterKeyword, records);
      var record := ReadIndexedEclipseRecord(input, endian.value, headerLength.value);
      if record.Throws? {
        return Throws;
      }
      records := records + [record.value];
      if StopsAfter(record.value, stopAfterKeyword) {
        return Ok(FileIndex(endian.value, records));
      }
      start := input.pos;
      headerLength := input.ReadRecordLength(endian.value);
    }
    RecordsEnd(file, endian.value, start, stopAfterKeyword);
    if headerLength.Cut? {
      return Throws;
    }
    assert records + [] == records;
    r := Ok(FileIndex(endian.value, records));
  }

  lemma RecordsEnd(file: seq<byte>, endian: Endian, pos: nat, stop: seq<byte>)
    requires !MarkerAt(file, endian, pos).Length?
    ensures RecordsFrom(file, endian, pos, stop) == if MarkerAt(file, endian, pos).EndOfFile? then Ok([]) else Throws
  {
  }

  lemma {:induction false} RecordsStep(file: seq<byte>, endian: Endian, pos: nat, stop: seq<byte>, head: seq<Record>)
    requires MarkerAt(file, endian, pos).Length?
    ensures var record := RecordAt(file, endian, pos + 4, MarkerAt(file, endian, pos).value);
            Prepend(head, RecordsFrom(file, endian, pos, stop)) ==
            if record.Throws? then Throws
            else if StopsAfter(record.value.0, stop) then Ok(head + [record.value.0])
            else Prepend(head + [record.value.0], RecordsFrom(file, endian, record.value.1, stop))
  {
    hide RecordAt;
    var record := RecordAt(file, endian, pos + 4, MarkerAt(file, endian, pos).value);
    if record.Ok? && !StopsAfter(record.value.0, stop) {
      RecordEndsInside(file, endian, pos + 4, MarkerAt(file, endian, pos).value);
      var more := RecordsFrom(file, endian, record.value.1, stop);
      if more.Ok? {
        assert head + ([record.value.0] + more.value) == head + [record.value.0] + more.value;
      }
    }
  }

  // ------------------------------------------------------------ the loaders

  predicate IsIntegerRecord(record: Record) {
    record.itemType == INTE || record.itemType == LOGI
  }

  /** The integers in a stretch of the file. */
  function IntsAt(file: seq<byte>, endian: Endian, offset: nat, n: nat): (values: seq<int>)
    requires offset + 4 * n <= |file|
    ensures |values| == n
    ensures forall k :: 0 <= k < n ==> values[k] == Int32(file[offset + 4 * k..offset + 4 * k + 4], endian)
  {
    seq(n, k requires 0 <= k < n => Int32(file[offset + 4 * k..offset + 4 * k + 4], endian))
  }

  /** What a chunk holds, if it is one of whole integers and the file still has it. */
  function ChunkInts(file: seq<byte>, endian: Endian, chunk: Chunk): (r: Result<seq<int>>)
    ensures r.Ok? ==> |r.value| * 4 == chunk.byteCount
  {
    if chunk.byteCount % 4 != 0 then Throws
    else if chunk.byteCount == 0 then Ok([])
    else if chunk.offset + chunk.byteCount > |file| then Throws
    else Ok(IntsAt(file, endian, chunk.offset, chunk.byteCount / 4))
  }

  function JoinInts(file: seq<byte>, endian: Endian, chunks: seq<Chunk>): Result<seq<int>> {
    if chunks == [] then Ok([])
    else
      var head :- ChunkInts(file, endian, chunks[0]);
      var tail :- JoinInts(file, endian, chunks[1..]);
      Ok(head + tail)
  }

  /** The values of an integer record: those of its chunks in a row, when they are
      as many as its header says. */
  function IntValues(file: seq<byte>, record: Record): (r: Result<seq<int>>)
    ensures r.Ok? ==> |r.value| == record.count
  {
    if !IsIntegerRecord(record) then Throws
    else
      var values :- JoinInts(file, record.endian, record.chunks);
      if |values| == record.count then Ok(values) else Throws
  }

  method ReadRecordBytes(file: seq<byte>, chunk: Chunk) returns (bytes: Result<seq<byte>>)
    ensures bytes == if chunk.byteCount == 0 then Ok([])
                     else if chunk.offset + chunk.byteCount <= |file| then
                       Ok(file[chunk.offset..chunk.offset + chunk.byteCount])
                     else Throws
  {
    if chunk.byteCount == 0 {
      return Ok([]);
    }
    var input := new InputStream(file);
    input.SeekForward(chunk.offset);
    bytes := input.ReadExact(chunk.byteCount);
  }

  lemma {:induction false} JoinSplits(file: seq<byte>, endian: Endian, chunks: seq<Chunk>, k: nat)
    requires k <= |chunks|
    ensures JoinInts(file, endian, chunks).Ok? <==>
            JoinInts(file, endian, chunks[..k]).Ok? && JoinInts(file, endian, chunks[k..]).Ok?
    ensures JoinInts(file, endian, chunks).Ok? ==>
            JoinInts(file, endian, chunks).value ==
            JoinInts(file, endian, chunks[..k]).value + JoinInts(file, endian, chunks[k..]).value
    decreases k
  {
    if k == 0 {
      assert chunks[..0] == [] && chunks[0..] == chunks;
    } else {
      JoinSplits(file, endian, chunks[1..], k - 1);
      assert chunks[..k][1..] == chunks[1..][..k - 1] && chunks[1..][k - 1..] == chunks[k..];
    }
  }

  lemma {:induction false} JoinOne(file: seq<byte>, endian: Endian, chunks: seq<Chunk>, k: nat)
    requires k < |chunks|
    ensures var (before, here) := (JoinInts(file, endian, chunks[..k]), ChunkInts(file, endian, chunks[k]));
            && (JoinInts(file, endian, chunks[..k + 1]).Ok? <==> before.Ok? && here.Ok?)
            && (before.Ok? && here.Ok? ==> JoinInts(file, endian, chunks[..k + 1]) == Ok(before.value + here.value))
  {
    JoinSplits(file, endian, chunks[..k + 1], k);
    assert chunks[..k + 1][..k] == chunks[..k] && chunks[..k + 1][k..] == [chunks[k]];
    assert [chunks[k]][1..] == [];
    var here := ChunkInts(file, endian, chunks[k]);
    if here.Ok? {
      assert JoinInts(file, endian, []) == Ok([]) && here.value + [] == here.value;
    }
  }

  /** Appends the integers of one chunk. */
  method AppendChunk(file: seq<byte>, endian: Endian, chunk: Chunk, values: seq<int>) returns (r: Result<seq<int>>)
    ensures var here := ChunkInts(file, endian, chunk);
            && (r.Ok? <==> here.Ok?) && (r.Ok? ==> r.value == values + here.value)
  {
    if chunk.byteCount % 4 != 0 {
      return Throws;
    }
    var bytes := ReadRecordBytes(file, chunk);
    if bytes.Throws? {
      return Throws;
    }
    ghost var here := ChunkInts(file, endian, chunk).value;
    var n := |bytes.value| / 4;
    var more: seq<int> := [];
    for i := 0 to n
      invariant |more| == i && more == here[..i]
    {
      WordIn(file, chunk.offset, n, i);
      more := more + [Int32(bytes.value[4 * i..4 * i + 4], endian)];
    }
    r := Ok(values + more);
  }

  method CaeLoadEclipseIntValues(file: seq<byte>, record: Record) returns (r: Result<seq<int>>)
    ensures r == IntValues(file, record)
  {
    if !IsIntegerRecord(record) {
      return Throws;
    }
    var values: seq<int> := [];
    for k := 0 to |record.chunks|
      invariant JoinInts(file, record.endian, record.chunks[..k]) == Ok(values)
    {
      JoinOne(file, record.endian, record.chunks, k);
      JoinSplits(file, record.endian, record.chunks, k + 1);
      var more := AppendChunk(file, record.endian, record.chunks[k], values);
      if more.Throws? {
        return Throws;
      }
      values := more.value;
    }
    assert record.chunks[..|record.chunks|] == record.chunks;
    if |values| != record.count {
      return Throws;
    }
    r := Ok(values);
  }

  /** Writes the integers of one chunk into the array from `index` on, as far as it
      has room. */
  method FillChunk(file: seq<byte>, endian: Endian, chunk: Chunk, data: array<int>, index: nat) returns (r: Result<nat>)
    requires index <= data.Length
    modifies data
    ensures var here := ChunkInts(file, endian, chunk);
            && (r.Ok? <==> here.Ok? && index + |here.value| <= data.Length)
            && (r.Ok? ==> r.value == index + |here.value| && data[..r.value] == old(data[..index]) + here.value)
  {
    hide Int32;
    if chunk.byteCount % 4 != 0 {
      return Throws;
    }
    var bytes := ReadRecordBytes(file, chunk);
    if bytes.Throws? {
      return Throws;
    }
    ghost var here := ChunkInts(file, endian, chunk).value;
    var n := |bytes.value| / 4;
    var at := index;
    for i := 0 to n
      invariant at == index + i <= data.Length
      invariant data[..at] == old(data[..index]) + here[..i]
    {
      if at >= data.Length {
        return Throws;
      }
      WordIn(file, chunk.offset, n, i);
      data[at] := Int32(bytes.value[4 * i..4 * i + 4], endian);
      at := at + 1;
      assert here[..i + 1] == here[..i] + [here[i]];
    }
    assert here[..n] == here;
    r := Ok(at);
  }

  /** The array loader: it agrees with the vector loader, and fills exactly as many
      elements as the header says. */
  method CaeLoadEclipseIntArray(file: seq<byte>, record: Record) returns (r: Result<array<int>>)
    ensures r.Ok? <==> IntValues(file, record).Ok?
    ensures r.Ok? ==> fresh(r.value) && r.value.Length == record.count && IntValues(file, record) == Ok(r.value[..])
  {
    if !IsIntegerRecord(record) {
      return Throws;
    }
    var data := new int[record.count];
    var index := 0;
    for k := 0 to |record.chunks|
      invariant 0 <= index <= data.Length
      invariant JoinInts(file, record.endian, record.chunks[..k]) == Ok(data[..index])
    {
      JoinOne(file, record.endian, record.chunks, k);
      JoinSplits(file, record.endian, record.chunks, k + 1);
      var next := FillChunk(file, record.endian, record.chunks[k], data, index);
      if next.Throws? {
        return Throws;
      }
      index := next.value;
    }
    assert record.chunks[..|record.chunks|] == record.chunks;
    if index != data.Length {
      return Throws;
    }
    assert data[..index] == data[..];
    r := Ok(data);
  }
}
