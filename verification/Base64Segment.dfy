/** Random access to a base64 segment of a VTK file: any range of decoded bytes is
    read from a head triple, a middle decoded in parallel batches and a tail
    triple, and equals that range of the whole segment decoded at once. */
module Base64Segment {
  import opened Bytes
  import opened Collections
  import opened Wrappers
  import opened Base64
  import opened FileRanges
  import opened Schedules

  const BASE64_QUARTETS_PER_BATCH: nat := 2 * 1024 * 1024
  const BASE64_DECODED_BYTES_PER_BATCH: nat := BASE64_QUARTETS_PER_BATCH * 3

  /** A base64 segment: where it starts in a file, and its encoded size. */
  datatype Segment = Segment(file: seq<byte>, startOffset: nat, byteCount: nat) {

    /** What quartet `k` decodes to, read by itself. */
    function Quartet(k: nat): (r: Result<seq<byte>>)
      ensures r.Ok? ==> 1 <= |r.value| <= 3 && (4 * k + 4 != byteCount ==> |r.value| == 3)
    {
      var at := startOffset + 4 * k;
      if at + 4 <= |file| then QuartetBytes(file[at..at + 4], 4 * k + 4 == byteCount) else Throws
    }

    /** Byte `r` of quartet `k` is `b`. */
    ghost predicate Holds(k: nat, r: nat, b: byte) {
      Quartet(k).Ok? && r < |Quartet(k).value| && Quartet(k).value[r] == b
    }

    /** Byte `j` of the decoded segment is `b`. */
    ghost predicate DecodesTo(j: nat, b: byte) {
      Holds(j / 3, j % 3, b)
    }

    /** Every quartet that holds some of the decoded bytes `begin .. end` is well formed. */
    ghost predicate QuartetsOk(begin: nat, end: nat) {
      forall k: nat :: 3 * k < end && begin < 3 * k + 3 && begin < end ==> Quartet(k).Ok?
    }

    /** The decoded size, from the final quartet alone. */
    function DecodedCount(): (r: Result<nat>) {
      if byteCount % 4 != 0 then Throws
      else if byteCount == 0 then Ok(0)
      else
        var last :- Quartet(byteCount / 4 - 1);
        Ok((byteCount / 4 - 1) * 3 + |last|)
    }

    /** A quartet that starts below the decoded size lies in the segment, and holds
        all the decoded bytes there are, up to three. */
    lemma QuartetBelowCount(count: nat, k: nat)
      requires DecodedCount() == Ok(count) && 3 * k < count
      ensures 4 * k + 4 <= byteCount
      ensures Quartet(k).Ok? ==> |Quartet(k).value| == Min(3, count - 3 * k)
    {
      hide QuartetBytes;
      var last := byteCount / 4 - 1;
      assert byteCount == 4 * last + 4;
    }

    /** A quartet whose three bytes all lie below the decoded size is not padded:
        decoding it without allowing padding gives the same. */
    lemma MiddleUnpadded(count: nat, k: nat)
      requires DecodedCount() == Ok(count) && 3 * k + 3 <= count && startOffset + 4 * k + 4 <= |file|
      ensures QuartetBytes(file[startOffset + 4 * k..startOffset + 4 * k + 4], false) == Quartet(k)
    {
      hide QuartetBytes;
      QuartetBelowCount(count, k);
      PaddingIrrelevant(file[startOffset + 4 * k..startOffset + 4 * k + 4]);
    }

    lemma AtPiece(text: seq<byte>, m: nat, allow: bool, k0: nat, v: seq<byte>, i: nat)
      requires i < 3 * m && 4 * m <= |text| && Piece(text, m, allow, i / 3).Ok?
      requires Piece(text, m, allow, i / 3) == Quartet(k0 + i / 3)
      requires PieceAt(v, i / 3, Piece(text, m, allow, i / 3).value)
      requires i % 3 < |Piece(text, m, allow, i / 3).value|
      ensures i < |v| && DecodesTo(3 * k0 + i, v[i])
    {
      hide QuartetBytes;
      var a, r := i / 3, i % 3;
      var piece := Piece(text, m, allow, a).value;
      assert v[3 * a..3 * a + |piece|][r] == v[i];
      assert (3 * k0 + i) / 3 == k0 + a && (3 * k0 + i) % 3 == r;
    }

    /** A text whose quartets are those of the segment from `k0` on decodes to the
        bytes those quartets hold. */
    lemma TextDecodes(k0: nat, m: nat, text: seq<byte>, allow: bool)
      requires |text| == 4 * m
      requires forall a :: 0 <= a < m ==> Piece(text, m, allow, a) == Quartet(k0 + a)
      ensures Decode(text, allow).Ok? <==> QuartetsOk(3 * k0, 3 * (k0 + m))
      ensures Decode(text, allow).Ok? ==>
                forall i :: 0 <= i < |Decode(text, allow).value| ==> DecodesTo(3 * k0 + i, Decode(text, allow).value[i])
    {
      hide QuartetBytes;
      DecodeByPieces(text, m, allow);
      if PiecesOk(text, m, allow) {
        forall k: nat | 3 * k < 3 * (k0 + m) && 3 * k0 < 3 * k + 3 ensures Quartet(k).Ok? {
          assert Piece(text, m, allow, k - k0).Ok?;
        }
        var v := Decode(text, allow).value;
        forall i | 0 <= i < |v| ensures DecodesTo(3 * k0 + i, v[i]) {
          assert PieceAt(v, i / 3, Piece(text, m, allow, i / 3).value);
          AtPiece(text, m, allow, k0, v, i);
        }
      }
      if QuartetsOk(3 * k0, 3 * (k0 + m)) {
        forall a | 0 <= a < m ensures Piece(text, m, allow, a).Ok? {
          assert Quartet(k0 + a).Ok?;
        }
      }
    }

    /** Some of the quartets in a row, decoded without padding in one piece. */
    lemma MiddleDecodes(count: nat, k0: nat, m: nat, text: seq<byte>)
      requires DecodedCount() == Ok(count) && 3 * (k0 + m) <= count
      requires startOffset + 4 * (k0 + m) <= |file|
      requires text == file[startOffset + 4 * k0..startOffset + 4 * (k0 + m)]
      ensures Decode(text, false).Ok? <==> QuartetsOk(3 * k0, 3 * (k0 + m))
      ensures Decode(text, false).Ok? ==>
                && |Decode(text, false).value| == 3 * m
                && forall i :: 0 <= i < 3 * m ==> DecodesTo(3 * k0 + i, Decode(text, false).value[i])
    {
      hide QuartetBytes;
      forall a | 0 <= a < m ensures Piece(text, m, false, a) == Quartet(k0 + a) {
        MiddleUnpadded(count, k0 + a);
        SliceOfSlice(file, startOffset + 4 * k0, 4 * m, 4 * a, 4 * a + 4);
      }
      DecodeByPieces(text, m, false);
      TextDecodes(k0, m, text, false);
    }

    /** The encoded text. */
    function Text(): seq<byte>
      requires startOffset + byteCount <= |file|
    {
      file[startOffset..startOffset + byteCount]
    }

    /** The whole segment, decoded by the simple decoder, is `v`. */
    ghost predicate Spells(v: seq<byte>) {
      startOffset + byteCount <= |file| && Decode(Text(), true) == Ok(v)
    }

    /** Reading one quartet at a time tells all about the whole: a segment that
        decodes at once has the size read off its final quartet and the bytes its
        quartets hold, and one whose quartets are all well formed does decode. */
    lemma WholeSegment(v: seq<byte>)
      ensures Spells(v) ==>
                && DecodedCount() == Ok(|v|) && QuartetsOk(0, |v|)
                && forall j :: 0 <= j < |v| ==> DecodesTo(j, v[j])
      ensures startOffset + byteCount <= |file| && DecodedCount() == Ok(|v|) && QuartetsOk(0, |v|) ==>
                Decode(Text(), true).Ok?
    {
      hide QuartetBytes;
      if startOffset + byteCount <= |file| && byteCount % 4 == 0 {
        var m := byteCount / 4;
        forall a | 0 <= a < m ensures Piece(Text(), m, true, a) == Quartet(0 + a) {
          assert Text()[4 * a..4 * a + 4] == file[startOffset + 4 * a..startOffset + 4 * a + 4];
        }
        DecodeByPieces(Text(), m, true);
        TextDecodes(0, m, Text(), true);
        if Spells(v) {
          forall j | 0 <= j < |v| ensures DecodesTo(j, v[j]) {
            assert DecodesTo(3 * 0 + j, v[j]);
          }
          if m > 0 {
            assert Piece(Text(), m, true, m - 1).Ok?;
          }
        }
      }
    }

    /** The size read off the final quartet of an encoding is the size of what was
        encoded. */
    lemma EncodedCount(b: seq<byte>)
      requires startOffset + byteCount <= |file| && Text() == Encode(b)
      ensures Spells(b) && DecodedCount() == Ok(|b|)
    {
      hide QuartetBytes;
      DecodeEncode(b);
      WholeSegment(b);
    }

    /** A decoded byte has one value. */
    lemma RangeIsSlice(v: seq<byte>, range: seq<byte>, skip: nat)
      requires Spells(v) && skip + |range| <= |v|
      requires forall i :: 0 <= i < |range| ==> DecodesTo(skip + i, range[i])
      ensures range == v[skip..skip + |range|]
    {
      hide QuartetBytes, Segment.Quartet;
      WholeSegment(v);
      forall i | 0 <= i < |range| ensures range[i] == v[skip + i] {
        assert DecodesTo(skip + i, range[i]) && DecodesTo(skip + i, v[skip + i]);
      }
    }

    lemma QuartetsOfNothing(begin: nat)
      ensures QuartetsOk(begin, begin)
    {
    }

    lemma QuartetsJoin(begin: nat, mid: nat, end: nat)
      requires begin <= mid <= end
      ensures QuartetsOk(begin, mid) && QuartetsOk(mid, end) <==> QuartetsOk(begin, end)
    {
    }

    lemma QuartetsOfTriple(begin: nat, end: nat)
      requires begin < end <= begin / 3 * 3 + 3
      ensures QuartetsOk(begin, end) <==> Quartet(begin / 3).Ok?
    {
      assert QuartetsOk(begin, end) ==> Quartet(begin / 3).Ok?;
    }
  }

  /** The batch that writes byte `i` of a middle range. */
  function BatchOf(i: nat): nat {
    i / BASE64_DECODED_BYTES_PER_BATCH
  }

  lemma BatchRange(batch: nat, i: nat)
    ensures BatchOf(i) == batch <==>
            batch * BASE64_DECODED_BYTES_PER_BATCH <= i < batch * BASE64_DECODED_BYTES_PER_BATCH + BASE64_DECODED_BYTES_PER_BATCH
  {
  }

  lemma BatchBelow(i: nat, n: nat)
    requires i < n
    ensures BatchOf(i) < 1 + (n - 1) / BASE64_DECODED_BYTES_PER_BATCH
  {
    DivMonotone(i, n - 1, BASE64_DECODED_BYTES_PER_BATCH);
  }

  lemma BatchStart(batch: nat, n: nat)
    requires n > 0 && batch < 1 + (n - 1) / BASE64_DECODED_BYTES_PER_BATCH
    ensures batch * BASE64_DECODED_BYTES_PER_BATCH < n
  {
  }

  /** A batch of an aligned range starts and ends at whole triples. */
  lemma AlignedBatch(begin: nat, end: nat, batch: nat)
    requires begin % 3 == 0 && end % 3 == 0 && begin + batch * BASE64_DECODED_BYTES_PER_BATCH < end
    ensures var first := begin + batch * BASE64_DECODED_BYTES_PER_BATCH;
            var count := Min(end - first, BASE64_DECODED_BYTES_PER_BATCH);
            first == 3 * (first / 3) && count == 3 * (count / 3) && count > 0
  {
    var first := begin + batch * BASE64_DECODED_BYTES_PER_BATCH;
    assert first == 3 * (begin / 3 + batch * BASE64_QUARTETS_PER_BATCH);
    assert end - first == 3 * (end / 3 - first / 3);
  }

  /** Four encoded bytes, read through the parallel range reader. */
  method ReadQuartet4(segment: Segment, k: nat, options: ReadOptions, scheduler: nat -> seq<nat>)
    returns (quartet: Result<seq<byte>>)
    requires IsScheduler(scheduler)
    ensures var at := segment.startOffset + 4 * k;
            quartet == if at + 4 <= |segment.file| then Ok(segment.file[at..at + 4]) else Throws
  {
    var buffer := new byte[4];
    var offset := segment.startOffset + 4 * k;
    var ok := ReadFileRangeIntoParallel(segment.file, offset, buffer, 0, 4, options, scheduler);
    if !ok {
      return Throws;
    }
    DeliveredAll(segment.file, offset, buffer);
    quartet := Ok(buffer[..]);
  }

  method DecodedBase64ByteCount(segment: Segment, options: ReadOptions, scheduler: nat -> seq<nat>)
    returns (count: Result<nat>)
    requires IsScheduler(scheduler)
    ensures count == segment.DecodedCount()
  {
    hide QuartetBytes;
    if segment.byteCount % 4 != 0 {
      return Throws;
    }
    if segment.byteCount == 0 {
      return Ok(0);
    }
    var quartet := ReadQuartet4(segment, segment.byteCount / 4 - 1, options, scheduler);
    if quartet.Throws? {
      return Throws;
    }
    var decoded := new byte[3];
    var last := DecodeBase64Quartet(quartet.value, decoded, 0, true);
    if last.Throws? {
      return Throws;
    }
    count := Ok((segment.byteCount / 4 - 1) * 3 + last.value);
  }

  class Base64PayloadSegmentReader {
    const segment: Segment
    const options: ReadOptions
    const decodedByteCount: nat

    ghost predicate Valid() {
      segment.DecodedCount() == Ok(decodedByteCount)
    }

    constructor (segment: Segment, options: ReadOptions, decodedByteCount: nat)
      requires segment.DecodedCount() == Ok(decodedByteCount)
      ensures Valid() && this.segment == segment
      ensures this.options == options && this.decodedByteCount == decodedByteCount
    {
      this.segment, this.options, this.decodedByteCount := segment, options, decodedByteCount;
    }

    /** Position `out + i` of the target holds decoded byte `from + i`. */
    ghost predicate Arrived(target: array<byte>, out: nat, from: nat, i: nat)
      reads target
    {
      out + i < target.Length && segment.DecodesTo(from + i, target[out + i])
    }

    lemma ArrivedShifted(target: array<byte>, out: nat, from: nat, a: nat, i: nat)
      ensures Arrived(target, out, from, a + i) == Arrived(target, out + a, from + a, i)
    {
      hide Segment.DecodesTo;
    }

    method ReadDecodedTriple(tripleOffset: nat, decoded: array<byte>, scheduler: nat -> seq<nat>)
      returns (size: Result<nat>)
      requires IsScheduler(scheduler) && tripleOffset % 3 == 0 && decoded.Length == 3
      modifies decoded
      ensures var q := segment.Quartet(tripleOffset / 3);
              && (size.Ok? <==> q.Ok?)
              && (size.Ok? ==> size.value == |q.value| <= 3 && q == Ok(decoded[..size.value]))
    {
      hide QuartetBytes;
      var quartetIndex := tripleOffset / 3;
      var encoded := ReadQuartet4(segment, quartetIndex, options, scheduler);
      if encoded.Throws? {
        return Throws;
      }
      size := DecodeBase64Quartet(encoded.value, decoded, 0, quartetIndex * 4 + 4 == segment.byteCount);
      if size.Ok? {
        assert decoded[..size.value] == decoded[0..0 + size.value];
      }
    }

    /** The `memcpy` out of a scratch triple. */
    method CopyScratch(scratch: array<byte>, count: nat, cursor: nat, target: array<byte>, out: nat, size: nat)
      requires scratch != target && cursor % 3 + count <= size <= scratch.Length && size <= 3 && out + count <= target.Length
      requires segment.Quartet(cursor / 3) == Ok(scratch[..size])
      modifies target
      ensures forall i :: 0 <= i < count ==> Arrived(target, out, cursor, i)
      ensures forall k :: 0 <= k < target.Length && !(out <= k < out + count) ==> target[k] == old(target[k])
    {
      hide QuartetBytes;
      forall i | 0 <= i < count {
        target[out + i] := scratch[cursor % 3 + i];
      }
      forall i | 0 <= i < count ensures Arrived(target, out, cursor, i) {
        assert (cursor + i) / 3 == cursor / 3 && (cursor + i) % 3 == cursor % 3 + i;
        assert scratch[..size][cursor % 3 + i] == target[out + i];
      }
    }

    /** The boundary triple at the head of a range. */
    method CopyHead(cursor: nat, end: nat, target: array<byte>, out: nat, scheduler: nat -> seq<nat>)
      returns (copied: Result<nat>)
      requires Valid() && IsScheduler(scheduler)
      requires cursor < end <= decodedByteCount && out + (end - cursor) <= target.Length
      modifies target
      ensures copied.Ok? <==> segment.QuartetsOk(cursor, Min(end, cursor / 3 * 3 + 3))
      ensures copied.Ok? ==>
                && cursor + copied.value == Min(end, cursor / 3 * 3 + 3)
                && forall i :: 0 <= i < copied.value ==> Arrived(target, out, cursor, i)
      ensures forall k :: 0 <= k < target.Length && !(out <= k < out + (end - cursor)) ==> target[k] == old(target[k])
    {
      hide QuartetBytes;
      var scratch := new byte[3];
      var tripleBegin := cursor / 3 * 3;
      segment.QuartetBelowCount(decodedByteCount, cursor / 3);
      segment.QuartetsOfTriple(cursor, Min(end, tripleBegin + 3));
      var tripleSize := ReadDecodedTriple(tripleBegin, scratch, scheduler);
      if tripleSize.Throws? {
        return Throws;
      }
      var copyOffset := cursor - tripleBegin;
      if copyOffset >= tripleSize.value {
        return Throws;
      }
      var copyCount := Min(end, tripleBegin + tripleSize.value) - cursor;
      CopyScratch(scratch, copyCount, cursor, target, out, tripleSize.value);
      copied := Ok(copyCount);
    }

    /** The boundary triple at the tail of a range. */
    method CopyTail(cursor: nat, end: nat, target: array<byte>, out: nat, scheduler: nat -> seq<nat>)
      returns (ok: bool)
      requires Valid() && IsScheduler(scheduler)
      requires cursor < end <= decodedByteCount && end <= cursor / 3 * 3 + 3
      requires out + (end - cursor) <= target.Length
      modifies target
      ensures ok <==> segment.QuartetsOk(cursor, end)
      ensures ok ==> forall i :: 0 <= i < end - cursor ==> Arrived(target, out, cursor, i)
      ensures forall k :: 0 <= k < target.Length && !(out <= k < out + (end - cursor)) ==> target[k] == old(target[k])
    {
      hide QuartetBytes;
      var scratch := new byte[3];
      var tripleBegin := cursor / 3 * 3;
      segment.QuartetBelowCount(decodedByteCount, cursor / 3);
      segment.QuartetsOfTriple(cursor, end);
      var tripleSize := ReadDecodedTriple(tripleBegin, scratch, scheduler);
      if tripleSize.Throws? {
        return false;
      }
      var copyOffset := cursor - tripleBegin;
      var copyCount := end - cursor;
      if copyOffset > tripleSize.value || copyCount > tripleSize.value - copyOffset {
        return false;
      }
      CopyScratch(scratch, copyCount, cursor, target, out, tripleSize.value);
      ok := true;
    }

    /** Some quartets in a row, decoded in place without padding. */
    method DecodeQuartets(k0: nat, m: nat, target: array<byte>, out: nat, scheduler: nat -> seq<nat>)
      returns (ok: bool)
      requires Valid() && IsScheduler(scheduler)
      requires m > 0 && 3 * (k0 + m) <= decodedByteCount && out + 3 * m <= target.Length
      modifies target
      ensures ok <==> segment.QuartetsOk(3 * k0, 3 * (k0 + m))
      ensures ok ==> forall i :: 0 <= i < 3 * m ==> Arrived(target, out, 3 * k0, i)
      ensures forall k :: 0 <= k < target.Length && !(out <= k < out + 3 * m) ==> target[k] == old(target[k])
    {
      hide QuartetBytes;
      var encoded := new byte[m * 4];
      var offset := segment.startOffset + k0 * 4;
      ok := ReadFileRangeIntoParallel(segment.file, offset, encoded, 0, m * 4, options, scheduler);
      if !ok {
        assert segment.Quartet(k0 + m - 1).Throws?;
        return;
      }
      DeliveredAll(segment.file, offset, encoded);
      segment.MiddleDecodes(decodedByteCount, k0, m, encoded[..]);
      ok := DecodeBase64Into(encoded[..], target, out, 3 * m, false);
      if ok {
        ghost var v := Decode(encoded[..], false).value;
        forall i | 0 <= i < 3 * m ensures Arrived(target, out, 3 * k0, i) {
          assert v[i] == target[out..out + 3 * m][i];
        }
      }
    }

    /** One batch of the aligned middle. */
    method ReadAlignedBatchInto(batch: nat, begin: nat, end: nat, target: array<byte>, out: nat, scheduler: nat -> seq<nat>)
      returns (ok: bool)
      requires Valid() && IsScheduler(scheduler)
      requires begin % 3 == 0 && end % 3 == 0 && begin < end <= decodedByteCount && out + (end - begin) <= target.Length
      requires begin + batch * BASE64_DECODED_BYTES_PER_BATCH < end
      modifies target
      ensures !ok ==> !segment.QuartetsOk(begin, end)
      ensures forall i :: 0 <= i < end - begin ==>
                if BatchOf(i) == batch then ok ==> Arrived(target, out, begin, i)
                else target[out + i] == old(target[out + i])
      ensures forall k :: 0 <= k < target.Length && !(out <= k < out + (end - begin)) ==> target[k] == old(target[k])
    {
      hide QuartetBytes, BatchOf, Segment.DecodesTo, Segment.QuartetsOk;
      var skipped := batch * BASE64_DECODED_BYTES_PER_BATCH;
      var batchBegin := begin + skipped;
      var batchByteCount := Min(end - batchBegin, BASE64_DECODED_BYTES_PER_BATCH);
      var k0, m := batchBegin / 3, batchByteCount / 3;
      AlignedBatch(begin, end, batch);
      segment.QuartetsJoin(begin, batchBegin, end);
      segment.QuartetsJoin(batchBegin, batchBegin + batchByteCount, end);
      ok := DecodeQuartets(k0, m, target, out + skipped, scheduler);
      forall i | 0 <= i < end - begin
        ensures BatchOf(i) == batch <==> skipped <= i < skipped + batchByteCount
        ensures ok && skipped <= i < skipped + batchByteCount ==> Arrived(target, out, begin, i)
      {
        BatchRange(batch, i);
        if skipped <= i < skipped + batchByteCount {
          ArrivedShifted(target, out, begin, skipped, i - skipped);
        }
      }
    }

    /** The parallel loop over the batches of the aligned middle. */
    method ReadAlignedMiddleInto(begin: nat, end: nat, target: array<byte>, out: nat, scheduler: nat -> seq<nat>)
      returns (ok: bool)
      requires Valid() && IsScheduler(scheduler)
      requires begin % 3 == 0 && end % 3 == 0 && begin < end <= decodedByteCount && out + (end - begin) <= target.Length
      modifies target
      ensures ok <==> segment.QuartetsOk(begin, end)
      ensures ok ==> forall i :: 0 <= i < end - begin ==> Arrived(target, out, begin, i)
      ensures forall k :: 0 <= k < target.Length && !(out <= k < out + (end - begin)) ==> target[k] == old(target[k])
    {
      hide QuartetBytes, BatchOf, Segment.DecodesTo, Segment.QuartetsOk;
      var batchCount := 1 + (end - begin - 1) / BASE64_DECODED_BYTES_PER_BATCH;
      var order := scheduler(batchCount);
      assert Permutes(order, batchCount);
      ok := true;
      ghost var done := {};
      for t := 0 to batchCount
        invariant forall j :: 0 <= j < t ==> order[j] in done
        invariant !ok ==> !segment.QuartetsOk(begin, end)
        invariant ok ==> forall i :: 0 <= i < end - begin && BatchOf(i) in done ==> Arrived(target, out, begin, i)
        invariant forall k :: 0 <= k < target.Length && !(out <= k < out + (end - begin)) ==> target[k] == old(target[k])
      {
        if !ok {
          return;
        }
        BatchStart(order[t], end - begin);
        ok := ReadAlignedBatchInto(order[t], begin, end, target, out, scheduler);
        done := done + {order[t]};
      }
      forall i | 0 <= i < end - begin ensures BatchOf(i) in done {
        BatchBelow(i, end - begin);
        assert BatchOf(i) in order;
      }
      if ok {
        ArrivedQuartets(begin, end, target, out);
      }
    }

    lemma ArrivedQuartets(begin: nat, end: nat, target: array<byte>, out: nat)
      requires begin % 3 == 0 && begin <= end
      requires forall i :: 0 <= i < end - begin ==> Arrived(target, out, begin, i)
      ensures segment.QuartetsOk(begin, end)
    {
      hide Segment.Quartet;
      forall k: nat | 3 * k < end && begin < 3 * k + 3 ensures segment.Quartet(k).Ok? {
        assert 3 * (begin / 3) == begin;
        assert Arrived(target, out, begin, 3 * k - begin);
        assert 3 * k / 3 == k;
      }
    }

    /** Reads one range of decoded bytes. It succeeds exactly when the range lies in
        the decoded segment and every quartet it touches is well formed. When the
        whole segment decodes, to `v`, it delivers that slice of `v`. */
    method ReadInto(target: array<byte>, byteCount: nat, skipByteCount: nat, scheduler: nat -> seq<nat>)
      returns (ok: bool)
      requires Valid() && IsScheduler(scheduler) && byteCount <= target.Length
      modifies target
      ensures ok <==>
                && skipByteCount + byteCount <= decodedByteCount
                && segment.QuartetsOk(skipByteCount, skipByteCount + byteCount)
      ensures ok ==> forall i :: 0 <= i < byteCount ==> Arrived(target, 0, skipByteCount, i)
      ensures forall k :: byteCount <= k < target.Length ==> target[k] == old(target[k])
      ensures forall v :: segment.Spells(v) ==>
                && (ok <==> skipByteCount + byteCount <= |v|)
                && (ok ==> target[..byteCount] == v[skipByteCount..skipByteCount + byteCount])
    {
      hide Segment.Spells, Segment.DecodesTo, Segment.DecodedCount, Segment.QuartetsOk;
      ok := ReadRange(target, byteCount, skipByteCount, scheduler);
      forall v | segment.Spells(v)
        ensures ok <==> skipByteCount + byteCount <= |v|
        ensures ok ==> target[..byteCount] == v[skipByteCount..skipByteCount + byteCount]
      {
        SliceOfWhole(v, target, byteCount, skipByteCount);
      }
    }

    /** What has arrived is a slice of the whole segment, and nothing is missing for it. */
    lemma SliceOfWhole(v: seq<byte>, target: array<byte>, byteCount: nat, skipByteCount: nat)
      requires Valid() && segment.Spells(v) && byteCount <= target.Length
      ensures |v| == decodedByteCount
      ensures skipByteCount + byteCount <= |v| ==> segment.QuartetsOk(skipByteCount, skipByteCount + byteCount)
      ensures skipByteCount + byteCount <= |v| && (forall i :: 0 <= i < byteCount ==> Arrived(target, 0, skipByteCount, i)) ==>
                target[..byteCount] == v[skipByteCount..skipByteCount + byteCount]
    {
      hide Segment.Spells, Segment.DecodesTo, Segment.Quartet;
      segment.WholeSegment(v);
      if skipByteCount + byteCount <= |v| && forall i :: 0 <= i < byteCount ==> Arrived(target, 0, skipByteCount, i) {
        forall i | 0 <= i < byteCount ensures segment.DecodesTo(skipByteCount + i, target[..byteCount][i]) {
          assert Arrived(target, 0, skipByteCount, i);
        }
        segment.RangeIsSlice(v, target[..byteCount], skipByteCount);
      }
    }

    /** The body of `ReadInto`. */
    method ReadRange(target: array<byte>, byteCount: nat, skipByteCount: nat, scheduler: nat -> seq<nat>)
      returns (ok: bool)
      requires Valid() && IsScheduler(scheduler) && byteCount <= target.Length
      modifies target
      ensures ok <==>
                && skipByteCount + byteCount <= decodedByteCount
                && segment.QuartetsOk(skipByteCount, skipByteCount + byteCount)
      ensures ok ==> forall i :: 0 <= i < byteCount ==> Arrived(target, 0, skipByteCount, i)
      ensures forall k :: byteCount <= k < target.Length ==> target[k] == old(target[k])
    {
      hide QuartetBytes, Segment.DecodesTo, Segment.QuartetsOk;
      if skipByteCount > decodedByteCount || byteCount > decodedByteCount - skipByteCount {
        return false;
      }
      segment.QuartetsOfNothing(skipByteCount);
      if byteCount == 0 {
        return true;
      }
      var decodedCursor := skipByteCount;
      var decodedEnd := decodedCursor + byteCount;
      var out := 0;
      if decodedCursor % 3 != 0 {
        var copied := CopyHead(decodedCursor, decodedEnd, target, out, scheduler);
        segment.QuartetsJoin(skipByteCount, Min(decodedEnd, decodedCursor / 3 * 3 + 3), decodedEnd);
        if copied.Throws? {
          return false;
        }
        decodedCursor, out := decodedCursor + copied.value, out + copied.value;
      }
      segment.QuartetsJoin(skipByteCount, decodedCursor, decodedEnd);
      ghost var afterHead := decodedCursor;
      var middleEnd := decodedEnd / 3 * 3;
      if middleEnd > decodedCursor {
        label beforeMiddle:
        var read := ReadAlignedMiddleInto(decodedCursor, middleEnd, target, out, scheduler);
        segment.QuartetsJoin(decodedCursor, middleEnd, decodedEnd);
        if !read {
          return false;
        }
        forall i | 0 <= i < middleEnd - skipByteCount ensures Arrived(target, 0, skipByteCount, i) {
          if afterHead <= skipByteCount + i {
            ArrivedShifted(target, 0, skipByteCount, out, i - out);
          } else {
            assert old@beforeMiddle(Arrived(target, 0, skipByteCount, i));
          }
        }
        out := out + (middleEnd - decodedCursor);
        decodedCursor := middleEnd;
      }
      ok := true;
      if decodedCursor < decodedEnd {
        label beforeTail:
        ok := CopyTail(decodedCursor, decodedEnd, target, out, scheduler);
        if ok {
          forall i | 0 <= i < byteCount ensures Arrived(target, 0, skipByteCount, i) {
            if decodedCursor <= skipByteCount + i {
              ArrivedShifted(target, 0, skipByteCount, out, i - out);
            } else {
              assert old@beforeTail(Arrived(target, 0, skipByteCount, i));
            }
          }
        }
      }
    }
  }
}
