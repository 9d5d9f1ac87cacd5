/** Laying out an EnSight Gold C Binary geometry, and why indexing it locates exactly
    the arrays that were written. */
module EnsightRoundTrip {
  import opened Bytes
  import opened Collections
  import opened Wrappers
  import opened Words
  import opened EnsightText
  import opened EnsightGeometry

  /** A piece to write; identifiers and connectivity are given as bytes. */
  datatype WrittenPiece = WrittenPiece(
    elementType: ElementType, numElements: nat, ids: seq<byte>, counts: seq<int>, faceNodeCounts: seq<int>,
    connectivity: seq<byte>)

  datatype WrittenPart = WrittenPart(
    id: int, description: string, numNodes: nat, nodeIds: seq<byte>, x: seq<byte>, y: seq<byte>, z: seq<byte>,
    pieces: seq<WrittenPiece>)

  /** A geometry; `extents` are six floats, if any. */
  datatype WrittenGeometry = WrittenGeometry(
    description1: string, description2: string, nodeIdLine: string, elementIdLine: string,
    extents: Option<seq<byte>>, parts: seq<WrittenPart>)

  function SumOf(values: seq<int>): int {
    if values == [] then 0 else SumOf(values[..|values| - 1]) + values[|values| - 1]
  }

  predicate CountArray(values: seq<int>) {
    AllInt32(values) && 0 <= SumOf(values) < TWO_31
  }

  /** How many values the connectivity of a piece has. */
  function ConnectivityCount(p: WrittenPiece): int {
    match p.elementType
    case NSided => SumOf(p.counts)
    case NFaced => SumOf(p.faceNodeCounts)
    case t => p.numElements * NumNodes(t)
  }

  predicate PieceWritable(p: WrittenPiece, hasElementIds: bool) {
    && p.numElements < TWO_31
    && |p.ids| == (if hasElementIds then 4 * p.numElements else 0)
    && CountArray(p.counts) && CountArray(p.faceNodeCounts)
    && |p.counts| == (if p.elementType.NSided? || p.elementType.NFaced? then p.numElements else 0)
    && |p.faceNodeCounts| == (if p.elementType.NFaced? then SumOf(p.counts) else 0)
    && 0 <= ConnectivityCount(p) < TWO_31 && |p.connectivity| == 4 * ConnectivityCount(p)
  }

  predicate PartWritable(p: WrittenPart, hasNodeIds: bool, hasElementIds: bool) {
    && IsInt32(p.id) && FieldText(p.description) && p.numNodes < TWO_31
    && |p.nodeIds| == (if hasNodeIds then 4 * p.numNodes else 0)
    && |p.x| == 4 * p.numNodes && |p.y| == 4 * p.numNodes && |p.z| == 4 * p.numNodes
    && forall k :: 0 <= k < |p.pieces| ==> PieceWritable(p.pieces[k], hasElementIds)
  }

  predicate PartsWritable(parts: seq<WrittenPart>, hasNodeIds: bool, hasElementIds: bool) {
    forall k :: 0 <= k < |parts| ==> PartWritable(parts[k], hasNodeIds, hasElementIds)
  }

  predicate Writable(g: WrittenGeometry) {
    && FieldText(g.description1) && FieldText(g.description2) && FieldText(g.nodeIdLine) && FieldText(g.elementIdLine)
    && (g.extents.Some? ==> |g.extents.value| == 24)
    && PartsWritable(g.parts, HasIds(ToLower(g.nodeIdLine)), HasIds(ToLower(g.elementIdLine)))
  }

  function CountBytes(p: WrittenPiece): seq<byte>
    requires AllInt32(p.counts) && AllInt32(p.faceNodeCounts)
  {
    IntBytes(p.counts, Little) + IntBytes(p.faceNodeCounts, Little)
  }

  function PieceBody(p: WrittenPiece, hasElementIds: bool): seq<byte>
    requires PieceWritable(p, hasElementIds)
  {
    Int32Bytes(p.numElements, Little) + (p.ids + (CountBytes(p) + p.connectivity))
  }

  function PiecesBytes(pieces: seq<WrittenPiece>, pad: byte, hasElementIds: bool): seq<byte>
    requires forall k :: 0 <= k < |pieces| ==> PieceWritable(pieces[k], hasElementIds)
  {
    if pieces == [] then []
    else
      Field(NameOf(pieces[0].elementType), pad) +
      (PieceBody(pieces[0], hasElementIds) + PiecesBytes(pieces[1..], pad, hasElementIds))
  }

  const PART: string := "part"
  const COORDINATES: string := "coordinates"
  const EXTENTS: string := "extents"
  const C_BINARY: string := "C Binary"

  /** The arrays of a part, and its pieces. */
  function PartArrays(p: WrittenPart, pad: byte, hasNodeIds: bool, hasElementIds: bool): seq<byte>
    requires PartWritable(p, hasNodeIds, hasElementIds)
  {
    p.nodeIds + (p.x + (p.y + (p.z + PiecesBytes(p.pieces, pad, hasElementIds))))
  }

  function PartBody(p: WrittenPart, pad: byte, hasNodeIds: bool, hasElementIds: bool): seq<byte>
    requires PartWritable(p, hasNodeIds, hasElementIds)
  {
    Int32Bytes(p.id, Little) + (Field(p.description, pad) + (Field(COORDINATES, pad) +
    (Int32Bytes(p.numNodes, Little) + PartArrays(p, pad, hasNodeIds, hasElementIds))))
  }

  function PartsBytes(parts: seq<WrittenPart>, pad: byte, hasNodeIds: bool, hasElementIds: bool): seq<byte>
    requires PartsWritable(parts, hasNodeIds, hasElementIds)
  {
    if parts == [] then []
    else Field(PART, pad) + (PartBody(parts[0], pad, hasNodeIds, hasElementIds) +
                             PartsBytes(parts[1..], pad, hasNodeIds, hasElementIds))
  }

  function ExtentBytes(extents: Option<seq<byte>>, pad: byte): seq<byte> {
    if extents.None? then [] else Field(EXTENTS, pad) + extents.value
  }

  function FileBytes(g: WrittenGeometry, pad: byte): seq<byte>
    requires Writable(g)
  {
    Field(C_BINARY, pad) + (Field(g.description1, pad) + (Field(g.description2, pad) + (Field(g.nodeIdLine, pad) +
    (Field(g.elementIdLine, pad) + (ExtentBytes(g.extents, pad) +
    PartsBytes(g.parts, pad, HasIds(ToLower(g.nodeIdLine)), HasIds(ToLower(g.elementIdLine))))))))
  }

  // ------------------------------------------------ what the index must say

  /** The index entry of a piece leads to the arrays written. */
  predicate LocatesPiece(file: seq<byte>, x: PieceIndex, p: WrittenPiece) {
    && AllInt32(p.counts) && AllInt32(p.faceNodeCounts)
    && x.elementType == p.elementType && x.numElements == p.numElements
    && 4 * x.totalConnectivityCount == |p.connectivity| && At(file, x.connectivityOffset, p.connectivity)
    && (p.elementType.NSided? ==> At(file, x.nodeCountsOffset, IntBytes(p.counts, Little)))
    && (p.elementType.NFaced? ==>
          && At(file, x.faceCountsOffset, IntBytes(p.counts, Little))
          && x.numFaces == |p.faceNodeCounts| && At(file, x.faceNodeCountsOffset, IntBytes(p.faceNodeCounts, Little)))
  }

  predicate LocatesPieces(file: seq<byte>, xs: seq<PieceIndex>, first: nat, ps: seq<WrittenPiece>) {
    |xs| == |ps| && forall k :: 0 <= k < |ps| ==> LocatesPiece(file, xs[k], ps[k]) && xs[k].id == first + k
  }

  predicate LocatesHead(file: seq<byte>, x: PartIndex, p: WrittenPart) {
    && x.id == p.id && x.description == p.description && x.numNodes == p.numNodes
    && At(file, x.coordXOffset, p.x) && At(file, x.coordYOffset, p.y) && At(file, x.coordZOffset, p.z)
  }

  predicate LocatesPart(file: seq<byte>, x: PartIndex, p: WrittenPart) {
    LocatesHead(file, x, p) && LocatesPieces(file, x.pieces, 0, p.pieces)
  }

  predicate LocatesParts(file: seq<byte>, xs: seq<PartIndex>, ps: seq<WrittenPart>) {
    |xs| == |ps| && forall k :: 0 <= k < |ps| ==> LocatesPart(file, xs[k], ps[k])
  }

  // ----------------------------------------------------- reading each field

  predicate IsPad(pad: byte) {
    pad == 0 || pad == 32
  }

  function Here(pos: nat): Stream {
    Stream(pos, false)
  }

  lemma TextOf(file: seq<byte>, pos: nat, s: string, pad: byte)
    requires FieldText(s) && IsPad(pad) && At(file, pos, Field(s, pad))
    ensures Text(file, Here(pos)) == (s, Here(pos + FIELD))
    ensures LowerText(file, Here(pos)) == (ToLower(s), Here(pos + FIELD))
  {
    hide FixedString, Field;
    FieldReads(s, pad);
  }

  lemma IntOf(file: seq<byte>, pos: nat, n: int, initial: int)
    requires IsInt32(n) && IsInt32(initial) && At(file, pos, Int32Bytes(n, Little))
    ensures Int(file, Here(pos), initial) == (n, Here(pos + 4))
  {
    hide Int32Bytes, Int32;
    var b := Int32Bytes(n, Little);
    assert b + Int32Bytes(initial, Little)[4..] == b;
  }

  lemma {:induction false} SumAtOf(file: seq<byte>, pos: nat, values: seq<int>, n: nat)
    requires AllInt32(values) && At(file, pos, IntBytes(values, Little)) && n <= |values|
    ensures SumAt(file, pos, n) == SumOf(values[..n])
  {
    hide Int32Bytes, Int32, IntBytes;
    if n > 0 {
      SumAtOf(file, pos, values, n - 1);
      IntBytesAt(values, Little, n - 1);
      WordIn(file, pos, |values|, n - 1);
      assert values[..n][..n - 1] == values[..n - 1];
    }
  }

  lemma NothingSums(values: seq<int>)
    ensures |values| == 0 ==> SumOf(values) == 0
  {
  }

  lemma CountsSum(file: seq<byte>, pos: nat, values: seq<int>)
    requires CountArray(values) && At(file, pos, IntBytes(values, Little))
    ensures Int32Sum(file, Here(pos), |values|) == Done((SumOf(values), Here(pos + 4 * |values|)))
  {
    hide SumAt, SumOf, IntBytes;
    NothingSums(values);
    SumAtOf(file, pos, values, |values|);
    assert values[..|values|] == values;
  }

  // --------------------------------------------------------------- one piece

  lemma CountsOf(file: seq<byte>, pos: nat, p: WrittenPiece, id: nat, hasElementIds: bool)
    requires PieceWritable(p, hasElementIds) && At(file, pos, CountBytes(p))
    ensures var r := Counts(file, Here(pos), EmptyPiece(id, p.elementType, p.numElements));
            && r.Done? && r.value.1 == Here(pos + |CountBytes(p)|)
            && r.value.0.id == id && r.value.0.elementType == p.elementType && r.value.0.numElements == p.numElements
            && r.value.0.totalConnectivityCount == ConnectivityCount(p)
            && (p.elementType.NSided? ==> r.value.0.nodeCountsOffset == pos)
            && (p.elementType.NFaced? ==>
                  && r.value.0.faceCountsOffset == pos && r.value.0.numFaces == |p.faceNodeCounts|
                  && r.value.0.faceNodeCountsOffset == pos + 4 * |p.counts|)
  {
    hide IntBytes, Int32Sum, At;
    AtSplit(file, pos, IntBytes(p.counts, Little), IntBytes(p.faceNodeCounts, Little));
    CountsSum(file, pos, p.counts);
    CountsSum(file, pos + 4 * |p.counts|, p.faceNodeCounts);
  }

  lemma PieceOf(file: seq<byte>, pos: nat, p: WrittenPiece, id: nat, hasElementIds: bool)
    requires PieceWritable(p, hasElementIds) && At(file, pos, PieceBody(p, hasElementIds))
    ensures var r := Piece(file, Here(pos), NameOf(p.elementType), id, hasElementIds);
            && r.Done? && r.value.1 == Here(pos + |PieceBody(p, hasElementIds)|)
            && LocatesPiece(file, r.value.0, p) && r.value.0.id == id
  {
    hide IntBytes, Int32Bytes, Int, At, Counts, ParseElementType, ConnectivityCount, SumOf;
    var (n, ids, counts) := (Int32Bytes(p.numElements, Little), p.ids, CountBytes(p));
    AtSplit(file, pos, n, ids + (counts + p.connectivity));
    AtSplit(file, pos + 4, ids, counts + p.connectivity);
    AtSplit(file, pos + 4 + |ids|, counts, p.connectivity);
    IntOf(file, pos, p.numElements, 0);
    NameParses(p.elementType);
    CountsOf(file, pos + 4 + |ids|, p, id, hasElementIds);
    AtSplit(file, pos + 4 + |ids|, IntBytes(p.counts, Little), IntBytes(p.faceNodeCounts, Little));
  }

  // -------------------------------------------------------------- the pieces

  /** What stands behind the pieces of a part: the next part, or the end of the file. */
  predicate PartOrEnd(file: seq<byte>, pos: nat) {
    var header := LowerText(file, Here(pos)).0; header == "" || header == PART
  }

  lemma LocatesPiecesCons(
      file: seq<byte>, x: PieceIndex, p: WrittenPiece, first: nat, xs: seq<PieceIndex>, ps: seq<WrittenPiece>)
    requires LocatesPiece(file, x, p) && x.id == first && LocatesPieces(file, xs, first + 1, ps)
    ensures LocatesPieces(file, [x] + xs, first, [p] + ps)
  {
    hide LocatesPiece;
    forall k | 0 <= k < |[p] + ps|
      ensures LocatesPiece(file, ([x] + xs)[k], ([p] + ps)[k]) && ([x] + xs)[k].id == first + k
    {
      if k > 0 {
        assert LocatesPiece(file, xs[k - 1], ps[k - 1]) && xs[k - 1].id == first + 1 + (k - 1);
      }
    }
  }

  lemma {:induction false} PiecesBytesCons(pieces: seq<WrittenPiece>, pad: byte, hasElementIds: bool)
    requires (forall k :: 0 <= k < |pieces| ==> PieceWritable(pieces[k], hasElementIds)) && pieces != []
    ensures PiecesBytes(pieces, pad, hasElementIds) ==
            Field(NameOf(pieces[0].elementType), pad) +
            (PieceBody(pieces[0], hasElementIds) + PiecesBytes(pieces[1..], pad, hasElementIds))
  {
  }

  /** Unfolds one piece: its header has been read, and it is followed by others. */
  lemma {:induction false} PiecesCons(
      file: seq<byte>, st: Stream, n: nat, hasElementIds: bool, limit: nat, header: string, next: Stream)
    requires LowerText(file, st) == (header, next) && header != "" && header != PART && limit > 0
    ensures var piece := Piece(file, next, header, n, hasElementIds);
            piece.Done? ==>
              var more := Pieces(file, piece.value.1, n + 1, hasElementIds, limit - 1);
              more.Done? ==> Pieces(file, st, n, hasElementIds, limit) ==
                             Done(more.value.(pieces := [piece.value.0] + more.value.pieces))
  {
    hide LowerText, Piece;
  }

  lemma HeaderOf(file: seq<byte>, pos: nat, t: ElementType, pad: byte)
    requires IsPad(pad) && At(file, pos, Field(NameOf(t), pad))
    ensures LowerText(file, Here(pos)) == (NameOf(t), Here(pos + FIELD)) && NameOf(t) != "" && NameOf(t) != PART
  {
    hide At, Field, LowerText;
    TextOf(file, pos, NameOf(t), pad);
    LowerUnchanged(NameOf(t));
  }

  lemma {:induction false} NoPieces(file: seq<byte>, pos: nat, n: nat, hasElementIds: bool, limit: nat)
    requires PartOrEnd(file, pos) && limit > 0
    ensures var r := LowerText(file, Here(pos));
            Pieces(file, Here(pos), n, hasElementIds, limit) == Done(Tail([], r.0, r.1, limit - 1))
    ensures LocatesPieces(file, [], n, [])
  {
    hide LowerText;
  }

  lemma {:induction false} PiecesOf(
      file: seq<byte>, pos: nat, ps: seq<WrittenPiece>, n: nat, pad: byte, hasElementIds: bool, limit: nat)
    requires |ps| < limit
    requires IsPad(pad) && forall k :: 0 <= k < |ps| ==> PieceWritable(ps[k], hasElementIds)
    requires At(file, pos, PiecesBytes(ps, pad, hasElementIds))
    requires PartOrEnd(file, pos + |PiecesBytes(ps, pad, hasElementIds)|)
    ensures var end := LowerText(file, Here(pos + |PiecesBytes(ps, pad, hasElementIds)|));
            var r := Pieces(file, Here(pos), n, hasElementIds, limit);
            && r.Done? && r.value.header == end.0 && r.value.end == end.1 && r.value.left == limit - |ps| - 1
            && LocatesPieces(file, r.value.pieces, n, ps)
    decreases |ps|
  {
    hide *;
    if ps == [] {
      NoPiecesBytes(pad, hasElementIds);
      NoPieces(file, pos, n, hasElementIds, limit);
    } else {
      var p, rest := ps[0], ps[1..];
      var (name, body) := (Field(NameOf(p.elementType), pad), PieceBody(p, hasElementIds));
      var more := PiecesBytes(rest, pad, hasElementIds);
      PiecesBytesCons(ps, pad, hasElementIds);
      AtSplit(file, pos, name, body + more);
      AtSplit(file, pos + FIELD, body, more);
      HeaderOf(file, pos, p.elementType, pad);
      PieceOf(file, Ahead(pos), p, n, hasElementIds);
      var next := Ahead(pos) + |body|;
      PiecesOf(file, next, rest, n + 1, pad, hasElementIds, limit - 1);
      assert next + |more| == pos + |name + (body + more)|;
      PiecesCons(file, Here(pos), n, hasElementIds, limit, NameOf(p.elementType), Here(Ahead(pos)));
      var x := Piece(file, Here(Ahead(pos)), NameOf(p.elementType), n, hasElementIds).value;
      LocatesPiecesCons(file, x.0, p, n, Pieces(file, x.1, n + 1, hasElementIds, limit - 1).value.pieces, rest);
      assert ps == [p] + rest;
    }
  }

  function Ahead(pos: nat): (r: nat)
    ensures r == pos + FIELD
  {
    pos + FIELD
  }

  lemma NoPiecesBytes(pad: byte, hasElementIds: bool)
    ensures PiecesBytes([], pad, hasElementIds) == []
  {
  }

  // ------------------------------------------------------------ parts, file

  lemma SkipOf(file: seq<byte>, pos: nat, bytes: seq<byte>, n: nat)
    requires |bytes| == 4 * n && At(file, pos, bytes)
    ensures Skip(Here(pos), 4 * n) == Here(pos + |bytes|)
  {
  }

  /** Where the arrays of a part start, given where the part does. */
  function XAt(p: WrittenPart, pos: nat): nat {
    pos + 8 + 2 * FIELD + |p.nodeIds|
  }

  function YAt(p: WrittenPart, pos: nat): nat {
    XAt(p, pos) + |p.x|
  }

  function ZAt(p: WrittenPart, pos: nat): nat {
    YAt(p, pos) + |p.y|
  }

  function PiecesAt(p: WrittenPart, pos: nat): nat {
    ZAt(p, pos) + |p.z|
  }

  predicate ArraysAt(file: seq<byte>, pos: nat, p: WrittenPart) {
    && At(file, pos + 8 + 2 * FIELD, p.nodeIds)
    && At(file, XAt(p, pos), p.x) && At(file, YAt(p, pos), p.y) && At(file, ZAt(p, pos), p.z)
  }

  predicate HeadAt(file: seq<byte>, pos: nat, p: WrittenPart, pad: byte)
    requires FieldText(p.description) && FieldText(COORDINATES) && IsInt32(p.id) && IsInt32(p.numNodes)
  {
    && At(file, pos, Int32Bytes(p.id, Little))
    && At(file, pos + 4, Field(p.description, pad))
    && At(file, pos + 4 + FIELD, Field(COORDINATES, pad))
    && At(file, pos + 4 + 2 * FIELD, Int32Bytes(p.numNodes, Little))
  }

  lemma ArrayFields(file: seq<byte>, pos: nat, p: WrittenPart, pad: byte, hasNodeIds: bool, hasElementIds: bool)
    requires PartWritable(p, hasNodeIds, hasElementIds)
    requires At(file, pos + 8 + 2 * FIELD, PartArrays(p, pad, hasNodeIds, hasElementIds))
    ensures ArraysAt(file, pos, p) && At(file, PiecesAt(p, pos), PiecesBytes(p.pieces, pad, hasElementIds))
    ensures PiecesAt(p, pos) + |PiecesBytes(p.pieces, pad, hasElementIds)| ==
            pos + 8 + 2 * FIELD + |PartArrays(p, pad, hasNodeIds, hasElementIds)|
  {
    hide At, PiecesBytes;
    var pieces := PiecesBytes(p.pieces, pad, hasElementIds);
    AtSplit(file, pos + 8 + 2 * FIELD, p.nodeIds, p.x + (p.y + (p.z + pieces)));
    AtSplit(file, XAt(p, pos), p.x, p.y + (p.z + pieces));
    AtSplit(file, YAt(p, pos), p.y, p.z + pieces);
    AtSplit(file, ZAt(p, pos), p.z, pieces);
  }

  lemma HeadFields(file: seq<byte>, pos: nat, p: WrittenPart, pad: byte, hasNodeIds: bool, hasElementIds: bool)
    requires PartWritable(p, hasNodeIds, hasElementIds) && At(file, pos, PartBody(p, pad, hasNodeIds, hasElementIds))
    ensures FieldText(COORDINATES) && HeadAt(file, pos, p, pad)
    ensures At(file, pos + 8 + 2 * FIELD, PartArrays(p, pad, hasNodeIds, hasElementIds))
    ensures |PartBody(p, pad, hasNodeIds, hasElementIds)| == 8 + 2 * FIELD + |PartArrays(p, pad, hasNodeIds, hasElementIds)|
  {
    hide At, PartArrays, Int32Bytes, Field;
    var c := PartArrays(p, pad, hasNodeIds, hasElementIds);
    var b := Field(COORDINATES, pad) + (Int32Bytes(p.numNodes, Little) + c);
    AtSplit(file, pos, Int32Bytes(p.id, Little), Field(p.description, pad) + b);
    AtSplit(file, pos + 4, Field(p.description, pad), b);
    AtSplit(file, pos + 4 + FIELD, Field(COORDINATES, pad), Int32Bytes(p.numNodes, Little) + c);
    AtSplit(file, pos + 4 + 2 * FIELD, Int32Bytes(p.numNodes, Little), c);
  }

  /** What reading the head of a part yields, read by read. */
  lemma PartHeadBy(
      file: seq<byte>, s0: Stream, s1: Stream, s2: Stream, s3: Stream, s4: Stream, x: nat, y: nat, z: nat, end: nat,
      hasNodeIds: bool, id: int, description: string, n: int)
    requires Int(file, s0, -1) == (id, s1) && Text(file, s1) == (description, s2)
    requires LowerText(file, s2) == (COORDINATES, s3) && Int(file, s3, 0) == (n, s4)
    requires (if hasNodeIds then Skip(s4, 4 * n) else s4) == Here(x)
    requires Skip(Here(x), 4 * n) == Here(y) && Skip(Here(y), 4 * n) == Here(z)
    requires Skip(Here(z), 4 * n) == Here(end)
    ensures PartHead(file, s0, hasNodeIds) == Done((PartIndex(id, description, n, x, y, z, []), Here(end)))
  {
    hide Int, Text, LowerText, Skip;
  }

  lemma HeadReads(file: seq<byte>, pos: nat, p: WrittenPart, pad: byte)
    requires IsPad(pad) && FieldText(p.description) && FieldText(COORDINATES) && IsInt32(p.id) && IsInt32(p.numNodes)
    requires HeadAt(file, pos, p, pad)
    ensures Int(file, Here(pos), -1) == (p.id, Here(pos + 4))
    ensures Text(file, Here(pos + 4)) == (p.description, Here(pos + 4 + FIELD))
    ensures LowerText(file, Here(pos + 4 + FIELD)) == (COORDINATES, Here(pos + 4 + 2 * FIELD))
    ensures Int(file, Here(pos + 4 + 2 * FIELD), 0) == (p.numNodes, Here(pos + 8 + 2 * FIELD))
  {
    hide At, Text, LowerText, Int, Field, Int32Bytes;
    TextOf(file, pos + 4, p.description, pad);
    TextOf(file, pos + 4 + FIELD, COORDINATES, pad);
    LowerUnchanged(COORDINATES);
    IntOf(file, pos, p.id, -1);
    IntOf(file, pos + 4 + 2 * FIELD, p.numNodes, 0);
  }

  lemma ArraySkips(file: seq<byte>, pos: nat, p: WrittenPart, hasNodeIds: bool, hasElementIds: bool)
    requires PartWritable(p, hasNodeIds, hasElementIds) && ArraysAt(file, pos, p)
    ensures var n := 4 * p.numNodes;
            && (if hasNodeIds then Skip(Here(pos + 8 + 2 * FIELD), n) else Here(pos + 8 + 2 * FIELD)) == Here(XAt(p, pos))
            && Skip(Here(XAt(p, pos)), n) == Here(YAt(p, pos))
            && Skip(Here(YAt(p, pos)), n) == Here(ZAt(p, pos))
            && Skip(Here(ZAt(p, pos)), n) == Here(PiecesAt(p, pos))
  {
    hide At;
    if hasNodeIds {
      SkipOf(file, pos + 8 + 2 * FIELD, p.nodeIds, p.numNodes);
    }
    SkipOf(file, XAt(p, pos), p.x, p.numNodes);
    SkipOf(file, YAt(p, pos), p.y, p.numNodes);
    SkipOf(file, ZAt(p, pos), p.z, p.numNodes);
  }

  lemma HeadOf(file: seq<byte>, pos: nat, p: WrittenPart, pad: byte, hasNodeIds: bool, hasElementIds: bool)
    requires IsPad(pad) && PartWritable(p, hasNodeIds, hasElementIds)
    requires At(file, pos, PartBody(p, pad, hasNodeIds, hasElementIds))
    ensures var r := PartHead(file, Here(pos), hasNodeIds);
            && r.Done? && r.value.1 == Here(PiecesAt(p, pos))
            && LocatesHead(file, r.value.0, p) && r.value.0.pieces == []
  {
    HeadFields(file, pos, p, pad, hasNodeIds, hasElementIds);
    ArrayFields(file, pos, p, pad, hasNodeIds, hasElementIds);
    HeadReads(file, pos, p, pad);
    ArraySkips(file, pos, p, hasNodeIds, hasElementIds);
    hide PartHead, Int, Text, LowerText, Skip, At, HeadAt, PartBody, PartArrays, PiecesBytes, XAt, YAt, ZAt, PiecesAt;
    PartHeadBy(
      file, Here(pos), Here(pos + 4), Here(pos + 4 + FIELD), Here(pos + 4 + 2 * FIELD), Here(pos + 8 + 2 * FIELD),
      XAt(p, pos), YAt(p, pos), ZAt(p, pos), PiecesAt(p, pos), hasNodeIds, p.id, p.description, p.numNodes);
  }

  lemma PartOf(
      file: seq<byte>, pos: nat, p: WrittenPart, pad: byte, hasNodeIds: bool, hasElementIds: bool, limit: nat)
    requires |p.pieces| < limit
    requires IsPad(pad) && PartWritable(p, hasNodeIds, hasElementIds)
    requires At(file, pos, PartBody(p, pad, hasNodeIds, hasElementIds))
    requires PartOrEnd(file, pos + |PartBody(p, pad, hasNodeIds, hasElementIds)|)
    ensures var next := LowerText(file, Here(pos + |PartBody(p, pad, hasNodeIds, hasElementIds)|));
            var r := Part(file, Here(pos), hasNodeIds, hasElementIds, limit);
            && r.Done? && LocatesPart(file, r.value.0, p)
            && r.value.1 == next.0 && r.value.2 == next.1 && r.value.3 == limit - |p.pieces| - 1
  {
    hide *;
    PiecesWritable(p, hasNodeIds, hasElementIds);
    HeadOf(file, pos, p, pad, hasNodeIds, hasElementIds);
    HeadFields(file, pos, p, pad, hasNodeIds, hasElementIds);
    ArrayFields(file, pos, p, pad, hasNodeIds, hasElementIds);
    PiecesOf(file, PiecesAt(p, pos), p.pieces, 0, pad, hasElementIds, limit);
    PartBy(file, Here(pos), hasNodeIds, hasElementIds, limit, p);
  }

  lemma PartBy(file: seq<byte>, st: Stream, hasNodeIds: bool, hasElementIds: bool, limit: nat, p: WrittenPart)
    requires var head := PartHead(file, st, hasNodeIds);
             && head.Done? && LocatesHead(file, head.value.0, p)
             && var tail := Pieces(file, head.value.1, 0, hasElementIds, limit);
                tail.Done? && LocatesPieces(file, tail.value.pieces, 0, p.pieces)
    ensures var head := PartHead(file, st, hasNodeIds).value;
            var tail := Pieces(file, head.1, 0, hasElementIds, limit).value;
            var r := Part(file, st, hasNodeIds, hasElementIds, limit);
            && r.Done? && LocatesPart(file, r.value.0, p)
            && r.value.1 == tail.header && r.value.2 == tail.end && r.value.3 == tail.left
  {
    hide PartHead, Pieces, At, LocatesPieces;
  }

  lemma PiecesWritable(p: WrittenPart, hasNodeIds: bool, hasElementIds: bool)
    requires PartWritable(p, hasNodeIds, hasElementIds)
    ensures forall k :: 0 <= k < |p.pieces| ==> PieceWritable(p.pieces[k], hasElementIds)
  {
  }

  lemma EndOfFile(file: seq<byte>)
    ensures LowerText(file, Here(|file|)).0 == "" && PartOrEnd(file, |file|)
  {
    assert Chars([]) == "";
  }

  lemma PartHeader(file: seq<byte>, pos: nat, pad: byte)
    requires IsPad(pad) && FieldText(PART) && At(file, pos, Field(PART, pad))
    ensures LowerText(file, Here(pos)) == (PART, Here(pos + FIELD)) && PartOrEnd(file, pos)
  {
    hide At, Field, LowerText;
    TextOf(file, pos, PART, pad);
    LowerUnchanged(PART);
  }

  lemma {:induction false} PartsCons(file: seq<byte>, st: Stream, hasNodeIds: bool, hasElementIds: bool, limit: nat)
    ensures var part := Part(file, st, hasNodeIds, hasElementIds, limit);
            part.Done? ==>
              var more := Parts(file, part.value.1, part.value.2, hasNodeIds, hasElementIds, part.value.3);
              more.Done? ==>
                Parts(file, PART, st, hasNodeIds, hasElementIds, limit) == Done([part.value.0] + more.value)
  {
    hide Part;
    PartsStep(file, PART, st, hasNodeIds, hasElementIds, limit, []);
  }

  lemma {:induction false} NoParts(
      file: seq<byte>, st: Stream, hasNodeIds: bool, hasElementIds: bool, limit: nat, pad: byte)
    ensures Parts(file, "", st, hasNodeIds, hasElementIds, limit) == Done([]) && LocatesParts(file, [], [])
    ensures PartsBytes([], pad, hasNodeIds, hasElementIds) == []
  {
  }

  lemma LocatesPartsCons(file: seq<byte>, x: PartIndex, p: WrittenPart, xs: seq<PartIndex>, ps: seq<WrittenPart>)
    requires LocatesPart(file, x, p) && LocatesParts(file, xs, ps)
    ensures LocatesParts(file, [x] + xs, [p] + ps)
  {
    hide LocatesPart;
  }

  lemma {:induction false} PartsBytesCons(parts: seq<WrittenPart>, pad: byte, hasNodeIds: bool, hasElementIds: bool)
    requires PartsWritable(parts, hasNodeIds, hasElementIds) && parts != []
    ensures FieldText(PART) && PartWritable(parts[0], hasNodeIds, hasElementIds)
    ensures PartsWritable(parts[1..], hasNodeIds, hasElementIds)
    ensures PartsBytes(parts, pad, hasNodeIds, hasElementIds) ==
            Field(PART, pad) + (PartBody(parts[0], pad, hasNodeIds, hasElementIds) +
                                PartsBytes(parts[1..], pad, hasNodeIds, hasElementIds))
  {
  }

  /** How many headers are read in the parts: one behind every piece of a part, and one
      behind the coordinates. */
  function Headers(parts: seq<WrittenPart>): nat {
    if parts == [] then 0 else |parts[0].pieces| + 1 + Headers(parts[1..])
  }

  lemma {:induction false} HeadersCons(parts: seq<WrittenPart>)
    requires parts != []
    ensures Headers(parts) == |parts[0].pieces| + 1 + Headers(parts[1..])
  {
  }

  /** Parts up to the end of the file, header and all. */
  lemma {:induction false} PartsOf(
      file: seq<byte>, pos: nat, ps: seq<WrittenPart>, pad: byte, hasNodeIds: bool, hasElementIds: bool, limit: nat)
    requires Headers(ps) <= limit
    requires IsPad(pad) && PartsWritable(ps, hasNodeIds, hasElementIds)
    requires At(file, pos, PartsBytes(ps, pad, hasNodeIds, hasElementIds))
    requires pos + |PartsBytes(ps, pad, hasNodeIds, hasElementIds)| == |file|
    ensures PartOrEnd(file, pos)
    ensures var (header, st) := LowerText(file, Here(pos));
            var r := Parts(file, header, st, hasNodeIds, hasElementIds, limit);
            r.Done? && LocatesParts(file, r.value, ps)
    decreases |ps|
  {
    hide *;
    if ps == [] {
      NoParts(file, LowerText(file, Here(pos)).1, hasNodeIds, hasElementIds, limit, pad);
      EndOfFile(file);
    } else {
      var p, rest := ps[0], ps[1..];
      PartsBytesCons(ps, pad, hasNodeIds, hasElementIds);
      var header, body := Field(PART, pad), PartBody(p, pad, hasNodeIds, hasElementIds);
      var more := PartsBytes(rest, pad, hasNodeIds, hasElementIds);
      AtSplit(file, pos, header, body + more);
      AtSplit(file, pos + FIELD, body, more);
      PartHeader(file, pos, pad);
      var next := pos + FIELD + |body|;
      assert next + |more| == pos + |header + (body + more)|;
      HeadersCons(ps);
      PartsOf(file, next, rest, pad, hasNodeIds, hasElementIds, limit - |p.pieces| - 1);
      PartOf(file, Ahead(pos), p, pad, hasNodeIds, hasElementIds, limit);
      PartsCons(file, Here(Ahead(pos)), hasNodeIds, hasElementIds, limit);
      var x := Part(file, Here(Ahead(pos)), hasNodeIds, hasElementIds, limit).value;
      LocatesPartsCons(file, x.0, p, Parts(file, x.1, x.2, hasNodeIds, hasElementIds, x.3).value, rest);
      assert ps == [p] + rest;
    }
  }

  lemma FirstHeaderPlain(file: seq<byte>, pos: nat)
    requires PartOrEnd(file, pos)
    ensures FirstHeader(file, Here(pos)) == LowerText(file, Here(pos))
  {
    hide LowerText;
  }

  lemma FirstHeaderBehind(file: seq<byte>, pos: nat)
    requires LowerText(file, Here(pos)) == (EXTENTS, Here(pos + FIELD)) && PartOrEnd(file, pos + FIELD + 24)
    ensures FirstHeader(file, Here(pos)) == LowerText(file, Here(pos + FIELD + 24))
  {
    hide LowerText;
  }

  lemma ExtentsHeader(file: seq<byte>, pos: nat, pad: byte)
    requires IsPad(pad) && FieldText(EXTENTS) && At(file, pos, Field(EXTENTS, pad))
    ensures LowerText(file, Here(pos)) == (EXTENTS, Here(pos + FIELD))
  {
    hide At, Field, LowerText;
    TextOf(file, pos, EXTENTS, pad);
    LowerUnchanged(EXTENTS);
  }

  lemma HeaderBehindExtents(file: seq<byte>, pos: nat, extents: Option<seq<byte>>, pad: byte)
    requires IsPad(pad) && (extents.Some? ==> |extents.value| == 24) && FieldText(EXTENTS)
    requires At(file, pos, ExtentBytes(extents, pad)) && PartOrEnd(file, pos + |ExtentBytes(extents, pad)|)
    ensures FirstHeader(file, Here(pos)) == LowerText(file, Here(pos + |ExtentBytes(extents, pad)|))
  {
    hide LowerText, Field, FirstHeader, PartOrEnd, At;
    if extents.None? {
      FirstHeaderPlain(file, pos);
    } else {
      AtSplit(file, pos, Field(EXTENTS, pad), extents.value);
      ExtentsHeader(file, pos, pad);
      FirstHeaderBehind(file, pos);
    }
  }

  predicate LinesAt(file: seq<byte>, g: WrittenGeometry, pad: byte)
    requires Writable(g) && FieldText(C_BINARY)
  {
    && At(file, 0, Field(C_BINARY, pad))
    && At(file, FIELD, Field(g.description1, pad))
    && At(file, 2 * FIELD, Field(g.description2, pad))
    && At(file, 3 * FIELD, Field(g.nodeIdLine, pad))
    && At(file, 4 * FIELD, Field(g.elementIdLine, pad))
  }

  lemma FileFields(file: seq<byte>, g: WrittenGeometry, pad: byte)
    requires Writable(g) && At(file, 0, FileBytes(g, pad))
    ensures var parts := PartsBytes(g.parts, pad, HasIds(ToLower(g.nodeIdLine)), HasIds(ToLower(g.elementIdLine)));
            var at := 5 * FIELD + |ExtentBytes(g.extents, pad)|;
            && FieldText(C_BINARY) && LinesAt(file, g, pad) && At(file, 5 * FIELD, ExtentBytes(g.extents, pad))
            && At(file, at, parts) && at + |parts| == |FileBytes(g, pad)|
  {
    hide PartsBytes, ExtentBytes, Field, HasIds, ToLower, At;
    var parts := PartsBytes(g.parts, pad, HasIds(ToLower(g.nodeIdLine)), HasIds(ToLower(g.elementIdLine)));
    var e := ExtentBytes(g.extents, pad);
    FiveFields(
      file, Field(C_BINARY, pad), Field(g.description1, pad), Field(g.description2, pad), Field(g.nodeIdLine, pad),
      Field(g.elementIdLine, pad), e + parts);
    AtSplit(file, 5 * FIELD, e, parts);
  }

  lemma FiveFields(
      file: seq<byte>, a: seq<byte>, b: seq<byte>, c: seq<byte>, d: seq<byte>, e: seq<byte>, rest: seq<byte>)
    requires |a| == FIELD && |b| == FIELD && |c| == FIELD && |d| == FIELD && |e| == FIELD
    requires At(file, 0, a + (b + (c + (d + (e + rest)))))
    ensures At(file, 0, a) && At(file, FIELD, b) && At(file, 2 * FIELD, c) && At(file, 3 * FIELD, d)
    ensures At(file, 4 * FIELD, e) && At(file, 5 * FIELD, rest)
  {
    hide At;
    AtSplit(file, 0, a, b + (c + (d + (e + rest))));
    AtSplit(file, FIELD, b, c + (d + (e + rest)));
    AtSplit(file, 2 * FIELD, c, d + (e + rest));
    AtSplit(file, 3 * FIELD, d, e + rest);
    AtSplit(file, 4 * FIELD, e, rest);
  }

  lemma LinesRead(file: seq<byte>, g: WrittenGeometry, pad: byte)
    requires IsPad(pad) && Writable(g) && FieldText(C_BINARY) && LinesAt(file, g, pad)
    ensures Preamble(file) ==
            var (header, st) := FirstHeader(file, Here(5 * FIELD));
            Done(Start(HasIds(ToLower(g.nodeIdLine)), HasIds(ToLower(g.elementIdLine)), header, st))
  {
    hide At, Field, HasIds, ToLower, LowerText, Text, FirstHeader;
    TextOf(file, 0, C_BINARY, pad);
    TextOf(file, FIELD, g.description1, pad);
    TextOf(file, 2 * FIELD, g.description2, pad);
    TextOf(file, 3 * FIELD, g.nodeIdLine, pad);
    TextOf(file, 4 * FIELD, g.elementIdLine, pad);
  }

  lemma BuildBy(file: seq<byte>, limit: nat, start: Start, ps: seq<WrittenPart>)
    requires Preamble(file) == Done(start)
    requires var r := Parts(file, start.header, start.behind, start.hasNodeIds, start.hasElementIds, limit);
             r.Done? && LocatesParts(file, r.value, ps)
    ensures var r := GeometryOf(file, limit); r.Done? && Indexes(file, r.value, ps)
  {
    hide Preamble, Parts, LocatesPieces, At;
    var xs := GeometryOf(file, limit).value.parts;
    forall k | 0 <= k < |ps| ensures LocatesPart(file, xs[k], ps[k]) && xs[k].id == ps[k].id {
    }
  }

  lemma WholeAt(file: seq<byte>)
    ensures At(file, 0, file)
  {
  }

  lemma WritableParts(g: WrittenGeometry)
    requires Writable(g)
    ensures PartsWritable(g.parts, HasIds(ToLower(g.nodeIdLine)), HasIds(ToLower(g.elementIdLine)))
    ensures (g.extents.Some? ==> |g.extents.value| == 24) && FieldText(EXTENTS)
  {
    hide HasIds, ToLower, PartsWritable;
  }

  /** The index holds every part, and finds a part by its identifier: the last one
      if several share it. */
  predicate Indexes(file: seq<byte>, index: GeoIndex, ps: seq<WrittenPart>) {
    && LocatesParts(file, index.parts, ps)
    && forall k :: 0 <= k < |ps| ==>
         && ps[k].id in index.partsById
         && var last := index.partsById[ps[k].id]; k <= last < |ps| && ps[last].id == ps[k].id
  }

  /** Indexing a geometry that was laid out locates every coordinate, count and
      connectivity array that was written, part by part and piece by piece, and reads
      no more headers than were written. */
  lemma RoundTrip(g: WrittenGeometry, pad: byte, limit: nat)
    requires IsPad(pad) && Writable(g) && Headers(g.parts) <= limit
    ensures var file := FileBytes(g, pad);
            var r := GeometryOf(file, limit);
            r.Done? && Indexes(file, r.value, g.parts)
  {
    hide *;
    var file := FileBytes(g, pad);
    var at := 5 * FIELD + |ExtentBytes(g.extents, pad)|;
    var (nodes, elements) := (HasIds(ToLower(g.nodeIdLine)), HasIds(ToLower(g.elementIdLine)));
    WritableParts(g);
    WholeAt(file);
    FileFields(file, g, pad);
    LinesRead(file, g, pad);
    PartsOf(file, at, g.parts, pad, nodes, elements, limit);
    HeaderBehindExtents(file, 5 * FIELD, g.extents, pad);
    var (header, st) := LowerText(file, Here(at));
    BuildBy(file, limit, Start(nodes, elements, header, st), g.parts);
  }
}
