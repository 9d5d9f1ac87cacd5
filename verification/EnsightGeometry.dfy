/** Indexing an EnSight Gold C Binary geometry file: offsets of coordinate, count and
    connectivity arrays behind variable-size pieces. The file's byte order is that of
    the host, taken to be little-endian. */
module EnsightGeometry {
  import opened Bytes
  import opened Wrappers
  import opened Words
  import opened EnsightText

  /** How an operation ends. `Undefined` is a product of `int` values that overflows,
      which C++ leaves undefined; `Unfinished` says that more headers would be read
      than the limit given. */
  datatype Outcome<+T> = Done(value: T) | Thrown | Undefined | Unfinished {
    predicate IsFailure() {
      !Done?
    }

    function PropagateFailure<U>(): (r: Outcome<U>)
      requires !Done?
    {
      if Thrown? then Outcome<U>.Thrown else if Undefined? then Outcome<U>.Undefined else Outcome<U>.Unfinished
    }

    function Extract(): T
      requires Done?
    {
      value
    }
  }

  // ------------------------------------------------------------ the stream

  /** A `std::ifstream`: once a read has come up short, it only fails. */
  datatype Stream = Stream(pos: nat, failed: bool)

  function Taken(file: seq<byte>, st: Stream, n: nat): (r: (seq<byte>, Stream))
    ensures |r.0| <= n
  {
    if st.failed then ([], st)
    else if st.pos + n <= |file| then (file[st.pos..st.pos + n], Stream(st.pos + n, false))
    else (if st.pos < |file| then file[st.pos..] else [], Stream(st.pos, true))
  }

  lemma TakenWhole(file: seq<byte>, st: Stream, n: nat)
    requires n > 0
    ensures |Taken(file, st, n).0| == n <==> !st.failed && st.pos + n <= |file|
    ensures |Taken(file, st, n).0| == n ==> Taken(file, st, n) == (file[st.pos..st.pos + n], Stream(st.pos + n, false))
  {
  }

  function Text(file: seq<byte>, st: Stream): (string, Stream) {
    var (field, next) := Taken(file, st, FIELD);
    (FixedString(field), next)
  }

  function LowerText(file: seq<byte>, st: Stream): (string, Stream) {
    var (text, next) := Text(file, st);
    (ToLower(text), next)
  }

  /** A short read overwrites only the low bytes of the variable read into. */
  function Int(file: seq<byte>, st: Stream, initial: int): (r: (int, Stream))
    requires IsInt32(initial)
    ensures IsInt32(r.0)
  {
    var (bytes, next) := Taken(file, st, 4);
    (Int32(bytes + Int32Bytes(initial, Little)[|bytes|..], Little), next)
  }

  /** Seeks relative to the current position, backwards too; a position before the
      file fails the stream. The product of a negative count and an unsigned size
      wraps around to the negative offset. */
  function Skip(st: Stream, n: int): Stream {
    if st.failed then st else if st.pos + n < 0 then Stream(st.pos, true) else Stream(st.pos + n, false)
  }

  const NO_POSITION: nat := 0xFFFF_FFFF_FFFF_FFFF

  /** `tellg` of a failed stream is -1, cast to an unsigned number. */
  function Tell(st: Stream): nat {
    if st.failed then NO_POSITION else st.pos
  }

  function SumAt(file: seq<byte>, pos: nat, n: nat): int
    requires pos + 4 * n <= |file|
  {
    if n == 0 then 0 else SumAt(file, pos, n - 1) + Int32(file[pos + 4 * n - 4..pos + 4 * n], Little)
  }

  lemma {:induction false} SumAppend(file: seq<byte>, pos: nat, a: nat, b: nat)
    requires pos + 4 * (a + b) <= |file|
    ensures SumAt(file, pos, a + b) == SumAt(file, pos, a) + SumAt(file, pos + 4 * a, b)
    decreases b
  {
    if b > 0 {
      SumAppend(file, pos, a, b - 1);
      assert pos + 4 * (a + b) - 4 == pos + 4 * a + 4 * b - 4;
    }
  }

  /** A 64-bit number cast to 32 bits. */
  function Cast32(n: int): (r: int)
    ensures IsInt32(r) && (IsInt32(n) ==> r == n)
  {
    (n + TWO_31) % TWO_32 - TWO_31
  }

  /** The sum of `count` integers, and the stream behind them. Only sums that are too
      large are rejected. */
  function Int32Sum(file: seq<byte>, st: Stream, count: int): (r: Outcome<(int, Stream)>)
    ensures r.Done? ==> IsInt32(r.value.0)
  {
    if count < 0 then Thrown
    else if count == 0 then Done((0, st))
    else if st.failed || st.pos + 4 * count > |file| then Thrown
    else
      var total := SumAt(file, st.pos, count);
      if total >= TWO_31 then Thrown else Done((Cast32(total), Stream(st.pos + 4 * count, false)))
  }

  // -------------------------------------------------------------- the index

  datatype PieceIndex = PieceIndex(
    id: nat, elementType: ElementType, numElements: int, nodeCountsOffset: nat, faceCountsOffset: nat,
    faceNodeCountsOffset: nat, numFaces: int, connectivityOffset: nat, totalConnectivityCount: int)

  datatype PartIndex = PartIndex(
    id: int, description: string, numNodes: int, coordXOffset: nat, coordYOffset: nat, coordZOffset: nat,
    pieces: seq<PieceIndex>)

  datatype GeoIndex = GeoIndex(parts: seq<PartIndex>, partsById: map<int, nat>)

  function EmptyPiece(id: nat, t: ElementType, n: int): PieceIndex {
    PieceIndex(id, t, n, 0, 0, 0, 0, 0, 0)
  }

  /** The counts of a piece, up to where its connectivity starts. */
  function Counts(file: seq<byte>, st: Stream, piece: PieceIndex): Outcome<(PieceIndex, Stream)> {
    match piece.elementType
    case NSided =>
      var total :- Int32Sum(file, st, piece.numElements);
      Done((piece.(nodeCountsOffset := Tell(st), totalConnectivityCount := total.0), total.1))
    case NFaced =>
      var faces :- Int32Sum(file, st, piece.numElements);
      var total :- Int32Sum(file, faces.1, faces.0);
      Done((piece.(faceCountsOffset := Tell(st), numFaces := faces.0, faceNodeCountsOffset := Tell(faces.1),
                   totalConnectivityCount := total.0), total.1))
    case t =>
      var total := piece.numElements * NumNodes(t);
      if IsInt32(total) then Done((piece.(totalConnectivityCount := total), st)) else Undefined
  }

  function Piece(file: seq<byte>, st: Stream, header: string, id: nat, hasElementIds: bool): Outcome<(PieceIndex, Stream)> {
    match ParseElementType(header)
    case None => Thrown
    case Some(t) =>
      var (n, afterCount) := Int(file, st, 0);
      var afterIds := if hasElementIds then Skip(afterCount, 4 * n) else afterCount;
      var counted :- Counts(file, afterIds, EmptyPiece(id, t, n));
      var end := Skip(counted.1, 4 * counted.0.totalConnectivityCount);
      Done((counted.0.(connectivityOffset := Tell(counted.1)), end))
  }

  /** What ends the pieces of a part, and how many headers may still be read. */
  datatype Tail = Tail(pieces: seq<PieceIndex>, header: string, end: Stream, left: nat)

  /** The pieces of a part from piece `n` on, and the header that ends them. The code
      has no limit on the headers it reads: `EnsightWalk` says when it ends. */
  function Pieces(file: seq<byte>, st: Stream, n: nat, hasElementIds: bool, limit: nat): Outcome<Tail>
    decreases limit
  {
    if limit == 0 then Unfinished
    else
      var (header, next) := LowerText(file, st);
      if header == "" || header == "part" then Done(Tail([], header, next, limit - 1))
      else
        var piece :- Piece(file, next, header, n, hasElementIds);
        var more :- Pieces(file, piece.1, n + 1, hasElementIds, limit - 1);
        Done(more.(pieces := [piece.0] + more.pieces))
  }

  lemma {:induction false} PiecesReadHeaders(file: seq<byte>, st: Stream, n: nat, hasElementIds: bool, limit: nat)
    ensures var r := Pieces(file, st, n, hasElementIds, limit);
            r.Done? ==> r.value.left < limit && (r.value.header == "" || r.value.header == "part")
    decreases limit
  {
    hide LowerText, Piece;
    if limit > 0 {
      var (header, next) := LowerText(file, st);
      var piece := Piece(file, next, header, n, hasElementIds);
      if piece.Done? {
        PiecesReadHeaders(file, piece.value.1, n + 1, hasElementIds, limit - 1);
      }
    }
  }

  /** The fields of a part up to its first piece. */
  function PartHead(file: seq<byte>, st: Stream, hasNodeIds: bool): Outcome<(PartIndex, Stream)> {
    var (id, afterId) := Int(file, st, -1);
    var (description, afterDescription) := Text(file, afterId);
    var (coordinates, afterHeader) := LowerText(file, afterDescription);
    if coordinates != "coordinates" then Thrown
    else
      var (n, afterCount) := Int(file, afterHeader, 0);
      var x := if hasNodeIds then Skip(afterCount, 4 * n) else afterCount;
      var y := Skip(x, 4 * n);
      var z := Skip(y, 4 * n);
      var end := Skip(z, 4 * n);
      Done((PartIndex(id, description, n, Tell(x), Tell(y), Tell(z), []), end))
  }

  /** A part, the header behind it, the stream behind that, and the headers left. */
  function Part(file: seq<byte>, st: Stream, hasNodeIds: bool, hasElementIds: bool, limit: nat):
    Outcome<(PartIndex, string, Stream, nat)>
  {
    var head :- PartHead(file, st, hasNodeIds);
    var tail :- Pieces(file, head.1, 0, hasElementIds, limit);
    Done((head.0.(pieces := tail.pieces), tail.header, tail.end, tail.left))
  }

  lemma PartReadsHeaders(file: seq<byte>, st: Stream, hasNodeIds: bool, hasElementIds: bool, limit: nat)
    ensures var r := Part(file, st, hasNodeIds, hasElementIds, limit); r.Done? ==> r.value.3 < limit
  {
    hide PartHead, Pieces;
    var head := PartHead(file, st, hasNodeIds);
    if head.Done? {
      PiecesReadHeaders(file, head.value.1, 0, hasElementIds, limit);
    }
  }

  /** The parts that follow a header. */
  function Parts(file: seq<byte>, header: string, st: Stream, hasNodeIds: bool, hasElementIds: bool, limit: nat):
    Outcome<seq<PartIndex>>
    decreases limit
  {
    if header == "" then Done([])
    else if header != "part" then Thrown
    else
      PartReadsHeaders(file, st, hasNodeIds, hasElementIds, limit);
      var part :- Part(file, st, hasNodeIds, hasElementIds, limit);
      var more :- Parts(file, part.1, part.2, hasNodeIds, hasElementIds, part.3);
      Done([part.0] + more)
  }

  /** What the lines before the first part say, the header of that part, and the
      stream behind it. */
  datatype Start = Start(hasNodeIds: bool, hasElementIds: bool, header: string, behind: Stream)

  function Preamble(file: seq<byte>): Outcome<Start> {
    var (encoding, s1) := Text(file, Stream(0, false));
    if encoding != "C Binary" then Thrown
    else
      var (_, s2) := Text(file, s1);
      var (_, s3) := Text(file, s2);
      var (nodeIds, s4) := LowerText(file, s3);
      var (elementIds, s5) := LowerText(file, s4);
      var (header, s6) := FirstHeader(file, s5);
      Done(Start(HasIds(nodeIds), HasIds(elementIds), header, s6))
  }

  /** Indexing with at most `limit` headers read behind that of the first part. */
  function GeometryOf(file: seq<byte>, limit: nat): Outcome<GeoIndex> {
    var start :- Preamble(file);
    Indexed(Parts(file, start.header, start.behind, start.hasNodeIds, start.hasElementIds, limit))
  }

  /** The parts that were read, with their places by identifier. */
  function Indexed(r: Outcome<seq<PartIndex>>): Outcome<GeoIndex> {
    var parts :- r;
    Done(GeoIndex(parts, ById(parts, |parts|)))
  }

  function HasIds(header: string): bool {
    Contains(header, "given") || Contains(header, "ignore")
  }

  /** The header of the first part, behind extents of floats or else of doubles. */
  function FirstHeader(file: seq<byte>, st: Stream): (string, Stream) {
    var (header, next) := LowerText(file, st);
    if header != "extents" then (header, next)
    else
      var (second, after) := LowerText(file, if next.failed then next else Stream(next.pos + 24, false));
      if second == "" || second == "part" then (second, after)
      else LowerText(file, Stream(next.pos + 48, false))
  }

  /** The place of the last part with each id, among the first `n`. */
  function ById(parts: seq<PartIndex>, n: nat): (m: map<int, nat>)
    requires n <= |parts|
    ensures forall id :: id in m ==> m[id] < n && parts[m[id]].id == id
    ensures forall k :: 0 <= k < n ==> parts[k].id in m && k <= m[parts[k].id]
  {
    if n == 0 then map[] else ById(parts, n - 1)[parts[n - 1].id := n - 1]
  }

  // ------------------------------------------------------ the stream methods

  /** An operation that should yield `spec` yielded `r` and left the stream at `st`. */
  ghost predicate Yields<T(!new)>(spec: Outcome<(T, Stream)>, r: Outcome<T>, st: Stream) {
    match spec
    case Done(v) => r == Done(v.0) && st == v.1
    case Thrown => r == Thrown
    case Undefined => r == Undefined
    case Unfinished => r == Unfinished
  }

  class GeometryInput {
    const file: seq<byte>
    var state: Stream

    constructor (file: seq<byte>)
      ensures this.file == file && state == Stream(0, false)
    {
      this.file, state := file, Stream(0, false);
    }

    method Read(n: nat) returns (bytes: seq<byte>)
      modifies this`state
      ensures (bytes, state) == Taken(file, old(state), n)
    {
      if state.failed {
        return [];
      }
      if state.pos + n <= |file| {
        bytes := file[state.pos..state.pos + n];
        state := Stream(state.pos + n, false);
      } else {
        bytes := if state.pos < |file| then file[state.pos..] else [];
        state := Stream(state.pos, true);
      }
    }

    method ReadFixedString() returns (text: string)
      modifies this`state
      ensures (text, state) == Text(file, old(state))
    {
      var buffer := Read(FIELD);
      if |buffer| == 0 {
        assert Chars(buffer) == "";
        return "";
      }
      text := Trim(UntilNul(Chars(buffer)));
    }

    method ReadInt32(initial: int) returns (n: int)
      requires IsInt32(initial)
      modifies this`state
      ensures (n, state) == Int(file, old(state), initial)
    {
      var bytes := Read(4);
      n := Int32(bytes + Int32Bytes(initial, Little)[|bytes|..], Little);
    }

    /** `seekg` from the current position. */
    method SeekBy(n: int)
      modifies this`state
      ensures state == Skip(old(state), n)
    {
      if !state.failed {
        state := if state.pos + n < 0 then Stream(state.pos, true) else Stream(state.pos + n, false);
      }
    }

    /** Adds `n` integers to a sum. */
    method AddInts(n: nat, total: int) returns (r: Outcome<int>)
      requires n > 0
      modifies this`state
      ensures var st := old(state);
              if !st.failed && st.pos + 4 * n <= |file| then
                r == Done(total + SumAt(file, st.pos, n)) && state == Stream(st.pos + 4 * n, false)
              else r == Thrown
    {
      hide Taken;
      ghost var at := state.pos;
      TakenWhole(file, state, 4 * n);
      var values := Read(4 * n);
      if |values| != 4 * n {
        return Thrown;
      }
      assert state == Stream(at + 4 * n, false);
      var sum := total;
      for i := 0 to n
        invariant state == Stream(at + 4 * n, false)
        invariant sum == total + SumAt(file, at, i)
      {
        WordIn(file, at, n, i);
        assert at + 4 * i == at + 4 * (i + 1) - 4;
        sum := sum + Int32(values[4 * i..4 * i + 4], Little);
      }
      r := Done(sum);
    }

    /** Sums the integers of a count array, in buffers of at most 2^20 values. */
    method ReadInt32Sum(count: int) returns (r: Outcome<int>)
      modifies this`state
      ensures Yields(Int32Sum(file, old(state), count), r, state)
    {
      hide Cast32, SumAt, Int32;
      if count < 0 {
        return Thrown;
      }
      ghost var start := state;
      var bufferCount: nat := if count < 0x10_0000 then count else 0x10_0000;
      var total := 0;
      var remaining: nat := count;
      ghost var done: nat := 0;
      while remaining > 0
        invariant done + remaining == count
        invariant done == 0 ==> state == start && total == 0
        invariant done > 0 ==>
                    && !start.failed && state == Stream(start.pos + 4 * done, false) && start.pos + 4 * done <= |file|
                    && total == SumAt(file, start.pos, done)
      {
        var n := if bufferCount < remaining then bufferCount else remaining;
        var next := AddInts(n, total);
        if !next.Done? {
          return next;
        }
        SumAppend(file, start.pos, done, n);
        total := next.value;
        done := done + n;
        remaining := remaining - n;
      }
      if total >= TWO_31 {
        return Thrown;
      }
      r := Done(Cast32(total));
    }

    method ReadCounts(piece: PieceIndex) returns (r: Outcome<PieceIndex>)
      modifies this`state
      ensures Yields(Counts(file, old(state), piece), r, state)
    {
      hide Int32Sum;
      if piece.elementType == NSided {
        var nodeCountsOffset := Tell(state);
        var total := ReadInt32Sum(piece.numElements);
        if !total.Done? {
          return total.PropagateFailure();
        }
        r := Done(piece.(nodeCountsOffset := nodeCountsOffset, totalConnectivityCount := total.value));
      } else if piece.elementType == NFaced {
        var faceCountsOffset := Tell(state);
        var faces := ReadInt32Sum(piece.numElements);
        if !faces.Done? {
          return faces.PropagateFailure();
        }
        var faceNodeCountsOffset := Tell(state);
        var total := ReadInt32Sum(faces.value);
        if !total.Done? {
          return total.PropagateFailure();
        }
        r := Done(piece.(faceCountsOffset := faceCountsOffset, numFaces := faces.value,
                         faceNodeCountsOffset := faceNodeCountsOffset, totalConnectivityCount := total.value));
      } else {
        var total := piece.numElements * NumNodes(piece.elementType);
        r := if IsInt32(total) then Done(piece.(totalConnectivityCount := total)) else Undefined;
      }
    }

    method ReadGeometryPiece(header: string, pieceId: nat, hasElementIds: bool) returns (r: Outcome<PieceIndex>)
      modifies this`state
      ensures Yields(Piece(file, old(state), header, pieceId, hasElementIds), r, state)
    {
      hide Counts, ParseElementType;
      var elementType := ParseElementType(header);
      if elementType.None? {
        return Thrown;
      }
      var numElements := ReadInt32(0);
      if hasElementIds {
        SeekBy(4 * numElements);
      }
      var piece := ReadCounts(EmptyPiece(pieceId, elementType.value, numElements));
      if !piece.Done? {
        return piece;
      }
      var connectivityOffset := Tell(state);
      SeekBy(4 * piece.value.totalConnectivityCount);
      r := Done(piece.value.(connectivityOffset := connectivityOffset));
    }

    method ReadPartHead(hasNodeIds: bool) returns (r: Outcome<PartIndex>)
      modifies this`state
      ensures Yields(PartHead(file, old(state), hasNodeIds), r, state)
    {
      hide Int, Text;
      var id := ReadInt32(-1);
      var description := ReadFixedString();
      var coordinates := ReadFixedString();
      if ToLower(coordinates) != "coordinates" {
        return Thrown;
      }
      var numNodes := ReadInt32(0);
      if hasNodeIds {
        SeekBy(4 * numNodes);
      }
      var coordX := Tell(state);
      SeekBy(4 * numNodes);
      var coordY := Tell(state);
      SeekBy(4 * numNodes);
      var coordZ := Tell(state);
      SeekBy(4 * numNodes);
      r := Done(PartIndex(id, description, numNodes, coordX, coordY, coordZ, []));
    }

    /** A part with its pieces, the header behind it, and the headers left. */
    method ReadGeometryPart(hasNodeIds: bool, hasElementIds: bool, limit: nat) returns (r: Outcome<(PartIndex, string, nat)>)
      modifies this`state
      ensures match Part(file, old(state), hasNodeIds, hasElementIds, limit)
              case Done(v) => r == Done((v.0, v.1, v.3)) && state == v.2
              case Thrown => r == Thrown
              case Undefined => r == Undefined
              case Unfinished => r == Unfinished
    {
      hide Piece, PartHead, Text;
      var head := ReadPartHead(hasNodeIds);
      if !head.Done? {
        return head.PropagateFailure();
      }
      var pieces: seq<PieceIndex> := [];
      ghost var before := state;
      ghost var all := Pieces(file, before, 0, hasElementIds, limit);
      NoPiecesYet(all);
      if limit == 0 {
        return Unfinished;
      }
      var left: nat := limit - 1;
      var pieceHeader := ReadFixedString();
      pieceHeader := ToLower(pieceHeader);
      while pieceHeader != "" && pieceHeader != "part"
        invariant (pieceHeader, state) == LowerText(file, before)
        invariant all == WithPieces(pieces, Pieces(file, before, |pieces|, hasElementIds, left + 1))
        decreases left
      {
        PiecesStep(file, before, |pieces|, hasElementIds, left + 1, pieces);
        var piece := ReadGeometryPiece(pieceHeader, |pieces|, hasElementIds);
        if !piece.Done? {
          return piece.PropagateFailure();
        }
        pieces := pieces + [piece.value];
        before := state;
        if left == 0 {
          return Unfinished;
        }
        left := left - 1;
        pieceHeader := ReadFixedString();
        pieceHeader := ToLower(pieceHeader);
      }
      assert pieces + [] == pieces;
      r := Done((head.value.(pieces := pieces), pieceHeader, left));
    }
  }

  function WithPieces(head: seq<PieceIndex>, r: Outcome<Tail>): Outcome<Tail> {
    match r
    case Done(tail) => Done(tail.(pieces := head + tail.pieces))
    case _ => r
  }

  lemma NoPiecesYet(r: Outcome<Tail>)
    ensures WithPieces([], r) == r
  {
    if r.Done? {
      assert [] + r.value.pieces == r.value.pieces;
    }
  }

  lemma {:induction false} PiecesStep(
      file: seq<byte>, st: Stream, n: nat, hasElementIds: bool, limit: nat, head: seq<PieceIndex>)
    requires limit > 0
    ensures var (header, next) := LowerText(file, st);
            var piece := Piece(file, next, header, n, hasElementIds);
            WithPieces(head, Pieces(file, st, n, hasElementIds, limit)) ==
            if header == "" || header == "part" then Done(Tail(head, header, next, limit - 1))
            else if piece.Done? then
              WithPieces(head + [piece.value.0], Pieces(file, piece.value.1, n + 1, hasElementIds, limit - 1))
            else piece.PropagateFailure()
  {
    hide LowerText, Piece;
    var (header, next) := LowerText(file, st);
    if header == "" || header == "part" {
      assert head + [] == head;
    } else {
      var piece := Piece(file, next, header, n, hasElementIds);
      if piece.Done? {
        var more := Pieces(file, piece.value.1, n + 1, hasElementIds, limit - 1);
        if more.Done? {
          assert head + ([piece.value.0] + more.value.pieces) == head + [piece.value.0] + more.value.pieces;
        }
      }
    }
  }

  function WithParts(head: seq<PartIndex>, r: Outcome<seq<PartIndex>>): Outcome<seq<PartIndex>> {
    match r
    case Done(tail) => Done(head + tail)
    case _ => r
  }

  lemma NoPartsYet(r: Outcome<seq<PartIndex>>)
    ensures WithParts([], r) == r
  {
    if r.Done? {
      assert [] + r.value == r.value;
    }
  }

  lemma {:induction false} PartsStep(
      file: seq<byte>, header: string, st: Stream, hasNodeIds: bool, hasElementIds: bool, limit: nat, head: seq<PartIndex>)
    ensures var part := Part(file, st, hasNodeIds, hasElementIds, limit);
            WithParts(head, Parts(file, header, st, hasNodeIds, hasElementIds, limit)) ==
            if header == "" then Done(head)
            else if header != "part" then Thrown
            else if part.Done? then
              WithParts(head + [part.value.0],
                        Parts(file, part.value.1, part.value.2, hasNodeIds, hasElementIds, part.value.3))
            else part.PropagateFailure()
  {
    hide Part;
    assert head + [] == head;
    if header == "part" {
      PartReadsHeaders(file, st, hasNodeIds, hasElementIds, limit);
      var part := Part(file, st, hasNodeIds, hasElementIds, limit);
      if part.Done? {
        var more := Parts(file, part.value.1, part.value.2, hasNodeIds, hasElementIds, part.value.3);
        if more.Done? {
          assert head + ([part.value.0] + more.value) == head + [part.value.0] + more.value;
        }
      }
    }
  }

  method ReadFirstGeometryPartHeader(input: GeometryInput) returns (header: string)
    modifies input`state
    ensures (header, input.state) == FirstHeader(input.file, old(input.state))
  {
    hide Text;
    header := input.ReadFixedString();
    header := ToLower(header);
    if header != "extents" {
      return;
    }
    var extentPosition := input.state.pos;
    if !input.state.failed {
      input.state := Stream(input.state.pos + 24, false);
    }
    header := input.ReadFixedString();
    header := ToLower(header);
    if header == "" || header == "part" {
      return;
    }
    input.state := Stream(extentPosition + 48, false);
    header := input.ReadFixedString();
    header := ToLower(header);
  }

  method ReadPreamble(input: GeometryInput) returns (r: Outcome<(bool, bool, string)>)
    requires input.state == Stream(0, false)
    modifies input`state
    ensures match Preamble(input.file)
            case Done(v) => r == Done((v.hasNodeIds, v.hasElementIds, v.header)) && input.state == v.behind
            case Thrown => r == Thrown
            case Undefined => r == Undefined
            case Unfinished => r == Unfinished
  {
    hide Text, FirstHeader, HasIds;
    var encoding := input.ReadFixedString();
    if encoding != "C Binary" {
      return Thrown;
    }
    var line := input.ReadFixedString();
    line := input.ReadFixedString();
    var nodeIdHeader := input.ReadFixedString();
    nodeIdHeader := ToLower(nodeIdHeader);
    var elementIdHeader := input.ReadFixedString();
    elementIdHeader := ToLower(elementIdHeader);
    var header := ReadFirstGeometryPartHeader(input);
    r := Done((HasIds(nodeIdHeader), HasIds(elementIdHeader), header));
  }

  /** The loop over the parts, from the header of the first on. */
  method ReadParts(input: GeometryInput, first: string, hasNodeIds: bool, hasElementIds: bool, limit: nat)
    returns (r: Outcome<GeoIndex>)
    modifies input`state
    ensures r == Indexed(Parts(input.file, first, old(input.state), hasNodeIds, hasElementIds, limit))
  {
    hide Part, Parts, WithParts, Places, Indexed;
    var header := first;
    var left := limit;
    var parts: seq<PartIndex> := [];
    var partsById: map<int, nat> := map[];
    ghost var all := Parts(input.file, header, input.state, hasNodeIds, hasElementIds, limit);
    NoPartsYet(all);
    NoPlaces();
    while header != ""
      invariant Places(parts, partsById)
      invariant all == WithParts(parts, Parts(input.file, header, input.state, hasNodeIds, hasElementIds, left))
      decreases left, header != ""
    {
      PartsStep(input.file, header, input.state, hasNodeIds, hasElementIds, left, parts);
      if header != "part" {
        IndexedFailure(all);
        return Thrown;
      }
      PartReadsHeaders(input.file, input.state, hasNodeIds, hasElementIds, left);
      var part := input.ReadGeometryPart(hasNodeIds, hasElementIds, left);
      if !part.Done? {
        IndexedFailure(all);
        return part.PropagateFailure();
      }
      PlacesSnoc(parts, partsById, part.value.0);
      partsById := partsById[part.value.0.id := |parts|];
      parts := parts + [part.value.0];
      header, left := part.value.1, part.value.2;
    }
    PartsStep(input.file, header, input.state, hasNodeIds, hasElementIds, left, parts);
    IndexedParts(parts, partsById);
    r := Done(GeoIndex(parts, partsById));
  }

  method BuildGeoIndex(file: seq<byte>, limit: nat) returns (r: Outcome<GeoIndex>)
    ensures r == GeometryOf(file, limit)
  {
    hide Parts, Preamble, Indexed;
    var input := new GeometryInput(file);
    var preamble := ReadPreamble(input);
    if !preamble.Done? {
      return preamble.PropagateFailure();
    }
    var (hasNodeIds, hasElementIds, header) := preamble.value;
    r := ReadParts(input, header, hasNodeIds, hasElementIds, limit);
  }

  predicate Places(parts: seq<PartIndex>, byId: map<int, nat>) {
    byId == ById(parts, |parts|)
  }

  lemma NoPlaces()
    ensures Places([], map[])
  {
  }

  lemma IndexedParts(parts: seq<PartIndex>, byId: map<int, nat>)
    requires Places(parts, byId)
    ensures Indexed(Done(parts)) == Done(GeoIndex(parts, byId))
  {
  }

  lemma IndexedFailure(r: Outcome<seq<PartIndex>>)
    ensures !r.Done? ==> Indexed(r) == r.PropagateFailure()
  {
  }

  lemma {:induction false} ByIdPrefix(parts: seq<PartIndex>, next: PartIndex, n: nat)
    requires n <= |parts|
    ensures ById(parts + [next], n) == ById(parts, n)
  {
    if n > 0 {
      ByIdPrefix(parts, next, n - 1);
    }
  }

  lemma {:induction false} PlacesSnoc(parts: seq<PartIndex>, byId: map<int, nat>, next: PartIndex)
    requires Places(parts, byId)
    ensures Places(parts + [next], byId[next.id := |parts|])
  {
    ByIdPrefix(parts, next, |parts|);
  }
}
