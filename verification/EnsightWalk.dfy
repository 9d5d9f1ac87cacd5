/** When indexing an EnSight geometry ends. A count in the file may be negative, so
    that a seek goes backwards: the code may come back to a header it has read, and
    then it goes round for ever. */
module EnsightWalk {
  import opened Bytes
  import opened Collections
  import opened Wrappers
  import opened Words
  import opened EnsightText
  import opened EnsightGeometry
  import opened EnsightRoundTrip

  // ------------------------------------------------ from header to header

  /** Where the header behind the one at `st` is read: behind the piece or the head of
      a part that it announces. None if indexing stops there. */
  function NextHeader(file: seq<byte>, st: Stream, hasNodeIds: bool, hasElementIds: bool): Option<Stream> {
    var (header, next) := LowerText(file, st);
    if header == "" then None
    else if header == "part" then
      var head := PartHead(file, next, hasNodeIds);
      if head.Done? then Some(head.value.1) else None
    else
      var piece := Piece(file, next, header, 0, hasElementIds);
      if piece.Done? then Some(piece.value.1) else None
  }

  /** Where the header is read that follows `k` others. */
  function Walk(file: seq<byte>, st: Stream, hasNodeIds: bool, hasElementIds: bool, k: nat): Option<Stream>
    decreases k
  {
    if k == 0 then Some(st)
    else
      var next := NextHeader(file, st, hasNodeIds, hasElementIds);
      if next.Some? then Walk(file, next.value, hasNodeIds, hasElementIds, k - 1) else None
  }

  /** What becomes of a stream does not depend on the number of the piece. */
  lemma PieceNumber(file: seq<byte>, st: Stream, header: string, id: nat, hasElementIds: bool)
    ensures var r, s := Piece(file, st, header, id, hasElementIds), Piece(file, st, header, 0, hasElementIds);
            && r.Done? == s.Done? && (r.Done? ==> r.value.1 == s.value.1)
            && !r.Unfinished?
  {
    hide Int, ParseElementType, Int32Sum, Tell;
    var t := ParseElementType(header);
    if t.Some? {
      var (n, afterCount) := Int(file, st, 0);
      var afterIds := if hasElementIds then Skip(afterCount, 4 * n) else afterCount;
      CountsNumber(file, afterIds, EmptyPiece(id, t.value, n), EmptyPiece(0, t.value, n));
    }
  }

  lemma CountsNumber(file: seq<byte>, st: Stream, x: PieceIndex, y: PieceIndex)
    requires x.elementType == y.elementType && x.numElements == y.numElements
    ensures var r, s := Counts(file, st, x), Counts(file, st, y);
            && r.Done? == s.Done? && !r.Unfinished?
            && (r.Done? ==> r.value.1 == s.value.1
                            && r.value.0.totalConnectivityCount == s.value.0.totalConnectivityCount)
  {
    hide Tell, SumAt, Cast32;
  }

  lemma HeadFinishes(file: seq<byte>, st: Stream, hasNodeIds: bool)
    ensures !PartHead(file, st, hasNodeIds).Unfinished?
  {
    hide Int, Text, LowerText;
  }

  /** Reading pieces, and then the parts behind them, stops at the limit. */
  predicate Runs(file: seq<byte>, st: Stream, n: nat, hasNodeIds: bool, hasElementIds: bool, limit: nat) {
    var tail := Pieces(file, st, n, hasElementIds, limit);
    || tail.Unfinished?
    || (tail.Done? &&
        Parts(file, tail.value.header, tail.value.end, hasNodeIds, hasElementIds, tail.value.left).Unfinished?)
  }

  lemma {:induction false} PartsRun(
      file: seq<byte>, header: string, st: Stream, hasNodeIds: bool, hasElementIds: bool, limit: nat)
    ensures var head := PartHead(file, st, hasNodeIds);
            Parts(file, header, st, hasNodeIds, hasElementIds, limit).Unfinished? ==
            (header == "part" && head.Done? && Runs(file, head.value.1, 0, hasNodeIds, hasElementIds, limit))
  {
    hide PartHead, Pieces;
    PartsStep(file, header, st, hasNodeIds, hasElementIds, limit, []);
    NoPartsYet(Parts(file, header, st, hasNodeIds, hasElementIds, limit));
    HeadFinishes(file, st, hasNodeIds);
  }

  lemma {:induction false} RunsStep(
      file: seq<byte>, st: Stream, n: nat, hasNodeIds: bool, hasElementIds: bool, limit: nat)
    requires limit > 0
    ensures var (header, next) := LowerText(file, st);
            Runs(file, st, n, hasNodeIds, hasElementIds, limit) ==
            if header == "" then false
            else if header == "part" then
              var head := PartHead(file, next, hasNodeIds);
              head.Done? && Runs(file, head.value.1, 0, hasNodeIds, hasElementIds, limit - 1)
            else
              var piece := Piece(file, next, header, n, hasElementIds);
              piece.Done? && Runs(file, piece.value.1, n + 1, hasNodeIds, hasElementIds, limit - 1)
  {
    hide LowerText, Piece, PartHead, Parts, Pieces;
    var (header, next) := LowerText(file, st);
    PiecesStep(file, st, n, hasElementIds, limit, []);
    NoPiecesYet(Pieces(file, st, n, hasElementIds, limit));
    if header == "" || header == "part" {
      PartsRun(file, header, next, hasNodeIds, hasElementIds, limit - 1);
    } else {
      PieceNumber(file, next, header, n, hasElementIds);
    }
  }

  /** The reading of pieces and parts runs into its limit exactly when there are that
      many headers to walk to. */
  lemma {:induction false} RunsIsWalk(
      file: seq<byte>, st: Stream, n: nat, hasNodeIds: bool, hasElementIds: bool, limit: nat)
    ensures Runs(file, st, n, hasNodeIds, hasElementIds, limit) == Walk(file, st, hasNodeIds, hasElementIds, limit).Some?
    decreases limit
  {
    hide LowerText, Piece, PartHead, Runs;
    if limit == 0 {
      RunsNone(file, st, n, hasNodeIds, hasElementIds);
    } else {
      RunsStep(file, st, n, hasNodeIds, hasElementIds, limit);
      var (header, next) := LowerText(file, st);
      if header == "part" {
        var head := PartHead(file, next, hasNodeIds);
        if head.Done? {
          RunsIsWalk(file, head.value.1, 0, hasNodeIds, hasElementIds, limit - 1);
        }
      } else if header != "" {
        PieceNumber(file, next, header, n, hasElementIds);
        var piece := Piece(file, next, header, n, hasElementIds);
        if piece.Done? {
          RunsIsWalk(file, piece.value.1, n + 1, hasNodeIds, hasElementIds, limit - 1);
        }
      }
    }
  }

  lemma RunsNone(file: seq<byte>, st: Stream, n: nat, hasNodeIds: bool, hasElementIds: bool)
    ensures Runs(file, st, n, hasNodeIds, hasElementIds, 0)
  {
  }

  /** Where the code reads its header number `k` behind that of the first part. */
  function HeaderAt(file: seq<byte>, k: nat): Option<Stream> {
    var start := Preamble(file);
    if !start.Done? || start.value.header != "part" then None
    else
      var head := PartHead(file, start.value.behind, start.value.hasNodeIds);
      if !head.Done? then None else Walk(file, head.value.1, start.value.hasNodeIds, start.value.hasElementIds, k)
  }

  /** Indexing runs into its limit exactly when there is a header beyond it. */
  lemma UnfinishedIsWalk(file: seq<byte>, limit: nat)
    ensures GeometryOf(file, limit).Unfinished? == HeaderAt(file, limit).Some?
  {
    hide Preamble, PartHead, Walk, Parts, GeometryOf, Runs;
    PreambleFinishes(file);
    GeometryFinishes(file, limit);
    var start := Preamble(file);
    if start.Done? {
      var s := start.value;
      PartsRun(file, s.header, s.behind, s.hasNodeIds, s.hasElementIds, limit);
      var head := PartHead(file, s.behind, s.hasNodeIds);
      if head.Done? {
        RunsIsWalk(file, head.value.1, 0, s.hasNodeIds, s.hasElementIds, limit);
      }
    }
  }

  lemma PreambleFinishes(file: seq<byte>)
    ensures !Preamble(file).Unfinished?
  {
    hide Text, LowerText, FirstHeader, HasIds;
  }

  lemma GeometryFinishes(file: seq<byte>, limit: nat)
    ensures var start := Preamble(file);
            GeometryOf(file, limit).Unfinished? ==
            if start.Done? then
              var s := start.value; Parts(file, s.header, s.behind, s.hasNodeIds, s.hasElementIds, limit).Unfinished?
            else start.Unfinished?
  {
    hide Preamble, Parts, ById;
  }

  // ------------------------------------------------------ going in circles

  /** A header that is read is somewhere in the file. */
  lemma HeaderIsInFile(file: seq<byte>, st: Stream, hasNodeIds: bool, hasElementIds: bool)
    requires NextHeader(file, st, hasNodeIds, hasElementIds).Some?
    ensures !st.failed && st.pos < |file|
  {
    hide Piece, PartHead, FixedString;
    NothingReads();
  }

  lemma NothingReads()
    ensures FixedString([]) == ""
  {
    assert Chars([]) == "";
  }

  lemma {:induction false} WalkOn(file: seq<byte>, st: Stream, hasNodeIds: bool, hasElementIds: bool, i: nat, k: nat)
    requires Walk(file, st, hasNodeIds, hasElementIds, i).Some?
    ensures Walk(file, st, hasNodeIds, hasElementIds, i + k) ==
            Walk(file, Walk(file, st, hasNodeIds, hasElementIds, i).value, hasNodeIds, hasElementIds, k)
    decreases i
  {
    hide NextHeader;
    if i > 0 {
      WalkOn(file, NextHeader(file, st, hasNodeIds, hasElementIds).value, hasNodeIds, hasElementIds, i - 1, k);
    }
  }

  lemma {:induction false} WalkBack(file: seq<byte>, st: Stream, hasNodeIds: bool, hasElementIds: bool, i: nat, k: nat)
    requires i <= k && Walk(file, st, hasNodeIds, hasElementIds, k).Some?
    ensures Walk(file, st, hasNodeIds, hasElementIds, i).Some?
    decreases i
  {
    hide NextHeader;
    if i > 0 {
      WalkBack(file, NextHeader(file, st, hasNodeIds, hasElementIds).value, hasNodeIds, hasElementIds, i - 1, k - 1);
    }
  }

  /** Once the code is back where it was, there is always another header to read. */
  lemma {:induction false} Circle(
      file: seq<byte>, st: Stream, hasNodeIds: bool, hasElementIds: bool, i: nat, j: nat, k: nat)
    requires i < j && Walk(file, st, hasNodeIds, hasElementIds, j).Some?
    requires Walk(file, st, hasNodeIds, hasElementIds, i) == Walk(file, st, hasNodeIds, hasElementIds, j)
    ensures Walk(file, st, hasNodeIds, hasElementIds, k).Some?
    decreases k
  {
    hide NextHeader, Walk;
    if k <= j {
      WalkBack(file, st, hasNodeIds, hasElementIds, k, j);
    } else {
      Circle(file, st, hasNodeIds, hasElementIds, i, j, i + (k - j));
      WalkOn(file, st, hasNodeIds, hasElementIds, i, k - j);
      WalkOn(file, st, hasNodeIds, hasElementIds, j, k - j);
    }
  }

  /** More headers than the file has bytes cannot all be different. */
  lemma Revisits(file: seq<byte>, st: Stream, hasNodeIds: bool, hasElementIds: bool) returns (i: nat, j: nat)
    requires Walk(file, st, hasNodeIds, hasElementIds, |file| + 1).Some?
    ensures i < j && Walk(file, st, hasNodeIds, hasElementIds, j).Some?
    ensures Walk(file, st, hasNodeIds, hasElementIds, i) == Walk(file, st, hasNodeIds, hasElementIds, j)
  {
    hide NextHeader;
    forall k | 0 <= k <= |file|
      ensures var s := Walk(file, st, hasNodeIds, hasElementIds, k); s.Some? && !s.value.failed && s.value.pos < |file|
    {
      WalkBack(file, st, hasNodeIds, hasElementIds, k, |file| + 1);
      WalkBack(file, st, hasNodeIds, hasElementIds, k + 1, |file| + 1);
      WalkOn(file, st, hasNodeIds, hasElementIds, k, 1);
      HeaderIsInFile(file, Walk(file, st, hasNodeIds, hasElementIds, k).value, hasNodeIds, hasElementIds);
    }
    hide Walk;
    var places := seq(|file| + 1, k requires 0 <= k <= |file| => Walk(file, st, hasNodeIds, hasElementIds, k).value.pos);
    i, j := Pigeonhole(places, |file|);
    assert places[i] == Walk(file, st, hasNodeIds, hasElementIds, i).value.pos;
    assert places[j] == Walk(file, st, hasNodeIds, hasElementIds, j).value.pos;
  }

  /** Some header is read twice. */
  ghost predicate ReadsTwice(file: seq<byte>) {
    exists i: nat, j: nat :: i < j && HeaderAt(file, j).Some? && HeaderAt(file, i) == HeaderAt(file, j)
  }

  /** Indexing never ends exactly if some header is read twice; whether it does is
      decided once as many headers have been read as the file has bytes, and one more. */
  lemma NeverEndsExactly(file: seq<byte>)
    ensures ReadsTwice(file) <==> forall limit: nat :: GeometryOf(file, limit).Unfinished?
    ensures ReadsTwice(file) <==> GeometryOf(file, |file| + 1).Unfinished?
  {
    UnfinishedIsWalk(file, |file| + 1);
    if GeometryOf(file, |file| + 1).Unfinished? {
      var s := Preamble(file).value;
      var first := PartHead(file, s.behind, s.hasNodeIds).value.1;
      var i, j := Revisits(file, first, s.hasNodeIds, s.hasElementIds);
      assert HeaderAt(file, i) == HeaderAt(file, j);
    }
    if ReadsTwice(file) {
      var i: nat, j: nat :| i < j && HeaderAt(file, j).Some? && HeaderAt(file, i) == HeaderAt(file, j);
      var s := Preamble(file).value;
      var first := PartHead(file, s.behind, s.hasNodeIds).value.1;
      forall limit: nat ensures GeometryOf(file, limit).Unfinished? {
        Circle(file, first, s.hasNodeIds, s.hasElementIds, i, j, limit);
        UnfinishedIsWalk(file, limit);
      }
    }
  }

  // -------------------------------------------------- the limit is no limit

  lemma {:induction false} PiecesMore(file: seq<byte>, st: Stream, n: nat, hasElementIds: bool, limit: nat, more: nat)
    requires !Pieces(file, st, n, hasElementIds, limit).Unfinished? && limit <= more
    ensures var r, s := Pieces(file, st, n, hasElementIds, limit), Pieces(file, st, n, hasElementIds, more);
            s == if r.Done? then Done(r.value.(left := r.value.left + (more - limit))) else r
    decreases limit
  {
    hide LowerText, Piece;
    if limit > 0 {
      var (header, next) := LowerText(file, st);
      PieceNumber(file, next, header, n, hasElementIds);
      var piece := Piece(file, next, header, n, hasElementIds);
      if header != "" && header != "part" && piece.Done? {
        PiecesMore(file, piece.value.1, n + 1, hasElementIds, limit - 1, more - 1);
      }
    }
  }

  lemma PartMore(file: seq<byte>, st: Stream, hasNodeIds: bool, hasElementIds: bool, limit: nat, more: nat)
    requires !Part(file, st, hasNodeIds, hasElementIds, limit).Unfinished? && limit <= more
    ensures var r, s := Part(file, st, hasNodeIds, hasElementIds, limit), Part(file, st, hasNodeIds, hasElementIds, more);
            s == if r.Done? then Done((r.value.0, r.value.1, r.value.2, r.value.3 + (more - limit))) else r
  {
    hide PartHead, Pieces;
    HeadFinishes(file, st, hasNodeIds);
    var head := PartHead(file, st, hasNodeIds);
    if head.Done? {
      PiecesMore(file, head.value.1, 0, hasElementIds, limit, more);
    }
  }

  lemma {:induction false} PartsMore(
      file: seq<byte>, header: string, st: Stream, hasNodeIds: bool, hasElementIds: bool, limit: nat, more: nat)
    requires !Parts(file, header, st, hasNodeIds, hasElementIds, limit).Unfinished? && limit <= more
    ensures Parts(file, header, st, hasNodeIds, hasElementIds, more) ==
            Parts(file, header, st, hasNodeIds, hasElementIds, limit)
    decreases limit
  {
    hide Part;
    if header == "part" {
      PartReadsHeaders(file, st, hasNodeIds, hasElementIds, limit);
      PartReadsHeaders(file, st, hasNodeIds, hasElementIds, more);
      PartMore(file, st, hasNodeIds, hasElementIds, limit, more);
      var part := Part(file, st, hasNodeIds, hasElementIds, limit);
      if part.Done? {
        var v := part.value;
        PartsMore(file, v.1, v.2, hasNodeIds, hasElementIds, v.3, v.3 + (more - limit));
      }
    }
  }

  /** Once indexing ends within a limit, its outcome is the same for every larger one. */
  lemma OutcomeIsFinal(file: seq<byte>, limit: nat, more: nat)
    requires !GeometryOf(file, limit).Unfinished? && limit <= more
    ensures GeometryOf(file, more) == GeometryOf(file, limit)
  {
    hide Preamble, Parts, ById;
    GeometryFinishes(file, limit);
    var start := Preamble(file);
    if start.Done? {
      var s := start.value;
      PartsMore(file, s.header, s.behind, s.hasNodeIds, s.hasElementIds, limit, more);
    }
  }

  // ------------------------------------------------- forwards and backwards

  /** The span of the arrays of counts. */
  function CountsSpan(x: PieceIndex): int {
    match x.elementType
    case NSided => 4 * x.numElements
    case NFaced => 4 * x.numElements + 4 * x.numFaces
    case _ => 0
  }

  /** The bytes of a piece behind its header, as its counts say: fewer than none if
      they are negative. */
  function PieceSpan(x: PieceIndex, hasElementIds: bool): int {
    4 + (if hasElementIds then 4 * x.numElements else 0) + CountsSpan(x) + 4 * x.totalConnectivityCount
  }

  /** The bytes of a part behind its header, up to its first piece. */
  function HeadSpan(x: PartIndex, hasNodeIds: bool): int {
    8 + 2 * FIELD + (if hasNodeIds then 16 else 12) * x.numNodes
  }

  /** Two streams that nothing read later can tell apart. */
  predicate SameStream(a: Stream, b: Stream) {
    a.failed == b.failed && (!a.failed ==> a == b)
  }

  lemma SkipTwice(st: Stream, a: int, b: int)
    requires 0 <= a || b <= 0
    ensures SameStream(Skip(Skip(st, a), b), Skip(st, a + b))
  {
  }

  lemma SumMoves(file: seq<byte>, st: Stream, count: int)
    ensures var r := Int32Sum(file, st, count);
            r.Done? ==> count >= 0 && r.value.1 == Skip(st, 4 * count)
  {
    hide SumAt, Cast32;
  }

  lemma CountsMove(file: seq<byte>, st: Stream, piece: PieceIndex)
    ensures var r := Counts(file, st, piece);
            r.Done? ==>
              var x := r.value.0;
              && x.elementType == piece.elementType && x.numElements == piece.numElements
              && r.value.1 == Skip(st, CountsSpan(x)) && CountsSpan(x) >= 0
              && (CountsSpan(x) > 0 ==> x.numElements >= 0)
              && (x.elementType.NSided? || x.elementType.NFaced? ==> x.numElements >= 0)
              && (!x.elementType.NSided? && !x.elementType.NFaced? ==>
                    x.totalConnectivityCount == x.numElements * NumNodes(x.elementType))
  {
    hide Int32Sum, Tell;
    SumMoves(file, st, piece.numElements);
    if piece.elementType.NFaced? {
      var faces := Int32Sum(file, st, piece.numElements);
      if faces.Done? {
        SumMoves(file, faces.value.1, faces.value.0);
      }
    }
  }

  /** Reading a piece moves the stream by the span that its counts say, and fails it if
      that leads before the file. */
  lemma PieceMoves(file: seq<byte>, pos: nat, header: string, id: nat, hasElementIds: bool)
    ensures var r := Piece(file, Stream(pos, false), header, id, hasElementIds);
            r.Done? ==> if pos + 4 <= |file| then
                          SameStream(r.value.1, Skip(Stream(pos, false), PieceSpan(r.value.0, hasElementIds)))
                        else r.value.1.failed
  {
    hide Int32, Int32Bytes, ParseElementType, Counts, Tell;
    var t := ParseElementType(header);
    if t.Some? {
      var (n, afterCount) := Int(file, Stream(pos, false), 0);
      var ids := if hasElementIds then 4 * n else 0;
      var afterIds := if hasElementIds then Skip(afterCount, 4 * n) else afterCount;
      CountsMove(file, afterIds, EmptyPiece(id, t.value, n));
      var counted := Counts(file, afterIds, EmptyPiece(id, t.value, n));
      if counted.Done? {
        var x := counted.value.0;
        NodesTimes(n, NumNodes(t.value));
        SkipTwice(afterCount, ids, CountsSpan(x));
        SkipTwice(Skip(afterCount, ids), CountsSpan(x), 4 * x.totalConnectivityCount);
      }
    }
  }

  lemma NodesTimes(n: int, nodes: nat)
    ensures n >= 0 ==> n * nodes >= 0
    ensures n <= 0 ==> n * nodes <= 0
  {
  }

  lemma HeadMoves(file: seq<byte>, pos: nat, hasNodeIds: bool)
    ensures var r := PartHead(file, Stream(pos, false), hasNodeIds);
            r.Done? ==> if pos + 8 + 2 * FIELD <= |file| then
                          SameStream(r.value.1, Skip(Stream(pos, false), HeadSpan(r.value.0, hasNodeIds)))
                        else r.value.1.failed
  {
    hide Int32, Int32Bytes, FixedString, ToLower, Tell;
  }

  /** The bytes from a header to the next one, as the counts behind it say. */
  function HeaderSpan(file: seq<byte>, pos: nat, hasNodeIds: bool, hasElementIds: bool): int
    requires NextHeader(file, Stream(pos, false), hasNodeIds, hasElementIds).Some?
  {
    var (header, next) := LowerText(file, Stream(pos, false));
    if header == "part" then FIELD + HeadSpan(PartHead(file, next, hasNodeIds).value.0, hasNodeIds)
    else FIELD + PieceSpan(Piece(file, next, header, 0, hasElementIds).value.0, hasElementIds)
  }

  /** A header stands in the file as a whole, with the count behind it. */
  predicate WholeHeader(file: seq<byte>, pos: nat) {
    var (header, _) := LowerText(file, Stream(pos, false));
    pos + FIELD + (if header == "part" then 8 + 2 * FIELD else 4) <= |file|
  }

  /** From one header to the next the stream moves by the span of the counts, so it moves
      forward, or fails, exactly when that is positive or leads before the file. */
  lemma HeaderMoves(file: seq<byte>, pos: nat, hasNodeIds: bool, hasElementIds: bool)
    requires NextHeader(file, Stream(pos, false), hasNodeIds, hasElementIds).Some?
    ensures var next := NextHeader(file, Stream(pos, false), hasNodeIds, hasElementIds).value;
            var span := HeaderSpan(file, pos, hasNodeIds, hasElementIds);
            && (WholeHeader(file, pos) ==> SameStream(next, Skip(Stream(pos, false), span)))
            && (!WholeHeader(file, pos) ==> next.failed)
            && (next.failed || next.pos > pos <==> !WholeHeader(file, pos) || span > 0 || pos + span < 0)
  {
    hide PartHead, Piece, FixedString, ToLower, HeadSpan, PieceSpan;
    var (header, next) := LowerText(file, Stream(pos, false));
    if pos + FIELD <= |file| {
      HeadMoves(file, pos + FIELD, hasNodeIds);
      PieceMoves(file, pos + FIELD, header, 0, hasElementIds);
    } else {
      FailedStays(file, next, header, hasNodeIds, hasElementIds);
    }
  }

  lemma FailedStays(file: seq<byte>, st: Stream, header: string, hasNodeIds: bool, hasElementIds: bool)
    requires st.failed
    ensures PartHead(file, st, hasNodeIds).Done? ==> PartHead(file, st, hasNodeIds).value.1.failed
    ensures var r := Piece(file, st, header, 0, hasElementIds); r.Done? ==> r.value.1.failed
  {
    hide Int32, Int32Bytes, ParseElementType, FixedString, ToLower, Tell, SumAt;
  }

  // ------------------------------------------------------------ the guard

  /** The counts behind header number `k`, if it is read, lead forward. */
  ghost predicate LeadsForward(file: seq<byte>, k: nat) {
    HeaderAt(file, k).Some? ==>
      var s, st := Preamble(file).value, HeaderAt(file, k).value;
      NextHeader(file, st, s.hasNodeIds, s.hasElementIds).Some? ==>
        !st.failed && (WholeHeader(file, st.pos) ==> HeaderSpan(file, st.pos, s.hasNodeIds, s.hasElementIds) > 0)
  }

  lemma HeaderAfter(file: seq<byte>, k: nat)
    requires HeaderAt(file, k).Some?
    ensures var s := Preamble(file).value;
            HeaderAt(file, k + 1) == NextHeader(file, HeaderAt(file, k).value, s.hasNodeIds, s.hasElementIds)
  {
    hide Preamble, PartHead, NextHeader;
    var s := Preamble(file).value;
    var first := PartHead(file, s.behind, s.hasNodeIds).value.1;
    WalkOn(file, first, s.hasNodeIds, s.hasElementIds, k, 1);
    var st := HeaderAt(file, k).value;
    assert Walk(file, st, s.hasNodeIds, s.hasElementIds, 1) == NextHeader(file, st, s.hasNodeIds, s.hasElementIds);
  }

  lemma HeaderBefore(file: seq<byte>, i: nat, k: nat)
    requires i <= k && HeaderAt(file, k).Some?
    ensures HeaderAt(file, i).Some? && Preamble(file).Done?
  {
    hide Preamble, PartHead, NextHeader, Walk;
    var s := Preamble(file).value;
    WalkBack(file, PartHead(file, s.behind, s.hasNodeIds).value.1, s.hasNodeIds, s.hasElementIds, i, k);
  }

  lemma {:induction false} Ascends(file: seq<byte>, i: nat, j: nat)
    requires i < j && HeaderAt(file, j).Some? && !HeaderAt(file, j).value.failed
    requires forall k :: LeadsForward(file, k)
    ensures HeaderAt(file, i).Some? && HeaderAt(file, i).value.pos < HeaderAt(file, j).value.pos
    decreases j
  {
    hide HeaderAt, NextHeader, WholeHeader, HeaderSpan, Preamble;
    HeaderBefore(file, j - 1, j);
    HeaderAfter(file, j - 1);
    var s, st := Preamble(file).value, HeaderAt(file, j - 1).value;
    assert LeadsForward(file, j - 1);
    HeaderMoves(file, st.pos, s.hasNodeIds, s.hasElementIds);
    if i < j - 1 {
      Ascends(file, i, j - 1);
    }
  }

  lemma NeverTwice(file: seq<byte>, i: nat, j: nat)
    requires i < j && HeaderAt(file, j).Some?
    requires forall k :: LeadsForward(file, k)
    ensures HeaderAt(file, i) != HeaderAt(file, j)
  {
    hide HeaderAt, NextHeader, LeadsForward, Preamble;
    HeaderBefore(file, i, j);
    HeaderBefore(file, i + 1, j);
    HeaderAfter(file, i);
    var s := Preamble(file).value;
    HeaderIsInFile(file, HeaderAt(file, i).value, s.hasNodeIds, s.hasElementIds);
    if !HeaderAt(file, j).value.failed {
      Ascends(file, i, j);
    }
  }

  /** If the counts behind every header lead forward, then indexing ends, within as many
      headers as the file has bytes, and one more. */
  lemma EndsGoingForward(file: seq<byte>)
    requires forall k :: LeadsForward(file, k)
    ensures !GeometryOf(file, |file| + 1).Unfinished?
  {
    hide HeaderAt, GeometryOf, LeadsForward;
    NeverEndsExactly(file);
    if ReadsTwice(file) {
      var i: nat, j: nat :| i < j && HeaderAt(file, j).Some? && HeaderAt(file, i) == HeaderAt(file, j);
      NeverTwice(file, i, j);
    }
  }

  /** The counts behind a header are not negative. */
  ghost predicate NaturalCounts(file: seq<byte>, k: nat) {
    HeaderAt(file, k).Some? ==>
      var s := Preamble(file).value;
      var (header, next) := LowerText(file, HeaderAt(file, k).value);
      var head := PartHead(file, next, s.hasNodeIds);
      var piece := Piece(file, next, header, 0, s.hasElementIds);
      && (header == "part" && head.Done? ==> head.value.0.numNodes >= 0)
      && (header != "part" && piece.Done? ==>
            piece.value.0.numElements >= 0 && piece.value.0.totalConnectivityCount >= 0)
  }

  lemma CountArraysSpan(file: seq<byte>, st: Stream, header: string, hasElementIds: bool)
    ensures var r := Piece(file, st, header, 0, hasElementIds); r.Done? ==> CountsSpan(r.value.0) >= 0
  {
    hide Int, ParseElementType, Counts, Tell;
    var t := ParseElementType(header);
    if t.Some? {
      var (n, afterCount) := Int(file, st, 0);
      var afterIds := if hasElementIds then Skip(afterCount, 4 * n) else afterCount;
      CountsMove(file, afterIds, EmptyPiece(0, t.value, n));
    }
  }

  /** So indexing ends whenever no count is negative. */
  lemma EndsForNaturalCounts(file: seq<byte>)
    requires forall k :: NaturalCounts(file, k)
    ensures !GeometryOf(file, |file| + 1).Unfinished?
  {
    forall k: nat ensures LeadsForward(file, k) {
      hide HeaderAt, LowerText, PartHead, Piece;
      assert NaturalCounts(file, k);
      if HeaderAt(file, k).Some? {
        var s, st := Preamble(file).value, HeaderAt(file, k).value;
        var (header, next) := LowerText(file, st);
        CountArraysSpan(file, next, header, s.hasElementIds);
        if NextHeader(file, st, s.hasNodeIds, s.hasElementIds).Some? {
          HeaderIsInFile(file, st, s.hasNodeIds, s.hasElementIds);
        }
      }
    }
    EndsGoingForward(file);
  }

  // --------------------------------------------------- a file without an end

  /** Counts that cancel the bytes they follow keep the code at one header for ever. */
  lemma StandsStill(file: seq<byte>, k: nat, limit: nat)
    requires HeaderAt(file, k).Some? && Preamble(file).Done?
    requires var s, st := Preamble(file).value, HeaderAt(file, k).value;
             && NextHeader(file, st, s.hasNodeIds, s.hasElementIds).Some? && !st.failed
             && WholeHeader(file, st.pos) && HeaderSpan(file, st.pos, s.hasNodeIds, s.hasElementIds) == 0
    ensures GeometryOf(file, limit).Unfinished?
  {
    hide HeaderAt, NextHeader, WholeHeader, HeaderSpan, GeometryOf, Preamble;
    var s, st := Preamble(file).value, HeaderAt(file, k).value;
    HeaderAfter(file, k);
    HeaderMoves(file, st.pos, s.hasNodeIds, s.hasElementIds);
    assert HeaderAt(file, k) == HeaderAt(file, k + 1);
    NeverEndsExactly(file);
  }

  /** A piece of -21 points, without identifiers. */
  function Backwards(pad: byte): seq<byte> {
    Field(NameOf(Point), pad) + Int32Bytes(-21, Little)
  }

  /** Reading it leads back to the place where its own header began. */
  lemma BackwardsReturns(file: seq<byte>, pos: nat, pad: byte, id: nat)
    requires IsPad(pad) && At(file, pos, Backwards(pad))
    ensures LowerText(file, Here(pos)) == (NameOf(Point), Here(pos + FIELD))
    ensures var r := Piece(file, Here(pos + FIELD), NameOf(Point), id, false);
            r.Done? && r.value.1 == Here(pos)
  {
    hide At, Field, Int32Bytes, LowerText, Int, ParseElementType;
    AtSplit(file, pos, Field(NameOf(Point), pad), Int32Bytes(-21, Little));
    HeaderOf(file, pos, Point, pad);
    IntOf(file, pos + FIELD, -21, 0);
    NameParses(Point);
  }

  /** The first header behind the one part of a geometry. */
  lemma FirstHeaderAt(file: seq<byte>, g: WrittenGeometry, p: WrittenPart, pad: byte)
    requires IsPad(pad) && Writable(g) && g.parts == [p] && p.pieces == [] && At(file, 0, FileBytes(g, pad))
    ensures HeaderAt(file, 0) == Some(Here(|FileBytes(g, pad)|))
    ensures Preamble(file).Done? && Preamble(file).value.hasElementIds == HasIds(ToLower(g.elementIdLine))
  {
    hide *;
    var at := 5 * FIELD + |ExtentBytes(g.extents, pad)|;
    var (nodes, elements) := (HasIds(ToLower(g.nodeIdLine)), HasIds(ToLower(g.elementIdLine)));
    WritableParts(g);
    FileFields(file, g, pad);
    LinesRead(file, g, pad);
    PartsBytesCons(g.parts, pad, nodes, elements);
    NoParts(file, Here(0), nodes, elements, 0, pad);
    var body := PartBody(p, pad, nodes, elements);
    assert g.parts[1..] == [];
    AtSplit(file, at, Field(PART, pad), body + []);
    AtSplit(file, at + FIELD, body, []);
    PartHeader(file, at, pad);
    HeaderBehindExtents(file, 5 * FIELD, g.extents, pad);
    HeadOf(file, Ahead(at), p, pad, nodes, elements);
    HeadFields(file, Ahead(at), p, pad, nodes, elements);
    ArrayFields(file, Ahead(at), p, pad, nodes, elements);
    NoPiecesBytes(pad, elements);
    BehindHead(file, Start(nodes, elements, PART, Here(Ahead(at))));
  }

  lemma BehindHead(file: seq<byte>, start: Start)
    requires Preamble(file) == Done(start) && start.header == PART
    requires PartHead(file, start.behind, start.hasNodeIds).Done?
    ensures HeaderAt(file, 0) == Some(PartHead(file, start.behind, start.hasNodeIds).value.1)
  {
    hide Preamble, PartHead;
  }

  /** Indexing a geometry of one part without pieces never ends if such a piece follows. */
  lemma NeverEnds(g: WrittenGeometry, p: WrittenPart, pad: byte, limit: nat)
    requires IsPad(pad) && Writable(g) && !HasIds(ToLower(g.elementIdLine))
    requires g.parts == [p] && p.pieces == []
    ensures GeometryOf(FileBytes(g, pad) + Backwards(pad), limit).Unfinished?
  {
    hide FileBytes, Backwards, HasIds, Writable, HeaderAt, Preamble, GeometryOf, Piece, LowerText, At;
    var (bytes, tail) := (FileBytes(g, pad), Backwards(pad));
    var file := bytes + tail;
    WholeAt(file);
    AtSplit(file, 0, bytes, tail);
    FirstHeaderAt(file, g, p, pad);
    BackwardsReturns(file, |bytes|, pad, 0);
    HeaderAfter(file, 0);
    assert HeaderAt(file, 1) == HeaderAt(file, 0);
    NeverEndsExactly(file);
  }

  /** There are such files. */
  lemma EndlessFile(pad: byte, limit: nat)
    requires IsPad(pad)
    ensures var part := WrittenPart(1, "part", 0, [], [], [], [], []);
            var g := WrittenGeometry("a", "b", "", "", None, [part]);
            Writable(g) && GeometryOf(FileBytes(g, pad) + Backwards(pad), limit).Unfinished?
  {
    hide FileBytes, Backwards, GeometryOf;
    var part := WrittenPart(1, "part", 0, [], [], [], [], []);
    assert !HasIds("");
    assert ToLower("") == "";
    NeverEnds(WrittenGeometry("a", "b", "", "", None, [part]), part, pad, limit);
  }
}
