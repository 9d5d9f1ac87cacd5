/** Base64 decoding as the VTK reader does it, against section 4 of RFC 4648. The
    shifts and masks of the code are products and quotients by powers of two;
    `ShiftsAreArithmetic` shows on bit vectors that these are the same. */
module Base64 {
  import opened Bytes
  import opened Wrappers

  const PAD: byte := 61 // '='

  /** A six-bit value. */
  type sextet = v: int | 0 <= v < 64

  // ------------------------------------------------------------ the standard

  /** Table 1 of RFC 4648: the character of a six-bit value. */
  function Alphabet(v: sextet): (c: byte)
    ensures c != PAD
  {
    if v < 26 then 65 + v
    else if v < 52 then 97 + (v - 26)
    else if v < 62 then 48 + (v - 52)
    else if v == 62 then 43
    else 47
  }

  /** The 24-bit group that four six-bit values spell, and the one that three
      bytes spell: both most significant first. */
  function SextetGroup(v: seq<sextet>): nat
    requires |v| == 4
  {
    0x40000 * (v[0] as int) + 0x1000 * (v[1] as int) + 0x40 * (v[2] as int) + v[3]
  }

  function ByteGroup(b: seq<byte>): nat
    requires |b| == 3
  {
    0x10000 * (b[0] as int) + 0x100 * (b[1] as int) + b[2]
  }

  /** The four six-bit values of a group of three bytes. */
  function Sextets(b: seq<byte>): (v: seq<sextet>)
    requires |b| == 3
    ensures |v| == 4 && SextetGroup(v) == ByteGroup(b)
    ensures (b[2] == 0 ==> v[3] == 0) && (b[1] == 0 && b[2] == 0 ==> v[2] == 0)
  {
    var x: int, y: int, z: int := b[0], b[1], b[2];
    [x / 4, x % 4 * 16 + y / 16, y % 16 * 4 + z / 64, z % 64]
  }

  /** The text of `n` bytes given as a full group: `n + 1` characters and padding. */
  function GroupText(b: seq<byte>, n: nat): (text: seq<byte>)
    requires |b| == 3 && 1 <= n <= 3
    ensures |text| == 4
  {
    var v := Sextets(b);
    [ Alphabet(v[0]), Alphabet(v[1]),
      if n >= 2 then Alphabet(v[2]) else PAD,
      if n >= 3 then Alphabet(v[3]) else PAD ]
  }

  /** The encoding: whole groups, then at most one group filled up with zeros and
      padded with `=`. */
  function Encode(b: seq<byte>): (text: seq<byte>)
    decreases |b|
  {
    if |b| == 0 then []
    else if |b| == 1 then GroupText([b[0], 0, 0], 1)
    else if |b| == 2 then GroupText([b[0], b[1], 0], 2)
    else GroupText(b[..3], 3) + Encode(b[3..])
  }

  // ------------------------------------------------- characters and quartets

  function Base64Value(c: byte): (v: Option<sextet>)
    ensures v.Some? ==> Alphabet(v.value) == c
  {
    if 65 <= c <= 90 then Some(c - 65)
    else if 97 <= c <= 122 then Some(c - 97 + 26)
    else if 48 <= c <= 57 then Some(c - 48 + 52)
    else if c == 43 then Some(62)
    else if c == 47 then Some(63)
    else None
  }

  /** The character table is read backwards exactly. */
  lemma Base64ValueInverts(c: byte, v: sextet)
    ensures Base64Value(c) == Some(v) <==> Alphabet(v) == c
  {
  }

  /** The bytes of one quartet: three, or two or one when padded and padding is
      allowed. Bits that padding drops are not looked at. */
  function QuartetBytes(q: seq<byte>, allowPadding: bool): (r: Result<seq<byte>>)
    requires |q| == 4
    ensures r.Ok? ==> 1 <= |r.value| <= 3
    ensures r.Ok? && !allowPadding ==> |r.value| == 3
  {
    match (Base64Value(q[0]), Base64Value(q[1]), Base64Value(q[2]), Base64Value(q[3]))
    case (Some(a), Some(b), Some(c), Some(d)) => Ok(TripleOf([a, b, c, d]))
    case (Some(a), Some(b), Some(c), None) =>
      if allowPadding && q[3] == PAD then Ok(TripleOf([a, b, c, 0])[..2]) else Throws
    case (Some(a), Some(b), None, None) =>
      if allowPadding && q[2] == PAD && q[3] == PAD then Ok(TripleOf([a, b, 0, 0])[..1]) else Throws
    case _ => Throws
  }

  /** The three assignments at the end of `DecodeBase64Quartet`: the bytes that
      spell the same 24 bits. */
  function TripleOf(v: seq<sextet>): (b: seq<byte>)
    requires |v| == 4
    ensures |b| == 3 && ByteGroup(b) == SextetGroup(v)
  {
    var x: int, y: int, z: int, w: int := v[0], v[1], v[2], v[3];
    [4 * x + y / 16, y % 16 * 16 + z / 4, z % 4 * 64 + w]
  }

  /** A group of 24 bits is spelled by one triple of bytes. */
  lemma ByteGroupInjective(a: seq<byte>, b: seq<byte>)
    requires |a| == 3 && |b| == 3 && ByteGroup(a) == ByteGroup(b)
    ensures a == b
  {
    var x: int, y: int := a[0], b[0];
    assert x == y;
  }

  predicate IsSpace(c: byte) {
    c == 32 || 9 <= c <= 13
  }

  /** On six-bit values, the shifts, masks and ors of those assignments are the
      sums of products and quotients above. */
  lemma ShiftsAreArithmetic(a: bv8, b: bv8, c: bv8, d: bv8)
    requires a < 64 && b < 64 && c < 64 && d < 64
    ensures (a << 2) | (b >> 4) == 4 * a + b / 16
    ensures ((b & 0x0F) << 4) | (c >> 2) == b % 16 * 16 + c / 4
    ensures ((c & 0x03) << 6) | d == c % 4 * 64 + d
  {
  }

  /** The characters that end the loop early make the quartet malformed. */
  lemma MalformedAt(q: seq<byte>, allowPadding: bool, i: nat)
    requires |q| == 4 && i < 4
    requires || (q[i] == PAD && (!allowPadding || i < 2))
             || (q[i] != PAD && i >= 3 && q[i - 1] == PAD)
             || (q[i] != PAD && Base64Value(q[i]).None?)
    ensures QuartetBytes(q, allowPadding).Throws?
  {
  }

  /** A quartet read to its end with `padding` pad characters. */
  lemma WellFormedWith(q: seq<byte>, allowPadding: bool, v: seq<sextet>, padding: nat)
    requires |q| == 4 && |v| == 4 && padding <= 2 && (padding > 0 ==> allowPadding)
    requires forall k :: 0 <= k < 4 - padding ==> Base64Value(q[k]) == Some(v[k])
    requires forall k :: 4 - padding <= k < 4 ==> q[k] == PAD && v[k] == 0
    ensures QuartetBytes(q, allowPadding) == Ok(TripleOf(v)[..3 - padding])
  {
    assert v == [v[0], v[1], v[2], v[3]];
    assert Base64Value(q[0]) == Some(v[0]) && Base64Value(q[1]) == Some(v[1]);
    if padding == 0 {
      assert Base64Value(q[2]) == Some(v[2]) && Base64Value(q[3]) == Some(v[3]);
      assert TripleOf(v)[..3] == TripleOf(v);
    } else if padding == 1 {
      assert Base64Value(q[2]) == Some(v[2]);
    } else {
      assert q[2] == PAD && q[3] == PAD;
    }
  }

  /** The loop over the four characters: their values, and how many are padding. */
  method ReadQuartet(encoded: seq<byte>, allowPadding: bool) returns (read: Result<(seq<sextet>, nat)>)
    requires |encoded| == 4
    ensures read.Throws? ==> QuartetBytes(encoded, allowPadding).Throws?
    ensures read.Ok? ==>
              && |read.value.0| == 4 && read.value.1 <= 2
              && QuartetBytes(encoded, allowPadding) == Ok(TripleOf(read.value.0)[..3 - read.value.1])
  {
    var values: seq<sextet> := [0, 0, 0, 0];
    var padding := 0;
    for i := 0 to 4
      invariant |values| == 4
      invariant 0 <= padding <= i
      invariant padding > 0 ==> allowPadding && i - padding >= 2
      invariant forall k :: 0 <= k < i - padding ==> Base64Value(encoded[k]) == Some(values[k])
      invariant forall k :: i - padding <= k < i ==> encoded[k] == PAD
      invariant forall k :: i - padding <= k < 4 ==> values[k] == 0
    {
      if encoded[i] == PAD {
        if !allowPadding || i < 2 {
          MalformedAt(encoded, allowPadding, i);
          return Throws;
        }
        padding := padding + 1;
        continue;
      }
      if padding != 0 {
        MalformedAt(encoded, allowPadding, i);
        return Throws;
      }
      if IsSpace(encoded[i]) {
        MalformedAt(encoded, allowPadding, i);
        return Throws;
      }
      var value := Base64Value(encoded[i]);
      if value.None? {
        MalformedAt(encoded, allowPadding, i);
        return Throws;
      }
      values := values[i := value.value];
    }
    // The C++ function ends with one more test: it throws for more than two padding
    // characters, for one that is not the last character of the quartet, and for two
    // that are not its last two. Here is why none of these can be the case.
    assert padding <= 2 && (padding >= 1 ==> encoded[3] == PAD) && (padding == 2 ==> encoded[2] == PAD);
    WellFormedWith(encoded, allowPadding, values, padding);
    read := Ok((values, padding));
  }

  method DecodeBase64Quartet(encoded: seq<byte>, decoded: array<byte>, at: nat, allowPadding: bool)
    returns (count: Result<nat>)
    requires |encoded| == 4 && at + 3 <= decoded.Length
    modifies decoded
    ensures count.Ok? <==> QuartetBytes(encoded, allowPadding).Ok?
    ensures count.Ok? ==>
              && count.value == |QuartetBytes(encoded, allowPadding).value|
              && decoded[at..at + count.value] == QuartetBytes(encoded, allowPadding).value
    ensures forall k :: 0 <= k < decoded.Length && !(at <= k < at + 3) ==> decoded[k] == old(decoded[k])
  {
    var read := ReadQuartet(encoded, allowPadding);
    if read.Throws? {
      return Throws;
    }
    var (values, padding) := read.value;
    var bytes := TripleOf(values);
    decoded[at], decoded[at + 1], decoded[at + 2] := bytes[0], bytes[1], bytes[2];
    assert decoded[at..at + (3 - padding)] == bytes[..3 - padding];
    count := Ok(3 - padding);
  }

  // --------------------------------------------------------- whole payloads

  /** Decoding a text quartet by quartet; only the last quartet may be padded, and
      only when the caller allows it. */
  function Decode(text: seq<byte>, allowFinalPadding: bool): (r: Result<seq<byte>>)
    decreases |text|
  {
    if |text| % 4 != 0 then Throws
    else if text == [] then Ok([])
    else
      var head :- QuartetBytes(text[..4], allowFinalPadding && |text| == 4);
      var tail :- Decode(text[4..], allowFinalPadding);
      Ok(head + tail)
  }

  /** One turn of the decoding loop: the quartet goes to the target directly, or
      through a scratch triple when it may be padded. */
  method DecodeNext(encoded: seq<byte>, target: array<byte>, at: nat, room: nat, mayBePadded: bool)
    returns (count: Result<nat>)
    requires |encoded| == 4 && at + room <= target.Length
    modifies target
    ensures var q := QuartetBytes(encoded, mayBePadded);
            count.Ok? <==> q.Ok? && |q.value| <= room
    ensures count.Ok? ==>
              && count.value == |QuartetBytes(encoded, mayBePadded).value|
              && target[at..at + count.value] == QuartetBytes(encoded, mayBePadded).value
    ensures forall k :: 0 <= k < target.Length && !(at <= k < at + room) ==> target[k] == old(target[k])
  {
    if mayBePadded {
      var scratch := new byte[3];
      var c := DecodeBase64Quartet(encoded, scratch, 0, true);
      if c.Throws? || c.value > room {
        return Throws;
      }
      forall k | 0 <= k < c.value {
        target[at + k] := scratch[k];
      }
      assert target[at..at + c.value] == scratch[0..c.value];
      count := c;
    } else {
      if 3 > room {
        return Throws;
      }
      count := DecodeBase64Quartet(encoded, target, at, false);
    }
  }

  method DecodeBase64Into(text: seq<byte>, target: array<byte>, at: nat, expected: nat, allowFinalPadding: bool)
    returns (ok: bool)
    requires at + expected <= target.Length
    modifies target
    ensures ok <==> Decode(text, allowFinalPadding).Ok? && |Decode(text, allowFinalPadding).value| == expected
    ensures ok ==> target[at..at + expected] == Decode(text, allowFinalPadding).value
    ensures forall k :: 0 <= k < target.Length && !(at <= k < at + expected) ==> target[k] == old(target[k])
  {
    hide QuartetBytes;
    if |text| % 4 != 0 {
      return false;
    }
    var produced, offset := 0, 0;
    ghost var done: seq<byte> := [];
    assert text[0..] == text;
    PrependNothing(Decode(text, allowFinalPadding));
    while offset < |text|
      invariant 0 <= offset <= |text| && (|text| - offset) % 4 == 0
      invariant 0 <= produced == |done| <= expected
      invariant target[at..at + produced] == done
      invariant Decode(text, allowFinalPadding) == Prepend(done, Decode(text[offset..], allowFinalPadding))
      invariant forall k :: 0 <= k < target.Length && !(at <= k < at + expected) ==> target[k] == old(target[k])
    {
      var isFinal := offset + 4 == |text|;
      UnfoldAt(text, offset, allowFinalPadding, done);
      ghost var head := target[..at + produced];
      var count := DecodeNext(
        text[offset..offset + 4], target, at + produced, expected - produced, allowFinalPadding && isFinal);
      if count.Throws? {
        return false;
      }
      assert target[..at + produced] == head;
      JoinSlices(target[..], at, produced, count.value);
      assert head[at..] == done;
      done := done + target[at + produced..at + produced + count.value];
      produced, offset := produced + count.value, offset + 4;
    }
    assert text[offset..] == [];
    ok := produced == expected;
  }

  lemma JoinSlices(s: seq<byte>, at: nat, m: nat, n: nat)
    requires at + m + n <= |s|
    ensures s[at..at + m + n] == s[at..at + m] + s[at + m..at + m + n]
  {
  }

  lemma {:induction false} UnfoldAt(text: seq<byte>, offset: nat, allow: bool, head: seq<byte>)
    requires offset < |text| && (|text| - offset) % 4 == 0
    ensures var q := QuartetBytes(text[offset..offset + 4], allow && offset + 4 == |text|);
            Prepend(head, Decode(text[offset..], allow)) ==
            if q.Ok? then Prepend(head + q.value, Decode(text[offset + 4..], allow)) else Throws
  {
    assert text[offset..][..4] == text[offset..offset + 4] && text[offset..][4..] == text[offset + 4..];
    var q := QuartetBytes(text[offset..offset + 4], allow && offset + 4 == |text|);
    if q.Ok? && Decode(text[offset + 4..], allow).Ok? {
      var tail := Decode(text[offset + 4..], allow).value;
      assert head + (q.value + tail) == head + q.value + tail;
    }
  }

  /** What quartet `a` of a text of `m` quartets decodes to. */
  function Piece(text: seq<byte>, m: nat, allowFinalPadding: bool, a: nat): (r: Result<seq<byte>>)
    requires a < m && 4 * m <= |text|
    ensures r.Ok? ==> 1 <= |r.value| <= 3 && (!allowFinalPadding || a + 1 < m ==> |r.value| == 3)
  {
    QuartetBytes(text[4 * a..4 * a + 4], allowFinalPadding && a + 1 == m)
  }

  ghost predicate PiecesOk(text: seq<byte>, m: nat, allowFinalPadding: bool)
    requires 4 * m <= |text|
  {
    forall a :: 0 <= a < m ==> Piece(text, m, allowFinalPadding, a).Ok?
  }

  ghost predicate PieceAt(bytes: seq<byte>, a: nat, piece: seq<byte>) {
    3 * a + |piece| <= |bytes| && bytes[3 * a..3 * a + |piece|] == piece
  }

  lemma PiecesShifted(text: seq<byte>, m: nat, allow: bool)
    requires |text| == 4 * m && m > 0
    ensures text[..4] == text[4 * 0..4 * 0 + 4]
    ensures var tail, n := text[4..], m - 1;
            forall a :: 0 <= a < n ==> Piece(tail, n, allow, a) == Piece(text, m, allow, a + 1)
    ensures PiecesOk(text, m, allow) <==> Piece(text, m, allow, 0).Ok? && PiecesOk(text[4..], m - 1, allow)
  {
    hide QuartetBytes;
    var tail, n := text[4..], m - 1;
    forall a | 0 <= a < n ensures Piece(tail, n, allow, a) == Piece(text, m, allow, a + 1) {
      assert tail[4 * a..4 * a + 4] == text[4 * (a + 1)..4 * (a + 1) + 4];
    }
    if Piece(text, m, allow, 0).Ok? && PiecesOk(tail, n, allow) {
      forall a | 0 <= a < m ensures Piece(text, m, allow, a).Ok? {
        if a > 0 {
          assert Piece(tail, n, allow, a - 1).Ok?;
        }
      }
    }
    if PiecesOk(text, m, allow) {
      forall a | 0 <= a < n ensures Piece(tail, n, allow, a).Ok? {
        assert Piece(text, m, allow, a + 1).Ok?;
      }
    }
  }

  /** A text decodes exactly when each of its quartets does, to their bytes in a
      row: three for each quartet but the last. */
  lemma {:induction false} DecodeByPieces(text: seq<byte>, m: nat, allow: bool)
    requires |text| == 4 * m
    ensures Decode(text, allow).Ok? <==> PiecesOk(text, m, allow)
    ensures Decode(text, allow).Ok? ==>
              && (m == 0 ==> Decode(text, allow).value == [])
              && (m > 0 ==> |Decode(text, allow).value| == 3 * (m - 1) + |Piece(text, m, allow, m - 1).value|)
              && forall a :: 0 <= a < m ==> PieceAt(Decode(text, allow).value, a, Piece(text, m, allow, a).value)
    decreases m
  {
    hide QuartetBytes;
    if m > 0 {
      var tail, n := text[4..], m - 1;
      DecodeByPieces(tail, n, allow);
      PiecesShifted(text, m, allow);
      if Decode(text, allow).Ok? {
        var head, w := Piece(text, m, allow, 0).value, Decode(tail, allow).value;
        assert Decode(text, allow).value == head + w;
        forall a | 0 <= a < m ensures PieceAt(head + w, a, Piece(text, m, allow, a).value) {
          if a > 0 {
            assert PieceAt(w, a - 1, Piece(tail, n, allow, a - 1).value);
            PieceShifted(head, w, a - 1, Piece(text, m, allow, a).value);
          }
        }
      }
    }
  }

  lemma PieceShifted(head: seq<byte>, w: seq<byte>, a: nat, piece: seq<byte>)
    requires |head| == 3 && PieceAt(w, a, piece)
    ensures PieceAt(head + w, a + 1, piece)
  {
  }

  /** Allowing padding changes nothing for a quartet of three bytes. */
  lemma PaddingIrrelevant(q: seq<byte>)
    requires |q| == 4
    ensures QuartetBytes(q, false).Ok? <==> QuartetBytes(q, true).Ok? && |QuartetBytes(q, true).value| == 3
    ensures QuartetBytes(q, false).Ok? ==> QuartetBytes(q, false) == QuartetBytes(q, true)
  {
  }

  // ------------------------------------------------------------ round trips

  /** The text of a group reads back as its first `n` bytes. */
  lemma GroupTextDecodes(b: seq<byte>, n: nat)
    requires |b| == 3 && 1 <= n <= 3 && (n <= 2 ==> b[2] == 0) && (n <= 1 ==> b[1] == 0)
    ensures QuartetBytes(GroupText(b, n), true) == Ok(b[..n])
    ensures n == 3 ==> QuartetBytes(GroupText(b, n), false) == Ok(b[..n])
  {
    var v := Sextets(b);
    ByteGroupInjective(TripleOf(v), b);
    Base64ValueInverts(Alphabet(v[0]), v[0]);
    Base64ValueInverts(Alphabet(v[1]), v[1]);
    Base64ValueInverts(Alphabet(v[2]), v[2]);
    Base64ValueInverts(Alphabet(v[3]), v[3]);
    assert v == [v[0], v[1], v[2], v[3]];
    assert b[..3] == b;
  }

  lemma {:induction false} EncodeStep(b: seq<byte>)
    requires b != []
    ensures var n := if |b| < 3 then |b| else 3;
            && |Encode(b)| == 4 + |Encode(b[n..])|
            && QuartetBytes(Encode(b)[..4], true) == Ok(b[..n])
            && (n == 3 ==> QuartetBytes(Encode(b)[..4], false) == Ok(b[..n]))
            && Encode(b)[4..] == Encode(b[n..])
  {
    var n := if |b| < 3 then |b| else 3;
    var group := if |b| == 1 then [b[0], 0, 0] else if |b| == 2 then [b[0], b[1], 0] else b[..3];
    GroupTextDecodes(group, n);
    assert Encode(b)[..4] == GroupText(group, n);
    assert b[..n] == group[..n];
  }

  lemma {:induction false} DecodeCons(text: seq<byte>, head: seq<byte>, tail: seq<byte>)
    requires |text| >= 4 && Decode(text[4..], true) == Ok(tail)
    requires QuartetBytes(text[..4], |text| == 4) == Ok(head)
    ensures Decode(text, true) == Ok(head + tail)
  {
    hide QuartetBytes;
  }

  /** Decoding undoes encoding, for every byte sequence. */
  lemma {:induction false} DecodeEncode(b: seq<byte>)
    ensures Decode(Encode(b), true) == Ok(b)
    decreases |b|
  {
    hide QuartetBytes;
    if b != [] {
      EncodeStep(b);
      var n := if |b| < 3 then |b| else 3;
      DecodeEncode(b[n..]);
      assert n < 3 ==> b[n..] == [];
      DecodeCons(Encode(b), b[..n], b[n..]);
      assert b == b[..n] + b[n..];
    }
  }
}
