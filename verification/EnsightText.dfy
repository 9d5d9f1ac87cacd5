/** Text in EnSight files: eighty-byte fields, and the names of element types. */
module EnsightText {
  import opened Bytes
  import opened Wrappers

  const FIELD: nat := 80

  function Chars(b: seq<byte>): (s: string)
    ensures |s| == |b| && forall k :: 0 <= k < |b| ==> s[k] == b[k] as char
  {
    seq(|b|, k requires 0 <= k < |b| => b[k] as char)
  }

  function UntilNul(s: string): (r: string)
    ensures r <= s && (forall k :: 0 <= k < |r| ==> r[k] != 0 as char)
    ensures |r| < |s| ==> s[|r|] == 0 as char
  {
    if s == "" || s[0] == 0 as char then "" else [s[0]] + UntilNul(s[1..])
  }

  predicate Space(c: char) {
    c == ' ' || c == '\n' || c == '\t' || c == '\r'
  }

  function TrimLeft(s: string): (r: string)
    ensures r != "" ==> !Space(r[0])
    ensures s != "" && !Space(s[0]) ==> r == s
  {
    if s == "" || !Space(s[0]) then s else TrimLeft(s[1..])
  }

  function TrimRight(s: string): (r: string)
    ensures r <= s && (r != "" ==> !Space(r[|r| - 1]))
    ensures forall k :: |r| <= k < |s| ==> Space(s[k])
    decreases |s|
  {
    if s == "" || !Space(s[|s| - 1]) then s else TrimRight(s[..|s| - 1])
  }

  function Trim(s: string): string {
    TrimLeft(TrimRight(s))
  }

  /** What a field of an EnSight file reads as: up to a NUL, without blanks around. */
  function FixedString(field: seq<byte>): string {
    Trim(UntilNul(Chars(field)))
  }

  function Lower(c: char): char {
    if 'A' <= c <= 'Z' then (c as int + 32) as char else c
  }

  function ToLower(s: string): (r: string)
    ensures |r| == |s| && forall k :: 0 <= k < |s| ==> r[k] == Lower(s[k])
  {
    seq(|s|, k requires 0 <= k < |s| => Lower(s[k]))
  }

  function Contains(s: string, sub: string): bool {
    sub <= s || (s != "" && Contains(s[1..], sub))
  }

  // ------------------------------------------------------------ writing text

  /** A text that a field can hold and give back. */
  predicate FieldText(s: string) {
    && |s| <= FIELD
    && (forall k :: 0 <= k < |s| ==> 0 < s[k] as int < 256)
    && (s != "" ==> !Space(s[0]) && !Space(s[|s| - 1]))
  }

  /** A field filled up with NULs or with spaces. */
  function Field(s: string, pad: byte): (b: seq<byte>)
    requires FieldText(s)
    ensures |b| == FIELD
  {
    seq(FIELD, k requires 0 <= k < FIELD => if k < |s| then s[k] as int else pad)
  }

  lemma {:induction false} TrimRightOf(s: string, n: nat)
    requires n <= |s| && (forall k :: n <= k < |s| ==> Space(s[k])) && (n > 0 ==> !Space(s[n - 1]))
    ensures TrimRight(s) == s[..n]
    decreases |s|
  {
    if |s| > n {
      TrimRightOf(s[..|s| - 1], n);
      assert s[..|s| - 1][..n] == s[..n];
    }
  }

  /** A field reads as the text that was written into it, however it was filled up. */
  lemma FieldReads(s: string, pad: byte)
    requires FieldText(s) && (pad == 0 || pad == 32)
    ensures FixedString(Field(s, pad)) == s
  {
    var c := Chars(Field(s, pad));
    var u := UntilNul(c);
    forall k | 0 <= k < |s| ensures c[k] == s[k] {
    }
    if pad == 0 {
      assert |u| >= |s|;
      assert |s| < FIELD ==> c[|s|] == 0 as char;
      assert u == s;
      TrimRightOf(u, |s|);
      assert u[..|s|] == u;
    } else {
      assert |u| == |c|;
      assert forall k :: |s| <= k < |u| ==> u[k] == ' ';
      TrimRightOf(u, |s|);
      assert u[..|s|] == s;
    }
  }

  lemma LowerUnchanged(s: string)
    requires forall k :: 0 <= k < |s| ==> !('A' <= s[k] <= 'Z')
    ensures ToLower(s) == s
  {
  }

  // ----------------------------------------------------------- element types

  datatype ElementType =
    | Point | Bar2 | Bar3 | Tria3 | Tria6 | Quad4 | Quad8 | Tetra4 | Tetra10
    | Pyramid5 | Pyramid13 | Penta6 | Penta15 | Hexa8 | Hexa20 | NSided | NFaced

  function NameOf(t: ElementType): (s: string)
    ensures FieldText(s) && s != "" && s != "part"
    ensures forall k :: 0 <= k < |s| ==> !('A' <= s[k] <= 'Z')
  {
    match t
    case Point => "point"
    case Bar2 => "bar2"
    case Bar3 => "bar3"
    case Tria3 => "tria3"
    case Tria6 => "tria6"
    case Quad4 => "quad4"
    case Quad8 => "quad8"
    case Tetra4 => "tetra4"
    case Tetra10 => "tetra10"
    case Pyramid5 => "pyramid5"
    case Pyramid13 => "pyramid13"
    case Penta6 => "penta6"
    case Penta15 => "penta15"
    case Hexa8 => "hexa8"
    case Hexa20 => "hexa20"
    case NSided => "nsided"
    case NFaced => "nfaced"
  }

  const ELEMENT_TYPES: seq<ElementType> := [
    Point, Bar2, Bar3, Tria3, Tria6, Quad4, Quad8, Tetra4, Tetra10,
    Pyramid5, Pyramid13, Penta6, Penta15, Hexa8, Hexa20, NSided, NFaced]

  function FindType(name: string, types: seq<ElementType>): Option<ElementType> {
    if types == [] then None
    else if NameOf(types[0]) == name then Some(types[0])
    else FindType(name, types[1..])
  }

  function ParseElementType(name: string): Option<ElementType> {
    FindType(ToLower(name), ELEMENT_TYPES)
  }

  lemma {:induction false} FindsIt(t: ElementType, types: seq<ElementType>)
    requires t in types
    ensures FindType(NameOf(t), types) == Some(t)
  {
    if types[0] != t {
      NamesDiffer(types[0], t);
      FindsIt(t, types[1..]);
    }
  }

  lemma NamesDiffer(t: ElementType, u: ElementType)
    requires t != u
    ensures NameOf(t) != NameOf(u)
  {
    var s, r := NameOf(t), NameOf(u);
    assert |s| == |r| ==> s[0] != r[0] || s[1] != r[1] || s[|s| - 1] != r[|s| - 1];
  }

  /** Every element type is recognised by its name. */
  lemma NameParses(t: ElementType)
    ensures ParseElementType(NameOf(t)) == Some(t)
  {
    LowerUnchanged(NameOf(t));
    assert t in ELEMENT_TYPES;
    FindsIt(t, ELEMENT_TYPES);
  }

  function NumNodes(t: ElementType): nat {
    match t
    case Point => 1
    case Bar2 => 2
    case Bar3 => 3
    case Tria3 => 3
    case Tria6 => 6
    case Quad4 => 4
    case Quad8 => 8
    case Tetra4 => 4
    case Tetra10 => 10
    case Pyramid5 => 5
    case Pyramid13 => 13
    case Penta6 => 6
    case Penta15 => 15
    case Hexa8 => 8
    case Hexa20 => 20
    case NSided => 0
    case NFaced => 0
  }
}
