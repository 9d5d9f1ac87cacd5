/** FLASH snapshots, and when the snapshots of a series are compatible. */
module FlashSnapshots {
  import opened Wrappers
  import opened Orders

  datatype NumericKind = KindInt32 | KindInt64 | KindUInt32 | KindUInt64 | KindFloat32 | KindFloat64

  datatype ScalarValue =
    | Int32(i32: int) | Int64(i64: int) | UInt32(u32: nat) | UInt64(u64: nat)
    | Float(f32: real) | Double(f64: real) | Bool(flag: bool) | Text(text: string)
  {
    /** `std::variant::index`. */
    function Index(): nat {
      match this
      case Int32(_) => 0
      case Int64(_) => 1
      case UInt32(_) => 2
      case UInt64(_) => 3
      case Float(_) => 4
      case Double(_) => 5
      case Bool(_) => 6
      case Text(_) => 7
    }

    function AsReal(): Option<real> {
      match this
      case Int32(i) => Some(i as real)
      case Int64(i) => Some(i as real)
      case UInt32(u) => Some(u as real)
      case UInt64(u) => Some(u as real)
      case Float(f) => Some(f)
      case Double(d) => Some(d)
      case _ => None
    }
  }

  datatype Entry = Entry(name: string, value: ScalarValue)

  predicate CharLess(a: char, b: char) {
    a < b
  }

  predicate NameLess(a: string, b: string) {
    LexLess(CharLess, a, b)
  }

  function Names(entries: seq<Entry>): (names: seq<string>)
    ensures |names| == |entries|
    ensures forall i :: 0 <= i < |names| ==> names[i] == entries[i].name
  {
    seq(|entries|, i requires 0 <= i < |entries| => entries[i].name)
  }

  /** The entries of a `std::map`, in the order its iterators visit them. */
  type ScalarMap = entries: seq<Entry> | forall i, j :: 0 <= i < j < |entries| ==> NameLess(entries[i].name, entries[j].name)

  function Find(m: seq<Entry>, name: string): (r: Option<ScalarValue>)
    ensures r.Some? ==> Entry(name, r.value) in m
    ensures r.None? ==> name !in Names(m)
  {
    if m == [] then None
    else if m[0].name == name then Some(m[0].value)
    else Find(m[1..], name)
  }

  function ScalarAsDouble(scalars: ScalarMap, name: string): Option<real> {
    match Find(scalars, name)
    case Some(value) => value.AsReal()
    case None => None
  }

  /** The type an entry is stored with, if there is one under the name. */
  function TypeOf(m: ScalarMap, name: string): Option<nat> {
    match Find(m, name)
    case Some(value) => Some(value.Index())
    case None => None
  }

  /** The same names, each with a value of the same type. */
  ghost predicate SameSchema(a: ScalarMap, b: ScalarMap) {
    forall name :: TypeOf(a, name) == TypeOf(b, name)
  }

  // ------------------------------------------- two sorted maps in lockstep

  lemma NameOrder()
    ensures StrictTotal(NameLess)
  {
    assert StrictTotal(CharLess);
    LexStrictTotal(CharLess);
    assert forall a, b :: NameLess(a, b) == ((a: string, b: string) => LexLess(CharLess, a, b))(a, b);
  }

  lemma {:induction false} FindAt(m: seq<Entry>, i: nat)
    requires i < |m| && forall j, k :: 0 <= j < k < |m| ==> m[j].name != m[k].name
    ensures Find(m, m[i].name) == Some(m[i].value)
    decreases |m|
  {
    if i > 0 {
      assert m[0].name != m[i].name;
      FindAt(m[1..], i - 1);
    }
  }

  lemma NamesDiffer(m: ScalarMap)
    ensures forall j, k :: 0 <= j < k < |m| ==> m[j].name != m[k].name
  {
    NameOrder();
    forall j, k | 0 <= j < k < |m| ensures m[j].name != m[k].name {
      assert NameLess(m[j].name, m[k].name);
    }
  }

  lemma NamesSorted(m: ScalarMap)
    ensures SortedBy(NameLess, Names(m))
  {
    NameOrder();
    forall i, j | 0 <= i < j < |Names(m)| ensures !NameLess(Names(m)[j], Names(m)[i]) {
      assert NameLess(m[i].name, m[j].name);
    }
  }

  lemma {:induction false} CountOfDistinct(s: seq<string>, x: string)
    requires forall j, k :: 0 <= j < k < |s| ==> s[j] != s[k]
    ensures multiset(s)[x] == if x in s then 1 else 0
    decreases |s|
  {
    if s != [] {
      assert s == [s[0]] + s[1..];
      CountOfDistinct(s[1..], x);
      assert s[0] !in s[1..];
    }
  }

  lemma SameNames(a: ScalarMap, b: ScalarMap)
    requires forall name :: name in Names(a) <==> name in Names(b)
    ensures Names(a) == Names(b)
  {
    NamesDiffer(a);
    NamesDiffer(b);
    forall x ensures multiset(Names(a))[x] == multiset(Names(b))[x] {
      CountOfDistinct(Names(a), x);
      CountOfDistinct(Names(b), x);
    }
    assert multiset(Names(a)) == multiset(Names(b));
    NameOrder();
    NamesSorted(a);
    NamesSorted(b);
    SortedOnce(NameLess, Names(a), Names(b));
  }

  ghost predicate SameAt(a: seq<Entry>, b: seq<Entry>, i: nat) {
    i < |a| && i < |b| && a[i].name == b[i].name && a[i].value.Index() == b[i].value.Index()
  }

  /** Since the entries are sorted by name, comparing them in step compares the
      schemas. */
  lemma SchemaInStep(a: ScalarMap, b: ScalarMap)
    ensures SameSchema(a, b) <==> |a| == |b| && forall i :: 0 <= i < |a| ==> SameAt(a, b, i)
  {
    NamesDiffer(a);
    NamesDiffer(b);
    if SameSchema(a, b) {
      forall name ensures name in Names(a) <==> name in Names(b) {
        assert TypeOf(a, name) == TypeOf(b, name);
        FoundIffNamed(a, name);
        FoundIffNamed(b, name);
      }
      SameNames(a, b);
      forall i | 0 <= i < |a| ensures SameAt(a, b, i) {
        assert Names(a)[i] == Names(b)[i];
        FindAt(a, i);
        FindAt(b, i);
        assert TypeOf(a, a[i].name) == TypeOf(b, b[i].name);
      }
    }
    if |a| == |b| && forall i :: 0 <= i < |a| ==> SameAt(a, b, i) {
      SameNamesInStep(a, b);
      forall name ensures TypeOf(a, name) == TypeOf(b, name) {
        FoundIffNamed(a, name);
        FoundIffNamed(b, name);
        if name in Names(a) {
          var i :| 0 <= i < |a| && Names(a)[i] == name;
          assert SameAt(a, b, i);
          FindAt(a, i);
          FindAt(b, i);
        }
      }
    }
  }

  lemma SameNamesInStep(a: ScalarMap, b: ScalarMap)
    requires |a| == |b| && forall i :: 0 <= i < |a| ==> SameAt(a, b, i)
    ensures Names(a) == Names(b)
  {
    forall i | 0 <= i < |a| ensures Names(a)[i] == Names(b)[i] {
      assert SameAt(a, b, i);
    }
  }

  lemma FoundIffNamed(m: ScalarMap, name: string)
    ensures Find(m, name).Some? <==> name in Names(m)
  {
    if Find(m, name).Some? {
      var i :| 0 <= i < |m| && m[i] == Entry(name, Find(m, name).value);
      assert Names(m)[i] == name;
    }
  }

  method ScalarSchemaMatches(lhs: ScalarMap, rhs: ScalarMap) returns (same: bool)
    ensures same <==> SameSchema(lhs, rhs)
  {
    SchemaInStep(lhs, rhs);
    if |lhs| != |rhs| {
      return false;
    }
    var i := 0;
    while i != |lhs|
      invariant 0 <= i <= |lhs|
      invariant forall k :: 0 <= k < i ==> SameAt(lhs, rhs, k)
      decreases |lhs| - i
    {
      if lhs[i].name != rhs[i].name || lhs[i].value.Index() != rhs[i].value.Index() {
        assert !SameAt(lhs, rhs, i);
        return false;
      }
      i := i + 1;
    }
    same := true;
  }

  // -------------------------------------------------------- compatibility

  datatype DatasetInfo = DatasetInfo(
    sourceName: string, instanceName: string, kind: NumericKind, dims: seq<nat>, field: bool)

  datatype Snapshot = Snapshot(
    filePath: string, globalBlockCount: nat, spatialDimension: int, fieldNames: seq<string>,
    arrays: seq<DatasetInfo>, scalars: ScalarMap, simInfo: ScalarMap, formatVersion: Option<int>,
    rawTime: real, sampleTime: real)

  predicate SameTrailingDims(lhs: seq<nat>, rhs: seq<nat>) {
    |lhs| == |rhs| && |lhs| >= 1 && lhs[1..] == rhs[1..]
  }

  predicate SameArray(a: DatasetInfo, b: DatasetInfo) {
    && a.sourceName == b.sourceName && a.instanceName == b.instanceName && a.kind == b.kind
    && a.field == b.field && SameTrailingDims(a.dims, b.dims)
  }

  ghost predicate Compatible(a: Snapshot, b: Snapshot) {
    && a.fieldNames == b.fieldNames
    && a.spatialDimension == b.spatialDimension
    && a.formatVersion == b.formatVersion
    && SameSchema(a.scalars, b.scalars)
    && SameSchema(a.simInfo, b.simInfo)
    && |a.arrays| == |b.arrays|
    && forall i :: 0 <= i < |a.arrays| ==> SameArray(a.arrays[i], b.arrays[i])
  }

  method ValidateSnapshotCompatibility(reference: Snapshot, candidate: Snapshot) returns (ok: bool)
    ensures ok <==> Compatible(reference, candidate)
  {
    hide SameSchema;
    if reference.fieldNames != candidate.fieldNames || reference.spatialDimension != candidate.spatialDimension
       || reference.formatVersion != candidate.formatVersion {
      return false;
    }
    var scalarsMatch := ScalarSchemaMatches(reference.scalars, candidate.scalars);
    var simInfoMatches := ScalarSchemaMatches(reference.simInfo, candidate.simInfo);
    if !scalarsMatch || !simInfoMatches || |reference.arrays| != |candidate.arrays| {
      return false;
    }
    for i := 0 to |reference.arrays|
      invariant forall k :: 0 <= k < i ==> SameArray(reference.arrays[k], candidate.arrays[k])
    {
      if !SameArray(reference.arrays[i], candidate.arrays[i]) {
        return false;
      }
    }
    ok := true;
  }

  /** What `ValidateSnapshotArrayCounts` lets through. */
  predicate CountsAgree(snapshot: Snapshot) {
    && (forall i :: 0 <= i < |snapshot.arrays| ==>
          snapshot.arrays[i].dims != [] && snapshot.arrays[i].dims[0] == snapshot.globalBlockCount)
    && var declared := ScalarAsDouble(snapshot.scalars, "globalnumblocks");
       declared.Some? ==> declared.value == snapshot.globalBlockCount as real
  }

  /** A snapshot is compatible with itself exactly when no array is without
      dimensions. */
  lemma SelfCompatible(a: Snapshot)
    ensures Compatible(a, a) <==> forall i :: 0 <= i < |a.arrays| ==> a.arrays[i].dims != []
  {
    if Compatible(a, a) {
      forall i | 0 <= i < |a.arrays| ensures a.arrays[i].dims != [] {
        assert SameArray(a.arrays[i], a.arrays[i]);
      }
    }
  }

  lemma CompatibleSymmetric(a: Snapshot, b: Snapshot)
    requires Compatible(a, b)
    ensures Compatible(b, a)
  {
    forall i | 0 <= i < |b.arrays| ensures SameArray(b.arrays[i], a.arrays[i]) {
      assert SameArray(a.arrays[i], b.arrays[i]);
    }
  }

  lemma CompatibleTransitive(a: Snapshot, b: Snapshot, c: Snapshot)
    requires Compatible(a, b) && Compatible(b, c)
    ensures Compatible(a, c)
  {
    forall i | 0 <= i < |a.arrays| ensures SameArray(a.arrays[i], c.arrays[i]) {
      assert SameArray(a.arrays[i], b.arrays[i]) && SameArray(b.arrays[i], c.arrays[i]);
    }
  }
}
