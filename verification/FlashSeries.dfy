/** Ordering a FLASH series by time, and registering its samples. */
module FlashSeries {
  import opened Collections
  import opened Wrappers
  import opened Orders
  import opened FlashSnapshots

  datatype TimeSource = TimeStep | TimeValue | IterationValue

  datatype SeriesOptions = SeriesOptions(timeSource: TimeSource, timeScale: real, timeOffset: real)

  // -------------------------------------------------------- specification

  /** The raw time of a snapshot: its place in the manifest, or one of its scalars. */
  function RawTime(snapshot: Snapshot, place: nat, source: TimeSource): Option<real> {
    match source
    case TimeStep => Some(place as real)
    case TimeValue => ScalarAsDouble(snapshot.scalars, "time")
    case IterationValue => ScalarAsDouble(snapshot.scalars, "nstep")
  }

  function Stamp(snapshot: Snapshot, raw: real, options: SeriesOptions): Snapshot {
    snapshot.(rawTime := raw, sampleTime := options.timeOffset + options.timeScale * raw)
  }

  /** The snapshot at a place of the manifest with its times, if it has one. */
  function TimedAt(scanned: seq<Snapshot>, place: nat, options: SeriesOptions): (r: Option<Snapshot>)
    requires place < |scanned|
  {
    match RawTime(scanned[place], place, options.timeSource)
    case Some(raw) => Some(Stamp(scanned[place], raw, options))
    case None => None
  }

  ghost predicate TimesResolve(scanned: seq<Snapshot>, options: SeriesOptions) {
    && (forall i :: 0 <= i < |scanned| ==> TimedAt(scanned, i, options).Some?)
    && forall i, j :: 0 <= i < j < |scanned| ==>
         TimedAt(scanned, i, options).value.sampleTime != TimedAt(scanned, j, options).value.sampleTime
  }

  /** The snapshots with their times, in the order of the manifest. */
  ghost predicate IsTimed(scanned: seq<Snapshot>, options: SeriesOptions, timed: seq<Snapshot>) {
    |timed| == |scanned| && forall i :: 0 <= i < |scanned| ==> TimedAt(scanned, i, options) == Some(timed[i])
  }

  ghost predicate Accepts(scanned: seq<Snapshot>, options: SeriesOptions) {
    && scanned != []
    && (forall i :: 1 <= i < |scanned| ==> Compatible(scanned[0], scanned[i]))
    && (|scanned| > 1 ==> TimesResolve(scanned, options))
  }

  predicate Ascending(s: seq<Snapshot>) {
    forall i, j :: 0 <= i < j < |s| ==> s[i].sampleTime < s[j].sampleTime
  }

  ghost predicate ArrangedFrom(scanned: seq<Snapshot>, options: SeriesOptions, series: seq<Snapshot>, timed: seq<Snapshot>) {
    IsTimed(scanned, options, timed) && multiset(series) == multiset(timed) && Ascending(series)
  }

  /** The accepted series: a lone snapshot as scanned, or the timed snapshots in
      ascending order of time. */
  ghost predicate IsSeries(scanned: seq<Snapshot>, options: SeriesOptions, series: seq<Snapshot>) {
    && Accepts(scanned, options)
    && if |scanned| == 1 then series == scanned
       else exists timed :: ArrangedFrom(scanned, options, series, timed)
  }

  // ------------------------------------------------------------- scanning

  method ValidateSnapshotArrayCounts(snapshot: Snapshot) returns (ok: bool)
    ensures ok <==> CountsAgree(snapshot)
  {
    for i := 0 to |snapshot.arrays|
      invariant forall k :: 0 <= k < i ==>
                  snapshot.arrays[k].dims != [] && snapshot.arrays[k].dims[0] == snapshot.globalBlockCount
    {
      var info := snapshot.arrays[i];
      if info.dims == [] || info.dims[0] != snapshot.globalBlockCount {
        return false;
      }
    }
    var declared := ScalarAsDouble(snapshot.scalars, "globalnumblocks");
    ok := !(declared.Some? && declared.value != snapshot.globalBlockCount as real);
  }

  /** What scanning a file yields, given what the HDF5 library reports of it. */
  function Scanned(inspect: string -> Result<Snapshot>, file: string): Result<Snapshot> {
    match inspect(file)
    case Ok(snapshot) => if CountsAgree(snapshot) then Ok(snapshot) else Throws
    case Throws => Throws
  }

  /** The scans of all files, if none throws. */
  function AllScanned(inspect: string -> Result<Snapshot>, files: seq<string>): (r: Result<seq<Snapshot>>)
    ensures r.Ok? <==> forall i :: 0 <= i < |files| ==> Scanned(inspect, files[i]).Ok?
    ensures r.Ok? ==> |r.value| == |files| && forall i :: 0 <= i < |files| ==> Scanned(inspect, files[i]) == Ok(r.value[i])
    decreases |files|
  {
    if files == [] then Ok([])
    else
      var n := |files| - 1;
      assert files == files[..n] + [files[n]];
      var before :- AllScanned(inspect, files[..n]);
      var last :- Scanned(inspect, files[n]);
      Ok(before + [last])
  }

  method ScanSnapshots(files: seq<string>, inspect: string -> Result<Snapshot>) returns (r: Result<seq<Snapshot>>)
    ensures r == AllScanned(inspect, files)
  {
    hide Scanned, CountsAgree;
    var snapshots: seq<Snapshot> := [];
    for i := 0 to |files|
      invariant |snapshots| == i
      invariant forall k :: 0 <= k < i ==> Scanned(inspect, files[k]) == Ok(snapshots[k])
    {
      var snapshot := ScanSnapshot(files[i], inspect);
      if snapshot.Throws? {
        assert Scanned(inspect, files[i]).Throws?;
        return Throws;
      }
      snapshots := snapshots + [snapshot.value];
    }
    ghost var all := AllScanned(inspect, files);
    assert all.Ok?;
    forall i | 0 <= i < |files| ensures all.value[i] == snapshots[i] {
      assert Scanned(inspect, files[i]) == Ok(all.value[i]);
    }
    assert all.value == snapshots;
    r := Ok(snapshots);
  }

  method ScanSnapshot(file: string, inspect: string -> Result<Snapshot>) returns (r: Result<Snapshot>)
    ensures r == Scanned(inspect, file)
  {
    hide CountsAgree;
    r := inspect(file);
    if r.Ok? {
      var ok := ValidateSnapshotArrayCounts(r.value);
      if !ok {
        return Throws;
      }
    }
  }

  /** The two loops that resolve the raw and the sample times. */
  method ResolveTimes(scanned: seq<Snapshot>, options: SeriesOptions) returns (r: Result<seq<Snapshot>>)
    ensures r.Ok? <==> TimesResolve(scanned, options)
    ensures r.Ok? ==> IsTimed(scanned, options, r.value)
    ensures r.Ok? ==> forall i, j :: 0 <= i < j < |r.value| ==> r.value[i].sampleTime != r.value[j].sampleTime
  {
    var raws: seq<real> := [];
    for i := 0 to |scanned|
      invariant |raws| == i
      invariant forall k :: 0 <= k < i ==> RawTime(scanned[k], k, options.timeSource) == Some(raws[k])
    {
      var raw := RawTime(scanned[i], i, options.timeSource);
      if raw.None? {
        assert TimedAt(scanned, i, options).None?;
        return Throws;
      }
      raws := raws + [raw.value];
    }
    var resolvedTimes: set<real> := {};
    var timed: seq<Snapshot> := [];
    for i := 0 to |scanned|
      invariant |timed| == i
      invariant forall k :: 0 <= k < i ==> TimedAt(scanned, k, options) == Some(timed[k])
      invariant forall t :: t in resolvedTimes <==> exists k :: 0 <= k < i && timed[k].sampleTime == t
      invariant forall k, l :: 0 <= k < l < i ==> timed[k].sampleTime != timed[l].sampleTime
    {
      assert RawTime(scanned[i], i, options.timeSource) == Some(raws[i]);
      var snapshot := Stamp(scanned[i], raws[i], options);
      assert TimedAt(scanned, i, options) == Some(snapshot);
      if snapshot.sampleTime in resolvedTimes {
        return Throws;
      }
      resolvedTimes := resolvedTimes + {snapshot.sampleTime};
      timed := timed + [snapshot];
    }
    r := Ok(timed);
  }

  predicate NotDescending(s: seq<Snapshot>) {
    forall i, j :: 0 <= i < j < |s| ==> s[i].sampleTime <= s[j].sampleTime
  }

  /** Stands for `std::stable_sort` by sample time. */
  method StableSort(snapshots: seq<Snapshot>) returns (sorted: seq<Snapshot>)
    ensures multiset(sorted) == multiset(snapshots) && NotDescending(sorted)
  {
    sorted := [];
    for i := 0 to |snapshots|
      invariant multiset(sorted) == multiset(snapshots[..i])
      invariant NotDescending(sorted)
    {
      assert snapshots[..i + 1] == snapshots[..i] + [snapshots[i]];
      var x := snapshots[i];
      var k := |sorted|;
      while k > 0 && x.sampleTime < sorted[k - 1].sampleTime
        invariant 0 <= k <= |sorted|
        invariant forall l :: k <= l < |sorted| ==> x.sampleTime < sorted[l].sampleTime
      {
        k := k - 1;
      }
      Inserted(sorted, x, k);
      sorted := sorted[..k] + [x] + sorted[k..];
    }
    assert snapshots[..|snapshots|] == snapshots;
  }

  lemma Inserted(s: seq<Snapshot>, x: Snapshot, k: nat)
    requires NotDescending(s) && k <= |s|
    requires k > 0 ==> s[k - 1].sampleTime <= x.sampleTime
    requires forall l :: k <= l < |s| ==> x.sampleTime < s[l].sampleTime
    ensures NotDescending(s[..k] + [x] + s[k..])
    ensures multiset(s[..k] + [x] + s[k..]) == multiset(s) + multiset{x}
  {
    JoinNotDescending(s[..k], [x]);
    JoinNotDescending(s[..k] + [x], s[k..]);
    CountInserted(s, x, k);
  }

  lemma JoinNotDescending(a: seq<Snapshot>, b: seq<Snapshot>)
    requires NotDescending(a) && NotDescending(b)
    requires a != [] && b != [] ==> a[|a| - 1].sampleTime <= b[0].sampleTime
    ensures NotDescending(a + b)
  {
    forall i, j | 0 <= i < j < |a + b| ensures (a + b)[i].sampleTime <= (a + b)[j].sampleTime {
      if i < |a| <= j {
        assert a[i].sampleTime <= a[|a| - 1].sampleTime && b[0].sampleTime <= b[j - |a|].sampleTime;
      }
    }
  }

  lemma SortedIsAscending(timed: seq<Snapshot>, sorted: seq<Snapshot>)
    requires multiset(sorted) == multiset(timed) && NotDescending(sorted)
    requires forall i, j :: 0 <= i < j < |timed| ==> timed[i].sampleTime != timed[j].sampleTime
    ensures Ascending(sorted)
  {
    forall i, j | 0 <= i < j < |sorted| ensures sorted[i].sampleTime < sorted[j].sampleTime {
      if sorted[i].sampleTime == sorted[j].sampleTime {
        SameTimeTwice(timed, sorted, i, j);
      }
    }
  }

  /** Two places of equal time in one arrangement give two in the other. */
  lemma SameTimeTwice(timed: seq<Snapshot>, sorted: seq<Snapshot>, i: nat, j: nat)
    requires multiset(sorted) == multiset(timed)
    requires i < j < |sorted| && sorted[i].sampleTime == sorted[j].sampleTime
    ensures exists k, l :: 0 <= k < l < |timed| && timed[k].sampleTime == timed[l].sampleTime
  {
    assert sorted[i] in multiset(sorted) && sorted[j] in multiset(sorted);
    if sorted[i] == sorted[j] {
      CountTwice(sorted, i, j);
      var k, l := PlacesTwice(timed, sorted[i]);
    } else {
      assert sorted[i] in timed && sorted[j] in timed;
      var k :| 0 <= k < |timed| && timed[k] == sorted[i];
      var l :| 0 <= l < |timed| && timed[l] == sorted[j];
      if k < l {
        assert timed[k].sampleTime == timed[l].sampleTime;
      } else {
        assert timed[l].sampleTime == timed[k].sampleTime;
      }
    }
  }

  lemma CountTwice<T>(s: seq<T>, i: nat, j: nat)
    requires i < j < |s| && s[i] == s[j]
    ensures multiset(s)[s[i]] >= 2
  {
    assert s == s[..j] + s[j..];
    assert s[..j][i] == s[i] && s[j..][0] == s[j];
    assert multiset(s) == multiset(s[..j]) + multiset(s[j..]);
    assert s[i] in multiset(s[..j]) && s[i] in multiset(s[j..]);
  }

  lemma PlacesTwice<T>(s: seq<T>, x: T) returns (k: nat, l: nat)
    requires multiset(s)[x] >= 2
    ensures k < l < |s| && s[k] == x && s[l] == x
  {
    assert x in multiset(s);
    var i :| 0 <= i < |s| && s[i] == x;
    assert s == s[..i] + [s[i]] + s[i + 1..];
    assert multiset(s) == multiset(s[..i]) + multiset{x} + multiset(s[i + 1..]);
    if x in s[..i] {
      var j :| 0 <= j < i && s[..i][j] == x;
      k, l := j, i;
    } else {
      assert x in multiset(s[i + 1..]);
      var j :| 0 <= j < |s[i + 1..]| && s[i + 1..][j] == x;
      k, l := i, i + 1 + j;
    }
  }

  /** Scans and orders a series. */
  method ScanSeries(files: seq<string>, inspect: string -> Result<Snapshot>, options: SeriesOptions)
    returns (r: Result<seq<Snapshot>>)
    ensures r.Ok? <==> AllScanned(inspect, files).Ok? && Accepts(AllScanned(inspect, files).value, options)
    ensures r.Ok? ==> IsSeries(AllScanned(inspect, files).value, options, r.value)
  {
    hide Compatible;
    var scan := ScanSnapshots(files, inspect);
    if scan.Throws? {
      return Throws;
    }
    var snapshots := scan.value;
    if snapshots == [] {
      return Throws;
    }
    for i := 1 to |snapshots|
      invariant forall k :: 1 <= k < i ==> Compatible(snapshots[0], snapshots[k])
    {
      var ok := ValidateSnapshotCompatibility(snapshots[0], snapshots[i]);
      if !ok {
        return Throws;
      }
    }
    if |snapshots| == 1 {
      return Ok(snapshots);
    }
    var timed := ResolveTimes(snapshots, options);
    if timed.Throws? {
      return Throws;
    }
    var sorted := StableSort(timed.value);
    SortedIsAscending(timed.value, sorted);
    assert ArrangedFrom(snapshots, options, sorted, timed.value);
    r := Ok(sorted);
  }

  // --------------------------------------------- what an accepted series is

  /** `x` is a scanned snapshot with its times. */
  ghost predicate HasTimed(scanned: seq<Snapshot>, options: SeriesOptions, x: Snapshot) {
    exists k: nat :: k < |scanned| && TimedAt(scanned, k, options) == Some(x)
  }

  lemma SeriesFrom(scanned: seq<Snapshot>, options: SeriesOptions, series: seq<Snapshot>, x: Snapshot)
    requires |scanned| > 1 && IsSeries(scanned, options, series)
    ensures x in series <==> HasTimed(scanned, options, x)
  {
    hide Compatible;
    var timed :| ArrangedFrom(scanned, options, series, timed);
    assert x in series <==> x in multiset(timed);
    if x in timed {
      var k: nat :| k < |timed| && timed[k] == x;
      assert TimedAt(scanned, k, options) == Some(x);
    }
    if k: nat :| k < |scanned| && TimedAt(scanned, k, options) == Some(x) {
      assert timed[k] == x;
    }
  }

  /** Every snapshot of an accepted series is compatible with every other, so also
      with whichever comes first after reordering. */
  lemma SeriesCompatible(scanned: seq<Snapshot>, options: SeriesOptions, series: seq<Snapshot>, i: nat, j: nat)
    requires IsSeries(scanned, options, series) && i < |series| && j < |series|
    requires forall k :: 0 <= k < |scanned| ==> CountsAgree(scanned[k])
    ensures Compatible(series[i], series[j])
  {
    hide Compatible, CountsAgree, Ascending;
    if |scanned| == 1 {
      ScannedCompatible(scanned, options, 0, 0);
    } else {
      SeriesFrom(scanned, options, series, series[i]);
      SeriesFrom(scanned, options, series, series[j]);
      var k: nat :| k < |scanned| && TimedAt(scanned, k, options) == Some(series[i]);
      var l: nat :| l < |scanned| && TimedAt(scanned, l, options) == Some(series[j]);
      ScannedCompatible(scanned, options, k, l);
      TimesDoNotMatter(scanned[k], scanned[l], series[i], series[j]);
    }
  }

  /** Compatibility does not look at the times. */
  lemma TimesDoNotMatter(a: Snapshot, b: Snapshot, s: Snapshot, t: Snapshot)
    requires s == a.(rawTime := s.rawTime, sampleTime := s.sampleTime)
    requires t == b.(rawTime := t.rawTime, sampleTime := t.sampleTime)
    ensures Compatible(a, b) <==> Compatible(s, t)
  {
  }

  lemma ScannedCompatible(scanned: seq<Snapshot>, options: SeriesOptions, k: nat, l: nat)
    requires Accepts(scanned, options) && k < |scanned| && l < |scanned|
    requires CountsAgree(scanned[0])
    ensures Compatible(scanned[k], scanned[l])
  {
    SelfCompatible(scanned[0]);
    hide Compatible;
    assert Compatible(scanned[0], scanned[k]) && Compatible(scanned[0], scanned[l]);
    CompatibleSymmetric(scanned[0], scanned[k]);
    CompatibleTransitive(scanned[k], scanned[0], scanned[l]);
  }

  lemma FirstIsEarliest(s: seq<Snapshot>, x: Snapshot)
    requires Ascending(s) && x in s
    ensures x == s[0] || s[0].sampleTime < x.sampleTime
  {
    var i :| 0 <= i < |s| && s[i] == x;
  }

  lemma HeadIn(s: seq<Snapshot>)
    ensures s != [] ==> s[0] in s
  {
  }

  lemma FirstOnce(s: seq<Snapshot>)
    requires Ascending(s) && s != []
    ensures forall x :: x in s[1..] <==> x in s && x != s[0]
  {
    assert s == [s[0]] + s[1..];
    forall x | x in s[1..] ensures x != s[0] {
      var i :| 0 <= i < |s[1..]| && s[1..][i] == x;
      assert s[i + 1] == x;
    }
  }

  /** Ascending arrangements of the same snapshots are equal. */
  lemma {:induction false} AscendingOnce(s: seq<Snapshot>, t: seq<Snapshot>)
    requires Ascending(s) && Ascending(t) && forall x :: x in s <==> x in t
    ensures s == t
    decreases |s|
  {
    HeadIn(s);
    HeadIn(t);
    if s != [] {
      assert s[0] in t && t[0] in s;
      FirstIsEarliest(s, t[0]);
      FirstIsEarliest(t, s[0]);
      FirstOnce(s);
      FirstOnce(t);
      assert s == [s[0]] + s[1..] && t == [t[0]] + t[1..];
      AscendingOnce(s[1..], t[1..]);
    }
  }

  /** Unless times are places in the manifest, the order of its files decides
      neither whether a series is accepted nor what it is. */
  lemma ManifestOrderIrrelevant(a: seq<Snapshot>, b: seq<Snapshot>, options: SeriesOptions)
    requires multiset(a) == multiset(b) && options.timeSource != TimeStep
    requires forall k :: 0 <= k < |a| ==> CountsAgree(a[k])
    ensures Accepts(a, options) ==> Accepts(b, options)
    ensures forall s, t :: IsSeries(a, options, s) && IsSeries(b, options, t) ==> s == t
  {
    assert |a| == |multiset(a)| == |multiset(b)| == |b|;
    if Accepts(a, options) {
      forall i | 1 <= i < |b| ensures Compatible(b[0], b[i]) {
        assert b[0] in multiset(a) && b[i] in multiset(a);
        var k: nat :| k < |a| && a[k] == b[0];
        var l: nat :| l < |a| && a[l] == b[i];
        ScannedCompatible(a, options, k, l);
      }
      if |a| > 1 {
        TimesResolveInAnyOrder(a, b, options);
      }
    }
    forall s, t | IsSeries(a, options, s) && IsSeries(b, options, t) ensures s == t {
      if |a| == 1 {
        assert a == [a[0]] && b == [b[0]] && b[0] in multiset(a);
      } else {
        hide Compatible;
        forall x ensures x in s <==> x in t {
          SeriesFrom(a, options, s, x);
          SeriesFrom(b, options, t, x);
          SamePlaces(a, b, options, x);
          SamePlaces(b, a, options, x);
        }
        AscendingOnce(s, t);
      }
    }
  }

  lemma SamePlaces(a: seq<Snapshot>, b: seq<Snapshot>, options: SeriesOptions, x: Snapshot)
    requires multiset(a) == multiset(b) && options.timeSource != TimeStep
    ensures HasTimed(a, options, x) ==> HasTimed(b, options, x)
  {
    if k: nat :| k < |a| && TimedAt(a, k, options) == Some(x) {
      assert a[k] in multiset(b);
      var l: nat :| l < |b| && b[l] == a[k];
      assert TimedAt(b, l, options) == Some(x);
    }
  }

  lemma TimesResolveInAnyOrder(a: seq<Snapshot>, b: seq<Snapshot>, options: SeriesOptions)
    requires multiset(a) == multiset(b) && options.timeSource != TimeStep && TimesResolve(a, options)
    ensures TimesResolve(b, options)
  {
    forall i | 0 <= i < |b| ensures TimedAt(b, i, options).Some? {
      assert b[i] in multiset(a);
      var k :| 0 <= k < |a| && a[k] == b[i];
      assert TimedAt(a, k, options).Some?;
    }
    forall i, j | 0 <= i < j < |b|
      ensures TimedAt(b, i, options).value.sampleTime != TimedAt(b, j, options).value.sampleTime
    {
      var k, l := OtherPlaces(a, b, i, j);
      assert TimedAt(a, k, options) == TimedAt(b, i, options) && TimedAt(a, l, options) == TimedAt(b, j, options);
    }
  }

  /** Two places of one arrangement are two places of the other. */
  lemma OtherPlaces<T>(a: seq<T>, b: seq<T>, i: nat, j: nat) returns (k: nat, l: nat)
    requires multiset(a) == multiset(b) && i < j < |b|
    ensures k < |a| && l < |a| && k != l && a[k] == b[i] && a[l] == b[j]
  {
    if b[i] == b[j] {
      CountTwice(b, i, j);
      k, l := PlacesTwice(a, b[i]);
    } else {
      assert b[i] in multiset(a) && b[j] in multiset(a);
      k :| 0 <= k < |a| && a[k] == b[i];
      l :| 0 <= l < |a| && a[l] == b[j];
    }
  }

  // --------------------------------------------------------- registration

  datatype ArrayLoader = ArrayLoader(path: string, name: string, kind: NumericKind)

  datatype Registration =
    | SingleState(attribute: string, time: real, loader: ArrayLoader)
    | TimeSamples(attribute: string, samples: seq<(real, ArrayLoader)>)

  function ArrayValueAttrName(instanceName: string): string {
    "omni:sci:array:" + instanceName + ":value"
  }

  ghost predicate AllCompatible(series: seq<Snapshot>) {
    forall i, j :: 0 <= i < |series| && 0 <= j < |series| ==> Compatible(series[i], series[j])
  }

  /** Every sample of an array reads the array of the same name and type, each from
      the file of its snapshot. */
  ghost predicate SamplesOf(series: seq<Snapshot>, info: DatasetInfo, samples: seq<(real, ArrayLoader)>) {
    && |samples| <= |series|
    && forall i :: 0 <= i < |samples| ==>
         samples[i] == (series[i].sampleTime, ArrayLoader(series[i].filePath, info.sourceName, info.kind))
  }

  /** What must be registered for one array of the front snapshot. */
  ghost predicate Registers(series: seq<Snapshot>, info: DatasetInfo, entry: Registration) {
    && series != []
    && entry.attribute == ArrayValueAttrName(info.instanceName)
    && if |series| == 1 then
         && entry.SingleState? && entry.time == series[0].sampleTime
         && entry.loader == ArrayLoader(series[0].filePath, info.sourceName, info.kind)
       else
         && entry.TimeSamples? && |entry.samples| == |series| && SamplesOf(series, info, entry.samples)
         && forall i, j :: 0 <= i < j < |series| ==> entry.samples[i].0 < entry.samples[j].0
  }

  /** The registration loop of `ReadFlash`: indexing every snapshot with the array
      indices of the front one is safe, and finds the same array. */
  method RegisterArrays(series: seq<Snapshot>) returns (entries: seq<Registration>)
    requires series != [] && AllCompatible(series) && Ascending(series)
    ensures |entries| == |series[0].arrays|
    ensures forall k :: 0 <= k < |entries| ==> Registers(series, series[0].arrays[k], entries[k])
  {
    hide SameSchema;
    entries := [];
    for arrayIndex := 0 to |series[0].arrays|
      invariant |entries| == arrayIndex
      invariant forall k :: 0 <= k < arrayIndex ==> Registers(series, series[0].arrays[k], entries[k])
    {
      var reference := series[0].arrays[arrayIndex];
      var attrName := ArrayValueAttrName(reference.instanceName);
      if |series| == 1 {
        var snapshot := series[0];
        entries := entries + [SingleState(
                                attrName, snapshot.sampleTime,
                                ArrayLoader(snapshot.filePath, reference.sourceName, reference.kind))];
      } else {
        var samples: seq<(real, ArrayLoader)> := [];
        for i := 0 to |series|
          invariant |samples| == i && SamplesOf(series, reference, samples)
        {
          assert Compatible(series[0], series[i]);
          var info := series[i].arrays[arrayIndex];
          assert SameArray(reference, info);
          samples := samples + [(series[i].sampleTime, ArrayLoader(series[i].filePath, info.sourceName, info.kind))];
        }
        entries := entries + [TimeSamples(attrName, samples)];
      }
    }
  }

  /** Which of a snapshot's maps is authored. */
  datatype Member = Scalars | SimInfo

  function MapOf(snapshot: Snapshot, member: Member): ScalarMap {
    match member
    case Scalars => snapshot.scalars
    case SimInfo => snapshot.simInfo
  }

  /** A property with its value type, and its value at every time. */
  datatype Authored = Authored(property: string, typeIndex: nat, values: seq<(real, ScalarValue)>)

  /** Value `i` is what snapshot `i` has under the name, of the one type. */
  ghost predicate ValueOf(series: seq<Snapshot>, member: Member, name: string, a: Authored, i: nat) {
    && i < |series| && i < |a.values|
    && a.values[i].0 == series[i].sampleTime
    && Find(MapOf(series[i], member), name) == Some(a.values[i].1)
    && a.values[i].1.Index() == a.typeIndex
  }

  ghost predicate Authors(series: seq<Snapshot>, member: Member, name: string, property: string, a: Authored) {
    && a.property == property && |a.values| == |series|
    && forall i :: 0 <= i < |series| ==> ValueOf(series, member, name, a, i)
  }

  /** What the front snapshot has, every snapshot has, with the same type. */
  lemma ValueFound(series: seq<Snapshot>, member: Member, n: nat, i: nat)
    requires AllCompatible(series) && i < |series| && n < |MapOf(series[0], member)|
    ensures var entry := MapOf(series[0], member)[n];
            var found := Find(MapOf(series[i], member), entry.name);
            found.Some? && found.value.Index() == entry.value.Index()
  {
    var firstMap := MapOf(series[0], member);
    assert Compatible(series[0], series[i]);
    NamesDiffer(firstMap);
    FindAt(firstMap, n);
    assert TypeOf(firstMap, firstMap[n].name) == TypeOf(MapOf(series[i], member), firstMap[n].name);
  }

  /** One property: the lookup in each later snapshot cannot fail. */
  method AuthorScalar(series: seq<Snapshot>, member: Member, n: nat, property: string) returns (authored: Authored)
    requires series != [] && AllCompatible(series) && n < |MapOf(series[0], member)|
    ensures Authors(series, member, MapOf(series[0], member)[n].name, property, authored)
  {
    hide AllCompatible, Find, ScalarValue.Index, MapOf;
    var entry := MapOf(series[0], member)[n];
    authored := Authored(property, entry.value.Index(), []);
    for i := 0 to |series|
      invariant authored.property == property && authored.typeIndex == entry.value.Index() && |authored.values| == i
      invariant forall l :: 0 <= l < i ==> ValueOf(series, member, entry.name, authored, l)
    {
      ValueFound(series, member, n, i);
      var value := Find(MapOf(series[i], member), entry.name).value;
      var next := authored.(values := authored.values + [(series[i].sampleTime, value)]);
      forall l | 0 <= l < i ensures ValueOf(series, member, entry.name, next, l) {
        assert ValueOf(series, member, entry.name, authored, l);
      }
      authored := next;
    }
  }

  predicate NamesAuthorable(names: seq<string>, valid: string -> string) {
    && (forall i :: 0 <= i < |names| ==> valid(names[i]) != "")
    && forall i, j :: 0 <= i < j < |names| ==> valid(names[i]) != valid(names[j])
  }

  /** One property for every name of the front snapshot, in order. */
  ghost predicate AuthorsAll(
      series: seq<Snapshot>, member: Member, propertyPrefix: string, valid: string -> string, authored: seq<Authored>)
    requires series != []
  {
    && |authored| == |MapOf(series[0], member)|
    && forall k :: 0 <= k < |authored| ==>
         var name := MapOf(series[0], member)[k].name;
         Authors(series, member, name, propertyPrefix + valid(name), authored[k])
  }

  /** Authoring throws only for names the front snapshot has, never because a later
      snapshot lacks one, and each property keeps one value type over all times.
      `valid` is the name sanitizer. */
  method AuthorScalarMap(series: seq<Snapshot>, member: Member, propertyPrefix: string, valid: string -> string)
    returns (r: Result<seq<Authored>>)
    requires series != [] && AllCompatible(series)
    ensures r.Ok? <==> NamesAuthorable(Names(MapOf(series[0], member)), valid)
    ensures r.Ok? ==> AuthorsAll(series, member, propertyPrefix, valid, r.value)
  {
    hide Authors, AllCompatible, MapOf;
    var names := Names(MapOf(series[0], member));
    var propertyNames: seq<string> := [];
    var authored: seq<Authored> := [];
    for n := 0 to |names|
      invariant |authored| == |propertyNames| == n
      invariant forall k :: 0 <= k < n ==> propertyNames[k] == propertyPrefix + valid(names[k])
      invariant NamesAuthorable(names[..n], valid)
      invariant forall k :: 0 <= k < n ==> Authors(series, member, names[k], propertyNames[k], authored[k])
    {
      var validName := valid(names[n]);
      if validName == "" {
        return Throws;
      }
      var propertyName := propertyPrefix + validName;
      if propertyName in propertyNames {
        ghost var k :| 0 <= k < n && propertyNames[k] == propertyName;
        SamePrefix(propertyPrefix, validName, valid(names[k]));
        return Throws;
      }
      var next := AuthorScalar(series, member, n, propertyName);
      propertyNames := propertyNames + [propertyName];
      authored := authored + [next];
    }
    assert names[..|names|] == names;
    r := Ok(authored);
  }

  lemma SamePrefix(prefix: string, a: string, b: string)
    requires prefix + a == prefix + b
    ensures a == b
  {
    assert (prefix + a)[|prefix|..] == a && (prefix + b)[|prefix|..] == b;
  }

  lemma ScannedCounts(inspect: string -> Result<Snapshot>, files: seq<string>)
    requires AllScanned(inspect, files).Ok?
    ensures forall k :: 0 <= k < |AllScanned(inspect, files).value| ==> CountsAgree(AllScanned(inspect, files).value[k])
  {
    var all := AllScanned(inspect, files).value;
    forall k | 0 <= k < |all| ensures CountsAgree(all[k]) {
      assert Scanned(inspect, files[k]) == Ok(all[k]);
    }
  }

  // -------------------------------------------------------------- shapes

  const INT_MAX: nat := 0x7FFF_FFFF

  predicate ShapeFits(dims: seq<nat>) {
    forall i :: 1 <= i < |dims| ==> dims[i] <= INT_MAX
  }

  /** The dimensions behind the first. */
  function Trailing(dims: seq<nat>): seq<nat> {
    if dims == [] then [] else dims[1..]
  }

  method TrailingShape(dims: seq<nat>) returns (r: Result<seq<nat>>)
    ensures r.Ok? <==> ShapeFits(dims)
    ensures r.Ok? ==> r.value == Trailing(dims)
  {
    var result: seq<nat> := [];
    var i := 1;
    while i < |dims|
      invariant 1 <= i && (dims != [] ==> i <= |dims|)
      invariant forall k :: 1 <= k < i && k < |dims| ==> dims[k] <= INT_MAX
      invariant result == if dims == [] then [] else dims[1..i]
    {
      if dims[i] > INT_MAX {
        return Throws;
      }
      result := result + [dims[i]];
      i := i + 1;
    }
    r := Ok(result);
  }

  /** The first array that has a property. */
  function FirstArray(arrays: seq<DatasetInfo>, p: DatasetInfo -> bool): (r: Option<DatasetInfo>)
    ensures r.Some? ==> r.value in arrays && p(r.value)
    ensures r.None? ==> forall i :: 0 <= i < |arrays| ==> !p(arrays[i])
  {
    if arrays == [] then None else if p(arrays[0]) then Some(arrays[0]) else FirstArray(arrays[1..], p)
  }

  function HasSource(sourceName: string): DatasetInfo -> bool {
    (info: DatasetInfo) => info.sourceName == sourceName
  }

  function IsField(): DatasetInfo -> bool {
    (info: DatasetInfo) => info.field
  }

  /** Whether an array, if there is one, has a shape that can be authored. */
  predicate Fits(info: Option<DatasetInfo>) {
    info.Some? ==> ShapeFits(info.value.dims)
  }

  function ShapeOf(info: Option<DatasetInfo>): Option<seq<nat>> {
    match info
    case Some(found) => Some(Trailing(found.dims))
    case None => None
  }

  /** The shapes that describe one snapshot, of the arrays it has. */
  datatype Shapes = Shapes(
    gid: Option<seq<nat>>, coordinates: Option<seq<nat>>, boundingBox: Option<seq<nat>>, blockSize: Option<seq<nat>>,
    field: Option<seq<nat>>)

  predicate ShapesFit(snapshot: Snapshot) {
    && Fits(FirstArray(snapshot.arrays, HasSource("gid")))
    && Fits(FirstArray(snapshot.arrays, HasSource("coordinates")))
    && Fits(FirstArray(snapshot.arrays, HasSource("bounding box")))
    && Fits(FirstArray(snapshot.arrays, HasSource("block size")))
    && Fits(FirstArray(snapshot.arrays, IsField()))
  }

  function ShapesOf(snapshot: Snapshot): Shapes {
    Shapes(
      ShapeOf(FirstArray(snapshot.arrays, HasSource("gid"))),
      ShapeOf(FirstArray(snapshot.arrays, HasSource("coordinates"))),
      ShapeOf(FirstArray(snapshot.arrays, HasSource("bounding box"))),
      ShapeOf(FirstArray(snapshot.arrays, HasSource("block size"))),
      ShapeOf(FirstArray(snapshot.arrays, IsField())))
  }

  /** The shape of an array, if it was found. */
  method FoundShape(info: Option<DatasetInfo>) returns (r: Result<Option<seq<nat>>>)
    ensures r == if Fits(info) then Ok(ShapeOf(info)) else Throws
  {
    if info.None? {
      return Ok(None);
    }
    var shape := TrailingShape(info.value.dims);
    r := if shape.Ok? then Ok(Some(shape.value)) else Throws;
  }

  method NamedShape(snapshot: Snapshot, sourceName: string) returns (r: Result<Option<seq<nat>>>)
    ensures var info := FirstArray(snapshot.arrays, HasSource(sourceName));
            r == if Fits(info) then Ok(ShapeOf(info)) else Throws
  {
    var info := FirstArray(snapshot.arrays, HasSource(sourceName));
    r := FoundShape(info);
  }

  lemma {:induction false} FirstArrayBehind(arrays: seq<DatasetInfo>, p: DatasetInfo -> bool, i: nat)
    requires i <= |arrays| && forall k :: 0 <= k < i ==> !p(arrays[k])
    ensures FirstArray(arrays, p) == if i < |arrays| && p(arrays[i]) then Some(arrays[i]) else FirstArray(arrays[i..], p)
    decreases i
  {
    if i > 0 {
      FirstArrayBehind(arrays[1..], p, i - 1);
      assert arrays[1..][i - 1..] == arrays[i..];
    }
  }

  /** The loop that looks for the first field. */
  method FirstField(snapshot: Snapshot) returns (firstField: Option<DatasetInfo>)
    ensures firstField == FirstArray(snapshot.arrays, IsField())
  {
    for i := 0 to |snapshot.arrays|
      invariant forall k :: 0 <= k < i ==> !IsField()(snapshot.arrays[k])
    {
      var info := snapshot.arrays[i];
      if info.field {
        FirstArrayBehind(snapshot.arrays, IsField(), i);
        return Some(info);
      }
    }
    FirstArrayBehind(snapshot.arrays, IsField(), |snapshot.arrays|);
    firstField := None;
  }

  method AuthorShapes(snapshot: Snapshot) returns (r: Result<Shapes>)
    ensures r == if ShapesFit(snapshot) then Ok(ShapesOf(snapshot)) else Throws
  {
    hide FirstArray, HasSource, IsField, Fits, ShapeOf;
    var gid := NamedShape(snapshot, "gid");
    if gid.Throws? {
      return Throws;
    }
    var coordinates := NamedShape(snapshot, "coordinates");
    if coordinates.Throws? {
      return Throws;
    }
    var boundingBox := NamedShape(snapshot, "bounding box");
    if boundingBox.Throws? {
      return Throws;
    }
    var blockSize := NamedShape(snapshot, "block size");
    if blockSize.Throws? {
      return Throws;
    }
    var firstField := FirstField(snapshot);
    var field := FoundShape(firstField);
    if field.Throws? {
      return Throws;
    }
    r := Ok(Shapes(gid.value, coordinates.value, boundingBox.value, blockSize.value, field.value));
  }

  /** Arrays that agree one by one are found alike. */
  lemma {:induction false} FoundAlike(a: seq<DatasetInfo>, b: seq<DatasetInfo>, p: DatasetInfo -> bool)
    requires |a| == |b| && forall i :: 0 <= i < |a| ==> SameArray(a[i], b[i])
    requires forall x, y :: SameArray(x, y) ==> p(x) == p(y)
    ensures Fits(FirstArray(a, p)) == Fits(FirstArray(b, p))
  {
    if a != [] {
      assert SameArray(a[0], b[0]);
      if p(a[0]) {
        assert a[0].dims[1..] == b[0].dims[1..];
        SameShapeFits(a[0].dims, b[0].dims);
      } else {
        FoundAlike(a[1..], b[1..], p);
      }
    }
  }

  lemma SameShapeFits(a: seq<nat>, b: seq<nat>)
    requires SameTrailingDims(a, b)
    ensures ShapeFits(a) == ShapeFits(b)
  {
    forall i | 1 <= i < |a| ensures a[i] == b[i] {
      assert a[1..][i - 1] == b[1..][i - 1];
    }
  }

  /** Compatible snapshots can be authored alike. */
  lemma AuthoredAlike(a: Snapshot, b: Snapshot)
    requires Compatible(a, b)
    ensures ShapesFit(a) == ShapesFit(b)
    ensures Names(a.scalars) == Names(b.scalars) && Names(a.simInfo) == Names(b.simInfo)
  {
    hide SameSchema, FirstArray, Fits;
    SchemaInStep(a.scalars, b.scalars);
    SameNamesInStep(a.scalars, b.scalars);
    SchemaInStep(a.simInfo, b.simInfo);
    SameNamesInStep(a.simInfo, b.simInfo);
    FoundAlike(a.arrays, b.arrays, HasSource("gid"));
    FoundAlike(a.arrays, b.arrays, HasSource("coordinates"));
    FoundAlike(a.arrays, b.arrays, HasSource("bounding box"));
    FoundAlike(a.arrays, b.arrays, HasSource("block size"));
    FoundAlike(a.arrays, b.arrays, IsField());
  }

  /** The front of an accepted series is compatible with the first file scanned. */
  lemma FrontLikeFirst(scanned: seq<Snapshot>, options: SeriesOptions, series: seq<Snapshot>)
    requires IsSeries(scanned, options, series) && series != [] && CountsAgree(scanned[0])
    ensures Compatible(scanned[0], series[0])
  {
    hide Compatible, CountsAgree, Ascending;
    if |scanned| == 1 {
      ScannedCompatible(scanned, options, 0, 0);
    } else {
      SeriesFrom(scanned, options, series, series[0]);
      var k: nat :| k < |scanned| && TimedAt(scanned, k, options) == Some(series[0]);
      ScannedCompatible(scanned, options, 0, k);
      TimesDoNotMatter(scanned[0], scanned[k], scanned[0], series[0]);
    }
  }

  // ------------------------------------------------------------- the layer

  const SCALAR_PREFIX: string := "omni:flash:scalar:"
  const SIM_INFO_PREFIX: string := "omni:flash:simInfo:"

  /** What is read: the ordered series, the shapes and the metadata authored for it, and
      its registrations. */
  datatype FlashLayer = FlashLayer(
    series: seq<Snapshot>, shapes: Shapes, scalars: seq<Authored>, simInfo: seq<Authored>, entries: seq<Registration>)

  /** The series of a layer is the accepted one. Its shapes are those of its front
      snapshot, its metadata have a value for every snapshot, and every array of the
      front is registered. */
  ghost predicate LayerOf(scanned: seq<Snapshot>, options: SeriesOptions, valid: string -> string, layer: FlashLayer) {
    && IsSeries(scanned, options, layer.series)
    && layer.series != [] && AllCompatible(layer.series) && Ascending(layer.series)
    && layer.shapes == ShapesOf(layer.series[0])
    && AuthorsAll(layer.series, Scalars, SCALAR_PREFIX, valid, layer.scalars)
    && AuthorsAll(layer.series, SimInfo, SIM_INFO_PREFIX, valid, layer.simInfo)
    && |layer.entries| == |layer.series[0].arrays|
    && forall k :: 0 <= k < |layer.entries| ==> Registers(layer.series, layer.series[0].arrays[k], layer.entries[k])
  }

  /** When the first file of a manifest can be authored, and with it an accepted series. */
  predicate Authorable(first: Snapshot, valid: string -> string) {
    && ShapesFit(first)
    && NamesAuthorable(Names(first.scalars), valid) && NamesAuthorable(Names(first.simInfo), valid)
  }

  /** A manifest is read exactly if all its files scan, the series is accepted and its
      first file can be authored. */
  ghost predicate Reads(
      files: seq<string>, inspect: string -> Result<Snapshot>, options: SeriesOptions, valid: string -> string)
  {
    var all := AllScanned(inspect, files);
    all.Ok? && Accepts(all.value, options) && Authorable(all.value[0], valid)
  }

  lemma AcceptedSeries(scanned: seq<Snapshot>, options: SeriesOptions, series: seq<Snapshot>, valid: string -> string)
    requires IsSeries(scanned, options, series)
    requires forall k :: 0 <= k < |scanned| ==> CountsAgree(scanned[k])
    ensures series != [] && AllCompatible(series) && Ascending(series)
    ensures Accepts(scanned, options) && Authorable(scanned[0], valid) == Authorable(series[0], valid)
  {
    hide Compatible, CountsAgree, ShapesFit, NamesAuthorable;
    forall i, j | 0 <= i < |series| && 0 <= j < |series| ensures Compatible(series[i], series[j]) {
      SeriesCompatible(scanned, options, series, i, j);
    }
    if |scanned| > 1 {
      var timed :| ArrangedFrom(scanned, options, series, timed);
      assert |series| == |multiset(timed)|;
    }
    FrontLikeFirst(scanned, options, series);
    AuthoredAlike(scanned[0], series[0]);
  }

  /** Reading a series: it fails exactly if a scan does, the series is not accepted, or
      the shapes or names of its first file cannot be authored. */
  method ReadFlash(
      files: seq<string>, inspect: string -> Result<Snapshot>, options: SeriesOptions, valid: string -> string)
    returns (r: Result<FlashLayer>)
    ensures r.Ok? <==> Reads(files, inspect, options, valid)
    ensures r.Ok? ==> LayerOf(AllScanned(inspect, files).value, options, valid, r.value)
  {
    hide Compatible, IsSeries, Accepts, AllCompatible, Ascending, NamesAuthorable, Registers, ShapesFit, ShapesOf,
      AuthorsAll;
    var scan := ScanSeries(files, inspect, options);
    if scan.Throws? {
      return Throws;
    }
    var series := scan.value;
    ScannedCounts(inspect, files);
    AcceptedSeries(AllScanned(inspect, files).value, options, series, valid);
    var shapes := AuthorShapes(series[0]);
    if shapes.Throws? {
      return Throws;
    }
    var scalars := AuthorScalarMap(series, Scalars, SCALAR_PREFIX, valid);
    if scalars.Throws? {
      return Throws;
    }
    var simInfo := AuthorScalarMap(series, SimInfo, SIM_INFO_PREFIX, valid);
    if simInfo.Throws? {
      return Throws;
    }
    var entries := RegisterArrays(series);
    r := Ok(FlashLayer(series, shapes.value, scalars.value, simInfo.value, entries));
  }
}
