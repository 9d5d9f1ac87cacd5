/** The lazy time-sample store: registration, binary-search queries behind a cache, and
    bracketing. Times are real numbers, loaders are deterministic, and what a query
    leaves to the base class is only named. */
module TimeSamples {
  import opened Collections
  import opened Runs
  import opened Wrappers

  datatype Path = Path(prims: seq<string>, property: Option<string>)

  datatype Loader = Loader(id: nat)

  datatype Value = Value(id: nat)

  datatype Sample = Sample(time: real, loader: Loader)

  datatype CacheMode = All | Static | None_

  // --------------------------------------------------------- cache paths

  const CHUNK: string := ":chunk_"
  const VALUE: string := ":value"

  predicate OccursAt(s: string, pattern: string, i: nat) {
    i + |pattern| <= |s| && s[i..i + |pattern|] == pattern
  }

  /** `std::string::rfind`: the last place of the pattern at or below `n`. */
  function RFind(s: string, pattern: string, n: nat): (r: Option<nat>)
    ensures r.Some? ==> r.value <= n && OccursAt(s, pattern, r.value)
    ensures forall i :: (if r.Some? then r.value + 1 else 0) <= i <= n ==> !OccursAt(s, pattern, i)
  {
    if OccursAt(s, pattern, n) then Some(n)
    else if n == 0 then None
    else RFind(s, pattern, n - 1)
  }

  function CanonicalCachePath(path: Path): Path {
    match path.property
    case None => path
    case Some(name) =>
      match RFind(name, CHUNK, |name|)
      case Some(pos) => Path(path.prims, Some(name[..pos] + VALUE))
      case None => path
  }

  lemma StartsWithColon(s: string, i: nat)
    ensures OccursAt(s, CHUNK, i) ==> i < |s| && s[i] == ':'
  {
    if OccursAt(s, CHUNK, i) {
      assert s[i..i + |CHUNK|][0] == ':';
    }
  }

  /** All chunks of an array share the cache path of the array's value. */
  lemma ChunksShareOnePath(prims: seq<string>, base: string, number: string)
    requires ':' !in number
    ensures CanonicalCachePath(Path(prims, Some(base + CHUNK + number))) == Path(prims, Some(base + VALUE))
  {
    var name := base + CHUNK + number;
    assert OccursAt(name, CHUNK, |base|);
    forall i | |base| < i <= |name| ensures !OccursAt(name, CHUNK, i) {
      if i < |name| {
        assert name[i] == if i < |base| + |CHUNK| then CHUNK[i - |base|] else number[i - |base| - |CHUNK|];
        StartsWithColon(name, i);
      }
    }
    var pos := RFind(name, CHUNK, |name|);
    assert pos == Some(|base|);
    assert name[..|base|] == base;
  }

  // -------------------------------------------------------- sample lists

  predicate Sorted(samples: seq<Sample>) {
    forall i, j :: 0 <= i < j < |samples| ==> samples[i].time <= samples[j].time
  }

  /** Searching from the front: the first sample with the time. */
  function FirstAt(samples: seq<Sample>, time: real): Option<Sample> {
    if samples == [] then None
    else if samples[0].time == time then Some(samples[0])
    else FirstAt(samples[1..], time)
  }

  lemma {:induction false} FirstAtIs(samples: seq<Sample>, time: real, k: nat)
    requires k <= |samples| && forall i :: 0 <= i < k ==> samples[i].time != time
    ensures k < |samples| && samples[k].time == time ==> FirstAt(samples, time) == Some(samples[k])
    ensures (forall i :: k <= i < |samples| ==> samples[i].time != time) ==> FirstAt(samples, time) == None
    decreases |samples|
  {
    if k > 0 {
      FirstAtIs(samples[1..], time, k - 1);
    } else if |samples| > 0 && samples[0].time != time {
      if forall i :: 0 <= i < |samples| ==> samples[i].time != time {
        FirstAtIs(samples[1..], time, 0);
      }
    }
  }

  function TimeList(samples: seq<Sample>): (times: seq<real>)
    ensures |times| == |samples| && forall i :: 0 <= i < |samples| ==> times[i] == samples[i].time
  {
    seq(|samples|, i requires 0 <= i < |samples| => samples[i].time)
  }

  predicate Ascending(times: seq<real>) {
    forall i, j :: 0 <= i < j < |times| ==> times[i] <= times[j]
  }

  /** `std::lower_bound`. */
  method LowerBound(times: seq<real>, time: real) returns (k: nat)
    requires Ascending(times)
    ensures k <= |times|
    ensures forall i :: 0 <= i < k ==> times[i] < time
    ensures forall i :: k <= i < |times| ==> times[i] >= time
  {
    var lo, hi := 0, |times|;
    while lo < hi
      invariant 0 <= lo <= hi <= |times|
      invariant forall i :: 0 <= i < lo ==> times[i] < time
      invariant forall i :: hi <= i < |times| ==> times[i] >= time
    {
      var mid := (lo + hi) / 2;
      if times[mid] < time {
        lo := mid + 1;
      } else {
        hi := mid;
      }
    }
    k := lo;
  }

  /** The binary search finds what a search from the front would. */
  method FindTimeSample(samples: seq<Sample>, time: real) returns (sample: Option<Sample>)
    requires Sorted(samples)
    ensures sample == FirstAt(samples, time)
  {
    var it := LowerBound(TimeList(samples), time);
    assert forall i :: 0 <= i < |samples| ==> TimeList(samples)[i] == samples[i].time;
    FirstAtIs(samples, time, it);
    if it != |samples| && samples[it].time == time {
      sample := Some(samples[it]);
    } else {
      sample := None;
      if it < |samples| {
        assert samples[it].time > time;
        assert forall i :: it <= i < |samples| ==> samples[i].time >= samples[it].time;
      }
    }
  }

  lemma Inserted(s: seq<Sample>, x: Sample, k: nat)
    requires Sorted(s) && k <= |s|
    requires forall i :: 0 <= i < k ==> TimeList(s)[i] < x.time
    requires forall i :: k <= i < |s| ==> TimeList(s)[i] >= x.time
    ensures Sorted(s[..k] + [x] + s[k..])
    ensures multiset(s[..k] + [x] + s[k..]) == multiset(s) + multiset{x}
  {
    assert k > 0 ==> TimeList(s)[k - 1] == s[k - 1].time;
    assert k < |s| ==> TimeList(s)[k] == s[k].time;
    JoinSorted(s[..k], [x]);
    JoinSorted(s[..k] + [x], s[k..]);
    CountInserted(s, x, k);
  }

  lemma JoinSorted(a: seq<Sample>, b: seq<Sample>)
    requires Sorted(a) && Sorted(b)
    requires a != [] && b != [] ==> a[|a| - 1].time <= b[0].time
    ensures Sorted(a + b)
  {
    forall i, j | 0 <= i < j < |a + b| ensures (a + b)[i].time <= (a + b)[j].time {
      if i < |a| <= j {
        assert a[i].time <= a[|a| - 1].time && b[0].time <= b[j - |a|].time;
      }
    }
  }

  /** Stands for `std::sort` by time: some sorted arrangement of the samples. */
  method SortByTime(samples: seq<Sample>) returns (sorted: seq<Sample>)
    ensures Sorted(sorted) && multiset(sorted) == multiset(samples)
  {
    sorted := [];
    for i := 0 to |samples|
      invariant Sorted(sorted) && multiset(sorted) == multiset(samples[..i])
    {
      var k := LowerBound(TimeList(sorted), samples[i].time);
      assert samples[..i + 1] == samples[..i] + [samples[i]];
      Inserted(sorted, samples[i], k);
      sorted := sorted[..k] + [samples[i]] + sorted[k..];
    }
    assert samples[..|samples|] == samples;
  }

  // ------------------------------------------------------------ bracketing

  /** The bracket of a time: the greatest time at or below it, or else the least of
      all; and the least at or above it, or else the greatest of all. */
  ghost predicate IsBracket(times: set<real>, time: real, lower: real, upper: real) {
    && lower in times && upper in times
    && (if lower <= time then forall s :: s in times && s <= time ==> s <= lower
        else forall s :: s in times ==> lower <= s)
    && (if time <= upper then forall s :: s in times && time <= s ==> upper <= s
        else forall s :: s in times ==> s <= upper)
  }

  /** There is only one. */
  lemma OneBracket(times: set<real>, time: real, lower: real, upper: real, lower': real, upper': real)
    requires IsBracket(times, time, lower, upper) && IsBracket(times, time, lower', upper')
    ensures lower == lower' && upper == upper'
  {
  }

  datatype Bracket = Bracket(lower: real, upper: real) | NoSamples

  /** The elements of a `std::set`, in the order of its iterators. */
  predicate StrictlyAscending(times: seq<real>) {
    forall i, j :: 0 <= i < j < |times| ==> times[i] < times[j]
  }

  ghost function Elements(times: seq<real>): set<real> {
    set t | t in times
  }

  lemma InsertedElement(times: seq<real>, k: nat, t: real)
    requires k <= |times| && StrictlyAscending(times)
    requires (forall i :: 0 <= i < k ==> times[i] < t) && forall i :: k <= i < |times| ==> t < times[i]
    ensures StrictlyAscending(times[..k] + [t] + times[k..])
    ensures Elements(times[..k] + [t] + times[k..]) == Elements(times) + {t}
  {
    JoinStrictly(times[..k], [t]);
    JoinStrictly(times[..k] + [t], times[k..]);
    assert times == times[..k] + times[k..];
  }

  lemma JoinStrictly(a: seq<real>, b: seq<real>)
    requires StrictlyAscending(a) && StrictlyAscending(b)
    requires a != [] && b != [] ==> a[|a| - 1] < b[0]
    ensures StrictlyAscending(a + b)
  {
    forall i, j | 0 <= i < j < |a + b| ensures (a + b)[i] < (a + b)[j] {
      if i < |a| <= j {
        assert a[i] <= a[|a| - 1] && b[0] <= b[j - |a|];
      }
    }
  }

  /** The times of a path, as a set: those the base class stores for it, and those of
      its samples. */
  method ListTimeSamplesForPath(stored: seq<real>, samples: seq<Sample>) returns (times: seq<real>)
    requires StrictlyAscending(stored)
    ensures StrictlyAscending(times) && Elements(times) == Elements(stored) + Elements(TimeList(samples))
  {
    times := stored;
    for i := 0 to |samples|
      invariant StrictlyAscending(times) && Elements(times) == Elements(stored) + Elements(TimeList(samples[..i]))
    {
      var t := samples[i].time;
      var k := LowerBound(times, t);
      assert TimeList(samples[..i + 1]) == TimeList(samples[..i]) + [t];
      if k == |times| || times[k] != t {
        InsertedElement(times, k, t);
        times := times[..k] + [t] + times[k..];
      } else {
        assert times[k] in Elements(times);
      }
    }
    assert samples[..|samples|] == samples;
  }

  /** The bracket found in a set of times. */
  method GetBracketingTimeSamples(samples: seq<real>, time: real) returns (r: Bracket)
    requires StrictlyAscending(samples)
    ensures r.NoSamples? <==> samples == []
    ensures r.Bracket? ==> IsBracket(Elements(samples), time, r.lower, r.upper)
  {
    if samples == [] {
      return NoSamples;
    }
    var upper := LowerBound(samples, time);
    if upper == |samples| {
      upper := |samples| - 1;
    }
    var lower := upper;
    if samples[upper] > time && upper != 0 {
      lower := upper - 1;
    }
    r := Bracket(samples[lower], samples[upper]);
    BracketAt(samples, time, lower, upper);
  }

  /** The binary search over a path's own list, which may hold a time twice. */
  method BracketBySearch(samples: seq<Sample>, time: real) returns (r: Bracket)
    requires Sorted(samples)
    ensures r.NoSamples? <==> samples == []
    ensures r.Bracket? ==> IsBracket(Elements(TimeList(samples)), time, r.lower, r.upper)
  {
    if samples == [] {
      return NoSamples;
    }
    var times, n := TimeList(samples), |samples|;
    var upper := LowerBound(times, time);
    if upper == n {
      r := Bracket(samples[n - 1].time, samples[n - 1].time);
      BracketAt(times, time, n - 1, n - 1);
    } else if upper == 0 {
      r := Bracket(samples[0].time, samples[0].time);
      BracketAt(times, time, 0, 0);
    } else if samples[upper].time == time {
      r := Bracket(samples[upper].time, samples[upper].time);
      BracketAt(times, time, upper, upper);
    } else {
      r := Bracket(samples[upper - 1].time, samples[upper].time);
      BracketAt(times, time, upper - 1, upper);
    }
  }

  /** Where a bracket is found in an ascending list. */
  lemma BracketAt(times: seq<real>, time: real, lower: nat, upper: nat)
    requires Ascending(times) && lower <= upper < |times|
    requires lower == upper || (lower + 1 == upper && times[lower] < time < times[upper])
    requires lower == upper ==>
               || times[lower] == time
               || (lower == 0 && time < times[0])
               || (lower == |times| - 1 && times[lower] < time)
    ensures IsBracket(Elements(times), time, times[lower], times[upper])
  {
    assert times[lower] in times && times[upper] in times;
    forall s | s in Elements(times)
      ensures exists i :: 0 <= i < |times| && times[i] == s && (i <= lower || upper <= i)
    {
      var i :| 0 <= i < |times| && times[i] == s;
    }
  }

  /** Both searches, on the same times, return the same. */
  method BracketsAgree(samples: seq<Sample>, time: real) returns (bySet: Bracket, bySearch: Bracket)
    requires Sorted(samples)
    ensures bySet == bySearch
    ensures bySet.Bracket? ==> IsBracket(Elements(TimeList(samples)), time, bySet.lower, bySet.upper)
  {
    var times := ListTimeSamplesForPath([], samples);
    SomeElement(times, TimeList(samples));
    bySet := GetBracketingTimeSamples(times, time);
    bySearch := BracketBySearch(samples, time);
    if bySet.Bracket? && bySearch.Bracket? {
      OneBracket(Elements(times), time, bySet.lower, bySet.upper, bySearch.lower, bySearch.upper);
    }
  }

  lemma SomeElement(a: seq<real>, b: seq<real>)
    requires Elements(a) == Elements(b)
    ensures a == [] <==> b == []
  {
    assert a != [] ==> a[0] in Elements(b);
    assert b != [] ==> b[0] in Elements(a);
  }

  // -------------------------------------------------------------- the store

  /** What a query yields; `Delegated` leaves it to the base class. */
  datatype Answer = Found(value: Value) | Missing | Delegated

  /** A query without any cache: the value of the first sample with that time under
      the canonical path. */
  function Plain(lazy: map<Path, seq<Sample>>, load: Loader -> Value, path: Path, time: real): Answer {
    var canonical := CanonicalCachePath(path);
    if canonical !in lazy then Delegated
    else
      match FirstAt(lazy[canonical], time)
      case Some(sample) => Found(load(sample.loader))
      case None => Missing
  }

  /** What a query comes to before anything is loaded. */
  datatype Turn = Decided(answer: Answer) | ToLoad(loader: Loader)

  /** The start of a query: the search, then the lookup under the shared lock. */
  function Begun(
      mode: CacheMode, lazy: map<Path, seq<Sample>>, cache: map<Path, map<real, Value>>, path: Path, time: real): Turn
  {
    var canonical := CanonicalCachePath(path);
    if canonical !in lazy then Decided(Delegated)
    else
      match FirstAt(lazy[canonical], time)
      case None => Decided(Missing)
      case Some(sample) =>
        match if mode == All then Cached(cache, canonical, time) else None
        case Some(v) => Decided(Found(v))
        case None => ToLoad(sample.loader)
  }

  /** The end of a query that loaded: the write under the unique lock. */
  function Kept(mode: CacheMode, cache: map<Path, map<real, Value>>, path: Path, time: real, v: Value):
    map<Path, map<real, Value>>
  {
    if mode == All then Stored(cache, CanonicalCachePath(path), time, v) else cache
  }

  /** A cached value is that of the first sample with its time. */
  ghost predicate CacheAgrees(lazy: map<Path, seq<Sample>>, load: Loader -> Value, cache: map<Path, map<real, Value>>) {
    forall canonical, time :: canonical in cache && time in cache[canonical] ==>
      && canonical in lazy && FirstAt(lazy[canonical], time).Some?
      && load(FirstAt(lazy[canonical], time).value.loader) == cache[canonical][time]
  }

  function Cached(cache: map<Path, map<real, Value>>, canonical: Path, time: real): Option<Value> {
    if canonical in cache && time in cache[canonical] then Some(cache[canonical][time]) else None
  }

  function Stored(cache: map<Path, map<real, Value>>, canonical: Path, time: real, v: Value): map<Path, map<real, Value>> {
    cache[canonical := (if canonical in cache then cache[canonical] else map[])[time := v]]
  }

  function Parent(prims: seq<string>): seq<string>
    requires prims != []
  {
    prims[..|prims| - 1]
  }

  /** The non-empty prefixes of a prim path: the path and its ancestors. */
  ghost function Ancestry(prims: seq<string>): set<seq<string>> {
    set n | 0 < n <= |prims| :: prims[..n]
  }

  predicate NoDuplicates<T(==)>(s: seq<T>) {
    forall i, j :: 0 <= i < j < |s| ==> s[i] != s[j]
  }

  /** Each parent lists exactly its children that are over paths, once each. */
  ghost predicate ChildrenMatch(overPaths: set<seq<string>>, childrenMap: map<seq<string>, seq<string>>) {
    && (forall p :: p in overPaths <==> Listed(childrenMap, p))
    && (forall parent :: parent in childrenMap ==> NoDuplicates(childrenMap[parent]))
  }

  class CaeFileFormatData {
    const cacheMode: CacheMode
    var overPaths: set<seq<string>>
    var childrenMap: map<seq<string>, seq<string>>
    var attrInfos: map<Path, string>
    var lazyTimeSamples: map<Path, seq<Sample>>
    var timeSampleCache: map<Path, map<real, Value>>

    constructor (cacheMode: CacheMode)
      ensures this.cacheMode == cacheMode && Structured() && SamplesSorted()
      ensures overPaths == {} && lazyTimeSamples == map[] && timeSampleCache == map[]
    {
      this.cacheMode := cacheMode;
      overPaths, childrenMap, attrInfos, lazyTimeSamples, timeSampleCache := {}, map[], map[], map[], map[];
    }

    ghost predicate Structured()
      reads this
    {
      ChildrenMatch(overPaths, childrenMap)
    }

    ghost predicate SamplesSorted()
      reads this
    {
      forall path :: path in lazyTimeSamples ==> Sorted(lazyTimeSamples[path])
    }

    /** Adds a prim path and its ancestors to the hierarchy. */
    method AddOverPaths(primPath: seq<string>)
      requires Structured()
      modifies this`overPaths, this`childrenMap
      ensures Structured()
      ensures overPaths == old(overPaths) + Ancestry(primPath)
    {
      var p := primPath;
      NoAncestry();
      while p != []
        invariant p <= primPath && Structured()
        invariant overPaths + Ancestry(p) == old(overPaths) + Ancestry(primPath)
        decreases |p|
      {
        hide ChildrenMatch, Ancestry;
        AncestryStep(p);
        if p !in overPaths {
          var siblings := AddUnique(if Parent(p) in childrenMap then childrenMap[Parent(p)] else [], p[|p| - 1]);
          ChildAdded(overPaths, childrenMap, p);
          overPaths := overPaths + {p};
          childrenMap := childrenMap[Parent(p) := siblings];
        }
        p := Parent(p);
      }
    }

    /** Samples are sorted unless the caller has done so; whoever registers them as
        sorted has to have sorted them. */
    method RegisterLazyTimeSamples(
        primPath: seq<string>, attrName: string, typeName: string, samples: seq<Sample>, samplesAreSorted: bool)
      requires Structured() && SamplesSorted() && (samplesAreSorted ==> Sorted(samples))
      modifies this`overPaths, this`childrenMap, this`attrInfos, this`lazyTimeSamples
      ensures Structured() && SamplesSorted()
      ensures overPaths == old(overPaths) + Ancestry(primPath)
      ensures attrInfos == old(attrInfos)[Path(primPath, Some(attrName)) := typeName]
      ensures var canonical := CanonicalCachePath(Path(primPath, Some(attrName)));
              && canonical in lazyTimeSamples
              && lazyTimeSamples == old(lazyTimeSamples)[canonical := lazyTimeSamples[canonical]]
              && multiset(lazyTimeSamples[canonical]) == multiset(samples)
              && (samplesAreSorted ==> lazyTimeSamples[canonical] == samples)
    {
      AddOverPaths(primPath);
      var attrPath := Path(primPath, Some(attrName));
      var canonical := CanonicalCachePath(attrPath);
      attrInfos := attrInfos[attrPath := typeName];
      var list := samples;
      if !samplesAreSorted {
        list := SortByTime(samples);
      }
      lazyTimeSamples := lazyTimeSamples[canonical := list];
    }

    /** The search among the samples, and the lookup in the cache. */
    method BeginQuery(path: Path, time: real) returns (turn: Turn)
      requires SamplesSorted()
      ensures turn == Begun(cacheMode, lazyTimeSamples, timeSampleCache, path, time)
    {
      var canonical := CanonicalCachePath(path);
      if canonical !in lazyTimeSamples {
        return Decided(Delegated);
      }
      var sample := FindTimeSample(lazyTimeSamples[canonical], time);
      if sample.None? {
        return Decided(Missing);
      }
      if cacheMode == All {
        var hit := Cached(timeSampleCache, canonical, time);
        if hit.Some? {
          return Decided(Found(hit.value));
        }
      }
      turn := ToLoad(sample.value.loader);
    }

    /** The write to the cache, after loading. */
    method EndQuery(path: Path, time: real, v: Value)
      modifies this`timeSampleCache
      ensures timeSampleCache == Kept(cacheMode, old(timeSampleCache), path, time, v)
    {
      if cacheMode == All {
        timeSampleCache := Stored(timeSampleCache, CanonicalCachePath(path), time, v);
      }
    }

    /** The cache is invisible: a query answers as if there were none, in every cache
        mode, and only mode `all` ever fills the cache. */
    method QueryTimeSample(path: Path, time: real, load: Loader -> Value) returns (answer: Answer)
      requires SamplesSorted() && CacheAgrees(lazyTimeSamples, load, timeSampleCache)
      modifies this`timeSampleCache
      ensures CacheAgrees(lazyTimeSamples, load, timeSampleCache)
      ensures answer == Plain(lazyTimeSamples, load, path, time)
      ensures cacheMode != All ==> timeSampleCache == old(timeSampleCache)
    {
      var turn := BeginQuery(path, time);
      if turn.Decided? {
        return turn.answer;
      }
      var v := load(turn.loader);
      EndQuery(path, time, v);
      answer := Found(v);
    }

    /** `NoSamples` stands for what the base class says. */
    method GetBracketingTimeSamplesForPath(path: Path, time: real) returns (r: Bracket)
      requires SamplesSorted()
      ensures var canonical := CanonicalCachePath(path);
              if canonical in lazyTimeSamples && lazyTimeSamples[canonical] != [] then
                r.Bracket? && IsBracket(Elements(TimeList(lazyTimeSamples[canonical])), time, r.lower, r.upper)
              else r.NoSamples?
    {
      var canonical := CanonicalCachePath(path);
      if canonical !in lazyTimeSamples {
        return NoSamples;
      }
      r := BracketBySearch(lazyTimeSamples[canonical], time);
    }
  }

  function AddUnique(vec: seq<string>, tok: string): seq<string> {
    if tok in vec then vec else vec + [tok]
  }

  lemma NoAncestry()
    ensures Ancestry([]) == {}
  {
  }

  lemma AncestryStep(p: seq<string>)
    requires p != []
    ensures Ancestry(p) == Ancestry(Parent(p)) + {p}
  {
    var q := Parent(p);
    assert p == p[..|p|];
    forall r ensures r in Ancestry(p) <==> r in Ancestry(q) + {p} {
      if r in Ancestry(p) {
        var n :| 0 < n <= |p| && r == p[..n];
        assert n < |p| ==> r == q[..n];
      }
      if r in Ancestry(q) {
        var n :| 0 < n <= |q| && r == q[..n];
        assert r == p[..n];
      }
    }
  }

  /** Whether a path is among the children its parent lists. */
  predicate Listed(childrenMap: map<seq<string>, seq<string>>, p: seq<string>) {
    p != [] && Parent(p) in childrenMap && p[|p| - 1] in childrenMap[Parent(p)]
  }

  lemma ChildAdded(overPaths: set<seq<string>>, childrenMap: map<seq<string>, seq<string>>, p: seq<string>)
    requires ChildrenMatch(overPaths, childrenMap) && p != []
    ensures var siblings := if Parent(p) in childrenMap then childrenMap[Parent(p)] else [];
            ChildrenMatch(overPaths + {p}, childrenMap[Parent(p) := AddUnique(siblings, p[|p| - 1])])
  {
    var siblings := if Parent(p) in childrenMap then childrenMap[Parent(p)] else [];
    var after := childrenMap[Parent(p) := AddUnique(siblings, p[|p| - 1])];
    forall q ensures q in overPaths + {p} <==> Listed(after, q) {
      ListedAfter(childrenMap, p, q);
    }
  }

  lemma ListedAfter(childrenMap: map<seq<string>, seq<string>>, p: seq<string>, q: seq<string>)
    requires p != []
    ensures var siblings := if Parent(p) in childrenMap then childrenMap[Parent(p)] else [];
            Listed(childrenMap[Parent(p) := AddUnique(siblings, p[|p| - 1])], q) <==> q == p || Listed(childrenMap, q)
  {
    if q != [] && Parent(q) == Parent(p) && q[|q| - 1] == p[|p| - 1] {
      assert q == Parent(q) + [q[|q| - 1]] && p == Parent(p) + [p[|p| - 1]];
    }
  }

  // ---------------------------------------------- queries from many threads

  datatype Thread =
    | Idle
    | Loading(path: Path, time: real, loader: Loader)
    | Loaded(path: Path, time: real, value: Value)
    | Answered(path: Path, time: real, answer: Answer)

  /** What was registered, the shared cache, and the threads. */
  datatype System = System(
    mode: CacheMode, lazy: map<Path, seq<Sample>>, cache: map<Path, map<real, Value>>, threads: seq<Thread>)

  datatype Action = Ask(path: Path, time: real) | Load | Write

  /** A thread runs one section of `QueryTimeSample`: the beginning, the loading, which
      holds no lock, or the end. */
  ghost predicate Acts(s: System, t: System, x: Thread, y: Thread, load: Loader -> Value, action: Action) {
    match action
    case Ask(path, time) =>
      && (x.Idle? || x.Answered?) && t.cache == s.cache
      && y == (match Begun(s.mode, s.lazy, s.cache, path, time)
               case Decided(answer) => Answered(path, time, answer)
               case ToLoad(loader) => Loading(path, time, loader))
    case Load => x.Loading? && t.cache == s.cache && y == Loaded(x.path, x.time, load(x.loader))
    case Write =>
      && x.Loaded? && y == Answered(x.path, x.time, Found(x.value))
      && t.cache == Kept(s.mode, s.cache, x.path, x.time, x.value)
  }

  ghost predicate Step(s: System, t: System, load: Loader -> Value, i: nat, action: Action) {
    && t.mode == s.mode && t.lazy == s.lazy
    && i < |s.threads| && |t.threads| == |s.threads| && t.threads == s.threads[i := t.threads[i]]
    && Acts(s, t, s.threads[i], t.threads[i], load, action)
  }

  ghost predicate Next(s: System, t: System, load: Loader -> Value) {
    exists i: nat, action :: Step(s, t, load, i, action)
  }

  ghost predicate Init(s: System) {
    s.cache == map[] && forall i :: 0 <= i < |s.threads| ==> s.threads[i] == Idle
  }

  ghost predicate Running(states: seq<System>, load: Loader -> Value) {
    Run(states, Init, (s, t) => Next(s, t, load))
  }

  ghost predicate ThreadOk(s: System, load: Loader -> Value, x: Thread) {
    && (x.Loading? ==> Plain(s.lazy, load, x.path, x.time) == Found(load(x.loader)))
    && (x.Loaded? ==> Plain(s.lazy, load, x.path, x.time) == Found(x.value))
    && (x.Answered? ==> Plain(s.lazy, load, x.path, x.time) == x.answer)
  }

  ghost predicate Inv(s: System, load: Loader -> Value) {
    && CacheAgrees(s.lazy, load, s.cache)
    && (forall i :: 0 <= i < |s.threads| ==> ThreadOk(s, load, s.threads[i]))
    && (s.mode != All ==> s.cache == map[])
  }

  lemma InvStep(s: System, t: System, load: Loader -> Value, i: nat, action: Action)
    requires Inv(s, load) && Step(s, t, load, i, action)
    ensures Inv(t, load)
  {
    assert ThreadOk(s, load, s.threads[i]);
    forall j | 0 <= j < |t.threads| ensures ThreadOk(t, load, t.threads[j]) {
      assert ThreadOk(s, load, s.threads[j]);
    }
  }

  lemma InvNext(s: System, t: System, load: Loader -> Value)
    requires Inv(s, load) && Next(s, t, load)
    ensures Inv(t, load)
  {
    hide Inv, Step;
    var i: nat, action :| Step(s, t, load, i, action);
    InvStep(s, t, load, i, action);
  }

  lemma AlwaysInv(states: seq<System>, load: Loader -> Value, k: nat)
    requires Running(states, load) && k < |states|
    ensures Inv(states[k], load)
  {
    hide Next, Run;
    forall s, t | Inv(s, load) && Next(s, t, load) ensures Inv(t, load) {
      InvNext(s, t, load);
    }
    Throughout(states, Init, (s, t) => Next(s, t, load), s => Inv(s, load), k);
  }

  /** However the queries of any number of threads interleave, each that has been
      answered was answered as if there were no cache; and the modes other than
      `all` never fill it. */
  lemma CacheIsInvisible(states: seq<System>, load: Loader -> Value, k: nat, i: nat)
    requires Running(states, load) && k < |states| && i < |states[k].threads|
    ensures var s, x := states[k], states[k].threads[i];
            && (x.Answered? ==> x.answer == Plain(s.lazy, load, x.path, x.time))
            && (s.mode != All ==> s.cache == map[])
  {
    AlwaysInv(states, load, k);
    assert ThreadOk(states[k], load, states[k].threads[i]);
  }
}
