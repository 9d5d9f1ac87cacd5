/** The caches of EnSight geometry and variable indices: shared futures, a lookup
    under a shared lock and again under a unique one, a variable build that needs a
    geometry index, and failed builds that are dropped. The class holds what is done
    under a lock or on a promise; the step relation runs it from any number of threads. */
module EnsightIndexCaches {
  import opened Runs

  datatype Association = Node | Element

  /** A key of the geometry cache or of the variable cache. The two caches are one
      map here: their keys differ, and no section looks at both. */
  datatype Key =
    | Geo(file: string)
    | Var(varFile: string, geoFile: string, association: Association, components: nat)

  /** An index, or an exception, by number: two builds that give the same index
      twice give two numbers only if their objects differ. */
  datatype Outcome = Pending | Value(index: nat) | Exception(error: nat)

  datatype Future = Future(key: Key, outcome: Outcome)

  /** The caches, and the futures made so far by number. */
  datatype Caches = Caches(values: map<Key, nat>, futures: seq<Future>)

  /** Where a call of `GetGeoIndex` or `GetVariableIndex` is. */
  datatype Phase =
    | Enter
    | Missed
    | Waiting(future: nat)
    | Building(future: nat)
    | Scanning(future: nat, geometry: nat)
    | Failing(future: nat, error: nat)
    | Done(outcome: Outcome)
  {
    /** The call owns the build of future `f`: it has not yet delivered it, or not
        yet dropped it. */
    predicate Owns(f: nat) {
      (Building? || Scanning? || Failing?) && future == f
    }
  }

  function Shared(c: Caches, key: Key): Phase {
    if key in c.values then Waiting(c.values[key]) else Missed
  }

  function Unique(c: Caches, key: Key): (Caches, Phase) {
    if key in c.values then (c, Waiting(c.values[key]))
    else (Caches(c.values[key := |c.futures|], c.futures + [Future(key, Pending)]), Building(|c.futures|))
  }

  function Resolve(c: Caches, f: nat, outcome: Outcome): Caches
    requires f < |c.futures|
  {
    c.(futures := c.futures[f := c.futures[f].(outcome := outcome)])
  }

  function Dropped(c: Caches, key: Key): Caches {
    c.(values := c.values - {key})
  }

  class IndexCaches {
    var values: map<Key, nat>
    var futures: seq<Future>

    ghost function State(): Caches
      reads this
    {
      Caches(values, futures)
    }

    constructor ()
      ensures State() == Caches(map[], [])
    {
      values, futures := map[], [];
    }

    /** The lookup under the shared lock. */
    method FindShared(key: Key) returns (phase: Phase)
      ensures phase == Shared(State(), key)
    {
      if key in values {
        return Waiting(values[key]);
      }
      phase := Missed;
    }

    /** The lookup under the unique lock, which inserts a future on a miss. */
    method FindOrInsert(key: Key) returns (phase: Phase)
      modifies this
      ensures (State(), phase) == Unique(old(State()), key)
    {
      if key in values {
        return Waiting(values[key]);
      }
      var future := |futures|;
      futures := futures + [Future(key, Pending)];
      values := values[key := future];
      phase := Building(future);
    }

    /** `promise.set_value` and `promise.set_exception`. */
    method SetOutcome(future: nat, outcome: Outcome)
      requires future < |futures|
      modifies this
      ensures State() == Resolve(old(State()), future, outcome)
    {
      futures := futures[future := futures[future].(outcome := outcome)];
    }

    method Erase(key: Key)
      modifies this
      ensures State() == Dropped(old(State()), key)
    {
      values := values - {key};
    }
  }

  // ------------------------------------------------------------- the system

  datatype Frame = Frame(key: Key, phase: Phase)

  /** A thread is its stack of calls; a finished call leaves its result in the history. */
  datatype System = System(caches: Caches, threads: seq<seq<Frame>>, history: set<(Key, Outcome)>)

  ghost predicate Init(s: System) {
    && s.caches == Caches(map[], [])
    && (forall i :: 0 <= i < |s.threads| ==> s.threads[i] == [])
    && s.history == {}
  }

  datatype Action =
    | Call(key: Key)
    | LookUpShared
    | LookUpUnique
    | Get
    | NeedGeometry
    | Succeed(index: nat)
    | Fail(error: nat)
    | Drop
    | Return
    | ReturnGeometry

  /** The call on top of the stack goes from phase `x` to phase `y`. */
  ghost predicate TopActs(c: Caches, d: Caches, key: Key, x: Phase, y: Phase, action: Action) {
    match action
    case LookUpShared => x == Enter && d == c && y == Shared(c, key)
    case LookUpUnique => x == Missed && (d, y) == Unique(c, key)
    case Get =>
      && x.Waiting? && d == c && x.future < |c.futures| && !c.futures[x.future].outcome.Pending?
      && y == Done(c.futures[x.future].outcome)
    case Succeed(index) =>
      && ((x.Building? && key.Geo?) || x.Scanning?) && x.future < |c.futures|
      && d == Resolve(c, x.future, Value(index)) && y == Done(Value(index))
    case Fail(error) =>
      && ((x.Building? && key.Geo?) || x.Scanning?) && x.future < |c.futures|
      && d == Resolve(c, x.future, Exception(error)) && y == Failing(x.future, error)
    case Drop =>
      x.Failing? && d == Dropped(c, key) && y == Done(Exception(x.error))
    case _ => false
  }

  /** The caller of a finished `GetGeoIndex` goes on: it scans with the index, or its
      own build fails with the exception. */
  ghost predicate CallerResumes(c: Caches, d: Caches, f: nat, outcome: Outcome, y: Phase) {
    match outcome
    case Value(geometry) => d == c && y == Scanning(f, geometry)
    case Exception(error) => f < |c.futures| && d == Resolve(c, f, Exception(error)) && y == Failing(f, error)
    case Pending => false
  }

  ghost predicate Acts(s: System, t: System, a: seq<Frame>, b: seq<Frame>, action: Action) {
    match action
    case Call(key) =>
      a == [] && b == [Frame(key, Enter)] && t.caches == s.caches && t.history == s.history
    case NeedGeometry =>
      && |a| == 1 && a[0].key.Var? && a[0].phase.Building?
      && b == [a[0], Frame(Geo(a[0].key.geoFile), Enter)] && t.caches == s.caches && t.history == s.history
    case Return =>
      && |a| == 1 && a[0].phase.Done? && b == [] && t.caches == s.caches
      && t.history == s.history + {(a[0].key, a[0].phase.outcome)}
    case ReturnGeometry =>
      && |a| == 2 && a[1].phase.Done? && a[0].phase.Building? && |b| == 1 && b[0].key == a[0].key
      && CallerResumes(s.caches, t.caches, a[0].phase.future, a[1].phase.outcome, b[0].phase)
      && t.history == s.history + {(a[1].key, a[1].phase.outcome)}
    case _ =>
      && a != [] && |b| == |a| && t.history == s.history
      && b == a[|a| - 1 := Frame(a[|a| - 1].key, b[|a| - 1].phase)]
      && TopActs(s.caches, t.caches, a[|a| - 1].key, a[|a| - 1].phase, b[|a| - 1].phase, action)
  }

  ghost predicate Step(s: System, t: System, i: nat, action: Action) {
    && i < |s.threads| && |t.threads| == |s.threads|
    && t.threads == s.threads[i := t.threads[i]]
    && Acts(s, t, s.threads[i], t.threads[i], action)
  }

  ghost predicate Next(s: System, t: System) {
    exists i: nat, action :: Step(s, t, i, action)
  }

  ghost predicate Running(states: seq<System>) {
    Run(states, Init, Next)
  }

  // --------------------------------------------------------- the invariant

  /** The call at level `l` of thread `i` owns the build of future `f`. */
  ghost predicate Owner(s: System, i: nat, l: nat, f: nat) {
    i < |s.threads| && l < |s.threads[i]| && s.threads[i][l].phase.Owns(f)
  }

  /** Some future of the key holds the index. */
  ghost predicate Delivered(c: Caches, key: Key, index: nat) {
    Future(key, Value(index)) in c.futures
  }

  /** A future that is unfinished or holds an index is the one cached for its key. */
  ghost predicate CachesOk(c: Caches) {
    && (forall k :: k in c.values ==> c.values[k] < |c.futures| && c.futures[c.values[k]].key == k)
    && forall f: nat :: f < |c.futures| && !c.futures[f].outcome.Exception? ==>
         c.futures[f].key in c.values && c.values[c.futures[f].key] == f
  }

  ghost predicate FrameOk(c: Caches, x: Frame) {
    && (x.phase.Waiting? || x.phase.Building? || x.phase.Scanning? || x.phase.Failing? ==>
          x.phase.future < |c.futures| && c.futures[x.phase.future].key == x.key)
    && (x.phase.Building? || x.phase.Scanning? ==> c.futures[x.phase.future].outcome.Pending?)
    && (x.phase.Scanning? ==> x.key.Var? && Delivered(c, Geo(x.key.geoFile), x.phase.geometry))
    && (x.phase.Failing? ==>
          && c.futures[x.phase.future].outcome == Exception(x.phase.error)
          && x.key in c.values && c.values[x.key] == x.phase.future)
    && (x.phase.Done? ==> !x.phase.outcome.Pending?)
    && (x.phase.Done? && x.phase.outcome.Value? ==> Delivered(c, x.key, x.phase.outcome.index))
  }

  /** Calls nest at most twice: a variable build inside of which a geometry index is
      fetched. */
  ghost predicate StackOk(c: Caches, a: seq<Frame>) {
    && |a| <= 2 && (forall l :: 0 <= l < |a| ==> FrameOk(c, a[l]))
    && (|a| == 2 ==> a[0].key.Var? && a[0].phase.Building? && a[1].key == Geo(a[0].key.geoFile))
  }

  /** A cached future without an index has exactly one owner, and no other future has one. */
  ghost predicate OneOwner(s: System) {
    && (forall i: nat, l: nat, j: nat, m: nat, f: nat :: Owner(s, i, l, f) && Owner(s, j, m, f) ==> i == j && l == m)
    && forall k :: k in s.caches.values && CachedUnbuilt(s.caches, k) ==> HasOwner(s, s.caches.values[k])
  }

  ghost predicate CachedUnbuilt(c: Caches, k: Key) {
    k in c.values && c.values[k] < |c.futures| && !c.futures[c.values[k]].outcome.Value?
  }

  ghost predicate HasOwner(s: System, f: nat) {
    exists i: nat, l: nat :: Owner(s, i, l, f)
  }

  ghost predicate HistoryOk(s: System) {
    forall k, index :: (k, Value(index)) in s.history ==> Delivered(s.caches, k, index)
  }

  ghost predicate Inv(s: System) {
    && CachesOk(s.caches)
    && (forall i :: 0 <= i < |s.threads| ==> StackOk(s.caches, s.threads[i]))
    && OneOwner(s)
    && HistoryOk(s)
  }

  /** What a step may do to the caches. */
  datatype Change = Same | Inserted(key: Key) | Resolved(future: nat, outcome: Outcome) | Removed(key: Key)

  ghost predicate Changed(c: Caches, d: Caches, change: Change) {
    match change
    case Same => d == c
    case Inserted(key) => key !in c.values && d == Unique(c, key).0
    case Resolved(f, outcome) =>
      f < |c.futures| && c.futures[f].outcome.Pending? && !outcome.Pending? && d == Resolve(c, f, outcome)
    case Removed(key) =>
      && key in c.values && c.values[key] < |c.futures| && c.futures[c.values[key]].outcome.Exception?
      && d == Dropped(c, key)
  }

  /** Only the owner of a future resolves it, and only the owner of a failed one
      removes it from the cache. */
  ghost predicate ByOwner(s: System, i: nat, change: Change) {
    && (change.Resolved? ==> exists l: nat :: Owner(s, i, l, change.future))
    && (change.Removed? ==> change.key in s.caches.values && exists l: nat :: Owner(s, i, l, s.caches.values[change.key]))
  }

  /** A call that is two deep changes the caches only by its upper part. */
  ghost predicate ByTop(s: System, i: nat, change: Change) {
    && (change.Resolved? ==> Owner(s, i, 1, change.future))
    && (change.Removed? ==> change.key in s.caches.values && Owner(s, i, 1, s.caches.values[change.key]))
  }

  lemma StepChanges(s: System, t: System, i: nat, action: Action) returns (change: Change)
    requires Inv(s) && Step(s, t, i, action)
    ensures Changed(s.caches, t.caches, change) && ByOwner(s, i, change)
    ensures |t.threads[i]| == 2 ==> ByTop(s, i, change)
  {
    var c, a, b := s.caches, s.threads[i], t.threads[i];
    assert StackOk(c, a);
    change := Same;
    if a != [] {
      var l := |a| - 1;
      var x := a[l];
      assert FrameOk(c, x) && FrameOk(c, a[0]);
      if action.LookUpUnique? && x.key !in c.values {
        change := Inserted(x.key);
      } else if action.Succeed? {
        change := Resolved(x.phase.future, Value(action.index));
        assert Owner(s, i, l, x.phase.future);
      } else if action.Fail? {
        change := Resolved(x.phase.future, Exception(action.error));
        assert Owner(s, i, l, x.phase.future);
      } else if action.Drop? {
        change := Removed(x.key);
        assert Owner(s, i, l, x.phase.future);
      } else if action.ReturnGeometry? && x.phase.outcome.Exception? {
        change := Resolved(a[0].phase.future, x.phase.outcome);
        assert Owner(s, i, 0, a[0].phase.future);
      }
    }
  }

  lemma CachesStayOk(c: Caches, d: Caches, change: Change)
    requires CachesOk(c) && Changed(c, d, change)
    ensures CachesOk(d)
  {
  }

  lemma DeliveredStays(c: Caches, d: Caches, change: Change, key: Key, index: nat)
    requires Changed(c, d, change) && Delivered(c, key, index)
    ensures Delivered(d, key, index)
  {
    var f :| 0 <= f < |c.futures| && c.futures[f] == Future(key, Value(index));
    assert d.futures[f] == c.futures[f];
  }

  /** A call keeps its footing when another thread changes the caches. */
  lemma FrameStaysOk(c: Caches, d: Caches, change: Change, x: Frame)
    requires CachesOk(c) && Changed(c, d, change) && FrameOk(c, x)
    requires change.Resolved? ==> !x.phase.Owns(change.future)
    requires change.Removed? ==> !(change.key in c.values && x.phase.Owns(c.values[change.key]))
    ensures FrameOk(d, x)
  {
    if x.phase.Scanning? {
      DeliveredStays(c, d, change, Geo(x.key.geoFile), x.phase.geometry);
    }
    if x.phase.Done? && x.phase.outcome.Value? {
      DeliveredStays(c, d, change, x.key, x.phase.outcome.index);
    }
  }

  lemma OtherStacksStayOk(s: System, t: System, i: nat, action: Action, j: nat)
    requires Inv(s) && Step(s, t, i, action) && j < |s.threads| && j != i
    ensures StackOk(t.caches, t.threads[j])
  {
    var change := StepChanges(s, t, i, action);
    assert StackOk(s.caches, s.threads[j]);
    forall l | 0 <= l < |s.threads[j]| ensures FrameOk(t.caches, s.threads[j][l]) {
      hide FrameOk, Acts;
      assert forall f :: s.threads[j][l].phase.Owns(f) ==> Owner(s, j, l, f);
      FrameStaysOk(s.caches, t.caches, change, s.threads[j][l]);
    }
  }

  lemma OwnStackStaysOk(s: System, t: System, i: nat, action: Action)
    requires Inv(s) && Step(s, t, i, action)
    ensures StackOk(t.caches, t.threads[i])
  {
    var c, d, a, b := s.caches, t.caches, s.threads[i], t.threads[i];
    assert StackOk(c, a);
    var change := StepChanges(s, t, i, action);
    if a != [] && b != [] {
      var l := |a| - 1;
      assert FrameOk(c, a[l]) && FrameOk(c, a[0]);
      if |b| == 2 {
        LowerFrameOk(s, t, i, action, change);
      }
      TopFrameOk(s, t, i, action);
    }
  }

  /** The waiting lower call is not touched by the upper one. */
  lemma LowerFrameOk(s: System, t: System, i: nat, action: Action, change: Change)
    requires Inv(s) && Step(s, t, i, action) && Changed(s.caches, t.caches, change) && ByTop(s, i, change)
    requires s.threads[i] != [] && |t.threads[i]| == 2
    ensures FrameOk(t.caches, t.threads[i][0])
  {
    var c, a := s.caches, s.threads[i];
    assert StackOk(c, a) && FrameOk(c, a[0]);
    if |a| == 2 {
      assert forall f :: a[0].phase.Owns(f) ==> Owner(s, i, 0, f);
      FrameStaysOk(c, t.caches, change, a[0]);
    }
  }

  lemma TopFrameOk(s: System, t: System, i: nat, action: Action)
    requires Inv(s) && Step(s, t, i, action) && s.threads[i] != [] && t.threads[i] != []
    ensures var b := t.threads[i]; FrameOk(t.caches, b[|b| - 1])
  {
    var c, a, b := s.caches, s.threads[i], t.threads[i];
    assert StackOk(c, a) && FrameOk(c, a[0]) && FrameOk(c, a[|a| - 1]);
    if action.Get? && c.futures[a[|a| - 1].phase.future].outcome.Value? {
      assert c.futures[a[|a| - 1].phase.future] == Future(a[|a| - 1].key, c.futures[a[|a| - 1].phase.future].outcome);
    }
    if action.Succeed? {
      assert t.caches.futures[a[|a| - 1].phase.future] == Future(a[|a| - 1].key, Value(action.index));
    }
  }

  lemma OneOwnerStays(s: System, t: System, i: nat, action: Action)
    requires Inv(s) && Step(s, t, i, action)
    ensures OneOwner(t)
  {
    hide Acts;
    forall j: nat, l: nat, m: nat, n: nat, f: nat | Owner(t, j, l, f) && Owner(t, m, n, f) ensures j == m && l == n {
      OwnerBefore(s, t, i, action, j, l, f);
      OwnerBefore(s, t, i, action, m, n, f);
    }
    forall k | k in t.caches.values && CachedUnbuilt(t.caches, k) ensures HasOwner(t, t.caches.values[k]) {
      UnbuiltHasOwner(s, t, i, action, k);
    }
  }

  /** Who owns a future after a step owned it before, unless it is new. */
  lemma OwnerBefore(s: System, t: System, i: nat, action: Action, j: nat, l: nat, f: nat)
    requires Inv(s) && Step(s, t, i, action) && Owner(t, j, l, f)
    ensures (Owner(s, j, l, f) && f < |s.caches.futures|) || (j == i && l == |t.threads[i]| - 1 && f == |s.caches.futures|)
  {
    if j == i {
      var a := s.threads[i];
      assert StackOk(s.caches, a);
      if l < |a| {
        assert FrameOk(s.caches, a[l]);
      }
    } else {
      assert Owner(s, j, l, f);
      assert StackOk(s.caches, s.threads[j]) && FrameOk(s.caches, s.threads[j][l]);
    }
  }

  lemma UnbuiltHasOwner(s: System, t: System, i: nat, action: Action, k: Key)
    requires Inv(s) && Step(s, t, i, action) && CachedUnbuilt(t.caches, k)
    ensures HasOwner(t, t.caches.values[k])
  {
    var c, a := s.caches, s.threads[i];
    var f := t.caches.values[k];
    assert StackOk(c, a);
    if k in c.values && c.values[k] == f {
      assert CachedUnbuilt(c, k) by {
        var change := StepChanges(s, t, i, action);
      }
      var j: nat, l: nat :| Owner(s, j, l, f);
      OwnerAfter(s, t, i, action, j, l, k);
    } else {
      assert Owner(t, i, |t.threads[i]| - 1, f);
    }
  }

  /** An owner keeps its future until the future holds an index or is dropped. */
  lemma OwnerAfter(s: System, t: System, i: nat, action: Action, j: nat, l: nat, k: Key)
    requires Inv(s) && Step(s, t, i, action) && k in s.caches.values && Owner(s, j, l, s.caches.values[k])
    requires CachedUnbuilt(t.caches, k) && t.caches.values[k] == s.caches.values[k]
    ensures Owner(t, j, l, s.caches.values[k])
  {
    assert StackOk(s.caches, s.threads[j]) && FrameOk(s.caches, s.threads[j][l]);
  }

  lemma HistoryStaysOk(s: System, t: System, i: nat, action: Action)
    requires Inv(s) && Step(s, t, i, action)
    ensures HistoryOk(t)
  {
    var change := StepChanges(s, t, i, action);
    var a := s.threads[i];
    assert StackOk(s.caches, a);
    forall k, index | (k, Value(index)) in t.history ensures Delivered(t.caches, k, index) {
      if (k, Value(index)) !in s.history {
        assert FrameOk(s.caches, a[|a| - 1]);
      }
      DeliveredStays(s.caches, t.caches, change, k, index);
    }
  }

  lemma InvStep(s: System, t: System, i: nat, action: Action)
    requires Inv(s) && Step(s, t, i, action)
    ensures Inv(t)
  {
    var change := StepChanges(s, t, i, action);
    hide Acts, CachesOk, StackOk, OneOwner, HistoryOk, Changed, ByOwner, ByTop;
    CachesStayOk(s.caches, t.caches, change);
    OneOwnerStays(s, t, i, action);
    HistoryStaysOk(s, t, i, action);
    forall j | 0 <= j < |t.threads| ensures StackOk(t.caches, t.threads[j]) {
      if j == i {
        OwnStackStaysOk(s, t, i, action);
      } else {
        OtherStacksStayOk(s, t, i, action, j);
      }
    }
  }
}
