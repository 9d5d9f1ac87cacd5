/** The cache of parsed VTK metadata: one parse at a time per file, stale entries
    rejected by signature, at most sixteen entries. The class holds the critical
    sections; the step relation runs them from any number of threads. */
module DatasetSpecCaches {
  import opened Collections
  import opened Runs

  const MAX_CACHED_SPECS: nat := 16

  datatype FileSignature = FileSignature(
    resolvedPath: string, fileSize: nat, lastWriteTime: int, quickContentHash: nat)

  predicate SignaturesMatch(lhs: FileSignature, rhs: FileSignature) {
    lhs.resolvedPath == rhs.resolvedPath && lhs.fileSize == rhs.fileSize &&
    lhs.lastWriteTime == rhs.lastWriteTime && lhs.quickContentHash == rhs.quickContentHash
  }

  /** How a parse ended; specs and exceptions are known by number. */
  datatype Outcome = Pending | Parsed(spec: nat) | Failed(error: nat)

  datatype Entry = Entry(signature: FileSignature, spec: nat)

  /** One parse that other threads may wait for. */
  datatype Flight = Flight(path: string, signature: FileSignature, outcome: Outcome)

  /** The guarded state; `inFlight` names flights by their place in `flights`. */
  datatype Cache = Cache(entries: map<string, Entry>, inFlight: map<string, nat>, flights: seq<Flight>)

  // ------------------------------------------------- the critical sections

  datatype Decision = Hit(spec: nat) | Wait(flight: nat) | Miss(flight: nat)

  /** The locked part of a turn of the retry loop, up to returning, waiting or
      becoming the parser. */
  function LookUp(c: Cache, path: string, signature: FileSignature): (Cache, Decision) {
    if path in c.entries && SignaturesMatch(c.entries[path].signature, signature) then
      (c, Hit(c.entries[path].spec))
    else if path in c.inFlight then
      (c.(entries := c.entries - {path}), Wait(c.inFlight[path]))
    else
      (Cache(c.entries - {path}, c.inFlight[path := |c.flights|], c.flights + [Flight(path, signature, Pending)]),
       Miss(|c.flights|))
  }

  datatype Awake = Return(spec: nat) | Rethrow(error: nat) | Retry

  /** What a thread does once the flight it waited for is done. */
  function WakeUp(flight: Flight, signature: FileSignature): Awake {
    if SignaturesMatch(flight.signature, signature) then
      match flight.outcome
      case Failed(error) => Rethrow(error)
      case Parsed(spec) => Return(spec)
      case Pending => Retry
    else Retry
  }

  /** Which entries eviction may leave, whatever order the table lists them in. */
  ghost predicate Evicted(before: map<string, Entry>, after: map<string, Entry>, protectedKey: string) {
    && after.Keys <= before.Keys
    && (forall k :: k in after ==> after[k] == before[k])
    && (protectedKey in before ==> protectedKey in after)
    && |after| == if |before| <= MAX_CACHED_SPECS then |before| else MAX_CACHED_SPECS
  }

  /** Publishing a parsed spec: the entry is stored, others are evicted, and the
      flight ends. */
  ghost predicate Published(c: Cache, d: Cache, path: string, flight: nat, signature: FileSignature, spec: nat) {
    && flight < |c.flights|
    && Evicted(c.entries[path := Entry(signature, spec)], d.entries, path)
    && d.inFlight == c.inFlight - {path}
    && d.flights == c.flights[flight := c.flights[flight].(outcome := Parsed(spec))]
  }

  ghost predicate FailurePublished(c: Cache, d: Cache, path: string, flight: nat, error: nat) {
    && flight < |c.flights|
    && d.entries == c.entries
    && d.inFlight == c.inFlight - {path}
    && d.flights == c.flights[flight := c.flights[flight].(outcome := Failed(error))]
  }

  lemma OtherKey(entries: map<string, Entry>, protectedKey: string)
    requires |entries| >= 2
    ensures exists k :: k in entries && k != protectedKey
  {
    var rest := entries.Keys - {protectedKey};
    assert |rest| >= |entries.Keys| - 1;
    var k :| k in rest;
  }

  method EvictIfNeeded(entries: map<string, Entry>, protectedKey: string) returns (kept: map<string, Entry>)
    ensures Evicted(entries, kept, protectedKey)
  {
    kept := entries;
    while |kept| > MAX_CACHED_SPECS
      invariant kept.Keys <= entries.Keys
      invariant forall k :: k in kept ==> kept[k] == entries[k]
      invariant protectedKey in entries ==> protectedKey in kept
      invariant |kept| == |entries| || MAX_CACHED_SPECS <= |kept| <= |entries|
      invariant |entries| <= MAX_CACHED_SPECS ==> kept == entries
    {
      // More entries than one leave a victim other than the protected key.
      OtherKey(kept, protectedKey);
      var victim :| victim in kept && victim != protectedKey;
      ghost var larger := kept;
      kept := kept - {victim};
      assert kept.Keys == larger.Keys - {victim};
      assert |kept.Keys| == |larger.Keys| - 1;
    }
  }

  class DatasetSpecCache {
    var entries: map<string, Entry>
    var inFlight: map<string, nat>
    var flights: seq<Flight>

    ghost function State(): Cache
      reads this
    {
      Cache(entries, inFlight, flights)
    }

    constructor ()
      ensures State() == Cache(map[], map[], [])
    {
      entries, inFlight, flights := map[], map[], [];
    }

    /** A turn of `GetOrParse` from taking the lock on. */
    method TakeTurn(resolvedPath: string, signature: FileSignature) returns (decision: Decision)
      modifies this
      ensures (State(), decision) == LookUp(old(State()), resolvedPath, signature)
    {
      if resolvedPath in entries {
        if SignaturesMatch(entries[resolvedPath].signature, signature) {
          return Hit(entries[resolvedPath].spec);
        }
        entries := entries - {resolvedPath};
      }
      assert entries == old(entries) - {resolvedPath};
      if resolvedPath in inFlight {
        return Wait(inFlight[resolvedPath]);
      }
      var flight := |flights|;
      flights := flights + [Flight(resolvedPath, signature, Pending)];
      inFlight := inFlight[resolvedPath := flight];
      decision := Miss(flight);
    }

    /** After the wait: the flight is done and the lock held again. */
    method AfterWait(flight: nat, signature: FileSignature) returns (awake: Awake)
      requires flight < |flights|
      ensures awake == WakeUp(flights[flight], signature)
    {
      var waitFlight := flights[flight];
      if SignaturesMatch(waitFlight.signature, signature) {
        if waitFlight.outcome.Failed? {
          return Rethrow(waitFlight.outcome.error);
        }
        if waitFlight.outcome.Parsed? {
          return Return(waitFlight.outcome.spec);
        }
      }
      awake := Retry;
    }

    method Publish(resolvedPath: string, flight: nat, signature: FileSignature, parsed: nat)
      requires flight < |flights|
      modifies this
      ensures Published(old(State()), State(), resolvedPath, flight, signature, parsed)
    {
      entries := entries[resolvedPath := Entry(signature, parsed)];
      entries := EvictIfNeeded(entries, resolvedPath);
      flights := flights[flight := flights[flight].(outcome := Parsed(parsed))];
      inFlight := inFlight - {resolvedPath};
    }

    method PublishFailure(resolvedPath: string, flight: nat, error: nat)
      requires flight < |flights|
      modifies this
      ensures FailurePublished(old(State()), State(), resolvedPath, flight, error)
    {
      flights := flights[flight := flights[flight].(outcome := Failed(error))];
      inFlight := inFlight - {resolvedPath};
    }

    method Clear()
      modifies this
      ensures State() == old(State()).(entries := map[])
    {
      entries := map[];
    }
  }

  // ------------------------------------------------------------- the system

  /** Where a thread is in a call; `computed` are the signatures of this call. */
  datatype Thread =
    | Idle
    | Turning(path: string, computed: set<FileSignature>)
    | Signed(path: string, computed: set<FileSignature>, signature: FileSignature)
    | Waiting(path: string, computed: set<FileSignature>, signature: FileSignature, flight: nat)
    | Parsing(path: string, computed: set<FileSignature>, signature: FileSignature, flight: nat)
    | Notifying(path: string, computed: set<FileSignature>, flight: nat, result: Awake)
    | Returned(path: string, computed: set<FileSignature>, spec: nat)
    | Threw(path: string, computed: set<FileSignature>, error: nat)
    | SignatureFailed(path: string)
  {
    predicate InCall() {
      Turning? || Signed? || Waiting? || Parsing? || Notifying?
    }
  }

  /** A parse that ran to its end: of which file, under which signature, how. */
  datatype Parse = Parse(path: string, signature: FileSignature, outcome: Outcome)

  /** The cache, its threads, those of them that sleep in a condition variable, and the
      parses that have ended so far. A waiting thread that does not sleep is about to
      take the lock and test whether its flight is done. */
  datatype System = System(cache: Cache, threads: seq<Thread>, asleep: set<nat>, history: set<Parse>)

  ghost predicate Init(s: System) {
    && s.cache == Cache(map[], map[], [])
    && (forall i :: 0 <= i < |s.threads| ==> s.threads[i] == Idle)
    && s.asleep == {} && s.history == {}
  }

  datatype Action =
    | Call(path: string)
    | Sign(signature: FileSignature)
    | FailToSign
    | Look
    | Wake
    | SpuriousWake
    | NotifyAll
    | EndParse(parsed: nat)
    | FailParse(exception: nat)
    | ClearAll

  function AfterLook(path: string, computed: set<FileSignature>, signature: FileSignature, d: Decision): Thread {
    match d
    case Hit(spec) => Returned(path, computed, spec)
    case Wait(flight) => Waiting(path, computed, signature, flight)
    case Miss(flight) => Parsing(path, computed, signature, flight)
  }

  function AfterWake(path: string, computed: set<FileSignature>, a: Awake): Thread {
    match a
    case Return(spec) => Returned(path, computed, spec)
    case Rethrow(error) => Threw(path, computed, error)
    case Retry => Turning(path, computed)
  }

  /** Thread `i` goes from `x` to `y` by one action. The file may change between
      any two steps, so a signature is whatever it happens to be. */
  ghost predicate Acts(s: System, t: System, x: Thread, y: Thread, action: Action) {
    match action
    case Call(path) =>
      !x.InCall() && y == Turning(path, {}) && t.cache == s.cache && t.history == s.history
    case Sign(signature) =>
      && x.Turning? && signature.resolvedPath == x.path
      && y == Signed(x.path, x.computed + {signature}, signature) && t.cache == s.cache && t.history == s.history
    case FailToSign =>
      x.Turning? && y == SignatureFailed(x.path) && t.cache == s.cache && t.history == s.history
    case Look =>
      && x.Signed? && t.history == s.history
      && var (cache, decision) := LookUp(s.cache, x.path, x.signature);
         t.cache == cache && y == AfterLook(x.path, x.computed, x.signature, decision)
    case Wake =>
      && x.Waiting? && t.cache == s.cache && t.history == s.history
      && x.flight < |s.cache.flights|
      && y == if s.cache.flights[x.flight].outcome.Pending? then x
              else AfterWake(x.path, x.computed, WakeUp(s.cache.flights[x.flight], x.signature))
    case SpuriousWake =>
      x.Waiting? && y == x && t.cache == s.cache && t.history == s.history
    case NotifyAll =>
      x.Notifying? && y == AfterWake(x.path, x.computed, x.result) && t.cache == s.cache && t.history == s.history
    case EndParse(parsed) =>
      && x.Parsing? && Published(s.cache, t.cache, x.path, x.flight, x.signature, parsed)
      && y == Notifying(x.path, x.computed, x.flight, Return(parsed))
      && t.history == s.history + {Parse(x.path, x.signature, Parsed(parsed))}
    case FailParse(exception) =>
      && x.Parsing? && FailurePublished(s.cache, t.cache, x.path, x.flight, exception)
      && y == Notifying(x.path, x.computed, x.flight, Rethrow(exception))
      && t.history == s.history + {Parse(x.path, x.signature, Failed(exception))}
    case ClearAll =>
      !x.InCall() && y == x && t.cache == s.cache.(entries := map[]) && t.history == s.history
  }

  /** The threads that wait for a flight. */
  ghost function Waiters(s: System, f: nat): set<nat> {
    set j: nat | j < |s.threads| && s.threads[j].Waiting? && s.threads[j].flight == f
  }

  /** Waits for a flight that is not done. */
  predicate MustSleep(c: Cache, x: Thread) {
    x.Waiting? && x.flight < |c.flights| && c.flights[x.flight].outcome.Pending?
  }

  /** A thread that waits tests its flight, and goes to sleep, under one lock; it wakes
      when it is notified, or for no reason. */
  ghost predicate Sleeps(s: System, t: System, i: nat, action: Action)
    requires i < |s.threads| && i < |t.threads|
  {
    match action
    case Look => t.asleep == if MustSleep(t.cache, t.threads[i]) then s.asleep + {i} else s.asleep
    case Wake => i !in s.asleep && t.asleep == if MustSleep(t.cache, t.threads[i]) then s.asleep + {i} else s.asleep
    case SpuriousWake => i in s.asleep && t.asleep == s.asleep - {i}
    case NotifyAll => s.threads[i].Notifying? && t.asleep == s.asleep - Waiters(s, s.threads[i].flight)
    case _ => t.asleep == s.asleep
  }

  ghost predicate Step(s: System, t: System, i: nat, action: Action) {
    && i < |s.threads| && |t.threads| == |s.threads|
    && t.threads == s.threads[i := t.threads[i]]
    && Acts(s, t, s.threads[i], t.threads[i], action)
    && Sleeps(s, t, i, action)
  }

  ghost predicate Next(s: System, t: System) {
    exists i: nat, action :: Step(s, t, i, action)
  }

  ghost predicate Running(states: seq<System>) {
    Run(states, Init, Next)
  }

  // --------------------------------------------------------- the invariant

  /** Thread `i` is parsing flight `f`. */
  ghost predicate Parses(s: System, i: nat, f: nat) {
    i < |s.threads| && s.threads[i].Parsing? && s.threads[i].flight == f
  }

  /** A path names its flight exactly while the flight is unfinished. */
  ghost predicate FlightsNamed(c: Cache) {
    && (forall p :: p in c.inFlight ==>
          var f := c.inFlight[p];
          f < |c.flights| && c.flights[f].path == p && c.flights[f].outcome.Pending?)
    && forall f: nat :: f < |c.flights| && c.flights[f].outcome.Pending? ==>
         c.flights[f].path in c.inFlight && c.inFlight[c.flights[f].path] == f
  }

  ghost predicate ThreadOk(c: Cache, x: Thread) {
    && (x.Signed? || x.Waiting? || x.Parsing? ==> x.signature in x.computed)
    && (x.Parsing? ==> x.flight < |c.flights| && c.flights[x.flight] == Flight(x.path, x.signature, Pending))
    && (x.Waiting? ==> x.flight < |c.flights| && c.flights[x.flight].path == x.path)
  }

  ghost predicate OneParser(s: System) {
    && (forall i: nat, j: nat, f: nat :: Parses(s, i, f) && Parses(s, j, f) ==> i == j)
    && forall f: nat :: f < |s.cache.flights| && s.cache.flights[f].outcome.Pending? ==> exists i: nat :: Parses(s, i, f)
  }

  /** The result of a finished call is that of a parse under a signature that the
      call itself computed. */
  ghost predicate Justified(history: set<Parse>, x: Thread) {
    && (x.Returned? ==> exists g :: g in x.computed && Parse(x.path, g, Parsed(x.spec)) in history)
    && (x.Threw? ==> exists g :: g in x.computed && Parse(x.path, g, Failed(x.error)) in history)
    && (x.Notifying? && x.result.Return? ==>
          exists g :: g in x.computed && Parse(x.path, g, Parsed(x.result.spec)) in history)
    && (x.Notifying? && x.result.Rethrow? ==>
          exists g :: g in x.computed && Parse(x.path, g, Failed(x.result.error)) in history)
  }

  ghost predicate CacheJustified(c: Cache, history: set<Parse>) {
    && (forall p :: p in c.entries ==> Parse(p, c.entries[p].signature, Parsed(c.entries[p].spec)) in history)
    && forall f :: 0 <= f < |c.flights| && !c.flights[f].outcome.Pending? ==>
         Parse(c.flights[f].path, c.flights[f].signature, c.flights[f].outcome) in history
  }

  /** Thread `j` has ended flight `f` and is about to notify those who wait for it. */
  ghost predicate Notifies(s: System, j: nat, f: nat) {
    j < |s.threads| && s.threads[j].Notifying? && s.threads[j].flight == f
  }

  /** Whoever sleeps, waits for a flight that is not done or is about to be notified. */
  ghost predicate WillBeWoken(s: System, i: nat) {
    && i < |s.threads| && s.threads[i].Waiting? && s.threads[i].flight < |s.cache.flights|
    && (s.cache.flights[s.threads[i].flight].outcome.Pending?
        || exists j: nat :: Notifies(s, j, s.threads[i].flight))
  }

  ghost predicate Inv(s: System) {
    && FlightsNamed(s.cache)
    && (forall i :: i in s.asleep ==> WillBeWoken(s, i))
    && (forall i :: 0 <= i < |s.threads| ==> ThreadOk(s.cache, s.threads[i]))
    && OneParser(s)
    && (forall i :: 0 <= i < |s.threads| ==> Justified(s.history, s.threads[i]))
    && CacheJustified(s.cache, s.history)
    && |s.cache.entries| <= MAX_CACHED_SPECS
  }

  lemma RemovedIsSmaller(m: map<string, Entry>, k: string)
    ensures |m - {k}| <= |m|
  {
    assert (m - {k}).Keys <= m.Keys;
    SubsetSize((m - {k}).Keys, m.Keys);
  }

  /** What a step does to flights: it may add one at the end, or finish one. */
  lemma FlightsGrow(s: System, t: System, i: nat, action: Action)
    requires Inv(s) && Step(s, t, i, action)
    ensures |s.cache.flights| <= |t.cache.flights|
    ensures forall f :: 0 <= f < |s.cache.flights| ==>
              && t.cache.flights[f].path == s.cache.flights[f].path
              && t.cache.flights[f].signature == s.cache.flights[f].signature
              && (!s.cache.flights[f].outcome.Pending? ==> t.cache.flights[f] == s.cache.flights[f])
    ensures forall f: nat :: f < |s.cache.flights| && !Parses(s, i, f) ==> t.cache.flights[f] == s.cache.flights[f]
  {
    assert ThreadOk(s.cache, s.threads[i]);
  }

  lemma FlightsStayNamed(s: System, t: System, i: nat, action: Action)
    requires Inv(s) && Step(s, t, i, action)
    ensures FlightsNamed(t.cache)
  {
    var x := s.threads[i];
    assert ThreadOk(s.cache, x);
    if action.Look? {
      hide FlightsNamed, OneParser, Justified, CacheJustified, ThreadOk;
      LookUpKeepsNames(s.cache, x.path, x.signature);
    } else if action.EndParse? || action.FailParse? {
      EndedParse(s, t, i, action);
      EndKeepsNames(s.cache, t.cache, x.path, x.flight);
    }
  }

  lemma LookUpKeepsNames(c: Cache, path: string, signature: FileSignature)
    requires FlightsNamed(c)
    ensures FlightsNamed(LookUp(c, path, signature).0)
  {
  }

  /** The name goes with the flight that ends. */
  lemma EndKeepsNames(c: Cache, d: Cache, path: string, f: nat)
    requires FlightsNamed(c) && f < |c.flights| == |d.flights|
    requires c.flights[f].path == path && c.flights[f].outcome.Pending? && !d.flights[f].outcome.Pending?
    requires d.inFlight == c.inFlight - {path}
    requires forall g :: 0 <= g < |c.flights| && g != f ==> d.flights[g] == c.flights[g]
    ensures FlightsNamed(d)
  {
    assert c.inFlight[path] == f;
  }

  lemma EndedParse(s: System, t: System, i: nat, action: Action)
    requires Step(s, t, i, action) && (action.EndParse? || action.FailParse?)
    ensures var x := s.threads[i];
            && x.flight < |s.cache.flights| == |t.cache.flights|
            && t.cache.inFlight == s.cache.inFlight - {x.path}
            && !t.cache.flights[x.flight].outcome.Pending?
            && forall f :: 0 <= f < |s.cache.flights| && f != x.flight ==> t.cache.flights[f] == s.cache.flights[f]
  {
  }

  lemma ThreadsStayOk(s: System, t: System, i: nat, action: Action, j: nat)
    requires Inv(s) && Step(s, t, i, action) && j < |t.threads|
    ensures ThreadOk(t.cache, t.threads[j])
  {
    FlightsGrow(s, t, i, action);
    assert ThreadOk(s.cache, s.threads[j]) && ThreadOk(s.cache, s.threads[i]);
    if j != i && s.threads[j].Parsing? {
      var f := s.threads[j].flight;
      assert Parses(s, j, f);
      assert !Parses(s, i, f);
    }
  }

  lemma OneParserStays(s: System, t: System, i: nat, action: Action)
    requires Inv(s) && Step(s, t, i, action)
    ensures OneParser(t)
  {
    hide Inv, Step;
    forall j: nat, k: nat, f: nat | Parses(t, j, f) && Parses(t, k, f) ensures j == k {
      NewParser(s, t, i, action, j, f);
      NewParser(s, t, i, action, k, f);
      assert OneParser(s) by {
        OneParserNow(s);
      }
    }
    forall f: nat | f < |t.cache.flights| && t.cache.flights[f].outcome.Pending?
      ensures exists j: nat :: Parses(t, j, f)
    {
      PendingIsParsed(s, t, i, action, f);
    }
  }

  lemma OneParserNow(s: System)
    requires Inv(s)
    ensures OneParser(s)
  {
  }

  lemma PendingIsParsed(s: System, t: System, i: nat, action: Action, f: nat)
    requires Inv(s) && Step(s, t, i, action) && f < |t.cache.flights| && t.cache.flights[f].outcome.Pending?
    ensures exists j: nat :: Parses(t, j, f)
  {
    assert ThreadOk(s.cache, s.threads[i]);
    if f < |s.cache.flights| {
      var j: nat :| Parses(s, j, f);
      assert j != i ==> Parses(t, j, f);
    } else {
      assert Parses(t, i, f);
    }
  }

  /** A parser after a step was one before, or took a new flight. */
  lemma NewParser(s: System, t: System, i: nat, action: Action, j: nat, f: nat)
    requires Inv(s) && Step(s, t, i, action) && Parses(t, j, f)
    ensures (Parses(s, j, f) && f < |s.cache.flights|) || (j == i && f == |s.cache.flights|)
  {
    assert ThreadOk(s.cache, s.threads[j]);
    assert j != i ==> Parses(s, j, f);
  }

  lemma JustifiedStays(s: System, t: System, i: nat, action: Action, j: nat)
    requires Inv(s) && Step(s, t, i, action) && j < |t.threads|
    ensures Justified(t.history, t.threads[j])
  {
    assert s.history <= t.history;
    assert Justified(s.history, s.threads[j]) && ThreadOk(s.cache, s.threads[i]);
    if j == i && t.threads[i].Returned? {
      if action.Look? || action.Wake? {
        var x := s.threads[i];
        assert x.signature in x.computed && Parse(x.path, x.signature, Parsed(t.threads[i].spec)) in t.history;
      }
    }
    if j == i && t.threads[i].Notifying? && action.EndParse? {
      var x := s.threads[i];
      assert x.signature in x.computed && Parse(x.path, x.signature, Parsed(action.parsed)) in t.history;
    }
    if j == i && t.threads[i].Notifying? && action.FailParse? {
      var x := s.threads[i];
      assert x.signature in x.computed && Parse(x.path, x.signature, Failed(action.exception)) in t.history;
    }
    if j == i && t.threads[i].Threw? {
      if action.Wake? {
        var x := s.threads[i];
        assert x.signature in x.computed && Parse(x.path, x.signature, Failed(t.threads[i].error)) in t.history;
      }
    }
  }

  lemma CacheStaysJustified(s: System, t: System, i: nat, action: Action)
    requires Inv(s) && Step(s, t, i, action)
    ensures CacheJustified(t.cache, t.history)
  {
    hide FlightsNamed, OneParser, WillBeWoken, Justified, Sleeps;
    assert ThreadOk(s.cache, s.threads[i]);
  }

  lemma EntriesStayBounded(s: System, t: System, i: nat, action: Action)
    requires Inv(s) && Step(s, t, i, action)
    ensures |t.cache.entries| <= MAX_CACHED_SPECS
  {
    hide FlightsNamed, OneParser, WillBeWoken, Justified, CacheJustified, ThreadOk, Sleeps;
    if action.Look? {
      RemovedIsSmaller(s.cache.entries, s.threads[i].path);
    }
  }

  lemma SleepersStayServed(s: System, t: System, i: nat, action: Action, k: nat)
    requires Inv(s) && Step(s, t, i, action) && k in t.asleep
    ensures WillBeWoken(t, k)
  {
    assert ThreadOk(s.cache, s.threads[i]);
    if k in s.asleep && !(k == i && action.Wake?) {
      assert WillBeWoken(s, k);
      var f := s.threads[k].flight;
      assert k == i ==> action.SpuriousWake?;
      FlightsGrow(s, t, i, action);
      if s.cache.flights[f].outcome.Pending? {
        if !t.cache.flights[f].outcome.Pending? {
          assert Parses(s, i, f);
          assert Notifies(t, i, f);
        }
      } else {
        var j: nat :| Notifies(s, j, f);
        assert action.NotifyAll? ==> k !in Waiters(s, s.threads[i].flight);
        assert Notifies(t, j, f);
      }
    }
  }

  lemma InvStep(s: System, t: System, i: nat, action: Action)
    requires Inv(s) && Step(s, t, i, action)
    ensures Inv(t)
  {
    hide *;
    forall k | k in t.asleep ensures WillBeWoken(t, k) {
      SleepersStayServed(s, t, i, action, k);
    }
    FlightsStayNamed(s, t, i, action);
    OneParserStays(s, t, i, action);
    CacheStaysJustified(s, t, i, action);
    EntriesStayBounded(s, t, i, action);
    forall j | 0 <= j < |t.threads| ensures ThreadOk(t.cache, t.threads[j]) && Justified(t.history, t.threads[j]) {
      ThreadsStayOk(s, t, i, action, j);
      JustifiedStays(s, t, i, action, j);
    }
    InvOf(t);
  }

  lemma InvOf(t: System)
    requires FlightsNamed(t.cache) && OneParser(t) && CacheJustified(t.cache, t.history)
    requires |t.cache.entries| <= MAX_CACHED_SPECS && forall k :: k in t.asleep ==> WillBeWoken(t, k)
    requires forall j :: 0 <= j < |t.threads| ==> ThreadOk(t.cache, t.threads[j]) && Justified(t.history, t.threads[j])
    ensures Inv(t)
  {
  }

  lemma InvInit(s: System)
    requires Init(s)
    ensures Inv(s)
  {
  }

  lemma InvNext(s: System, t: System)
    requires Inv(s) && Next(s, t)
    ensures Inv(t)
  {
    hide Inv, Step;
    var i: nat, action :| Step(s, t, i, action);
    InvStep(s, t, i, action);
  }

  /** The invariant holds in every state of every run. */
  lemma InvRun(states: seq<System>, k: nat)
    requires Running(states) && k < |states|
    ensures Inv(states[k])
  {
    hide Init, Next, Inv, Run;
    forall s | Init(s) ensures Inv(s) {
      InvInit(s);
    }
    forall s, t | Inv(s) && Next(s, t) ensures Inv(t) {
      InvNext(s, t);
    }
    Throughout(states, Init, Next, Inv, k);
  }

  // ---------------------------------------------------------- the theorems

  /** No two threads parse the same file at the same time. */
  lemma OneParsePerPath(states: seq<System>, k: nat, i: nat, j: nat)
    requires Running(states) && k < |states|
    requires i < |states[k].threads| && j < |states[k].threads|
    requires states[k].threads[i].Parsing? && states[k].threads[j].Parsing?
    requires states[k].threads[i].path == states[k].threads[j].path
    ensures i == j
  {
    InvRun(states, k);
    var s := states[k];
    assert ThreadOk(s.cache, s.threads[i]) && ThreadOk(s.cache, s.threads[j]);
    assert Parses(s, i, s.threads[i].flight) && Parses(s, j, s.threads[j].flight);
  }

  /** Whoever waits, waits for a flight that is done, or that exactly one thread is
      parsing. */
  lemma WaiterIsServed(states: seq<System>, k: nat, i: nat)
    requires Running(states) && k < |states| && i < |states[k].threads| && states[k].threads[i].Waiting?
    ensures var s, f := states[k], states[k].threads[i].flight;
            && f < |s.cache.flights| && s.cache.flights[f].path == s.threads[i].path
            && (!s.cache.flights[f].outcome.Pending?
                || exists j: nat :: Parses(s, j, f) && forall m: nat :: Parses(s, m, f) ==> m == j)
  {
    InvRun(states, k);
    var s, f := states[k], states[k].threads[i].flight;
    assert ThreadOk(s.cache, s.threads[i]);
    if s.cache.flights[f].outcome.Pending? {
      var j: nat :| Parses(s, j, f);
    }
  }

  /** A call returns a spec, or throws, only as a parse under a signature computed
      in that same call did. */
  lemma ResultsAreFresh(states: seq<System>, k: nat, i: nat)
    requires Running(states) && k < |states| && i < |states[k].threads|
    ensures Justified(states[k].history, states[k].threads[i])
  {
    InvRun(states, k);
  }

  /** At every unlock there are at most sixteen entries. */
  lemma CacheIsBounded(states: seq<System>, k: nat)
    requires Running(states) && k < |states|
    ensures |states[k].cache.entries| <= MAX_CACHED_SPECS
  {
    InvRun(states, k);
  }

  /** A spec just published is among them, and ends the flight others wait for. */
  lemma PublishedIsKept(s: System, t: System, i: nat, parsed: nat)
    requires Inv(s) && Step(s, t, i, EndParse(parsed))
    ensures var x := s.threads[i];
            && LookUp(t.cache, x.path, x.signature) == (t.cache, Hit(parsed))
            && x.path !in t.cache.inFlight
            && WakeUp(t.cache.flights[x.flight], x.signature) == Return(parsed)
  {
    assert ThreadOk(s.cache, s.threads[i]);
  }

  /** No wake-up is lost: whoever sleeps, waits for a flight that exactly one thread is
      parsing, or that a thread has ended and is about to notify it of. */
  lemma NoLostWakeup(states: seq<System>, k: nat, i: nat)
    requires Running(states) && k < |states| && i in states[k].asleep
    ensures var s := states[k];
            && i < |s.threads| && s.threads[i].Waiting?
            && var f := s.threads[i].flight;
               || (exists j: nat :: Parses(s, j, f) && forall m: nat :: Parses(s, m, f) ==> m == j)
               || (exists j: nat :: Notifies(s, j, f))
  {
    InvRun(states, k);
    assert WillBeWoken(states[k], i);
    WaiterIsServed(states, k, i);
  }

  /** A step that leads on: no spurious wake-up, and no falling asleep again after one. */
  ghost predicate LeadsOn(s: System, t: System, j: nat, action: Action) {
    Step(s, t, j, action) && !action.SpuriousWake? && t.threads[j] != s.threads[j]
  }

  /** While any call is unfinished, some unfinished call can make a step that leads on. */
  lemma SomeoneCanStep(states: seq<System>, k: nat, i: nat)
    requires Running(states) && k < |states| && i < |states[k].threads| && states[k].threads[i].InCall()
    ensures exists j: nat, t, action ::
              j < |states[k].threads| && states[k].threads[j].InCall() && LeadsOn(states[k], t, j, action)
  {
    InvRun(states, k);
    var s := states[k];
    assert ThreadOk(s.cache, s.threads[i]);
    if s.threads[i].Waiting? {
      var f := s.threads[i].flight;
      if s.cache.flights[f].outcome.Pending? {
        var j: nat :| Parses(s, j, f);
        CanStep(s, j);
      } else if i in s.asleep {
        assert WillBeWoken(s, i);
        var j: nat :| Notifies(s, j, f);
        CanStep(s, j);
      } else {
        CanStep(s, i);
      }
    } else {
      CanStep(s, i);
    }
  }

  lemma CanStep(s: System, j: nat)
    requires Inv(s) && j < |s.threads| && s.threads[j].InCall()
    requires s.threads[j].Waiting? ==>
               j !in s.asleep && !s.cache.flights[s.threads[j].flight].outcome.Pending?
    ensures exists t, action :: LeadsOn(s, t, j, action)
  {
    var x := s.threads[j];
    assert ThreadOk(s.cache, x);
    assert j !in s.asleep by {
      assert j in s.asleep ==> WillBeWoken(s, j);
    }
    var c := s.cache;
    var y, cache, asleep, history, action := x, c, s.asleep, s.history, Look;
    if x.Turning? {
      y, action := SignatureFailed(x.path), FailToSign;
    } else if x.Signed? {
      var (next, decision) := LookUp(c, x.path, x.signature);
      y, cache := AfterLook(x.path, x.computed, x.signature, decision), next;
      asleep := if MustSleep(next, y) then s.asleep + {j} else s.asleep;
    } else if x.Waiting? {
      y, action := AfterWake(x.path, x.computed, WakeUp(c.flights[x.flight], x.signature)), Wake;
    } else if x.Notifying? {
      y, action := AfterWake(x.path, x.computed, x.result), NotifyAll;
      asleep := s.asleep - Waiters(s, x.flight);
    } else {
      y, action := Notifying(x.path, x.computed, x.flight, Rethrow(0)), FailParse(0);
      cache := Cache(c.entries, c.inFlight - {x.path}, c.flights[x.flight := c.flights[x.flight].(outcome := Failed(0))]);
      history := s.history + {Parse(x.path, x.signature, Failed(0))};
    }
    var t := System(cache, s.threads[j := y], asleep, history);
    assert Step(s, t, j, action);
    assert LeadsOn(s, t, j, action);
  }

  ghost predicate Ended(s: System, f: nat, flight: Flight) {
    f < |s.cache.flights| && s.cache.flights[f] == flight && !flight.outcome.Pending?
  }

  lemma EndedStays(s: System, t: System, f: nat, flight: Flight)
    requires Inv(s) && Next(s, t) && Ended(s, f, flight)
    ensures Ended(t, f, flight)
  {
    hide Inv, Step;
    var i: nat, action :| Step(s, t, i, action);
    FlightsGrow(s, t, i, action);
  }

  /** How a flight ended never changes, so all who wait for it with its signature
      get the same result, in whatever state they wake. */
  lemma WaitersAgree(states: seq<System>, k: nat, m: nat, f: nat)
    requires Running(states) && k <= m < |states|
    requires f < |states[k].cache.flights| && !states[k].cache.flights[f].outcome.Pending?
    ensures f < |states[m].cache.flights| && states[m].cache.flights[f] == states[k].cache.flights[f]
  {
    hide Init, Next, Inv, Run;
    var flight := states[k].cache.flights[f];
    forall s | Init(s) ensures Inv(s) {
      InvInit(s);
    }
    forall s, t | Inv(s) && Next(s, t) ensures Inv(t) && (Ended(s, f, flight) ==> Ended(t, f, flight)) {
      InvNext(s, t);
      if Ended(s, f, flight) {
        EndedStays(s, t, f, flight);
      }
    }
    FromThenOn(states, Init, Next, Inv, s => Ended(s, f, flight), k, m);
  }
}
