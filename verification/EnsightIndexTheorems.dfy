/** What the EnSight index caches guarantee in every run: one builder for each key,
    one index for all callers, failed builds dropped by their own call, no deadlock. */
module EnsightIndexTheorems {
  import opened EnsightIndexCaches
  import opened Runs

  lemma InvInit(s: System)
    requires Init(s)
    ensures Inv(s)
  {
  }

  lemma InvNext(s: System, t: System)
    requires Inv(s) && Next(s, t)
    ensures Inv(t)
  {
    hide Inv, Step;
    var i: nat, action :| Step(s, t, i, action);
    InvStep(s, t, i, action);
  }

  /** The invariant holds in every state of every run. */
  lemma AlwaysInv(states: seq<System>, k: nat)
    requires Running(states) && k < |states|
    ensures Inv(states[k])
  {
    hide Init, Next, Inv, Run;
    forall s | Init(s) ensures Inv(s) {
      InvInit(s);
    }
    forall s, t | Inv(s) && Next(s, t) ensures Inv(t) {
      InvNext(s, t);
    }
    Throughout(states, Init, Next, Inv, k);
  }

  // ---------------------------------------------------------- the theorems

  /** Of the unfinished calls that build a key, or are about to drop it, there is one. */
  lemma OneBuilderPerKey(states: seq<System>, k: nat, i: nat, l: nat, f: nat, j: nat, m: nat, g: nat)
    requires Running(states) && k < |states|
    requires Owner(states[k], i, l, f) && Owner(states[k], j, m, g)
    requires states[k].threads[i][l].key == states[k].threads[j][m].key
    ensures i == j && l == m
  {
    AlwaysInv(states, k);
    var s := states[k];
    assert StackOk(s.caches, s.threads[i]) && StackOk(s.caches, s.threads[j]);
    assert FrameOk(s.caches, s.threads[i][l]) && FrameOk(s.caches, s.threads[j][m]);
  }

  lemma OneIndex(c: Caches, key: Key, a: nat, b: nat)
    requires CachesOk(c) && Delivered(c, key, a) && Delivered(c, key, b)
    ensures a == b
  {
    var f :| 0 <= f < |c.futures| && c.futures[f] == Future(key, Value(a));
    var g :| 0 <= g < |c.futures| && c.futures[g] == Future(key, Value(b));
    assert !c.futures[f].outcome.Exception? && !c.futures[g].outcome.Exception?;
  }

  /** All calls of a key that succeed, ever, get the same index; and every variable
      index is being built from the one index of its geometry file. */
  lemma SameIndexForAll(states: seq<System>, k: nat, key: Key, a: nat, b: nat)
    requires Running(states) && k < |states|
    requires (key, Value(a)) in states[k].history
    ensures (key, Value(b)) in states[k].history ==> a == b
    ensures forall i: nat, l: nat :: i < |states[k].threads| && l < |states[k].threads[i]| ==>
              var x := states[k].threads[i][l];
              x.phase.Scanning? && x.key.Var? && key == Geo(x.key.geoFile) ==> x.phase.geometry == a
  {
    AlwaysInv(states, k);
    var s := states[k];
    if (key, Value(b)) in s.history {
      OneIndex(s.caches, key, a, b);
    }
    forall i: nat, l: nat | i < |s.threads| && l < |s.threads[i]|
      ensures var x := s.threads[i][l]; x.phase.Scanning? && x.key.Var? && key == Geo(x.key.geoFile) ==> x.phase.geometry == a
    {
      var x := s.threads[i][l];
      assert StackOk(s.caches, s.threads[i]) && FrameOk(s.caches, x);
      if x.phase.Scanning? && x.key.Var? && key == Geo(x.key.geoFile) {
        OneIndex(s.caches, key, x.phase.geometry, a);
      }
    }
  }

  /** A step leaves a cached future where it is, unless its build failed and the
      step is that of the call that built it; the key is then built anew by the next
      call to look it up. */
  lemma DroppedByItsBuilder(s: System, t: System, i: nat, action: Action, key: Key)
    requires Inv(s) && Step(s, t, i, action) && key in s.caches.values
    ensures var f := s.caches.values[key];
            || (key in t.caches.values && t.caches.values[key] == f)
            || (&& f < |s.caches.futures| && s.caches.futures[f].outcome.Exception?
                && (exists l: nat :: Owner(s, i, l, f))
                && Shared(t.caches, key) == Missed && Unique(t.caches, key).1.Building?)
  {
    var change := StepChanges(s, t, i, action);
  }

  /** A failed build stays cached only while its own call is about to drop it. */
  lemma FailedIsBeingDropped(states: seq<System>, k: nat, key: Key)
    requires Running(states) && k < |states| && key in states[k].caches.values
    requires var f := states[k].caches.values[key];
             f < |states[k].caches.futures| && states[k].caches.futures[f].outcome.Exception?
    ensures exists i: nat, l: nat :: Owner(states[k], i, l, states[k].caches.values[key])
                                     && states[k].threads[i][l].phase.Failing?
  {
    AlwaysInv(states, k);
    var s := states[k];
    assert CachedUnbuilt(s.caches, key);
    var i: nat, l: nat :| Owner(s, i, l, s.caches.values[key]);
    assert StackOk(s.caches, s.threads[i]) && FrameOk(s.caches, s.threads[i][l]);
  }

  // ------------------------------------------------------ freedom of deadlock

  ghost predicate CanStep(s: System, i: nat) {
    exists t, action :: Step(s, t, i, action)
  }

  /** A call on top of a stack that does not wait for an unfinished future can step. */
  lemma TopCanStep(s: System, i: nat)
    requires Inv(s) && i < |s.threads| && s.threads[i] != []
    requires var x := s.threads[i][|s.threads[i]| - 1].phase;
             x.Waiting? ==> !s.caches.futures[x.future].outcome.Pending?
    ensures CanStep(s, i)
  {
    var c, a := s.caches, s.threads[i];
    assert StackOk(c, a);
    var l := |a| - 1;
    var x := a[l];
    assert FrameOk(c, x) && FrameOk(c, a[0]);
    if x.phase.Done? {
      DoneCanStep(s, i);
    } else if x.phase.Building? && x.key.Var? {
      NeedsGeometry(s, i);
    } else {
      hide Inv, StackOk, CanStep;
      match x.phase {
        case Enter => TopSteps(s, i, c, Shared(c, x.key), LookUpShared);
        case Missed => TopSteps(s, i, Unique(c, x.key).0, Unique(c, x.key).1, LookUpUnique);
        case Waiting(f) => TopSteps(s, i, c, Done(c.futures[f].outcome), Get);
        case Failing(f, e) => TopSteps(s, i, Dropped(c, x.key), Done(Exception(e)), Drop);
        case Building(f) => TopSteps(s, i, Resolve(c, f, Value(0)), Done(Value(0)), Succeed(0));
        case Scanning(f, _) => TopSteps(s, i, Resolve(c, f, Value(0)), Done(Value(0)), Succeed(0));
      }
    }
  }

  lemma NeedsGeometry(s: System, i: nat)
    requires i < |s.threads| && |s.threads[i]| == 1 && s.threads[i][0].key.Var? && s.threads[i][0].phase.Building?
    ensures CanStep(s, i)
  {
    var x := s.threads[i][0];
    var b := [x, Frame(Geo(x.key.geoFile), Enter)];
    assert Step(s, System(s.caches, s.threads[i := b], s.history), i, NeedGeometry);
  }

  lemma DoneCanStep(s: System, i: nat)
    requires i < |s.threads| && StackOk(s.caches, s.threads[i]) && s.threads[i] != []
    requires s.threads[i][|s.threads[i]| - 1].phase.Done?
    ensures CanStep(s, i)
  {
    var c, a := s.caches, s.threads[i];
    var l := |a| - 1;
    var outcome := a[l].phase.outcome;
    var history := s.history + {(a[l].key, outcome)};
    assert FrameOk(c, a[l]) && FrameOk(c, a[0]);
    if l == 0 {
      assert Step(s, System(c, s.threads[i := []], history), i, Return);
    } else {
      var f := a[0].phase.future;
      var d := if outcome.Value? then c else Resolve(c, f, outcome);
      var y := if outcome.Value? then Scanning(f, outcome.index) else Failing(f, outcome.error);
      assert Step(s, System(d, s.threads[i := [Frame(a[0].key, y)]], history), i, ReturnGeometry);
    }
  }

  lemma TopSteps(s: System, i: nat, d: Caches, y: Phase, action: Action)
    requires i < |s.threads| && s.threads[i] != []
    requires !action.Call? && !action.NeedGeometry? && !action.Return? && !action.ReturnGeometry?
    requires var x := s.threads[i][|s.threads[i]| - 1]; TopActs(s.caches, d, x.key, x.phase, y, action)
    ensures CanStep(s, i)
  {
    hide TopActs;
    var a := s.threads[i];
    var b := a[|a| - 1 := Frame(a[|a| - 1].key, y)];
    assert Step(s, System(d, s.threads[i := b], s.history), i, action);
  }

  /** Whoever owns an unfinished geometry future is on top of its stack and can step. */
  lemma GeometryOwnerCanStep(s: System, i: nat, l: nat, f: nat)
    requires Inv(s) && Owner(s, i, l, f) && s.threads[i][l].key.Geo?
    ensures CanStep(s, i)
  {
    assert StackOk(s.caches, s.threads[i]) && FrameOk(s.caches, s.threads[i][l]);
    TopCanStep(s, i);
  }

  lemma PendingHasOwner(s: System, f: nat) returns (i: nat, l: nat)
    requires Inv(s) && f < |s.caches.futures| && s.caches.futures[f].outcome.Pending?
    ensures Owner(s, i, l, f) && s.threads[i][l].key == s.caches.futures[f].key
  {
    var k := s.caches.futures[f].key;
    assert CachedUnbuilt(s.caches, k) && HasOwner(s, s.caches.values[k]);
    i, l :| Owner(s, i, l, f);
    assert StackOk(s.caches, s.threads[i]) && FrameOk(s.caches, s.threads[i][l]);
  }

  lemma WaiterForGeometry(s: System, f: nat) returns (j: nat)
    requires Inv(s) && f < |s.caches.futures| && s.caches.futures[f].key.Geo? && s.caches.futures[f].outcome.Pending?
    ensures j < |s.threads| && s.threads[j] != [] && CanStep(s, j)
  {
    var i, l := PendingHasOwner(s, f);
    GeometryOwnerCanStep(s, i, l, f);
    j := i;
  }

  /** While a call is unfinished, some unfinished call can make a step: variable
      builds wait only for geometry builds, which wait for nothing. */
  lemma SomeoneCanStep(states: seq<System>, k: nat, i: nat)
    requires Running(states) && k < |states| && i < |states[k].threads| && states[k].threads[i] != []
    ensures exists j: nat :: j < |states[k].threads| && states[k].threads[j] != [] && CanStep(states[k], j)
  {
    AlwaysInv(states, k);
    var s := states[k];
    var a := s.threads[i];
    assert StackOk(s.caches, a) && FrameOk(s.caches, a[|a| - 1]);
    var x := a[|a| - 1];
    if x.phase.Waiting? && s.caches.futures[x.phase.future].outcome.Pending? {
      var f := x.phase.future;
      if x.key.Geo? {
        var j := WaiterForGeometry(s, f);
      } else {
        VariableWaiter(s, f);
      }
    } else {
      TopCanStep(s, i);
    }
  }

  lemma VariableWaiter(s: System, f: nat)
    requires Inv(s) && f < |s.caches.futures| && s.caches.futures[f].key.Var? && s.caches.futures[f].outcome.Pending?
    ensures exists j: nat :: j < |s.threads| && s.threads[j] != [] && CanStep(s, j)
  {
    var i, l := PendingHasOwner(s, f);
    var b := s.threads[i];
    assert StackOk(s.caches, b);
    var y := b[|b| - 1];
    assert FrameOk(s.caches, y);
    if y.phase.Waiting? && s.caches.futures[y.phase.future].outcome.Pending? {
      assert y.key.Geo?;
      var j := WaiterForGeometry(s, y.phase.future);
    } else {
      TopCanStep(s, i);
    }
  }
}
