/** The chunk reads of parallel tasks, interleaved in any way, where any of them may
    fail: a flag then makes the other tasks give up what they have not begun. */
module ParallelReads {
  import opened Runs
  import opened Schedules

  /** A parallel read under way: the target, the failure flag, and the chunks that each
      task has still to read. */
  datatype Reading<T> = Reading(values: seq<T>, failed: bool, todo: seq<seq<nat>>)

  /** Reading one chunk, of `per` elements: its elements become right, or it fails,
      which happens only to an incomplete array; no other element changes. */
  ghost predicate ReadsChunk<T(!new)>(
      right: (T, nat) -> bool, complete: bool, per: nat, before: seq<T>, after: seq<T>, chunk: nat, ok: bool)
    requires per > 0
  {
    && |after| == |before| && (!ok ==> !complete)
    && forall i: nat :: i < |after| ==> ElementRead(right, per, before, after, chunk, ok, i)
  }

  ghost predicate ElementRead<T(!new)>(
      right: (T, nat) -> bool, per: nat, before: seq<T>, after: seq<T>, chunk: nat, ok: bool, i: nat)
    requires per > 0 && i < |after| == |before|
  {
    if ChunkOf(i, per) == chunk then ok ==> right(after[i], i) else after[i] == before[i]
  }

  /** A task reads its next chunk, and gives up if that fails. */
  ghost predicate Reads<T(!new)>(
      right: (T, nat) -> bool, complete: bool, per: nat, s: Reading<T>, s': Reading<T>, task: nat, ok: bool)
    requires per > 0
  {
    && task < |s.todo| && s.todo[task] != []
    && ReadsChunk(right, complete, per, s.values, s'.values, s.todo[task][0], ok)
    && s'.failed == (s.failed || !ok)
    && s'.todo == s.todo[task := if ok then s.todo[task][1..] else []]
  }

  /** A task sees the flag and leaves its other chunks alone. */
  ghost predicate GivesUp<T(!new)>(s: Reading<T>, s': Reading<T>, task: nat) {
    task < |s.todo| && s.failed && s' == s.(todo := s.todo[task := []])
  }

  ghost predicate Next<T(!new)>(right: (T, nat) -> bool, complete: bool, per: nat, s: Reading<T>, s': Reading<T>)
    requires per > 0
  {
    || (exists task, ok :: Reads(right, complete, per, s, s', task, ok))
    || exists task :: GivesUp(s, s', task)
  }

  ghost predicate Init<T(!new)>(count: nat, todo: seq<seq<nat>>, s: Reading<T>) {
    |s.values| == count && !s.failed && s.todo == todo
  }

  /** Some task has the chunk still to read. */
  ghost predicate Waiting(todo: seq<seq<nat>>, chunk: nat) {
    exists task: nat :: task < |todo| && chunk in todo[task]
  }

  /** While nothing has failed, an element is right or its chunk is still to be read. */
  ghost predicate Inv<T(!new)>(right: (T, nat) -> bool, complete: bool, per: nat, count: nat, s: Reading<T>)
    requires per > 0
  {
    && |s.values| == count
    && (s.failed ==> !complete)
    && (!s.failed ==> forall i: nat :: i < count ==> right(s.values[i], i) || Waiting(s.todo, ChunkOf(i, per)))
  }

  lemma ReadsKeepsInv<T(!new)>(
      right: (T, nat) -> bool, complete: bool, per: nat, count: nat, s: Reading<T>, s': Reading<T>, task: nat, ok: bool)
    requires per > 0 && Inv(right, complete, per, count, s) && Reads(right, complete, per, s, s', task, ok)
    ensures Inv(right, complete, per, count, s')
  {
    hide ChunkOf;
    if !s'.failed {
      forall i: nat | i < count ensures right(s'.values[i], i) || Waiting(s'.todo, ChunkOf(i, per)) {
        var chunk := ChunkOf(i, per);
        assert ElementRead(right, per, s.values, s'.values, s.todo[task][0], ok, i);
        if chunk != s.todo[task][0] && !right(s.values[i], i) {
          var t: nat :| t < |s.todo| && chunk in s.todo[t];
          assert s.todo[task] == [s.todo[task][0]] + s.todo[task][1..];
          assert chunk in s'.todo[t];
        }
      }
    }
  }

  ghost predicate Covered(todo: seq<seq<nat>>, chunkCount: nat) {
    forall c: nat :: c < chunkCount ==> Waiting(todo, c)
  }

  lemma InvInit<T(!new)>(
      right: (T, nat) -> bool, complete: bool, per: nat, count: nat, todo: seq<seq<nat>>, s: Reading<T>)
    requires per > 0 && Covered(todo, ChunkCount(count, per)) && Init(count, todo, s)
    ensures Inv(right, complete, per, count, s)
  {
    hide ChunkOf, ChunkCount;
    forall i: nat | i < count ensures Waiting(s.todo, ChunkOf(i, per)) {
      ChunksCover(count, per, i);
    }
  }

  /** The states of a parallel read, from the first on. */
  ghost predicate Running<T(!new)>(
      right: (T, nat) -> bool, complete: bool, per: nat, count: nat, todo: seq<seq<nat>>, states: seq<Reading<T>>)
    requires per > 0
  {
    Run(states, s => Init(count, todo, s), (s, s') => Next(right, complete, per, s, s'))
  }

  ghost predicate Finished<T(!new)>(s: Reading<T>) {
    forall task: nat :: task < |s.todo| ==> s.todo[task] == []
  }

  lemma InvRun<T(!new)>(
      right: (T, nat) -> bool, complete: bool, per: nat, count: nat, todo: seq<seq<nat>>, states: seq<Reading<T>>, k: nat)
    requires per > 0 && Covered(todo, ChunkCount(count, per))
    requires Running(right, complete, per, count, todo, states) && k < |states|
    ensures Inv(right, complete, per, count, states[k])
  {
    hide ChunkOf, ChunkCount, Covered;
    var init: Reading<T> -> bool := s => Init(count, todo, s);
    var next: (Reading<T>, Reading<T>) -> bool := (s, s') => Next(right, complete, per, s, s');
    var inv: Reading<T> -> bool := s => Inv(right, complete, per, count, s);
    forall s | init(s) ensures inv(s) {
      InvInit(right, complete, per, count, todo, s);
    }
    forall s, s' | inv(s) && next(s, s') ensures inv(s') {
      if task, ok :| Reads(right, complete, per, s, s', task, ok) {
        ReadsKeepsInv(right, complete, per, count, s, s', task, ok);
      }
    }
    Throughout(states, init, next, inv, k);
  }

  /** However the chunk reads interleave, once the tasks are done the read has failed
      exactly if the array is incomplete, and has otherwise made every element right. */
  lemma AnyInterleaving<T(!new)>(
      right: (T, nat) -> bool, complete: bool, per: nat, count: nat, todo: seq<seq<nat>>, states: seq<Reading<T>>, k: nat)
    requires per > 0 && Covered(todo, ChunkCount(count, per))
    requires forall x, i :: right(x, i) && i == count - 1 ==> complete
    requires Running(right, complete, per, count, todo, states) && k < |states| && Finished(states[k])
    requires count > 0
    ensures states[k].failed <==> !complete
    ensures |states[k].values| == count
    ensures complete ==> forall i: nat :: i < count ==> right(states[k].values[i], i)
  {
    hide ChunkOf, ChunkCount, Covered, Running;
    InvRun(right, complete, per, count, todo, states, k);
    var s := states[k];
    if !s.failed {
      forall i: nat | i < count ensures right(s.values[i], i) {
        assert !Waiting(s.todo, ChunkOf(i, per));
      }
      var last: nat := count - 1;
      assert right(s.values[last], last);
    }
  }

  // ---------------------------------------------------- how work is shared out

  function SplitTasks(tasks: nat, chunkCount: nat): (todo: seq<seq<nat>>)
    requires tasks > 0
    ensures |todo| == tasks && forall t :: 0 <= t < tasks ==> todo[t] == SplitChunks(t, tasks, chunkCount)
  {
    seq(tasks, t requires 0 <= t < tasks => SplitChunks(t, tasks, chunkCount))
  }

  function StridedTasks(tasks: nat, chunkCount: nat): (todo: seq<seq<nat>>)
    requires tasks > 0
    ensures |todo| == tasks && forall t :: 0 <= t < tasks ==> todo[t] == Strided(t, tasks, chunkCount)
  {
    seq(tasks, t requires 0 <= t < tasks => Strided(t, tasks, chunkCount))
  }

  lemma SplitCovered(tasks: nat, chunkCount: nat)
    requires tasks > 0
    ensures Covered(SplitTasks(tasks, chunkCount), chunkCount)
  {
    hide Split;
    var todo := SplitTasks(tasks, chunkCount);
    forall c: nat | c < chunkCount ensures Waiting(todo, c) {
      var t := SplitOwner(chunkCount, tasks, c);
      assert c in todo[t];
    }
  }

  lemma StridedCovered(tasks: nat, chunkCount: nat)
    requires tasks > 0
    ensures Covered(StridedTasks(tasks, chunkCount), chunkCount)
  {
    hide Strided;
    var todo := StridedTasks(tasks, chunkCount);
    forall c: nat | c < chunkCount ensures Waiting(todo, c) {
      StridedCovers(tasks, chunkCount, c);
      assert c in todo[c % tasks];
    }
  }
}
