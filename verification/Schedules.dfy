/** How parallel loops divide work: the contiguous split of VTK and EnSight reads,
    the strided split of OpenFOAM reads, and why the order of the pieces is free. */
module Schedules {

  /** The start of task `t` when `n` items go to `tasks` tasks: floor(n * t / tasks). */
  function Split(n: nat, tasks: nat, t: nat): (first: nat)
    requires tasks > 0
  {
    n * t / tasks
  }

  /** The order in which a parallel loop starts its tasks: any permutation. */
  ghost predicate Permutes(order: seq<nat>, n: nat) {
    && |order| == n
    && (forall k :: 0 <= k < n ==> order[k] < n)
    && (forall t :: 0 <= t < n ==> t in order)
    && (forall j, k :: 0 <= j < k < n ==> order[j] != order[k])
  }

  /** A scheduler of parallel loops, for loops of every length. */
  ghost predicate IsScheduler(order: nat -> seq<nat>) {
    forall n :: Permutes(order(n), n)
  }

  lemma MulAtLeast(d: nat, k: int)
    ensures k >= 1 ==> d * k >= d
    ensures k <= -1 ==> d * k + d <= 0
  {
  }

  lemma MulDistributes(d: int, x: int, y: int)
    ensures d * (x - y) == d * x - d * y
    ensures d * (x + y) == d * x + d * y
  {
  }

  lemma DivModIs(a: nat, d: nat)
    requires d > 0
    ensures a == d * (a / d) + a % d && 0 <= a % d < d
  {
  }

  /** Two quotients with remainders of nearby numbers. */
  lemma QuotientOrder(d: nat, q: int, r: int, p: int, s: int)
    requires 0 <= r < d && 0 <= s < d && d * q + r <= d * p + s
    ensures q <= p
    ensures d * q + r == d * p + s ==> q == p && r == s
  {
    MulAtLeast(d, q - p);
    MulDistributes(d, q, p);
  }

  lemma DivMonotone(a: nat, b: nat, d: nat)
    requires a <= b && d > 0
    ensures a / d <= b / d
  {
    DivModIs(a, d);
    DivModIs(b, d);
    QuotientOrder(d, a / d, a % d, b / d, b % d);
  }

  lemma ModUnique(a: nat, d: nat, q: nat, r: nat)
    requires d > 0 && r < d && a == d * q + r
    ensures a % d == r && a / d == q
  {
    DivModIs(a, d);
    QuotientOrder(d, a / d, a % d, q, r);
  }

  lemma MulMonotone(n: nat, t: nat, u: nat)
    requires t <= u
    ensures n * t <= n * u
  {
    MulDistributes(n, u, t);
  }

  lemma SplitMonotone(n: nat, tasks: nat, t: nat, u: nat)
    requires tasks > 0 && t <= u
    ensures Split(n, tasks, t) <= Split(n, tasks, u)
  {
    MulMonotone(n, t, u);
    DivMonotone(n * t, n * u, tasks);
  }

  lemma SplitEnds(n: nat, tasks: nat)
    requires tasks > 0
    ensures Split(n, tasks, 0) == 0 && Split(n, tasks, tasks) == n
  {
    ModUnique(n * 0, tasks, 0, 0);
    ModUnique(n * tasks, tasks, n, 0);
  }

  lemma SplitInRange(n: nat, tasks: nat, t: nat)
    requires t < tasks
    ensures 0 <= Split(n, tasks, t) <= Split(n, tasks, t + 1) <= n
  {
    SplitEnds(n, tasks);
    SplitMonotone(n, tasks, t, t + 1);
    SplitMonotone(n, tasks, t + 1, tasks);
  }

  /** Every item lies in exactly one task's range. */
  lemma SplitOwner(n: nat, tasks: nat, c: nat) returns (t: nat)
    requires tasks > 0 && c < n
    ensures t < tasks && Split(n, tasks, t) <= c < Split(n, tasks, t + 1)
    ensures forall u: nat | u < tasks && Split(n, tasks, u) <= c < Split(n, tasks, u + 1) :: u == t
  {
    SplitEnds(n, tasks);
    t := 0;
    while Split(n, tasks, t + 1) <= c
      invariant t < tasks && Split(n, tasks, t) <= c
      decreases tasks - t
    {
      if t + 1 == tasks {
        assert false;
      }
      t := t + 1;
    }
    forall u: nat | u < tasks && Split(n, tasks, u) <= c < Split(n, tasks, u + 1) ensures u == t {
      if u < t {
        SplitMonotone(n, tasks, u + 1, t);
      } else if t < u {
        SplitMonotone(n, tasks, t + 1, u);
      }
    }
  }

  /** The one task whose range holds item `c`. */
  ghost function TaskOf(n: nat, tasks: nat, c: nat): (t: nat)
    requires tasks > 0 && c < n
    ensures t < tasks
  {
    assert exists t: nat :: t < tasks && Split(n, tasks, t) <= c < Split(n, tasks, t + 1) by {
      var t := SplitOwner(n, tasks, c);
    }
    var t: nat :| t < tasks && Split(n, tasks, t) <= c < Split(n, tasks, t + 1);
    t
  }

  lemma TaskOfExact(n: nat, tasks: nat, c: nat, u: nat)
    requires u < tasks && c < n
    ensures TaskOf(n, tasks, c) == u <==> Split(n, tasks, u) <= c < Split(n, tasks, u + 1)
  {
    var t := SplitOwner(n, tasks, c);
  }

  /** The chunks task `t` visits when it strides by the number of tasks. */
  function Strided(t: nat, tasks: nat, chunkCount: nat): seq<nat>
    requires tasks > 0
    decreases chunkCount - t
  {
    if t >= chunkCount then [] else [t] + Strided(t + tasks, tasks, chunkCount)
  }

  lemma CountCons(t: nat, rest: seq<nat>, c: nat)
    ensures multiset([t] + rest)[c] == (if c == t then 1 else 0) + multiset(rest)[c]
  {
    assert multiset([t] + rest) == multiset{t} + multiset(rest);
  }

  /** The strided tasks share out the chunks: a chunk belongs to the task of its
      remainder, which visits it once. */
  lemma {:induction false} StridedOwner(t: nat, tasks: nat, chunkCount: nat, c: nat)
    requires tasks > 0
    ensures multiset(Strided(t, tasks, chunkCount))[c] ==
            if t <= c < chunkCount && c % tasks == t % tasks then 1 else 0
    decreases chunkCount - t
  {
    if t < chunkCount {
      StrideStep(t, tasks, c);
      StridedOwner(t + tasks, tasks, chunkCount, c);
      CountCons(t, Strided(t + tasks, tasks, chunkCount), c);
    }
  }

  lemma ModShift(t: nat, d: nat)
    requires d > 0
    ensures (t + d) % d == t % d
  {
    DivModIs(t, d);
    MulDistributes(d, t / d, 1);
    ModUnique(t + d, d, t / d + 1, t % d);
  }

  lemma ModInjective(t: nat, c: nat, d: nat)
    requires d > 0 && t < c < t + d
    ensures c % d != t % d
  {
    var q, r := t / d, t % d + (c - t);
    DivModIs(t, d);
    MulDistributes(d, q, 1);
    if r < d {
      ModUnique(c, d, q, r);
    } else {
      ModUnique(c, d, q + 1, r - d);
    }
  }

  /** The numbers of one remainder from `t` on are `t` and those from `t + d` on. */
  lemma StrideStep(t: nat, d: nat, c: nat)
    requires d > 0
    ensures t <= c && c % d == t % d <==> c == t || (t + d <= c && c % d == (t + d) % d)
  {
    ModShift(t, d);
    if t < c < t + d {
      ModInjective(t, c, d);
    }
  }

  // ----------------------------------------------------------------- chunks

  function Min(a: nat, b: nat): nat {
    if a < b then a else b
  }

  /** The chunk an item lies in, with chunks of `per` items. */
  function ChunkOf(i: nat, per: nat): nat
    requires per > 0
  {
    i / per
  }

  // ------------------------------------------------------- chunks of a count

  function ChunkCount(count: nat, per: nat): nat
    requires per > 0
  {
    (count + per - 1) / per
  }

  /** The items of a chunk are those whose number divided by its size is the chunk's. */
  lemma ChunkHolds(per: nat, chunk: nat, i: nat)
    requires per > 0
    ensures ChunkOf(i, per) == chunk <==> chunk * per <= i < chunk * per + per
  {
    DivModIs(i, per);
    if chunk * per <= i < chunk * per + per {
      ModUnique(i, per, chunk, i - chunk * per);
    }
  }

  /** Every chunk has an item, and every item a chunk. */
  lemma ChunksCover(count: nat, per: nat, c: nat)
    requires per > 0
    ensures c < ChunkCount(count, per) ==> c * per < count
    ensures c < count ==> ChunkOf(c, per) < ChunkCount(count, per)
  {
    var n := ChunkCount(count, per);
    DivModIs(count + per - 1, per);
    if c < n {
      MulMonotone(per, c + 1, n);
      MulDistributes(per, c, 1);
    }
    if c < count {
      DivModIs(c, per);
      MulDistributes(per, c / per, 1);
      DivMonotone(c + per, count + per - 1, per);
      ModUnique(c + per, per, c / per + 1, c % per);
    }
  }

  lemma {:induction false} StridedVisits(t: nat, tasks: nat, chunkCount: nat, c: nat)
    requires tasks > 0
    ensures c in Strided(t, tasks, chunkCount) <==> t <= c < chunkCount && c % tasks == t % tasks
  {
    StridedOwner(t, tasks, chunkCount, c);
    assert c in Strided(t, tasks, chunkCount) <==> c in multiset(Strided(t, tasks, chunkCount));
  }

  /** The chunks of a task of the contiguous split. */
  function SplitChunks(t: nat, tasks: nat, chunkCount: nat): (r: seq<nat>)
    requires tasks > 0
    ensures forall c :: c in r <==> Split(chunkCount, tasks, t) <= c < Split(chunkCount, tasks, t + 1)
  {
    Range(Split(chunkCount, tasks, t), Split(chunkCount, tasks, t + 1))
  }

  function Range(lo: nat, hi: nat): (r: seq<nat>)
    ensures forall c :: c in r <==> lo <= c < hi
    decreases hi - lo
  {
    if lo >= hi then [] else [lo] + Range(lo + 1, hi)
  }

  /** Every chunk is a step of some strided task. */
  lemma StridedCovers(tasks: nat, chunkCount: nat, c: nat)
    requires tasks > 0 && c < chunkCount
    ensures c % tasks < tasks && c in Strided(c % tasks, tasks, chunkCount)
  {
    var t := c % tasks;
    DivModIs(c, tasks);
    MulMonotone(tasks, 0, c / tasks);
    ModUnique(t, tasks, 0, t);
    StridedVisits(t, tasks, chunkCount, c);
  }
}
