/** Reading binary arrays chunk by chunk in parallel tasks: the contiguous split of the
    EnSight reader, also for planar vectors, and the strided split of the OpenFOAM
    reader. Array elements are kept as the bytes that encode them. */
module ChunkedReaders {
  import opened Bytes
  import opened Wrappers
  import opened Words
  import opened ParallelReads
  import opened Schedules

  const READ_GRAIN_BYTES: nat := 0x10_0000

  type pattern = seq<byte>

  // ------------------------------------------------------------- elements

  /** Element `i` of an array at `offset` starts here. */
  function ItemPos(offset: nat, sz: nat, i: nat): nat {
    offset + i * sz
  }

  predicate InFile(file: seq<byte>, offset: nat, sz: nat, i: nat) {
    ItemPos(offset, sz, i) + sz <= |file|
  }

  /** Element `i` as its array holds it: reversed, when the file's byte order differs. */
  function Item(file: seq<byte>, offset: nat, sz: nat, swap: bool, i: nat): pattern
    requires InFile(file, offset, sz, i)
  {
    var bytes := file[ItemPos(offset, sz, i)..ItemPos(offset, sz, i) + sz];
    if swap then Reverse(bytes) else bytes
  }

  /** The whole array lies in the file. */
  predicate Complete(file: seq<byte>, offset: nat, sz: nat, count: nat) {
    count == 0 || InFile(file, offset, sz, count - 1)
  }

  /** Element `i` of the array in the file is element `at + i` of the data. */
  ghost predicate Loaded(file: seq<byte>, offset: nat, sz: nat, swap: bool, data: array<pattern>, at: nat, i: nat)
    reads data
  {
    InFile(file, offset, sz, i) && at + i < data.Length && data[at + i] == Item(file, offset, sz, swap, i)
  }

  lemma ItemShifted(offset: nat, sz: nat, first: nat, k: nat)
    ensures ItemPos(ItemPos(offset, sz, first), sz, k) == ItemPos(offset, sz, first + k)
  {
    MulDistributes(sz, first, k);
  }

  lemma LoadedShifted(
      file: seq<byte>, offset: nat, sz: nat, swap: bool, data: array<pattern>, at: nat, first: nat, k: nat)
    ensures Loaded(file, ItemPos(offset, sz, first), sz, swap, data, at + first, k) ==
            Loaded(file, offset, sz, swap, data, at, first + k)
  {
    ItemShifted(offset, sz, first, k);
    hide ItemPos;
  }

  lemma InFileBelow(file: seq<byte>, offset: nat, sz: nat, i: nat, j: nat)
    requires i <= j && InFile(file, offset, sz, j)
    ensures InFile(file, offset, sz, i)
  {
    MulMonotone(sz, i, j);
  }

  /** Part of a complete array is complete. */
  lemma PartComplete(file: seq<byte>, offset: nat, sz: nat, count: nat, first: nat, n: nat)
    requires first + n <= count && Complete(file, offset, sz, count)
    ensures Complete(file, ItemPos(offset, sz, first), sz, n)
  {
    if n > 0 {
      ItemShifted(offset, sz, first, n - 1);
      InFileBelow(file, offset, sz, first + n - 1, count - 1);
    }
  }

  // --------------------------------------------------------------- one read

  method ReadContiguousBinary(file: seq<byte>, offset: nat, sz: nat, data: array<pattern>, at: nat, count: nat)
    returns (ok: bool)
    requires at + count <= data.Length
    modifies data
    ensures ok <==> Complete(file, offset, sz, count)
    ensures ok ==> forall i :: 0 <= i < count ==> Loaded(file, offset, sz, false, data, at, i)
    ensures forall k :: 0 <= k < data.Length && !(at <= k < at + count) ==> data[k] == old(data[k])
  {
    hide ItemPos;
    ok := Complete(file, offset, sz, count);
    if ok {
      forall i | 0 <= i < count ensures InFile(file, offset, sz, i) {
        InFileBelow(file, offset, sz, i, count - 1);
      }
      forall i | 0 <= i < count {
        data[at + i] := Item(file, offset, sz, false, i);
      }
    }
  }

  /** Reverses the bytes of each element where it stands. */
  method ByteSwapInPlace(data: array<pattern>, at: nat, count: nat)
    requires at + count <= data.Length
    modifies data
    ensures forall k :: 0 <= k < data.Length ==>
              data[k] == if at <= k < at + count then Reverse(old(data[k])) else old(data[k])
  {
    for i := 0 to count
      invariant forall k :: 0 <= k < data.Length ==>
                  data[k] == if at <= k < at + i then Reverse(old(data[k])) else old(data[k])
    {
      data[at + i] := Reverse(data[at + i]);
    }
  }

  method ReadContiguousSwapping(
      file: seq<byte>, offset: nat, sz: nat, swapEndian: bool, data: array<pattern>, at: nat, count: nat)
    returns (ok: bool)
    requires at + count <= data.Length
    modifies data
    ensures ok <==> Complete(file, offset, sz, count)
    ensures ok ==> forall i :: 0 <= i < count ==> Loaded(file, offset, sz, swapEndian, data, at, i)
    ensures forall k :: 0 <= k < data.Length && !(at <= k < at + count) ==> data[k] == old(data[k])
  {
    hide ItemPos, Complete, InFile;
    ok := ReadContiguousBinary(file, offset, sz, data, at, count);
    if ok && swapEndian {
      label read:
      ByteSwapInPlace(data, at, count);
      forall i | 0 <= i < count ensures Loaded(file, offset, sz, true, data, at, i) {
        assert old@read(Loaded(file, offset, sz, false, data, at, i));
      }
    }
  }

  // -------------------------------------------------------------- one chunk

  method ReadChunk(
      file: seq<byte>, offset: nat, sz: nat, swap: bool, values: array<pattern>, per: nat, chunk: nat)
    returns (ok: bool)
    requires per > 0 && chunk < ChunkCount(values.Length, per)
    modifies values
    ensures !ok ==> !Complete(file, offset, sz, values.Length)
    ensures forall i :: 0 <= i < values.Length ==>
              if ChunkOf(i, per) == chunk then ok ==> Loaded(file, offset, sz, swap, values, 0, i)
              else values[i] == old(values[i])
    ensures ReadsChunk(
              IsItem(file, offset, sz, swap), Complete(file, offset, sz, values.Length), per, old(values[..]), values[..],
              chunk, ok)
  {
    hide ChunkOf, ChunkCount, ItemPos, Complete, Loaded, InFile;
    var first := chunk * per;
    ChunksCover(values.Length, per, chunk);
    var n := Min(per, values.Length - first);
    PartOfValues(file, offset, sz, values.Length, first, n);
    ok := ReadContiguousSwapping(file, ItemPos(offset, sz, first), sz, swap, values, first, n);
    forall i | 0 <= i < values.Length
      ensures ChunkOf(i, per) == chunk <==> first <= i < first + n
      ensures ok && first <= i < first + n ==> Loaded(file, offset, sz, swap, values, 0, i)
    {
      ChunkHolds(per, chunk, i);
      if first <= i < first + n {
        LoadedShifted(file, offset, sz, swap, values, 0, first, i - first);
      }
    }
    forall i: nat | i < values.Length
      ensures ElementRead(IsItem(file, offset, sz, swap), per, old(values[..]), values[..], chunk, ok, i)
    {
      if ok && ChunkOf(i, per) == chunk {
        LoadedIsItem(file, offset, sz, swap, values, i);
      }
    }
  }

  /** An array element is the one the file has in its place. */
  ghost function IsItem(file: seq<byte>, offset: nat, sz: nat, swap: bool): (pattern, nat) -> bool {
    (x: pattern, i: nat) => InFile(file, offset, sz, i) && x == Item(file, offset, sz, swap, i)
  }

  lemma LoadedIsItem(file: seq<byte>, offset: nat, sz: nat, swap: bool, values: array<pattern>, i: nat)
    requires Loaded(file, offset, sz, swap, values, 0, i)
    ensures i < values.Length && IsItem(file, offset, sz, swap)(values[..][i], i)
  {
  }

  lemma PartOfValues(file: seq<byte>, offset: nat, sz: nat, count: nat, first: nat, n: nat)
    requires first + n <= count
    ensures Complete(file, offset, sz, count) ==> Complete(file, ItemPos(offset, sz, first), sz, n)
  {
    hide *;
    if Complete(file, offset, sz, count) {
      PartComplete(file, offset, sz, count, first, n);
    }
  }

  lemma AllLoaded(file: seq<byte>, offset: nat, sz: nat, swap: bool, values: array<pattern>)
    requires forall i :: 0 <= i < values.Length ==> Loaded(file, offset, sz, swap, values, 0, i)
    ensures Complete(file, offset, sz, values.Length)
  {
    if values.Length > 0 {
      assert Loaded(file, offset, sz, swap, values, 0, values.Length - 1);
    }
  }

  function TaskCount(chunkCount: nat, ioThreads: int): (tasks: nat)
    requires chunkCount > 0
    ensures 1 <= tasks <= chunkCount
  {
    if ioThreads > 1 then Min(chunkCount, ioThreads) else 1
  }

  function ElementsPerChunk(sz: nat): (per: nat)
    requires sz > 0
    ensures per > 0
  {
    if READ_GRAIN_BYTES / sz < 1 then 1 else READ_GRAIN_BYTES / sz
  }

  lemma SomeChunk(count: nat, per: nat)
    requires per > 0 && count > 0
    ensures ChunkCount(count, per) > 0
  {
    ChunksCover(count, per, 0);
  }

  // ----------------------------------------------------- the contiguous split

  /** The chunks of one task. */
  method ReadChunks(
      file: seq<byte>, offset: nat, sz: nat, values: array<pattern>, per: nat, firstChunk: nat, lastChunk: nat)
    returns (ok: bool)
    requires per > 0 && firstChunk <= lastChunk <= ChunkCount(values.Length, per)
    modifies values
    ensures !ok ==> !Complete(file, offset, sz, values.Length)
    ensures forall i :: 0 <= i < values.Length ==>
              if firstChunk <= ChunkOf(i, per) < lastChunk then ok ==> Loaded(file, offset, sz, false, values, 0, i)
              else values[i] == old(values[i])
  {
    hide ChunkOf, ChunkCount, Complete, InFile, Item;
    for chunk := firstChunk to lastChunk
      invariant forall i :: 0 <= i < values.Length ==>
                  if firstChunk <= ChunkOf(i, per) < chunk then Loaded(file, offset, sz, false, values, 0, i)
                  else values[i] == old(values[i])
    {
      ok := ReadChunk(file, offset, sz, false, values, per, chunk);
      if !ok {
        return;
      }
    }
    ok := true;
  }

  /** Whatever the order of the tasks, the whole array is read, or the read fails
      because the file is too short. */
  method ReadChunkedArrayInto(
      file: seq<byte>, offset: nat, sz: nat, values: array<pattern>, ioThreads: int, scheduler: nat -> seq<nat>)
    returns (ok: bool)
    requires sz > 0 && IsScheduler(scheduler)
    modifies values
    ensures ok <==> Complete(file, offset, sz, values.Length)
    ensures ok ==> forall i :: 0 <= i < values.Length ==> Loaded(file, offset, sz, false, values, 0, i)
  {
    hide ChunkOf, ChunkCount, TaskOf, Complete, Split, InFile, Item, ElementsPerChunk;
    if values.Length == 0 {
      AllLoaded(file, offset, sz, false, values);
      return true;
    }
    var per := ElementsPerChunk(sz);
    var chunkCount := ChunkCount(values.Length, per);
    SomeChunk(values.Length, per);
    var taskCount := TaskCount(chunkCount, ioThreads);
    var order := if taskCount == 1 then [0] else scheduler(taskCount);
    assert Permutes(order, taskCount);
    ok := true;
    ghost var done := {};
    for t := 0 to taskCount
      invariant forall j :: 0 <= j < t ==> order[j] in done
      invariant !ok ==> !Complete(file, offset, sz, values.Length)
      invariant ok ==> forall i :: 0 <= i < values.Length && ChunkTask(values.Length, per, taskCount, i) in done
                                   ==> Loaded(file, offset, sz, false, values, 0, i)
    {
      if !ok {
        return;
      }
      var task := order[t];
      SplitInRange(chunkCount, taskCount, task);
      TaskRange(values.Length, per, taskCount, task);
      ok := ReadChunks(
        file, offset, sz, values, per, Split(chunkCount, taskCount, task), Split(chunkCount, taskCount, task + 1));
      done := done + {task};
    }
    forall i | 0 <= i < values.Length ensures ChunkTask(values.Length, per, taskCount, i) in done {
      assert ChunkTask(values.Length, per, taskCount, i) in order;
    }
    if ok {
      AllLoaded(file, offset, sz, false, values);
    }
  }

  /** The task that reads element `i`. */
  ghost function ChunkTask(count: nat, per: nat, tasks: nat, i: nat): (t: nat)
    requires per > 0 && tasks > 0 && i < count
    ensures t < tasks
  {
    ChunksCover(count, per, i);
    TaskOf(ChunkCount(count, per), tasks, ChunkOf(i, per))
  }

  lemma TaskRange(count: nat, per: nat, tasks: nat, task: nat)
    requires per > 0 && task < tasks
    ensures var n := ChunkCount(count, per);
            forall i :: 0 <= i < count ==>
              (ChunkTask(count, per, tasks, i) == task
               <==> Split(n, tasks, task) <= ChunkOf(i, per) < Split(n, tasks, task + 1))
  {
    hide ChunkCount, ChunkOf, Split, TaskOf;
    var n := ChunkCount(count, per);
    forall i | 0 <= i < count
      ensures ChunkTask(count, per, tasks, i) == task
              <==> Split(n, tasks, task) <= ChunkOf(i, per) < Split(n, tasks, task + 1)
    {
      ChunksCover(count, per, i);
      TaskOfExact(n, tasks, ChunkOf(i, per), task);
    }
  }

  // -------------------------------------------------------- the strided split

  /** The chunks of one task: every `taskCount`-th, from its own number on. */
  method ReadStrided(
      file: seq<byte>, offset: nat, sz: nat, swap: bool, values: array<pattern>, per: nat, task: nat, taskCount: nat)
    returns (ok: bool)
    requires per > 0 && task < taskCount
    modifies values
    ensures !ok ==> !Complete(file, offset, sz, values.Length)
    ensures forall i :: 0 <= i < values.Length ==>
              if ChunkOf(i, per) in Strided(task, taskCount, ChunkCount(values.Length, per))
              then ok ==> Loaded(file, offset, sz, swap, values, 0, i)
              else values[i] == old(values[i])
  {
    hide ChunkOf, ChunkCount, Complete, InFile, Item;
    var chunkCount := ChunkCount(values.Length, per);
    var chunk := task;
    while chunk < chunkCount
      invariant chunk >= 0
      invariant forall c :: c in Strided(chunk, taskCount, chunkCount) ==> c in Strided(task, taskCount, chunkCount)
      invariant forall i :: 0 <= i < values.Length ==>
                  if ChunkOf(i, per) !in Strided(task, taskCount, chunkCount) then values[i] == old(values[i])
                  else ChunkOf(i, per) in Strided(chunk, taskCount, chunkCount)
                       || Loaded(file, offset, sz, swap, values, 0, i)
      decreases chunkCount - chunk
    {
      ok := ReadChunk(file, offset, sz, swap, values, per, chunk);
      if !ok {
        return;
      }
      chunk := chunk + taskCount;
    }
    ok := true;
  }

  method ReadChunkedBinaryArray(
      file: seq<byte>, offset: nat, sz: nat, count: nat, swapEndian: bool, ioThreads: int, scheduler: nat -> seq<nat>)
    returns (r: Result<array<pattern>>)
    requires sz > 0 && IsScheduler(scheduler)
    ensures r.Ok? <==> Complete(file, offset, sz, count)
    ensures r.Ok? ==> fresh(r.value) && r.value.Length == count
    ensures r.Ok? ==> forall i :: 0 <= i < count ==> Loaded(file, offset, sz, swapEndian, r.value, 0, i)
  {
    hide ChunkOf, ChunkCount, Complete, Strided, InFile, Item, ElementsPerChunk;
    var values := new pattern[count](_ => []);
    if count == 0 {
      AllLoaded(file, offset, sz, swapEndian, values);
      return Ok(values);
    }
    var per := ElementsPerChunk(sz);
    var chunkCount := ChunkCount(count, per);
    SomeChunk(count, per);
    var taskCount := TaskCount(chunkCount, ioThreads);
    var order := scheduler(taskCount);
    assert Permutes(order, taskCount);
    var ok := true;
    ghost var done: set<nat> := {};
    for t := 0 to taskCount
      invariant forall j :: 0 <= j < t ==> order[j] in done
      invariant forall u :: u in done ==> u < taskCount
      invariant !ok ==> !Complete(file, offset, sz, count)
      invariant ok ==> forall i, u: nat :: 0 <= i < count && u in done && ChunkOf(i, per) in Strided(u, taskCount, chunkCount)
                                   ==> Loaded(file, offset, sz, swapEndian, values, 0, i)
    {
      if !ok {
        return Throws;
      }
      var task := order[t];
      ok := ReadStrided(file, offset, sz, swapEndian, values, per, task, taskCount);
      done := done + {task};
    }
    if !ok {
      return Throws;
    }
    forall i | 0 <= i < count ensures Loaded(file, offset, sz, swapEndian, values, 0, i) {
      ChunksCover(count, per, i);
      StridedCovers(taskCount, chunkCount, ChunkOf(i, per));
      assert ChunkOf(i, per) % taskCount in order;
    }
    AllLoaded(file, offset, sz, swapEndian, values);
    r := Ok(values);
  }

  // --------------------------------------------------------- planar vectors

  /** Three floats. */
  datatype Vec3 = Vec3(x: pattern, y: pattern, z: pattern)

  const FLOAT: nat := 4

  /** Tuple `i` of planar data: its components stand in three arrays in a row. */
  ghost predicate VectorLoaded(file: seq<byte>, offset: nat, values: array<Vec3>, i: nat)
    reads values
  {
    var n := values.Length;
    && i < n
    && InFile(file, offset, FLOAT, i) && InFile(file, offset, FLOAT, n + i) && InFile(file, offset, FLOAT, 2 * n + i)
    && values[i] == Vec3(Item(file, offset, FLOAT, false, i), Item(file, offset, FLOAT, false, n + i),
                         Item(file, offset, FLOAT, false, 2 * n + i))
  }

  /** The three reads of a chunk of tuples. */
  method ReadComponents(
      file: seq<byte>, offset: nat, count: nat, first: nat, n: nat,
      x: array<pattern>, y: array<pattern>, z: array<pattern>)
    returns (ok: bool)
    requires first + n <= count && n <= x.Length && n <= y.Length && n <= z.Length && x != y && y != z && x != z
    modifies x, y, z
    ensures !ok ==> !Complete(file, offset, FLOAT, 3 * count)
    ensures ok ==> forall k :: 0 <= k < n ==>
              && Loaded(file, ItemPos(offset, FLOAT, first), FLOAT, false, x, 0, k)
              && Loaded(file, ItemPos(offset, FLOAT, count + first), FLOAT, false, y, 0, k)
              && Loaded(file, ItemPos(offset, FLOAT, 2 * count + first), FLOAT, false, z, 0, k)
  {
    hide ItemPos, Complete, InFile, Item, Loaded;
    PartOfValues(file, offset, FLOAT, 3 * count, first, n);
    PartOfValues(file, offset, FLOAT, 3 * count, count + first, n);
    PartOfValues(file, offset, FLOAT, 3 * count, 2 * count + first, n);
    ok := ReadContiguousBinary(file, ItemPos(offset, FLOAT, first), FLOAT, x, 0, n);
    if ok {
      ok := ReadContiguousBinary(file, ItemPos(offset, FLOAT, count + first), FLOAT, y, 0, n);
    }
    if ok {
      ok := ReadContiguousBinary(file, ItemPos(offset, FLOAT, 2 * count + first), FLOAT, z, 0, n);
    }
  }

  /** One chunk of tuples: three reads, then the interleaving. */
  method ReadPlanarChunk(
      file: seq<byte>, offset: nat, values: array<Vec3>, per: nat, chunk: nat,
      x: array<pattern>, y: array<pattern>, z: array<pattern>)
    returns (ok: bool)
    requires per > 0 && chunk < ChunkCount(values.Length, per)
    requires x.Length == y.Length == z.Length == per && x != y && y != z && x != z
    modifies values, x, y, z
    ensures !ok ==> !Complete(file, offset, FLOAT, 3 * values.Length)
    ensures forall i :: 0 <= i < values.Length ==>
              if ChunkOf(i, per) == chunk then ok ==> VectorLoaded(file, offset, values, i)
              else values[i] == old(values[i])
    ensures ReadsChunk(
              IsVector(file, offset, values.Length), Complete(file, offset, FLOAT, 3 * values.Length), per,
              old(values[..]), values[..], chunk, ok)
  {
    hide ChunkOf, ChunkCount, ItemPos, Complete, InFile, Item, Loaded, VectorLoaded, ReadsChunk, IsVector;
    var first, count := chunk * per, values.Length;
    ChunksCover(count, per, chunk);
    var n := Min(per, count - first);
    ok := ReadComponents(file, offset, count, first, n, x, y, z);
    forall i | 0 <= i < count ensures ChunkOf(i, per) == chunk <==> first <= i < first + n {
      ChunkHolds(per, chunk, i);
    }
    if !ok {
      VectorsRead(file, offset, old(values[..]), values, per, chunk, ok);
      return;
    }
    forall i | 0 <= i < n {
      values[first + i] := Vec3(x[i], y[i], z[i]);
    }
    forall i | first <= i < first + n ensures VectorLoaded(file, offset, values, i) {
      var k := i - first;
      assert values[first + k] == Vec3(x[k], y[k], z[k]);
      Packed(file, offset, values, first, x, y, z, k);
    }
    VectorsRead(file, offset, old(values[..]), values, per, chunk, ok);
  }

  /** A tuple is the one the file has in its place. */
  ghost function IsVector(file: seq<byte>, offset: nat, n: nat): (Vec3, nat) -> bool {
    (v: Vec3, i: nat) =>
      && InFile(file, offset, FLOAT, i) && InFile(file, offset, FLOAT, n + i) && InFile(file, offset, FLOAT, 2 * n + i)
      && v == Vec3(Item(file, offset, FLOAT, false, i), Item(file, offset, FLOAT, false, n + i),
                   Item(file, offset, FLOAT, false, 2 * n + i))
  }

  lemma VectorsRead(
      file: seq<byte>, offset: nat, before: seq<Vec3>, values: array<Vec3>, per: nat, chunk: nat, ok: bool)
    requires per > 0 && |before| == values.Length && (!ok ==> !Complete(file, offset, FLOAT, 3 * values.Length))
    requires forall i :: 0 <= i < values.Length ==>
               if ChunkOf(i, per) == chunk then ok ==> VectorLoaded(file, offset, values, i) else values[i] == before[i]
    ensures ReadsChunk(
              IsVector(file, offset, values.Length), Complete(file, offset, FLOAT, 3 * values.Length), per,
              before, values[..], chunk, ok)
  {
    hide ChunkOf, Complete, InFile, Item;
    forall i: nat | i < values.Length
      ensures ElementRead(IsVector(file, offset, values.Length), per, before, values[..], chunk, ok, i)
    {
      assert ChunkOf(i, per) == chunk ==> ok ==> VectorLoaded(file, offset, values, i);
    }
  }

  /** Components read at one place of each array make the tuple at that place. */
  lemma Packed(
      file: seq<byte>, offset: nat, values: array<Vec3>, first: nat,
      x: array<pattern>, y: array<pattern>, z: array<pattern>, k: nat)
    requires first + k < values.Length && k < x.Length && k < y.Length && k < z.Length
    requires Loaded(file, ItemPos(offset, FLOAT, first), FLOAT, false, x, 0, k)
    requires Loaded(file, ItemPos(offset, FLOAT, values.Length + first), FLOAT, false, y, 0, k)
    requires Loaded(file, ItemPos(offset, FLOAT, 2 * values.Length + first), FLOAT, false, z, 0, k)
    requires values[first + k] == Vec3(x[k], y[k], z[k])
    ensures VectorLoaded(file, offset, values, first + k)
  {
    hide Loaded, ItemPos, InFile, Item;
    Component(file, offset, first, x, k);
    Component(file, offset, values.Length + first, y, k);
    Component(file, offset, 2 * values.Length + first, z, k);
    assert values.Length + first + k == values.Length + (first + k);
    assert 2 * values.Length + first + k == 2 * values.Length + (first + k);
  }

  lemma Component(file: seq<byte>, offset: nat, first: nat, data: array<pattern>, k: nat)
    requires Loaded(file, ItemPos(offset, FLOAT, first), FLOAT, false, data, 0, k)
    ensures InFile(file, offset, FLOAT, first + k) && k < data.Length
    ensures data[k] == Item(file, offset, FLOAT, false, first + k)
  {
    ItemShifted(offset, FLOAT, first, k);
    hide ItemPos;
  }

  method ReadPlanarChunks(
      file: seq<byte>, offset: nat, values: array<Vec3>, per: nat, firstChunk: nat, lastChunk: nat)
    returns (ok: bool)
    requires per > 0 && firstChunk <= lastChunk <= ChunkCount(values.Length, per)
    modifies values
    ensures !ok ==> !Complete(file, offset, FLOAT, 3 * values.Length)
    ensures forall i :: 0 <= i < values.Length ==>
              if firstChunk <= ChunkOf(i, per) < lastChunk then ok ==> VectorLoaded(file, offset, values, i)
              else values[i] == old(values[i])
  {
    hide ChunkOf, ChunkCount, Complete, InFile, Item;
    var x, y, z := new pattern[per](_ => []), new pattern[per](_ => []), new pattern[per](_ => []);
    for chunk := firstChunk to lastChunk
      invariant forall i :: 0 <= i < values.Length ==>
                  if firstChunk <= ChunkOf(i, per) < chunk then VectorLoaded(file, offset, values, i)
                  else values[i] == old(values[i])
    {
      ok := ReadPlanarChunk(file, offset, values, per, chunk, x, y, z);
      if !ok {
        return;
      }
    }
    ok := true;
  }

  /** The planar reader: value `i` is made of component `i` of each of the three
      arrays, whatever the order of the tasks. */
  method ReadPlanarVec3ArrayInto(
      file: seq<byte>, offset: nat, values: array<Vec3>, ioThreads: int, scheduler: nat -> seq<nat>)
    returns (ok: bool)
    requires IsScheduler(scheduler)
    modifies values
    ensures ok <==> Complete(file, offset, FLOAT, 3 * values.Length)
    ensures ok ==> forall i :: 0 <= i < values.Length ==> VectorLoaded(file, offset, values, i)
  {
    hide ChunkOf, ChunkCount, TaskOf, Complete, Split, InFile, Item, ElementsPerChunk;
    if values.Length == 0 {
      AllVectors(file, offset, values);
      return true;
    }
    var per := ElementsPerChunk(3 * FLOAT);
    var chunkCount := ChunkCount(values.Length, per);
    SomeChunk(values.Length, per);
    var taskCount := TaskCount(chunkCount, ioThreads);
    var order := if taskCount == 1 then [0] else scheduler(taskCount);
    assert Permutes(order, taskCount);
    ok := true;
    ghost var done := {};
    for t := 0 to taskCount
      invariant forall j :: 0 <= j < t ==> order[j] in done
      invariant !ok ==> !Complete(file, offset, FLOAT, 3 * values.Length)
      invariant ok ==> forall i :: 0 <= i < values.Length && ChunkTask(values.Length, per, taskCount, i) in done
                                   ==> VectorLoaded(file, offset, values, i)
    {
      if !ok {
        return;
      }
      var task := order[t];
      SplitInRange(chunkCount, taskCount, task);
      TaskRange(values.Length, per, taskCount, task);
      ok := ReadPlanarChunks(
        file, offset, values, per, Split(chunkCount, taskCount, task), Split(chunkCount, taskCount, task + 1));
      done := done + {task};
    }
    forall i | 0 <= i < values.Length ensures ChunkTask(values.Length, per, taskCount, i) in done {
      assert ChunkTask(values.Length, per, taskCount, i) in order;
    }
    if ok {
      AllVectors(file, offset, values);
    }
  }

  lemma AllVectors(file: seq<byte>, offset: nat, values: array<Vec3>)
    requires forall i :: 0 <= i < values.Length ==> VectorLoaded(file, offset, values, i)
    ensures Complete(file, offset, FLOAT, 3 * values.Length)
  {
    if values.Length > 0 {
      assert VectorLoaded(file, offset, values, values.Length - 1);
    }
  }

  // ------------------------------------------------- any interleaving of tasks

  /** A state of a parallel read in which it has ended as a sequential one would: failed
      if the array is not all in the file, and otherwise with every element in place. */
  ghost predicate ReadAsSequentially(
      file: seq<byte>, offset: nat, sz: nat, swap: bool, count: nat, s: Reading<pattern>)
  {
    && |s.values| == count && (s.failed <==> !Complete(file, offset, sz, count))
    && (!s.failed ==> forall i: nat :: i < count ==> IsItem(file, offset, sz, swap)(s.values[i], i))
  }

  /** The contiguous tasks of the EnSight reader: however their chunk reads interleave,
      the last of them leaves what a sequential read leaves. */
  lemma SplitInterleaving(
      file: seq<byte>, offset: nat, sz: nat, count: nat, per: nat, tasks: nat, states: seq<Reading<pattern>>, k: nat)
    requires per > 0 && tasks > 0 && count > 0
    requires Running(
               IsItem(file, offset, sz, false), Complete(file, offset, sz, count), per, count,
               SplitTasks(tasks, ChunkCount(count, per)), states)
    requires k < |states| && Finished(states[k])
    ensures ReadAsSequentially(file, offset, sz, false, count, states[k])
  {
    hide ChunkCount, Running, Covered, SplitTasks, InFile;
    SplitCovered(tasks, ChunkCount(count, per));
    AnyInterleaving(
      IsItem(file, offset, sz, false), Complete(file, offset, sz, count), per, count,
      SplitTasks(tasks, ChunkCount(count, per)), states, k);
  }

  /** The strided tasks of the OpenFOAM reader, with or without swapping bytes. */
  lemma StridedInterleaving(
      file: seq<byte>, offset: nat, sz: nat, swap: bool, count: nat, per: nat, tasks: nat,
      states: seq<Reading<pattern>>, k: nat)
    requires per > 0 && tasks > 0 && count > 0
    requires Running(
               IsItem(file, offset, sz, swap), Complete(file, offset, sz, count), per, count,
               StridedTasks(tasks, ChunkCount(count, per)), states)
    requires k < |states| && Finished(states[k])
    ensures ReadAsSequentially(file, offset, sz, swap, count, states[k])
  {
    hide ChunkCount, Running, Covered, StridedTasks, InFile;
    StridedCovered(tasks, ChunkCount(count, per));
    AnyInterleaving(
      IsItem(file, offset, sz, swap), Complete(file, offset, sz, count), per, count,
      StridedTasks(tasks, ChunkCount(count, per)), states, k);
  }

  /** The contiguous tasks of the planar reader. */
  lemma PlanarInterleaving(
      file: seq<byte>, offset: nat, count: nat, per: nat, tasks: nat, states: seq<Reading<Vec3>>, k: nat)
    requires per > 0 && tasks > 0 && count > 0
    requires Running(
               IsVector(file, offset, count), Complete(file, offset, FLOAT, 3 * count), per, count,
               SplitTasks(tasks, ChunkCount(count, per)), states)
    requires k < |states| && Finished(states[k])
    ensures |states[k].values| == count && (states[k].failed <==> !Complete(file, offset, FLOAT, 3 * count))
    ensures !states[k].failed ==> forall i: nat :: i < count ==> IsVector(file, offset, count)(states[k].values[i], i)
  {
    hide ChunkCount, Running, Covered, SplitTasks, InFile;
    SplitCovered(tasks, ChunkCount(count, per));
    AnyInterleaving(
      IsVector(file, offset, count), Complete(file, offset, FLOAT, 3 * count), per, count,
      SplitTasks(tasks, ChunkCount(count, per)), states, k);
  }
}
