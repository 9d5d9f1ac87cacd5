/** Reading a byte range of a file, in one piece or by parallel tasks. */
module FileRanges {
  import opened Bytes
  import opened Schedules

  const PARALLEL_READ_THRESHOLD: nat := 0x10_0000

  /** The requested number of reader threads and the limit of the thread pool. */
  datatype ReadOptions = ReadOptions(ioThreads: int, concurrencyLimit: nat)

  /** A read of `n` bytes at `offset` delivers them all. An empty read always does. */
  predicate InFile(file: seq<byte>, offset: nat, n: nat) {
    n == 0 || offset + n <= |file|
  }

  /** Byte `i` of the range has arrived in the target. */
  ghost predicate Delivered(file: seq<byte>, offset: nat, dst: array<byte>, at: nat, i: nat)
    reads dst
  {
    offset + i < |file| && at + i < dst.Length && dst[at + i] == file[offset + i]
  }

  method ReadFileRangeInto(file: seq<byte>, offset: nat, dst: array<byte>, at: nat, byteCount: nat)
    returns (ok: bool)
    requires at + byteCount <= dst.Length
    modifies dst
    ensures ok <==> InFile(file, offset, byteCount)
    ensures ok ==> forall i :: 0 <= i < byteCount ==> Delivered(file, offset, dst, at, i)
    ensures forall k :: 0 <= k < dst.Length && !(at <= k < at + byteCount) ==> dst[k] == old(dst[k])
  {
    var available := if offset < |file| then |file| - offset else 0;
    var count := Min(available, byteCount);
    forall i | 0 <= i < count {
      dst[at + i] := file[offset + i];
    }
    ok := count == byteCount;
  }

  lemma DeliveredAll(file: seq<byte>, offset: nat, dst: array<byte>)
    requires forall i :: 0 <= i < dst.Length ==> Delivered(file, offset, dst, 0, i)
    ensures dst.Length > 0 ==> offset + dst.Length <= |file| && dst[..] == file[offset..offset + dst.Length]
  {
    if dst.Length > 0 {
      assert Delivered(file, offset, dst, 0, dst.Length - 1);
      forall i | 0 <= i < dst.Length ensures dst[i] == file[offset + i] {
        assert Delivered(file, offset, dst, 0, i);
      }
    }
  }

  function TaskCountForBytes(byteCount: nat, options: ReadOptions): (tasks: nat)
    requires byteCount > 0
    ensures 1 <= tasks <= byteCount
  {
    if byteCount < PARALLEL_READ_THRESHOLD || options.ioThreads <= 1 then 1
    else
      var workLimit := if options.concurrencyLimit < 1 then 1 else options.concurrencyLimit;
      Min(Min(options.ioThreads, workLimit), byteCount)
  }

  /** One task: its range of the bytes, if that is not empty. */
  method ReadTask(
      file: seq<byte>, offset: nat, dst: array<byte>, at: nat, byteCount: nat, taskCount: nat, task: nat)
    returns (ok: bool)
    requires at + byteCount <= dst.Length && task < taskCount
    modifies dst
    ensures !ok ==> !InFile(file, offset, byteCount)
    ensures forall i :: 0 <= i < byteCount ==>
              if TaskOf(byteCount, taskCount, i) == task
              then ok ==> Delivered(file, offset, dst, at, i)
              else dst[at + i] == old(dst[at + i])
    ensures forall k :: 0 <= k < dst.Length && !(at <= k < at + byteCount) ==> dst[k] == old(dst[k])
  {
    var first, last := Split(byteCount, taskCount, task), Split(byteCount, taskCount, task + 1);
    SplitInRange(byteCount, taskCount, task);
    ok := true;
    if first != last {
      ok := ReadFileRangeInto(file, offset + first, dst, at + first, last - first);
    }
    forall i | 0 <= i < byteCount
      ensures TaskOf(byteCount, taskCount, i) == task <==> first <= i < last
      ensures first <= i < last && ok ==> Delivered(file, offset, dst, at, i)
    {
      TaskOfExact(byteCount, taskCount, i, task);
      if first <= i < last {
        assert ok ==> Delivered(file, offset + first, dst, at + first, i - first);
      }
    }
  }

  /** Whatever the number of tasks and the order they run in, the bytes read and
      the success reported are those of one sequential read. */
  method ReadFileRangeIntoParallel(
      file: seq<byte>, offset: nat, dst: array<byte>, at: nat, byteCount: nat,
      options: ReadOptions, scheduler: nat -> seq<nat>)
    returns (ok: bool)
    requires at + byteCount <= dst.Length && IsScheduler(scheduler)
    modifies dst
    ensures ok <==> InFile(file, offset, byteCount)
    ensures ok ==> forall i :: 0 <= i < byteCount ==> Delivered(file, offset, dst, at, i)
    ensures forall k :: 0 <= k < dst.Length && !(at <= k < at + byteCount) ==> dst[k] == old(dst[k])
  {
    hide TaskOf;
    if byteCount == 0 {
      return true;
    }
    var taskCount := TaskCountForBytes(byteCount, options);
    if taskCount == 1 {
      ok := ReadFileRangeInto(file, offset, dst, at, byteCount);
      return;
    }
    var order := scheduler(taskCount);
    assert Permutes(order, taskCount);
    ok := true;
    ghost var done := {};
    for t := 0 to taskCount
      invariant forall j :: 0 <= j < t ==> order[j] in done
      invariant !ok ==> !InFile(file, offset, byteCount)
      invariant ok ==> forall i :: 0 <= i < byteCount && TaskOf(byteCount, taskCount, i) in done
                                   ==> Delivered(file, offset, dst, at, i)
      invariant forall k :: 0 <= k < dst.Length && !(at <= k < at + byteCount) ==> dst[k] == old(dst[k])
    {
      if !ok {
        return;
      }
      ok := ReadTask(file, offset, dst, at, byteCount, taskCount, order[t]);
      done := done + {order[t]};
    }
    forall i | 0 <= i < byteCount ensures TaskOf(byteCount, taskCount, i) in done {
      assert TaskOf(byteCount, taskCount, i) in order;
    }
    assert TaskOf(byteCount, taskCount, byteCount - 1) in done;
  }
}
