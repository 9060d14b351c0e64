/** How a read from external storage is split into tasks. Sizes are in bytes and fit 64 bits. */
module ReadSplit {
  /** 2 MiB and 128. */
  const SINGLE_TASK_MINIMUM_SIZE: nat := 0x20_0000
  const CONCURRENCY_LIMIT: nat := 128

  function Min(a: int, b: int): int { if a < b then a else b }

  function Max(a: int, b: int): int { if a < b then b else a }

  function CeilDiv(a: nat, b: nat): nat
    requires 0 < b
  {
    (a + b - 1) / b
  }

  /** get_async_task_count_ with the minimum task size as a parameter. */
  function TaskCount(concurrency: int, total: nat, minimum: nat): nat
    requires 0 < minimum
  {
    Max(1, Min(concurrency, CeilDiv(total, minimum)))
  }

  // ---------------------------------------------------------------- ceiling division

  lemma DivBounds(a: nat, b: nat)
    requires 0 < b
    ensures b * (a / b) <= a < b * (a / b) + b
  {
  }

  lemma CeilDivBounds(a: nat, b: nat)
    requires 0 < b
    ensures a <= b * CeilDiv(a, b) <= a + b - 1
    ensures 0 < a ==> b * (CeilDiv(a, b) - 1) < a
  {
    DivBounds(a + b - 1, b);
    var q: int := CeilDiv(a, b);
    assert b * (q - 1) == b * q - b;
  }

  lemma MulMonotone(a: nat, b: nat, c: nat)
    requires a <= b
    ensures a * c <= b * c && c * a <= c * b
  {
  }

  /** As many tasks as the concurrency allows, but at least one, and no more than it takes for each to have the
      minimum size, the last one perhaps less. */
  lemma TaskCountExactly(concurrency: int, total: nat, minimum: nat, n: nat)
    requires 0 < minimum
    ensures n == TaskCount(concurrency, total, minimum) <==>
              && 1 <= n && (n == 1 || (n <= concurrency && (n - 1) * minimum < total))
              && (concurrency <= n || total <= n * minimum)
  {
    var q := CeilDiv(total, minimum);
    CeilDivBounds(total, minimum);
    if n < q {
      MulMonotone(n, q - 1, minimum);
    } else if q < n {
      MulMonotone(q, n - 1, minimum);
    }
  }

  /** With n tasks of ceil(total / n) bytes the last one gets something, as soon as the total exceeds the
      square of n - 1: n (n-1) ceil(total/n) <= (n-1)(total + n-1) < n total. */
  lemma LastTaskNotEmpty(total: nat, n: nat)
    requires 0 < n && (n - 1) * (n - 1) < total
    ensures (n - 1) * CeilDiv(total, n) < total
  {
    var k, q := n - 1, CeilDiv(total, n);
    CeilDivBounds(total, n);
    MulMonotone(n * q, total + k, k);
    assert n * (k * q) == k * (n * q);
    assert k * (total + k) == k * total + k * k;
    assert n * total == k * total + total;
    if k * q >= total {
      MulMonotone(total, k * q, n);
    }
  }

  /** The split of every positive read with a task count of at most the minimum task size plus one. */
  lemma SplitLeavesNoEmptyTask(concurrency: int, total: nat, minimum: nat)
    requires 0 < total && 0 < minimum && concurrency <= minimum + 1
    ensures var n := TaskCount(concurrency, total, minimum); 0 < n && (n - 1) * CeilDiv(total, n) < total
  {
    var n := TaskCount(concurrency, total, minimum);
    CeilDivBounds(total, minimum);
    MulMonotone(n - 1, CeilDiv(total, minimum) - 1, minimum);
    MulMonotone(n - 1, minimum, n - 1);
    LastTaskNotEmpty(total, n);
  }

  /** The size of task i: all but the last get the full size, the last gets what is left. */
  lemma SizeOfTask(total: nat, n: nat, i: nat)
    requires 0 < n && (n - 1) * CeilDiv(total, n) < total && i < n
    ensures var q := CeilDiv(total, n);
            && i * q < total
            && (i + 1 < n ==> Min(total - i * q, q) == q && 0 < q)
            && (i + 1 == n ==> Min(total - i * q, q) == total - i * q)
  {
    var q := CeilDiv(total, n);
    CeilDivBounds(total, n);
    MulMonotone(i, n - 1, q);
    assert n * q == (n - 1) * q + q;
    if i + 1 < n {
      MulMonotone(i + 1, n - 1, q);
      assert (i + 1) * q == i * q + q;
    }
  }

  /** The bound on the concurrency is what makes it so: a minimum task size of one byte allows four tasks
      for five bytes, and two bytes each leave nothing for the last. */
  lemma SmallMinimumLeavesEmptyTask()
    ensures var n := TaskCount(4, 5, 1); n == 4 && (n - 1) * CeilDiv(5, n) >= 5
  {
  }

  // ---------------------------------------------------------------- tiling

  /** One asynchronous read: `size` bytes at `offset` of the file into the buffer at `pos`. */
  datatype Task = Task(offset: nat, pos: nat, size: nat)

  /** Task i of n for `total` bytes. */
  function TaskAt(offset: nat, total: nat, n: nat, i: nat): Task
    requires 0 < n && (n - 1) * CeilDiv(total, n) < total && i < n
  {
    SizeOfTask(total, n, i);
    var q := CeilDiv(total, n);
    Task(offset + i * q, i * q, Min(total - i * q, q))
  }

  function TasksOf(offset: nat, total: nat, n: nat): seq<Task>
    requires 0 < n && (n - 1) * CeilDiv(total, n) < total
  {
    seq(n, i requires 0 <= i < n => TaskAt(offset, total, n, i))
  }

  /** Tasks lie one after the other, none empty, and cover the first `covered` bytes. */
  ghost predicate Tiles(tasks: seq<Task>, offset: nat, covered: nat)
    decreases |tasks|
  {
    if tasks == [] then covered == 0
    else
      var last := tasks[|tasks| - 1];
      && 0 < last.size && last.size <= covered && last.pos == covered - last.size && last.offset == offset + last.pos
      && Tiles(tasks[..|tasks| - 1], offset, last.pos)
  }

  lemma TilesMore(tasks: seq<Task>, offset: nat, covered: nat, size: nat)
    requires Tiles(tasks, offset, covered) && 0 < size
    ensures Tiles(tasks + [Task(offset + covered, covered, size)], offset, covered + size)
  {
    var t := Task(offset + covered, covered, size);
    assert (tasks + [t])[..|tasks|] == tasks;
  }

  /** Tasks before position i end where it begins. */
  lemma {:induction false} TilesPrefix(tasks: seq<Task>, offset: nat, covered: nat, i: nat)
    requires Tiles(tasks, offset, covered) && i < |tasks|
    ensures tasks[i].offset == offset + tasks[i].pos && 0 < tasks[i].size && tasks[i].pos + tasks[i].size <= covered
    ensures Tiles(tasks[..i], offset, tasks[i].pos)
    ensures Tiles(tasks[..i + 1], offset, tasks[i].pos + tasks[i].size)
    decreases |tasks|
  {
    var last := tasks[|tasks| - 1];
    if i < |tasks| - 1 {
      TilesPrefix(tasks[..|tasks| - 1], offset, last.pos, i);
      assert tasks[..|tasks| - 1][..i] == tasks[..i] && tasks[..|tasks| - 1][..i + 1] == tasks[..i + 1];
    } else {
      assert tasks[..i + 1] == tasks;
    }
  }

  /** Where the first k tasks end. */
  function EndOf(total: nat, n: nat, k: nat): nat
    requires 0 < n
  {
    if k < n then k * CeilDiv(total, n) else total
  }

  lemma TasksPrefix(offset: nat, total: nat, n: nat, k: nat)
    requires 0 < n && (n - 1) * CeilDiv(total, n) < total && k < n
    ensures TasksOf(offset, total, n)[..k + 1] == TasksOf(offset, total, n)[..k] + [TaskAt(offset, total, n, k)]
  {
    hide CeilDiv, TaskAt;
  }

  lemma MulNext(k: nat, q: nat)
    ensures (k + 1) * q == k * q + q
  {
  }

  /** Where one more task ends. */
  lemma NextEnd(total: nat, n: nat, k: nat)
    requires 0 < n && (n - 1) * CeilDiv(total, n) < total && k < n
    ensures var q, pos := CeilDiv(total, n), EndOf(total, n, k);
            && pos == k * q < total && 0 < Min(total - pos, q)
            && EndOf(total, n, k + 1) == pos + Min(total - pos, q)
  {
    SizeOfTask(total, n, k);
    MulNext(k, CeilDiv(total, n));
    hide CeilDiv;
  }

  lemma TaskAtIs(offset: nat, total: nat, n: nat, k: nat)
    requires 0 < n && (n - 1) * CeilDiv(total, n) < total && k < n
    ensures var q, pos := CeilDiv(total, n), k * CeilDiv(total, n);
            pos < total && TaskAt(offset, total, n, k) == Task(offset + pos, pos, Min(total - pos, q))
  {
    SizeOfTask(total, n, k);
    hide CeilDiv;
  }

  lemma NextTask(offset: nat, total: nat, n: nat, k: nat)
    requires 0 < n && (n - 1) * CeilDiv(total, n) < total && k < n
    ensures var q, pos := CeilDiv(total, n), EndOf(total, n, k);
            && pos < total && 0 < Min(total - pos, q)
            && TaskAt(offset, total, n, k) == Task(offset + pos, pos, Min(total - pos, q))
            && EndOf(total, n, k + 1) == pos + Min(total - pos, q)
    ensures TasksOf(offset, total, n)[..k + 1] == TasksOf(offset, total, n)[..k] + [TaskAt(offset, total, n, k)]
  {
    hide *;
    NextEnd(total, n, k);
    TaskAtIs(offset, total, n, k);
    TasksPrefix(offset, total, n, k);
  }

  lemma EndOfFirst(total: nat, n: nat)
    requires 0 < n
    ensures EndOf(total, n, 0) == 0
  {
  }

  lemma EndOfAll(offset: nat, total: nat, n: nat)
    requires 0 < n && (n - 1) * CeilDiv(total, n) < total
    ensures EndOf(total, n, n) == total && TasksOf(offset, total, n)[..n] == TasksOf(offset, total, n)
  {
  }

  /** Tasks tile what they cover, all of it in the end. */
  lemma {:induction false} TasksTile(offset: nat, total: nat, n: nat, k: nat)
    requires 0 < n && (n - 1) * CeilDiv(total, n) < total && k <= n
    ensures EndOf(total, n, k) <= total && Tiles(TasksOf(offset, total, n)[..k], offset, EndOf(total, n, k))
  {
    if k == 0 {
      assert TasksOf(offset, total, n)[..0] == [];
    } else {
      TasksTile(offset, total, n, k - 1);
      NextTask(offset, total, n, k - 1);
      var pos, q := EndOf(total, n, k - 1), CeilDiv(total, n);
      TilesMore(TasksOf(offset, total, n)[..k - 1], offset, pos, Min(total - pos, q));
    }
  }

  /** Where task i begins; the end of all of them for the position after the last. */
  ghost function StartOf(tasks: seq<Task>, i: nat, covered: nat): nat {
    if i < |tasks| then tasks[i].pos else covered
  }

  lemma NextStarts(tasks: seq<Task>, offset: nat, covered: nat, i: nat)
    requires Tiles(tasks, offset, covered) && i < |tasks|
    ensures StartOf(tasks, i + 1, covered) == tasks[i].pos + tasks[i].size <= covered
  {
    TilesPrefix(tasks, offset, covered, i);
    if i + 1 < |tasks| {
      TilesPrefix(tasks, offset, covered, i + 1);
      assert tasks[..i + 1][..i] == tasks[..i];
    }
  }

  ghost predicate Holds(t: Task, b: nat) { t.pos <= b < t.pos + t.size }

  /** Every byte is read by exactly one task. */
  lemma {:induction false} EachByteOnce(tasks: seq<Task>, offset: nat, covered: nat, b: nat) returns (i: nat)
    requires Tiles(tasks, offset, covered) && b < covered
    ensures i < |tasks| && Holds(tasks[i], b)
    ensures forall j | 0 <= j < |tasks| && j != i :: !Holds(tasks[j], b)
    decreases |tasks|
  {
    var init, last := tasks[..|tasks| - 1], tasks[|tasks| - 1];
    if Holds(last, b) {
      i := |tasks| - 1;
      forall j | 0 <= j < |init| ensures !Holds(tasks[j], b) {
        TilesPrefix(init, offset, last.pos, j);
      }
    } else {
      i := EachByteOnce(init, offset, last.pos, b);
      assert forall j | 0 <= j < |init| :: init[j] == tasks[j];
    }
  }
}

/** ObLogExternalStorageCtx and ObLogExternalStorageHandler. */
module ExternalReads {
  import opened Common
  import opened ReadSplit

  newtype byte = x: int | 0 <= x < 256

  datatype Ret =
    | Success
    | NotInit
    | InitTwice
    | NotRunning
    | InvalidArgument
    | FileLengthInvalid
    | SizeOverflow
    | DeviceError(code: int)

  /** How an issued read ends. */
  datatype Outcome = Failed(ret: Ret) | Got(size: nat)

  function FirstError(outs: seq<Outcome>): Ret {
    if outs == [] then Success
    else
      var before := FirstError(outs[..|outs| - 1]);
      if before != Success then before
      else if outs[|outs| - 1].Failed? then outs[|outs| - 1].ret else Success
  }

  function TotalGot(outs: seq<Outcome>): nat {
    if outs == [] then 0
    else TotalGot(outs[..|outs| - 1]) + if outs[|outs| - 1].Got? then outs[|outs| - 1].size else 0
  }

  /** The error reported is the one of the first read that failed. */
  lemma {:induction false} FirstErrorIsFirst(outs: seq<Outcome>)
    requires forall i | 0 <= i < |outs| :: outs[i].Failed? ==> !outs[i].ret.Success?
    ensures FirstError(outs).Success? <==> forall o | o in outs :: o.Got?
    ensures !FirstError(outs).Success? ==>
              exists i :: 0 <= i < |outs| && outs[i] == Failed(FirstError(outs)) && forall j | 0 <= j < i :: outs[j].Got?
  {
    if outs != [] {
      var init := outs[..|outs| - 1];
      FirstErrorIsFirst(init);
      assert outs == init + [outs[|outs| - 1]];
      if FirstError(init).Success? {
        assert forall j | 0 <= j < |init| :: outs[j] == init[j] && init[j] in init;
        assert outs[|outs| - 1] in outs;
        assert outs[|outs| - 1].Failed? ==> outs[|outs| - 1] == Failed(FirstError(outs));
      } else {
        var i :| 0 <= i < |init| && init[i] == Failed(FirstError(init)) && forall j | 0 <= j < i :: init[j].Got?;
        assert outs[i] == init[i] && forall j | 0 <= j < i :: outs[j] == init[j];
      }
    }
  }

  /** The bytes counted are those of the reads that brought some, one by one. */
  lemma {:induction false} TotalGotAdds(a: seq<Outcome>, b: seq<Outcome>, ret: Ret, size: nat)
    ensures TotalGot(a + b) == TotalGot(a) + TotalGot(b)
    ensures TotalGot([Got(size)]) == size && TotalGot([Failed(ret)]) == 0
    decreases |b|
  {
    assert [Got(size)][..0] == [] && [Failed(ret)][..0] == [];
    if b == [] {
      assert a + b == a;
    } else {
      TotalGotAdds(a, b[..|b| - 1], ret, size);
      assert (a + b)[..|a + b| - 1] == a + b[..|b| - 1];
    }
  }

  lemma OneMoreOutcome(outs: seq<Outcome>, i: nat)
    requires i < |outs|
    ensures FirstError(outs[..i + 1]) ==
              if FirstError(outs[..i]).Success? && outs[i].Failed? then outs[i].ret else FirstError(outs[..i])
    ensures TotalGot(outs[..i + 1]) == TotalGot(outs[..i]) + if outs[i].Got? then outs[i].size else 0
  {
    assert outs[..i + 1][..i] == outs[..i];
  }

  /** Every read brought all the bytes it asked for. */
  ghost predicate AllDelivered(tasks: seq<Task>, outs: seq<Outcome>) {
    |outs| == |tasks| && forall i | 0 <= i < |tasks| :: outs[i] == Got(tasks[i].size)
  }

  lemma {:induction false} DeliveredTotal(tasks: seq<Task>, outs: seq<Outcome>, offset: nat, covered: nat)
    requires Tiles(tasks, offset, covered) && AllDelivered(tasks, outs)
    ensures TotalGot(outs) == covered && FirstError(outs).Success?
    decreases |tasks|
  {
    if tasks != [] {
      DeliveredTotal(tasks[..|tasks| - 1], outs[..|outs| - 1], offset, tasks[|tasks| - 1].pos);
    }
  }

  /** The bytes a read brought are in the buffer. */
  ghost predicate Arrived(t: Task, o: Outcome, file: seq<byte>, buf: seq<byte>) {
    o.Got? ==> o.size <= t.size && t.pos + o.size <= |buf| && t.offset + o.size <= |file|
               && buf[t.pos..t.pos + o.size] == file[t.offset..t.offset + o.size]
  }

  ghost predicate AllArrived(tasks: seq<Task>, outs: seq<Outcome>, file: seq<byte>, buf: seq<byte>) {
    |outs| == |tasks| && forall i | 0 <= i < |tasks| :: Arrived(tasks[i], outs[i], file, buf)
  }

  /** A change of the buffer behind the tiles does not touch what arrived. */
  lemma ArrivedStays(tasks: seq<Task>, outs: seq<Outcome>, offset: nat, covered: nat, file: seq<byte>,
                     before: seq<byte>, after: seq<byte>)
    requires Tiles(tasks, offset, covered) && AllArrived(tasks, outs, file, before)
    requires |before| == |after| && covered <= |before| && before[..covered] == after[..covered]
    ensures AllArrived(tasks, outs, file, after)
  {
    forall i | 0 <= i < |tasks| ensures Arrived(tasks[i], outs[i], file, after) {
      TilesPrefix(tasks, offset, covered, i);
      var t, o := tasks[i], outs[i];
      assert Arrived(t, o, file, before);
      if o.Got? {
        assert before[t.pos..t.pos + o.size] == before[..covered][t.pos..t.pos + o.size];
        assert after[t.pos..t.pos + o.size] == after[..covered][t.pos..t.pos + o.size];
      }
    }
  }

  /** How a device ends a read it accepted: with an error, or with at most so many bytes. */
  datatype Delivery = Fails(code: int) | Brings(size: nat)

  function OutcomeOf(d: Delivery, t: Task): (o: Outcome)
    ensures o.Failed? ==> !o.ret.Success?
  {
    match d
    case Fails(code) => Failed(DeviceError(code))
    case Brings(size) => Got(if size < t.size then size else t.size)
  }

  function OutcomesOf(delivers: nat -> Delivery, tasks: seq<Task>): (outs: seq<Outcome>)
    ensures |outs| == |tasks| && forall i | 0 <= i < |tasks| :: outs[i] == OutcomeOf(delivers(i), tasks[i])
  {
    seq(|tasks|, i requires 0 <= i < |tasks| => OutcomeOf(delivers(i), tasks[i]))
  }

  /** An opened file on a storage device. What the device will do is an input: whether opening fails, which
      reads it refuses, and how each of the others ends. It knows which reads are in flight. */
  class StorageDevice {
    const file: seq<byte>
    const opening: Option<int>
    const refuses: nat -> Option<int>
    const delivers: nat -> Delivery
    ghost var inFlight: set<nat>

    constructor (content: seq<byte>, opens: Option<int>, refusals: nat -> Option<int>, deliveries: nat -> Delivery)
      ensures file == content && opening == opens && refuses == refusals && delivers == deliveries && inFlight == {}
    {
      file, opening, refuses, delivers, inFlight := content, opens, refusals, deliveries, {};
    }

    /** Takes read number i. */
    method Issue(i: nat) returns (ret: Ret)
      modifies this
      ensures ret == if refuses(i).Some? then DeviceError(refuses(i).value) else Success
      ensures inFlight == if ret.Success? then old(inFlight) + {i} else old(inFlight)
    {
      if refuses(i).Some? {
        return DeviceError(refuses(i).value);
      }
      inFlight, ret := inFlight + {i}, Success;
    }

    /** Ends read number i; its bytes are in the buffer then. */
    method Finish(i: nat, t: Task, buf: array<byte>) returns (o: Outcome)
      requires i in inFlight && t.pos + t.size <= buf.Length && t.offset + t.size <= |file|
      modifies this, buf
      ensures o == OutcomeOf(delivers(i), t) && inFlight == old(inFlight) - {i}
      ensures Arrived(t, o, file, buf[..])
      ensures forall b | 0 <= b < buf.Length && !Holds(t, b) :: buf[b] == old(buf[b])
    {
      inFlight := inFlight - {i};
      o := OutcomeOf(delivers(i), t);
      if o.Got? {
        forall k | 0 <= k < o.size {
          buf[t.pos + k] := file[t.offset + k];
        }
      }
    }
  }

  /** The first i reads were waited for: their bytes have arrived, the rest of the buffer is as it was, and the
      first error and the bytes they brought are known. */
  ghost predicate Waited(tasks: seq<Task>, outs: seq<Outcome>, covered: nat, file: seq<byte>, i: nat,
                         buf: seq<byte>, was: seq<byte>, ret: Ret, size: nat) {
    && i <= |tasks| == |outs| && ret == FirstError(outs[..i]) && size == TotalGot(outs[..i]) && |buf| == |was|
    && AllArrived(tasks[..i], outs[..i], file, buf)
    && forall b | StartOf(tasks, i, covered) <= b < |buf| :: buf[b] == was[b]
  }

  lemma WaitedStart(tasks: seq<Task>, outs: seq<Outcome>, covered: nat, file: seq<byte>, was: seq<byte>)
    requires |tasks| == |outs|
    ensures Waited(tasks, outs, covered, file, 0, was, was, Success, 0)
  {
  }

  lemma WaitedEnd(tasks: seq<Task>, outs: seq<Outcome>, covered: nat, file: seq<byte>, buf: seq<byte>, was: seq<byte>,
                  ret: Ret, size: nat)
    requires Waited(tasks, outs, covered, file, |tasks|, buf, was, ret, size)
    ensures ret == FirstError(outs) && size == TotalGot(outs) && |buf| == |was| && AllArrived(tasks, outs, file, buf)
    ensures forall b | covered <= b < |buf| :: buf[b] == was[b]
  {
    assert tasks[..|tasks|] == tasks && outs[..|outs|] == outs;
  }

  lemma FirstOfRange(i: nat, n: nat)
    requires i < n
    ensures i in Range(i, n) && Range(i, n) - {i} == Range(i + 1, n)
  {
  }

  /** The outcomes known after one more. */
  function WithOutcome(ret: Ret, size: nat, o: Outcome): (Ret, nat) {
    match o
    case Failed(e) => (if ret.Success? then e else ret, size)
    case Got(n) => (ret, size + n)
  }

  lemma WaitedNext(tasks: seq<Task>, outs: seq<Outcome>, offset: nat, covered: nat, file: seq<byte>, i: nat,
                   before: seq<byte>, buf: seq<byte>, was: seq<byte>, ret: Ret, size: nat)
    requires Tiles(tasks, offset, covered) && i < |tasks| && Waited(tasks, outs, covered, file, i, before, was, ret, size)
    requires |buf| == |before| && covered <= |buf| && Arrived(tasks[i], outs[i], file, buf)
    requires forall b | 0 <= b < |buf| && !Holds(tasks[i], b) :: buf[b] == before[b]
    ensures Waited(tasks, outs, covered, file, i + 1, buf, was,
                   WithOutcome(ret, size, outs[i]).0, WithOutcome(ret, size, outs[i]).1)
  {
    TilesPrefix(tasks, offset, covered, i);
    NextStarts(tasks, offset, covered, i);
    OneMoreOutcome(outs, i);
    assert before[..tasks[i].pos] == buf[..tasks[i].pos];
    ArrivedStays(tasks[..i], outs[..i], offset, tasks[i].pos, file, before, buf);
    assert tasks[..i + 1] == tasks[..i] + [tasks[i]] && outs[..i + 1] == outs[..i] + [outs[i]];
    hide Tiles, Arrived, FirstError, TotalGot;
  }

  /** One more task of a tiling is waited for. */
  method WaitNext(dev: StorageDevice, ghost tasks: seq<Task>, i: nat, t: Task, ghost offset: nat, ghost covered: nat,
                  buf: array<byte>, ghost outs: seq<Outcome>, ghost was: seq<byte>, ghost ret: Ret, ghost size: nat)
    returns (o: Outcome)
    requires Tiles(tasks, offset, covered) && i < |tasks| && t == tasks[i] && i in dev.inFlight
    requires covered <= buf.Length && offset + covered <= |dev.file| && outs == OutcomesOf(dev.delivers, tasks)
    requires Waited(tasks, outs, covered, dev.file, i, buf[..], was, ret, size)
    modifies dev, buf
    ensures o == outs[i] && dev.inFlight == old(dev.inFlight) - {i}
    ensures Waited(tasks, outs, covered, dev.file, i + 1, buf[..], was, WithOutcome(ret, size, o).0, WithOutcome(ret, size, o).1)
  {
    TilesPrefix(tasks, offset, covered, i);
    ghost var before := buf[..];
    hide Tiles, Waited, Arrived;
    o := dev.Finish(i, t, buf);
    WaitedNext(tasks, outs, offset, covered, dev.file, i, before, buf[..], was, ret, size);
  }

  /** Any byte of a delivered tiling is the one of the file. */
  lemma ByteArrived(tasks: seq<Task>, outs: seq<Outcome>, offset: nat, total: nat, file: seq<byte>, buf: seq<byte>, b: nat)
    requires Tiles(tasks, offset, total) && AllDelivered(tasks, outs) && AllArrived(tasks, outs, file, buf)
    requires b < total <= |buf| && offset + total <= |file|
    ensures buf[b] == file[offset + b]
  {
    var i := EachByteOnce(tasks, offset, total, b);
    TilesPrefix(tasks, offset, total, i);
    var t := tasks[i];
    assert Arrived(t, outs[i], file, buf);
    hide Tiles, AllArrived, AllDelivered;
    assert buf[b] == buf[t.pos..t.pos + t.size][b - t.pos];
    assert file[offset + b] == file[t.offset..t.offset + t.size][b - t.pos];
  }

  /** Delivered tiles put together are the slice of the file. */
  lemma SliceArrived(tasks: seq<Task>, outs: seq<Outcome>, offset: nat, total: nat, file: seq<byte>, buf: seq<byte>)
    requires Tiles(tasks, offset, total) && AllDelivered(tasks, outs) && AllArrived(tasks, outs, file, buf)
    requires total <= |buf| && offset + total <= |file|
    ensures buf[..total] == file[offset..offset + total]
  {
    hide Tiles, AllArrived, AllDelivered;
    forall b | 0 <= b < total ensures buf[b] == file[offset + b] {
      ByteArrived(tasks, outs, offset, total, file, buf, b);
    }
  }

  class ReadCtx {
    var inited: bool
    /** One item per task; those from `count` on are not in use. */
    var items: seq<Task>
    var count: nat
    var capacity: nat

    constructor ()
      ensures !inited && count == 0 && capacity == 0 && items == []
    {
      inited, items, count, capacity := false, [], 0, 0;
    }

    ghost predicate Valid()
      reads this
    {
      && count <= capacity == |items|
      && (!inited ==> capacity == 0)
    }

    ghost function Tasks(): seq<Task>
      requires Valid()
      reads this
    {
      items[..count]
    }

    /** Allocates the items and opens the device. */
    method Init(concurrency: int, opening: Option<int>) returns (ret: Ret)
      requires Valid() && count == 0
      modifies this
      ensures Valid() && count == 0
      ensures ret == if old(inited) then InitTwice
                     else if concurrency <= 0 then InvalidArgument
                     else if opening.Some? then DeviceError(opening.value) else Success
      ensures ret.Success? ==> inited && capacity == concurrency
    {
      if inited {
        return InitTwice;
      }
      if concurrency <= 0 {
        return InvalidArgument;
      }
      if opening.Some? {
        return DeviceError(opening.value);
      }
      items := seq(concurrency, _ => Task(0, 0, 0));
      count, capacity, inited, ret := 0, concurrency, true, Success;
    }

    /** async_pread of one task into item `index`; a task that asks for nothing is rejected. */
    method AsyncPread(dev: StorageDevice, index: nat, t: Task) returns (ret: Ret)
      requires Valid() && inited && index < capacity && index == count
      modifies this, dev
      ensures Valid() && inited && capacity == old(capacity) && count == old(count)
      ensures ret == if t.size == 0 then InvalidArgument
                     else if dev.refuses(index).Some? then DeviceError(dev.refuses(index).value) else Success
      ensures dev.inFlight == if ret.Success? then old(dev.inFlight) + {index} else old(dev.inFlight)
      ensures items == if ret.Success? then old(items)[index := t] else old(items)
    {
      if t.size <= 0 {
        return InvalidArgument;
      }
      ret := dev.Issue(index);
      if ret.Success? {
        items := items[index := t];
      }
    }

    method IncCount() returns (ret: Ret)
      requires Valid()
      modifies this`count
      ensures ret == if !inited then NotInit else if old(count) >= capacity then SizeOverflow else Success
      ensures count == if ret.Success? then old(count) + 1 else old(count)
      ensures Valid()
    {
      if !inited {
        return NotInit;
      }
      if count >= capacity {
        return SizeOverflow;
      }
      count, ret := count + 1, Success;
    }

    /** Waits for every counted item, failed or not, and reports the first error. */
    method Wait(dev: StorageDevice, buf: array<byte>, ghost offset: nat, ghost covered: nat) returns (ret: Ret, outSize: nat)
      requires Valid() && inited && dev.inFlight == Range(0, count)
      requires Tiles(Tasks(), offset, covered) && covered <= buf.Length && offset + covered <= |dev.file|
      modifies this, dev, buf
      ensures Valid() && count == 0 && dev.inFlight == {}
      ensures ret == FirstError(OutcomesOf(dev.delivers, old(Tasks())))
      ensures outSize == TotalGot(OutcomesOf(dev.delivers, old(Tasks())))
      ensures AllArrived(old(Tasks()), OutcomesOf(dev.delivers, old(Tasks())), dev.file, buf[..])
      ensures forall b | covered <= b < buf.Length :: buf[b] == old(buf[b])
    {
      ghost var tasks, was := Tasks(), buf[..];
      ghost var outs := OutcomesOf(dev.delivers, tasks);
      ret, outSize := Success, 0;
      WaitedStart(tasks, outs, covered, dev.file, was);
      hide Tiles, Waited, OutcomesOf, Range;
      for i := 0 to count
        invariant Valid() && inited && items == old(items) && count == |tasks| == |outs|
        invariant dev.inFlight == Range(i, count)
        invariant Waited(tasks, outs, covered, dev.file, i, buf[..], was, ret, outSize)
      {
        FirstOfRange(i, count);
        var o := WaitNext(dev, tasks, i, items[i], offset, covered, buf, outs, was, ret, outSize);
        match o {
          case Failed(e) => if ret.Success? { ret := e; }
          case Got(n) => outSize := outSize + n;
        }
      }
      WaitedEnd(tasks, outs, covered, dev.file, buf[..], was, ret, outSize);
      count := 0;
    }
  }

  class ExternalStorageHandler {
    var inited: bool
    var running: bool
    /** At most the limit; 0 asks for one task, and -1 stands for a destroyed handler. */
    var concurrency: int

    ghost predicate Valid()
      reads this
    {
      concurrency <= CONCURRENCY_LIMIT
    }

    constructor ()
      ensures Valid() && inited && !running
    {
      inited, running, concurrency := true, false, 1;
    }

    /** Asking for more than the limit is not an error. */
    method Start(wanted: int) returns (ret: Ret)
      requires Valid()
      modifies this
      ensures Valid() && inited == old(inited)
      ensures ret == if !inited then NotInit else if !old(running) && wanted < 0 then InvalidArgument else Success
      ensures ret.Success? ==> running
      ensures concurrency == if !ret.Success? || old(running) then old(concurrency) else if wanted < 128 then wanted else 128
    {
      if !inited {
        return NotInit;
      }
      if running {
        return Success;
      }
      if wanted < 0 {
        return InvalidArgument;
      }
      concurrency, running, ret := Min(wanted, CONCURRENCY_LIMIT), true, Success;
    }

    /** `locked` is whether the lock was got in time. */
    method Resize(wanted: int, timeout: int, locked: bool) returns (ret: Ret)
      requires Valid()
      modifies this`concurrency
      ensures Valid()
      ensures ret == if !inited then NotInit
                     else if wanted < 0 || timeout <= 0 then InvalidArgument
                     else if wanted == old(concurrency) then Success
                     else if !locked then DeviceError(0)
                     else if !running then NotRunning else Success
      ensures concurrency == if !ret.Success? then old(concurrency) else if wanted < 128 then wanted else 128
    {
      if !inited {
        return NotInit;
      }
      if wanted < 0 || timeout <= 0 {
        return InvalidArgument;
      }
      if wanted == concurrency {
        return Success;
      }
      if !locked {
        return DeviceError(0);
      }
      if !running {
        return NotRunning;
      }
      concurrency, ret := Min(wanted, CONCURRENCY_LIMIT), Success;
    }

    /** Issues one read per task. No task is rejected for its size; when the device refuses one, everything
        issued before has been waited for. */
    method ConstructAsyncPreadTasks(ctx: ReadCtx, dev: StorageDevice, offset: nat, buf: array<byte>, total: nat)
      returns (ret: Ret)
      requires Valid() && ctx.Valid() && !ctx.inited && ctx.count == 0 && dev.inFlight == {}
      requires 0 < total <= buf.Length && offset + total <= |dev.file|
      modifies ctx, dev, buf
      ensures ctx.Valid() && ret == IssueRet(dev.opening, dev.refuses, Count(total))
      ensures ret.Success? ==>
                ctx.inited && dev.inFlight == Range(0, ctx.count) && ctx.Tasks() == Split(offset, total) &&
                Tiles(ctx.Tasks(), offset, total)
      ensures !ret.Success? ==> dev.inFlight == {}
      ensures ret.Success? ==> buf[..] == old(buf[..])
      ensures forall b | total <= b < buf.Length :: buf[b] == old(buf[b])
    {
      var n := TaskCount(concurrency, total, SINGLE_TASK_MINIMUM_SIZE);
      SplitLeavesNoEmptyTask(concurrency, total, SINGLE_TASK_MINIMUM_SIZE);
      ret := ctx.Init(n, dev.opening);
      if !ret.Success? {
        return;
      }
      ghost var covered;
      ret, covered := IssueTasks(ctx, dev, offset, total, n);
      if !ret.Success? {
        var _, _ := ctx.Wait(dev, buf, offset, covered);
      }
    }

    /** How many tasks a read is split into, and which. */
    function Count(total: nat): nat
      reads this
    {
      TaskCount(concurrency, total, SINGLE_TASK_MINIMUM_SIZE)
    }

    function Split(offset: nat, total: nat): seq<Task>
      requires Valid() && 0 < total
      reads this
    {
      SplitLeavesNoEmptyTask(concurrency, total, SINGLE_TASK_MINIMUM_SIZE);
      TasksOf(offset, total, Count(total))
    }

    method IssueTasks(ctx: ReadCtx, dev: StorageDevice, offset: nat, total: nat, n: nat) returns (ret: Ret, ghost covered: nat)
      requires ctx.Valid() && ctx.inited && ctx.capacity == n && ctx.count == 0 && dev.inFlight == {}
      requires 0 < n && (n - 1) * CeilDiv(total, n) < total
      modifies ctx, dev
      ensures ctx.Valid() && ctx.inited && dev.inFlight == Range(0, ctx.count)
      ensures Tiles(ctx.Tasks(), offset, covered) && covered <= total
      ensures ret == IssueRet(None, dev.refuses, n)
      ensures ret.Success? ==> covered == total && ctx.Tasks() == TasksOf(offset, total, n)
    {
      var taskSize, remainedTaskCount, remainedTotalSize := CeilDiv(total, n), n, total;
      var readOffset, pos, idx := offset, 0, 0;
      ret := Success;
      assert FirstRefusal(dev.refuses, 0).None?;
      hide EndOf, TasksOf, TaskAt, Tiles;
      TasksTile(offset, total, n, 0);
      EndOfFirst(total, n);
      while remainedTaskCount > 0 && ret.Success?
        invariant ctx.Valid() && ctx.inited && ctx.capacity == n && ctx.count == idx <= n
        invariant dev.inFlight == Range(0, idx) && ctx.Tasks() == TasksOf(offset, total, n)[..idx]
        invariant FirstRefusal(dev.refuses, idx).None?
        invariant !ret.Success? ==> remainedTaskCount > 0 && dev.refuses(idx).Some? && ret == DeviceError(dev.refuses(idx).value)
        invariant idx + remainedTaskCount == n && pos == EndOf(total, n, idx) <= total
        invariant readOffset == offset + pos && remainedTotalSize == total - pos
        decreases remainedTaskCount, ret.Success?
      {
        NextTask(offset, total, n, idx);
        TasksTile(offset, total, n, idx + 1);
        var size := Min(remainedTotalSize, taskSize);
        ghost var tasks := ctx.Tasks();
        ret := ctx.AsyncPread(dev, idx, Task(readOffset, pos, size));
        assert ctx.Tasks() == tasks;
        if ret.Success? {
          ret := ctx.IncCount();
          assert ctx.Tasks() == tasks + [Task(readOffset, pos, size)];
          idx, readOffset, pos := idx + 1, readOffset + size, pos + size;
          remainedTotalSize, remainedTaskCount := remainedTotalSize - size, remainedTaskCount - 1;
        }
      }
      IssueRetIs(dev.refuses, n, idx);
      TasksTile(offset, total, n, idx);
      EndOfAll(offset, total, n);
      covered := pos;
    }

    /** Reads `total` bytes that the file has. */
    method ReadTotal(dev: StorageDevice, offset: nat, buf: array<byte>, total: nat) returns (ret: Ret, realSize: nat)
      requires Valid() && dev.inFlight == {} && 0 < total <= buf.Length && offset + total <= |dev.file|
      modifies dev, buf
      ensures dev.inFlight == {}
      ensures ReadDone(dev, offset, total, Count(total), Split(offset, total), buf[..], ret, realSize)
      ensures forall b | total <= b < buf.Length :: buf[b] == old(buf[b])
    {
      hide Tiles, AllArrived, AllDelivered, FirstError, TotalGot, OutcomesOf, IssueRet, TasksOf, TaskCount;
      realSize := 0;
      var ctx := new ReadCtx();
      ret := ConstructAsyncPreadTasks(ctx, dev, offset, buf, total);
      if ret.Success? {
        ghost var tasks := ctx.Tasks();
        ret, realSize := ctx.Wait(dev, buf, offset, total);
        Outcomes(tasks, OutcomesOf(dev.delivers, tasks), offset, total, dev.file, buf[..]);
      }
    }

    /** Reads up to `size` bytes of the file on the device; `stat` is the outcome of asking for its size. The
        outcome is that of the device's answers to all tasks of the split; when it refuses none and every one
        brings its bytes, it is the plain read clipped at the end of the file. Nothing is in flight afterwards. */
    method Pread(dev: StorageDevice, stat: Ret, offset: int, buf: array<byte>, size: int) returns (ret: Ret, realSize: nat)
      requires Valid() && size <= buf.Length && dev.inFlight == {}
      modifies dev, buf
      ensures dev.inFlight == {}
      ensures !inited ==> ret.NotInit?
      ensures inited && !running ==> ret.NotRunning?
      ensures inited && running && (offset < 0 || size <= 0) ==> ret.InvalidArgument?
      ensures inited && running && 0 <= offset && 0 < size && !stat.Success? ==> ret == stat
      ensures inited && running && 0 <= offset && 0 < size && stat.Success? ==>
                && (offset > |dev.file| ==> ret.FileLengthInvalid?)
                && (offset == |dev.file| ==> ret.Success? && realSize == 0)
                && (offset < |dev.file| ==>
                      var total := Min(|dev.file| - offset, size);
                      ReadDone(dev, offset, total, Count(total), Split(offset, total), buf[..], ret, realSize))
      ensures forall b | Max(0, Min(|dev.file| - offset, size)) <= b < buf.Length :: buf[b] == old(buf[b])
    {
      realSize := 0;
      if !inited {
        return NotInit, 0;
      }
      if !running {
        return NotRunning, 0;
      }
      if offset < 0 || size <= 0 {
        return InvalidArgument, 0;
      }
      if !stat.Success? {
        return stat, 0;
      }
      if offset > |dev.file| {
        return FileLengthInvalid, 0;
      }
      if offset == |dev.file| {
        return Success, 0;
      }
      var total := Min(|dev.file| - offset, size);
      hide ReadDone;
      ret, realSize := ReadTotal(dev, offset, buf, total);
    }
  }

  /** The first of the reads before `n` that the device refuses. */
  function FirstRefusal(refuses: nat -> Option<int>, n: nat): (first: Option<nat>)
    ensures first.Some? ==> first.value < n && refuses(first.value).Some? && forall i | 0 <= i < first.value :: refuses(i).None?
    ensures first.None? ==> forall i | 0 <= i < n :: refuses(i).None?
  {
    if n == 0 then None
    else if FirstRefusal(refuses, n - 1).Some? then FirstRefusal(refuses, n - 1)
    else if refuses(n - 1).Some? then Some(n - 1) else None
  }

  /** The code of issuing n reads: the one of opening, or of the first read that is refused. */
  function IssueRet(opening: Option<int>, refuses: nat -> Option<int>, n: nat): Ret {
    if opening.Some? then DeviceError(opening.value)
    else if FirstRefusal(refuses, n).Some? then DeviceError(refuses(FirstRefusal(refuses, n).value).value)
    else Success
  }

  /** Success exactly if the device opens and refuses none; else the error of opening, or of the first refusal. */
  lemma IssueRetExactly(opening: Option<int>, refuses: nat -> Option<int>, n: nat)
    ensures var ret := IssueRet(opening, refuses, n);
            && (ret.Success? <==> opening.None? && forall i | 0 <= i < n :: refuses(i).None?)
            && (opening.Some? ==> ret == DeviceError(opening.value))
            && (opening.None? ==>
                  forall i | 0 <= i < n && refuses(i).Some? && (forall j | 0 <= j < i :: refuses(j).None?) ::
                    ret == DeviceError(refuses(i).value))
  {
  }

  lemma IssueRetIs(refuses: nat -> Option<int>, n: nat, idx: nat)
    requires idx <= n && FirstRefusal(refuses, idx).None?
    ensures idx == n ==> IssueRet(None, refuses, n).Success?
    ensures idx < n && refuses(idx).Some? ==> IssueRet(None, refuses, n) == DeviceError(refuses(idx).value)
  {
  }

  /** A read of `total` bytes. If the device cannot be opened or refuses a task, that error and no bytes are
      reported; else the first error and the bytes brought. The full size is reported exactly when every task
      brought all its bytes, and then the buffer holds the slice of the file. */
  ghost predicate ReadDone(dev: StorageDevice, offset: nat, total: nat, n: nat, tasks: seq<Task>, buf: seq<byte>, ret: Ret, realSize: nat)
    requires total <= |buf| && offset + total <= |dev.file|
  {
    var outs := OutcomesOf(dev.delivers, tasks);
    if !IssueRet(dev.opening, dev.refuses, n).Success? then ret == IssueRet(dev.opening, dev.refuses, n) && realSize == 0
    else
      && ret == FirstError(outs) && realSize == TotalGot(outs)
      && (ret.Success? && realSize == total <==> AllDelivered(tasks, outs))
      && (AllDelivered(tasks, outs) ==> buf[..total] == dev.file[offset..offset + total])
  }

  /** A read gives the slice of the file exactly when every task brought all its bytes. */
  lemma Outcomes(tasks: seq<Task>, outs: seq<Outcome>, offset: nat, total: nat, file: seq<byte>, buf: seq<byte>)
    requires Tiles(tasks, offset, total) && AllArrived(tasks, outs, file, buf) && total <= |buf| && offset + total <= |file|
    requires forall i | 0 <= i < |outs| :: outs[i].Failed? ==> !outs[i].ret.Success?
    ensures AllDelivered(tasks, outs) <==> FirstError(outs).Success? && TotalGot(outs) == total
    ensures AllDelivered(tasks, outs) ==> buf[..total] == file[offset..offset + total]
  {
    if AllDelivered(tasks, outs) {
      DeliveredTotal(tasks, outs, offset, total);
      SliceArrived(tasks, outs, offset, total, file, buf);
    } else {
      NotDelivered(tasks, outs, offset, total, file, buf);
    }
  }

  /** What the reads brought never exceeds what they asked for, and a short one shows in the total. */
  lemma {:induction false} NotDelivered(tasks: seq<Task>, outs: seq<Outcome>, offset: nat, total: nat, file: seq<byte>, buf: seq<byte>)
    requires Tiles(tasks, offset, total) && AllArrived(tasks, outs, file, buf)
    requires forall i | 0 <= i < |outs| :: outs[i].Failed? ==> !outs[i].ret.Success?
    ensures TotalGot(outs) <= total
    ensures FirstError(outs).Success? && TotalGot(outs) == total ==> AllDelivered(tasks, outs)
    decreases |tasks|
  {
    if tasks != [] {
      var k := |tasks| - 1;
      NotDelivered(tasks[..k], outs[..k], offset, tasks[k].pos, file, buf);
      assert Arrived(tasks[k], outs[k], file, buf);
      if FirstError(outs).Success? && TotalGot(outs) == total {
        forall i | 0 <= i < |tasks| ensures outs[i] == Got(tasks[i].size) {
          if i < k {
            assert outs[..k][i] == Got(tasks[..k][i].size);
          }
        }
      }
    }
  }
}
