/** Values shared by every module. */
module Common {
  datatype Option<+T> = None | Some(value: T)

  predicate Between(a: nat, i: nat, b: nat) { a <= i < b }

  /** The ids a, a+1, ..., b-1. */
  function Range(a: nat, b: nat): set<nat> {
    set i: nat | a <= i < b && Between(a, i, b)
  }

  lemma {:induction false} RangeCount(a: nat, b: nat)
    requires a <= b
    ensures |Range(a, b)| == b - a
    decreases b
  {
    if a == b {
      assert Range(a, b) == {};
    } else {
      RangeCount(a, b - 1);
      assert Range(a, b) == Range(a, b - 1) + {b - 1};
    }
  }
}

/** The log block pool as a state machine. Every step is one system call or one critical section, so a
    crash may fall between any two of them and any number of block moves may interleave with a resize. */
module BlockPool {
  import opened Common

  /** palf::PALF_PHY_BLOCK_SIZE, 64 MB. */
  const BLOCK_SIZE: nat := 0x400_0000

  datatype Status = Normal | Expanding | Shrinking

  /** Sizes are in bytes. */
  datatype Meta = Meta(curr: nat, next: nat, status: Status)

  /** Where the resize thread, or the loading thread after a restart, stands. `boot` tells a resize that is
      continued while loading; `prior` is the meta to restore when the resize fails. */
  datatype Pc =
    | Idle
    | Alloc(prior: Meta, cnt: nat, done: nat, boot: bool)
    | Discard(prior: Meta, boot: bool)
    | Revert(prior: Meta, boot: bool)
    | Move(cnt: nat, moved: nat, dest: Option<nat>, boot: bool)
    | Clean(boot: bool)
    | Free(prior: Meta, cnt: nat, freed: nat, taken: Option<nat>, boot: bool)
    | Dry(prior: Meta, boot: bool)
    | Commit(boot: bool)
    | Boot
    | Trim(ids: seq<nat>, at: nat, held: nat)
    | Resume(held: nat)
    | Check(held: nat)
    | Dead

  /** `pool`, `tmp`, `tenants` and `meta` are on disk: the block ids in the pool directory, the ids in the
      directory used for expanding, the number of blocks in tenant directories, and the meta file.
      `creating` holds the ids taken from the low end and not yet renamed to a tenant, `removing` the ids
      reserved at the high end whose block is not yet renamed into the pool. */
  datatype State = State(
    pool: set<nat>, tmp: set<nat>, tenants: nat, meta: Meta,
    min: nat, max: nat, inUse: int, ledger: nat,
    creating: set<nat>, removing: set<nat>, pc: Pc)

  function Blocks(size: nat): nat { size / BLOCK_SIZE }

  function LowerAlign(size: nat): nat { size - size % BLOCK_SIZE }

  function AbsDiff(a: nat, b: nat): nat { if a < b then b - a else a - b }

  /** Blocks on disk, wherever they are; blocks still in the expanding directory do not count. */
  function Total(s: State): nat { |s.pool| + s.tenants }

  function FreeBlocks(s: State): int { s.max - s.min }

  /** The steps. `AllocateOne(false)` is a failed openat or fallocate that leaves `junk` behind. */
  datatype Step =
    | CreateBegin
    | CreateMove(id: nat)
    | RemoveBegin
    | RemoveMove(id: nat)
    | SetLedger(bytes: nat)
    | ResizeBegin(bytes: nat)
    | AllocateOne(ok: bool, junk: set<nat>)
    | AllocateDone
    | RemoveTmp
    | RestoreMeta
    | TakeMax
    | RenameFromTmp
    | MovesDone
    | TakeMin
    | Unlink
    | FreesDone
    | WriteNormal
    | Crash(kept: set<nat>)
    | ScanAndTrim(order: seq<nat>)
    | TrimOne
    | TrimDone
    | Continue
    | Verify

  /** The server is up: tenants may create and remove blocks. */
  predicate Serving(pc: Pc) {
    match pc
    case Idle => true
    case Alloc(_, _, _, boot) => !boot
    case Discard(_, boot) => !boot
    case Revert(_, boot) => !boot
    case Move(_, _, _, boot) => !boot
    case Clean(boot) => !boot
    case Free(_, _, _, _, boot) => !boot
    case Dry(_, boot) => !boot
    case Commit(boot) => !boot
    case _ => false
  }

  predicate StrictlySorted(q: seq<nat>) {
    forall i, j :: 0 <= i < j < |q| ==> q[i] < q[j]
  }

  predicate Lists(q: seq<nat>, ids: set<nat>) {
    StrictlySorted(q) && (forall i | i in q :: i in ids) && (forall i | i in ids :: i in q)
  }

  /** Index of the first id after `i` that does not follow its predecessor, 0 when there is none. */
  function FirstGap(q: seq<nat>, i: nat): (gap: nat)
    requires i < |q|
    ensures gap == 0 || i < gap < |q|
    ensures gap == 0 ==> forall k :: i <= k < |q| ==> q[k] == q[i] + (k - i)
    ensures gap != 0 ==> (forall k :: i <= k < gap ==> q[k] == q[i] + (k - i)) && q[gap] != q[gap - 1] + 1
    decreases |q| - i
  {
    if i + 1 == |q| then 0
    else if q[i + 1] == q[i] + 1 then FirstGap(q, i + 1)
    else i + 1
  }

  predicate Enabled(s: State, a: Step) {
    match a
    case CreateBegin => Serving(s.pc) && s.min < s.max
    case CreateMove(id) => Serving(s.pc) && id in s.creating && id in s.pool
    case RemoveBegin => Serving(s.pc) && |s.removing| < s.tenants
    case RemoveMove(id) => Serving(s.pc) && id in s.removing && 0 < s.tenants
    case SetLedger(bytes) => s.pc.Idle? && bytes <= s.meta.curr
    case ResizeBegin(bytes) =>
      s.pc.Idle? && LowerAlign(bytes) != s.meta.curr && s.ledger <= LowerAlign(bytes)
    case AllocateOne(ok, junk) => s.pc.Alloc? && s.pc.done < s.pc.cnt
    case AllocateDone => s.pc.Alloc? && s.pc.done == s.pc.cnt
    case RemoveTmp => s.pc.Discard? || s.pc.Clean?
    case RestoreMeta => s.pc.Revert? || s.pc.Dry?
    case TakeMax => s.pc.Move? && s.pc.dest.None? && s.pc.moved < s.pc.cnt
    case RenameFromTmp => s.pc.Move? && s.pc.dest.Some? && s.pc.moved in s.tmp
    case MovesDone => s.pc.Move? && s.pc.dest.None? && s.pc.moved == s.pc.cnt
    case TakeMin => s.pc.Free? && s.pc.taken.None? && s.pc.freed < s.pc.cnt
    case Unlink => s.pc.Free? && s.pc.taken.Some? && s.pc.taken.value in s.pool
    case FreesDone => s.pc.Free? && s.pc.taken.None? && s.pc.freed == s.pc.cnt
    case WriteNormal => s.pc.Commit?
    case Crash(kept) => kept <= s.tmp
    case ScanAndTrim(order) => s.pc.Boot? && Lists(order, s.pool)
    case TrimOne => s.pc.Trim? && s.pc.at < |s.pc.ids|
    case TrimDone => s.pc.Trim? && s.pc.at == |s.pc.ids|
    case Continue => s.pc.Resume?
    case Verify => s.pc.Check?
  }

  function Apply(s: State, a: Step): State
    requires Enabled(s, a)
  {
    match a
    case CreateBegin =>
      s.(min := s.min + 1, inUse := s.inUse + 1, creating := s.creating + {s.min})
    case CreateMove(id) =>
      s.(pool := s.pool - {id}, tenants := s.tenants + 1, creating := s.creating - {id})
    case RemoveBegin =>
      s.(max := s.max + 1, inUse := s.inUse - 1, removing := s.removing + {s.max})
    case RemoveMove(id) =>
      s.(pool := s.pool + {id}, tenants := s.tenants - 1, removing := s.removing - {id})
    case SetLedger(bytes) => s.(ledger := bytes)
    case ResizeBegin(bytes) => BeginResize(s, LowerAlign(bytes))
    case AllocateOne(ok, junk) =>
      if ok then s.(tmp := s.tmp + {s.pc.done}, pc := s.pc.(done := s.pc.done + 1))
      else s.(tmp := s.tmp + junk, pc := Discard(s.pc.prior, s.pc.boot))
    case AllocateDone => s.(pc := Move(s.pc.cnt, 0, None, s.pc.boot))
    case RemoveTmp =>
      s.(tmp := {}, pc := if s.pc.Discard? then Revert(s.pc.prior, s.pc.boot) else Commit(s.pc.boot))
    case RestoreMeta => s.(meta := s.pc.prior, pc := if s.pc.boot then Dead else Idle)
    case TakeMax => s.(max := s.max + 1, pc := s.pc.(dest := Some(s.max)))
    case RenameFromTmp =>
      s.(tmp := s.tmp - {s.pc.moved}, pool := s.pool + {s.pc.dest.value},
         pc := s.pc.(moved := s.pc.moved + 1, dest := None))
    case MovesDone => s.(pc := Clean(s.pc.boot))
    case TakeMin =>
      if s.min == s.max then s.(pc := Dry(s.pc.prior, s.pc.boot))
      else s.(min := s.min + 1, pc := s.pc.(taken := Some(s.min)))
    case Unlink =>
      s.(pool := s.pool - {s.pc.taken.value}, pc := s.pc.(freed := s.pc.freed + 1, taken := None))
    case FreesDone => s.(pc := Commit(s.pc.boot))
    case WriteNormal =>  // while loading the scanned count still is the number of tenant blocks
      s.(meta := Meta(s.meta.next, s.meta.next, Normal),
         pc := if s.pc.boot then Check(s.tenants) else Idle)
    case Crash(kept) =>
      s.(tmp := kept, min := 0, max := 0, inUse := 0, ledger := 0, creating := {}, removing := {}, pc := Boot)
    case ScanAndTrim(order) => BeginTrim(s, order)
    case TrimOne =>
      s.(pool := s.pool - {s.pc.ids[s.pc.at]} + {s.max}, max := s.max + 1, pc := s.pc.(at := s.pc.at + 1))
    case TrimDone => s.(pc := Resume(s.pc.held))
    case Continue => ContinueResize(s)
    case Verify =>
      if s.meta.curr == BLOCK_SIZE * (s.pc.held + (s.max - s.min))
      then s.(inUse := s.pc.held, pc := Idle)
      else s.(pc := Dead)
  }

  function BeginResize(s: State, target: nat): State {
    var cnt := AbsDiff(Blocks(target), Blocks(s.meta.curr));
    if s.meta.curr < target
    then s.(meta := Meta(s.meta.curr, target, Expanding), pc := Alloc(s.meta, cnt, 0, false))
    else s.(meta := Meta(s.meta.curr, target, Shrinking), pc := Free(s.meta, cnt, 0, None, false))
  }

  function BeginTrim(s: State, order: seq<nat>): State {
    if order == [] then s.(tmp := {}, pc := Trim([], 0, s.tenants))
    else
      var gap := FirstGap(order, 0);
      var run := if gap == 0 then |order| else gap;
      s.(tmp := {}, min := order[0], max := order[run - 1] + 1, pc := Trim(order, run, s.tenants))
  }

  function ContinueResize(s: State): State
    requires s.pc.Resume?
  {
    var cnt := AbsDiff(Blocks(s.meta.next), Blocks(BLOCK_SIZE * (s.pc.held + AbsDiff(s.min, s.max))));
    match s.meta.status
    case Normal => s.(pc := Check(s.pc.held))
    case Expanding => s.(pc := Alloc(s.meta, cnt, 0, true))
    case Shrinking => s.(pc := Free(s.meta, cnt, 0, None, true))
  }

  // ---------------------------------------------------------------- runs

  ghost predicate Runs(s: State, steps: seq<Step>)
    decreases |steps|
  {
    steps == [] || (Enabled(s, steps[0]) && Runs(Apply(s, steps[0]), steps[1..]))
  }

  ghost function After(s: State, steps: seq<Step>): State
    requires Runs(s, steps)
    decreases |steps|
  {
    if steps == [] then s else After(Apply(s, steps[0]), steps[1..])
  }

  /** `steps` is a run from `s` to `t`. */
  ghost predicate Leads(s: State, steps: seq<Step>, t: State) {
    Runs(s, steps) && After(s, steps) == t
  }

  lemma LeadsNowhere(s: State)
    ensures Leads(s, [], s)
  {
  }

  lemma LeadsOne(s: State, a: Step)
    requires Enabled(s, a)
    ensures Leads(s, [a], Apply(s, a))
  {
    assert [a][1..] == [];
  }

  lemma {:induction false} LeadsJoin(s: State, xs: seq<Step>, t: State, ys: seq<Step>, u: State)
    requires Leads(s, xs, t) && Leads(t, ys, u)
    ensures Leads(s, xs + ys, u)
    decreases |xs|
  {
    if xs == [] {
      assert xs + ys == ys;
    } else {
      LeadsJoin(Apply(s, xs[0]), xs[1..], t, ys, u);
      assert (xs + ys)[1..] == xs[1..] + ys;
    }
  }

  lemma {:induction false} LeadsOn(s: State, steps: seq<Step>, t: State, a: Step)
    requires Leads(s, steps, t) && Enabled(t, a)
    ensures Leads(s, steps + [a], Apply(t, a))
    decreases |steps|
  {
    if steps == [] {
      assert (steps + [a])[1..] == [];
    } else {
      LeadsOn(Apply(s, steps[0]), steps[1..], t, a);
      assert (steps + [a])[1..] == steps[1..] + [a];
    }
  }

  /** A fresh log pool directory: no blocks and a zero meta. */
  const FRESH := State({}, {}, 0, Meta(0, 0, Normal), 0, 0, 0, 0, {}, {}, Boot)
}
