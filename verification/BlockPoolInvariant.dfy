/** Compaction of the block ids found in the pool directory. */
module BlockPoolTrim {
  import opened BlockPool

  /** The ids listed from position `at` on. */
  function From(ids: seq<nat>, at: nat): set<nat>
    requires at <= |ids|
    decreases |ids| - at
  {
    if at == |ids| then {} else {ids[at]} + From(ids, at + 1)
  }

  /** Part of the ids already moved down to [min, max), the rest still above. */
  ghost predicate TrimOk(pool: set<nat>, min: nat, max: nat, ids: seq<nat>, at: nat) {
    && StrictlySorted(ids) && at <= |ids| && |pool| == |ids|
    && max == min + at
    && (ids != [] ==> 0 < at && min == ids[0])
    && (at < |ids| ==> max < ids[at])
    && (forall i :: i in pool <==> min <= i < max || i in From(ids, at))
  }

  lemma {:induction false} ListCount(q: seq<nat>, ids: set<nat>)
    requires Lists(q, ids)
    ensures |q| == |ids|
  {
    if q == [] {
      assert ids == {};
    } else {
      var last := q[|q| - 1];
      var rest := q[..|q| - 1];
      forall i | i in ids - {last} ensures i in rest {
        var k :| 0 <= k < |q| && q[k] == i;
        assert rest[k] == i;
      }
      ListCount(rest, ids - {last});
    }
  }

  lemma {:induction false} FromAbove(ids: seq<nat>, at: nat)
    requires at <= |ids| && StrictlySorted(ids)
    ensures forall i | i in From(ids, at) :: at < |ids| && ids[at] <= i
    decreases |ids| - at
  {
    if at < |ids| {
      FromAbove(ids, at + 1);
    }
  }

  lemma {:induction false} FromSplit(ids: seq<nat>, at: nat)
    requires at <= |ids|
    ensures forall i :: i in ids <==> i in ids[..at] || i in From(ids, at)
    decreases |ids| - at
  {
    if at == |ids| {
      assert ids[..at] == ids;
    } else {
      FromSplit(ids, at + 1);
      assert ids[..at + 1] == ids[..at] + [ids[at]];
    }
  }

  lemma RunIsInterval(ids: seq<nat>, run: nat)
    requires 0 < run <= |ids| && forall k | 0 <= k < run :: ids[k] == ids[0] + k
    ensures forall i :: i in ids[..run] <==> ids[0] <= i < ids[0] + run
  {
    forall i | ids[0] <= i < ids[0] + run ensures i in ids[..run] {
      assert ids[..run][i - ids[0]] == i;
    }
  }

  lemma ScanTrimOk(pool: set<nat>, order: seq<nat>, run: nat)
    requires Lists(order, pool) && 0 < run <= |order| && |pool| == |order|
    requires forall k | 0 <= k < run :: order[k] == order[0] + k
    requires run < |order| ==> order[run] != order[run - 1] + 1
    ensures TrimOk(pool, order[0], order[run - 1] + 1, order, run)
  {
    RunIsInterval(order, run);
    FromSplit(order, run);
  }

  lemma TrimStep(pool: set<nat>, min: nat, max: nat, ids: seq<nat>, at: nat)
    requires TrimOk(pool, min, max, ids, at) && at < |ids|
    ensures max !in pool && ids[at] in pool && |pool - {ids[at]} + {max}| == |pool|
    ensures TrimOk(pool - {ids[at]} + {max}, min, max + 1, ids, at + 1)
  {
    FromAbove(ids, at);
    FromAbove(ids, at + 1);
  }
}

/** The invariant of the block pool and its preservation by every step. */
module BlockPoolInvariant {
  import opened Common
  import opened BlockPool
  import opened BlockPoolTrim

  predicate Aligned(size: nat) { size % BLOCK_SIZE == 0 }

  ghost predicate MetaOk(m: Meta) {
    && Aligned(m.curr) && Aligned(m.next)
    && (m.status.Expanding? ==> m.curr < m.next)
    && (m.status.Shrinking? ==> m.next < m.curr)
  }

  /** What survives a crash: the blocks on disk agree with the meta, or lie between the two sizes of an
      interrupted resize. */
  ghost predicate DurableOk(meta: Meta, total: nat) {
    && MetaOk(meta)
    && match meta.status
       case Normal => total == Blocks(meta.curr)
       case Expanding => Blocks(meta.curr) <= total <= Blocks(meta.next)
       case Shrinking => Blocks(meta.next) <= total <= Blocks(meta.curr)
  }

  /** The id reserved for a block that is about to leave the expanding directory. */
  function Dest(pc: Pc): set<nat> {
    if pc.Move? && pc.dest.Some? then {pc.dest.value} else {}
  }

  /** The id of the block a shrink is about to unlink. */
  function Taken(pc: Pc): set<nat> {
    if pc.Free? && pc.taken.Some? then {pc.taken.value} else {}
  }

  /** Every id in [min, max) names a block in the pool or one that is about to arrive there, and every
      block in the pool is either free or claimed by exactly one create or by the shrink. */
  ghost predicate IdsOk(pool: set<nat>, removing: set<nat>, dest: set<nat>,
                        min: nat, max: nat, creating: set<nat>, taken: set<nat>) {
    && min <= max
    && (forall i :: i in pool || i in removing || i in dest <==> min <= i < max || i in creating || i in taken)
    && (forall i | i in pool :: i !in removing && i !in dest)
    && (forall i | i in removing :: i !in dest)
    && (forall i | i in creating :: i < min && i !in taken)
    && (forall i | i in taken :: i < min)
    && |pool| + |removing| + |dest| == max - min + |creating| + |taken|
  }

  ghost predicate StateIdsOk(s: State) {
    IdsOk(s.pool, s.removing, Dest(s.pc), s.min, s.max, s.creating, Taken(s.pc))
  }

  ghost predicate MemoryOk(s: State) {
    if Serving(s.pc) then
      && StateIdsOk(s)
      && s.tenants + |s.creating| == s.inUse + |s.removing| && |s.removing| <= s.tenants
    else
      && s.creating == {} && s.removing == {} && s.inUse == 0
      && match s.pc
         case Boot => s.min == s.max == 0
         case Dead => true
         case Trim(ids, at, held) => held == s.tenants && TrimOk(s.pool, s.min, s.max, ids, at)
         case Resume(held) => held == s.tenants && StateIdsOk(s)
         case Check(held) => held == s.tenants && StateIdsOk(s)
         case _ => StateIdsOk(s)
  }

  ghost predicate Interval(ids: set<nat>, a: nat, b: nat) {
    forall i :: i in ids <==> a <= i < b
  }

  /** What a failed resize writes back. */
  ghost predicate PriorOk(meta: Meta, total: nat, prior: Meta, boot: bool) {
    if boot then prior == meta
    else prior.status.Normal? && prior.curr == meta.curr && MetaOk(prior) && total == Blocks(prior.curr)
  }

  ghost predicate ResizeOk(pc: Pc, meta: Meta, total: nat, tmp: set<nat>, ledger: nat) {
    match pc
    case Idle => meta.status.Normal? && tmp == {}
    case Alloc(prior, cnt, done, boot) =>
      && meta.status.Expanding? && PriorOk(meta, total, prior, boot)
      && done <= cnt && total + cnt == Blocks(meta.next) && Interval(tmp, 0, done)
    case Discard(prior, boot) => meta.status.Expanding? && PriorOk(meta, total, prior, boot)
    case Revert(prior, boot) => meta.status.Expanding? && PriorOk(meta, total, prior, boot) && tmp == {}
    case Move(cnt, moved, dest, _) =>
      && meta.status.Expanding? && moved <= cnt && (dest.Some? ==> moved < cnt)
      && total + (cnt - moved) == Blocks(meta.next) && Interval(tmp, moved, cnt)
    case Clean(_) => meta.status.Expanding? && tmp == {} && total == Blocks(meta.next)
    case Free(prior, cnt, freed, taken, boot) =>
      && meta.status.Shrinking? && tmp == {}
      && freed <= cnt && (taken.Some? ==> freed < cnt)
      && total == Blocks(meta.next) + (cnt - freed)
      && (if boot then prior == meta else ledger <= meta.next)
    case Dry(prior, boot) => boot && prior == meta && meta.status.Shrinking? && tmp == {}
    case Commit(_) => !meta.status.Normal? && tmp == {} && total == Blocks(meta.next)
    case Check(_) => meta.status.Normal? && tmp == {}
    case Trim(_, _, _) => tmp == {}
    case Resume(_) => tmp == {}
    case _ => true
  }

  ghost predicate Inv(s: State) {
    && DurableOk(s.meta, Total(s))
    && MemoryOk(s)
    && ResizeOk(s.pc, s.meta, Total(s), s.tmp, s.ledger)
  }

  /** The assumption under which shrinking is safe: tenants use no more than the ledger grants them. */
  ghost predicate WithinLedger(s: State) {
    s.pc.Free? && !s.pc.boot ==> BLOCK_SIZE * s.inUse <= s.ledger
  }

  /** A shrink outside loading meets an empty pool. */
  predicate RunsDry(s: State, a: Step) { a.TakeMin? && s.pc.Free? && !s.pc.boot && s.max <= s.min }

  // ---------------------------------------------------------------- ids

  lemma TakeLow(pool: set<nat>, removing: set<nat>, dest: set<nat>,
                min: nat, max: nat, creating: set<nat>, taken: set<nat>)
    requires IdsOk(pool, removing, dest, min, max, creating, taken) && min < max
    ensures IdsOk(pool, removing, dest, min + 1, max, creating + {min}, taken)
    ensures taken == {} ==> IdsOk(pool, removing, dest, min + 1, max, creating, {min})
  {
    assert min !in creating;
  }

  lemma GiveLow(pool: set<nat>, removing: set<nat>, dest: set<nat>,
                min: nat, max: nat, creating: set<nat>, taken: set<nat>, id: nat)
    requires IdsOk(pool, removing, dest, min, max, creating, taken) && id in pool
    ensures id in creating ==> IdsOk(pool - {id}, removing, dest, min, max, creating - {id}, taken)
    ensures taken == {id} ==> IdsOk(pool - {id}, removing, dest, min, max, creating, {})
  {
  }

  lemma TakeHigh(pool: set<nat>, removing: set<nat>, dest: set<nat>,
                 min: nat, max: nat, creating: set<nat>, taken: set<nat>)
    requires IdsOk(pool, removing, dest, min, max, creating, taken)
    ensures max !in pool && max !in removing && max !in dest
    ensures IdsOk(pool, removing + {max}, dest, min, max + 1, creating, taken)
    ensures dest == {} ==> IdsOk(pool, removing, {max}, min, max + 1, creating, taken)
  {
    assert max !in creating && max !in taken;
  }

  lemma GiveHigh(pool: set<nat>, removing: set<nat>, dest: set<nat>,
                 min: nat, max: nat, creating: set<nat>, taken: set<nat>, id: nat)
    requires IdsOk(pool, removing, dest, min, max, creating, taken)
    ensures id in removing ==> id !in pool && IdsOk(pool + {id}, removing - {id}, dest, min, max, creating, taken)
    ensures dest == {id} ==> id !in pool && IdsOk(pool + {id}, removing, {}, min, max, creating, taken)
  {
  }

  // ---------------------------------------------------------------- tenant moves

  lemma CreateBeginKeeps(s: State)
    requires Inv(s) && Enabled(s, CreateBegin)
    ensures Inv(Apply(s, CreateBegin))
  {
    TakeLow(s.pool, s.removing, Dest(s.pc), s.min, s.max, s.creating, Taken(s.pc));
  }

  lemma CreateMoveKeeps(s: State, id: nat)
    requires Inv(s) && Enabled(s, CreateMove(id))
    ensures Inv(Apply(s, CreateMove(id)))
  {
    GiveLow(s.pool, s.removing, Dest(s.pc), s.min, s.max, s.creating, Taken(s.pc), id);
  }

  lemma RemoveBeginKeeps(s: State)
    requires Inv(s) && Enabled(s, RemoveBegin)
    ensures Inv(Apply(s, RemoveBegin))
  {
    TakeHigh(s.pool, s.removing, Dest(s.pc), s.min, s.max, s.creating, Taken(s.pc));
  }

  lemma RemoveMoveKeeps(s: State, id: nat)
    requires Inv(s) && Enabled(s, RemoveMove(id))
    ensures Inv(Apply(s, RemoveMove(id)))
  {
    GiveHigh(s.pool, s.removing, Dest(s.pc), s.min, s.max, s.creating, Taken(s.pc), id);
  }

  // ---------------------------------------------------------------- resizing

  /** A target is the largest multiple of the block size that is not above what was asked for. */
  lemma LowerAlignExactly(size: nat, target: nat)
    ensures target == LowerAlign(size) <==> target % BLOCK_SIZE == 0 && target <= size < target + BLOCK_SIZE
  {
    var k, r := size / BLOCK_SIZE, size % BLOCK_SIZE;
    assert LowerAlign(size) == BLOCK_SIZE * k;
  }

  lemma BlocksOfAligned(size: nat)
    ensures Aligned(LowerAlign(size))
    ensures Aligned(size) ==> size == BLOCK_SIZE * Blocks(size)
    ensures Blocks(BLOCK_SIZE * size) == size
  {
  }

  lemma AlignedOrder(a: nat, b: nat)
    requires Aligned(a) && Aligned(b)
    ensures a < b <==> Blocks(a) < Blocks(b)
  {
  }

  lemma ResizeBeginKeeps(s: State, bytes: nat)
    requires Inv(s) && Enabled(s, ResizeBegin(bytes))
    ensures Inv(Apply(s, ResizeBegin(bytes)))
  {
    var target := LowerAlign(bytes);
    BlocksOfAligned(bytes);
    AlignedOrder(s.meta.curr, target);
    AlignedOrder(target, s.meta.curr);
  }

  lemma AllocateOneKeeps(s: State, ok: bool, junk: set<nat>)
    requires Inv(s) && Enabled(s, AllocateOne(ok, junk))
    ensures Inv(Apply(s, AllocateOne(ok, junk)))
  {
  }

  lemma AllocateDoneKeeps(s: State)
    requires Inv(s) && Enabled(s, AllocateDone)
    ensures Inv(Apply(s, AllocateDone))
  {
  }

  lemma RemoveTmpKeeps(s: State)
    requires Inv(s) && Enabled(s, RemoveTmp)
    ensures Inv(Apply(s, RemoveTmp))
  {
  }

  lemma RestoreMetaKeeps(s: State)
    requires Inv(s) && Enabled(s, RestoreMeta)
    ensures Inv(Apply(s, RestoreMeta))
  {
  }

  lemma TakeMaxKeeps(s: State)
    requires Inv(s) && Enabled(s, TakeMax)
    ensures Inv(Apply(s, TakeMax))
  {
    var t := s.(max := s.max + 1, pc := s.pc.(dest := Some(s.max)));
    assert t == Apply(s, TakeMax);
    hide Apply, Enabled;
    TakeHigh(s.pool, s.removing, Dest(s.pc), s.min, s.max, s.creating, Taken(s.pc));
    assert Total(t) == Total(s);
  }

  lemma RenameFromTmpKeeps(s: State)
    requires Inv(s) && Enabled(s, RenameFromTmp)
    ensures Inv(Apply(s, RenameFromTmp))
  {
    var t := s.(tmp := s.tmp - {s.pc.moved}, pool := s.pool + {s.pc.dest.value},
                pc := s.pc.(moved := s.pc.moved + 1, dest := None));
    assert t == Apply(s, RenameFromTmp);
    hide Apply, Enabled;
    GiveHigh(s.pool, s.removing, Dest(s.pc), s.min, s.max, s.creating, Taken(s.pc), s.pc.dest.value);
  }

  lemma MovesDoneKeeps(s: State)
    requires Inv(s) && Enabled(s, MovesDone)
    ensures Inv(Apply(s, MovesDone))
  {
    assert s.tmp == {};
  }

  /** A shrink outside loading finds the pool empty exactly when tenants hold every remaining block. */
  lemma FreeCount(s: State)
    requires Inv(s) && s.pc.Free? && s.pc.taken.None?
    ensures !s.pc.boot ==> s.max - s.min == Blocks(s.meta.next) + (s.pc.cnt - s.pc.freed) - s.inUse
    ensures s.pc.boot ==> s.max - s.min == Blocks(s.meta.next) + (s.pc.cnt - s.pc.freed) - s.tenants
  {
  }

  /** Within the ledger a shrink outside loading finds a block. */
  lemma LedgerLeavesBlocks(s: State)
    requires Inv(s) && Enabled(s, TakeMin) && WithinLedger(s) && !s.pc.boot
    ensures s.min < s.max
  {
    FreeCount(s);
    BlocksOfAligned(s.meta.next);
  }

  lemma TakeMinKeeps(s: State)
    requires Inv(s) && Enabled(s, TakeMin) && !RunsDry(s, TakeMin)
    ensures Inv(Apply(s, TakeMin)) && (Apply(s, TakeMin).pc.Dry? ==> s.pc.boot)
  {
    var t := Apply(s, TakeMin);
    if s.min < s.max {
      TakeLow(s.pool, s.removing, Dest(s.pc), s.min, s.max, s.creating, Taken(s.pc));
      assert t == s.(min := s.min + 1, pc := s.pc.(taken := Some(s.min)));
    } else {
      assert t == s.(pc := Dry(s.pc.prior, true));
    }
    hide Apply, Enabled;
    assert Total(t) == Total(s);
  }

  lemma UnlinkKeeps(s: State)
    requires Inv(s) && Enabled(s, Unlink)
    ensures Inv(Apply(s, Unlink))
  {
    var t := s.(pool := s.pool - {s.pc.taken.value}, pc := s.pc.(freed := s.pc.freed + 1, taken := None));
    assert t == Apply(s, Unlink);
    hide Apply, Enabled;
    GiveLow(s.pool, s.removing, Dest(s.pc), s.min, s.max, s.creating, Taken(s.pc), s.pc.taken.value);
  }

  lemma FinishKeeps(s: State, a: Step)
    requires Inv(s) && Enabled(s, a) && (a.FreesDone? || a.WriteNormal? || a.SetLedger?)
    ensures Inv(Apply(s, a))
  {
  }

  // ---------------------------------------------------------------- restart

  lemma ScanKeeps(s: State, order: seq<nat>)
    requires Inv(s) && Enabled(s, ScanAndTrim(order))
    ensures Inv(Apply(s, ScanAndTrim(order)))
  {
    var t := BeginTrim(s, order);
    assert t == Apply(s, ScanAndTrim(order));
    hide Apply, Enabled;
    ListCount(order, s.pool);
    if order != [] {
      ScanTrimOk(s.pool, order, t.pc.at);
    }
    assert TrimOk(t.pool, t.min, t.max, t.pc.ids, t.pc.at);
    hide TrimOk;
    assert Total(t) == Total(s) && t.meta == s.meta && t.creating == t.removing == {} && t.inUse == 0;
  }

  ghost function AfterTrim(s: State): State
    requires s.pc.Trim? && s.pc.at < |s.pc.ids|
  {
    s.(pool := s.pool - {s.pc.ids[s.pc.at]} + {s.max}, max := s.max + 1, pc := s.pc.(at := s.pc.at + 1))
  }

  lemma AfterTrimKeeps(s: State)
    requires Inv(s) && s.pc.Trim? && s.pc.at < |s.pc.ids|
    ensures Inv(AfterTrim(s))
  {
    hide TrimOk, DurableOk;
    TrimStep(s.pool, s.min, s.max, s.pc.ids, s.pc.at);
    assert Total(AfterTrim(s)) == Total(s);
  }

  lemma TrimOneIs(s: State)
    requires Enabled(s, TrimOne)
    ensures s.pc.Trim? && s.pc.at < |s.pc.ids| && Apply(s, TrimOne) == AfterTrim(s)
  {
  }

  lemma TrimOneKeeps(s: State)
    requires Inv(s) && Enabled(s, TrimOne)
    ensures Inv(Apply(s, TrimOne))
  {
    hide Inv, Apply, Enabled, AfterTrim;
    TrimOneIs(s);
    AfterTrimKeeps(s);
  }

  lemma TrimDoneKeeps(s: State)
    requires Inv(s) && Enabled(s, TrimDone)
    ensures Inv(Apply(s, TrimDone))
  {
  }

  lemma ContinueKeeps(s: State)
    requires Inv(s) && Enabled(s, Continue)
    ensures Inv(Apply(s, Continue))
  {
    BlocksOfAligned(Total(s));
    assert Total(s) == s.pc.held + AbsDiff(s.min, s.max);
    var t := ContinueResize(s);
    assert t == Apply(s, Continue);
    hide Apply, Enabled;
    assert t == s.(pc := t.pc);
  }

  /** The integrity check that ends loading never fails. */
  lemma VerifyKeeps(s: State)
    requires Inv(s) && Enabled(s, Verify)
    ensures Inv(Apply(s, Verify)) && Apply(s, Verify).pc.Idle?
  {
    BlocksOfAligned(s.meta.curr);
  }

  lemma CrashKeeps(s: State, kept: set<nat>)
    requires Inv(s) && Enabled(s, Crash(kept))
    ensures Inv(Apply(s, Crash(kept)))
  {
  }

  predicate TenantStep(a: Step) {
    a.CreateBegin? || a.CreateMove? || a.RemoveBegin? || a.RemoveMove? || a.SetLedger?
  }

  predicate LoadStep(a: Step) {
    a.Crash? || a.ScanAndTrim? || a.TrimOne? || a.TrimDone? || a.Continue? || a.Verify?
  }

  lemma TenantStepKeeps(s: State, a: Step)
    requires Inv(s) && Enabled(s, a) && TenantStep(a)
    ensures Inv(Apply(s, a))
  {
    hide Inv, Apply, Enabled;
    match a
    case CreateBegin => CreateBeginKeeps(s);
    case CreateMove(id) => CreateMoveKeeps(s, id);
    case RemoveBegin => RemoveBeginKeeps(s);
    case RemoveMove(id) => RemoveMoveKeeps(s, id);
    case SetLedger(_) => FinishKeeps(s, a);
  }

  lemma LoadStepKeeps(s: State, a: Step)
    requires Inv(s) && Enabled(s, a) && LoadStep(a)
    ensures Inv(Apply(s, a))
  {
    hide Inv, Apply, Enabled;
    match a
    case Crash(kept) => CrashKeeps(s, kept);
    case ScanAndTrim(order) => ScanKeeps(s, order);
    case TrimOne => TrimOneKeeps(s);
    case TrimDone => TrimDoneKeeps(s);
    case Continue => ContinueKeeps(s);
    case Verify => VerifyKeeps(s);
  }

  predicate ExpandStep(a: Step) {
    || a.AllocateOne? || a.AllocateDone? || a.RemoveTmp? || a.TakeMax? || a.RenameFromTmp? || a.MovesDone?
  }

  lemma ExpandStepKeeps(s: State, a: Step)
    requires Inv(s) && Enabled(s, a) && ExpandStep(a)
    ensures Inv(Apply(s, a))
  {
    hide Inv, Apply, Enabled;
    match a
    case AllocateOne(ok, junk) => AllocateOneKeeps(s, ok, junk);
    case AllocateDone => AllocateDoneKeeps(s);
    case RemoveTmp => RemoveTmpKeeps(s);
    case TakeMax => TakeMaxKeeps(s);
    case RenameFromTmp => RenameFromTmpKeeps(s);
    case MovesDone => MovesDoneKeeps(s);
  }

  lemma ShrinkStepKeeps(s: State, a: Step)
    requires Inv(s) && Enabled(s, a) && !TenantStep(a) && !LoadStep(a) && !ExpandStep(a) && !RunsDry(s, a)
    ensures Inv(Apply(s, a))
  {
    hide Inv, Apply, Enabled;
    match a
    case ResizeBegin(bytes) => ResizeBeginKeeps(s, bytes);
    case RestoreMeta => RestoreMetaKeeps(s);
    case TakeMin => TakeMinKeeps(s);
    case Unlink => UnlinkKeeps(s);
    case FreesDone => FinishKeeps(s, a);
    case WriteNormal => FinishKeeps(s, a);
  }

  /** Every step keeps the invariant, except that of a shrink that runs dry. */
  lemma StepKeepsUnlessDry(s: State, a: Step)
    requires Inv(s) && Enabled(s, a) && !RunsDry(s, a)
    ensures Inv(Apply(s, a))
  {
    hide Inv, Apply, Enabled;
    if TenantStep(a) {
      TenantStepKeeps(s, a);
    } else if LoadStep(a) {
      LoadStepKeeps(s, a);
    } else if ExpandStep(a) {
      ExpandStepKeeps(s, a);
    } else {
      ShrinkStepKeeps(s, a);
    }
  }

  /** Within the ledger every step keeps it. */
  lemma StepKeepsInv(s: State, a: Step)
    requires Inv(s) && Enabled(s, a) && WithinLedger(s)
    ensures Inv(Apply(s, a)) && !RunsDry(s, a)
  {
    hide Inv, Apply;
    if RunsDry(s, a) {
      LedgerLeavesBlocks(s);
    }
    StepKeepsUnlessDry(s, a);
  }
}
