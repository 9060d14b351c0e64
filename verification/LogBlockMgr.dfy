/** ObServerLogBlockMgr itself. Each small method is one system call or one critical section and performs
    exactly one step of the state machine; the larger ones are the source's loops over them. The ghost
    `steps` they return is the run of the machine they went through, so every point between two system
    calls is covered by the theorems about runs. */
module LogBlockMgrs {
  import opened Common
  import opened BlockPool
  import opened BlockPoolTrim
  import TenantLedger

  datatype Ret =
    | Success
    | NotInit
    | InvalidArgument
    | EntryNotExist
    | Unexpected
    | NotSupported
    | AllocateDiskSpaceFailed
    | MachineResourceNotEnough
    | Failed

  class LogBlockMgr {
    var inited: bool
    var minBlockId: nat
    var maxBlockId: nat
    var blockCntInUse: int
    var logPoolMeta: Meta
    var minLogDiskSizeForAllTenants: nat
    // the directories on disk
    var poolDir: set<nat>
    var tmpDir: set<nat>
    var tenantBlocks: nat
    // where the machine stands
    ghost var creating: set<nat>
    ghost var removing: set<nat>
    ghost var pc: Pc

    ghost function Snapshot(): State
      reads this
    {
      State(poolDir, tmpDir, tenantBlocks, logPoolMeta, minBlockId, maxBlockId, blockCntInUse,
            minLogDiskSizeForAllTenants, creating, removing, pc)
    }

    /** No create or remove of another thread is in flight and the pool directory is exactly [min, max). */
    ghost predicate Tidy()
      reads this
    {
      creating == {} && removing == {} && minBlockId <= maxBlockId && poolDir == Range(minBlockId, maxBlockId)
    }

    constructor ()
      ensures Snapshot() == FRESH && !inited
    {
      inited := false;
      minBlockId, maxBlockId, blockCntInUse, minLogDiskSizeForAllTenants := 0, 0, 0, 0;
      logPoolMeta := Meta(0, 0, Normal);
      poolDir, tmpDir, tenantBlocks := {}, {}, 0;
      creating, removing, pc := {}, {}, Boot;
    }

    // ------------------------------------------------------------ single steps

    /** Takes the lowest free id, for a tenant that creates a block. */
    method TakeMinForCreate() returns (ret: Ret, id: nat)
      requires Serving(pc)
      modifies this
      ensures inited == old(inited)
      ensures ret == if old(minBlockId == maxBlockId) then EntryNotExist
                     else if old(minBlockId > maxBlockId) then Unexpected else Success
      ensures ret.Success? ==> id == old(minBlockId) && Snapshot() == Apply(old(Snapshot()), CreateBegin)
      ensures !ret.Success? ==> Snapshot() == old(Snapshot())
    {
      id := 0;
      if minBlockId == maxBlockId {
        ret := EntryNotExist;
      } else if minBlockId > maxBlockId {
        ret := Unexpected;
      } else {
        ret, id := Success, minBlockId;
        minBlockId, blockCntInUse := minBlockId + 1, blockCntInUse + 1;
        creating := creating + {id};
      }
    }

    /** Reserves the next high id, for a tenant that gives a block back. */
    method TakeMaxForRemove() returns (ret: Ret, id: nat)
      requires Enabled(Snapshot(), RemoveBegin)
      modifies this
      ensures inited == old(inited)
      ensures ret == if old(minBlockId > maxBlockId) then Unexpected else Success
      ensures ret.Success? ==> id == old(maxBlockId) && Snapshot() == Apply(old(Snapshot()), RemoveBegin)
      ensures !ret.Success? ==> Snapshot() == old(Snapshot())
    {
      id := 0;
      if minBlockId > maxBlockId {
        ret := Unexpected;
      } else {
        ret, id := Success, maxBlockId;
        maxBlockId, blockCntInUse := maxBlockId + 1, blockCntInUse - 1;
        removing := removing + {id};
      }
    }

    method RenameToTenant(id: nat)
      requires Enabled(Snapshot(), CreateMove(id))
      modifies this
      ensures inited == old(inited) && Snapshot() == Apply(old(Snapshot()), CreateMove(id))
    {
      poolDir, tenantBlocks := poolDir - {id}, tenantBlocks + 1;
      creating := creating - {id};
    }

    method RenameToPool(id: nat)
      requires Enabled(Snapshot(), RemoveMove(id))
      modifies this
      ensures inited == old(inited) && Snapshot() == Apply(old(Snapshot()), RemoveMove(id))
    {
      poolDir, tenantBlocks := poolDir + {id}, tenantBlocks - 1;
      removing := removing - {id};
    }

    /** Moves a block from the pool to a tenant directory. */
    method CreateBlockAt(blockSize: nat) returns (ret: Ret, ghost steps: seq<Step>)
      requires Tidy() && Serving(pc)
      modifies this
      ensures inited == old(inited) && Tidy() && Leads(old(Snapshot()), steps, Snapshot())
      ensures ret == if !old(inited) then NotInit
                     else if blockSize != BLOCK_SIZE then InvalidArgument
                     else if old(minBlockId == maxBlockId) then EntryNotExist else Success
      ensures !ret.Success? ==> Snapshot() == old(Snapshot())
      ensures ret.Success? ==>
                Snapshot() == old(Snapshot()).(pool := poolDir, min := old(minBlockId) + 1,
                                inUse := old(blockCntInUse) + 1, tenants := old(tenantBlocks) + 1)
    {
      ghost var s := Snapshot();
      LeadsNowhere(s);
      steps := [];
      if !inited { return NotInit, []; }
      if blockSize != BLOCK_SIZE { return InvalidArgument, []; }
      var id;
      ret, id := TakeMinForCreate();
      if ret.Success? {
        LeadsOn(s, [], s, CreateBegin);
        RenameToTenant(id);
        LeadsOn(s, [CreateBegin], Apply(s, CreateBegin), CreateMove(id));
        steps := [CreateBegin] + [CreateMove(id)];
      }
    }

    /** Moves a tenant's palf block back into the pool. */
    method RemoveBlockAt() returns (ret: Ret, ghost steps: seq<Step>)
      requires Tidy() && Serving(pc) && 0 < tenantBlocks
      modifies this
      ensures inited == old(inited) && Tidy() && Leads(old(Snapshot()), steps, Snapshot())
      ensures ret == if old(inited) then Success else NotInit
      ensures !ret.Success? ==> Snapshot() == old(Snapshot())
      ensures ret.Success? ==>
                Snapshot() == old(Snapshot()).(pool := poolDir, max := old(maxBlockId) + 1,
                                inUse := old(blockCntInUse) - 1, tenants := old(tenantBlocks) - 1)
    {
      ghost var s := Snapshot();
      LeadsNowhere(s);
      if !inited { return NotInit, []; }
      var id;
      ret, id := TakeMaxForRemove();
      LeadsOn(s, [], s, RemoveBegin);
      RenameToPool(id);
      LeadsOn(s, [RemoveBegin], Apply(s, RemoveBegin), RemoveMove(id));
      steps := [RemoveBegin] + [RemoveMove(id)];
    }

    // ------------------------------------------------------------ resizing

    /** openat and fallocate of one block in the expanding directory. */
    method AllocateBlockAtTmpDir(id: nat, ok: bool, junk: set<nat>)
      requires Enabled(Snapshot(), AllocateOne(ok, junk)) && id == pc.done
      modifies this
      ensures inited == old(inited) && Snapshot() == Apply(old(Snapshot()), AllocateOne(ok, junk))
    {
      if ok {
        tmpDir := tmpDir + {id};
        pc := pc.(done := id + 1);
      } else {
        tmpDir := tmpDir + junk;
        pc := Discard(pc.prior, pc.boot);
      }
    }

    /** `granted` is the number of blocks the file system still has room for. */
    method AllocateBlocksAtTmpDir(cnt: nat, granted: nat, junk: set<nat>) returns (ret: Ret, ghost steps: seq<Step>)
      requires pc.Alloc? && pc.cnt == cnt && pc.done == 0 && tmpDir == {}
      modifies this
      ensures inited == old(inited) && Leads(old(Snapshot()), steps, Snapshot())
      ensures ret == if cnt <= granted then Success else AllocateDiskSpaceFailed
      ensures Snapshot() == old(Snapshot()).(tmp := tmpDir, pc := pc)
      ensures ret.Success? ==> pc == Move(cnt, 0, None, old(pc).boot) && tmpDir == Range(0, cnt)
      ensures !ret.Success? ==> pc == Discard(old(pc).prior, old(pc).boot)
    {
      hide Runs, After;
      ret, steps := Success, [];
      LeadsNowhere(Snapshot());
      var id := 0;
      while ret.Success? && id < cnt
        invariant id <= cnt && inited == old(inited)
        invariant Leads(old(Snapshot()), steps, Snapshot())
        invariant Snapshot() == old(Snapshot()).(tmp := tmpDir, pc := pc)
        invariant ret.Success? ==> pc == old(pc).(done := id) && id <= granted && tmpDir == Range(0, id)
        invariant !ret.Success? ==> pc == Discard(old(pc).prior, old(pc).boot) && granted < cnt
        invariant ret.Success? || ret.AllocateDiskSpaceFailed?
        decreases ret.Success?, cnt - id
      {
        ghost var s, ok := Snapshot(), id < granted;
        AllocateBlockAtTmpDir(id, id < granted, junk);
        LeadsOn(old(Snapshot()), steps, s, AllocateOne(ok, junk));
        steps := steps + [AllocateOne(ok, junk)];
        if id < granted { id := id + 1; } else { ret := AllocateDiskSpaceFailed; }
      }
      if ret.Success? {
        LeadsOn(old(Snapshot()), steps, Snapshot(), AllocateDone);
        steps := steps + [AllocateDone];
        pc := Move(cnt, 0, None, pc.boot);
      }
    }

    /** The next high id, for the resize. */
    method TakeMaxForExpand() returns (id: nat)
      requires Enabled(Snapshot(), TakeMax)
      modifies this
      ensures inited == old(inited) && id == old(maxBlockId) && Snapshot() == Apply(old(Snapshot()), TakeMax)
    {
      id := maxBlockId;
      maxBlockId := maxBlockId + 1;
      pc := pc.(dest := Some(id));
    }

    method RenameFromTmpDir(src: nat, dest: nat)
      requires Enabled(Snapshot(), RenameFromTmp) && src == pc.moved && dest == pc.dest.value
      modifies this
      ensures inited == old(inited) && Snapshot() == Apply(old(Snapshot()), RenameFromTmp)
    {
      tmpDir, poolDir := tmpDir - {src}, poolDir + {dest};
      pc := pc.(moved := src + 1, dest := None);
    }

    method MoveOneBlock(src: nat, cnt: nat, ghost s: State)
      requires s.pc.Move? && s.pc.cnt == cnt && s.pc.dest.None? && s.min <= s.max && src < cnt
      requires Snapshot() == Moved(s, src, cnt)
      modifies this
      ensures inited == old(inited) && Snapshot() == Moved(s, src + 1, cnt)
    {
      MovedSucc(s, src, cnt);
      var dest := TakeMaxForExpand();
      RenameFromTmpDir(src, dest);
    }

    method MoveBlocksFromTmpDirToLogPool(cnt: nat) returns (ghost steps: seq<Step>)
      requires Tidy() && pc.Move? && pc.cnt == cnt && pc.moved == 0 && pc.dest.None? && tmpDir == Range(0, cnt)
      modifies this
      ensures inited == old(inited) && Leads(old(Snapshot()), steps, Snapshot())
      ensures Snapshot() == Spans(old(Snapshot()), old(minBlockId), old(maxBlockId) + cnt)
                            .(tmp := {}, pc := Clean(old(pc).boot))
    {
      hide Runs, After;
      ghost var s := Snapshot();
      steps := [];
      LeadsNowhere(s);
      var src := 0;
      while src < cnt
        invariant src <= cnt && inited == old(inited)
        invariant Leads(s, steps, Snapshot())
        invariant Snapshot() == Moved(s, src, cnt)
      {
        MovedSucc(s, src, cnt);
        MoveOneBlock(src, cnt, s);
        LeadsJoin(s, steps, Moved(s, src, cnt), [TakeMax, RenameFromTmp], Snapshot());
        steps := steps + [TakeMax, RenameFromTmp];
        src := src + 1;
      }
      LeadsOn(s, steps, Snapshot(), MovesDone);
      steps := steps + [MovesDone];
      pc := Clean(pc.boot);
    }

    method RemoveResizingTmpDir()
      requires Enabled(Snapshot(), RemoveTmp)
      modifies this
      ensures inited == old(inited) && Snapshot() == Apply(old(Snapshot()), RemoveTmp)
    {
      tmpDir := {};
      pc := if pc.Discard? then Revert(pc.prior, pc.boot) else Commit(pc.boot);
    }

    /** Allocates all blocks aside, then moves them into the pool; a failed allocation leaves the pool alone. */
    method DoExpand(cnt: nat, granted: nat, junk: set<nat>) returns (ret: Ret, ghost steps: seq<Step>)
      requires Tidy() && pc.Alloc? && pc.cnt == cnt && pc.done == 0 && tmpDir == {}
      modifies this
      ensures inited == old(inited) && Leads(old(Snapshot()), steps, Snapshot())
      ensures ret == if cnt <= granted then Success else AllocateDiskSpaceFailed
      ensures Snapshot() == if ret.Success?
                            then Spans(old(Snapshot()), old(minBlockId), old(maxBlockId) + cnt).(pc := Commit(old(pc).boot))
                            else old(Snapshot()).(pc := Revert(old(pc).prior, old(pc).boot))
    {
      ghost var s, more := Snapshot(), [];
      ret, steps := AllocateBlocksAtTmpDir(cnt, granted, junk);
      ghost var t := Snapshot();
      if ret.Success? {
        more := MoveBlocksFromTmpDirToLogPool(cnt);
        LeadsJoin(s, steps, t, more, Snapshot());
        steps, t := steps + more, Snapshot();
      }
      RemoveResizingTmpDir();
      LeadsOn(s, steps, t, RemoveTmp);
      steps := steps + [RemoveTmp];
    }

    method TakeMinForShrink() returns (ret: Ret, id: nat)
      requires Enabled(Snapshot(), TakeMin) && minBlockId <= maxBlockId
      modifies this
      ensures inited == old(inited) && Snapshot() == Apply(old(Snapshot()), TakeMin)
      ensures ret == if old(minBlockId == maxBlockId) then EntryNotExist else Success
      ensures id == old(minBlockId)
    {
      id := minBlockId;
      if minBlockId == maxBlockId {
        ret, pc := EntryNotExist, Dry(pc.prior, pc.boot);
      } else {
        ret := Success;
        minBlockId := minBlockId + 1;
        pc := pc.(taken := Some(id));
      }
    }

    method FreeBlockAt(id: nat)
      requires Enabled(Snapshot(), Unlink) && id == pc.taken.value
      modifies this
      ensures inited == old(inited) && Snapshot() == Apply(old(Snapshot()), Unlink)
    {
      poolDir := poolDir - {id};
      pc := pc.(freed := pc.freed + 1, taken := None);
    }

    /** Takes and unlinks the lowest block, if there is one. */
    method FreeOneBlock(freed: nat, ghost s: State) returns (ret: Ret)
      requires s.pc.Free? && s.pc.taken.None? && freed < s.pc.cnt && s.min + freed <= s.max
      requires Snapshot() == Freed(s, freed)
      modifies this
      ensures inited == old(inited) && ret == if s.min + freed == s.max then EntryNotExist else Success
      ensures Snapshot() == if ret.Success? then Freed(s, freed + 1)
                            else Spans(s, s.max, s.max).(pc := Dry(s.pc.prior, s.pc.boot))
    {
      FreedSucc(s, freed);
      var id;
      ret, id := TakeMinForShrink();
      if ret.Success? {
        FreeBlockAt(id);
      }
    }

    /** Unlinks the lowest blocks; fails, with the pool empty, when it holds fewer than `cnt`. */
    method FreeBlocksAtLogPool(cnt: nat) returns (ret: Ret, ghost steps: seq<Step>)
      requires Tidy() && pc.Free? && pc.cnt == cnt && pc.freed == 0 && pc.taken.None?
      modifies this
      ensures inited == old(inited) && Leads(old(Snapshot()), steps, Snapshot())
      ensures ret == if cnt <= old(maxBlockId - minBlockId) then Success else EntryNotExist
      ensures Snapshot() == if ret.Success? then Freed(old(Snapshot()), cnt)
                            else Spans(old(Snapshot()), old(maxBlockId), old(maxBlockId))
                                 .(pc := Dry(old(pc).prior, old(pc).boot))
    {
      ghost var s := Snapshot();
      ret, steps := Success, [];
      LeadsNowhere(s);
      var freed := 0;
      while ret.Success? && freed < cnt
        invariant freed <= cnt && freed <= s.max - s.min && inited == old(inited)
        invariant Leads(s, steps, Snapshot())
        invariant ret.Success? || ret.EntryNotExist?
        invariant ret.Success? ==> Snapshot() == Freed(s, freed)
        invariant !ret.Success? ==> freed == s.max - s.min < cnt
        invariant !ret.Success? ==> Snapshot() == Spans(s, s.max, s.max).(pc := Dry(s.pc.prior, s.pc.boot))
        decreases ret.Success?, cnt - freed
      {
        FreedSucc(s, freed);
        ret := FreeOneBlock(freed, s);
        if ret.Success? {
          LeadsJoin(s, steps, Freed(s, freed), [TakeMin, Unlink], Snapshot());
          steps := steps + [TakeMin, Unlink];
          freed := freed + 1;
        } else {
          LeadsJoin(s, steps, Freed(s, freed), [TakeMin], Snapshot());
          steps := steps + [TakeMin];
        }
      }
    }

    method DoShrink(cnt: nat) returns (ret: Ret, ghost steps: seq<Step>)
      requires Tidy() && pc.Free? && pc.cnt == cnt && pc.freed == 0 && pc.taken.None?
      modifies this
      ensures inited == old(inited) && Leads(old(Snapshot()), steps, Snapshot())
      ensures ret == if cnt <= old(maxBlockId - minBlockId) then Success else EntryNotExist
      ensures Snapshot() == if ret.Success?
                            then Spans(old(Snapshot()), old(minBlockId) + cnt, old(maxBlockId)).(pc := Commit(old(pc).boot))
                            else Spans(old(Snapshot()), old(maxBlockId), old(maxBlockId))
                                 .(pc := Dry(old(pc).prior, old(pc).boot))
    {
      ret, steps := FreeBlocksAtLogPool(cnt);
      if ret.Success? {
        LeadsOn(old(Snapshot()), steps, Snapshot(), FreesDone);
        steps := steps + [FreesDone];
        pc := Commit(pc.boot);
      }
    }

    /** Persists the outcome of a resize: the target when all blocks moved, `prior` otherwise. */
    method FinishResize(ok: bool, prior: Meta, goal: Meta, boot: bool) returns (ghost steps: seq<Step>)
      requires logPoolMeta == goal
      requires if ok then pc == Commit(boot) else pc == Revert(prior, boot) || pc == Dry(prior, boot)
      modifies this
      ensures inited == old(inited) && Leads(old(Snapshot()), steps, Snapshot())
      ensures Snapshot() == Ended(old(Snapshot()), ok, prior, goal, boot)
    {
      LeadsNowhere(Snapshot());
      ghost var last := if ok then WriteNormal else RestoreMeta;
      LeadsOn(Snapshot(), [], Snapshot(), last);
      steps := [] + [last];
      if ok {
        logPoolMeta := Meta(goal.next, goal.next, Normal);
        pc := if boot then Check(tenantBlocks) else Idle;
      } else {
        logPoolMeta := prior;
        pc := if boot then Dead else Idle;
      }
    }

    /** Moves the blocks a resize asks for. */
    method MoveForResize(prior: Meta, cnt: nat, goal: Meta, granted: nat, junk: set<nat>, ghost boot: bool)
      returns (ret: Ret, ghost steps: seq<Step>)
      requires Tidy() && tmpDir == {} && pc == Starting(prior, cnt, goal, boot)
      modifies this
      ensures inited == old(inited) && Leads(old(Snapshot()), steps, Snapshot())
      ensures ret == ResizeRet(goal, cnt, old(maxBlockId - minBlockId), granted)
      ensures Snapshot() == Resized(old(Snapshot()), cnt, goal, ret).(pc := pc)
      ensures if ret.Success? then pc == Commit(boot) else pc == Revert(prior, boot) || pc == Dry(prior, boot)
    {
      if goal.status.Expanding? {
        ret, steps := DoExpand(cnt, granted, junk);
      } else {
        ret, steps := DoShrink(cnt);
      }
    }

    /** Persists the target, moves the blocks, then persists the outcome. `begin` is the step that starts it,
        a resize or the one continued by a load. */
    method DoResize(prior: Meta, cnt: nat, goal: Meta, granted: nat, junk: set<nat>, ghost begin: Step, boot: bool)
      returns (ret: Ret, ghost steps: seq<Step>)
      requires Tidy() && tmpDir == {}
      requires Leads(Snapshot(), [begin], Snapshot().(meta := goal, pc := Starting(prior, cnt, goal, boot)))
      modifies this
      ensures inited == old(inited) && Leads(old(Snapshot()), steps, Snapshot())
      ensures ret == ResizeRet(goal, cnt, old(maxBlockId - minBlockId), granted)
      ensures Snapshot() == Ended(Resized(old(Snapshot()), cnt, goal, ret), ret.Success?, prior, goal, boot)
    {
      hide Leads, ResizeRet;
      ghost var s := Snapshot();
      logPoolMeta := goal;
      pc := Starting(prior, cnt, goal, boot);
      ghost var t := Snapshot();
      ret, steps := MoveForResize(prior, cnt, goal, granted, junk, boot);
      ghost var u := Snapshot();
      LeadsJoin(s, [begin], t, steps, u);
      ghost var last := FinishResize(ret.Success?, prior, goal, boot);
      LeadsJoin(s, [begin] + steps, u, last, Snapshot());
      steps := [begin] + steps + last;
    }

    /** Changes the size of the pool to whole blocks, at most what was asked for, when it can hold all tenants
        afterwards. */
    method Resize(bytes: nat, granted: nat, junk: set<nat>) returns (ret: Ret, ghost steps: seq<Step>)
      requires Tidy() && pc.Idle? && tmpDir == {} && logPoolMeta.status.Normal?
      modifies this
      ensures inited == old(inited) && Tidy() && pc.Idle? && Leads(old(Snapshot()), steps, Snapshot())
      ensures var target, have := bytes / BLOCK_SIZE * BLOCK_SIZE, old(logPoolMeta.curr);
              ret == if !inited then NotInit
                     else if target == have then Success
                     else if target < old(minLogDiskSizeForAllTenants) then NotSupported
                     else if have < target then
                       if bytes / BLOCK_SIZE - have / BLOCK_SIZE <= granted then Success else MachineResourceNotEnough
                     else
                       if have / BLOCK_SIZE - bytes / BLOCK_SIZE <= old(maxBlockId - minBlockId) then Success else EntryNotExist
      ensures ret.NotInit? || ret.NotSupported? || ret.MachineResourceNotEnough? ==> Snapshot() == old(Snapshot())
      ensures ret.EntryNotExist? ==> Snapshot() == old(Snapshot()).(pool := {}, min := old(maxBlockId))
      ensures ret.Success? ==>
                maxBlockId - minBlockId ==
                old(maxBlockId - minBlockId) + (bytes / BLOCK_SIZE - old(logPoolMeta.curr) / BLOCK_SIZE) &&
                logPoolMeta.curr % BLOCK_SIZE == 0 && logPoolMeta.curr <= bytes < logPoolMeta.curr + BLOCK_SIZE &&
                logPoolMeta.status.Normal? &&
                Snapshot() == old(Snapshot()).(pool := poolDir, min := minBlockId, max := maxBlockId, meta := logPoolMeta)
    {
      LowerAligned(bytes);
      var prior := logPoolMeta;
      var target := LowerAlign(bytes);
      var cnt := AbsDiff(Blocks(target), Blocks(prior.curr));
      LeadsNowhere(Snapshot());
      if !inited {
        return NotInit, [];
      }
      if target == prior.curr {
        return Success, [];
      }
      if target < minLogDiskSizeForAllTenants {
        return NotSupported, [];
      }
      LeadsOn(Snapshot(), [], Snapshot(), ResizeBegin(bytes));
      assert [] + [ResizeBegin(bytes)] == [ResizeBegin(bytes)];
      ret, steps := DoResize(prior, cnt, GoalOf(prior, target), granted, junk, ResizeBegin(bytes), false);
      if ret.AllocateDiskSpaceFailed? {
        ret := MachineResourceNotEnough;
      }
    }

    // ------------------------------------------------------------ tenants

    /** Reserves `size` bytes for a new tenant, if the pool can still hold it. */
    method CreateTenant(size: nat) returns (ret: Ret)
      requires pc.Idle?
      modifies this`minLogDiskSizeForAllTenants
      ensures ret == if !inited then NotInit
                     else if old(minLogDiskSizeForAllTenants) + size <= logPoolMeta.curr then Success
                     else MachineResourceNotEnough
      ensures if ret.Success? then minLogDiskSizeForAllTenants == old(minLogDiskSizeForAllTenants) + size else unchanged(this)
      ensures inited ==>
                var r := TenantLedger.AfterCreate(logPoolMeta.curr, old(minLogDiskSizeForAllTenants), size);
                (r.Some? <==> ret.Success?) && (r.Some? ==> r.value == minLogDiskSizeForAllTenants)
      ensures ret.Success? ==> Leads(old(Snapshot()), [SetLedger(minLogDiskSizeForAllTenants)], Snapshot())
    {
      if !inited {
        return NotInit;
      }
      var reserved := minLogDiskSizeForAllTenants + size;
      if reserved > logPoolMeta.curr {
        return MachineResourceNotEnough;
      }
      LeadsOne(Snapshot(), SetLedger(reserved));
      minLogDiskSizeForAllTenants := reserved;
      ret := Success;
    }

    /** Gives back what CreateTenant reserved; the source asserts that it is still reserved. */
    method AbortCreateTenant(size: nat)
      requires pc.Idle? && size <= minLogDiskSizeForAllTenants <= logPoolMeta.curr
      modifies this`minLogDiskSizeForAllTenants
      ensures minLogDiskSizeForAllTenants == if inited then old(minLogDiskSizeForAllTenants) - size
                                             else old(minLogDiskSizeForAllTenants)
      ensures Leads(old(Snapshot()), [SetLedger(minLogDiskSizeForAllTenants)], Snapshot())
    {
      LeadsOne(Snapshot(), SetLedger(if inited then minLogDiskSizeForAllTenants - size else minLogDiskSizeForAllTenants));
      if inited {
        minLogDiskSizeForAllTenants := minLogDiskSizeForAllTenants - size;
      }
    }

    /** `stable` and `palfOk` are palf's answers: its stable size, None if it cannot tell, and whether it took
        the new limit. */
    method UpdateTenant(recorded: int, wanted: int, stable: Option<nat>, palfOk: bool) returns (ret: Ret, allowed: nat)
      requires pc.Idle? && recorded <= minLogDiskSizeForAllTenants
      modifies this`minLogDiskSizeForAllTenants
      ensures ret.NotInit? <==> !inited
      ensures ret.InvalidArgument? <==> inited && (recorded < 0 || wanted < 0)
      ensures inited && 0 <= recorded && 0 <= wanted && stable.None? ==> ret.Failed?
      ensures inited && 0 <= recorded && 0 <= wanted && stable.Some? ==>
                var reserved := old(minLogDiskSizeForAllTenants) - recorded + allowed;
                && allowed == (if wanted == 0 || stable.value <= wanted then wanted else recorded)
                && ret == (if logPoolMeta.curr < reserved then MachineResourceNotEnough else if palfOk then Success else Failed)
                && (ret.Success? ==> minLogDiskSizeForAllTenants == reserved)
      ensures inited && 0 <= recorded && 0 <= wanted && stable.Some? && palfOk ==>
                var r := TenantLedger.AfterUpdate(logPoolMeta.curr, old(minLogDiskSizeForAllTenants), recorded, wanted, stable.value);
                && allowed == TenantLedger.Allowed(recorded, wanted, stable.value)
                && (r.Some? <==> ret.Success?) && (r.Some? ==> r.value == minLogDiskSizeForAllTenants)
      ensures !ret.Success? ==> unchanged(this)
      ensures ret.Success? ==> Leads(old(Snapshot()), [SetLedger(minLogDiskSizeForAllTenants)], Snapshot())
    {
      if !inited {
        return NotInit, 0;
      }
      if recorded < 0 || wanted < 0 {
        return InvalidArgument, 0;
      }
      if stable.None? {
        return Failed, 0;
      }
      allowed := if wanted >= stable.value || wanted == 0 then wanted else recorded;
      var reserved := minLogDiskSizeForAllTenants - recorded + allowed;
      if reserved > logPoolMeta.curr {
        return MachineResourceNotEnough, allowed;
      }
      if !palfOk {
        return Failed, allowed;
      }
      LeadsOne(Snapshot(), SetLedger(reserved));
      minLogDiskSizeForAllTenants := reserved;
      ret := Success;
    }

    method RemoveTenant(size: nat) returns (ret: Ret)
      requires pc.Idle?
      modifies this`minLogDiskSizeForAllTenants
      ensures ret == if !inited then NotInit
                     else if size <= old(minLogDiskSizeForAllTenants) then Success else Unexpected
      ensures if ret.Success? then minLogDiskSizeForAllTenants == old(minLogDiskSizeForAllTenants) - size else unchanged(this)
      ensures inited ==>
                var r := TenantLedger.AfterRemove(old(minLogDiskSizeForAllTenants), size);
                (r.Some? <==> ret.Success?) && (r.Some? ==> r.value == minLogDiskSizeForAllTenants)
      ensures ret.Success? && minLogDiskSizeForAllTenants <= logPoolMeta.curr ==>
                Leads(old(Snapshot()), [SetLedger(minLogDiskSizeForAllTenants)], Snapshot())
    {
      if !inited {
        return NotInit;
      }
      if minLogDiskSizeForAllTenants - size < 0 {
        return Unexpected;
      }
      if minLogDiskSizeForAllTenants - size <= logPoolMeta.curr {
        LeadsOne(Snapshot(), SetLedger(minLogDiskSizeForAllTenants - size));
      }
      minLogDiskSizeForAllTenants := minLogDiskSizeForAllTenants - size;
      ret := Success;
    }

    // ------------------------------------------------------------ loading

    /** One rename of the trim. */
    method TrimBlock(src: nat)
      requires pc.Trim? && pc.at < |pc.ids| && src == pc.ids[pc.at]
      requires TrimOk(poolDir, minBlockId, maxBlockId, pc.ids, pc.at)
      modifies this
      ensures TrimOk(poolDir, minBlockId, maxBlockId, old(pc).ids, old(pc).at + 1)
      ensures inited == old(inited) && Leads(old(Snapshot()), [TrimOne], Snapshot())
      ensures Snapshot() == old(Snapshot()).(pool := old(poolDir) - {src} + {old(maxBlockId)},
                              max := old(maxBlockId) + 1, pc := old(pc).(at := old(pc).at + 1))
    {
      hide TrimOk;
      LeadsOne(Snapshot(), TrimOne);
      TrimStep(poolDir, minBlockId, maxBlockId, pc.ids, pc.at);
      poolDir, maxBlockId := poolDir - {src} + {maxBlockId}, maxBlockId + 1;
      pc := pc.(at := pc.at + 1);
    }

    /** Renames every block from position `first` on to the next id. */
    method TrimLogPoolDir(ids: seq<nat>, first: nat) returns (ghost steps: seq<Step>)
      requires pc.Trim? && pc.ids == ids && pc.at == first <= |ids| && TrimOk(poolDir, minBlockId, maxBlockId, ids, first)
      modifies this
      ensures inited == old(inited) && Leads(old(Snapshot()), steps, Snapshot())
      ensures TrimOk(poolDir, minBlockId, maxBlockId, ids, |ids|)
      ensures Snapshot() == old(Snapshot()).(pool := poolDir, max := maxBlockId, pc := old(pc).(at := |ids|))
    {
      hide Runs, After, TrimOk;
      ghost var s := Snapshot();
      steps := [];
      LeadsNowhere(s);
      var idx := first;
      while idx < |ids|
        invariant idx <= |ids| && inited == old(inited)
        invariant Leads(s, steps, Snapshot())
        invariant TrimOk(poolDir, minBlockId, maxBlockId, ids, idx)
        invariant Snapshot() == s.(pool := poolDir, max := maxBlockId, pc := s.pc.(at := idx))
      {
        ghost var t := Snapshot();
        TrimBlock(ids[idx]);
        LeadsJoin(s, steps, t, [TrimOne], Snapshot());
        steps := steps + [TrimOne];
        idx := idx + 1;
      }
    }

    /** Drops the expanding directory, lists the block ids in order and finds the first gap. */
    method ScanLogPoolDir() returns (ids: seq<nat>, first: nat, ghost steps: seq<Step>)
      requires pc.Boot? && minBlockId == maxBlockId == 0
      modifies this
      ensures inited == old(inited) && Leads(old(Snapshot()), steps, Snapshot())
      ensures Lists(ids, poolDir) && TrimOk(poolDir, minBlockId, maxBlockId, ids, first)
      ensures ids == [] ==> minBlockId == 0
      ensures Snapshot() == old(Snapshot()).(tmp := {}, min := minBlockId, max := maxBlockId,
                                             pc := Trim(ids, first, tenantBlocks))
    {
      hide Leads, TrimOk, Lists;
      ids := SortedIds(poolDir);
      ScannedAs(Snapshot(), ids);
      steps := [ScanAndTrim(ids)];
      first := 0;
      tmpDir := {};
      if ids != [] {
        var gap := FindFirstGap(ids);
        first := if gap == 0 then |ids| else gap;
        minBlockId, maxBlockId := ids[0], ids[first - 1] + 1;
      }
      pc := Trim(ids, first, tenantBlocks);
    }

    /** Compacts the pool: the count stays, and the range starts at the least id found. */
    method ScanLogPoolDirAndDoTrim() returns (ghost steps: seq<Step>)
      requires pc.Boot? && creating == {} && removing == {} && minBlockId == maxBlockId == 0
      modifies this
      ensures inited == old(inited) && Leads(old(Snapshot()), steps, Snapshot())
      ensures maxBlockId == minBlockId + |old(poolDir)|
      ensures forall i | i in old(poolDir) :: minBlockId <= i
      ensures if old(poolDir) == {} then minBlockId == 0 else minBlockId in old(poolDir)
      ensures Snapshot() == Spans(old(Snapshot()), minBlockId, maxBlockId).(tmp := {}, pc := Resume(tenantBlocks))
    {
      ghost var s := Snapshot();
      var ids, first;
      ids, first, steps := ScanLogPoolDir();
      ListCount(ids, s.pool);
      ghost var t := Snapshot();
      ghost var more := TrimLogPoolDir(ids, first);
      LeadsJoin(s, steps, t, more, Snapshot());
      steps := steps + more;
      LeadsOn(s, steps, Snapshot(), TrimDone);
      steps := steps + [TrimDone];
      pc := Resume(tenantBlocks);
      assert poolDir == Range(minBlockId, maxBlockId);
    }

    /** Finishes a resize that a crash interrupted. */
    method TryContinueToResize(held: nat, granted: nat, junk: set<nat>) returns (ret: Ret, ghost steps: seq<Step>)
      requires Tidy() && tmpDir == {} && pc == Resume(held) && held == tenantBlocks
      modifies this
      ensures inited == old(inited) && Leads(old(Snapshot()), steps, Snapshot())
      ensures ret == ContinueRet(old(logPoolMeta), held, old(maxBlockId - minBlockId), granted)
      ensures ret.Success? ==>
                Tidy() && logPoolMeta == Settled(old(logPoolMeta)) &&
                maxBlockId - minBlockId == FreeAfter(old(logPoolMeta), held, old(maxBlockId - minBlockId)) &&
                Snapshot() == old(Snapshot()).(pool := poolDir, min := minBlockId, max := maxBlockId,
                                               meta := logPoolMeta, pc := Check(held))
    {
      var m := logPoolMeta;
      var cnt := MissingBlocks(m, held, maxBlockId - minBlockId);
      LeadsOne(Snapshot(), Continue);
      if m.status.Normal? {
        pc := Check(held);
        return Success, [Continue];
      }
      ret, steps := DoResize(m, cnt, m, granted, junk, Continue, true);
    }

    /** Loads after a restart, crash or not. It succeeds exactly when the interrupted resize can be finished
        and the blocks found then match the meta. */
    method DoLoad(granted: nat, junk: set<nat>) returns (ret: Ret, ghost steps: seq<Step>)
      requires pc.Boot? && creating == {} && removing == {} && minBlockId == maxBlockId == blockCntInUse == 0
      modifies this
      ensures inited == old(inited) && Leads(old(Snapshot()), steps, Snapshot())
      ensures ret.Success? <==> Loads(old(logPoolMeta), old(tenantBlocks), |old(poolDir)|, granted)
      ensures ret.Success? ==>
                Tidy() && pc.Idle? && tmpDir == {} && logPoolMeta == Settled(old(logPoolMeta)) &&
                tenantBlocks == old(tenantBlocks) == blockCntInUse &&
                logPoolMeta.curr == BLOCK_SIZE * (blockCntInUse + (maxBlockId - minBlockId))
    {
      ghost var s := Snapshot();
      var held := tenantBlocks;
      steps := ScanLogPoolDirAndDoTrim();
      ghost var t, more := Snapshot(), [];
      ret, more := TryContinueToResize(held, granted, junk);
      LeadsJoin(s, steps, t, more, Snapshot());
      steps := steps + more;
      if ret.Success? {
        LeadsOn(s, steps, Snapshot(), Verify);
        steps := steps + [Verify];
        if logPoolMeta.curr != BLOCK_SIZE * (held + (maxBlockId - minBlockId)) {
          ret, pc := Unexpected, Dead;
        } else {
          blockCntInUse, pc := held, Idle;
        }
      }
    }
  }

  lemma {:induction false} HasLeast(ids: set<nat>) returns (m: nat)
    requires ids != {}
    ensures m in ids && forall i | i in ids :: m <= i
  {
    m :| m in ids;
    var rest := ids - {m};
    assert ids == rest + {m};
    if rest != {} {
      var k := HasLeast(rest);
      m := if k < m then k else m;
    }
  }

  /** The ids in increasing order. */
  method SortedIds(ids: set<nat>) returns (q: seq<nat>)
    ensures Lists(q, ids)
  {
    q := [];
    var rest := ids;
    while rest != {}
      invariant Lists(q, ids - rest) && rest <= ids
      invariant forall i, j | 0 <= i < |q| && j in rest :: q[i] < j
      decreases rest
    {
      ghost var least := HasLeast(rest);
      var m :| m in rest && forall i | i in rest :: m <= i;
      q, rest := q + [m], rest - {m};
    }
    assert ids - rest == ids;
  }

  /** The scan is one step, after which the trim can begin. */
  lemma ScannedAs(s: State, ids: seq<nat>)
    requires s.pc.Boot? && s.min == s.max == 0 && Lists(ids, s.pool)
    ensures var t := BeginTrim(s, ids);
            Leads(s, [ScanAndTrim(ids)], t) && t.pc.Trim? && TrimOk(t.pool, t.min, t.max, ids, t.pc.at)
  {
    LeadsOne(s, ScanAndTrim(ids));
    assert Apply(s, ScanAndTrim(ids)) == BeginTrim(s, ids);
    hide Leads, Apply, Enabled;
    ListCount(ids, s.pool);
    if ids != [] {
      ScanTrimOk(s.pool, ids, BeginTrim(s, ids).pc.at);
    }
  }

  /** The first position whose id does not follow the one before, 0 when there is none. */
  method FindFirstGap(ids: seq<nat>) returns (gap: nat)
    requires ids != []
    ensures gap == FirstGap(ids, 0)
  {
    for i := 0 to |ids| - 1
      invariant FirstGap(ids, 0) == FirstGap(ids, i)
    {
      if ids[i + 1] != ids[i] + 1 {
        return i + 1;
      }
    }
    gap := 0;
  }

  lemma LowerAligned(bytes: nat)
    ensures LowerAlign(bytes) == bytes / BLOCK_SIZE * BLOCK_SIZE <= bytes < LowerAlign(bytes) + BLOCK_SIZE
    ensures LowerAlign(bytes) % BLOCK_SIZE == 0 && Blocks(LowerAlign(bytes)) == bytes / BLOCK_SIZE
  {
  }

  // ---------------------------------------------------------------- what a load does

  /** Blocks still to be moved to finish the interrupted resize. */
  function MissingBlocks(m: Meta, held: nat, free: nat): nat {
    AbsDiff(Blocks(m.next), Blocks(BLOCK_SIZE * (held + free)))
  }

  function Settled(m: Meta): Meta {
    if m.status.Normal? then m else Meta(m.next, m.next, Normal)
  }

  function FreeAfter(m: Meta, held: nat, free: nat): int {
    match m.status
    case Normal => free
    case Expanding => free + MissingBlocks(m, held, free)
    case Shrinking => free - MissingBlocks(m, held, free)
  }

  function ContinueRet(m: Meta, held: nat, free: nat, granted: nat): Ret {
    if m.status.Normal? then Success else ResizeRet(m, MissingBlocks(m, held, free), free, granted)
  }

  predicate Loads(m: Meta, held: nat, free: nat, granted: nat) {
    && ContinueRet(m, held, free, granted).Success?
    && Settled(m).curr == BLOCK_SIZE * (held + FreeAfter(m, held, free))
  }

  /** The meta persisted before the first block moves. */
  function GoalOf(prior: Meta, target: nat): Meta {
    Meta(prior.curr, target, if prior.curr < target then Expanding else Shrinking)
  }

  ghost function Starting(prior: Meta, cnt: nat, goal: Meta, boot: bool): Pc {
    if goal.status.Expanding? then Alloc(prior, cnt, 0, boot) else Free(prior, cnt, 0, None, boot)
  }

  /** An expansion succeeds when the file system grants the blocks, a shrink when they are free. */
  function ResizeRet(goal: Meta, cnt: nat, free: int, granted: nat): Ret {
    if goal.status.Expanding? then
      if cnt <= granted then Success else AllocateDiskSpaceFailed
    else
      if cnt <= free then Success else EntryNotExist
  }

  /** The pool after a resize that answered `ret`. */
  ghost function Resized(s: State, cnt: nat, goal: Meta, ret: Ret): State {
    if goal.status.Expanding? then Spans(s, s.min, if ret.Success? then s.max + cnt else s.max)
    else Spans(s, if ret.Success? then s.min + cnt else s.max, s.max)
  }

  ghost function Ended(s: State, ok: bool, prior: Meta, goal: Meta, boot: bool): State {
    if ok then s.(meta := Meta(goal.next, goal.next, Normal), pc := if boot then Check(s.tenants) else Idle)
    else s.(meta := prior, pc := if boot then Dead else Idle)
  }

  /** `s` with the pool directory exactly [min, max). */
  ghost function Spans(s: State, min: nat, max: nat): State {
    s.(pool := Range(min, max), min := min, max := max)
  }

  /** `s` after `k` of the blocks in the expanding directory went into the pool. */
  ghost function Moved(s: State, k: nat, cnt: nat): State
    requires s.pc.Move?
  {
    Spans(s, s.min, s.max + k).(tmp := Range(k, cnt), pc := s.pc.(moved := k))
  }

  lemma MovedSucc(s: State, k: nat, cnt: nat)
    requires s.pc.Move? && s.pc.cnt == cnt && s.pc.dest.None? && s.min <= s.max && k < cnt
    ensures Leads(Moved(s, k, cnt), [TakeMax, RenameFromTmp], Moved(s, k + 1, cnt))
    ensures Apply(Apply(Moved(s, k, cnt), TakeMax), RenameFromTmp) == Moved(s, k + 1, cnt)
  {
    var t := Moved(s, k, cnt);
    var u := Apply(t, TakeMax);
    assert Range(k, cnt) - {k} == Range(k + 1, cnt);
    assert Range(s.min, s.max + k) + {s.max + k} == Range(s.min, s.max + k + 1);
    assert [TakeMax, RenameFromTmp][1..] == [RenameFromTmp];
  }

  /** `s` after a shrink unlinked `k` blocks. */
  ghost function Freed(s: State, k: nat): State
    requires s.pc.Free?
  {
    Spans(s, s.min + k, s.max).(pc := s.pc.(freed := k))
  }

  lemma FreedSucc(s: State, k: nat)
    requires s.pc.Free? && s.pc.taken.None? && k < s.pc.cnt && s.min + k <= s.max
    ensures s.min + k < s.max ==>
              Leads(Freed(s, k), [TakeMin, Unlink], Freed(s, k + 1)) &&
              Apply(Apply(Freed(s, k), TakeMin), Unlink) == Freed(s, k + 1)
    ensures s.min + k == s.max ==>
              Leads(Freed(s, k), [TakeMin], Spans(s, s.max, s.max).(pc := Dry(s.pc.prior, s.pc.boot)))
  {
    if s.min + k < s.max {
      assert Range(s.min + k, s.max) - {s.min + k} == Range(s.min + k + 1, s.max);
      assert [TakeMin, Unlink][1..] == [Unlink];
    }
  }
}

/** When a load succeeds, for any disk a crash can leave behind. */
module LoadCondition {
  import opened BlockPool
  import opened BlockPoolInvariant
  import opened LogBlockMgrs

  /** Without an interrupted resize a load always succeeds; an interrupted expansion needs the blocks it
      still misses, an interrupted shrink needs the tenants' blocks to fit the target. */
  lemma LoadsExactly(m: Meta, held: nat, free: nat, granted: nat)
    requires DurableOk(m, held + free)
    ensures Loads(m, held, free, granted) <==>
              match m.status
              case Normal => true
              case Expanding => Blocks(m.next) - (held + free) <= granted
              case Shrinking => held <= Blocks(m.next)
  {
    BlocksOfAligned(m.curr);
    BlocksOfAligned(m.next);
    assert Blocks(BLOCK_SIZE * (held + free)) == held + free;
  }
}
