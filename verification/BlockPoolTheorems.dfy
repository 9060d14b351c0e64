/** What the block pool guarantees over whole runs. */
module BlockPoolTheorems {
  import opened Common
  import opened BlockPool
  import opened BlockPoolTrim
  import opened BlockPoolInvariant

  ghost predicate AlwaysWithinLedger(s: State, steps: seq<Step>)
    requires Runs(s, steps)
    decreases |steps|
  {
    WithinLedger(s) && (steps != [] ==> AlwaysWithinLedger(Apply(s, steps[0]), steps[1..]))
  }

  lemma {:induction false} RunKeepsInv(s: State, steps: seq<Step>)
    requires Inv(s) && Runs(s, steps) && AlwaysWithinLedger(s, steps)
    ensures Inv(After(s, steps))
    decreases |steps|
  {
    if steps != [] {
      StepKeepsInv(s, steps[0]);
      RunKeepsInv(Apply(s, steps[0]), steps[1..]);
    }
  }

  ghost predicate RunsTo(steps: seq<Step>, s: State) {
    Runs(FRESH, steps) && AlwaysWithinLedger(FRESH, steps) && After(FRESH, steps) == s
  }

  /** Reached from a fresh pool by some run, with any crashes and interleaving, in which tenants stay
      within the ledger while a shrink is running. */
  ghost predicate Reachable(s: State) {
    exists steps :: RunsTo(steps, s)
  }

  lemma ReachableInv(s: State)
    requires Reachable(s)
    ensures Inv(s) && WithinLedger(s)
  {
    var steps :| RunsTo(steps, s);
    RunKeepsInv(FRESH, steps);
    EndsWithinLedger(FRESH, steps);
  }

  lemma {:induction false} EndsWithinLedger(s: State, steps: seq<Step>)
    requires Runs(s, steps) && AlwaysWithinLedger(s, steps)
    ensures WithinLedger(After(s, steps))
    decreases |steps|
  {
    if steps != [] {
      EndsWithinLedger(Apply(s, steps[0]), steps[1..]);
    }
  }

  lemma {:induction false} RunsAppend(s: State, steps: seq<Step>, a: Step)
    requires Runs(s, steps) && AlwaysWithinLedger(s, steps)
    requires Enabled(After(s, steps), a) && WithinLedger(Apply(After(s, steps), a))
    ensures Runs(s, steps + [a]) && AlwaysWithinLedger(s, steps + [a])
    ensures After(s, steps + [a]) == Apply(After(s, steps), a)
    decreases |steps|
  {
    if steps == [] {
      assert (steps + [a])[1..] == [];
    } else {
      RunsAppend(Apply(s, steps[0]), steps[1..], a);
      assert (steps + [a])[1..] == steps[1..] + [a];
    }
  }

  /** Reachability one step further. */
  lemma Go(s: State, a: Step) returns (t: State)
    requires Reachable(s) && Enabled(s, a) && WithinLedger(Apply(s, a))
    ensures t == Apply(s, a) && Reachable(t)
  {
    var steps :| RunsTo(steps, s);
    RunsAppend(FRESH, steps, a);
    t := Apply(s, a);
    assert RunsTo(steps + [a], t);
  }

  /** Whenever no resize is running, the recorded total is exactly the free blocks plus the blocks in use,
      and once the moves in flight are done the pool directory is exactly [min, max). */
  lemma AtRestAccountsAgree(s: State)
    requires Reachable(s) && s.pc.Idle?
    ensures s.meta.status.Normal? && s.tmp == {}
    ensures s.meta.curr == BLOCK_SIZE * (FreeBlocks(s) + s.inUse)
    ensures s.meta.curr == BLOCK_SIZE * Total(s)
    ensures s.creating == {} && s.removing == {} ==> s.pool == Range(s.min, s.max) && s.tenants == s.inUse
  {
    ReachableInv(s);
    BlocksOfAligned(s.meta.curr);
  }

  /** A shrink admitted by resize_ never meets an empty pool while the server is up, whatever creates and
      removes run beside it. */
  lemma ShrinkNeverRunsDry(s: State)
    requires Reachable(s)
    ensures s.pc.Dry? ==> s.pc.boot
  {
    ReachableInv(s);
  }

  /** Without the ledger assumption the shrink fails exactly when tenants hold all blocks that are left,
      which is more than the target can hold. */
  lemma ShrinkDryExactly(s: State)
    requires Inv(s) && Enabled(s, TakeMin) && !s.pc.boot
    ensures Apply(s, TakeMin).pc.Dry? <==> s.inUse == Blocks(s.meta.next) + (s.pc.cnt - s.pc.freed)
    ensures Apply(s, TakeMin).pc.Dry? ==> BLOCK_SIZE * s.inUse > s.meta.next
  {
    FreeCount(s);
    BlocksOfAligned(s.meta.next);
  }

  // ---------------------------------------------------------------- moves

  lemma RenameTargetsFree(s: State, a: Step)
    requires Inv(s) && Enabled(s, a)
    ensures a.RemoveMove? ==> a.id !in s.pool
    ensures a.RenameFromTmp? ==> s.pc.dest.value !in s.pool && s.pc.dest.value !in s.removing
    ensures a.TrimOne? ==> s.max !in s.pool && s.pc.ids[s.pc.at] in s.pool
  {
    if a.TrimOne? {
      TrimStep(s.pool, s.min, s.max, s.pc.ids, s.pc.at);
    }
  }

  predicate MovesBlock(a: Step) { a.CreateMove? || a.RemoveMove? || a.RenameFromTmp? || a.Unlink? || a.TrimOne? }

  lemma OtherStepTotal(s: State, a: Step)
    requires Enabled(s, a) && !MovesBlock(a)
    ensures Total(Apply(s, a)) == Total(s)
  {
  }

  lemma MoveStepTotal(s: State, a: Step)
    requires Enabled(s, a) && MovesBlock(a)
    requires a.RemoveMove? ==> a.id !in s.pool
    requires a.RenameFromTmp? ==> s.pc.dest.value !in s.pool
    requires a.TrimOne? ==> s.max !in s.pool && s.pc.ids[s.pc.at] in s.pool
    ensures Total(Apply(s, a)) - Total(s) == if a.RenameFromTmp? then 1 else if a.Unlink? then -1 else 0
  {
  }

  /** Only an expansion adds a block and only a shrink takes one away. */
  lemma StepTotal(s: State, a: Step)
    requires Inv(s) && Enabled(s, a)
    ensures Total(Apply(s, a)) - Total(s) == if a.RenameFromTmp? then 1 else if a.Unlink? then -1 else 0
  {
    hide Inv, Apply, Enabled, Total;
    RenameTargetsFree(s, a);
    if MovesBlock(a) {
      MoveStepTotal(s, a);
    } else {
      OtherStepTotal(s, a);
    }
  }

  /** No rename ever hits an existing block, and only the resize changes the number of blocks on disk. */
  lemma RenamesNeverOverwrite(s: State, a: Step)
    requires Inv(s) && Enabled(s, a)
    ensures a.RemoveMove? ==> a.id !in s.pool
    ensures a.RenameFromTmp? ==> s.pc.dest.value !in s.pool && s.pc.dest.value !in s.removing
    ensures a.TrimOne? ==> s.max !in s.pool && s.pc.ids[s.pc.at] in s.pool
    ensures Total(Apply(s, a)) - Total(s) == if a.RenameFromTmp? then 1 else if a.Unlink? then -1 else 0
  {
    RenameTargetsFree(s, a);
    StepTotal(s, a);
    hide *;
  }

  /** A create whose block has not arrived yet waits for a rename that can go ahead, and so does a shrink. */
  lemma WaitingIsForAnEnabledRename(s: State, id: nat)
    requires Inv(s) && id !in s.pool
    requires (Serving(s.pc) && id in s.creating) || id in Taken(s.pc)
    ensures (Serving(s.pc) && id in s.removing && Enabled(s, RemoveMove(id)))
         || (Serving(s.pc) && id in Dest(s.pc) && Enabled(s, RenameFromTmp))
  {
  }
}
