/** Runs in which tenants need not stay within the ledger: a shrink may then run dry after it has unlinked some
    blocks, and the meta it restores counts blocks that are gone. */
module BlockPoolLoss {
  import opened Common
  import opened BlockPool
  import opened BlockPoolTrim
  import opened BlockPoolInvariant
  import opened BlockPoolTheorems
  import opened BlockPoolRecovery
  import opened LogBlockMgrs

  // ---------------------------------------------------------------- while the server is up

  /** The pool as it would be if `lost` more blocks were in use by tenants. */
  function Plus(s: State, lost: nat): State { s.(tenants := s.tenants + lost, inUse := s.inUse + lost) }

  /** A shrink that ran dry is about to restore the meta. */
  function Restored(s: State): State { if s.pc.Dry? then s.(meta := s.pc.prior, pc := Idle) else s }

  ghost predicate AlignedMeta(m: Meta) { Aligned(m.curr) && Aligned(m.next) }

  ghost predicate FreeOk(s: State) {
    s.pc.Free? ==>
      && s.pc.prior.status.Normal? && MetaOk(s.pc.prior) && s.pc.prior.curr == s.meta.curr
      && Blocks(s.meta.curr) == Blocks(s.meta.next) + s.pc.cnt
  }

  /** All would be well with the lost blocks. */
  ghost predicate LossInv(s: State, lost: nat) {
    Serving(s.pc) && AlignedMeta(s.meta) && FreeOk(s) && Inv(Plus(Restored(s), lost))
  }

  /** The blocks a shrink has unlinked when it runs dry. */
  function Loses(s: State, a: Step): nat { if RunsDry(s, a) then s.pc.freed else 0 }

  lemma PlusCommutes(s: State, lost: nat, a: Step)
    requires Serving(s.pc) && Enabled(s, a) && !a.Crash?
    ensures Enabled(Plus(s, lost), a) && Apply(Plus(s, lost), a) == Plus(Apply(s, a), lost)
    ensures RunsDry(Plus(s, lost), a) == RunsDry(s, a)
  {
  }

  lemma MetaStep(s: State, a: Step)
    requires Serving(s.pc) && Enabled(s, a) && !a.Crash? && AlignedMeta(s.meta) && FreeOk(s)
    requires s.pc.Idle? ==> MetaOk(s.meta) && s.meta.status.Normal?
    requires s.pc.Revert? || s.pc.Dry? ==> MetaOk(s.pc.prior)
    ensures Serving(Apply(s, a).pc) && AlignedMeta(Apply(s, a).meta) && FreeOk(Apply(s, a))
  {
    if a.ResizeBegin? {
      BlocksOfAligned(a.bytes);
      AlignedOrder(s.meta.curr, LowerAlign(a.bytes));
    }
  }

  lemma DryKeeps(s: State, lost: nat)
    requires LossInv(s, lost) && Enabled(s, TakeMin) && RunsDry(s, TakeMin)
    ensures LossInv(Apply(s, TakeMin), lost + s.pc.freed)
  {
    var t := s.(pc := Dry(s.pc.prior, false));
    assert t == Apply(s, TakeMin);
    hide Apply, Enabled;
    var w := Plus(Restored(t), lost + s.pc.freed);
    assert w == s.(meta := s.pc.prior, pc := Idle, tenants := s.tenants + lost + s.pc.freed,
                   inUse := s.inUse + lost + s.pc.freed);
    assert Total(w) == Total(Plus(s, lost)) + s.pc.freed;
  }

  lemma WholeKeeps(s: State, lost: nat, a: Step)
    requires LossInv(s, lost) && !s.pc.Dry? && Enabled(s, a) && !a.Crash? && !RunsDry(s, a)
    ensures !Apply(s, a).pc.Dry? && Inv(Plus(Apply(s, a), lost))
  {
    hide Inv;
    assert !Apply(s, a).pc.Dry?;
    hide Apply, Enabled;
    PlusCommutes(s, lost, a);
    StepKeepsUnlessDry(Plus(s, lost), a);
  }

  /** While a dry shrink waits to restore the meta, tenants go on. */
  lemma DryGoesOn(s: State, lost: nat, a: Step)
    requires LossInv(s, lost) && s.pc.Dry? && Enabled(s, a) && !a.Crash?
    ensures Inv(Plus(Restored(Apply(s, a)), lost))
  {
    hide Inv;
    if a.RestoreMeta? {
      assert Restored(Apply(s, a)) == Restored(s);
    } else {
      var r := Restored(s);
      assert Enabled(r, a) && Restored(Apply(s, a)) == Apply(r, a) && !RunsDry(r, a);
      hide Apply, Enabled;
      PlusCommutes(r, lost, a);
      StepKeepsUnlessDry(Plus(r, lost), a);
    }
  }

  lemma ServingFacts(s: State, lost: nat)
    requires LossInv(s, lost)
    ensures s.pc.Idle? ==> MetaOk(s.meta) && s.meta.status.Normal?
    ensures s.pc.Revert? || s.pc.Dry? ==> MetaOk(s.pc.prior)
  {
  }

  lemma LossStep(s: State, lost: nat, a: Step)
    requires LossInv(s, lost) && Enabled(s, a) && !a.Crash?
    ensures LossInv(Apply(s, a), lost + Loses(s, a))
  {
    hide Apply, Enabled, Inv, FreeOk, AlignedMeta;
    if RunsDry(s, a) {
      DryKeeps(s, lost);
    } else {
      ServingFacts(s, lost);
      MetaStep(s, a);
      if s.pc.Dry? {
        DryGoesOn(s, lost, a);
      } else {
        WholeKeeps(s, lost, a);
      }
    }
  }

  // ---------------------------------------------------------------- while loading

  /** Loading says nothing about the number of blocks until the check at its end. */
  ghost predicate LoadingPc(s: State) {
    match s.pc
    case Alloc(prior, _, _, _) => prior == s.meta
    case Discard(prior, _) => prior == s.meta
    case Revert(prior, _) => prior == s.meta
    case Free(prior, _, _, _, _) => prior == s.meta && s.tmp == {}
    case Dry(prior, _) => prior == s.meta
    case Commit(_) => s.tmp == {}
    case Trim(_, _, _) => s.tmp == {}
    case Resume(_) => s.tmp == {}
    case Check(_) => s.tmp == {} && s.meta.status.Normal?
    case _ => true
  }

  ghost predicate LoadInv(s: State) { !Serving(s.pc) && AlignedMeta(s.meta) && LoadingPc(s) && MemoryOk(s) }

  lemma LoadingPcStep(s: State, a: Step)
    requires !Serving(s.pc) && AlignedMeta(s.meta) && LoadingPc(s) && Enabled(s, a) && !a.Verify?
    ensures var t := Apply(s, a); !Serving(t.pc) && AlignedMeta(t.meta) && LoadingPc(t)
  {
  }

  lemma TakeMemoryStep(s: State, a: Step)
    requires !Serving(s.pc) && MemoryOk(s) && Enabled(s, a) && (a.TakeMin? || a.TakeMax?)
    ensures MemoryOk(Apply(s, a))
  {
    var t := Apply(s, a);
    if a.TakeMax? {
      TakeHigh(s.pool, s.removing, Dest(s.pc), s.min, s.max, s.creating, Taken(s.pc));
      assert t == s.(max := s.max + 1, pc := s.pc.(dest := Some(s.max)));
    } else if s.min < s.max {
      TakeLow(s.pool, s.removing, Dest(s.pc), s.min, s.max, s.creating, Taken(s.pc));
      assert t == s.(min := s.min + 1, pc := s.pc.(taken := Some(s.min)));
    } else {
      assert t == s.(pc := Dry(s.pc.prior, true));
    }
    hide Apply, Enabled;
  }

  lemma GiveMemoryStep(s: State, a: Step)
    requires !Serving(s.pc) && MemoryOk(s) && Enabled(s, a) && (a.Unlink? || a.RenameFromTmp?)
    ensures MemoryOk(Apply(s, a))
  {
    var t := Apply(s, a);
    if a.Unlink? {
      GiveLow(s.pool, s.removing, Dest(s.pc), s.min, s.max, s.creating, Taken(s.pc), s.pc.taken.value);
      assert t == s.(pool := s.pool - {s.pc.taken.value}, pc := s.pc.(freed := s.pc.freed + 1, taken := None));
    } else {
      GiveHigh(s.pool, s.removing, Dest(s.pc), s.min, s.max, s.creating, Taken(s.pc), s.pc.dest.value);
      assert t == s.(tmp := s.tmp - {s.pc.moved}, pool := s.pool + {s.pc.dest.value},
                     pc := s.pc.(moved := s.pc.moved + 1, dest := None));
    }
    hide Apply, Enabled;
  }

  lemma ScanMemoryStep(s: State, order: seq<nat>)
    requires s.pc.Boot? && MemoryOk(s) && Lists(order, s.pool)
    ensures MemoryOk(BeginTrim(s, order))
  {
    var t := BeginTrim(s, order);
    ListCount(order, s.pool);
    if order != [] {
      ScanTrimOk(s.pool, order, t.pc.at);
    }
    assert TrimOk(t.pool, t.min, t.max, t.pc.ids, t.pc.at);
    hide TrimOk;
  }

  lemma ScanStep(s: State, order: seq<nat>)
    requires MemoryOk(s) && Enabled(s, ScanAndTrim(order))
    ensures MemoryOk(Apply(s, ScanAndTrim(order)))
  {
    hide MemoryOk;
    ScanMemoryStep(s, order);
  }

  lemma TrimMemoryStep(s: State)
    requires MemoryOk(s) && Enabled(s, TrimOne)
    ensures MemoryOk(Apply(s, TrimOne))
  {
    var t := Apply(s, TrimOne);
    var ids, at := s.pc.ids, s.pc.at;
    assert t == s.(pool := s.pool - {ids[at]} + {s.max}, max := s.max + 1, pc := s.pc.(at := at + 1));
    hide TrimOk, Apply, Enabled;
    TrimStep(s.pool, s.min, s.max, ids, at);
  }

  lemma TrimDoneMemoryStep(s: State)
    requires MemoryOk(s) && Enabled(s, TrimDone)
    ensures MemoryOk(Apply(s, TrimDone))
  {
    assert Apply(s, TrimDone) == s.(pc := Resume(s.pc.held));
    hide Apply, Enabled;
  }

  predicate MovesIds(a: Step) {
    || a.TakeMin? || a.TakeMax? || a.Unlink? || a.RenameFromTmp? || a.ScanAndTrim? || a.TrimOne? || a.TrimDone? || a.Verify?
  }

  lemma OtherMemoryStep(s: State, a: Step)
    requires !Serving(s.pc) && MemoryOk(s) && Enabled(s, a) && !MovesIds(a)
    ensures MemoryOk(Apply(s, a))
  {
    hide IdsOk, TrimOk;
  }

  lemma MemoryStep(s: State, a: Step)
    requires !Serving(s.pc) && MemoryOk(s) && Enabled(s, a) && !a.Verify?
    ensures MemoryOk(Apply(s, a))
  {
    hide Apply, MemoryOk;
    match a
    case TakeMin => TakeMemoryStep(s, a);
    case TakeMax => TakeMemoryStep(s, a);
    case Unlink => GiveMemoryStep(s, a);
    case RenameFromTmp => GiveMemoryStep(s, a);
    case ScanAndTrim(order) => ScanStep(s, order);
    case TrimOne => TrimMemoryStep(s);
    case TrimDone => TrimDoneMemoryStep(s);
    case _ => OtherMemoryStep(s, a);
  }

  /** The integrity check lets exactly those pools through whose blocks are what the meta says. */
  lemma VerifyExactly(s: State)
    requires LoadInv(s) && Enabled(s, Verify)
    ensures var t := Apply(s, Verify);
            && (t.pc.Idle? <==> s.meta.curr == BLOCK_SIZE * Total(s))
            && (t.pc.Idle? ==> LossInv(t, 0)) && (!t.pc.Idle? ==> LoadInv(t))
  {
    var t := Apply(s, Verify);
    assert Total(s) == s.pc.held + (s.max - s.min);
    BlocksOfAligned(Total(s));
    assert t.pc.Idle? ==> Plus(Restored(t), 0) == t;
  }

  lemma LoadStepKeepsLoss(s: State, a: Step)
    requires LoadInv(s) && Enabled(s, a) && !a.Verify?
    ensures LoadInv(Apply(s, a))
  {
    hide Apply, Enabled, MemoryOk, LoadingPc, AlignedMeta;
    LoadingPcStep(s, a);
    MemoryStep(s, a);
  }

  // ---------------------------------------------------------------- whole runs

  ghost predicate PoolInv(s: State, lost: nat) {
    if Serving(s.pc) then LossInv(s, lost) else LoadInv(s)
  }

  /** What shrinks that ran dry have lost since the pool was loaded. */
  function NextLost(s: State, lost: nat, a: Step): nat {
    if Serving(s.pc) && !a.Crash? then lost + Loses(s, a) else 0
  }

  ghost function Lost(s: State, lost: nat, steps: seq<Step>): nat
    requires Runs(s, steps)
    decreases |steps|
  {
    if steps == [] then lost else Lost(Apply(s, steps[0]), NextLost(s, lost, steps[0]), steps[1..])
  }

  lemma CrashStep(s: State, lost: nat, kept: set<nat>)
    requires PoolInv(s, lost) && Enabled(s, Crash(kept))
    ensures LoadInv(Apply(s, Crash(kept)))
  {
    hide Inv;
  }

  lemma PoolStep(s: State, lost: nat, a: Step)
    requires PoolInv(s, lost) && Enabled(s, a)
    ensures PoolInv(Apply(s, a), NextLost(s, lost, a))
  {
    hide Apply, Enabled, Inv, MemoryOk, FreeOk, AlignedMeta, LoadingPc;
    if a.Crash? {
      CrashStep(s, lost, a.kept);
    } else if Serving(s.pc) {
      LossStep(s, lost, a);
    } else if a.Verify? {
      VerifyExactly(s);
    } else {
      LoadStepKeepsLoss(s, a);
    }
  }

  lemma {:induction false} PoolRun(s: State, lost: nat, steps: seq<Step>)
    requires PoolInv(s, lost) && Runs(s, steps)
    ensures PoolInv(After(s, steps), Lost(s, lost, steps))
    decreases |steps|
  {
    hide PoolInv;
    if steps != [] {
      PoolStep(s, lost, steps[0]);
      PoolRun(Apply(s, steps[0]), NextLost(s, lost, steps[0]), steps[1..]);
    }
  }

  lemma RestAccounts(t: State, lost: nat, granted: nat)
    requires LossInv(t, lost) && t.pc.Idle?
    ensures t.meta.status.Normal? && t.tmp == {}
    ensures t.meta.curr == BLOCK_SIZE * (Total(t) + lost) == BLOCK_SIZE * (FreeBlocks(t) + t.inUse + lost)
    ensures Loads(t.meta, t.tenants, |t.pool|, granted) <==> lost == 0
  {
    BlocksOfAligned(t.meta.curr);
  }

  /** Over every run from a fresh pool, with any crashes and interleaving and whatever tenants use: at rest the
      recorded total exceeds the blocks on disk, and free blocks plus blocks in use, by exactly the blocks that
      shrinks unlinked before they ran dry, since the last load. So the accounts agree exactly if there are
      none, and exactly then the next load passes the integrity check. */
  lemma AccountsAgreeExactly(steps: seq<Step>, granted: nat)
    requires Runs(FRESH, steps) && After(FRESH, steps).pc.Idle?
    ensures var t, lost := After(FRESH, steps), Lost(FRESH, 0, steps);
            && t.meta.status.Normal? && t.tmp == {}
            && t.meta.curr == BLOCK_SIZE * (Total(t) + lost) == BLOCK_SIZE * (FreeBlocks(t) + t.inUse + lost)
            && (t.meta.curr == BLOCK_SIZE * Total(t) <==> lost == 0)
            && (Loads(t.meta, t.tenants, |t.pool|, granted) <==> lost == 0)
  {
    PoolRun(FRESH, 0, steps);
    RestAccounts(After(FRESH, steps), Lost(FRESH, 0, steps), granted);
  }

  lemma GoOn(steps: seq<Step>, s: State, a: Step) returns (more: seq<Step>, t: State)
    requires Leads(FRESH, steps, s) && Enabled(s, a)
    ensures t == Apply(s, a) && Leads(FRESH, more, t)
  {
    more, t := steps + [a], Apply(s, a);
    LeadsOn(FRESH, steps, s, a);
  }

  /** Losing blocks is real: of two free blocks a shrink to nothing unlinks one, and a tenant takes the other. */
  lemma ShrinkCanLose() returns (steps: seq<Step>)
    ensures Runs(FRESH, steps) && After(FRESH, steps).pc.Idle? && Lost(FRESH, 0, steps) == 1
  {
    hide Leads, Runs, After, Lost;
    var t;
    steps := GrownRun();
    steps, t := GoOn(steps, GROWN, ResizeBegin(0));
    steps, t := GoOn(steps, t, TakeMin);
    steps, t := GoOn(steps, t, Unlink);
    steps, t := GoOn(steps, t, CreateBegin);
    steps, t := GoOn(steps, t, CreateMove(1));
    steps, t := GoOn(steps, t, TakeMin);
    steps, t := GoOn(steps, t, RestoreMeta);
    assert t.pool == {};
    LostIs(steps, t, 1);
  }

  lemma GrownRun() returns (steps: seq<Step>)
    ensures Leads(FRESH, steps, GROWN)
  {
    GrownReachable();
    steps :| RunsTo(steps, GROWN);
  }

  lemma LostIs(steps: seq<Step>, t: State, lost: nat)
    requires Leads(FRESH, steps, t) && t.pc.Idle? && t.meta.curr == BLOCK_SIZE * (Total(t) + lost)
    ensures Runs(FRESH, steps) && After(FRESH, steps) == t && Lost(FRESH, 0, steps) == lost
  {
    AccountsAgreeExactly(steps, 0);
  }
}
