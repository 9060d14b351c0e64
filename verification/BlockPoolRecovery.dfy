/** Restarting after a crash, and what one resize does to ids and counts. */
module BlockPoolRecovery {
  import opened Common
  import opened BlockPool
  import opened BlockPoolTrim
  import opened BlockPoolInvariant
  import opened BlockPoolTheorems

  /** No state before the last one is at rest. */
  ghost predicate RestsOnlyAtEnd(s: State, steps: seq<Step>)
    requires Runs(s, steps)
    decreases |steps|
  {
    steps != [] ==> !s.pc.Idle? && RestsOnlyAtEnd(Apply(s, steps[0]), steps[1..])
  }

  /** The size a successful load settles on: the interrupted resize is carried through. */
  function SettledSize(m: Meta): nat {
    if m.status.Normal? then m.curr else m.next
  }

  ghost predicate LoadingMeta(s: State, m: Meta, tenants: nat) {
    && (Serving(s.pc) ==> s.pc.Idle?) && s.tenants == tenants
    && (s.meta == m || (!m.status.Normal? && s.meta == Meta(m.next, m.next, Normal)))
  }

  ghost predicate Loading(s: State, m: Meta, tenants: nat) { Inv(s) && LoadingMeta(s, m, tenants) }

  lemma LoadingMetaStep(s: State, a: Step, m: Meta, tenants: nat)
    requires LoadingMeta(s, m, tenants) && !s.pc.Idle? && Enabled(s, a)
    requires ResizeOk(s.pc, s.meta, Total(s), s.tmp, s.ledger)
    ensures LoadingMeta(Apply(s, a), m, tenants)
  {
  }

  lemma LoadingStep(s: State, a: Step, m: Meta, tenants: nat)
    requires Loading(s, m, tenants) && !s.pc.Idle? && Enabled(s, a)
    ensures Loading(Apply(s, a), m, tenants)
  {
    assert WithinLedger(s);
    LoadingMetaStep(s, a, m, tenants);
    hide Inv, Apply, Enabled, LoadingMeta;
    StepKeepsInv(s, a);
  }

  lemma {:induction false} LoadingRun(s: State, steps: seq<Step>, m: Meta, tenants: nat)
    requires Loading(s, m, tenants) && Runs(s, steps) && RestsOnlyAtEnd(s, steps)
    ensures Loading(After(s, steps), m, tenants)
    decreases |steps|
  {
    if steps != [] {
      LoadingStep(s, steps[0], m, tenants);
      LoadingRun(Apply(s, steps[0]), steps[1..], m, tenants);
    }
  }

  lemma LoadAfterCrash(s: State, kept: set<nat>, load: seq<Step>)
    requires Inv(s) && Enabled(s, Crash(kept))
    requires var c := Apply(s, Crash(kept)); Runs(c, load) && RestsOnlyAtEnd(c, load) && After(c, load).pc.Idle?
    ensures var t := After(Apply(s, Crash(kept)), load);
            && t.meta.status.Normal? && t.tmp == {} && t.tenants == s.tenants == t.inUse
            && t.pool == Range(t.min, t.max)
            && t.meta.curr == BLOCK_SIZE * (t.tenants + |t.pool|)
            && t.meta.curr == SettledSize(s.meta)
  {
    var c := Apply(s, Crash(kept));
    CrashKeeps(s, kept);
    LoadingRun(c, load, s.meta, s.tenants);
    LoadingEndsQuiet(c, load);
    BlocksOfAligned(After(c, load).meta.curr);
  }

  /** Crash anywhere: at any point of a create, remove, expand, shrink or of an earlier load, and again as
      often as the adversary likes while loading. If loading gets through, the pool is exactly [min, max),
      no tenant block is lost, and the recorded total equals the blocks on disk and the size asked for. */
  lemma CrashRecovery(s: State, kept: set<nat>, load: seq<Step>)
    requires Reachable(s) && Enabled(s, Crash(kept))
    requires var c := Apply(s, Crash(kept)); Runs(c, load) && RestsOnlyAtEnd(c, load) && After(c, load).pc.Idle?
    ensures var t := After(Apply(s, Crash(kept)), load);
            && t.meta.status.Normal? && t.tmp == {} && t.tenants == s.tenants == t.inUse
            && t.pool == Range(t.min, t.max)
            && t.meta.curr == BLOCK_SIZE * (t.tenants + |t.pool|)
            && t.meta.curr == SettledSize(s.meta)
  {
    ReachableInv(s);
    LoadAfterCrash(s, kept, load);
  }

  ghost predicate Quiet(s: State) {
    s.creating == {} && s.removing == {} && (Serving(s.pc) ==> s.pc.Idle?)
  }

  lemma {:induction false} LoadingEndsQuiet(s: State, steps: seq<Step>)
    requires Quiet(s) && Runs(s, steps) && RestsOnlyAtEnd(s, steps)
    ensures Quiet(After(s, steps))
    decreases |steps|
  {
    if steps != [] {
      LoadingEndsQuiet(Apply(s, steps[0]), steps[1..]);
    }
  }

  // ---------------------------------------------------------------- continued shrink

  /** A shrink continued while loading finds the pool empty exactly when the blocks found in tenant
      directories do not fit the target. */
  lemma ContinuedShrinkDryExactly(s: State)
    requires Inv(s) && Enabled(s, TakeMin) && s.pc.boot
    ensures Apply(s, TakeMin).pc.Dry? <==> s.tenants == Blocks(s.meta.next) + (s.pc.cnt - s.pc.freed)
    ensures s.tenants <= Blocks(s.meta.next) ==> !Apply(s, TakeMin).pc.Dry?
  {
    FreeCount(s);
  }

  const B := BLOCK_SIZE
  const BOOTED := FRESH.(pc := Idle)
  const STARTED := BOOTED.(meta := Meta(0, 2 * B, Expanding), pc := Alloc(Meta(0, 0, Normal), 2, 0, false))
  const ALLOCATED := STARTED.(tmp := {0, 1}, pc := Move(2, 0, None, false))
  const MOVED := STARTED.(pool := {0, 1}, max := 2, pc := Move(2, 2, None, false))
  const GROWN := BOOTED.(pool := {0, 1}, meta := Meta(2 * B, 2 * B, Normal), max := 2)
  const USED := GROWN.(pool := {}, tenants := 2, min := 2, inUse := 2, ledger := 2 * B)
  const IN_FLIGHT :=
    USED.(max := 3, inUse := 1, ledger := B, removing := {2}, meta := Meta(2 * B, B, Shrinking),
          pc := Free(Meta(2 * B, 2 * B, Normal), 1, 0, None, false))

  lemma FreshReachable()
    ensures Reachable(FRESH)
  {
    assert RunsTo([], FRESH);
  }

  lemma BootedReachable()
    ensures Reachable(BOOTED)
  {
    hide Reachable;
    FreshReachable();
    var s := Go(FRESH, ScanAndTrim([]));
    s := Go(s, TrimDone);
    s := Go(s, Continue);
    s := Go(s, Verify);
  }

  lemma AllocatedReachable()
    ensures Reachable(ALLOCATED)
  {
    hide Reachable;
    BootedReachable();
    var s := Go(BOOTED, ResizeBegin(2 * B));
    assert s == STARTED;
    s := Go(STARTED, AllocateOne(true, {}));
    s := Go(s, AllocateOne(true, {}));
    s := Go(s, AllocateDone);
    assert s.tmp == ALLOCATED.tmp;
  }

  lemma MovedReachable()
    ensures Reachable(MOVED)
  {
    hide Reachable;
    AllocatedReachable();
    var s := Go(ALLOCATED, TakeMax);
    s := Go(s, RenameFromTmp);
    s := Go(s, TakeMax);
    s := Go(s, RenameFromTmp);
    assert s.pool == MOVED.pool && s.tmp == {};
  }

  lemma GrownReachable()
    ensures Reachable(GROWN)
  {
    hide Reachable;
    MovedReachable();
    var s := Go(MOVED, MovesDone);
    s := Go(s, RemoveTmp);
    s := Go(s, WriteNormal);
  }

  lemma UsedReachable()
    ensures Reachable(USED)
  {
    hide Reachable;
    GrownReachable();
    var s := Go(GROWN, SetLedger(2 * B));
    s := Go(s, CreateBegin);
    s := Go(s, CreateMove(0));
    s := Go(s, CreateBegin);
    s := Go(s, CreateMove(1));
    assert s.pool == USED.pool && s.creating == {};
  }

  lemma InFlightReachable()
    ensures Reachable(IN_FLIGHT)
  {
    hide Reachable;
    UsedReachable();
    var s := Go(USED, RemoveBegin);
    s := Go(s, SetLedger(B));
    s := Go(s, ResizeBegin(B));
    assert s.removing == IN_FLIGHT.removing;
  }

  /** Staying within the ledger does not protect a continued shrink: a remove in flight has already left
      the in-use count while its block still is in the tenant directory. Of two blocks the tenant uses both
      and gives one back, the pool shrinks to one block, and the crash comes before the rename. */
  lemma ContinuedShrinkCanRunDry() returns (s: State)
    ensures Reachable(s) && s.pc.Dry? && s.pc.boot
  {
    hide Reachable;
    InFlightReachable();
    s := Go(IN_FLIGHT, Crash({}));
    s := Go(s, ScanAndTrim([]));
    s := Go(s, TrimDone);
    s := Go(s, Continue);
    s := Go(s, TakeMin);
  }

  // ---------------------------------------------------------------- trim

  predicate TrimOnly(a: Step) {
    a.Crash? || a.ScanAndTrim? || a.TrimOne? || a.TrimDone?
  }

  ghost predicate Least(a0: nat, ids: set<nat>) {
    a0 in ids && forall i | i in ids :: a0 <= i
  }

  ghost predicate Trimming(s: State, a0: nat, count: nat) {
    Inv(s) && (s.pc.Boot? || s.pc.Trim? || s.pc.Resume?) && |s.pool| == count && Least(a0, s.pool)
  }

  lemma TrimStepLeast(pool: set<nat>, min: nat, max: nat, ids: seq<nat>, at: nat, a0: nat)
    requires TrimOk(pool, min, max, ids, at) && at < |ids| && Least(a0, pool)
    ensures var next := pool - {ids[at]} + {max}; |next| == |pool| && Least(a0, next)
  {
    TrimStep(pool, min, max, ids, at);
    FromAbove(ids, at);
    assert min in pool;
  }

  lemma TrimmingStep(s: State, a: Step, a0: nat, count: nat)
    requires Trimming(s, a0, count) && Enabled(s, a) && TrimOnly(a)
    ensures Trimming(Apply(s, a), a0, count)
  {
    LoadStepKeeps(s, a);
    if a.TrimOne? {
      TrimStepLeast(s.pool, s.min, s.max, s.pc.ids, s.pc.at, a0);
    }
  }

  lemma TrimmedRange(s: State, a0: nat, count: nat)
    requires Trimming(s, a0, count) && s.pc.Resume?
    ensures s.pool == Range(a0, a0 + count) && s.min == a0 && s.max == a0 + count
  {
    assert s.min < s.max;
    assert s.min in s.pool;
  }

  /** Trimming any set of ids, interrupted by any number of crashes and rescans, ends with the same
      consecutive range: it starts at the least id and keeps the count. */
  lemma {:induction false} TrimIsStable(s: State, steps: seq<Step>, a0: nat, count: nat)
    requires Trimming(s, a0, count) && Runs(s, steps) && (forall a | a in steps :: TrimOnly(a))
    ensures var t := After(s, steps);
            Trimming(t, a0, count) && (t.pc.Resume? ==> t.pool == Range(a0, a0 + count) && t.min == a0 && t.max == a0 + count)
    decreases |steps|
  {
    if steps != [] {
      TrimmingStep(s, steps[0], a0, count);
      TrimIsStable(Apply(s, steps[0]), steps[1..], a0, count);
    } else if s.pc.Resume? {
      TrimmedRange(s, a0, count);
    }
  }
}

/** What one uninterrupted resize does, whatever creates and removes run beside it. */
module BlockPoolResize {
  import opened BlockPool
  import opened BlockPoolInvariant
  import opened BlockPoolTheorems
  import opened BlockPoolRecovery

  /** Creates and removes begun, and whether an allocation failed. */
  function Creates(steps: seq<Step>): nat {
    if steps == [] then 0 else Begun(steps[0], CreateBegin) + Creates(steps[1..])
  }

  function Removes(steps: seq<Step>): nat {
    if steps == [] then 0 else Begun(steps[0], RemoveBegin) + Removes(steps[1..])
  }

  predicate Failed(steps: seq<Step>) {
    steps != [] && (FailedAllocation(steps[0]) || Failed(steps[1..]))
  }

  function Begun(a: Step, what: Step): nat { if a == what then 1 else 0 }

  predicate FailedAllocation(a: Step) { a.AllocateOne? && !a.ok }

  /** Ids the resize has appended at the high end and taken from the low end so far. */
  function Appended(pc: Pc, cnt: nat): nat {
    match pc
    case Move(_, moved, dest, _) => moved + if dest.Some? then 1 else 0
    case Clean(_) => cnt
    case Commit(_) => cnt
    case Idle => cnt
    case _ => 0
  }

  function Dropped(pc: Pc, cnt: nat): nat {
    match pc
    case Free(_, _, freed, taken, _) => freed + if taken.Some? then 1 else 0
    case Commit(_) => cnt
    case Idle => cnt
    case _ => 0
  }

  ghost predicate Expandingly(s0: State, target: nat, failed: bool, s: State) {
    var cnt := Blocks(target) - Blocks(s0.meta.curr);
    match s.pc
    case Alloc(prior, n, _, boot) => !failed && !boot && prior == s0.meta && n == cnt
    case Discard(prior, boot) => failed && !boot && prior == s0.meta
    case Revert(prior, boot) => failed && !boot && prior == s0.meta
    case Move(n, _, _, boot) => !failed && !boot && n == cnt
    case Clean(boot) => !failed && !boot
    case Commit(boot) => !failed && !boot
    case Idle => true
    case _ => false
  }

  ghost predicate Shrinkingly(s0: State, target: nat, s: State) {
    var cnt := Blocks(s0.meta.curr) - Blocks(target);
    match s.pc
    case Free(_, n, _, _, boot) => !boot && n == cnt
    case Commit(boot) => !boot
    case Idle => true
    case _ => false
  }

  ghost predicate MetaDuring(s0: State, target: nat, failed: bool, status: Status, s: State) {
    if s.pc.Idle? then s.meta == (if failed then s0.meta else Meta(target, target, Normal))
    else s.meta == Meta(s0.meta.curr, target, status)
  }

  ghost predicate Expansion(s0: State, target: nat, creates: nat, removes: nat, failed: bool, s: State) {
    && s0.meta.curr < target && Aligned(s0.meta.curr) && Aligned(target)
    && Expandingly(s0, target, failed, s) && MetaDuring(s0, target, failed, Expanding, s)
    && s.min == s0.min + creates && s.inUse == s0.inUse + creates - removes
    && s.max == s0.max + removes + if failed then 0 else Appended(s.pc, Blocks(target) - Blocks(s0.meta.curr))
  }

  ghost predicate Shrinkage(s0: State, target: nat, creates: nat, removes: nat, s: State) {
    && target < s0.meta.curr && Aligned(s0.meta.curr) && Aligned(target)
    && Shrinkingly(s0, target, s) && MetaDuring(s0, target, false, Shrinking, s)
    && s.max == s0.max + removes && s.inUse == s0.inUse + creates - removes
    && s.min == s0.min + creates + Dropped(s.pc, Blocks(s0.meta.curr) - Blocks(target))
  }

  lemma ExpansionTenantStep(s0: State, target: nat, c: nat, r: nat, failed: bool, s: State, a: Step)
    requires Expansion(s0, target, c, r, failed, s) && !s.pc.Idle? && Enabled(s, a) && TenantStep(a)
    ensures Expansion(s0, target, c + Begun(a, CreateBegin), r + Begun(a, RemoveBegin), failed, Apply(s, a))
  {
  }

  lemma ExpansionOwnStep(s0: State, target: nat, c: nat, r: nat, failed: bool, s: State, a: Step)
    requires ResizeOk(s.pc, s.meta, Total(s), s.tmp, s.ledger)
    requires Expansion(s0, target, c, r, failed, s) && !s.pc.Idle? && Enabled(s, a) && !TenantStep(a) && !a.Crash?
    ensures Expansion(s0, target, c, r, failed || FailedAllocation(a), Apply(s, a))
  {
    hide Total;
  }

  lemma ExpansionStep(s0: State, target: nat, c: nat, r: nat, failed: bool, s: State, a: Step)
    requires Inv(s) && Expansion(s0, target, c, r, failed, s) && !s.pc.Idle? && Enabled(s, a) && !a.Crash?
    ensures Expansion(s0, target, c + Begun(a, CreateBegin), r + Begun(a, RemoveBegin),
                      failed || FailedAllocation(a), Apply(s, a))
  {
    hide Expansion, Apply, Enabled, MemoryOk, DurableOk, ResizeOk;
    if TenantStep(a) {
      ExpansionTenantStep(s0, target, c, r, failed, s, a);
    } else {
      ExpansionOwnStep(s0, target, c, r, failed, s, a);
    }
  }

  lemma ShrinkageStep(s0: State, target: nat, c: nat, r: nat, s: State, a: Step)
    requires Inv(s) && WithinLedger(s)
    requires Shrinkage(s0, target, c, r, s) && !s.pc.Idle? && Enabled(s, a) && !a.Crash?
    ensures Shrinkage(s0, target, c + Begun(a, CreateBegin), r + Begun(a, RemoveBegin), Apply(s, a))
  {
    if s.pc.Free? && s.pc.taken.None? {
      FreeCount(s);
      BlocksOfAligned(s.meta.next);
    }
  }

  lemma {:induction false} ExpansionRun(s0: State, target: nat, c: nat, r: nat, failed: bool, s: State, steps: seq<Step>)
    requires Inv(s) && Expansion(s0, target, c, r, failed, s)
    requires Runs(s, steps) && RestsOnlyAtEnd(s, steps) && AlwaysWithinLedger(s, steps)
    requires forall a | a in steps :: !a.Crash?
    ensures var t := After(s, steps);
            && Inv(t)
            && Expansion(s0, target, c + Creates(steps), r + Removes(steps),
                         failed || Failed(steps), t)
    decreases |steps|
  {
    hide Inv, Expansion, Apply, Enabled;
    if steps != [] {
      var a, rest := steps[0], steps[1..];
      StepKeepsInv(s, a);
      ExpansionStep(s0, target, c, r, failed, s, a);
      ExpansionRun(s0, target, c + Begun(a, CreateBegin), r + Begun(a, RemoveBegin), failed || FailedAllocation(a), Apply(s, a), rest);
    }
  }

  lemma {:induction false} ShrinkageRun(s0: State, target: nat, c: nat, r: nat, s: State, steps: seq<Step>)
    requires Inv(s) && Shrinkage(s0, target, c, r, s)
    requires Runs(s, steps) && RestsOnlyAtEnd(s, steps) && AlwaysWithinLedger(s, steps)
    requires forall a | a in steps :: !a.Crash?
    ensures var t := After(s, steps);
            Inv(t) && Shrinkage(s0, target, c + Creates(steps), r + Removes(steps), t)
    decreases |steps|
  {
    hide Inv, Shrinkage, Apply, Enabled;
    if steps != [] {
      var a, rest := steps[0], steps[1..];
      StepKeepsInv(s, a);
      ShrinkageStep(s0, target, c, r, s, a);
      ShrinkageRun(s0, target, c + Begun(a, CreateBegin), r + Begun(a, RemoveBegin), Apply(s, a), rest);
    }
  }

  lemma ExpansionBegins(s: State, bytes: nat)
    requires Inv(s) && Enabled(s, ResizeBegin(bytes)) && s.meta.curr < LowerAlign(bytes)
    ensures var b := Apply(s, ResizeBegin(bytes)); s.pc.Idle? && Inv(b) && Expansion(s, LowerAlign(bytes), 0, 0, false, b)
  {
    ResizeBeginKeeps(s, bytes);
    BlocksOfAligned(bytes);
    AlignedOrder(s.meta.curr, LowerAlign(bytes));
  }

  lemma ShrinkageBegins(s: State, bytes: nat)
    requires Inv(s) && Enabled(s, ResizeBegin(bytes)) && LowerAlign(bytes) < s.meta.curr
    ensures var b := Apply(s, ResizeBegin(bytes)); s.pc.Idle? && Inv(b) && Shrinkage(s, LowerAlign(bytes), 0, 0, b)
  {
    ResizeBeginKeeps(s, bytes);
    BlocksOfAligned(bytes);
    AlignedOrder(LowerAlign(bytes), s.meta.curr);
  }

  /** At rest the blocks on disk are what the meta says. */
  lemma RestTotal(s: State)
    requires Inv(s) && s.pc.Idle?
    ensures Total(s) == Blocks(s.meta.curr) && s.tmp == {}
  {
  }

  /** The numbers at the end of an expansion. */
  lemma ExpansionEnds(s: State, target: nat, c: nat, r: nat, failed: bool, t: State)
    requires Inv(s) && s.pc.Idle? && Inv(t) && t.pc.Idle? && Expansion(s, target, c, r, failed, t)
    ensures var cnt := if failed then 0 else Blocks(target) - Blocks(s.meta.curr);
            && t.tmp == {} && t.meta == (if failed then s.meta else Meta(target, target, Normal))
            && Total(t) == Total(s) + cnt
            && t.min == s.min + c && t.max == s.max + r + cnt && t.inUse == s.inUse + c - r
  {
    RestTotal(s);
    RestTotal(t);
  }

  /** An expansion ends in one of two ways. If an allocation failed, ids, counts and the persisted meta are
      what they were, up to the moves tenants made meanwhile; if none failed, exactly the missing number of
      fresh ids was appended and the meta records the target. */
  lemma ExpandIsAtomic(s: State, bytes: nat, b: State, steps: seq<Step>)
    requires Reachable(s) && Enabled(s, ResizeBegin(bytes)) && s.meta.curr < LowerAlign(bytes)
    requires b == Apply(s, ResizeBegin(bytes))
    requires Runs(b, steps) && RestsOnlyAtEnd(b, steps) && AlwaysWithinLedger(b, steps) && After(b, steps).pc.Idle?
    requires forall a | a in steps :: !a.Crash?
    ensures var t := After(b, steps);
            var cnt := if Failed(steps) then 0 else Blocks(LowerAlign(bytes)) - Blocks(s.meta.curr);
            && t.tmp == {}
            && t.meta == (if Failed(steps) then s.meta else Meta(LowerAlign(bytes), LowerAlign(bytes), Normal))
            && Total(t) == Total(s) + cnt
            && t.min == s.min + Creates(steps) && t.max == s.max + Removes(steps) + cnt
            && t.inUse == s.inUse + Creates(steps) - Removes(steps)
  {
    hide *;
    ReachableInv(s);
    ExpansionBegins(s, bytes);
    ExpansionRun(s, LowerAlign(bytes), 0, 0, false, b, steps);
    ExpansionEnds(s, LowerAlign(bytes), Creates(steps), Removes(steps), Failed(steps), After(b, steps));
  }

  /** The numbers at the end of a shrink. */
  lemma ShrinkageEnds(s: State, target: nat, c: nat, r: nat, t: State)
    requires Inv(s) && s.pc.Idle? && Inv(t) && t.pc.Idle? && Shrinkage(s, target, c, r, t)
    ensures var cnt := Blocks(s.meta.curr) - Blocks(target);
            && t.tmp == {} && t.meta == Meta(target, target, Normal) && Total(t) == Total(s) - cnt
            && t.min == s.min + c + cnt && t.max == s.max + r && t.inUse == s.inUse + c - r
  {
    RestTotal(s);
    RestTotal(t);
  }

  /** A shrink takes exactly the surplus blocks from the low end. */
  lemma ShrinkIsExact(s: State, bytes: nat, b: State, steps: seq<Step>)
    requires Reachable(s) && Enabled(s, ResizeBegin(bytes)) && LowerAlign(bytes) < s.meta.curr
    requires b == Apply(s, ResizeBegin(bytes))
    requires Runs(b, steps) && RestsOnlyAtEnd(b, steps) && AlwaysWithinLedger(b, steps) && After(b, steps).pc.Idle?
    requires forall a | a in steps :: !a.Crash?
    ensures var t := After(b, steps);
            var cnt := Blocks(s.meta.curr) - Blocks(LowerAlign(bytes));
            && t.tmp == {} && t.meta == Meta(LowerAlign(bytes), LowerAlign(bytes), Normal)
            && Total(t) == Total(s) - cnt
            && t.min == s.min + Creates(steps) + cnt && t.max == s.max + Removes(steps)
            && t.inUse == s.inUse + Creates(steps) - Removes(steps)
  {
    hide *;
    ReachableInv(s);
    ShrinkageBegins(s, bytes);
    ShrinkageRun(s, LowerAlign(bytes), 0, 0, b, steps);
    ShrinkageEnds(s, LowerAlign(bytes), Creates(steps), Removes(steps), After(b, steps));
  }
}
