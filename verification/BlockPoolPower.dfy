/** Power failures. Directory changes become durable in the order they were made, at any time, and at the latest
    when a directory is synced; a power failure takes the directories back to what was durable. The meta file
    is written synchronously. A crash of the process alone, as before, loses nothing on disk. */
module BlockPoolPower {
  import opened Common
  import opened BlockPool
  import opened BlockPoolInvariant
  import opened BlockPoolTheorems
  import opened BlockPoolRecovery
  import opened LogBlockMgrs

  /** The pool and the tenants' directories. */
  datatype Dirs = Dirs(pool: set<nat>, tenants: nat)

  function DirsOf(s: State): Dirs { Dirs(s.pool, s.tenants) }

  function DirsTotal(d: Dirs): nat { |d.pool| + d.tenants }

  /** `image` is what is durable. */
  datatype Machine = Machine(s: State, image: Dirs)

  /** `Flush` is a sync that returns, or one the file system makes by itself. `PowerLoss` leaves anything in
      the expanding directory. */
  datatype PowerStep = Do(a: Step) | Flush | PowerLoss(tmp: set<nat>)

  /** The syncs of a resize, after its last rename and its last unlink. */
  predicate Syncs(a: Step) { a.MovesDone? || a.FreesDone? }

  predicate CanDo(x: Machine, p: PowerStep) { p.Do? ==> Enabled(x.s, p.a) }

  function Lose(x: Machine, tmp: set<nat>): State {
    x.s.(pool := x.image.pool, tenants := x.image.tenants, tmp := tmp, min := 0, max := 0, inUse := 0, ledger := 0,
         creating := {}, removing := {}, pc := Boot)
  }

  function Next(x: Machine, p: PowerStep): Machine
    requires CanDo(x, p)
  {
    match p
    case Do(a) => Machine(Apply(x.s, a), if Syncs(a) then DirsOf(Apply(x.s, a)) else x.image)
    case Flush => x.(image := DirsOf(x.s))
    case PowerLoss(tmp) => x.(s := Lose(x, tmp))
  }

  /** The durable blocks fit the meta; they lag behind only between the first rename or unlink of a resize and
      its sync. */
  ghost predicate ImageOk(pc: Pc, meta: Meta, total: nat, image: nat) {
    && DurableOk(meta, image)
    && match pc
       case Alloc(_, _, _, boot) => !boot ==> image == Blocks(meta.curr)
       case Discard(_, boot) => !boot ==> image == Blocks(meta.curr)
       case Revert(_, boot) => !boot ==> image == Blocks(meta.curr)
       case Clean(_) => image == total
       case Commit(_) => image == total
       case _ => true
  }

  ghost predicate MachineInv(x: Machine) {
    Inv(x.s) && ImageOk(x.s.pc, x.s.meta, Total(x.s), DirsTotal(x.image))
  }

  lemma ImageNow(s: State)
    requires Inv(s)
    ensures ImageOk(s.pc, s.meta, Total(s), DirsTotal(DirsOf(s)))
  {
  }

  /** Steps that neither sync nor move blocks from or to nowhere. */
  lemma ImageStays(s: State, a: Step, image: nat)
    requires Inv(s) && Enabled(s, a) && !Syncs(a) && !a.ResizeBegin? && ImageOk(s.pc, s.meta, Total(s), image)
    requires !RunsDry(s, a)
    requires Total(Apply(s, a)) - Total(s) == if a.RenameFromTmp? then 1 else if a.Unlink? then -1 else 0
    ensures ImageOk(Apply(s, a).pc, Apply(s, a).meta, Total(Apply(s, a)), image)
  {
    hide MemoryOk, Total;
  }

  lemma ImageAtBegin(s: State, bytes: nat, image: nat)
    requires Inv(s) && Enabled(s, ResizeBegin(bytes)) && ImageOk(s.pc, s.meta, Total(s), image)
    ensures var t := Apply(s, ResizeBegin(bytes)); ImageOk(t.pc, t.meta, Total(t), image)
  {
    ResizeBeginKeeps(s, bytes);
  }

  lemma LossKeeps(x: Machine, tmp: set<nat>)
    requires MachineInv(x)
    ensures MachineInv(Next(x, PowerLoss(tmp)))
  {
    var t := Lose(x, tmp);
    assert Total(t) == DirsTotal(x.image);
  }

  lemma PowerStepKeeps(x: Machine, p: PowerStep)
    requires MachineInv(x) && CanDo(x, p) && WithinLedger(x.s)
    ensures MachineInv(Next(x, p))
  {
    hide Inv, Apply, Enabled, ImageOk, Total, DirsTotal;
    match p
    case PowerLoss(tmp) => LossKeeps(x, tmp);
    case Flush => ImageNow(x.s);
    case Do(a) =>
      StepKeepsInv(x.s, a);
      if Syncs(a) {
        ImageNow(Apply(x.s, a));
      } else if a.ResizeBegin? {
        ImageAtBegin(x.s, a.bytes, DirsTotal(x.image));
      } else {
        StepTotal(x.s, a);
        ImageStays(x.s, a, DirsTotal(x.image));
      }
  }

  // ---------------------------------------------------------------- runs

  ghost predicate PowerRuns(x: Machine, ps: seq<PowerStep>)
    decreases |ps|
  {
    ps == [] || (CanDo(x, ps[0]) && PowerRuns(Next(x, ps[0]), ps[1..]))
  }

  ghost function PowerAfter(x: Machine, ps: seq<PowerStep>): Machine
    requires PowerRuns(x, ps)
    decreases |ps|
  {
    if ps == [] then x else PowerAfter(Next(x, ps[0]), ps[1..])
  }

  ghost predicate PowerWithinLedger(x: Machine, ps: seq<PowerStep>)
    requires PowerRuns(x, ps)
    decreases |ps|
  {
    WithinLedger(x.s) && (ps != [] ==> PowerWithinLedger(Next(x, ps[0]), ps[1..]))
  }

  lemma {:induction false} PowerRunKeeps(x: Machine, ps: seq<PowerStep>)
    requires MachineInv(x) && PowerRuns(x, ps) && PowerWithinLedger(x, ps)
    ensures MachineInv(PowerAfter(x, ps))
    decreases |ps|
  {
    hide MachineInv, CanDo, Next, WithinLedger;
    if ps != [] {
      PowerStepKeeps(x, ps[0]);
      PowerRunKeeps(Next(x, ps[0]), ps[1..]);
    }
  }

  /** The durable image is that of the beginning, or of the state after the first k steps. */
  ghost predicate ImageFrom(x: Machine, ps: seq<PowerStep>, k: nat)
    requires PowerRuns(x, ps)
  {
    k <= |ps| && PowerRuns(x, ps[..k]) && DirsOf(PowerAfter(x, ps[..k]).s) == PowerAfter(x, ps).image
  }

  lemma {:induction false} ImageIs(x: Machine, ps: seq<PowerStep>)
    requires PowerRuns(x, ps)
    ensures PowerAfter(x, ps).image == x.image || exists k :: ImageFrom(x, ps, k)
    decreases |ps|
  {
    hide Apply, Enabled;
    if ps != [] {
      var y, rest := Next(x, ps[0]), ps[1..];
      ImageIs(y, rest);
      if PowerAfter(y, rest).image == y.image == DirsOf(y.s) {
        assert rest[..0] == [];
        assert ImageFrom(y, rest, 0);
      }
      if k: nat :| ImageFrom(y, rest, k) {
        assert ps[..k + 1][1..] == rest[..k];
        assert ImageFrom(x, ps, k + 1);
      }
    }
  }

  /** What is durable are the directories as they were at some moment of the run, if they were synced when it
      began: a block move that was synced is never undone. */
  lemma ImageIsRecent(x: Machine, ps: seq<PowerStep>)
    requires x.image == DirsOf(x.s) && PowerRuns(x, ps)
    ensures exists k :: ImageFrom(x, ps, k)
  {
    ImageIs(x, ps);
    if PowerAfter(x, ps).image == x.image {
      assert ps[..0] == [];
      assert ImageFrom(x, ps, 0);
    }
  }

  // ---------------------------------------------------------------- recovery

  const POWER_ON := Machine(FRESH, DirsOf(FRESH))

  /** No machine before the last one is at rest. */
  ghost predicate PowerRestsAtEnd(x: Machine, ps: seq<PowerStep>)
    requires PowerRuns(x, ps)
    decreases |ps|
  {
    ps != [] ==> !x.s.pc.Idle? && PowerRestsAtEnd(Next(x, ps[0]), ps[1..])
  }

  /** While loading the tenants' blocks stay where they are, on disk and in what is durable. */
  ghost predicate PowerLoading(x: Machine, m: Meta, tenants: nat) {
    MachineInv(x) && LoadingMeta(x.s, m, tenants) && Quiet(x.s) && x.image.tenants == tenants
  }

  lemma PowerLoadingStep(x: Machine, p: PowerStep, m: Meta, tenants: nat)
    requires PowerLoading(x, m, tenants) && !x.s.pc.Idle? && CanDo(x, p)
    ensures PowerLoading(Next(x, p), m, tenants)
  {
    assert WithinLedger(x.s);
    PowerStepKeeps(x, p);
    if p.Do? {
      LoadingMetaStep(x.s, p.a, m, tenants);
    }
    hide MachineInv, Enabled;
  }

  lemma {:induction false} PowerLoadingRun(x: Machine, ps: seq<PowerStep>, m: Meta, tenants: nat)
    requires PowerLoading(x, m, tenants) && PowerRuns(x, ps) && PowerRestsAtEnd(x, ps)
    ensures PowerLoading(PowerAfter(x, ps), m, tenants)
    decreases |ps|
  {
    hide PowerLoading, CanDo, Next;
    if ps != [] {
      PowerLoadingStep(x, ps[0], m, tenants);
      PowerLoadingRun(Next(x, ps[0]), ps[1..], m, tenants);
    }
  }

  /** A power failure at any point of any run, with any crashes and power failures before and while loading. If
      loading gets through, the size is settled as after a crash, the accounts agree and the pool is exactly
      [min, max). Tenants have the blocks they had in what was durable. */
  lemma PowerLossRecovery(before: seq<PowerStep>, x: Machine, tmp: set<nat>, load: seq<PowerStep>, y: Machine)
    requires PowerRuns(POWER_ON, before) && PowerWithinLedger(POWER_ON, before) && x == PowerAfter(POWER_ON, before)
    requires var c := Next(x, PowerLoss(tmp)); PowerRuns(c, load) && PowerRestsAtEnd(c, load) && y == PowerAfter(c, load)
    requires y.s.pc.Idle?
    ensures y.s.meta.status.Normal? && y.s.tmp == {} && y.s.tenants == y.s.inUse == x.image.tenants
    ensures y.s.pool == Range(y.s.min, y.s.max) && y.s.meta.curr == BLOCK_SIZE * Total(y.s)
    ensures y.s.meta.curr == SettledSize(x.s.meta)
  {
    PowerRunKeeps(POWER_ON, before);
    LossKeeps(x, tmp);
    PowerLoadingRun(Next(x, PowerLoss(tmp)), load, x.s.meta, x.image.tenants);
    BlocksOfAligned(y.s.meta.curr);
  }

  /** The syncs are what this rests on: once the size is committed, what is durable loads after a power failure
      exactly if no rename or unlink of the resize is missing from it. */
  lemma SyncNeededExactly(s: State, image: Dirs, granted: nat)
    requires Inv(s) && Enabled(s, WriteNormal)
    ensures var m := Apply(s, WriteNormal).meta;
            Loads(m, image.tenants, |image.pool|, granted) <==> DirsTotal(image) == Total(s)
  {
    BlocksOfAligned(s.meta.next);
  }

  /** Without the sync one can be missing: right after a rename out of the expanding directory what was durable
      before is one block short, and right after an unlink one over. */
  lemma ImageLags(x: Machine, a: Step)
    requires Inv(x.s) && x.image == DirsOf(x.s) && Enabled(x.s, a) && (a.RenameFromTmp? || a.Unlink?)
    ensures var y := Next(x, Do(a)); DirsTotal(y.image) == Total(y.s) + if a.Unlink? then 1 else -1
  {
    StepTotal(x.s, a);
  }
}
