/** The garbage-collection state of a log stream replica and its replay from the log. */
module GcReplay {
  import opened Common

  datatype GcState = InvalidState | LsNormal | LsBlocked | WaitOffline | LsOffline | WaitGc {
    /** The value of the enumerator in the source. */
    function Rank(): nat {
      match this
      case InvalidState => 0
      case LsNormal => 1
      case LsBlocked => 2
      case WaitOffline => 3
      case LsOffline => 4
      case WaitGc => 5
    }
  }

  predicate IsValid(g: GcState) { g != InvalidState }

  predicate IsBlockedFinished(g: GcState) { LsBlocked.Rank() <= g.Rank() }

  predicate IsOfflineFinished(g: GcState) { LsOffline.Rank() <= g.Rank() }

  /** The part of the persisted meta that garbage collection owns. */
  datatype LsMeta = LsMeta(gc: GcState, offlineScn: Option<nat>)

  const BORN := LsMeta(LsNormal, None)

  /** A gc entry of the log with its scn. */
  datatype Entry = Block(scn: nat) | Offline(scn: nat)

  function OnBlock(m: LsMeta): LsMeta {
    if !IsValid(m.gc) || IsBlockedFinished(m.gc) then m else LsMeta(LsBlocked, None)
  }

  function OnOffline(m: LsMeta, scn: nat): LsMeta {
    if !IsValid(m.gc) || IsOfflineFinished(m.gc) then m else LsMeta(LsOffline, Some(scn))
  }

  function ReplayOne(m: LsMeta, e: Entry): LsMeta {
    match e
    case Block(_) => OnBlock(m)
    case Offline(scn) => OnOffline(m, scn)
  }

  /** What an entry does in each state: BLOCK moves only a normal log stream, OFFLINE one that is not offline yet. */
  lemma EntryExactly(m: LsMeta, scn: nat)
    ensures ReplayOne(m, Block(scn)) == if m.gc == LsNormal then LsMeta(LsBlocked, None) else m
    ensures ReplayOne(m, Offline(scn)) ==
              if m.gc == LsNormal || m.gc == LsBlocked || m.gc == WaitOffline then LsMeta(LsOffline, Some(scn)) else m
  {
  }

  function Replay(m: LsMeta, log: seq<Entry>): LsMeta
    decreases |log|
  {
    if log == [] then m else Replay(ReplayOne(m, log[0]), log[1..])
  }

  // ---------------------------------------------------------------- what a prefix of the log means

  function FirstOffline(log: seq<Entry>): (scn: Option<nat>)
    ensures scn.None? <==> forall e | e in log :: !e.Offline?
    ensures scn.Some? ==> Offline(scn.value) in log
  {
    if log == [] then None
    else if log[0].Offline? then Some(log[0].scn)
    else FirstOffline(log[1..])
  }

  /** The state a log stands for, without replaying it: the first OFFLINE entry decides, else any BLOCK. */
  ghost function Meaning(log: seq<Entry>): LsMeta {
    if FirstOffline(log).Some? then LsMeta(LsOffline, FirstOffline(log))
    else if log != [] then LsMeta(LsBlocked, None)
    else BORN
  }

  /** Equal up to the local step to WAIT_GC, which also clears the offline scn. */
  ghost predicate UpToWaitGc(m: LsMeta, n: LsMeta) {
    m == n || (m == LsMeta(WaitGc, None) && n.gc.LsOffline?)
  }

  lemma {:induction false} FirstOfflineAppend(log: seq<Entry>, e: Entry)
    ensures FirstOffline(log + [e]) == if FirstOffline(log).Some? then FirstOffline(log)
                                       else if e.Offline? then Some(e.scn) else None
  {
    if log == [] {
      assert log + [e] == [e];
    } else {
      assert (log + [e])[1..] == log[1..] + [e];
      FirstOfflineAppend(log[1..], e);
    }
  }

  /** Applying one more entry keeps a replica at the meaning of what it applied. */
  lemma MeaningStep(log: seq<Entry>, e: Entry, m: LsMeta)
    requires UpToWaitGc(m, Meaning(log))
    ensures UpToWaitGc(ReplayOne(m, e), Meaning(log + [e]))
  {
    FirstOfflineAppend(log, e);
  }

  lemma {:induction false} ReplayAppend(m: LsMeta, log: seq<Entry>, e: Entry)
    ensures Replay(m, log + [e]) == ReplayOne(Replay(m, log), e)
    decreases |log|
  {
    if log == [] {
      assert log + [e] == [e];
    } else {
      assert (log + [e])[1..] == log[1..] + [e];
      ReplayAppend(ReplayOne(m, log[0]), log[1..], e);
    }
  }

  /** Replaying a log gives its meaning. */
  lemma {:induction false} ReplayMeaning(log: seq<Entry>)
    ensures Replay(BORN, log) == Meaning(log)
    decreases |log|
  {
    if log != [] {
      var init, e := log[..|log| - 1], log[|log| - 1];
      assert init + [e] == log;
      ReplayMeaning(init);
      ReplayAppend(BORN, init, e);
      FirstOfflineAppend(init, e);
    }
  }

  // ---------------------------------------------------------------- replaying again

  /** `m` has seen entry `e`: replaying it changes nothing. */
  ghost predicate Absorbs(m: LsMeta, e: Entry) { ReplayOne(m, e) == m }

  lemma {:induction false} NeverGoesBack(m: LsMeta, log: seq<Entry>)
    ensures m.gc.Rank() <= Replay(m, log).gc.Rank()
    ensures IsOfflineFinished(m.gc) || !IsValid(m.gc) ==> Replay(m, log) == m
    decreases |log|
  {
    if log != [] {
      NeverGoesBack(ReplayOne(m, log[0]), log[1..]);
    }
  }

  lemma {:induction false} ReplayAbsorbs(m: LsMeta, log: seq<Entry>)
    ensures forall e | e in log :: Absorbs(Replay(m, log), e)
    decreases |log|
  {
    if log != [] {
      ReplayAbsorbs(ReplayOne(m, log[0]), log[1..]);
      NeverGoesBack(ReplayOne(m, log[0]), log[1..]);
      assert Absorbs(Replay(m, log), log[0]);
      assert log == [log[0]] + log[1..];
    }
  }

  lemma {:induction false} AbsorbsAll(m: LsMeta, log: seq<Entry>)
    requires forall e | e in log :: Absorbs(m, e)
    ensures Replay(m, log) == m
  {
    if log != [] {
      assert Absorbs(m, log[0]);
      AbsorbsAll(m, log[1..]);
    }
  }

  /** Replaying again, from any earlier point up to any point already reached, changes nothing; this holds
      for every starting meta, WAIT_GC and invalid ones included. */
  lemma ReplayAgain(m: LsMeta, log: seq<Entry>, from: nat, to: nat)
    requires from <= to <= |log|
    ensures Replay(Replay(m, log), log[from..to]) == Replay(m, log)
  {
    ReplayAbsorbs(m, log);
    AbsorbsAll(Replay(m, log), log[from..to]);
  }

  // ---------------------------------------------------------------- replicas that restart

  /** A replica: `next` is the position replay stands at, `seen` the furthest position it ever reached. */
  datatype Replica = Replica(meta: LsMeta, next: nat, seen: nat)

  datatype Event =
    | ApplyNext
    | Restart(from: nat)  // the persisted meta survives, replay starts at an earlier position
    | EnterWaitGc         // the local step of a leader whose log stream is offline

  predicate Possible(r: Replica, log: seq<Entry>, v: Event) {
    match v
    case ApplyNext => r.next < |log|
    case Restart(from) => from <= r.next
    case EnterWaitGc => r.meta.gc.LsOffline?
  }

  function Next(r: Replica, log: seq<Entry>, v: Event): Replica
    requires Possible(r, log, v)
  {
    match v
    case ApplyNext =>
      Replica(ReplayOne(r.meta, log[r.next]), r.next + 1, if r.next == r.seen then r.seen + 1 else r.seen)
    case Restart(from) => r.(next := from)
    case EnterWaitGc => r.(meta := LsMeta(WaitGc, None))
  }

  ghost predicate Follows(r: Replica, log: seq<Entry>) {
    r.next <= r.seen <= |log| && UpToWaitGc(r.meta, Meaning(log[..r.seen]))
  }

  lemma FollowsStep(r: Replica, log: seq<Entry>, v: Event)
    requires Follows(r, log) && Possible(r, log, v)
    ensures Follows(Next(r, log, v), log)
    ensures r.meta.gc.Rank() <= Next(r, log, v).meta.gc.Rank()
  {
    if v.ApplyNext? {
      var done := log[..r.seen];
      if r.next == r.seen {
        assert log[..r.seen + 1] == done + [log[r.next]];
        MeaningStep(done, log[r.next], r.meta);
      } else {
        assert log[r.next] == done[r.next];
        ReplayMeaning(done);
        ReplayAbsorbs(BORN, done);
      }
    }
  }

  ghost predicate Lives(r: Replica, log: seq<Entry>, life: seq<Event>)
    decreases |life|
  {
    life == [] || (Possible(r, log, life[0]) && Lives(Next(r, log, life[0]), log, life[1..]))
  }

  ghost function Outlived(r: Replica, log: seq<Entry>, life: seq<Event>): Replica
    requires Lives(r, log, life)
    decreases |life|
  {
    if life == [] then r else Outlived(Next(r, log, life[0]), log, life[1..])
  }

  /** Over every life, with any restarts, the state never goes back and is the meaning of the prefix seen. */
  lemma {:induction false} LifeFollowsLog(r: Replica, log: seq<Entry>, life: seq<Event>)
    requires Follows(r, log) && Lives(r, log, life)
    ensures Follows(Outlived(r, log, life), log)
    ensures r.meta.gc.Rank() <= Outlived(r, log, life).meta.gc.Rank()
    decreases |life|
  {
    if life != [] {
      FollowsStep(r, log, life[0]);
      LifeFollowsLog(Next(r, log, life[0]), log, life[1..]);
    }
  }

  const NEW_REPLICA := Replica(BORN, 0, 0)

  /** Replicas that reached the same prefix agree on state and offline scn, up to the local WAIT_GC step,
      whatever each of them went through. */
  lemma ReplicasAgree(log: seq<Entry>, life: seq<Event>, life': seq<Event>)
    requires Lives(NEW_REPLICA, log, life) && Lives(NEW_REPLICA, log, life')
    requires Outlived(NEW_REPLICA, log, life).seen == Outlived(NEW_REPLICA, log, life').seen
    ensures var m, n := Outlived(NEW_REPLICA, log, life).meta, Outlived(NEW_REPLICA, log, life').meta;
            UpToWaitGc(m, n) || UpToWaitGc(n, m)
  {
    LifeFollowsLog(NEW_REPLICA, log, life);
    LifeFollowsLog(NEW_REPLICA, log, life');
  }

  /** The offline scn a replica holds is the one of the first OFFLINE entry, and it holds one exactly while
      its state is LS_OFFLINE: the step to WAIT_GC forgets it, so it does not stay fixed for good. */
  lemma OfflineScnExactly(log: seq<Entry>, life: seq<Event>)
    requires Lives(NEW_REPLICA, log, life)
    ensures var m := Outlived(NEW_REPLICA, log, life).meta;
            && (m.offlineScn.Some? <==> m.gc.LsOffline?)
            && (m.offlineScn.Some? ==> m.offlineScn == FirstOffline(log))
            && (m.gc.WaitGc? ==> FirstOffline(log).Some?)
  {
    LifeFollowsLog(NEW_REPLICA, log, life);
    var r := Outlived(NEW_REPLICA, log, life);
    PrefixOffline(log, r.seen);
  }

  lemma {:induction false} PrefixOffline(log: seq<Entry>, n: nat)
    requires n <= |log|
    ensures FirstOffline(log[..n]).Some? ==> FirstOffline(log) == FirstOffline(log[..n])
    decreases |log| - n
  {
    if n == |log| {
      assert log[..n] == log;
    } else {
      assert log[..n + 1] == log[..n] + [log[n]];
      FirstOfflineAppend(log[..n], log[n]);
      PrefixOffline(log, n + 1);
    }
  }

  /** A log stream that was offline and entered WAIT_GC has no offline scn any more. */
  lemma WaitGcForgetsOfflineScn(a: nat, b: nat)
    ensures var log, life := [Block(a), Offline(b)], [ApplyNext, ApplyNext, EnterWaitGc];
            && Lives(NEW_REPLICA, log, life[..2]) && Outlived(NEW_REPLICA, log, life[..2]).meta == LsMeta(LsOffline, Some(b))
            && Lives(NEW_REPLICA, log, life) && Outlived(NEW_REPLICA, log, life).meta == LsMeta(WaitGc, None)
  {
    var log := [Block(a), Offline(b)];
    var r1 := Next(NEW_REPLICA, log, ApplyNext);
    var r2 := Next(r1, log, ApplyNext);
    var life := [ApplyNext, ApplyNext, EnterWaitGc];
    assert life[..2] == [ApplyNext, ApplyNext] && life[..2][1..] == [ApplyNext] && life[..2][1..][1..] == [];
    assert life[1..] == [ApplyNext, EnterWaitGc] && life[1..][1..] == [EnterWaitGc] && life[1..][1..][1..] == [];
    assert Lives(r2, log, []) && Lives(r1, log, [ApplyNext]);
    assert Lives(Next(r2, log, EnterWaitGc), log, []) && Lives(r2, log, [EnterWaitGc]) && Lives(r1, log, life[1..]);
  }
}
