/** The life of one log stream across all its replicas and its row in the status table, up to the removal
    of replicas. Every step is one action of one server; they interleave freely, and what a collector read
    from the table may be stale when it acts on it. */
module GcLifecycle {
  import opened Common
  import opened GcReplay

  datatype Status = RowNormal | RowDropping | RowTenantDropping | RowWaitOffline

  /** What a collector found out about the row in its current round. */
  datatype View = Unread | Saw(status: Status) | Missing | TenantDropped

  datatype Reason = EntryNotExist | TenantGone | NotInLeaderMemberList

  /** `deleting` stands for the candidate status LS_NEED_DELETE_ENTRY. */
  datatype Server = Server(replica: Replica, view: View, deleting: bool, removed: Option<Reason>)

  datatype State = State(log: seq<Entry>, row: Option<Status>, tenantDropped: bool, servers: map<nat, Server>)

  /** Log archiving as the leader finds it: on, with its progress, or off, with what the delayed deletion
      looks at; times are in microseconds and scns in nanoseconds. */
  datatype Archive =
    | On(ignore: bool, archived: nat)
    | Off(tenantDropping: bool, restoreOrClone: bool, now: int, delay: int)

  predicate ArchiveAllows(x: Archive, offlineScn: nat) {
    match x
    case On(ignore, archived) => ignore || offlineScn <= archived
    case Off(tenantDropping, restoreOrClone, now, delay) =>
      tenantDropping || restoreOrClone || now - offlineScn / 1000 >= delay
  }

  datatype Step =
    | SetRow(status: Status)                            // the root service moves the status on
    | DropTenant
    | ReadRow(r: nat, fails: bool, allowGc: bool)       // gc_check_ls_status_
    | CommitBlock(r: nat, scn: nat)                     // submit_log_ of a leader, seen when it commits
    | CommitOffline(r: nat, scn: nat)
    | Replays(r: nat)                                   // also the leader's own update after its commit
    | RestartServer(r: nat, from: nat)
    | CopyReplica(r: nat, dest: nat, from: nat)         // migration takes the meta along
    | CheckWaitGc(r: nat, readable: nat, delayed: bool, archive: Archive, slogOk: bool)
    | SeeWaitGc(r: nat)
    | DeleteRow(r: nat, ok: bool)
    | Remove(r: nat)
    | RemoveNonMember(r: nat)

  predicate Alive(s: State, r: nat) { r in s.servers && s.servers[r].removed.None? }

  predicate Enabled(s: State, a: Step) {
    match a
    case SetRow(_) => s.row.Some?
    case DropTenant => true
    case ReadRow(r, _, _) => Alive(s, r)
    case CommitBlock(r, scn) =>
      && Alive(s, r) && HasReplayedAll(s, r) && After(s.log, scn)
      && s.servers[r].view in {Saw(RowDropping), Saw(RowTenantDropping)}
      && IsValid(Gc(s, r)) && !IsOfflineFinished(Gc(s, r)) && !Gc(s, r).LsBlocked?
    case CommitOffline(r, scn) =>
      && Alive(s, r) && HasReplayedAll(s, r) && After(s.log, scn)
      && s.servers[r].view == Saw(RowWaitOffline)
      && IsBlockedFinished(Gc(s, r)) && !Gc(s, r).WaitGc? && !Gc(s, r).LsOffline?
    case Replays(r) => Alive(s, r) && Possible(s.servers[r].replica, s.log, ApplyNext)
    case RestartServer(r, from) => Alive(s, r) && Possible(s.servers[r].replica, s.log, Restart(from))
    case CopyReplica(r, dest, from) =>
      Alive(s, r) && !Alive(s, dest) && Possible(s.servers[r].replica, s.log, Restart(from))
    case CheckWaitGc(r, readable, delayed, archive, _) =>
      Alive(s, r) && s.servers[r].view == Saw(RowWaitOffline) && Gc(s, r).LsOffline?
    case SeeWaitGc(r) => Alive(s, r) && s.servers[r].view == Saw(RowWaitOffline) && Gc(s, r).WaitGc?
    case DeleteRow(r, _) => Alive(s, r) && s.servers[r].deleting
    case Remove(r) => Alive(s, r) && s.servers[r].view in {Missing, TenantDropped}
    case RemoveNonMember(r) => Alive(s, r)
  }

  function Gc(s: State, r: nat): GcState
    requires r in s.servers
  {
    s.servers[r].replica.meta.gc
  }

  /** A server that can append has replayed the whole committed log. */
  predicate HasReplayedAll(s: State, r: nat)
    requires r in s.servers
  {
    s.servers[r].replica.next == |s.log|
  }

  predicate After(log: seq<Entry>, scn: nat) { log != [] ==> log[|log| - 1].scn < scn }

  /** try_check_and_set_wait_gc_ lets the log stream go. */
  predicate MayGo(m: LsMeta, readable: nat, delayed: bool, archive: Archive) {
    m.offlineScn.Some? && m.offlineScn.value <= readable && !delayed && ArchiveAllows(archive, m.offlineScn.value)
  }

  function Read(s: State, fails: bool, allowGc: bool): View {
    if s.row.Some? && !fails then Saw(s.row.value)
    else if s.tenantDropped then TenantDropped
    else if !fails && allowGc then Missing
    else Unread
  }

  function Update(s: State, r: nat, v: Server): State { s.(servers := s.servers[r := v]) }

  function Apply(s: State, a: Step): State
    requires Enabled(s, a)
  {
    match a
    case SetRow(status) => s.(row := Some(status))
    case DropTenant => s.(tenantDropped := true)
    case ReadRow(r, fails, allowGc) => Update(s, r, s.servers[r].(view := Read(s, fails, allowGc)))
    case CommitBlock(r, scn) => s.(log := s.log + [Block(scn)])
    case CommitOffline(r, scn) => s.(log := s.log + [Offline(scn)])
    case Replays(r) => Update(s, r, s.servers[r].(replica := Next(s.servers[r].replica, s.log, ApplyNext)))
    case RestartServer(r, from) =>
      Update(s, r, Server(Next(s.servers[r].replica, s.log, Restart(from)), Unread, false, None))
    case CopyReplica(r, dest, from) =>
      Update(s, dest, Server(Next(s.servers[r].replica, s.log, Restart(from)), Unread, false, None))
    case CheckWaitGc(r, readable, delayed, archive, slogOk) => WaitGcChecked(s, r, readable, delayed, archive, slogOk)
    case SeeWaitGc(r) => Update(s, r, s.servers[r].(deleting := true))
    case DeleteRow(r, ok) =>
      Update(s.(row := if ok then None else s.row), r, s.servers[r].(deleting := false))
    case Remove(r) =>
      Update(s, r, s.servers[r].(removed := Some(if s.servers[r].view.Missing? then EntryNotExist else TenantGone)))
    case RemoveNonMember(r) => Update(s, r, s.servers[r].(removed := Some(NotInLeaderMemberList)))
  }

  /** The row is to be deleted even when the new state could not be persisted. */
  function WaitGcChecked(s: State, r: nat, readable: nat, delayed: bool, archive: Archive, slogOk: bool): State
    requires r in s.servers && Gc(s, r).LsOffline?
  {
    var v := s.servers[r];
    if !MayGo(v.replica.meta, readable, delayed, archive) then s
    else Update(s, r, v.(deleting := true,
                         replica := if slogOk then Next(v.replica, s.log, EnterWaitGc) else v.replica))
  }

  ghost predicate Runs(s: State, steps: seq<Step>)
    decreases |steps|
  {
    steps == [] || (Enabled(s, steps[0]) && Runs(Apply(s, steps[0]), steps[1..]))
  }

  ghost function Reached(s: State, steps: seq<Step>): State
    requires Runs(s, steps)
    decreases |steps|
  {
    if steps == [] then s else Reached(Apply(s, steps[0]), steps[1..])
  }

  // ---------------------------------------------------------------- invariant

  /** The committed log holds one BLOCK entry and after it one OFFLINE entry, or a beginning of that. */
  ghost predicate LogOk(log: seq<Entry>) {
    || log == []
    || (|log| == 1 && log[0].Block?)
    || (|log| == 2 && log[0].Block? && log[1].Offline? && log[0].scn < log[1].scn)
  }

  ghost predicate Inv(s: State) {
    LogOk(s.log) && forall r | r in s.servers :: Follows(s.servers[r].replica, s.log)
  }

  /** Someone holds, or acted on, a permission to let the log stream go. */
  ghost predicate Released(v: Server) {
    v.replica.meta.gc.WaitGc? || v.deleting || v.view.Missing? || v.removed == Some(EntryNotExist)
  }

  ghost predicate Going(s: State) {
    s.row.None? || exists r :: r in s.servers && Released(s.servers[r])
  }

  lemma FollowsLonger(r: Replica, log: seq<Entry>, e: Entry)
    requires Follows(r, log)
    ensures Follows(r, log + [e])
  {
    assert (log + [e])[..r.seen] == log[..r.seen];
  }

  /** A replica that replayed everything stands at the meaning of the log. */
  lemma UpToDate(s: State, r: nat)
    requires Inv(s) && r in s.servers && HasReplayedAll(s, r)
    ensures UpToWaitGc(s.servers[r].replica.meta, Meaning(s.log))
  {
    assert s.log[..|s.log|] == s.log;
  }

  lemma CommitKeepsInv(s: State, a: Step)
    requires Inv(s) && Enabled(s, a) && (a.CommitBlock? || a.CommitOffline?)
    ensures Inv(Apply(s, a))
  {
    var e := if a.CommitBlock? then Block(a.scn) else Offline(a.scn);
    UpToDate(s, a.r);
    hide Enabled;
    forall r | r in s.servers ensures Follows(s.servers[r].replica, s.log + [e]) {
      FollowsLonger(s.servers[r].replica, s.log, e);
    }
  }

  lemma ReplicaStepKeepsInv(s: State, a: Step)
    requires Inv(s) && Enabled(s, a) && (a.Replays? || a.RestartServer? || a.CopyReplica? || a.CheckWaitGc?)
    ensures Inv(Apply(s, a))
  {
    var v := s.servers[a.r].replica;
    assert Follows(v, s.log);
    match a
    case Replays(_) => FollowsStep(v, s.log, ApplyNext);
    case RestartServer(_, from) => FollowsStep(v, s.log, Restart(from));
    case CopyReplica(_, _, from) => FollowsStep(v, s.log, Restart(from));
    case CheckWaitGc(_, _, _, _, _) => FollowsStep(v, s.log, EnterWaitGc);
  }

  lemma StepKeepsInv(s: State, a: Step)
    requires Inv(s) && Enabled(s, a)
    ensures Inv(Apply(s, a))
  {
    if a.CommitBlock? || a.CommitOffline? {
      CommitKeepsInv(s, a);
    } else if a.Replays? || a.RestartServer? || a.CopyReplica? || a.CheckWaitGc? {
      ReplicaStepKeepsInv(s, a);
    }
  }

  lemma {:induction false} RunKeepsInv(s: State, steps: seq<Step>)
    requires Inv(s) && Runs(s, steps)
    ensures Inv(Reached(s, steps))
    decreases |steps|
  {
    if steps != [] {
      StepKeepsInv(s, steps[0]);
      RunKeepsInv(Apply(s, steps[0]), steps[1..]);
    }
  }

  // ---------------------------------------------------------------- safety

  /** `a` found that the log stream may go: BLOCK and then OFFLINE are committed, the readable scn has reached
      the scn of OFFLINE, and archiving has too unless it is ignored. With archiving off the tenant is dropped or
      in restore or clone, or the delay, in microseconds, has passed since that scn, in nanoseconds. */
  ghost predicate Justifies(s: State, a: Step) {
    && a.CheckWaitGc?
    && |s.log| == 2 && s.log[0].Block? && s.log[1].Offline? && s.log[0].scn < s.log[1].scn
    && s.log[1].scn <= a.readable
    && !a.delayed
    && (a.archive.On? ==> a.archive.ignore || s.log[1].scn <= a.archive.archived)
    && (a.archive.Off? ==> a.archive.tenantDropping || a.archive.restoreOrClone
                           || a.archive.delay <= a.archive.now - s.log[1].scn / 1000)
  }

  lemma OfflineReplica(s: State, r: nat)
    requires Inv(s) && r in s.servers && Gc(s, r).LsOffline?
    ensures |s.log| == 2 && s.servers[r].replica.meta.offlineScn == Some(s.log[1].scn)
  {
    var v := s.servers[r].replica;
    PrefixOffline(s.log, v.seen);
  }

  /** A check lets the log stream go exactly if it is justified. Then its row is to be deleted and, if that could
      be persisted, the replica waits for gc; otherwise nothing changes. */
  lemma CheckExactly(s: State, a: Step)
    requires Inv(s) && a.CheckWaitGc? && Enabled(s, a) && !s.servers[a.r].deleting
    ensures Apply(s, a).servers[a.r].deleting <==> Justifies(s, a)
    ensures Justifies(s, a) ==>
              Gc(Apply(s, a), a.r) == (if a.slogOk then WaitGc else LsOffline) && Apply(s, a).row == s.row
    ensures !Justifies(s, a) ==> Apply(s, a) == s
  {
    OfflineReplica(s, a.r);
  }

  lemma ReleasedServerIn(s: State) returns (r: nat)
    requires Going(s) && s.row.Some?
    ensures r in s.servers && Released(s.servers[r])
  {
    r :| r in s.servers && Released(s.servers[r]);
  }

  /** Only a justified check starts letting a log stream go. */
  lemma FirstRelease(s: State, a: Step)
    requires Inv(s) && Enabled(s, a) && !Going(s) && Going(Apply(s, a))
    ensures Justifies(s, a)
  {
    var t := Apply(s, a);
    var r := ReleasedServerIn(t);
    assert r in s.servers ==> !Released(s.servers[r]);
    if a.CheckWaitGc? {
      OfflineReplica(s, a.r);
    }
  }

  ghost predicate JustifiedAt(s: State, steps: seq<Step>, m: nat)
    requires Runs(s, steps) && m < |steps|
    decreases |steps|
  {
    if m == 0 then Justifies(s, steps[0]) else JustifiedAt(Apply(s, steps[0]), steps[1..], m - 1)
  }

  lemma {:induction false} GoingIsJustified(s: State, steps: seq<Step>) returns (m: nat)
    requires Inv(s) && !Going(s) && Runs(s, steps) && Going(Reached(s, steps))
    ensures m < |steps| && JustifiedAt(s, steps, m)
    decreases |steps|
  {
    var t := Apply(s, steps[0]);
    if Going(t) {
      FirstRelease(s, steps[0]);
      m := 0;
    } else {
      StepKeepsInv(s, steps[0]);
      m := GoingIsJustified(t, steps[1..]);
      m := m + 1;
    }
  }

  /** A log stream as it is created: a row in the table, nothing logged, replicas on some servers. */
  ghost predicate Created(s: State) {
    && s.log == [] && s.row.Some?
    && forall r | r in s.servers :: s.servers[r] == Server(NEW_REPLICA, Unread, false, None)
  }

  lemma CreatedStarts(s: State)
    requires Created(s)
    ensures Inv(s) && !Going(s)
  {
  }

  /** In every run, a replica removed because its row is missing (which the collector does without the
      tenant being dropped) was let go by an earlier check of a leader that was justified. */
  lemma RemovalIsSafe(s: State, steps: seq<Step>, r: nat) returns (m: nat)
    requires Created(s) && Runs(s, steps)
    requires r in Reached(s, steps).servers && Reached(s, steps).servers[r].removed == Some(EntryNotExist)
    ensures m < |steps| && JustifiedAt(s, steps, m)
  {
    CreatedStarts(s);
    assert Released(Reached(s, steps).servers[r]);
    m := GoingIsJustified(s, steps);
  }

  /** The same holds for the row itself: it is not deleted before. */
  lemma DeletionIsSafe(s: State, steps: seq<Step>) returns (m: nat)
    requires Created(s) && Runs(s, steps) && Reached(s, steps).row.None?
    ensures m < |steps| && JustifiedAt(s, steps, m)
  {
    CreatedStarts(s);
    m := GoingIsJustified(s, steps);
  }

  /** In every run the committed log holds at most one BLOCK entry and after it at most one OFFLINE entry,
      though any server may lead and try again after a failure or a restart. */
  lemma LoggedOnce(s: State, steps: seq<Step>)
    requires Created(s) && Runs(s, steps)
    ensures LogOk(Reached(s, steps).log)
  {
    CreatedStarts(s);
    RunKeepsInv(s, steps);
  }

  // ---------------------------------------------------------------- why a replica is removed

  /** What a collector learns from a round: the status if the row was read; that the tenant is dropped if it was
      not; that the row is missing if it was looked for, is not there, and gc is allowed. */
  lemma ReadExactly(s: State, r: nat, fails: bool, allowGc: bool)
    requires Alive(s, r)
    ensures var view := Apply(s, ReadRow(r, fails, allowGc)).servers[r].view;
            && (forall status :: view == Saw(status) <==> !fails && s.row == Some(status))
            && (view == TenantDropped <==> s.tenantDropped && (fails || s.row.None?))
            && (view == Missing <==> !s.tenantDropped && !fails && s.row.None? && allowGc)
  {
  }

  /** A collector that is to delete the row tries once a round; the row is gone exactly if that succeeds. */
  lemma DeleteExactly(s: State, r: nat, ok: bool)
    requires Enabled(s, DeleteRow(r, ok))
    ensures var t := Apply(s, DeleteRow(r, ok));
            t.row == (if ok then None else s.row) && !t.servers[r].deleting && t.log == s.log
  {
  }

  /** In some round the collector of server r looked for the row, did not find it, and gc was allowed. */
  ghost predicate FoundMissing(s: State, steps: seq<Step>, r: nat)
    requires Runs(s, steps)
    decreases |steps|
  {
    steps != [] &&
    ((steps[0] == ReadRow(r, false, true) && s.row.None? && !s.tenantDropped)
     || FoundMissing(Apply(s, steps[0]), steps[1..], r))
  }

  /** In some round it found the tenant dropped, and no row. */
  ghost predicate FoundDropped(s: State, steps: seq<Step>, r: nat)
    requires Runs(s, steps)
    decreases |steps|
  {
    steps != [] &&
    ((steps[0].ReadRow? && steps[0].r == r && s.tenantDropped && (steps[0].fails || s.row.None?))
     || FoundDropped(Apply(s, steps[0]), steps[1..], r))
  }

  ghost predicate Knows(s: State, r: nat, view: View, reason: Reason) {
    r in s.servers && (s.servers[r].view == view || s.servers[r].removed == Some(reason))
  }

  lemma KnowsStep(s: State, a: Step, r: nat)
    requires Enabled(s, a)
    ensures Knows(Apply(s, a), r, Missing, EntryNotExist) ==>
              Knows(s, r, Missing, EntryNotExist) || (a == ReadRow(r, false, true) && s.row.None? && !s.tenantDropped)
    ensures Knows(Apply(s, a), r, TenantDropped, TenantGone) ==>
              Knows(s, r, TenantDropped, TenantGone) || (a.ReadRow? && a.r == r && s.tenantDropped && (a.fails || s.row.None?))
    ensures Apply(s, a).tenantDropped <==> s.tenantDropped || a.DropTenant?
  {
  }

  lemma {:induction false} KnowledgeIsFound(s: State, steps: seq<Step>, r: nat)
    requires Runs(s, steps)
    ensures Knows(Reached(s, steps), r, Missing, EntryNotExist) ==>
              Knows(s, r, Missing, EntryNotExist) || FoundMissing(s, steps, r)
    ensures Knows(Reached(s, steps), r, TenantDropped, TenantGone) ==>
              Knows(s, r, TenantDropped, TenantGone) || FoundDropped(s, steps, r)
    ensures FoundDropped(s, steps, r) ==> s.tenantDropped || DropTenant in steps
    decreases |steps|
  {
    hide Enabled, Apply, Knows;
    if steps != [] {
      KnowsStep(s, steps[0], r);
      KnowledgeIsFound(Apply(s, steps[0]), steps[1..], r);
    }
  }

  /** In every run, a replica removed because its row is missing was on a server that had looked for the row when
      it was gone, the tenant was not dropped and gc was allowed; one removed because its tenant is gone was on a
      server that had seen the tenant dropped, which it was. */
  lemma RemovalReasons(s: State, steps: seq<Step>, r: nat)
    requires Created(s) && Runs(s, steps) && r in Reached(s, steps).servers
    ensures Reached(s, steps).servers[r].removed == Some(EntryNotExist) ==> FoundMissing(s, steps, r)
    ensures Reached(s, steps).servers[r].removed == Some(TenantGone) ==>
              FoundDropped(s, steps, r) && (s.tenantDropped || DropTenant in steps)
  {
    KnowledgeIsFound(s, steps, r);
  }

  // ---------------------------------------------------------------- a run that removes

  ghost predicate RunsTo(s: State, steps: seq<Step>, t: State) { Runs(s, steps) && Reached(s, steps) == t }

  lemma {:induction false} RunOn(s: State, steps: seq<Step>, t: State, a: Step)
    requires RunsTo(s, steps, t) && Enabled(t, a)
    ensures RunsTo(s, steps + [a], Apply(t, a))
    decreases |steps|
  {
    if steps == [] {
      assert (steps + [a])[1..] == [];
    } else {
      RunOn(Apply(s, steps[0]), steps[1..], t, a);
      assert (steps + [a])[1..] == steps[1..] + [a];
    }
  }

  /** A log stream with one replica. */
  const ALONE := State([], Some(RowDropping), false, map[0 := Server(NEW_REPLICA, Unread, false, None)])

  predicate AloneWith(s: State, log: seq<Entry>, row: Option<Status>, v: Server) {
    s == State(log, row, false, map[0 := v])
  }

  lemma BlockedAlone() returns (steps: seq<Step>, t: State)
    ensures RunsTo(ALONE, steps, t)
    ensures AloneWith(t, [Block(1)], Some(RowDropping), Server(Replica(LsMeta(LsBlocked, None), 1, 1), Saw(RowDropping), false, None))
  {
    var s1 := Apply(ALONE, ReadRow(0, false, true));
    var s2 := Apply(s1, CommitBlock(0, 1));
    t := Apply(s2, Replays(0));
    assert RunsTo(ALONE, [], ALONE);
    RunOn(ALONE, [], ALONE, ReadRow(0, false, true));
    RunOn(ALONE, [] + [ReadRow(0, false, true)], s1, CommitBlock(0, 1));
    RunOn(ALONE, [] + [ReadRow(0, false, true)] + [CommitBlock(0, 1)], s2, Replays(0));
    steps := [] + [ReadRow(0, false, true)] + [CommitBlock(0, 1)] + [Replays(0)];
  }

  lemma OfflineAlone() returns (steps: seq<Step>, t: State)
    ensures RunsTo(ALONE, steps, t)
    ensures AloneWith(t, [Block(1), Offline(2)], Some(RowWaitOffline),
                      Server(Replica(LsMeta(LsOffline, Some(2)), 2, 2), Saw(RowWaitOffline), false, None))
  {
    var xs, s0 := BlockedAlone();
    var s1 := Apply(s0, SetRow(RowWaitOffline));
    var s2 := Apply(s1, ReadRow(0, false, true));
    var s3 := Apply(s2, CommitOffline(0, 2));
    t := Apply(s3, Replays(0));
    RunOn(ALONE, xs, s0, SetRow(RowWaitOffline));
    RunOn(ALONE, xs + [SetRow(RowWaitOffline)], s1, ReadRow(0, false, true));
    RunOn(ALONE, xs + [SetRow(RowWaitOffline)] + [ReadRow(0, false, true)], s2, CommitOffline(0, 2));
    RunOn(ALONE, xs + [SetRow(RowWaitOffline)] + [ReadRow(0, false, true)] + [CommitOffline(0, 2)], s3, Replays(0));
    steps := xs + [SetRow(RowWaitOffline)] + [ReadRow(0, false, true)] + [CommitOffline(0, 2)] + [Replays(0)];
  }

  /** Removal for a missing row does happen: the whole life of a log stream with one replica. */
  lemma RemovalHappens() returns (steps: seq<Step>, t: State)
    ensures Created(ALONE) && RunsTo(ALONE, steps, t)
    ensures 0 in t.servers && t.servers[0].removed == Some(EntryNotExist)
  {
    var check := CheckWaitGc(0, 2, false, On(false, 2), true);
    var xs, s0 := OfflineAlone();
    var s1 := Apply(s0, check);
    var s2 := Apply(s1, DeleteRow(0, true));
    var s3 := Apply(s2, ReadRow(0, false, true));
    t := Apply(s3, Remove(0));
    RunOn(ALONE, xs, s0, check);
    RunOn(ALONE, xs + [check], s1, DeleteRow(0, true));
    RunOn(ALONE, xs + [check] + [DeleteRow(0, true)], s2, ReadRow(0, false, true));
    RunOn(ALONE, xs + [check] + [DeleteRow(0, true)] + [ReadRow(0, false, true)], s3, Remove(0));
    steps := xs + [check] + [DeleteRow(0, true)] + [ReadRow(0, false, true)] + [Remove(0)];
  }
}
