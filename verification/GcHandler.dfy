/** The two-round rule of the membership check, on the answers a handler gets. */
module GcMembership {
  /** A leader's answer about one replica that reached its handler. */
  datatype Answer = Answer(round: nat, member: bool)

  /** gc_seq_invalid_member_ after these answers: only "not a member" is remembered. */
  function Remembered(h: seq<Answer>): int {
    if h == [] then -1
    else if h[|h| - 1].member then Remembered(h[..|h| - 1])
    else h[|h| - 1].round
  }

  ghost predicate Denied(h: seq<Answer>, round: int) {
    exists i :: 0 <= i < |h| && h[i].round == round && !h[i].member
  }

  /** Rounds are numbered from 1 and never go back; `last` is the current one. */
  ghost predicate Ordered(h: seq<Answer>, last: nat) {
    && (forall i | 0 <= i < |h| :: 1 <= h[i].round <= last)
    && (forall i, j | 0 <= i < j < |h| :: h[i].round <= h[j].round)
  }

  lemma {:induction false} RememberedIsLast(h: seq<Answer>, last: nat)
    requires Ordered(h, last)
    ensures Remembered(h) == -1 || Denied(h, Remembered(h))
    ensures forall i | 0 <= i < |h| && !h[i].member :: 1 <= h[i].round <= Remembered(h)
  {
    if h != [] && h[|h| - 1].member {
      var init := h[..|h| - 1];
      RememberedIsLast(init, last);
      if Remembered(init) != -1 {
        var i :| 0 <= i < |init| && init[i].round == Remembered(init) && !init[i].member;
        assert h[i] == init[i];
      }
      forall i | 0 <= i < |h| && !h[i].member ensures 1 <= h[i].round <= Remembered(h) {
        assert init[i] == h[i];
      }
    }
  }

  /** The two-round rule, exactly: a "not a member" answer in round k makes the replica a candidate if and
      only if there was one in round k-1 and it is the first in round k, whatever rounds were skipped,
      failed or answered more than once. */
  lemma {:induction false} TwoRounds(h: seq<Answer>, k: nat)
    requires 1 <= k && Ordered(h, k)
    ensures k == Remembered(h) + 1 <==> Denied(h, k - 1) && !Denied(h, k)
  {
    RememberedIsLast(h, k);
    if Denied(h, k - 1) && !Denied(h, k) {
      var i :| 0 <= i < |h| && h[i].round == k - 1 && !h[i].member;
      assert k - 1 <= Remembered(h);
    }
  }

  /** One more "not a member" answer in the current round. */
  lemma DeniedOnceMore(h: seq<Answer>, k: nat)
    requires 1 <= k && Ordered(h, k)
    ensures var h' := h + [Answer(k, false)];
            && Ordered(h', k) && Remembered(h') == k && Denied(h', k)
            && forall round | Denied(h, round) :: Denied(h', round)
  {
    var h' := h + [Answer(k, false)];
    assert h'[|h|] == Answer(k, false);
    forall round | Denied(h, round) ensures Denied(h', round) {
      var i :| 0 <= i < |h| && h[i].round == round && !h[i].member;
      assert h'[i] == h[i];
    }
  }
}

/** ObGCHandler: the methods that change a replica's gc state. Those the collector and the replay call also
    tell the run of the lifecycle machine they go through on their server, with no step of others between. */
module GcHandlers {
  import opened Common
  import opened GcReplay
  import opened GcLifecycle
  import opened GcMembership

  datatype LogType = BlockTabletTransferIn | OfflineLsLog | UnknownLog

  datatype Ret = Success | NotInit | InvalidArgument | Unexpected | Again | Failed

  /** The entry a log of the given type is, if it is a gc entry. */
  function EntryOf(logType: LogType, scn: nat): Option<Entry> {
    match logType
    case BlockTabletTransferIn => Some(Block(scn))
    case OfflineLsLog => Some(Offline(scn))
    case UnknownLog => None
  }

  /** Whether an entry can be applied: transactions are blocked for BLOCK and the meta is persisted, unless
      there is nothing to do. */
  predicate CanApply(m: LsMeta, e: Entry, blockOk: bool, slogOk: bool) {
    ReplayOne(m, e) == m || ((e.Block? ==> blockOk) && slogOk)
  }

  class GcHandler {
    var inited: bool
    /** gc_state_ and offline_scn_ of the log stream's persisted meta. */
    var meta: LsMeta
    /** rec_scn_, None for the maximal scn. */
    var recScn: Option<nat>
    var gcSeqInvalidMember: int
    /** The log stream it belongs to. */
    const ls: nat

    /** As init leaves it. */
    constructor (id: nat)
      ensures inited && ls == id && recScn.None? && gcSeqInvalidMember == -1 && meta == BORN
    {
      inited, ls, meta, recScn, gcSeqInvalidMember := true, id, BORN, None, -1;
    }

    /** It remembers these answers. */
    ghost predicate Keeps(h: seq<Answer>)
      reads this
    {
      inited && gcSeqInvalidMember == Remembered(h)
    }

    /** Server r of the machine is alive and has this meta. */
    ghost predicate At(s: State, r: nat)
      reads this`meta
    {
      Alive(s, r) && s.servers[r].replica.meta == meta
    }

    /** ObLSMeta::set_gc_state: a scn comes with the offline state and only with it. `slogOk` tells whether the
        meta could be persisted. */
    method SetGcState(g: GcState, scn: Option<nat>, slogOk: bool) returns (ret: Ret)
      modifies this`meta
      ensures ret == if g == InvalidState || (g == LsOffline) != scn.Some? then Unexpected
                     else if slogOk then Success else Again
      ensures meta == if ret.Success? then LsMeta(g, scn) else old(meta)
    {
      if !IsValid(g) || (g.LsOffline? && scn.None?) || (!g.LsOffline? && scn.Some?) {
        ret := Unexpected;
      } else if !slogOk {
        ret := Again;
      } else {
        ret, meta := Success, LsMeta(g, scn);
      }
    }

    /** `blockOk` is the outcome of block_all. */
    method BlockLsTransferIn(blockOk: bool, slogOk: bool) returns (ret: Ret)
      modifies this`meta
      ensures ret == if !IsValid(old(meta.gc)) then Unexpected
                     else if OnBlock(old(meta)) == old(meta) then Success
                     else if !blockOk then Failed
                     else if slogOk then Success else Again
      ensures meta == if ret.Success? then OnBlock(old(meta)) else old(meta)
    {
      if !IsValid(meta.gc) {
        ret := Unexpected;
      } else if IsBlockedFinished(meta.gc) {
        ret := Success;
      } else if !blockOk {
        ret := Failed;
      } else {
        ret := SetGcState(LsBlocked, None, slogOk);
      }
    }

    method OfflineLs(scn: nat, slogOk: bool) returns (ret: Ret)
      modifies this`meta
      ensures ret == if !IsValid(old(meta.gc)) then Unexpected
                     else if slogOk || OnOffline(old(meta), scn) == old(meta) then Success else Again
      ensures meta == if ret.Success? then OnOffline(old(meta), scn) else old(meta)
    {
      if !IsValid(meta.gc) {
        ret := Unexpected;
      } else if IsOfflineFinished(meta.gc) {
        ret := Success;
      } else {
        ret := SetGcState(LsOffline, Some(scn), slogOk);
      }
    }

    /** Applies one gc entry: all of it, and then the checkpoint is free again, or nothing. */
    method UpdateLsGcStateAfterSubmitLog(logType: LogType, scn: nat, blockOk: bool, slogOk: bool) returns (ret: Ret)
      modifies this`meta, this`recScn
      ensures ret.Success? <==>
                IsValid(old(meta.gc)) && !logType.UnknownLog? &&
                (ReplayOne(old(meta), EntryOf(logType, scn).value) == old(meta)
                 || (slogOk && (logType.BlockTabletTransferIn? ==> blockOk)))
      ensures ret.Success? ==> meta == ReplayOne(old(meta), EntryOf(logType, scn).value) && recScn.None?
      ensures !ret.Success? ==> meta == old(meta) && recScn == old(recScn)
      ensures ret.Unexpected? <==> !IsValid(old(meta.gc)) || EntryOf(logType, scn).None?
      ensures !ret.NotInit? && !ret.InvalidArgument?
    {
      match logType {
        case BlockTabletTransferIn => ret := BlockLsTransferIn(blockOk, slogOk);
        case OfflineLsLog => ret := OfflineLs(scn, slogOk);
        case UnknownLog => ret := Unexpected;
      }
      if ret.Success? {
        recScn := None;
      }
    }

    /** Replay of one log. A standby tenant holds a BLOCK entry back until `decided`, that is until its
        readable scn has passed what the log stream decided. When the log is the next one of this server's
        replica, a success is its replay step. */
    method Replay(logType: LogType, scn: Option<nat>, standby: bool, decided: bool, blockOk: bool, slogOk: bool,
                  ghost s: State, ghost r: nat) returns (ret: Ret)
      requires At(s, r)
      modifies this`meta, this`recScn
      ensures ret.NotInit? <==> !inited
      ensures ret.InvalidArgument? <==> inited && scn.None?
      ensures ret.Success? <==>
                inited && scn.Some? && EntryOf(logType, scn.value).Some? && IsValid(old(meta.gc)) &&
                CanApply(old(meta), EntryOf(logType, scn.value).value, blockOk, slogOk) &&
                (logType.BlockTabletTransferIn? && standby ==> decided)
      ensures !ret.Success? ==> meta == old(meta) && recScn == old(recScn)
      ensures ret.Success? && NextEntry(s, r) == EntryOf(logType, scn.value) ==>
                Enabled(s, Replays(r)) && At(Apply(s, Replays(r)), r) && recScn.None?
    {
      if !inited {
        return NotInit;
      }
      if scn.None? {
        return InvalidArgument;
      }
      if logType.BlockTabletTransferIn? && standby && !decided {
        return Again;
      }
      ret := UpdateLsGcStateAfterSubmitLog(logType, scn.value, blockOk, slogOk);
    }

    /** Submits an entry and, once it has committed with scn `committed`, waits until it is applied, which fails
        `failures` times first; until then the checkpoint is held back at the entry. None when the entry could
        not be appended or did not commit. */
    method SubmitLog(logType: LogType, committed: Option<nat>, failures: nat, ghost s: State, ghost r: nat)
      returns (isSuccess: bool, ghost steps: seq<Step>, ghost t: State)
      requires !logType.UnknownLog? && IsValid(meta.gc) && At(s, r)
      requires committed.Some? ==> Enabled(s, CommitStep(logType, r, committed.value))
      modifies this`meta, this`recScn
      ensures isSuccess <==> committed.Some?
      ensures meta == if isSuccess then ReplayOne(old(meta), EntryOf(logType, committed.value).value) else old(meta)
      ensures recScn == if isSuccess then None else old(recScn)
      ensures RunsTo(s, steps, t) && At(t, r)
      ensures t == if isSuccess then Submitted(s, logType, r, committed.value) else s
    {
      steps, t, isSuccess := [], s, false;
      if committed.Some? {
        recScn := committed;
        var left: nat := failures;
        while !isSuccess
          invariant if isSuccess then meta == ReplayOne(old(meta), EntryOf(logType, committed.value).value) && recScn.None?
                    else meta == old(meta) && recScn == committed
          decreases if isSuccess then 0 else left + 1
        {
          var ret := UpdateLsGcStateAfterSubmitLog(logType, committed.value, left == 0, left == 0);
          isSuccess := ret.Success?;
          left := if left > 0 then left - 1 else 0;
        }
        t := Submitted(s, logType, r, committed.value);
        steps := SubmittedRuns(s, logType, r, committed.value);
      }
    }

    /** Whether a log stream that is offline may go; if so its row is to be deleted, also when the new state
        cannot be persisted. `readable` and `archive` are None when they cannot be found out. */
    method TryCheckAndSetWaitGc(readable: Option<nat>, delayed: bool, archive: Option<Archive>, slogOk: bool,
                                ghost s: State, ghost r: nat)
      returns (deleteEntry: bool, ghost steps: seq<Step>, ghost t: State)
      requires At(s, r) && s.servers[r].view == Saw(RowWaitOffline) && meta.gc.LsOffline?
      modifies this`meta
      ensures deleteEntry <==>
                && old(meta).offlineScn.Some? && readable.Some? && old(meta).offlineScn.value <= readable.value
                && !delayed && archive.Some?
                && (archive.value.On? ==> archive.value.ignore || old(meta).offlineScn.value <= archive.value.archived)
                && (archive.value.Off? ==>
                      archive.value.tenantDropping || archive.value.restoreOrClone
                      || archive.value.delay <= archive.value.now - old(meta).offlineScn.value / 1000)
      ensures meta == if deleteEntry && slogOk then LsMeta(WaitGc, None) else old(meta)
      ensures RunsTo(s, steps, t) && At(t, r)
      ensures t == if deleteEntry then Apply(s, CheckWaitGc(r, readable.value, delayed, archive.value, slogOk)) else s
    {
      deleteEntry, steps, t := false, [], s;
      if readable.None? || meta.offlineScn.None? || readable.value < meta.offlineScn.value {
        return;
      }
      if delayed {
        return;
      }
      if archive.None? {
        return;
      }
      var offlineScn := meta.offlineScn.value;
      match archive.value {
        case On(ignore, archived) =>
          deleteEntry := ignore || offlineScn <= archived;
        case Off(tenantDropping, restoreOrClone, now, delay) =>
          deleteEntry := tenantDropping || restoreOrClone || now - offlineScn / 1000 >= delay;
      }
      if deleteEntry {
        var _ := SetGcState(WaitGc, None, slogOk);
        ghost var check := CheckWaitGc(r, readable.value, delayed, archive.value, slogOk);
        RunOne(s, check);
        steps, t := [check], Apply(s, check);
      }
    }

    /** One visit of the collector while the row says DROPPING or TENANT_DROPPING. `committed` is the scn of
        the BLOCK entry, if this server submits one and it commits. */
    method HandleGcLsDropping(leader: bool, committed: Option<nat>, failures: nat, ghost s: State, ghost r: nat)
      returns (submitted: bool, ghost steps: seq<Step>, ghost t: State)
      requires At(s, r) && s.servers[r].view in {Saw(RowDropping), Saw(RowTenantDropping)}
      requires committed.Some? ==> HasReplayedAll(s, r) && After(s.log, committed.value)
      modifies this`meta, this`recScn
      ensures submitted <==> inited && leader && (old(meta.gc).LsNormal? || old(meta.gc).WaitOffline?)
      ensures meta == if submitted && committed.Some? then OnBlock(old(meta)) else old(meta)
      ensures recScn == if submitted && committed.Some? then None else old(recScn)
      ensures RunsTo(s, steps, t) && At(t, r)
      ensures t == if submitted && committed.Some? then Submitted(s, BlockTabletTransferIn, r, committed.value) else s
    {
      submitted, steps, t := false, [], s;
      if !inited || !leader || !IsValid(meta.gc) {
        return;
      }
      if IsOfflineFinished(meta.gc) || meta.gc.LsBlocked? {
        return;
      }
      submitted := true;
      var isSuccess;
      isSuccess, steps, t := SubmitLog(BlockTabletTransferIn, committed, failures, s, r);
    }

    /** One visit of the collector while the row says WAIT_OFFLINE. `committed` is the scn of the OFFLINE
        entry, if this server submits one and it commits. */
    method HandleGcLsOffline(leader: bool, committed: Option<nat>, failures: nat, readable: Option<nat>, delayed: bool,
                             archive: Option<Archive>, slogOk: bool, ghost s: State, ghost r: nat)
      returns (deleteEntry: bool, ghost steps: seq<Step>, ghost t: State)
      requires At(s, r) && s.servers[r].view == Saw(RowWaitOffline) && !s.servers[r].deleting
      requires committed.Some? ==> HasReplayedAll(s, r) && After(s.log, committed.value)
      modifies this`meta, this`recScn
      ensures !inited || !leader ==> !deleteEntry && unchanged(this)
      ensures old(meta.gc).Rank() <= meta.gc.Rank()
      ensures inited && leader && IsBlockedFinished(old(meta.gc)) ==>
                var m := if committed.Some? then OnOffline(old(meta), committed.value) else old(meta);
                && (deleteEntry <==>
                      m.gc.WaitGc?
                      || (m.gc.LsOffline? && readable.Some? && archive.Some? && MayGo(m, readable.value, delayed, archive.value)))
                && meta == if m.gc.LsOffline? && deleteEntry && slogOk then LsMeta(WaitGc, None) else m
      ensures inited && leader && !IsBlockedFinished(old(meta.gc)) ==> !deleteEntry && unchanged(this)
      ensures RunsTo(s, steps, t) && At(t, r) && (t.servers[r].deleting <==> deleteEntry)
    {
      hide Runs, Reached;
      deleteEntry, steps, t := false, [], s;
      RunNothing(s);
      if !inited || !leader || !IsValid(meta.gc) || !IsBlockedFinished(meta.gc) {
        return;
      }
      if meta.gc.WaitGc? {
        deleteEntry := true;
        RunOne(s, SeeWaitGc(r));
        steps, t := [SeeWaitGc(r)], Apply(s, SeeWaitGc(r));
      } else if meta.gc.LsOffline? {
        deleteEntry, steps, t := TryCheckAndSetWaitGc(readable, delayed, archive, slogOk, s, r);
      } else {
        var isSuccess;
        isSuccess, steps, t := SubmitLog(OfflineLsLog, committed, failures, s, r);
        if isSuccess {
          ghost var u, more := t, [];
          deleteEntry, more, t := TryCheckAndSetWaitGc(readable, delayed, archive, slogOk, u, r);
          RunJoin(s, steps, u, more, t);
          steps := steps + more;
        }
      }
    }

    /** Remembers the round in which the leader did not know this replica. With the answers it got so far the
        replica is to go exactly when it was denied in the round before and not yet in this one. */
    method GcCheckInvalidMemberSeq(gcSeq: int, ghost h: seq<Answer>) returns (ret: Ret, needGc: bool)
      requires gcSeqInvalidMember == Remembered(h) && (0 < gcSeq ==> Ordered(h, gcSeq))
      modifies this`gcSeqInvalidMember
      ensures ret == if !inited then NotInit else if gcSeq <= 0 then InvalidArgument else Success
      ensures needGc <==> ret.Success? && Denied(h, gcSeq - 1) && !Denied(h, gcSeq)
      ensures gcSeqInvalidMember == if ret.Success? then Remembered(h + [Answer(gcSeq, false)]) else old(gcSeqInvalidMember)
    {
      needGc := false;
      if !inited {
        return NotInit, false;
      }
      if gcSeq <= 0 {
        return InvalidArgument, false;
      }
      TwoRounds(h, gcSeq);
      DeniedOnceMore(h, gcSeq);
      needGc := gcSeq == gcSeqInvalidMember + 1;
      gcSeqInvalidMember := gcSeq;
      ret := Success;
    }
  }

  // ---------------------------------------------------------------- runs

  /** The entry the replica of server r replays next. */
  function NextEntry(s: State, r: nat): Option<Entry>
    requires r in s.servers
  {
    if s.servers[r].replica.next < |s.log| then Some(s.log[s.servers[r].replica.next]) else None
  }

  function CommitStep(logType: LogType, r: nat, scn: nat): Step {
    if logType.OfflineLsLog? then CommitOffline(r, scn) else CommitBlock(r, scn)
  }

  /** The entry commits and its server applies it. */
  function Submitted(s: State, logType: LogType, r: nat, scn: nat): State
    requires Enabled(s, CommitStep(logType, r, scn))
  {
    Apply(Apply(s, CommitStep(logType, r, scn)), Replays(r))
  }

  lemma RunNothing(s: State)
    ensures RunsTo(s, [], s)
  {
  }

  lemma RunOne(s: State, a: Step)
    requires Enabled(s, a)
    ensures RunsTo(s, [a], Apply(s, a))
  {
    assert [a][1..] == [];
  }

  lemma {:induction false} RunJoin(s: State, xs: seq<Step>, t: State, ys: seq<Step>, u: State)
    requires RunsTo(s, xs, t) && RunsTo(t, ys, u)
    ensures RunsTo(s, xs + ys, u)
    decreases |xs|
  {
    if xs == [] {
      assert xs + ys == ys;
    } else {
      RunJoin(Apply(s, xs[0]), xs[1..], t, ys, u);
      assert (xs + ys)[1..] == xs[1..] + ys;
    }
  }

  lemma SubmittedRuns(s: State, logType: LogType, r: nat, scn: nat) returns (steps: seq<Step>)
    requires !logType.UnknownLog? && Enabled(s, CommitStep(logType, r, scn))
    ensures RunsTo(s, steps, Submitted(s, logType, r, scn))
    ensures var t := Submitted(s, logType, r, scn);
            && Alive(t, r) && t.servers[r].view == s.servers[r].view && t.servers[r].deleting == s.servers[r].deleting
            && t.servers[r].replica.meta == ReplayOne(s.servers[r].replica.meta, EntryOf(logType, scn).value)
  {
    var a := CommitStep(logType, r, scn);
    RunOne(s, a);
    RunOne(Apply(s, a), Replays(r));
    RunJoin(s, [a], Apply(s, a), [Replays(r)], Submitted(s, logType, r, scn));
    steps := [a] + [Replays(r)];
  }
}

/** The collector's check of member lists: a replica goes when its leader did not know it in two rounds
    in a row. */
module GcTwoRounds {
  import opened GcMembership
  import opened GcHandlers

  /** What the server knows when it would remove a replica. */
  datatype Migration = CheckFails | Dependent | MayGc

  datatype MemberStat = NormalMember | LearnerInMigrating

  /** A leader's response with one array for each kind of answer; `stats` may be missing. */
  datatype Response = Response(ls: seq<nat>, members: seq<bool>, rets: seq<bool>, stats: seq<MemberStat>)

  /** One log stream of a response: whether the answer is usable, the answer, and the local migration check. */
  datatype Item = Item(ls: nat, ok: bool, member: bool, stat: MemberStat, migration: Migration)

  predicate WellFormed(x: Response) {
    |x.members| == |x.ls| && |x.rets| == |x.ls| && (|x.stats| > 0 ==> |x.stats| == |x.ls|)
  }

  function ItemAt(x: Response, migration: nat -> Migration, i: nat): Item
    requires WellFormed(x) && i < |x.ls|
  {
    Item(x.ls[i], x.rets[i], x.members[i], if |x.stats| > 0 then x.stats[i] else NormalMember, migration(x.ls[i]))
  }

  /** For every candidate the leader answered "not a member" in this round and in the one before. */
  ghost predicate AllDeniedTwice(seqNo: nat, answers: map<nat, seq<Answer>>, candidates: seq<nat>) {
    forall ls | ls in candidates ::
      ls in answers && Denied(answers[ls], seqNo - 1) && Denied(answers[ls], seqNo)
  }

  /** Rounds are in order for every handler, and candidates were denied twice. */
  ghost predicate BooksOk(seqNo: nat, answers: map<nat, seq<Answer>>, candidates: seq<nat>) {
    && 1 <= seqNo && (forall ls | ls in answers :: Ordered(answers[ls], seqNo))
    && AllDeniedTwice(seqNo, answers, candidates)
  }

  lemma DenialKeeps(seqNo: nat, answers: map<nat, seq<Answer>>, candidates: seq<nat>, ls: nat)
    requires BooksOk(seqNo, answers, candidates) && ls in answers
    ensures var next := answers[ls := answers[ls] + [Answer(seqNo, false)]];
            && 1 <= seqNo && Ordered(answers[ls], seqNo) && BooksOk(seqNo, next, candidates)
            && (Denied(answers[ls], seqNo - 1) ==> BooksOk(seqNo, next, candidates + [ls]))
  {
    DeniedOnceMore(answers[ls], seqNo);
  }

  lemma NewLsKeeps(seqNo: nat, answers: map<nat, seq<Answer>>, candidates: seq<nat>, ls: nat)
    requires BooksOk(seqNo, answers, candidates) && ls !in candidates
    ensures BooksOk(seqNo, answers[ls := []], candidates) && Remembered([]) == -1
  {
  }

  /** The answers the handlers got, the candidates found, and the learner lists this server is to leave. */
  datatype Books = Books(answers: map<nat, seq<Answer>>, candidates: seq<nat>, leaving: seq<nat>)

  /** The item is the first "not a member" of this round after one in the round before. */
  ghost predicate SecondDenial(b: Books, seqNo: nat, x: Item) {
    && x.ls in b.answers && x.ok && !x.member
    && Denied(b.answers[x.ls], seqNo - 1) && !Denied(b.answers[x.ls], seqNo)
  }

  /** Only a failing migration check stops a response. */
  ghost predicate Stops(b: Books, seqNo: nat, x: Item) { SecondDenial(b, seqNo, x) && x.migration.CheckFails? }

  ghost function AfterItem(b: Books, seqNo: nat, x: Item): Books {
    if x.ls !in b.answers || !x.ok then b
    else if x.member then b.(leaving := if x.stat.LearnerInMigrating? then b.leaving + [x.ls] else b.leaving)
    else
      b.(answers := b.answers[x.ls := b.answers[x.ls] + [Answer(seqNo, false)]],
         candidates := if SecondDenial(b, seqNo, x) && x.migration.MayGc? then b.candidates + [x.ls] else b.candidates)
  }

  /** What an item is made of; without stats every learner counts as a normal one. */
  lemma ItemAtExactly(x: Response, migration: nat -> Migration, i: nat)
    requires WellFormed(x) && i < |x.ls|
    ensures var item := ItemAt(x, migration, i);
            && item.ls == x.ls[i] && item.ok == x.rets[i] && item.member == x.members[i] && item.migration == migration(x.ls[i])
            && (item.stat.LearnerInMigrating? <==> |x.stats| > 0 && x.stats[i].LearnerInMigrating?)
  {
  }

  /** What an item changes: a usable "not a member" is remembered by the handler of its log stream, and makes that
      a candidate exactly if it is the first of this round after one in the round before and nothing migrates
      from here; a usable "member" makes this server leave exactly as a learner in migration. */
  lemma ItemExactly(b: Books, seqNo: nat, x: Item)
    ensures var next, known := AfterItem(b, seqNo, x), x.ls in b.answers && x.ok;
            && next.answers == (if known && !x.member
                                then b.answers[x.ls := b.answers[x.ls] + [Answer(seqNo, false)]] else b.answers)
            && next.candidates == (if known && !x.member && x.migration == MayGc
                                      && Denied(b.answers[x.ls], seqNo - 1) && !Denied(b.answers[x.ls], seqNo)
                                   then b.candidates + [x.ls] else b.candidates)
            && next.leaving == (if known && x.member && x.stat == LearnerInMigrating then b.leaving + [x.ls] else b.leaving)
  {
  }

  /** The items of a response from position i on. */
  ghost function AfterItems(b: Books, seqNo: nat, x: Response, migration: nat -> Migration, i: nat): Books
    requires WellFormed(x) && i <= |x.ls|
    decreases |x.ls| - i
  {
    if i == |x.ls| then b
    else
      var next := AfterItem(b, seqNo, ItemAt(x, migration, i));
      if Stops(b, seqNo, ItemAt(x, migration, i)) then next else AfterItems(next, seqNo, x, migration, i + 1)
  }

  /** The first n items, one after the other. */
  ghost function FirstItems(b: Books, seqNo: nat, x: Response, migration: nat -> Migration, n: nat): Books
    requires WellFormed(x) && n <= |x.ls|
  {
    if n == 0 then b else AfterItem(FirstItems(b, seqNo, x, migration, n - 1), seqNo, ItemAt(x, migration, n - 1))
  }

  /** Item n stops the response: it would make a candidate, but the check whether something migrates fails. */
  ghost predicate StopsAt(b: Books, seqNo: nat, x: Response, migration: nat -> Migration, n: nat)
    requires WellFormed(x) && n < |x.ls|
  {
    var before := FirstItems(b, seqNo, x, migration, n);
    && x.ls[n] in before.answers && x.rets[n] && !x.members[n] && migration(x.ls[n]) == CheckFails
    && Denied(before.answers[x.ls[n]], seqNo - 1) && !Denied(before.answers[x.ls[n]], seqNo)
  }

  lemma StopsAtIs(b: Books, seqNo: nat, x: Response, migration: nat -> Migration, n: nat)
    requires WellFormed(x) && n < |x.ls|
    ensures StopsAt(b, seqNo, x, migration, n) <==>
              Stops(FirstItems(b, seqNo, x, migration, n), seqNo, ItemAt(x, migration, n))
  {
  }

  /** A response is handled item by item up to and with the first that stops it, or to the end. */
  lemma {:induction false} ItemsFrom(b: Books, seqNo: nat, x: Response, migration: nat -> Migration, i: nat) returns (n: nat)
    requires WellFormed(x) && i <= |x.ls|
    ensures i <= n <= |x.ls| && forall k | i <= k < n - 1 :: !StopsAt(b, seqNo, x, migration, k)
    ensures n < |x.ls| ==> i < n && StopsAt(b, seqNo, x, migration, n - 1)
    ensures AfterItems(FirstItems(b, seqNo, x, migration, i), seqNo, x, migration, i) == FirstItems(b, seqNo, x, migration, n)
    decreases |x.ls| - i
  {
    hide AfterItem, Stops, StopsAt, ItemAt;
    n := i;
    if i < |x.ls| {
      StopsAtIs(b, seqNo, x, migration, i);
      if StopsAt(b, seqNo, x, migration, i) {
        n := i + 1;
      } else {
        n := ItemsFrom(b, seqNo, x, migration, i + 1);
      }
    }
  }

  lemma ItemsInOrder(b: Books, seqNo: nat, x: Response, migration: nat -> Migration) returns (n: nat)
    requires WellFormed(x)
    ensures n <= |x.ls| && forall k | 0 <= k < n - 1 :: !StopsAt(b, seqNo, x, migration, k)
    ensures n < |x.ls| ==> 0 < n && StopsAt(b, seqNo, x, migration, n - 1)
    ensures AfterItems(b, seqNo, x, migration, 0) == FirstItems(b, seqNo, x, migration, n)
  {
    n := ItemsFrom(b, seqNo, x, migration, 0);
  }

  class GarbageCollector {
    var seqNo: nat
    /** The handlers of the log streams on this server. */
    var handlers: map<nat, GcHandler>
    var candidates: seq<nat>
    var leaving: seq<nat>
    /** The answers each handler got since it was initialised. */
    ghost var answers: map<nat, seq<Answer>>

    ghost predicate Valid()
      reads this, handlers.Values
    {
      HandlersOk() && BooksOk(seqNo, answers, candidates)
    }

    /** Every log stream has a handler of its own, which remembers what it was told. */
    ghost predicate HandlersOk()
      reads this, handlers.Values
    {
      && handlers.Keys == answers.Keys
      && (forall ls | ls in handlers :: handlers[ls].ls == ls && handlers[ls].Keeps(answers[ls]))
    }

    ghost function Book(): Books
      reads this
    {
      Books(answers, candidates, leaving)
    }

    constructor ()
      ensures Valid() && candidates == [] && leaving == [] && handlers == map[]
    {
      seqNo, handlers, candidates, leaving, answers := 1, map[], [], [], map[];
    }

    /** A log stream appears on the server, with a handler of its own. */
    method AddLs(ls: nat)
      requires Valid() && ls !in candidates
      modifies this
      ensures Valid() && seqNo == old(seqNo) && candidates == old(candidates) && leaving == old(leaving)
      ensures handlers.Keys == old(handlers).Keys + {ls} && answers == old(answers)[ls := []]
    {
      hide Remembered, BooksOk;
      NewLsKeeps(seqNo, answers, candidates, ls);
      var h := new GcHandler(ls);
      assert h.Keeps([]);
      handlers, answers := handlers[ls := h], answers[ls := []];
    }

    /** A "not a member" answer reaches the handler of its log stream. */
    method Deny(ls: nat) returns (needGc: bool)
      requires Valid() && ls in handlers
      modifies this`answers, handlers[ls]
      ensures Valid() && answers == old(answers)[ls := old(answers)[ls] + [Answer(seqNo, false)]]
      ensures needGc <==> Denied(old(answers)[ls], seqNo - 1) && !Denied(old(answers)[ls], seqNo)
      ensures needGc ==> BooksOk(seqNo, answers, candidates + [ls])
    {
      hide Denied, Ordered, Remembered, BooksOk;
      DenialKeeps(seqNo, answers, candidates, ls);
      ghost var h := answers[ls] + [Answer(seqNo, false)];
      var ret;
      ret, needGc := handlers[ls].GcCheckInvalidMemberSeq(seqNo, answers[ls]);
      assert handlers[ls].Keeps(h);
      forall k | k in handlers && k != ls ensures handlers[k].Keeps(answers[k]) {
        assert handlers[k] != handlers[ls];
      }
      answers := answers[ls := answers[ls] + [Answer(seqNo, false)]];
    }

    /** One item of a response. */
    method HandleItem(x: Item) returns (stop: bool)
      requires Valid()
      modifies this`candidates, this`leaving, this`answers, handlers.Values
      ensures Valid()
      ensures stop <==> Stops(old(Book()), seqNo, x)
      ensures Book() == AfterItem(old(Book()), seqNo, x)
    {
      hide Denied, Remembered, BooksOk;
      stop := false;
      if !x.ok || x.ls !in handlers {
        return;
      }
      if x.member {
        if x.stat.LearnerInMigrating? {
          leaving := leaving + [x.ls];
        }
        return;
      }
      var needGc := Deny(x.ls);
      if needGc {
        match x.migration {
          case CheckFails => stop := true;
          case Dependent =>
          case MayGc => candidates := candidates + [x.ls];
        }
      }
    }

    /** Handles a response item by item. The collector stays valid, so every candidate was denied in this
        round and in the round before, whatever the response holds; one with arrays of different length is
        refused. */
    method HandleRpcResponse(x: Response, migration: nat -> Migration) returns (ret: Ret)
      requires Valid()
      modifies this`candidates, this`leaving, this`answers, handlers.Values
      ensures Valid()
      ensures ret.Unexpected? <==> |x.members| != |x.ls| || |x.rets| != |x.ls| || (|x.stats| != 0 && |x.stats| != |x.ls|)
      ensures Book() == if WellFormed(x) then AfterItems(old(Book()), seqNo, x, migration, 0) else old(Book())
    {
      if !WellFormed(x) {
        return Unexpected;
      }
      ret := Success;
      var i := 0;
      while i < |x.ls| && ret.Success?
        invariant Valid() && i <= |x.ls| && (ret.Success? || ret.Failed?)
        invariant AfterItems(old(Book()), seqNo, x, migration, 0) ==
                  if ret.Success? then AfterItems(Book(), seqNo, x, migration, i) else Book()
        decreases |x.ls| - i, ret.Success?
      {
        var stop := HandleItem(ItemAt(x, migration, i));
        ret := if stop then Failed else Success;
        i := i + 1;
      }
    }

    /** The next round. */
    method EndRound()
      requires Valid()
      modifies this
      ensures Valid() && seqNo == old(seqNo) + 1 && candidates == [] && leaving == []
      ensures answers == old(answers) && handlers == old(handlers)
    {
      hide Denied, Remembered;
      seqNo, candidates, leaving := seqNo + 1, [], [];
    }
  }
}
