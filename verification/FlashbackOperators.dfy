/** The three operators of the flashback service. As in the source they are kept by value in arrays;
    `switch_state` gives the changed operator, whose `ret` is its return code. */
module FlashbackOperators {
  import opened Common
  import opened FlashbackNetwork

  datatype Ret =
    | Success
    | NotInit
    | InvalidArgument
    | NotSupported
    | Again
    | Unexpected
    | Timeout
    | OpNotAllow

  // ---------------------------------------------------------------- ChangeAccessModeOperator

  datatype ModeOp = ModeOp(ls: int, hasLeader: bool, dst: Mode, modeVersion: int, ret: Ret)

  /** The operator after pass t. */
  function ModeStep(net: Network, op: ModeOp, t: nat): ModeOp {
    if !ValidLs(op.ls) then op.(ret := Unexpected)
    else if !op.hasLeader && !net.located(op.ls, t) then op.(ret := Again)
    else
      match net.leader(op.ls, t)
      case None => op.(hasLeader := false, ret := Again)
      case Some(a) =>
        op.(hasLeader := true, modeVersion := VersionOf(a),
            ret := if ModeOf(a) in {op.dst, FlashbackMode} then Success else Again)
  }

  /** The leader can be asked and answers. */
  predicate LeaderAnswers(net: Network, ls: int, hasLeader: bool, t: nat) {
    ls != -1 && (hasLeader || net.located(ls, t)) && net.leader(ls, t).Some?
  }

  /** Success exactly if the leader can be asked and answers in this pass in the wanted mode or in FLASHBACK. The
      version it answers with goes on record in any case, and a leader that does not answer is forgotten. */
  lemma ModeExactly(net: Network, op: ModeOp, t: nat)
    ensures var next, answers := ModeStep(net, op, t), LeaderAnswers(net, op.ls, op.hasLeader, t);
            && (next.ret.Success? <==> answers && SeenIn(net, op.ls, op.dst, t))
            && (next.ret.Unexpected? <==> op.ls == -1)
            && (next.ret.Again? <==> !next.ret.Success? && op.ls != -1)
            && next.modeVersion == (if answers then VersionSeen(net, op.ls, t) else op.modeVersion)
            && next.hasLeader == (if op.ls == -1 then op.hasLeader else answers)
            && next.ls == op.ls && next.dst == op.dst
  {
  }

  /** `command` is the mode change sent, with the version it is for. */
  method SwitchMode(net: Network, op: ModeOp, t: nat) returns (ret: Ret, next: ModeOp, command: Option<(Mode, int)>)
    ensures next == ModeStep(net, op, t) && ret == next.ret
    ensures command == if LeaderAnswers(net, op.ls, op.hasLeader, t) && !SeenIn(net, op.ls, op.dst, t)
                       then Some((op.dst, VersionSeen(net, op.ls, t))) else None
  {
    next, command := op.(hasLeader := op.hasLeader), None;
    if !ValidLs(op.ls) {
      ret := Unexpected;
    } else if !op.hasLeader && !net.located(op.ls, t) {
      ret := Again;
    } else if net.leader(op.ls, t).None? {
      next, ret := next.(hasLeader := false), Again;
    } else {
      var a := net.leader(op.ls, t).value;
      next := next.(hasLeader := true, modeVersion := VersionOf(a));
      if ModeOf(a) == op.dst || ModeOf(a) == FlashbackMode {
        ret := Success;
      } else {
        command, ret := Some((op.dst, next.modeVersion)), Again;
      }
    }
    next := next.(ret := ret);
  }

  // ---------------------------------------------------------------- CheckLSLogSyncOperator

  datatype SyncOp = SyncOp(
    ls: int, hasLeader: bool, flashbackScn: nat, hasMemberList: bool,
    members: seq<nat>, learners: seq<nat>, syncMembers: set<nat>, syncLearners: set<nat>, ret: Ret)

  /** The servers known to be in sync once those of the list were asked. */
  function Synced(net: Network, ls: int, scn: nat, list: seq<nat>, known: set<nat>, learner: bool, t: nat): set<nat> {
    known + set s | s in list && AtScn(net.replica(ls, s, learner, t), scn)
  }

  predicate AllIn(list: seq<nat>, known: set<nat>) { forall s | s in list :: s in known }

  /** None of them was known to be in sync, and all report themselves fully committed below the scn. */
  predicate AllBelow(net: Network, ls: int, scn: nat, list: seq<nat>, known: set<nat>, learner: bool, t: nat) {
    forall s | s in list :: s !in known && BelowScn(net.replica(ls, s, learner, t), scn)
  }

  predicate SomeCallFails(net: Network, ls: int, list: seq<nat>, known: set<nat>, learner: bool, t: nat) {
    exists s | s in list :: s !in known && net.replica(ls, s, learner, t).None?
  }

  /** Asks every server of the list that is not known to be in sync. `below` counts those that are fully
      committed and end below the flashback scn. */
  method CheckListLogSync(net: Network, ls: int, scn: nat, list: seq<nat>, known: set<nat>, learner: bool, t: nat)
    returns (ok: bool, synced: set<nat>, below: nat, rpcFailed: bool)
    ensures synced == Synced(net, ls, scn, list, known, learner, t)
    ensures ok <==> AllIn(list, synced)
    ensures below <= |list| && (below == |list| <==> AllBelow(net, ls, scn, list, known, learner, t))
    ensures rpcFailed <==> SomeCallFails(net, ls, list, known, learner, t)
  {
    ok, synced, below, rpcFailed := true, known, 0, false;
    for i := 0 to |list|
      invariant synced == Synced(net, ls, scn, list[..i], known, learner, t)
      invariant ok <==> AllIn(list[..i], synced)
      invariant below <= i && (below == i <==> AllBelow(net, ls, scn, list[..i], known, learner, t))
      invariant rpcFailed <==> SomeCallFails(net, ls, list[..i], known, learner, t)
    {
      var server := list[i];
      assert list[..i + 1] == list[..i] + [server];
      if server !in synced {
        var a := net.replica(ls, server, learner, t);
        if a.None? {
          ok, rpcFailed := false, true;
        } else if a.value.end < a.value.max {
          ok := false;
        } else if a.value.end < scn {
          ok, below := false, below + 1;
        } else {
          synced := synced + {server};
        }
      }
    }
    assert list[..|list|] == list;
  }

  /** An operator whose lists are known, after both were asked. */
  function BothChecked(net: Network, op: SyncOp, t: nat): SyncOp {
    var m := Synced(net, op.ls, op.flashbackScn, op.members, op.syncMembers, false, t);
    var l := Synced(net, op.ls, op.flashbackScn, op.learners, op.syncLearners, true, t);
    op.(syncMembers := m, syncLearners := l,
        hasMemberList := !SomeCallFails(net, op.ls, op.members, op.syncMembers, false, t)
                         && !SomeCallFails(net, op.ls, op.learners, op.syncLearners, true, t),
        ret := if (AllIn(op.members, m) && AllIn(op.learners, l))
                  || AllBelow(net, op.ls, op.flashbackScn, op.members, op.syncMembers, false, t) then Success else Again)
  }

  /** The lists of the leader's answer, if it is set and they are not known yet. */
  function TakeLists(net: Network, op: SyncOp, t: nat): SyncOp {
    if !op.hasMemberList && net.leader(op.ls, t).Some? && net.leader(op.ls, t).value.Stat? then
      op.(members := net.leader(op.ls, t).value.members, learners := net.leader(op.ls, t).value.learners)
    else op
  }

  predicate CanCall(net: Network, ls: int, hasLeader: bool, t: nat) { hasLeader || net.located(ls, t) }

  /** The operator after pass t. */
  function SyncStep(net: Network, op: SyncOp, t: nat): SyncOp {
    if !ValidLs(op.ls) then op.(ret := Unexpected)
    else if !CanCall(net, op.ls, op.hasLeader, t) then op.(ret := Again)
    else if !op.hasMemberList && net.leader(op.ls, t).None? then op.(hasLeader := false, ret := Again)
    else if !op.hasMemberList && ModeOf(net.leader(op.ls, t).value).FlashbackMode? then
      op.(hasLeader := true, ret := Success)
    else BothChecked(net, TakeLists(net, op, t).(hasLeader := true, hasMemberList := true), t)
  }

  method CheckBothLists(net: Network, op: SyncOp, t: nat) returns (ret: Ret, next: SyncOp)
    requires op.hasMemberList
    ensures next == BothChecked(net, op, t) && ret == next.ret
  {
    var ok, synced, below, failed := CheckListLogSync(net, op.ls, op.flashbackScn, op.members, op.syncMembers, false, t);
    var okL, syncedL, _, failedL := CheckListLogSync(net, op.ls, op.flashbackScn, op.learners, op.syncLearners, true, t);
    next := op;
    if failed || failedL {
      next := next.(hasMemberList := false);
    }
    ret := if ok && okL then Success else Again;
    if below == |op.members| {
      ret := Success;
    }
    next := next.(syncMembers := synced, syncLearners := syncedL, ret := ret);
  }

  method SwitchSync(net: Network, op: SyncOp, t: nat) returns (ret: Ret, next: SyncOp)
    ensures next == SyncStep(net, op, t) && ret == next.ret
  {
    next := op;
    if !ValidLs(op.ls) {
      ret := Unexpected;
    } else if !op.hasLeader && !net.located(op.ls, t) {
      ret := Again;
    } else {
      next := next.(hasLeader := true);
      var stat := Unset;
      if !op.hasMemberList && net.leader(op.ls, t).None? {
        next, ret := next.(hasLeader := false), Again;
      } else {
        if !op.hasMemberList {
          stat := net.leader(op.ls, t).value;
        }
        if stat.Stat? && stat.mode.FlashbackMode? {
          ret := Success;
        } else {
          next := next.(hasMemberList := true);
          if stat.Stat? {
            next := next.(members := stat.members, learners := stat.learners);
          }
          ret, next := CheckBothLists(net, next, t);
        }
      }
    }
    next := next.(ret := ret);
  }

  // ---------------------------------------------------------------- what passing means

  /** The replica reported itself at the scn in some pass from t0 to t. */
  ghost predicate Reported(net: Network, ls: int, server: nat, learner: bool, scn: nat, t0: nat, t: nat) {
    exists u :: t0 <= u <= t && AtScn(net.replica(ls, server, learner, u), scn)
  }

  /** All members and learners did. */
  ghost predicate AllReported(net: Network, ls: int, members: seq<nat>, learners: seq<nat>, scn: nat, t0: nat, t: nat) {
    && (forall s | s in members :: Reported(net, ls, s, false, scn, t0, t))
    && (forall s | s in learners :: Reported(net, ls, s, true, scn, t0, t))
  }

  /** All members are fully committed below the scn in pass t. */
  ghost predicate AllBelowIn(net: Network, ls: int, members: seq<nat>, scn: nat, t: nat) {
    forall s | s in members :: BelowScn(net.replica(ls, s, false, t), scn)
  }

  /** A leader's set answer in some pass from t0 to t gave these lists. */
  ghost predicate Listed(net: Network, ls: int, members: seq<nat>, learners: seq<nat>, t0: nat, t: nat) {
    exists u :: t0 <= u <= t && net.leader(ls, u).Some? && net.leader(ls, u).value.Stat? && GivesLists(net, ls, u, members, learners)
  }

  ghost predicate SomeUnset(net: Network, ls: int, t0: nat, t: nat) {
    exists u :: t0 <= u <= t && net.leader(ls, u) == Some(Unset)
  }

  /** Why an operator passes in pass t of a stage that began with t0, where `op` is what it is after the pass:
      its leader is in FLASHBACK; or its lists are those its leader gave, and every member and learner on them
      reported itself at the flashback scn during the stage, or every member is fully committed below it in
      this very pass; or it never got lists, because its leader gave an unset answer. */
  ghost predicate Passes(net: Network, op: SyncOp, t0: nat, t: nat) {
    || InFlashback(net, op.ls, t)
    || (Listed(net, op.ls, op.members, op.learners, t0, t) &&
        (AllReported(net, op.ls, op.members, op.learners, op.flashbackScn, t0, t)
         || AllBelowIn(net, op.ls, op.members, op.flashbackScn, t)))
    || (op.members == [] && op.learners == [] && SomeUnset(net, op.ls, t0, t))
  }

  /** The lists are those of a set answer, or there are none because of an unset one. */
  ghost predicate HasLists(net: Network, op: SyncOp, t0: nat, t: nat) {
    || Listed(net, op.ls, op.members, op.learners, t0, t)
    || (op.members == [] && op.learners == [] && SomeUnset(net, op.ls, t0, t))
  }

  /** Everyone on the synced lists reported itself at the scn since the stage began with t0. */
  ghost predicate SyncedReported(net: Network, op: SyncOp, t0: nat, t: nat) {
    && (forall s | s in op.syncMembers :: Reported(net, op.ls, s, false, op.flashbackScn, t0, t))
    && (forall s | s in op.syncLearners :: Reported(net, op.ls, s, true, op.flashbackScn, t0, t))
  }

  /** Between passes. */
  ghost predicate SyncOk(net: Network, op: SyncOp, t0: nat, t: nat) {
    && (op.members != [] || op.learners != [] || op.hasMemberList ==> HasLists(net, op, t0, t))
    && SyncedReported(net, op, t0, t)
  }

  /** The lists after the leader was asked. */
  lemma TakeListsOk(net: Network, op: SyncOp, t0: nat, t: nat)
    requires t0 <= t && SyncOk(net, op, t0, t) && (op.hasMemberList || net.leader(op.ls, t).Some?)
    ensures HasLists(net, TakeLists(net, op, t), t0, t)
  {
    if !op.hasMemberList && net.leader(op.ls, t).value.Stat? {
      var a := net.leader(op.ls, t).value;
      assert GivesLists(net, op.ls, t, a.members, a.learners);
    }
  }

  lemma BothCheckedOk(net: Network, op: SyncOp, t0: nat, t: nat)
    requires t0 <= t && HasLists(net, op, t0, t) && SyncedReported(net, op, t0, t)
    ensures SyncOk(net, BothChecked(net, op, t), t0, t)
    ensures BothChecked(net, op, t).ret.Success? ==> Passes(net, BothChecked(net, op, t), t0, t)
  {
    hide Listed, SomeUnset;
    var next := BothChecked(net, op, t);
    assert SyncedReported(net, next, t0, t);
    if AllIn(op.members, next.syncMembers) && AllIn(op.learners, next.syncLearners) {
      assert AllReported(net, op.ls, op.members, op.learners, op.flashbackScn, t0, t);
    }
  }

  lemma SyncOkStep(net: Network, op: SyncOp, t0: nat, t: nat)
    requires t0 <= t && SyncOk(net, op, t0, t)
    ensures SyncOk(net, SyncStep(net, op, t), t0, t)
    ensures SyncStep(net, op, t).ret.Success? ==> Passes(net, SyncStep(net, op, t), t0, t)
  {
    hide Listed, SomeUnset, Reported, BothChecked, AllReported, AllBelowIn;
    if op.hasMemberList || net.leader(op.ls, t).Some? {
      TakeListsOk(net, op, t0, t);
      BothCheckedOk(net, TakeLists(net, op, t).(hasLeader := true, hasMemberList := true), t0, t);
    }
  }

  lemma SyncOkLater(net: Network, op: SyncOp, t0: nat, t: nat)
    requires SyncOk(net, op, t0, t)
    ensures SyncOk(net, op, t0, t + 1)
  {
    forall s, learner | Reported(net, op.ls, s, learner, op.flashbackScn, t0, t)
      ensures Reported(net, op.ls, s, learner, op.flashbackScn, t0, t + 1)
    {
      var u :| t0 <= u <= t && AtScn(net.replica(op.ls, s, learner, u), op.flashbackScn);
      assert t0 <= u <= t + 1;
    }
  }

  /** The replica answers in pass t that all it has is committed, and that it has reached the scn. */
  predicate Reaches(net: Network, ls: int, server: nat, learner: bool, scn: nat, t: nat) {
    match net.replica(ls, server, learner, t)
    case Some(Ends(end, max)) => max <= end && scn <= end
    case None => false
  }

  /** The lists an operator asks in pass t: its own, or those its leader gives when it has none. */
  predicate Asks(net: Network, op: SyncOp, t: nat, members: seq<nat>, learners: seq<nat>) {
    match net.leader(op.ls, t)
    case Some(Stat(_, _, m, l)) =>
      if op.hasMemberList then members == op.members && learners == op.learners else members == m && learners == l
    case _ => members == op.members && learners == op.learners
  }

  /** When an operator passes, in terms of the answers alone. It can reach its leader, and either has no lists and
      the leader is in FLASHBACK, or has lists or an answer and: everyone on the lists it asks is known to have
      reached the scn or does so now, or no member is known to have and all are now fully committed below it. */
  lemma SyncExactly(net: Network, op: SyncOp, t: nat, members: seq<nat>, learners: seq<nat>)
    requires ValidLs(op.ls) && Asks(net, op, t, members, learners)
    ensures SyncStep(net, op, t).ret.Success? <==>
              && (op.hasLeader || net.located(op.ls, t))
              && (|| (!op.hasMemberList && InFlashback(net, op.ls, t))
                  || ((op.hasMemberList || net.leader(op.ls, t).Some?) &&
                      (|| ((forall s | s in members :: s in op.syncMembers || Reaches(net, op.ls, s, false, op.flashbackScn, t)) &&
                           (forall s | s in learners :: s in op.syncLearners || Reaches(net, op.ls, s, true, op.flashbackScn, t)))
                       || (forall s | s in members ::
                             && s !in op.syncMembers && net.replica(op.ls, s, false, t).Some?
                             && var Ends(end, max) := net.replica(op.ls, s, false, t).value; max <= end < op.flashbackScn))))
  {
    var o := TakeLists(net, op, t);
    assert o.members == members && o.learners == learners;
    var m := Synced(net, op.ls, op.flashbackScn, members, op.syncMembers, false, t);
    var l := Synced(net, op.ls, op.flashbackScn, learners, op.syncLearners, true, t);
    assert AllIn(members, m) <==>
             forall s | s in members :: s in op.syncMembers || Reaches(net, op.ls, s, false, op.flashbackScn, t);
    assert AllIn(learners, l) <==>
             forall s | s in learners :: s in op.syncLearners || Reaches(net, op.ls, s, true, op.flashbackScn, t);
  }

  /** What an operator keeps of a pass in which it asks its lists: the lists, who on them has reached the scn, and
      that they are to be fetched again exactly if a call to someone on them failed who had to be asked. */
  lemma SyncRecords(net: Network, op: SyncOp, t: nat, members: seq<nat>, learners: seq<nat>)
    requires ValidLs(op.ls) && (op.hasLeader || net.located(op.ls, t)) && Asks(net, op, t, members, learners)
    requires op.hasMemberList || (net.leader(op.ls, t).Some? && !InFlashback(net, op.ls, t))
    ensures var next := SyncStep(net, op, t);
            && next.hasLeader && next.members == members && next.learners == learners
            && (forall s :: s in next.syncMembers <==>
                  s in op.syncMembers || (s in members && Reaches(net, op.ls, s, false, op.flashbackScn, t)))
            && (forall s :: s in next.syncLearners <==>
                  s in op.syncLearners || (s in learners && Reaches(net, op.ls, s, true, op.flashbackScn, t)))
            && (next.hasMemberList <==>
                  && (forall s | s in members :: s in op.syncMembers || net.replica(op.ls, s, false, t).Some?)
                  && (forall s | s in learners :: s in op.syncLearners || net.replica(op.ls, s, true, t).Some?))
  {
  }

  /** A pass in which it does not changes nothing else than whether it knows its leader. */
  lemma SyncRecordsNothing(net: Network, op: SyncOp, t: nat)
    requires !op.hasMemberList || op.ls == -1 || !(op.hasLeader || net.located(op.ls, t))
    requires LeaderAnswers(net, op.ls, op.hasLeader, t) ==> InFlashback(net, op.ls, t)
    ensures var next := SyncStep(net, op, t);
            && next == op.(hasLeader := next.hasLeader, ret := next.ret)
            && next.hasLeader == (if op.ls == -1 then op.hasLeader else LeaderAnswers(net, op.ls, op.hasLeader, t))
            && next.ret == (if op.ls == -1 then Unexpected
                            else if LeaderAnswers(net, op.ls, op.hasLeader, t) then Success else Again)
  {
  }

  /** Whatever any replica would answer. */
  ghost predicate PassesRegardless(net: Network, op: SyncOp, t: nat) {
    forall replica: (int, nat, bool, nat) -> Option<Ends> :: SyncStep(net.(replica := replica), op, t).ret.Success?
  }

  /** An operator that has no lists yet passes without the word of any replica exactly when its leader answers
      in FLASHBACK or with no member listed, as an unset answer does: no member equals no member below. */
  lemma BlindPassExactly(net: Network, op: SyncOp, t: nat)
    requires ValidLs(op.ls) && !op.hasMemberList && op.members == [] && op.learners == [] && op.syncMembers == {}
    ensures PassesRegardless(net, op, t) <==>
              && (op.hasLeader || net.located(op.ls, t)) && net.leader(op.ls, t).Some?
              && (net.leader(op.ls, t).value.Unset? || net.leader(op.ls, t).value.mode == FlashbackMode
                  || net.leader(op.ls, t).value.members == [])
  {
    var silent := (l: int, s: nat, k: bool, u: nat) => None;
    if PassesRegardless(net, op, t) {
      assert SyncStep(net.(replica := silent), op, t).ret.Success?;
      var members := TakeLists(net, op, t).members;
      assert members != [] ==> members[0] in members;
    }
  }

  /** The log stream is in FLASHBACK; or for lists its leader gave, with a member on them, every member and
      learner now ends at the flashback scn or beyond, or every member is fully committed below it in pass t. */
  ghost predicate InSync(net: Network, ls: int, scn: nat, t0: nat, t: nat, endNow: nat -> nat) {
    || InFlashback(net, ls, t)
    || (exists members, learners :: members != [] && Listed(net, ls, members, learners, t0, t) &&
          ((forall s | s in members || s in learners :: scn <= endNow(s)) || AllBelowIn(net, ls, members, scn, t)))
  }

  /** What passing means when the stage ends, with set answers and with ends of logs that only grow. */
  lemma LogSyncMeaning(net: Network, op: SyncOp, t0: nat, t: nat, endNow: nat -> nat)
    requires Passes(net, op, t0, t) && AnswersAreSet(net)
    requires forall s, k, u | t0 <= u <= t && net.replica(op.ls, s, k, u).Some? ::
               net.replica(op.ls, s, k, u).value.end <= endNow(s)
    ensures InSync(net, op.ls, op.flashbackScn, t0, t, endNow)
  {
    var ls, scn := op.ls, op.flashbackScn;
    if !InFlashback(net, ls, t) {
      assert op.members != [] && Listed(net, ls, op.members, op.learners, t0, t);
      if !AllBelowIn(net, ls, op.members, scn, t) {
        forall s | s in op.members || s in op.learners ensures scn <= endNow(s) {
          assert Reported(net, ls, s, false, scn, t0, t) || Reported(net, ls, s, true, scn, t0, t);
        }
      }
    }
  }

  // ---------------------------------------------------------------- BaseLSOperator

  /** An operator of stages 1 to 3, which only the thread of the service works on. */
  datatype LsOp = ChangeMode(mode: ModeOp) | CheckSync(sync: SyncOp) {
    function Ls(): int {
      match this
      case ChangeMode(op) => op.ls
      case CheckSync(op) => op.ls
    }

    function Ret(): Ret {
      match this
      case ChangeMode(op) => op.ret
      case CheckSync(op) => op.ret
    }
  }

  /** What the operators of a stage are to reach. */
  datatype Goal = ToMode(dst: Mode) | ToScn(scn: nat)

  function NewOp(ls: int, goal: Goal): LsOp {
    match goal
    case ToMode(dst) => ChangeMode(ModeOp(ls, false, dst, -1, NotInit))
    case ToScn(scn) => CheckSync(SyncOp(ls, false, scn, false, [], [], {}, {}, NotInit))
  }

  function OpStep(net: Network, op: LsOp, t: nat): LsOp {
    match op
    case ChangeMode(m) => ChangeMode(ModeStep(net, m, t))
    case CheckSync(s) => CheckSync(SyncStep(net, s, t))
  }

  /** The virtual switch_state. */
  method SwitchState(net: Network, op: LsOp, t: nat) returns (ret: Ret, next: LsOp)
    ensures next == OpStep(net, op, t) && ret == next.Ret()
  {
    match op
    case ChangeMode(m) =>
      var op', command;
      ret, op', command := SwitchMode(net, m, t);
      next := ChangeMode(op');
    case CheckSync(s) =>
      var op';
      ret, op' := SwitchSync(net, s, t);
      next := CheckSync(op');
  }

  ghost predicate IsFor(op: LsOp, ls: int, goal: Goal) {
    match goal
    case ToMode(dst) => op.ChangeMode? && op.mode.ls == ls && op.mode.dst == dst
    case ToScn(scn) => op.CheckSync? && op.sync.ls == ls && op.sync.flashbackScn == scn
  }

  /** The operator of a log stream before pass t of a stage that began with t0. */
  function OpAt(net: Network, ls: int, goal: Goal, t0: nat, t: nat): (op: LsOp)
    requires t0 <= t
    ensures IsFor(op, ls, goal)
    decreases t
  {
    if t == t0 then NewOp(ls, goal) else OpStep(net, OpAt(net, ls, goal, t0, t - 1), t - 1)
  }

  /** A log stream passes the log-sync check in pass t of a stage that began with t0. */
  ghost predicate PassesIn(net: Network, ls: int, scn: nat, t0: nat, t: nat)
    requires t0 <= t
  {
    Passes(net, OpAt(net, ls, ToScn(scn), t0, t + 1).sync, t0, t)
  }

  lemma {:induction false} SyncAtOk(net: Network, ls: int, scn: nat, t0: nat, t: nat)
    requires t0 <= t
    ensures SyncOk(net, OpAt(net, ls, ToScn(scn), t0, t).sync, t0, t)
    ensures OpAt(net, ls, ToScn(scn), t0, t + 1).Ret().Success? ==> PassesIn(net, ls, scn, t0, t)
    decreases t
  {
    hide SyncStep, Passes;
    if t0 < t {
      SyncAtOk(net, ls, scn, t0, t - 1);
      SyncOkStep(net, OpAt(net, ls, ToScn(scn), t0, t - 1).sync, t0, t - 1);
      SyncOkLater(net, OpAt(net, ls, ToScn(scn), t0, t).sync, t0, t - 1);
    }
    SyncOkStep(net, OpAt(net, ls, ToScn(scn), t0, t).sync, t0, t);
  }

  // ---------------------------------------------------------------- ExecuteFlashbackOperator

  datatype ExecOp = ExecOp(
    ls: int, hasLeader: bool, modeVersion: int, hasMemberList: bool,
    members: seq<nat>, learners: seq<nat>, doneMembers: set<nat>, doneLearners: set<nat>, ret: Ret)

  /** A flashback request, with the pass it is sent in. */
  datatype Request = Request(t: nat, ls: int, server: nat, version: int)

  /** A request to every listed server that has not acknowledged. */
  function Requests(op: ExecOp, list: seq<nat>, done: set<nat>, t: nat): (sent: seq<Request>)
    ensures forall s | s in list && s !in done :: Request(t, op.ls, s, op.modeVersion) in sent
    ensures forall m | m in sent ::
              m.t == t && m.ls == op.ls && m.version == op.modeVersion && m.server in list && m.server !in done
  {
    if list == [] then []
    else
      var init, last := list[..|list| - 1], list[|list| - 1];
      assert list == init + [last];
      Requests(op, init, done, t) + if last in done then [] else [Request(t, op.ls, last, op.modeVersion)]
  }

  /** Sends those requests; sent or lost, the servers have to be asked again. */
  method FlashbackList(op: ExecOp, list: seq<nat>, done: set<nat>, t: nat) returns (ok: bool, sent: seq<Request>)
    ensures ok <==> AllIn(list, done)
    ensures sent == Requests(op, list, done, t)
  {
    ok, sent := true, [];
    for i := 0 to |list|
      invariant ok <==> AllIn(list[..i], done)
      invariant sent == Requests(op, list[..i], done, t)
    {
      assert list[..i + 1] == list[..i] + [list[i]];
      if list[i] !in done {
        sent, ok := sent + [Request(t, op.ls, list[i], op.modeVersion)], false;
      }
    }
    assert list[..|list|] == list;
  }

  /** The operator after pass t; the lists are recorded once. */
  function ExecStep(net: Network, op: ExecOp, t: nat): ExecOp {
    if !ValidLs(op.ls) then op.(ret := Unexpected)
    else if !CanCall(net, op.ls, op.hasLeader, t) then op.(ret := Again)
    else if !op.hasMemberList && net.leader(op.ls, t).None? then op.(hasLeader := false, ret := Again)
    else
      var o := Recorded(net, op, t);
      o.(ret := if AllIn(o.members, o.doneMembers) && AllIn(o.learners, o.doneLearners) then Success else Again)
  }

  function Recorded(net: Network, op: ExecOp, t: nat): ExecOp
    requires op.hasMemberList || net.leader(op.ls, t).Some?
  {
    if op.hasMemberList then op.(hasLeader := true)
    else op.(hasLeader := true, hasMemberList := true, members := MembersOf(net.leader(op.ls, t).value),
             learners := LearnersOf(net.leader(op.ls, t).value))
  }

  /** What an operator does in a pass: without lists and without an answer it forgets its leader; else it has its
      lists, its own or those of the answer, and succeeds exactly if everyone on them has acknowledged. */
  lemma ExecExactly(net: Network, op: ExecOp, t: nat)
    ensures var next := ExecStep(net, op, t);
            && (op.ls == -1 ==> next == op.(ret := Unexpected))
            && (op.ls != -1 && !op.hasLeader && !net.located(op.ls, t) ==> next == op.(ret := Again))
            && (op.ls != -1 && (op.hasLeader || net.located(op.ls, t)) ==>
                  if !op.hasMemberList && net.leader(op.ls, t).None? then next == op.(hasLeader := false, ret := Again)
                  else
                    && next.hasLeader && next.hasMemberList && next.ls == op.ls && next.modeVersion == op.modeVersion
                    && next.doneMembers == op.doneMembers && next.doneLearners == op.doneLearners
                    && (if op.hasMemberList then next.members == op.members && next.learners == op.learners
                        else GivesLists(net, op.ls, t, next.members, next.learners))
                    && (next.ret.Success? <==> (forall s | s in next.members :: s in next.doneMembers)
                                               && (forall s | s in next.learners :: s in next.doneLearners))
                    && (next.ret.Success? || next.ret.Again?))
  {
  }

  method SwitchExec(net: Network, op: ExecOp, t: nat) returns (ret: Ret, next: ExecOp, sent: seq<Request>)
    ensures next == ExecStep(net, op, t) && ret == next.ret
    ensures forall s | next.hasLeader && next.hasMemberList && ValidLs(op.ls) && s in next.members && s !in next.doneMembers ::
              Request(t, op.ls, s, op.modeVersion) in sent
    ensures forall s | next.hasLeader && next.hasMemberList && ValidLs(op.ls) && s in next.learners && s !in next.doneLearners ::
              Request(t, op.ls, s, op.modeVersion) in sent
    ensures forall m | m in sent ::
              && m.t == t && m.ls == op.ls && m.version == op.modeVersion && next.hasMemberList
              && ((m.server in next.members && m.server !in next.doneMembers)
                  || (m.server in next.learners && m.server !in next.doneLearners))
  {
    next, sent := op, [];
    if !ValidLs(op.ls) {
      ret := Unexpected;
    } else if !op.hasLeader && !net.located(op.ls, t) {
      ret := Again;
    } else {
      next := next.(hasLeader := true);
      if !op.hasMemberList && net.leader(op.ls, t).None? {
        next, ret := next.(hasLeader := false), Again;
      } else {
        if !op.hasMemberList {
          var a := net.leader(op.ls, t).value;
          next := next.(members := MembersOf(a), learners := LearnersOf(a));
        }
        next := next.(hasMemberList := true);
        var ok, sentM := FlashbackList(op, next.members, next.doneMembers, t);
        var okL, sentL := FlashbackList(op, next.learners, next.doneLearners, t);
        sent := sentM + sentL;
        ret := if ok && okL then Success else Again;
      }
    }
    next := next.(ret := ret);
  }

  /** The operator after a reply from `server`: one that comes too early, is invalid or is not from a listed
      server changes nothing. */
  function Acknowledge(op: ExecOp, server: nat, valid: bool): ExecOp {
    if !ValidLs(op.ls) || !op.hasMemberList || !valid then op
    else if server in op.members then op.(doneMembers := op.doneMembers + {server})
    else if server in op.learners then op.(doneLearners := op.doneLearners + {server})
    else op
  }

  /** Exactly a valid reply of a listed server counts, once the lists are known: as that of a member, or of a
      learner that is no member. */
  lemma AcknowledgeExactly(op: ExecOp, server: nat, valid: bool)
    ensures var counts := op.ls != -1 && op.hasMemberList && valid;
            Acknowledge(op, server, valid) ==
            op.(doneMembers := op.doneMembers + (if counts && server in op.members then {server} else {}),
                doneLearners := op.doneLearners +
                                (if counts && server in op.learners && server !in op.members then {server} else {}))
  {
  }

  method HandleResp(op: ExecOp, server: nat, valid: bool) returns (ret: Ret, next: ExecOp)
    ensures next == Acknowledge(op, server, valid)
    ensures ret == if op.hasMemberList && ValidLs(op.ls) && !valid then InvalidArgument else Success
  {
    ret, next := Success, op;
    if ValidLs(op.ls) && op.hasMemberList {
      if !valid {
        ret := InvalidArgument;
      } else if server in op.members {
        next := op.(doneMembers := op.doneMembers + {server});
      } else if server in op.learners {
        next := op.(doneLearners := op.doneLearners + {server});
      }
    }
  }

  // ---------------------------------------------------------------- what acknowledging means

  /** A valid reply of the server with this id and mode version arrived in some pass from t0 to t. */
  ghost predicate Acked(net: Network, ls: int, version: int, server: nat, t0: nat, t: nat) {
    exists u, i :: t0 <= u <= t && Reply(ls, version, server, true) in net.replies(u, i)
  }

  /** The lists are those of the leader's answer in some pass from t0 to t. */
  ghost predicate GivenBy(net: Network, ls: int, members: seq<nat>, learners: seq<nat>, t0: nat, t: nat) {
    exists u :: t0 <= u <= t && GivesLists(net, ls, u, members, learners)
  }

  /** Recorded lists come from the leader, and acknowledged servers are on them and did acknowledge. */
  ghost predicate ExecOk(net: Network, op: ExecOp, t0: nat, t: nat) {
    && (op.hasMemberList ==> op.hasLeader && GivenBy(net, op.ls, op.members, op.learners, t0, t))
    && (!op.hasMemberList ==> op.doneMembers == {} && op.doneLearners == {})
    && (forall s | s in op.doneMembers :: s in op.members && Acked(net, op.ls, op.modeVersion, s, t0, t))
    && (forall s | s in op.doneLearners :: s in op.learners && s !in op.members && Acked(net, op.ls, op.modeVersion, s, t0, t))
  }

  /** Every member and learner of the lists the leader gave since t0 acknowledged since t0, with this id and
      mode version; no server is on both lists. */
  ghost predicate FullyAcknowledged(net: Network, op: ExecOp, t0: nat, t: nat) {
    && (forall s | s in op.members :: s !in op.learners)
    && GivenBy(net, op.ls, op.members, op.learners, t0, t)
    && (forall s | s in op.members || s in op.learners :: Acked(net, op.ls, op.modeVersion, s, t0, t))
  }

  /** Acknowledged sets only grow and recorded lists stay. */
  ghost predicate Grows(a: ExecOp, b: ExecOp) {
    && a.ls == b.ls && a.modeVersion == b.modeVersion
    && a.doneMembers <= b.doneMembers && a.doneLearners <= b.doneLearners
    && (a.hasMemberList ==> b.hasMemberList && a.members == b.members && a.learners == b.learners)
  }

  lemma ExecOkStep(net: Network, op: ExecOp, t0: nat, t: nat)
    requires t0 <= t && ExecOk(net, op, t0, t)
    ensures ExecOk(net, ExecStep(net, op, t), t0, t) && Grows(op, ExecStep(net, op, t))
    ensures ExecStep(net, op, t).ret.Success? ==> FullyAcknowledged(net, ExecStep(net, op, t), t0, t)
  {
    if !op.hasMemberList && net.leader(op.ls, t).Some? {
      var a := net.leader(op.ls, t).value;
      assert GivesLists(net, op.ls, t, MembersOf(a), LearnersOf(a));
    }
  }

  lemma ExecOkReply(net: Network, op: ExecOp, r: Reply, t0: nat, t: nat, i: nat)
    requires t0 <= t && ExecOk(net, op, t0, t) && r in net.replies(t, i) && r.ls == op.ls && r.version == op.modeVersion
    ensures ExecOk(net, Acknowledge(op, r.server, r.valid), t0, t) && Grows(op, Acknowledge(op, r.server, r.valid))
  {
    if r.valid {
      assert r == Reply(op.ls, op.modeVersion, r.server, true);
    }
  }

  lemma ExecOkLater(net: Network, op: ExecOp, t0: nat, t: nat)
    requires ExecOk(net, op, t0, t)
    ensures ExecOk(net, op, t0, t + 1)
  {
    forall s | Acked(net, op.ls, op.modeVersion, s, t0, t) ensures Acked(net, op.ls, op.modeVersion, s, t0, t + 1) {
      var u, i :| t0 <= u <= t && Reply(op.ls, op.modeVersion, s, true) in net.replies(u, i);
      assert t0 <= u <= t + 1;
    }
    if op.hasMemberList {
      var u :| t0 <= u <= t && GivesLists(net, op.ls, u, op.members, op.learners);
      assert t0 <= u <= t + 1;
    }
  }

  /** An operator that has no acknowledgement succeeds exactly when its leader answers with empty lists, as an
      unset answer does. */
  lemma SilentSuccessExactly(net: Network, op: ExecOp, t: nat)
    requires ValidLs(op.ls) && !op.hasMemberList && op.doneMembers == {} && op.doneLearners == {}
    ensures ExecStep(net, op, t).ret.Success? <==>
              && (op.hasLeader || net.located(op.ls, t)) && net.leader(op.ls, t).Some?
              && (net.leader(op.ls, t).value.Unset?
                  || (net.leader(op.ls, t).value.members == [] && net.leader(op.ls, t).value.learners == []))
  {
    var o := ExecStep(net, op, t);
    assert o.members != [] ==> o.members[0] in o.members;
    assert o.learners != [] ==> o.learners[0] in o.learners;
  }
}
