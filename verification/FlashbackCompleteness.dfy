/** The converse of what success of a flashback means: once every listed server has acknowledged, the pass
    succeeds, whatever other replies arrive and in whatever order. */
module FlashbackCompleteness {
  import opened FlashbackNetwork
  import opened FlashbackOperators
  import opened FlashbackServices
  import opened FlashbackExecution

  // ---------------------------------------------------------------- stages 1 to 3

  lemma SuccessIsPass(net: Network, ls: seq<int>, goal: Goal, t0: nat, t: nat, passes: nat)
    requires t0 <= t < t0 + passes && forall l | l in ls :: OpAt(net, l, goal, t0, t + 1).Ret().Success?
    ensures Pass(net, ls, goal, t0, t) && !NoPass(net, ls, goal, t0, passes)
  {
    hide OpAt;
    var ops := OpsAt(net, ls, goal, t0, t + 1);
    forall op | op in ops ensures op.Ret().Success? {
      var i :| 0 <= i < |ops| && ops[i] == op;
      assert ls[i] in ls;
    }
    assert Pass(net, ls, goal, t0, t);
  }

  /** If in some pass in time every leader is located and answers in the mode or in FLASHBACK, stages 1 and 3 do
      not end with a timeout. */
  lemma ModeStageSucceeds(net: Network, ls: seq<int>, dst: Mode, t0: nat, t: nat, passes: nat)
    requires t0 <= t < t0 + passes
    requires forall l | l in ls :: ValidLs(l) && net.located(l, t) && SeenIn(net, l, dst, t)
    ensures Pass(net, ls, ToMode(dst), t0, t) && !NoPass(net, ls, ToMode(dst), t0, passes)
  {
    forall l | l in ls ensures OpAt(net, l, ToMode(dst), t0, t + 1).Ret().Success? {
      ModeExactly(net, OpAt(net, l, ToMode(dst), t0, t).mode, t);
    }
    hide OpAt;
    SuccessIsPass(net, ls, ToMode(dst), t0, t, passes);
  }

  /** The leader of a log stream answers in pass t in FLASHBACK, or with lists on which everyone answers that it
      has reached the scn. */
  ghost predicate AllReach(net: Network, ls: int, scn: nat, t: nat) {
    match net.leader(ls, t)
    case Some(Stat(mode, _, members, learners)) =>
      || mode == FlashbackMode
      || ((forall s | s in members :: Reaches(net, ls, s, false, scn, t)) &&
          (forall s | s in learners :: Reaches(net, ls, s, true, scn, t)))
    case _ => false
  }

  /** The lists of a log stream do not change in the passes from t0 to t. */
  ghost predicate SameLists(net: Network, ls: int, t0: nat, t: nat) {
    forall u | t0 <= u <= t && net.leader(ls, u).Some? :: AnswersAs(net, ls, u, t)
  }

  ghost predicate AnswersAs(net: Network, ls: int, u: nat, t: nat) {
    && net.leader(ls, u).Some? && net.leader(ls, u).value.Stat? && net.leader(ls, t).Some? && net.leader(ls, t).value.Stat?
    && net.leader(ls, u).value.members == net.leader(ls, t).value.members
    && net.leader(ls, u).value.learners == net.leader(ls, t).value.learners
    && net.leader(ls, u).value.mode != FlashbackMode
  }

  /** Then an operator has no other lists. */
  lemma {:induction false} HasSameLists(net: Network, ls: int, scn: nat, t0: nat, u: nat, t: nat)
    requires t0 <= u <= t && SameLists(net, ls, t0, t) && net.leader(ls, t).Some? && net.leader(ls, t).value.Stat?
    ensures var op := OpAt(net, ls, ToScn(scn), t0, u).sync;
            op.hasMemberList ==> op.members == net.leader(ls, t).value.members && op.learners == net.leader(ls, t).value.learners
    decreases u
  {
    if t0 < u {
      HasSameLists(net, ls, scn, t0, u - 1, t);
      var op := OpAt(net, ls, ToScn(scn), t0, u - 1).sync;
      if net.leader(ls, u - 1).Some? {
        assert AnswersAs(net, ls, u - 1, t);
      }
      hide SomeCallFails, AllIn, AllBelow, Synced;
    }
  }

  /** A log stream that is not in FLASHBACK yet, whose lists do not change during the stage and on which in some
      pass everyone has reached the scn passes in that pass; so does one whose operator has no lists and whose
      leader is in FLASHBACK. */
  lemma LogStreamPasses(net: Network, ls: int, scn: nat, t0: nat, t: nat)
    requires t0 <= t && ValidLs(ls) && net.located(ls, t) && AllReach(net, ls, scn, t)
    requires SameLists(net, ls, t0, t) || (InFlashback(net, ls, t) && !OpAt(net, ls, ToScn(scn), t0, t).sync.hasMemberList)
    ensures OpAt(net, ls, ToScn(scn), t0, t + 1).Ret().Success?
  {
    var op := OpAt(net, ls, ToScn(scn), t0, t).sync;
    var stat := net.leader(ls, t).value;
    if SameLists(net, ls, t0, t) {
      HasSameLists(net, ls, scn, t0, t, t);
      assert AnswersAs(net, ls, t, t);
    }
    hide SyncStep;
    SyncExactly(net, op, t, if op.hasMemberList then op.members else stat.members,
                if op.hasMemberList then op.learners else stat.learners);
  }

  /** If that holds for every log stream, stage 2 does not end with a timeout. */
  lemma SyncStageSucceeds(net: Network, ls: seq<int>, scn: nat, t0: nat, t: nat, passes: nat)
    requires t0 <= t < t0 + passes
    requires forall l | l in ls :: ValidLs(l) && net.located(l, t) && AllReach(net, l, scn, t) && SameLists(net, l, t0, t)
    ensures Pass(net, ls, ToScn(scn), t0, t) && !NoPass(net, ls, ToScn(scn), t0, passes)
  {
    hide OpAt, AllReach, SameLists;
    forall l | l in ls ensures OpAt(net, l, ToScn(scn), t0, t + 1).Ret().Success? {
      LogStreamPasses(net, l, scn, t0, t);
    }
    SuccessIsPass(net, ls, ToScn(scn), t0, t, passes);
  }

  /** Operators begin a stage without a leader, and get nowhere in it before the location cache names one. */
  lemma NothingBeforeLocated(net: Network, ls: int, goal: Goal, m: ModeOp, t: nat)
    requires ValidLs(ls) && m.ls == ls && !net.located(ls, t)
    ensures OpAt(net, ls, goal, t, t + 1).Ret().Again? && ExecStep(net, NewExecOp(m), t).ret.Again?
    ensures !ExecStep(net, NewExecOp(m), t).hasMemberList
  {
  }

  // ---------------------------------------------------------------- replies

  lemma FirstForSame(a: seq<ExecOp>, b: seq<ExecOp>, ls: int, version: int)
    requires AllGrow(a, b)
    ensures FirstFor(a, ls, version) == FirstFor(b, ls, version)
  {
  }

  /** The server's acknowledgement is on record wherever the server is listed. */
  ghost predicate OnRecord(op: ExecOp, server: nat) {
    && op.hasMemberList
    && (server in op.members ==> server in op.doneMembers)
    && (server in op.learners && server !in op.members ==> server in op.doneLearners)
  }

  lemma OnRecordStays(a: ExecOp, b: ExecOp, server: nat)
    requires Grows(a, b) && OnRecord(a, server)
    ensures OnRecord(b, server)
  {
  }

  /** A valid reply with an operator's id and version is recorded by the first operator that has them. */
  lemma {:induction false} ReplyIsRecorded(ops: seq<ExecOp>, replies: seq<Reply>, k: nat, server: nat)
    requires k < |ops| && ValidLs(ops[k].ls) && ops[k].hasMemberList
    requires FirstFor(ops, ops[k].ls, ops[k].modeVersion) == k
    requires Reply(ops[k].ls, ops[k].modeVersion, server, true) in replies
    ensures OnRecord(AfterReplies(ops, replies)[k], server)
  {
    var init, last := replies[..|replies| - 1], replies[|replies| - 1];
    var before := AfterReplies(ops, init);
    RepliesGrow(ops, init);
    FirstForSame(ops, before, ops[k].ls, ops[k].modeVersion);
    assert replies == init + [last];
    if last != Reply(ops[k].ls, ops[k].modeVersion, server, true) {
      ReplyIsRecorded(ops, init, k, server);
    }
  }

  // ---------------------------------------------------------------- passes

  lemma {:induction false} PassGrows(net: Network, ops: seq<ExecOp>, t: nat, i: nat, j: nat)
    requires i <= j <= |ops|
    ensures AllGrow(ExecTo(net, ops, t, i), ExecTo(net, ops, t, j))
    decreases j
  {
    hide Switched, Grows;
    if i < j {
      PassGrows(net, ops, t, i, j - 1);
      SwitchGrows(net, ExecTo(net, ops, t, j - 1), t, j - 1);
      GrowsOn(ExecTo(net, ops, t, i), ExecTo(net, ops, t, j - 1), ExecTo(net, ops, t, j));
    } else {
      SameGrows(ExecTo(net, ops, t, i));
    }
  }

  lemma SameGrows(ops: seq<ExecOp>)
    ensures AllGrow(ops, ops)
  {
  }

  /** The operators of a stage once the first i of pass t were switched. */
  ghost function StageAt(net: Network, modes: seq<ModeOp>, t0: nat, t: nat, i: nat): (ops: seq<ExecOp>)
    requires t0 <= t && i <= |modes|
    ensures |ops| == |modes|
  {
    ExecTo(net, ExecAt(net, modes, t0, t), t, i)
  }

  ghost predicate Before(u: nat, j: nat, t: nat, i: nat) { u < t || (u == t && j <= i) }

  lemma {:induction false} StageGrows(net: Network, modes: seq<ModeOp>, t0: nat, u: nat, j: nat, t: nat, i: nat)
    requires t0 <= u && j <= |modes| && i <= |modes| && Before(u, j, t, i)
    ensures AllGrow(StageAt(net, modes, t0, u, j), StageAt(net, modes, t0, t, i))
    decreases t - u
  {
    hide ExecTo, Grows, ExecAt;
    if u == t {
      PassGrows(net, ExecAt(net, modes, t0, u), u, j, i);
    } else {
      PassGrows(net, ExecAt(net, modes, t0, u), u, j, |modes|);
      NextPass(net, modes, t0, u);
      StageGrows(net, modes, t0, u + 1, 0, t, i);
      GrowsOn(StageAt(net, modes, t0, u, j), StageAt(net, modes, t0, u + 1, 0), StageAt(net, modes, t0, t, i));
    }
  }

  lemma NextPass(net: Network, modes: seq<ModeOp>, t0: nat, u: nat)
    requires t0 <= u
    ensures StageAt(net, modes, t0, u, |modes|) == ExecAt(net, modes, t0, u + 1) == StageAt(net, modes, t0, u + 1, 0)
  {
  }

  // ---------------------------------------------------------------- a stage

  /** No two operators have the same log stream and version. */
  ghost predicate OneEach(modes: seq<ModeOp>) {
    forall i, j | 0 <= i < j < |modes| :: !(modes[i].ls == modes[j].ls && modes[i].modeVersion == modes[j].modeVersion)
  }

  /** Operators keep the log stream and version they were made with. */
  lemma StageIds(net: Network, modes: seq<ModeOp>, t0: nat, t: nat, i: nat)
    requires t0 <= t && i <= |modes|
    ensures forall k | 0 <= k < |modes| ::
              StageAt(net, modes, t0, t, i)[k].ls == modes[k].ls && StageAt(net, modes, t0, t, i)[k].modeVersion == modes[k].modeVersion
  {
    hide ExecTo;
    StageGrows(net, modes, t0, t0, 0, t, i);
    NewIds(net, modes, t0);
  }

  lemma NewIds(net: Network, modes: seq<ModeOp>, t0: nat)
    ensures forall k | 0 <= k < |modes| ::
              StageAt(net, modes, t0, t0, 0)[k].ls == modes[k].ls && StageAt(net, modes, t0, t0, 0)[k].modeVersion == modes[k].modeVersion
  {
  }

  /** Operator k when it is switched in pass t, with the replies that arrived right before. */
  ghost function WhenSwitched(net: Network, modes: seq<ModeOp>, t0: nat, t: nat, k: nat): ExecOp
    requires t0 <= t && k < |modes|
  {
    AfterReplies(StageAt(net, modes, t0, t, k), net.replies(t, k))[k]
  }

  /** A valid reply of the server to operator k arrives from pass t1 on and before k is switched in pass t. */
  ghost predicate Answered(net: Network, modes: seq<ModeOp>, k: nat, server: nat, t1: nat, t: nat)
    requires k < |modes|
  {
    exists u: nat, j: nat :: t1 <= u && j < |modes| && Before(u, j, t, k) &&
                   Reply(modes[k].ls, modes[k].modeVersion, server, true) in net.replies(u, j)
  }

  lemma AnswerIsOnRecord(net: Network, modes: seq<ModeOp>, t0: nat, t1: nat, t: nat, k: nat, server: nat)
    requires t0 <= t1 <= t && k < |modes| && OneEach(modes) && ValidLs(modes[k].ls)
    requires ExecAt(net, modes, t0, t1)[k].hasMemberList && Answered(net, modes, k, server, t1, t)
    ensures OnRecord(WhenSwitched(net, modes, t0, t, k), server)
  {
    hide AfterReplies, ExecTo, ExecAt, Switched, OnRecord;
    var u: nat, j: nat :| t1 <= u && j < |modes| && Before(u, j, t, k) &&
                Reply(modes[k].ls, modes[k].modeVersion, server, true) in net.replies(u, j);
    var ops := StageAt(net, modes, t0, u, j);
    StageIds(net, modes, t0, u, j);
    RecordedBy(net, modes, t0, t1, u, j, k);
    assert FirstFor(ops, ops[k].ls, ops[k].modeVersion) == k;
    ReplyIsRecorded(ops, net.replies(u, j), k, server);
    if (u, j) != (t, k) {
      KeptUntil(net, modes, t0, u, j, t, k, server);
    }
  }

  lemma RecordedBy(net: Network, modes: seq<ModeOp>, t0: nat, t1: nat, u: nat, j: nat, k: nat)
    requires t0 <= t1 <= u && j <= |modes| && k < |modes| && ExecAt(net, modes, t0, t1)[k].hasMemberList
    ensures StageAt(net, modes, t0, u, j)[k].hasMemberList
  {
    StageGrows(net, modes, t0, t1, 0, u, j);
    assert StageAt(net, modes, t0, t1, 0) == ExecAt(net, modes, t0, t1);
    hide ExecTo, ExecAt;
  }

  lemma KeptUntil(net: Network, modes: seq<ModeOp>, t0: nat, u: nat, j: nat, t: nat, k: nat, server: nat)
    requires t0 <= u && j < |modes| && k < |modes| && Before(u, j, t, k) && (u, j) != (t, k)
    requires OnRecord(AfterReplies(StageAt(net, modes, t0, u, j), net.replies(u, j))[k], server)
    ensures OnRecord(WhenSwitched(net, modes, t0, t, k), server)
  {
    var ops := StageAt(net, modes, t0, u, j);
    var next := StageAt(net, modes, t0, u, j + 1);
    assert next == Switched(net, ops, u, j);
    hide AfterReplies, ExecTo, ExecAt, Switched, OnRecord;
    SwitchGrows(net, ops, u, j);
    OnRecordStays(AfterReplies(ops, net.replies(u, j))[k], next[k], server);
    StageGrows(net, modes, t0, u, j + 1, t, k);
    var last := StageAt(net, modes, t0, t, k);
    OnRecordStays(next[k], last[k], server);
    RepliesGrow(last, net.replies(t, k));
    OnRecordStays(last[k], AfterReplies(last, net.replies(t, k))[k], server);
  }

  /** What an operator returned in a pass stays until the pass is over. */
  lemma {:induction false} RetStays(net: Network, ops: seq<ExecOp>, t: nat, k: nat, i: nat)
    requires k < i <= |ops|
    ensures ExecTo(net, ops, t, i)[k].ret ==
            ExecStep(net, AfterReplies(ExecTo(net, ops, t, k), net.replies(t, k))[k], t).ret
    decreases i
  {
    hide AfterReplies, ExecStep;
    if k + 1 < i {
      RetStays(net, ops, t, k, i - 1);
      RepliesKeepRet(ExecTo(net, ops, t, i - 1), net.replies(t, i - 1));
    }
  }

  lemma SwitchedOk(net: Network, modes: seq<ModeOp>, t0: nat, t: nat, k: nat)
    requires t0 <= t && k < |modes|
    ensures ExecOk(net, WhenSwitched(net, modes, t0, t, k), t0, t)
  {
    hide ExecOk, ExecTo, ExecAt, AfterReplies;
    StageOk(net, modes, t0, t);
    PassOk(net, ExecAt(net, modes, t0, t), t0, t, k);
    RepliesOk(net, StageAt(net, modes, t0, t, k), net.replies(t, k), t0, t, k);
  }

  lemma SwitchedLists(net: Network, modes: seq<ModeOp>, t0: nat, t1: nat, t: nat, k: nat)
    requires t0 <= t1 <= t && k < |modes| && ExecAt(net, modes, t0, t1)[k].hasMemberList
    ensures var op, o := ExecAt(net, modes, t0, t1)[k], WhenSwitched(net, modes, t0, t, k);
            o.hasMemberList && o.members == op.members && o.learners == op.learners && o.ls == op.ls == modes[k].ls
  {
    var last := StageAt(net, modes, t0, t, k);
    StageGrows(net, modes, t0, t1, 0, t, k);
    assert StageAt(net, modes, t0, t1, 0) == ExecAt(net, modes, t0, t1);
    StageIds(net, modes, t0, t1, 0);
    hide AfterReplies, ExecTo, ExecAt;
    RepliesGrow(last, net.replies(t, k));
  }

  /** Once an operator has its lists, no server being on both, and every server on them has answered it, it
      succeeds in that pass. */
  lemma OperatorSucceeds(net: Network, modes: seq<ModeOp>, t0: nat, t1: nat, t: nat, k: nat)
    requires t0 <= t1 <= t && k < |modes| && OneEach(modes) && ValidLs(modes[k].ls)
    requires var op := ExecAt(net, modes, t0, t1)[k];
             && op.hasMemberList && (forall s | s in op.members :: s !in op.learners)
             && (forall s | s in op.members || s in op.learners :: Answered(net, modes, k, s, t1, t))
    ensures ExecAt(net, modes, t0, t + 1)[k].ret.Success?
  {
    var op, o := ExecAt(net, modes, t0, t1)[k], WhenSwitched(net, modes, t0, t, k);
    hide AfterReplies, ExecTo, WhenSwitched, Answered;
    SwitchedOk(net, modes, t0, t, k);
    SwitchedLists(net, modes, t0, t1, t, k);
    forall s | s in op.members || s in op.learners ensures OnRecord(o, s) {
      AnswerIsOnRecord(net, modes, t0, t1, t, k, s);
    }
    assert ExecStep(net, o, t).ret.Success?;
    PassRet(net, modes, t0, t, k);
  }

  lemma PassRet(net: Network, modes: seq<ModeOp>, t0: nat, t: nat, k: nat)
    requires t0 <= t && k < |modes|
    ensures ExecAt(net, modes, t0, t + 1)[k].ret == ExecStep(net, WhenSwitched(net, modes, t0, t, k), t).ret
  {
    RetStays(net, ExecAt(net, modes, t0, t), t, k, |modes|);
  }

  /** Every operator has its lists before pass `since(k)` begins, no server being on both, and every server on
      them answers it from then on and before it is switched in pass t. */
  ghost predicate AllAnswered(net: Network, modes: seq<ModeOp>, t0: nat, since: nat -> nat, t: nat) {
    forall k | 0 <= k < |modes| ::
      && t0 <= since(k) <= t && ExecAt(net, modes, t0, since(k))[k].hasMemberList
      && (forall s | s in ExecAt(net, modes, t0, since(k))[k].members :: s !in ExecAt(net, modes, t0, since(k))[k].learners)
      && (forall s | s in ExecAt(net, modes, t0, since(k))[k].members || s in ExecAt(net, modes, t0, since(k))[k].learners ::
            Answered(net, modes, k, s, since(k), t))
  }

  /** Then the pass succeeds, and a stage that has time for it does not fail. */
  lemma PassSucceeds(net: Network, modes: seq<ModeOp>, t0: nat, since: nat -> nat, t: nat, passes: nat)
    requires t0 <= t < t0 + passes && OneEach(modes) && (forall m | m in modes :: ValidLs(m.ls))
    requires AllAnswered(net, modes, t0, since, t)
    ensures ExecPass(net, modes, t0, t) && !NoExecPass(net, modes, t0, passes)
  {
    hide ExecAt, Answered;
    var ops := ExecAt(net, modes, t0, t + 1);
    forall k | 0 <= k < |ops| ensures ops[k].ret.Success? {
      assert modes[k] in modes;
      OperatorSucceeds(net, modes, t0, since(k), t, k);
    }
    assert ExecPass(net, modes, t0, t);
  }

  /** An operator has its lists after a pass in which its leader is located and answers. */
  lemma ListsAreRecorded(net: Network, modes: seq<ModeOp>, t0: nat, t: nat, k: nat)
    requires t0 <= t && k < |modes| && ValidLs(modes[k].ls)
    requires net.located(modes[k].ls, t) && net.leader(modes[k].ls, t).Some?
    ensures ExecAt(net, modes, t0, t + 1)[k].hasMemberList
  {
    StageIds(net, modes, t0, t, k);
    var ops := StageAt(net, modes, t0, t, k);
    RepliesGrow(ops, net.replies(t, k));
    assert StageAt(net, modes, t0, t, k + 1)[k].hasMemberList;
    hide AfterReplies, ExecTo;
    StageGrows(net, modes, t0, t, k + 1, t, |modes|);
    NextPass(net, modes, t0, t);
  }
}
