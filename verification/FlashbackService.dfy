/** ObLogFlashbackService: the four stages of a flashback over all log streams of a tenant. Timeouts are
    the number of passes a stage gets before its time is up. */
module FlashbackServices {
  import opened FlashbackNetwork
  import opened FlashbackOperators

  /** The log streams that get an operator. */
  function ValidOnly(ls: seq<int>): seq<int> {
    if ls == [] then []
    else ValidOnly(ls[..|ls| - 1]) + if ValidLs(ls[|ls| - 1]) then [ls[|ls| - 1]] else []
  }

  /** Builds the operator list. The return code of an invalid log stream is overwritten by the next valid
      one, so only the last one decides. */
  method ConstructLsOperatorList(lsArray: seq<int>) returns (ret: Ret, ls: seq<int>)
    ensures ls == ValidOnly(lsArray)
    ensures ret == if lsArray == [] || ValidLs(lsArray[|lsArray| - 1]) then Success else Unexpected
  {
    ret, ls := Success, [];
    for i := 0 to |lsArray|
      invariant ls == ValidOnly(lsArray[..i])
      invariant ret == if i == 0 || ValidLs(lsArray[i - 1]) then Success else Unexpected
    {
      assert lsArray[..i + 1][..i] == lsArray[..i];
      if ValidLs(lsArray[i]) {
        ret, ls := Success, ls + [lsArray[i]];
      } else {
        ret := Unexpected;
      }
    }
    assert lsArray[..|lsArray|] == lsArray;
  }

  lemma {:induction false} ValidOnlyAll(ls: seq<int>)
    ensures ValidOnly(ls) == ls <==> forall l | l in ls :: ValidLs(l)
    ensures |ValidOnly(ls)| <= |ls| && forall l | l in ValidOnly(ls) :: ValidLs(l) && l in ls
  {
    if ls != [] {
      var init := ls[..|ls| - 1];
      ValidOnlyAll(init);
      assert ls == init + [ls[|ls| - 1]];
    }
  }

  /** Every log stream gets an operator, and the list is accepted, exactly when all ids are valid; an
      invalid id that is not the last is dropped without an error. */
  lemma CoversAllExactly(lsArray: seq<int>)
    ensures -1 !in lsArray <==> ValidOnly(lsArray) == lsArray
    ensures -1 !in lsArray ==> lsArray == [] || ValidLs(lsArray[|lsArray| - 1])
  {
    ValidOnlyAll(lsArray);
  }

  lemma InvalidIdIsDropped()
    ensures ValidOnly([-1, 1]) == [1] && ValidLs([-1, 1][1])
  {
    assert [-1, 1][..1] == [-1];
    assert ValidOnly([-1]) == ValidOnly([]);
  }

  // ---------------------------------------------------------------- a stage

  /** The operators before pass t of a stage that began with t0. */
  function OpsAt(net: Network, ls: seq<int>, goal: Goal, t0: nat, t: nat): (ops: seq<LsOp>)
    requires t0 <= t
    ensures |ops| == |ls| && forall i | 0 <= i < |ls| :: IsFor(ops[i], ls[i], goal)
  {
    seq(|ls|, i requires 0 <= i < |ls| => OpAt(net, ls[i], goal, t0, t))
  }

  lemma OpsAtNext(net: Network, ls: seq<int>, goal: Goal, t0: nat, t: nat, next: seq<LsOp>)
    requires t0 <= t && |next| == |ls|
    requires forall i | 0 <= i < |ls| :: next[i] == OpStep(net, OpsAt(net, ls, goal, t0, t)[i], t)
    ensures next == OpsAt(net, ls, goal, t0, t + 1)
  {
  }

  lemma OpsAtValid(net: Network, ls: seq<int>, goal: Goal, t0: nat, t: nat)
    requires t0 <= t && forall l | l in ls :: ValidLs(l)
    ensures forall op | op in OpsAt(net, ls, goal, t0, t) :: ValidLs(op.Ls())
  {
    forall op | op in OpsAt(net, ls, goal, t0, t) ensures ValidLs(op.Ls()) {
      var i :| 0 <= i < |ls| && OpsAt(net, ls, goal, t0, t)[i] == op;
      assert ls[i] in ls;
    }
  }

  predicate AllSucceed(ops: seq<LsOp>) { forall op | op in ops :: op.Ret().Success? }

  /** Every operator succeeds in pass t of a stage that began with t0. */
  predicate Pass(net: Network, ls: seq<int>, goal: Goal, t0: nat, t: nat)
    requires t0 <= t
  {
    AllSucceed(OpsAt(net, ls, goal, t0, t + 1))
  }

  /** The operator at k is the first with an invalid id. */
  predicate FirstInvalid(ops: seq<LsOp>, k: nat) {
    k < |ops| && ops[k].Ls() == -1 && forall i | 0 <= i < k :: ops[i].Ls() != -1
  }

  /** None of the first `passes` passes succeeds. */
  predicate NoPass(net: Network, ls: seq<int>, goal: Goal, t0: nat, passes: nat) {
    forall u | t0 <= u < t0 + passes :: !Pass(net, ls, goal, t0, u)
  }

  /** One pass. It succeeds exactly when every operator succeeded in it; an invalid operator would end it. */
  method MotivateOnce(net: Network, ops: seq<LsOp>, t: nat) returns (ret: Ret, next: seq<LsOp>)
    ensures |next| == |ops|
    ensures (forall op | op in ops :: ValidLs(op.Ls())) ==>
              (forall i | 0 <= i < |ops| :: next[i] == OpStep(net, ops[i], t)) && (ret.Success? <==> AllSucceed(next))
    ensures forall k: nat | FirstInvalid(ops, k) ::
              && (forall i | 0 <= i < k :: next[i] == OpStep(net, ops[i], t)) && next[k..] == ops[k..]
              && ret == if AllSucceed(next[..k]) then Unexpected else Again
    ensures (forall op | op in ops :: ValidLs(op.Ls())) ==> ret.Success? || ret.Again?
  {
    hide ModeStep, SyncStep;
    ret, next := Success, ops;
    var allSuccess, i := true, 0;
    while i < |ops|
      invariant i <= |ops| == |next| && (ret.Success? || ret.Again?) && (allSuccess ==> ret.Success?)
      invariant forall j | 0 <= j < i :: ValidLs(ops[j].Ls()) && next[j] == OpStep(net, ops[j], t)
      invariant forall j | i <= j < |ops| :: next[j] == ops[j]
      invariant allSuccess <==> forall j | 0 <= j < i :: next[j].Ret().Success?
    {
      if !ValidLs(next[i].Ls()) {
        ret := if allSuccess then Unexpected else Again;
        assert FirstInvalid(ops, i) && forall k: nat | FirstInvalid(ops, k) :: k == i;
        assert forall j | 0 <= j < i :: next[..i][j] == next[j];
        return;
      }
      var op;
      ret, op := SwitchState(net, next[i], t);
      StepRet(net, next[i], t);
      next := next[i := op];
      if ret.Again? {
        allSuccess := false;
      }
      i := i + 1;
    }
    if !allSuccess {
      ret := Again;
    }
  }

  lemma StepRet(net: Network, op: LsOp, t: nat)
    requires ValidLs(op.Ls())
    ensures OpStep(net, op, t).Ret().Success? || OpStep(net, op, t).Ret().Again?
  {
  }

  lemma OpsAtStart(net: Network, ls: seq<int>, goal: Goal, t0: nat)
    ensures OpsAt(net, ls, goal, t0, t0) == seq(|ls|, i requires 0 <= i < |ls| => NewOp(ls[i], goal))
    ensures NoPass(net, ls, goal, t0, 0)
  {
  }

  lemma NoPassMore(net: Network, ls: seq<int>, goal: Goal, t0: nat, passes: nat)
    requires NoPass(net, ls, goal, t0, passes) && !Pass(net, ls, goal, t0, t0 + passes)
    ensures NoPass(net, ls, goal, t0, passes + 1)
  {
  }

  /** A pass of the stage. */
  method OnePass(net: Network, ghost ls: seq<int>, ghost goal: Goal, ghost t0: nat, t: nat, ops: seq<LsOp>)
    returns (ret: Ret, next: seq<LsOp>)
    requires t0 <= t && ops == OpsAt(net, ls, goal, t0, t) && forall l | l in ls :: ValidLs(l)
    ensures next == OpsAt(net, ls, goal, t0, t + 1) && (ret.Success? <==> Pass(net, ls, goal, t0, t))
  {
    hide OpStep;
    OpsAtValid(net, ls, goal, t0, t);
    ret, next := MotivateOnce(net, ops, t);
    OpsAtNext(net, ls, goal, t0, t, next);
  }

  /** Passes follow until one succeeds or the time is up, also after an error. `t` is the last pass made. */
  method RunStage(net: Network, lsArray: seq<int>, goal: Goal, t0: nat, passes: nat)
    returns (ret: Ret, ops: seq<LsOp>, t: nat)
    ensures ret.Success? || ret.Unexpected? || ret.Timeout?
    ensures ret.Unexpected? <==> lsArray != [] && !ValidLs(lsArray[|lsArray| - 1])
    ensures ret.Success? ==>
              && t0 <= t < t0 + passes && ops == OpsAt(net, ValidOnly(lsArray), goal, t0, t + 1)
              && Pass(net, ValidOnly(lsArray), goal, t0, t) && NoPass(net, ValidOnly(lsArray), goal, t0, t - t0)
    ensures ret.Timeout? ==> NoPass(net, ValidOnly(lsArray), goal, t0, passes)
  {
    hide *;
    var ls;
    ret, ls := ConstructLsOperatorList(lsArray);
    ValidOnlyAll(lsArray);
    t := t0;
    ops := seq(|ls|, i requires 0 <= i < |ls| => NewOp(ls[i], goal));
    if !ret.Success? {
      return;
    }
    OpsAtStart(net, ls, goal, t0);
    while t < t0 + passes
      invariant t0 <= t <= t0 + passes && ops == OpsAt(net, ls, goal, t0, t)
      invariant NoPass(net, ls, goal, t0, t - t0)
    {
      ret, ops := OnePass(net, ls, goal, t0, t, ops);
      if ret.Success? {
        return;
      }
      NoPassMore(net, ls, goal, t0, t - t0);
      t := t + 1;
    }
    ret := Timeout;
  }

  // ---------------------------------------------------------------- stages 1 and 3

  function ModesAt(net: Network, ls: seq<int>, dst: Mode, t0: nat, t: nat): (modes: seq<ModeOp>)
    requires t0 <= t
    ensures |modes| == |ls| && forall i | 0 <= i < |ls| :: modes[i].ls == ls[i]
  {
    seq(|ls|, i requires 0 <= i < |ls| => OpAt(net, ls[i], ToMode(dst), t0, t).mode)
  }

  method GetAndChangeAccessMode(net: Network, lsArray: seq<int>, dst: Mode, t0: nat, passes: nat)
    returns (ret: Ret, modes: seq<ModeOp>, t: nat)
    ensures ret.Success? || ret.Unexpected? || ret.Timeout?
    ensures ret.Unexpected? <==> lsArray != [] && !ValidLs(lsArray[|lsArray| - 1])
    ensures ret.Success? ==>
              && t0 <= t < t0 + passes && modes == ModesAt(net, ValidOnly(lsArray), dst, t0, t + 1)
              && Pass(net, ValidOnly(lsArray), ToMode(dst), t0, t) && NoPass(net, ValidOnly(lsArray), ToMode(dst), t0, t - t0)
    ensures ret.Timeout? ==> NoPass(net, ValidOnly(lsArray), ToMode(dst), t0, passes)
  {
    hide OpAt, Pass, NoPass, ValidOnly;
    var ops;
    ret, ops, t := RunStage(net, lsArray, ToMode(dst), t0, passes);
    modes := [];
    if ret.Success? {
      modes := seq(|ops|, i requires 0 <= i < |ops| => ops[i].mode);
    }
  }

  /** A successful pass saw every leader in the mode, and recorded its version. */
  lemma ModesMeaning(net: Network, ls: seq<int>, dst: Mode, t0: nat, t: nat)
    requires t0 <= t && Pass(net, ls, ToMode(dst), t0, t)
    ensures forall i | 0 <= i < |ls| ::
              SeenIn(net, ls[i], dst, t)
              && ModesAt(net, ls, dst, t0, t + 1)[i].modeVersion == VersionSeen(net, ls[i], t)
  {
    forall i | 0 <= i < |ls|
      ensures SeenIn(net, ls[i], dst, t)
      ensures ModesAt(net, ls, dst, t0, t + 1)[i].modeVersion == VersionSeen(net, ls[i], t)
    {
      var ops := OpsAt(net, ls, ToMode(dst), t0, t + 1);
      assert ops[i] in ops;
      ModeExactly(net, OpAt(net, ls[i], ToMode(dst), t0, t).mode, t);
    }
  }

  // ---------------------------------------------------------------- stage 2

  method WaitAllLsReplicasLogSync(net: Network, lsArray: seq<int>, scn: nat, t0: nat, passes: nat)
    returns (ret: Ret, ops: seq<LsOp>, t: nat)
    ensures ret.Success? || ret.Unexpected? || ret.OpNotAllow?
    ensures ret.Unexpected? <==> lsArray != [] && !ValidLs(lsArray[|lsArray| - 1])
    ensures ret.Success? ==>
              && t0 <= t < t0 + passes && ops == OpsAt(net, ValidOnly(lsArray), ToScn(scn), t0, t + 1)
              && Pass(net, ValidOnly(lsArray), ToScn(scn), t0, t) && NoPass(net, ValidOnly(lsArray), ToScn(scn), t0, t - t0)
    ensures ret.OpNotAllow? ==> NoPass(net, ValidOnly(lsArray), ToScn(scn), t0, passes)
  {
    hide *;
    ret, ops, t := RunStage(net, lsArray, ToScn(scn), t0, passes);
    if ret.Timeout? {
      ret := OpNotAllow;
    }
  }

  /** In a successful pass every log stream passes. */
  lemma SyncsMeaning(net: Network, ls: seq<int>, scn: nat, t0: nat, t: nat)
    requires t0 <= t && Pass(net, ls, ToScn(scn), t0, t)
    ensures forall l | l in ls :: PassesIn(net, l, scn, t0, t)
  {
    hide PassesIn, OpAt;
    forall l | l in ls ensures PassesIn(net, l, scn, t0, t) {
      var i :| 0 <= i < |ls| && ls[i] == l;
      var ops := OpsAt(net, ls, ToScn(scn), t0, t + 1);
      assert ops[i] in ops;
      SyncAtOk(net, l, scn, t0, t);
    }
  }
}

/** Stage 4, in which replies arrive on other threads at any time, and the whole operation. */
module FlashbackExecution {
  import opened Common
  import opened FlashbackNetwork
  import opened FlashbackOperators
  import opened FlashbackServices

  // ---------------------------------------------------------------- replies and passes

  /** The position of the first operator with this log stream and mode version; the length if there is none. */
  function FirstFor(ops: seq<ExecOp>, ls: int, version: int): (k: nat)
    ensures k <= |ops| && (k < |ops| ==> ops[k].ls == ls && ops[k].modeVersion == version)
    ensures forall j | 0 <= j < k :: !(ops[j].ls == ls && ops[j].modeVersion == version)
  {
    if ops == [] then 0
    else if ops[0].ls == ls && ops[0].modeVersion == version then 0
    else 1 + FirstFor(ops[1..], ls, version)
  }

  /** A reply counts for that operator and no other. */
  function AfterReply(ops: seq<ExecOp>, r: Reply): (next: seq<ExecOp>)
    ensures |next| == |ops|
  {
    var k := FirstFor(ops, r.ls, r.version);
    if k < |ops| then ops[k := Acknowledge(ops[k], r.server, r.valid)] else ops
  }

  function AfterReplies(ops: seq<ExecOp>, replies: seq<Reply>): (next: seq<ExecOp>)
    ensures |next| == |ops|
  {
    if replies == [] then ops
    else AfterReply(AfterReplies(ops, replies[..|replies| - 1]), replies[|replies| - 1])
  }

  /** The operators once the first i of pass t were switched. */
  function ExecTo(net: Network, ops: seq<ExecOp>, t: nat, i: nat): (next: seq<ExecOp>)
    requires i <= |ops|
    ensures |next| == |ops|
  {
    if i == 0 then ops
    else Switched(net, ExecTo(net, ops, t, i - 1), t, i - 1)
  }

  function NewExecOp(m: ModeOp): ExecOp { ExecOp(m.ls, false, m.modeVersion, false, [], [], {}, {}, NotInit) }

  function NewExecOps(modes: seq<ModeOp>): seq<ExecOp> {
    seq(|modes|, i requires 0 <= i < |modes| => NewExecOp(modes[i]))
  }

  /** The operators before pass t of a stage that began with t0. */
  function ExecAt(net: Network, modes: seq<ModeOp>, t0: nat, t: nat): (ops: seq<ExecOp>)
    requires t0 <= t
    ensures |ops| == |modes|
    decreases t
  {
    if t == t0 then NewExecOps(modes) else ExecTo(net, ExecAt(net, modes, t0, t - 1), t - 1, |modes|)
  }

  predicate ExecsSucceed(ops: seq<ExecOp>) { forall op | op in ops :: op.ret.Success? }

  predicate ExecPass(net: Network, modes: seq<ModeOp>, t0: nat, t: nat)
    requires t0 <= t
  {
    ExecsSucceed(ExecAt(net, modes, t0, t + 1))
  }

  predicate NoExecPass(net: Network, modes: seq<ModeOp>, t0: nat, passes: nat) {
    forall u | t0 <= u < t0 + passes :: !ExecPass(net, modes, t0, u)
  }

  lemma NoExecPassMore(net: Network, modes: seq<ModeOp>, t0: nat, passes: nat)
    requires NoExecPass(net, modes, t0, passes) && !ExecPass(net, modes, t0, t0 + passes)
    ensures NoExecPass(net, modes, t0, passes + 1)
  {
  }

  /** The requests added were all sent in pass t or later. */
  ghost predicate SentSince(before: seq<Request>, now: seq<Request>, t: nat) {
    before <= now && forall m | m in now[|before|..] :: t <= m.t
  }

  lemma SentSinceMore(a: seq<Request>, b: seq<Request>, c: seq<Request>, t0: nat, t: nat)
    requires t0 <= t && SentSince(a, b, t0) && SentSince(b, c, t)
    ensures SentSince(a, c, t0)
  {
    assert c[|a|..] == b[|a|..] + c[|b|..];
  }

  /** Everyone on the operator's lists who has not acknowledged was sent a request in pass t, with the operator's
      log stream and version. */
  ghost predicate Asked(op: ExecOp, sent: seq<Request>, t: nat) {
    op.hasLeader && op.hasMemberList ==>
      && (forall s | s in op.members && s !in op.doneMembers :: Request(t, op.ls, s, op.modeVersion) in sent)
      && (forall s | s in op.learners && s !in op.doneLearners :: Request(t, op.ls, s, op.modeVersion) in sent)
  }

  ghost predicate AllAsked(ops: seq<ExecOp>, sent: seq<Request>, t: nat) {
    forall j | 0 <= j < |ops| :: Asked(ops[j], sent, t)
  }

  /** The request is to a server on the operator's lists, with its log stream and version. */
  ghost predicate IsOf(m: Request, op: ExecOp) {
    && m.ls == op.ls && m.version == op.modeVersion && op.hasMemberList
    && (m.server in op.members || m.server in op.learners)
  }

  ghost predicate IsOfSome(m: Request, ops: seq<ExecOp>) { exists j :: 0 <= j < |ops| && IsOf(m, ops[j]) }

  /** The requests added are all of that kind. */
  ghost predicate SentFor(before: seq<Request>, now: seq<Request>, ops: seq<ExecOp>) {
    before <= now && forall m | m in now[|before|..] :: IsOfSome(m, ops)
  }

  /** What switching an operator in pass t adds. */
  ghost predicate SentBy(before: seq<Request>, now: seq<Request>, op: ExecOp, t: nat) {
    && before <= now && (forall m | m in now[|before|..] :: m.t == t && IsOf(m, op))
    && (ValidLs(op.ls) ==> Asked(op, now, t))
  }

  /** What the first i operators of pass t added. */
  ghost predicate Sending(had: seq<Request>, sent: seq<Request>, ops: seq<ExecOp>, t: nat, i: nat) {
    && SentSince(had, sent, t) && SentFor(had, sent, ops) && i <= |ops|
    && forall j | 0 <= j < i :: Asked(ops[j], sent, t)
  }

  /** What the passes from t0 up to t added. */
  ghost predicate StageSending(net: Network, modes: seq<ModeOp>, t0: nat, t: nat, had: seq<Request>, sent: seq<Request>)
    requires t0 <= t
  {
    && SentSince(had, sent, t0) && SentFor(had, sent, ExecAt(net, modes, t0, t))
    && forall u | t0 <= u < t :: PassAsked(net, modes, t0, u, sent)
  }

  ghost predicate PassAsked(net: Network, modes: seq<ModeOp>, t0: nat, u: nat, sent: seq<Request>)
    requires t0 <= u
  {
    AllAsked(ExecAt(net, modes, t0, u + 1), sent, u)
  }

  lemma SentForGrown(before: seq<Request>, now: seq<Request>, ops: seq<ExecOp>, next: seq<ExecOp>)
    requires SentFor(before, now, ops) && AllGrow(ops, next)
    ensures SentFor(before, now, next)
  {
    forall m | m in now[|before|..] ensures IsOfSome(m, next) {
      var j :| 0 <= j < |ops| && IsOf(m, ops[j]);
      assert IsOf(m, next[j]);
    }
  }

  lemma SentForMore(a: seq<Request>, b: seq<Request>, c: seq<Request>, ops: seq<ExecOp>)
    requires SentFor(a, b, ops) && SentFor(b, c, ops)
    ensures SentFor(a, c, ops)
  {
    assert c[|a|..] == b[|a|..] + c[|b|..];
  }

  lemma AskedStays(op: ExecOp, next: ExecOp, before: seq<Request>, now: seq<Request>, t: nat)
    requires Asked(op, before, t) && before <= now && Grows(op, next)
    requires next.hasLeader == op.hasLeader && next.hasMemberList == op.hasMemberList
    ensures Asked(next, now, t)
  {
    assert forall m | m in before :: m in now;
  }

  /** One more operator of the pass. */
  lemma SendingNext(net: Network, had: seq<Request>, before: seq<Request>, now: seq<Request>, ops: seq<ExecOp>, t: nat, i: nat)
    requires i < |ops| && ValidLs(ops[i].ls) && Sending(had, before, ops, t, i)
    requires SentBy(before, now, Switched(net, ops, t, i)[i], t)
    ensures Sending(had, now, Switched(net, ops, t, i), t, i + 1)
  {
    var next := Switched(net, ops, t, i);
    SwitchGrows(net, ops, t, i);
    RepliesKeepRet(ops, net.replies(t, i));
    assert forall j | 0 <= j < |ops| && j != i ::
        next[j].hasLeader == ops[j].hasLeader && next[j].hasMemberList == ops[j].hasMemberList;
    hide Switched, Asked, Grows;
    SentForGrown(had, before, ops, next);
    assert forall m | m in now[|before|..] :: IsOf(m, next[i]);
    SentForMore(had, before, now, next);
    SentSinceMore(had, before, now, t, t);
    assert next[i].ls == ops[i].ls by {
      GrowsIds(ops[i], next[i]);
    }
    forall j | 0 <= j < i ensures Asked(next[j], now, t) {
      AskedStays(ops[j], next[j], before, now, t);
    }
  }

  lemma GrowsIds(a: ExecOp, b: ExecOp)
    requires Grows(a, b)
    ensures a.ls == b.ls && a.modeVersion == b.modeVersion
  {
  }

  lemma AskedMore(ops: seq<ExecOp>, before: seq<Request>, now: seq<Request>, t: nat)
    requires AllAsked(ops, before, t) && before <= now
    ensures AllAsked(ops, now, t)
  {
    assert forall m | m in before :: m in now;
  }

  /** One more pass of the stage. */
  lemma StageSendingNext(net: Network, modes: seq<ModeOp>, t0: nat, t: nat, had: seq<Request>, before: seq<Request>, now: seq<Request>)
    requires t0 <= t && StageSending(net, modes, t0, t, had, before)
    requires Sending(before, now, ExecAt(net, modes, t0, t + 1), t, |modes|)
    ensures StageSending(net, modes, t0, t + 1, had, now)
  {
    StageOk(net, modes, t0, t);
    hide ExecAt, Asked, Grows;
    SentForGrown(had, before, ExecAt(net, modes, t0, t), ExecAt(net, modes, t0, t + 1));
    SentForMore(had, before, now, ExecAt(net, modes, t0, t + 1));
    SentSinceMore(had, before, now, t0, t);
    forall u | t0 <= u < t + 1 ensures PassAsked(net, modes, t0, u, now) {
      if u < t {
        assert PassAsked(net, modes, t0, u, before);
        AskedMore(ExecAt(net, modes, t0, u + 1), before, now, u);
      }
    }
  }

  lemma StageSendingStart(net: Network, modes: seq<ModeOp>, t0: nat, had: seq<Request>)
    ensures StageSending(net, modes, t0, t0, had, had)
  {
  }

  // ---------------------------------------------------------------- acknowledgements

  ghost predicate AllOk(net: Network, ops: seq<ExecOp>, t0: nat, t: nat) {
    forall i | 0 <= i < |ops| :: ExecOk(net, ops[i], t0, t)
  }

  ghost predicate AllGrow(ops: seq<ExecOp>, next: seq<ExecOp>) {
    |ops| == |next| && forall i | 0 <= i < |ops| :: Grows(ops[i], next[i])
  }

  /** An operator that reports success has all acknowledgements. */
  ghost predicate SuccessIsFull(net: Network, op: ExecOp, t0: nat, t: nat) {
    op.ret.Success? ==> FullyAcknowledged(net, op, t0, t)
  }

  ghost predicate AllFull(net: Network, ops: seq<ExecOp>, t0: nat, t: nat) {
    forall i | 0 <= i < |ops| :: SuccessIsFull(net, ops[i], t0, t)
  }

  lemma {:induction false} RepliesOk(net: Network, ops: seq<ExecOp>, replies: seq<Reply>, t0: nat, t: nat, i: nat)
    requires t0 <= t && AllOk(net, ops, t0, t) && forall r | r in replies :: r in net.replies(t, i)
    ensures AllOk(net, AfterReplies(ops, replies), t0, t) && AllGrow(ops, AfterReplies(ops, replies))
    ensures forall j | 0 <= j < |ops| && SuccessIsFull(net, ops[j], t0, t) ::
              SuccessIsFull(net, AfterReplies(ops, replies)[j], t0, t)
    decreases |replies|
  {
    if replies != [] {
      var r := replies[|replies| - 1];
      var before := AfterReplies(ops, replies[..|replies| - 1]);
      RepliesOk(net, ops, replies[..|replies| - 1], t0, t, i);
      var k := FirstFor(before, r.ls, r.version);
      if k < |before| {
        ExecOkReply(net, before[k], r, t0, t, i);
      }
    }
  }

  lemma {:induction false} PassOk(net: Network, ops: seq<ExecOp>, t0: nat, t: nat, i: nat)
    requires t0 <= t && i <= |ops| && AllOk(net, ops, t0, t)
    ensures AllOk(net, ExecTo(net, ops, t, i), t0, t) && AllGrow(ops, ExecTo(net, ops, t, i))
    ensures forall j | 0 <= j < i :: SuccessIsFull(net, ExecTo(net, ops, t, i)[j], t0, t)
    decreases i
  {
    hide Acknowledge, ExecStep, ExecOk, FullyAcknowledged;
    if 0 < i {
      PassOk(net, ops, t0, t, i - 1);
      var mid := ExecTo(net, ops, t, i - 1);
      RepliesOk(net, mid, net.replies(t, i - 1), t0, t, i - 1);
      ExecOkStep(net, AfterReplies(mid, net.replies(t, i - 1))[i - 1], t0, t);
    }
  }

  /** In every stage, whatever replies arrive or are lost: acknowledged sets stay inside the recorded lists,
      which are the leaders', and an operator that succeeds in a pass has the acknowledgement of every server
      on them. */
  lemma {:induction false} StageOk(net: Network, modes: seq<ModeOp>, t0: nat, t: nat)
    requires t0 <= t
    ensures AllOk(net, ExecAt(net, modes, t0, t), t0, t)
    ensures AllOk(net, ExecAt(net, modes, t0, t + 1), t0, t) && AllGrow(ExecAt(net, modes, t0, t), ExecAt(net, modes, t0, t + 1))
    ensures AllFull(net, ExecAt(net, modes, t0, t + 1), t0, t)
    ensures forall i | 0 <= i < |modes| ::
              ExecAt(net, modes, t0, t + 1)[i].ls == modes[i].ls && ExecAt(net, modes, t0, t + 1)[i].modeVersion == modes[i].modeVersion
    decreases t
  {
    hide ExecTo, FullyAcknowledged;
    if t0 < t {
      StageOk(net, modes, t0, t - 1);
      forall i | 0 <= i < |modes| ensures ExecOk(net, ExecAt(net, modes, t0, t)[i], t0, t) {
        ExecOkLater(net, ExecAt(net, modes, t0, t)[i], t0, t - 1);
      }
    }
    PassOk(net, ExecAt(net, modes, t0, t), t0, t, |modes|);
  }

  datatype Tenant = Invalid | Sys | Meta | User

  class FlashbackService {
    var inited: bool
    var busy: bool
    var ops: seq<ExecOp>
    /** The requests handed to the network. */
    var sent: seq<Request>

    constructor ()
      ensures !inited && !busy && ops == [] && sent == []
    {
      inited, busy, ops, sent := false, false, [], [];
    }

    /** A reply of a replica, in any order, late or repeated. */
    method HandleFlashbackResp(r: Reply) returns (ret: Ret)
      modifies this`ops
      ensures ops == AfterReply(old(ops), r)
      ensures ret == var k := FirstFor(old(ops), r.ls, r.version);
                     if k < |ops| && old(ops)[k].hasMemberList && r.ls != -1 && !r.valid then InvalidArgument else Success
    {
      ret := Success;
      for i := 0 to |ops|
        invariant ops == old(ops) && FirstFor(ops, r.ls, r.version) >= i
      {
        if ops[i].ls == r.ls && ops[i].modeVersion == r.version {
          var op;
          ret, op := HandleResp(ops[i], r.server, r.valid);
          ops := ops[i := op];
          return;
        }
      }
    }

    /** The replies that arrive before the next operator is switched; those to it wait while it is. */
    method DeliverReplies(replies: seq<Reply>)
      modifies this`ops
      ensures ops == AfterReplies(old(ops), replies)
    {
      for i := 0 to |replies|
        invariant ops == AfterReplies(old(ops), replies[..i])
      {
        assert replies[..i + 1][..i] == replies[..i];
        var _ := HandleFlashbackResp(replies[i]);
      }
      assert replies[..|replies|] == replies;
    }

    /** Switches the operator at `i`, after the replies that arrive before it. */
    method SwitchNext(net: Network, t: nat, i: nat) returns (ret: Ret)
      requires i < |ops|
      modifies this`ops, this`sent
      ensures ops == Switched(net, old(ops), t, i) && ret == ops[i].ret
      ensures SentBy(old(sent), sent, ops[i], t)
    {
      DeliverReplies(net.replies(t, i));
      var op, more;
      ret, op, more := SwitchExec(net, ops[i], t);
      ops, sent := ops[i := op], sent + more;
      assert sent[|old(sent)|..] == more;
    }

    /** The same within a pass that began with the operators `first` and the requests `had`. */
    method SwitchOneMore(net: Network, t: nat, i: nat, ghost first: seq<ExecOp>, ghost had: seq<Request>, ghost all: bool)
      returns (ret: Ret)
      requires i < |ops| && SwitchedTo(net, first, ops, t, i, all) && ValidLs(ops[i].ls) && Sending(had, sent, ops, t, i)
      modifies this`ops, this`sent
      ensures |ops| == |old(ops)| && SwitchedTo(net, first, ops, t, i + 1, all && ret.Success?)
      ensures Sending(had, sent, ops, t, i + 1)
    {
      hide *;
      ghost var before, sentBefore := ops, sent;
      ret := SwitchNext(net, t, i);
      SwitchedToNext(net, first, before, t, i, all);
      SendingNext(net, had, sentBefore, sent, before, t, i);
    }

    /** One pass; it succeeds exactly when every operator succeeded in it. Everyone listed who has not acknowledged
        is sent a request, and nobody else. An invalid operator would end it. */
    method MotivateExecs(net: Network, t: nat) returns (ret: Ret)
      modifies this`ops, this`sent
      ensures (forall op | op in old(ops) :: ValidLs(op.ls)) ==>
                && ops == ExecTo(net, old(ops), t, |old(ops)|) && ret == (if ExecsSucceed(ops) then Success else Again)
                && Sending(old(sent), sent, ops, t, |ops|)
      ensures forall k: nat | FirstInvalidExec(old(ops), k) ::
                && ops == ExecTo(net, old(ops), t, k) && Sending(old(sent), sent, ops, t, k)
                && ret == if ExecsSucceed(ops[..k]) then Unexpected else Again
    {
      assert SwitchedTo(net, ops, ops, t, 0, true) && Sending(sent, sent, ops, t, 0);
      hide *;
      ghost var first, had := ops, sent;
      var allSuccess, i := true, 0;
      while i < |ops|
        invariant i <= |first| == |ops| && SwitchedTo(net, first, ops, t, i, allSuccess)
        invariant Sending(had, sent, ops, t, i)
        decreases |first| - i
      {
        if !ValidLs(ops[i].ls) {
          SwitchedToInvalid(net, first, ops, t, i, allSuccess);
          ret := if allSuccess then Unexpected else Again;
          return;
        }
        ret := SwitchOneMore(net, t, i, first, had, allSuccess);
        if !ret.Success? {
          allSuccess := false;
        }
        i := i + 1;
      }
      SwitchedToEnd(net, first, ops, t, allSuccess);
      ret := if allSuccess then Success else Again;
    }

    /** Passes follow until one succeeds or the time is up. Success means that every member and learner of the
        lists the leaders gave in this stage acknowledged in this stage, with that log stream's id and version. In
        every pass everyone listed who has not acknowledged is sent a request, and nobody else ever. */
    method DoFlashback(net: Network, modes: seq<ModeOp>, t0: nat, passes: nat) returns (ret: Ret, t: nat)
      requires forall m | m in modes :: ValidLs(m.ls)
      modifies this`ops, this`sent
      ensures ret.Success? || ret.OpNotAllow?
      ensures ret.Success? ==>
                && t0 <= t < t0 + passes && ops == ExecAt(net, modes, t0, t + 1) && ExecPass(net, modes, t0, t)
                && NoExecPass(net, modes, t0, t - t0)
      ensures ret.Success? ==> AllAcknowledged(net, ops, modes, t0, t)
      ensures ret.OpNotAllow? ==> NoExecPass(net, modes, t0, passes)
      ensures ret.OpNotAllow? ==> t == t0 + passes && ops == ExecAt(net, modes, t0, t)
      ensures StageSending(net, modes, t0, if ret.Success? then t + 1 else t, old(sent), sent) && SameIds(ops, modes)
    {
      t := t0;
      ops := seq(|modes|, i requires 0 <= i < |modes| => NewExecOp(modes[i]));
      assert ops == ExecAt(net, modes, t0, t0);
      assert NoExecPass(net, modes, t0, 0) && SameIds(ops, modes);
      StageSendingStart(net, modes, t0, sent);
      hide *;
      while t < t0 + passes
        invariant t0 <= t <= t0 + passes && ops == ExecAt(net, modes, t0, t)
        invariant NoExecPass(net, modes, t0, t - t0) && SameIds(ops, modes)
        invariant StageSending(net, modes, t0, t, old(sent), sent)
      {
        ghost var before := sent;
        ret := OneExecPass(net, modes, t0, t);
        StageSendingNext(net, modes, t0, t, old(sent), before, sent);
        StageSameIds(net, modes, t0, t);
        if ret.Success? {
          StageFull(net, modes, t0, t);
          return;
        }
        NoExecPassMore(net, modes, t0, t - t0);
        t := t + 1;
      }
      ret := OpNotAllow;
    }

    /** A pass of the stage. */
    method OneExecPass(net: Network, ghost modes: seq<ModeOp>, ghost t0: nat, t: nat) returns (ret: Ret)
      requires t0 <= t && ops == ExecAt(net, modes, t0, t) && forall m | m in modes :: ValidLs(m.ls)
      modifies this`ops, this`sent
      ensures ops == ExecAt(net, modes, t0, t + 1) && (ret.Success? <==> ExecPass(net, modes, t0, t))
      ensures Sending(old(sent), sent, ops, t, |modes|)
    {
      StageValid(net, modes, t0, t);
      ret := MotivateExecs(net, t);
    }

    /** The whole operation, starting with pass `start`; `p1` to `p4` are the passes each stage has time for and
        `lsArray` is None when the log streams cannot be listed. No request is sent unless, before, every leader
        was seen in PREPARE_FLASHBACK or FLASHBACK, then in one pass every log stream passed the log-sync check,
        then every leader was seen in FLASHBACK; success means full acknowledgement after all that. */
    method Flashback(net: Network, tenant: Tenant, flashbackScn: Option<nat>, timeoutUs: int, lsArray: Option<seq<int>>,
                     start: nat, p1: nat, p2: nat, p3: nat, p4: nat)
      returns (ret: Ret, ghost m: Marks, ghost end: nat)
      modifies this
      ensures inited == old(inited) && busy == old(busy) && old(sent) <= sent
      ensures !old(inited) ==> ret.NotInit?
      ensures inited ==>
                && (ret.InvalidArgument? <==> tenant.Invalid? || flashbackScn.None? || timeoutUs <= 0)
                && (ret.NotSupported? <==> (tenant.Sys? || tenant.Meta?) && flashbackScn.Some? && 0 < timeoutUs)
                && (tenant.User? && flashbackScn.Some? && 0 < timeoutUs && old(busy) ==> ret.Again?)
      ensures ret.NotInit? || ret.InvalidArgument? || ret.NotSupported? || old(busy) ==> unchanged(this)
      ensures sent != old(sent) || ret.Success? ==>
                lsArray.Some? && flashbackScn.Some? && InOrder(net, ValidOnly(lsArray.value), flashbackScn.value, start, m)
      ensures forall r | r in sent[|old(sent)|..] ::
                && m.flashback < r.t && r.ls in ValidOnly(lsArray.value)
                && r.version == VersionSeen(net, r.ls, m.flashback)
      ensures ret.Success? ==>
                && m.flashback < end && |ops| == |ValidOnly(lsArray.value)|
                && forall i | 0 <= i < |ops| ::
                     && ops[i].ls == ValidOnly(lsArray.value)[i]
                     && ops[i].modeVersion == VersionSeen(net, ops[i].ls, m.flashback)
                     && FullyAcknowledged(net, ops[i], m.flashback + 1, end)
      ensures inited && tenant.User? && flashbackScn.Some? && 0 < timeoutUs && !old(busy) && lsArray.Some? ==>
                var ls := ValidOnly(lsArray.value);
                || ret.Success?
                || StageFails(net, lsArray.value, flashbackScn.value, start, p1, p2, p3, m, ret)
                || (ret.OpNotAllow? && InOrder(net, ls, flashbackScn.value, start, m) &&
                    NoExecPass(net, ModesAt(net, ls, FlashbackMode, m.synced + 1, m.flashback + 1), m.flashback + 1, p4))
    {
      hide ModesAt, InOrder, StageFails, NoExecPass, ExecAt, ExecPass, FullyAcknowledged, ValidOnly;
      m, end := Marks(start, start, start), start;
      if !inited {
        ret := NotInit;
        return;
      }
      if tenant.Invalid? || flashbackScn.None? || timeoutUs <= 0 {
        ret := InvalidArgument;
        return;
      }
      if tenant.Sys? || tenant.Meta? {
        ret := NotSupported;
        return;
      }
      if busy {
        ret := Again;
        return;
      }
      if lsArray.None? {
        ret := Unexpected;
        return;
      }
      var modes, t3, t4;
      ret, modes, t3, m := ReachFlashbackMode(net, lsArray.value, flashbackScn.value, start, p1, p2, p3);
      if ret.Success? {
        ret, t4 := DoFlashback(net, modes, t3 + 1, p4);
        end := t4;
        RequestIds(net, modes, t3 + 1, if ret.Success? then t4 + 1 else t4, old(sent), sent, ops);
      }
    }
  }

  /** The operators are those of the log streams, and every one has all acknowledgements. */
  ghost predicate AllAcknowledged(net: Network, ops: seq<ExecOp>, modes: seq<ModeOp>, t0: nat, t: nat) {
    |ops| == |modes| && forall i | 0 <= i < |ops| ::
      ops[i].ls == modes[i].ls && ops[i].modeVersion == modes[i].modeVersion && FullyAcknowledged(net, ops[i], t0, t)
  }

  /** The operators are for the log streams and versions of stage 3. */
  ghost predicate SameIds(ops: seq<ExecOp>, modes: seq<ModeOp>) {
    |ops| == |modes| && forall i | 0 <= i < |ops| :: ops[i].ls == modes[i].ls && ops[i].modeVersion == modes[i].modeVersion
  }

  lemma StageSameIds(net: Network, modes: seq<ModeOp>, t0: nat, t: nat)
    requires t0 <= t
    ensures SameIds(ExecAt(net, modes, t0, t + 1), modes)
  {
    StageOk(net, modes, t0, t);
  }

  lemma StageFull(net: Network, modes: seq<ModeOp>, t0: nat, t: nat)
    requires t0 <= t && ExecPass(net, modes, t0, t)
    ensures AllAcknowledged(net, ExecAt(net, modes, t0, t + 1), modes, t0, t)
  {
    hide FullyAcknowledged, ExecAt;
    StageOk(net, modes, t0, t);
    var ops := ExecAt(net, modes, t0, t + 1);
    forall i | 0 <= i < |ops| ensures FullyAcknowledged(net, ops[i], t0, t) {
      assert ops[i] in ops && SuccessIsFull(net, ops[i], t0, t);
    }
  }

  lemma StageValid(net: Network, modes: seq<ModeOp>, t0: nat, t: nat)
    requires t0 <= t && forall m | m in modes :: ValidLs(m.ls)
    ensures forall op | op in ExecAt(net, modes, t0, t) :: ValidLs(op.ls)
  {
    if t0 < t {
      StageOk(net, modes, t0, t - 1);
    }
    forall op | op in ExecAt(net, modes, t0, t) ensures ValidLs(op.ls) {
      var i :| 0 <= i < |modes| && ExecAt(net, modes, t0, t)[i] == op;
      assert modes[i] in modes;
    }
  }

  /** Requests carry the log stream and version of an operator of stage 3. */
  lemma RequestIds(net: Network, modes: seq<ModeOp>, t0: nat, t: nat, had: seq<Request>, sent: seq<Request>, ops: seq<ExecOp>)
    requires t0 <= t && StageSending(net, modes, t0, t, had, sent) && ops == ExecAt(net, modes, t0, t) && SameIds(ops, modes)
    ensures had <= sent && forall m | m in sent[|had|..] ::
              t0 <= m.t && exists i :: 0 <= i < |modes| && m.ls == modes[i].ls && m.version == modes[i].modeVersion
  {
    forall m | m in sent[|had|..]
      ensures exists i :: 0 <= i < |modes| && m.ls == modes[i].ls && m.version == modes[i].modeVersion
    {
      var j :| 0 <= j < |ops| && IsOf(m, ops[j]);
    }
  }

  /** The passes in which stages 1, 2 and 3 got through. */
  datatype Marks = Marks(prepared: nat, synced: nat, flashback: nat)

  /** For every log stream, in this order: its leader answers in PREPARE_FLASHBACK or FLASHBACK, it passes the
      log-sync check of a stage that began after that, its leader answers in FLASHBACK. */
  ghost predicate InOrder(net: Network, ls: seq<int>, scn: nat, start: nat, m: Marks) {
    && start <= m.prepared < m.synced < m.flashback
    && (forall l | l in ls :: SeenIn(net, l, PrepareFlashbackMode, m.prepared))
    && (forall l | l in ls :: PassesIn(net, l, scn, m.prepared + 1, m.synced))
    && (forall l | l in ls :: SeenIn(net, l, FlashbackMode, m.flashback))
  }

  /** Why stages 1 to 3 fail: the list ends with an invalid id, or one of them has no successful pass in its
      time. */
  ghost predicate StageFails(net: Network, lsArray: seq<int>, scn: nat, start: nat, p1: nat, p2: nat, p3: nat, m: Marks, ret: Ret) {
    var ls := ValidOnly(lsArray);
    match ret
    case Unexpected => lsArray != [] && !ValidLs(lsArray[|lsArray| - 1])
    case Timeout => NoPass(net, ls, ToMode(PrepareFlashbackMode), start, p1) || NoPass(net, ls, ToMode(FlashbackMode), m.synced + 1, p3)
    case OpNotAllow => NoPass(net, ls, ToScn(scn), m.prepared + 1, p2)
    case _ => false
  }

  /** Stages 1 to 3. On failure the reason is a stage with no successful pass in its time. */
  method ReachFlashbackMode(net: Network, lsArray: seq<int>, scn: nat, start: nat, p1: nat, p2: nat, p3: nat)
    returns (ret: Ret, modes: seq<ModeOp>, t3: nat, ghost m: Marks)
    ensures ret.Success? || ret.Unexpected? || ret.Timeout? || ret.OpNotAllow?
    ensures ret.Success? ==>
              var ls := ValidOnly(lsArray);
              && InOrder(net, ls, scn, start, m) && t3 == m.flashback
              && modes == ModesAt(net, ls, FlashbackMode, m.synced + 1, m.flashback + 1)
              && m.prepared < start + p1 && m.synced <= m.prepared + p2 && m.flashback <= m.synced + p3
              && forall i | 0 <= i < |ls| ::
                   modes[i].ls == ls[i] && ValidLs(ls[i]) && modes[i].modeVersion == VersionSeen(net, ls[i], m.flashback)
    ensures !ret.Success? ==> StageFails(net, lsArray, scn, start, p1, p2, p3, m, ret)
  {
    hide ModesAt, OpsAt, Pass, PassesIn, NoPass, SeenIn, ValidOnly;
    var prepare, syncs, t1, t2;
    var ls := ValidOnly(lsArray);
    modes, t3, m := [], start, Marks(start, start, start);
    ret, prepare, t1 := GetAndChangeAccessMode(net, lsArray, PrepareFlashbackMode, start, p1);
    m := m.(prepared := t1);
    if !ret.Success? {
      return;
    }
    ModesMeaning(net, ls, PrepareFlashbackMode, start, t1);
    ret, syncs, t2 := WaitAllLsReplicasLogSync(net, lsArray, scn, t1 + 1, p2);
    m := m.(synced := t2);
    if !ret.Success? {
      return;
    }
    SyncsMeaning(net, ls, scn, t1 + 1, t2);
    ret, modes, t3 := GetAndChangeAccessMode(net, lsArray, FlashbackMode, t2 + 1, p3);
    m := m.(flashback := t3);
    if ret.Success? {
      ModesMeaning(net, ls, FlashbackMode, t2 + 1, t3);
      ValidOnlyAll(lsArray);
    }
  }

  /** What the log-sync part of that order means for every log stream, with set answers and ends of logs that
      only grow up to `endNow`. */
  lemma BarrierMeaning(net: Network, ls: seq<int>, scn: nat, start: nat, m: Marks, endNow: (int, nat) -> nat)
    requires InOrder(net, ls, scn, start, m) && AnswersAreSet(net)
    requires forall l, s, k, u | m.prepared < u <= m.synced && net.replica(l, s, k, u).Some? ::
               net.replica(l, s, k, u).value.end <= endNow(l, s)
    ensures forall l | l in ls :: InSync(net, l, scn, m.prepared + 1, m.synced, s => endNow(l, s))
  {
    forall l | l in ls ensures InSync(net, l, scn, m.prepared + 1, m.synced, s => endNow(l, s)) {
      LogSyncMeaning(net, OpAt(net, l, ToScn(scn), m.prepared + 1, m.synced + 1).sync, m.prepared + 1, m.synced,
                     s => endNow(l, s));
    }
  }

  /** Replies and the switch of the operator at `i`. */
  function Switched(net: Network, ops: seq<ExecOp>, t: nat, i: nat): (next: seq<ExecOp>)
    requires i < |ops|
    ensures |next| == |ops|
  {
    var o := AfterReplies(ops, net.replies(t, i));
    o[i := ExecStep(net, o[i], t)]
  }

  /** The operator at k is the first with an invalid id. */
  predicate FirstInvalidExec(ops: seq<ExecOp>, k: nat) {
    k < |ops| && ops[k].ls == -1 && forall i | 0 <= i < k :: ops[i].ls != -1
  }

  /** The first i operators of `first` were switched in pass t, all with a valid id, and `all` is whether every
      one succeeded. */
  ghost predicate SwitchedTo(net: Network, first: seq<ExecOp>, ops: seq<ExecOp>, t: nat, i: nat, all: bool) {
    && i <= |first| == |ops| && ops == ExecTo(net, first, t, i)
    && (forall j | 0 <= j < |ops| :: ops[j].ls == first[j].ls && (j < i ==> ValidLs(ops[j].ls)))
    && (all <==> forall j | 0 <= j < i :: ops[j].ret.Success?)
  }

  lemma SwitchedToNext(net: Network, first: seq<ExecOp>, ops: seq<ExecOp>, t: nat, i: nat, all: bool)
    requires i < |ops| && SwitchedTo(net, first, ops, t, i, all) && ValidLs(ops[i].ls)
    ensures var next := Switched(net, ops, t, i);
            SwitchedTo(net, first, next, t, i + 1, all && next[i].ret.Success?)
  {
    RepliesKeepRet(ops, net.replies(t, i));
    var o := AfterReplies(ops, net.replies(t, i));
    assert ExecStep(net, o[i], t).ls == o[i].ls;
    hide ExecStep, AfterReplies;
  }

  lemma SwitchedToInvalid(net: Network, first: seq<ExecOp>, ops: seq<ExecOp>, t: nat, i: nat, all: bool)
    requires i < |ops| && SwitchedTo(net, first, ops, t, i, all) && !ValidLs(ops[i].ls)
    ensures (exists op | op in first :: !ValidLs(op.ls)) && ops == ExecTo(net, first, t, i)
    ensures forall k: nat | FirstInvalidExec(first, k) :: k == i
    ensures all <==> ExecsSucceed(ops[..i])
  {
    assert first[i] in first;
    assert forall j | 0 <= j < i :: ops[..i][j] == ops[j];
  }

  lemma SwitchedToEnd(net: Network, first: seq<ExecOp>, ops: seq<ExecOp>, t: nat, all: bool)
    requires SwitchedTo(net, first, ops, t, |ops|, all)
    ensures ops == ExecTo(net, first, t, |first|) && (all <==> ExecsSucceed(ops))
    ensures (forall op | op in first :: ValidLs(op.ls)) && forall k: nat :: !FirstInvalidExec(first, k)
  {
  }

  lemma GrowsOn(a: seq<ExecOp>, b: seq<ExecOp>, c: seq<ExecOp>)
    requires AllGrow(a, b) && AllGrow(b, c)
    ensures AllGrow(a, c)
  {
  }

  lemma {:induction false} RepliesGrow(ops: seq<ExecOp>, replies: seq<Reply>)
    ensures AllGrow(ops, AfterReplies(ops, replies))
  {
    if replies != [] {
      RepliesGrow(ops, replies[..|replies| - 1]);
    }
  }

  lemma StepGrows(net: Network, op: ExecOp, t: nat)
    ensures Grows(op, ExecStep(net, op, t))
  {
  }

  lemma SwitchGrows(net: Network, ops: seq<ExecOp>, t: nat, i: nat)
    requires i < |ops|
    ensures AllGrow(AfterReplies(ops, net.replies(t, i)), Switched(net, ops, t, i))
    ensures AllGrow(ops, Switched(net, ops, t, i))
  {
    var o := AfterReplies(ops, net.replies(t, i));
    RepliesGrow(ops, net.replies(t, i));
    StepGrows(net, o[i], t);
    assert Switched(net, ops, t, i) == o[i := ExecStep(net, o[i], t)];
    assert forall k | 0 <= k < |o| :: Grows(o[k], o[k]);
    hide AfterReplies, Switched, ExecStep;
    GrowsOn(ops, o, Switched(net, ops, t, i));
  }

  /** Replies change nothing but who has acknowledged. */
  lemma {:induction false} RepliesKeepRet(ops: seq<ExecOp>, replies: seq<Reply>)
    ensures forall i | 0 <= i < |ops| ::
              var next := AfterReplies(ops, replies)[i];
              next == ops[i].(doneMembers := next.doneMembers, doneLearners := next.doneLearners)
  {
    if replies != [] {
      RepliesKeepRet(ops, replies[..|replies| - 1]);
    }
  }
}
