/** The servers a flashback talks to, as the server that drives it sees them. A network is an input: it fixes
    in advance what every call would answer, and nothing is assumed about it unless a lemma says so. Time is
    the number of the pass a call is made in; passes are numbered on through all stages. */
module FlashbackNetwork {
  import opened Common

  datatype Mode = InvalidMode | AppendMode | RawWriteMode | FlashbackMode | PrepareFlashbackMode

  /** What a leader answers when it is asked for its state; an unset answer has no mode and no members. */
  datatype LeaderStat = Unset | Stat(mode: Mode, version: int, members: seq<nat>, learners: seq<nat>)

  /** Where a replica's log ends, committed and at most. */
  datatype Ends = Ends(end: nat, max: nat)

  /** A reply to a flashback request; `valid` is whether it passes its own check. */
  datatype Reply = Reply(ls: int, version: int, server: nat, valid: bool)

  /** `located` is whether the location cache names a leader, `leader` and `replica` what a call answers, None
      when it fails; a replica is asked as a member or as a learner. `replies` are the replies that arrive
      right before an operator is switched, given by the pass and its position, in any order and number. */
  datatype Network = Network(
    located: (int, nat) -> bool,
    leader: (int, nat) -> Option<LeaderStat>,
    replica: (int, nat, bool, nat) -> Option<Ends>,
    replies: (nat, nat) -> seq<Reply>)

  /** OB_INVALID_LS_ID is -1. */
  predicate ValidLs(ls: int) { ls != -1 }

  function ModeOf(a: LeaderStat): Mode { if a.Unset? then InvalidMode else a.mode }

  /** INVALID_PROPOSAL_ID is the largest 64-bit value; here -1. */
  function VersionOf(a: LeaderStat): int { if a.Unset? then -1 else a.version }

  /** The version the leader answers with in pass t. */
  function VersionSeen(net: Network, ls: int, t: nat): int {
    match net.leader(ls, t)
    case Some(Stat(_, version, _, _)) => version
    case _ => -1
  }

  function MembersOf(a: LeaderStat): seq<nat> { if a.Unset? then [] else a.members }

  function LearnersOf(a: LeaderStat): seq<nat> { if a.Unset? then [] else a.learners }

  /** The replica reports that all it has is committed, and that it has reached the scn. */
  predicate AtScn(a: Option<Ends>, scn: nat) { a.Some? && a.value.max <= a.value.end && scn <= a.value.end }

  /** The replica reports that all it has is committed, and that it ends below the scn. */
  predicate BelowScn(a: Option<Ends>, scn: nat) { a.Some? && a.value.max <= a.value.end < scn }

  /** The leader answers in pass t with `mode`, or with FLASHBACK. */
  predicate SeenIn(net: Network, ls: int, mode: Mode, t: nat) {
    match net.leader(ls, t)
    case Some(Stat(m, _, _, _)) => m == mode || m == FlashbackMode
    case Some(Unset) => mode == InvalidMode
    case None => false
  }

  /** The leader answers in pass t with these lists. */
  predicate GivesLists(net: Network, ls: int, t: nat, members: seq<nat>, learners: seq<nat>) {
    match net.leader(ls, t)
    case Some(Stat(_, _, m, l)) => members == m && learners == l
    case Some(Unset) => members == [] && learners == []
    case None => false
  }

  /** The leader answers in pass t in FLASHBACK. */
  predicate InFlashback(net: Network, ls: int, t: nat) {
    net.leader(ls, t).Some? && net.leader(ls, t).value.Stat? && net.leader(ls, t).value.mode == FlashbackMode
  }

  /** Every answer of a leader is set, as the handler of the call fills it whenever the call succeeds, and lists
      a member, as a leader is one itself. */
  ghost predicate AnswersAreSet(net: Network) {
    forall ls, t | net.leader(ls, t).Some? :: net.leader(ls, t).value.Stat? && net.leader(ls, t).value.members != []
  }
}
