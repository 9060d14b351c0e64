/** submit_log_ on the collector's thread against the log callback on another thread. `recScn` holds back
    the checkpoint; None stands for the maximal scn, which holds back nothing. */
module GcCheckpoint {
  import opened Common
  import opened GcReplay

  datatype CbState = Init | Succeeded | Failed

  /** Where the submitting thread stands; `scn` is the one the log gave to the entry. */
  datatype Submitter =
    | Outside
    | Ready
    | Locked
    | Appended(scn: nat)   // still inside the lock, the callback's scn may be unset
    | Waiting(scn: nat)
    | Updating(scn: nat)
    | Updated

  datatype Callback =
    | NotCalled
    | WantsLock
    | InLock
    | Read(scn: Option<nat>)
    | Stored
    | Unlocked
    | Finished

  /** Who is inside the handler's read-write lock and inside rec_scn_lock_. */
  datatype HandlerLock = HandlerFree | BySubmitter | ByReplay
  datatype ScnLock = ScnFree | HeldBySubmitter | HeldByCallback

  /** `guarded` is how the source is written; without it the threads ignore rec_scn_lock_. */
  datatype State = State(
    guarded: bool, handlerLock: HandlerLock, scnLock: ScnLock, recScn: Option<nat>, meta: LsMeta,
    entry: Entry, cbScn: Option<nat>, cbState: CbState, sub: Submitter, cb: Callback, replaying: bool)

  datatype Step =
    | BeginSubmit(offline: bool)
    | SubLock
    | Append(ok: bool, scn: nat)
    | SetCbScn
    | SubUnlock
    | LogFails
    | LogCommits
    | CbLock
    | CbRead
    | CbStore
    | CbUnlock
    | CbReport
    | Poll
    | UpdateState(ok: bool)
    | ResetRecScn
    | BeginReplay(replayed: Entry)
    | EndReplay

  /** The entry is with the log, which has not answered yet. */
  predicate Outstanding(s: State) { (s.sub.Appended? || s.sub.Waiting?) && s.cb.NotCalled? && s.cbState.Init? }

  predicate Enabled(s: State, a: Step) {
    match a
    case BeginSubmit(_) => s.handlerLock.HandlerFree? && s.sub.Outside?
    case SubLock => s.sub.Ready? && (s.guarded ==> s.scnLock.ScnFree?)
    case Append(_, _) => s.sub.Locked?
    case SetCbScn => s.sub.Appended? && s.cbScn.None?
    case SubUnlock => s.sub.Appended? && s.cbScn.Some?
    case LogFails => Outstanding(s)
    case LogCommits => Outstanding(s)
    case CbLock => s.cb.WantsLock? && (s.guarded ==> s.scnLock.ScnFree?)
    case CbRead => s.cb.InLock?
    case CbStore => s.cb.Read? && s.cb.scn.Some?
    case CbUnlock => s.cb.Stored?
    case CbReport => s.cb.Unlocked?
    case Poll => s.sub.Waiting? && !s.cbState.Init?
    case UpdateState(_) => s.sub.Updating?
    case ResetRecScn => s.sub.Updated?
    case BeginReplay(_) => s.handlerLock.HandlerFree? && !s.replaying
    case EndReplay => s.replaying
  }

  function Apply(s: State, a: Step): State
    requires Enabled(s, a)
  {
    match a
    case BeginSubmit(offline) =>
      s.(handlerLock := BySubmitter, sub := Ready, cbScn := None, cbState := Init, cb := NotCalled,
         entry := if offline then Offline(0) else Block(0))
    case SubLock => s.(scnLock := HeldBySubmitter, sub := Locked)
    case Append(ok, scn) =>
      if ok then s.(sub := Appended(scn), entry := s.entry.(scn := scn))
      else s.(scnLock := ScnFree, handlerLock := HandlerFree, sub := Outside)
    case SetCbScn => s.(cbScn := Some(s.sub.scn))
    case SubUnlock => s.(scnLock := ScnFree, sub := Waiting(s.sub.scn))
    case LogFails => s.(cbState := Failed, cb := Finished)
    case LogCommits => s.(cb := WantsLock)
    case CbLock => s.(scnLock := HeldByCallback, cb := InLock)
    case CbRead => s.(cb := Read(s.cbScn))
    case CbStore => s.(recScn := s.cb.scn, cb := Stored)
    case CbUnlock => s.(scnLock := ScnFree, cb := Unlocked)
    case CbReport => s.(cbState := Succeeded, cb := Finished)
    case Poll =>
      if s.cbState.Succeeded? then s.(sub := Updating(s.sub.scn))
      else s.(sub := Outside, handlerLock := HandlerFree)
    case UpdateState(ok) =>
      if ok then s.(meta := ReplayOne(s.meta, s.entry), sub := Updated) else s.(sub := Waiting(s.sub.scn))
    case ResetRecScn => s.(recScn := None, sub := Outside, handlerLock := HandlerFree)
    case BeginReplay(replayed) => s.(handlerLock := ByReplay, replaying := true, meta := ReplayOne(s.meta, replayed))
    case EndReplay => s.(recScn := None, handlerLock := HandlerFree, replaying := false)
  }

  ghost predicate Runs(s: State, steps: seq<Step>)
    decreases |steps|
  {
    steps == [] || (Enabled(s, steps[0]) && Runs(Apply(s, steps[0]), steps[1..]))
  }

  ghost function Reached(s: State, steps: seq<Step>): State
    requires Runs(s, steps)
    decreases |steps|
  {
    if steps == [] then s else Reached(Apply(s, steps[0]), steps[1..])
  }

  /** A handler just created. */
  function Start(guarded: bool, meta: LsMeta): State {
    State(guarded, HandlerFree, ScnFree, None, meta, Block(0), None, Init, Outside, NotCalled, false)
  }

  // ---------------------------------------------------------------- properties

  /** The callback never works with an unset scn. */
  ghost predicate NeverReadsUnset(s: State) { s.cb.Read? ==> s.cb.scn.Some? }

  /** From the callback's report until the gc state is updated, the checkpoint is held back at the entry. */
  ghost predicate HoldsBack(s: State) {
    s.cbState.Succeeded? && (s.sub.Waiting? || s.sub.Updating?) ==>
      s.recScn == Some(s.sub.scn) && s.entry.scn == s.sub.scn
  }

  /** Outside of a submission nothing is held back. */
  ghost predicate FreeAtRest(s: State) { !s.handlerLock.BySubmitter? ==> s.recScn.None? }

  /** The checkpoint is let go only when the entry is applied: once more would change nothing. */
  ghost predicate AppliedWhenFreed(s: State) { s.sub.Updated? ==> ReplayOne(s.meta, s.entry) == s.meta }

  /** The thread inside each lock is where its program counter says it is. */
  ghost predicate LocksOk(s: State) {
    && (s.handlerLock.BySubmitter? <==> !s.sub.Outside?)
    && (s.handlerLock.ByReplay? <==> s.replaying)
    && (s.scnLock.HeldBySubmitter? <==> s.sub.Locked? || s.sub.Appended?)
    && (s.scnLock.HeldByCallback? <==> s.cb.InLock? || s.cb.Read? || s.cb.Stored?)
  }

  ghost predicate CallbackOk(s: State) {
    && (s.cbState.Init? <==> !s.cb.Finished?)
    && (s.sub.Ready? || s.sub.Locked? ==> s.cb.NotCalled?)
    && (s.sub.Updating? || s.sub.Updated? ==> s.cbState.Succeeded?)
    && (s.sub.Appended? ==> !s.cbState.Succeeded?)
    && (s.sub.Outside? ==> s.cb.NotCalled? || s.cb.Finished?)
  }

  ghost predicate ScnOk(s: State) {
    && (s.sub.Appended? && s.cbScn.Some? ==> s.cbScn.value == s.sub.scn)
    && (s.sub.Waiting? || s.sub.Updating? ==> s.cbScn == Some(s.sub.scn))
    && (s.sub.Appended? || s.sub.Waiting? || s.sub.Updating? ==> s.entry.scn == s.sub.scn)
    && (s.sub.Ready? || s.sub.Locked? ==> s.cbScn.None?)
    && (s.cb.Read? ==> s.cb.scn == s.cbScn && s.cbScn.Some?)
    && (s.cb.Stored? || s.cb.Unlocked? ==> s.sub.Waiting?)
    && (s.cb.Stored? || s.cb.Unlocked? || (s.cbState.Succeeded? && (s.sub.Waiting? || s.sub.Updating?)) ==>
          s.recScn == s.cbScn)
    && (s.cb.Read? ==> s.sub.Waiting?)
    && (s.recScn.Some? ==>
          s.cb.Stored? || s.cb.Unlocked? || (s.cbState.Succeeded? && (s.sub.Waiting? || s.sub.Updating? || s.sub.Updated?)))
  }

  ghost predicate Inv(s: State) { s.guarded && LocksOk(s) && CallbackOk(s) && ScnOk(s) && AppliedWhenFreed(s) }

  lemma StepKeepsInv(s: State, a: Step)
    requires Inv(s) && Enabled(s, a)
    ensures Inv(Apply(s, a))
  {
  }

  lemma {:induction false} RunKeepsInv(s: State, steps: seq<Step>)
    requires Inv(s) && Runs(s, steps)
    ensures Inv(Reached(s, steps))
    decreases |steps|
  {
    if steps != [] {
      StepKeepsInv(s, steps[0]);
      RunKeepsInv(Apply(s, steps[0]), steps[1..]);
    }
  }

  /** For every interleaving of submitter, callback and replay, over any number of entries. */
  lemma CheckpointGuard(meta: LsMeta, steps: seq<Step>)
    requires Runs(Start(true, meta), steps)
    ensures NeverReadsUnset(Reached(Start(true, meta), steps)) && HoldsBack(Reached(Start(true, meta), steps))
    ensures FreeAtRest(Reached(Start(true, meta), steps)) && AppliedWhenFreed(Reached(Start(true, meta), steps))
  {
    RunKeepsInv(Start(true, meta), steps);
  }

  lemma RunOne(s: State, a: Step, rest: seq<Step>)
    requires Enabled(s, a) && Runs(Apply(s, a), rest)
    ensures Runs(s, [a] + rest) && Reached(s, [a] + rest) == Reached(Apply(s, a), rest)
  {
    assert ([a] + rest)[1..] == rest;
  }

  /** rec_scn_lock_ is what it takes: without it the log can answer before the scn is handed over. */
  lemma LockIsNeeded(meta: LsMeta, scn: nat) returns (steps: seq<Step>)
    ensures Runs(Start(false, meta), steps) && !NeverReadsUnset(Reached(Start(false, meta), steps))
  {
    var s0 := Start(false, meta);
    var s1 := Apply(s0, BeginSubmit(true));
    var s2 := Apply(s1, SubLock);
    var s3 := Apply(s2, Append(true, scn));
    var s4 := Apply(s3, LogCommits);
    var s5 := Apply(s4, CbLock);
    RunOne(s5, CbRead, []);
    RunOne(s4, CbLock, [CbRead] + []);
    RunOne(s3, LogCommits, [CbLock] + ([CbRead] + []));
    RunOne(s2, Append(true, scn), [LogCommits] + ([CbLock] + ([CbRead] + [])));
    RunOne(s1, SubLock, [Append(true, scn)] + ([LogCommits] + ([CbLock] + ([CbRead] + []))));
    RunOne(s0, BeginSubmit(true), [SubLock] + ([Append(true, scn)] + ([LogCommits] + ([CbLock] + ([CbRead] + [])))));
    steps := [BeginSubmit(true)] + ([SubLock] + ([Append(true, scn)] + ([LogCommits] + ([CbLock] + ([CbRead] + [])))));
  }

  lemma {:induction false} RunOn(s: State, steps: seq<Step>, a: Step)
    requires Runs(s, steps) && Enabled(Reached(s, steps), a)
    ensures Runs(s, steps + [a]) && Reached(s, steps + [a]) == Apply(Reached(s, steps), a)
    decreases |steps|
  {
    if steps == [] {
      assert (steps + [a])[1..] == [];
    } else {
      RunOn(Apply(s, steps[0]), steps[1..], a);
      assert (steps + [a])[1..] == steps[1..] + [a];
    }
  }

  lemma Go(s: State, steps: seq<Step>, t: State, a: Step) returns (more: seq<Step>, u: State)
    requires Runs(s, steps) && Reached(s, steps) == t && Enabled(t, a)
    ensures u == Apply(t, a) && Runs(s, more) && Reached(s, more) == u
  {
    RunOn(s, steps, a);
    more, u := steps + [a], Apply(t, a);
  }

  lemma RunNothing(s: State)
    ensures Runs(s, []) && Reached(s, []) == s
  {
  }

  /** The entry is with the log. */
  function WithLog(meta: LsMeta, e: Entry): State {
    Start(true, meta).(handlerLock := BySubmitter, entry := e, cbScn := Some(e.scn), sub := Waiting(e.scn))
  }

  /** It has committed, and the checkpoint is held back. */
  function HeldBack(meta: LsMeta, e: Entry): State {
    WithLog(meta, e).(scnLock := HeldByCallback, recScn := Some(e.scn), cb := Stored)
  }

  lemma SubmitRuns(meta: LsMeta, e: Entry) returns (steps: seq<Step>)
    ensures Runs(Start(true, meta), steps) && Reached(Start(true, meta), steps) == WithLog(meta, e)
  {
    hide Runs, Reached;
    var s, t := Start(true, meta), Start(true, meta);
    RunNothing(s);
    steps, t := Go(s, [], t, BeginSubmit(e.Offline?));
    steps, t := Go(s, steps, t, SubLock);
    steps, t := Go(s, steps, t, Append(true, e.scn));
    steps, t := Go(s, steps, t, SetCbScn);
    steps, t := Go(s, steps, t, SubUnlock);
  }

  lemma CommitRuns(meta: LsMeta, e: Entry) returns (steps: seq<Step>)
    ensures Runs(Start(true, meta), steps) && Reached(Start(true, meta), steps) == HeldBack(meta, e)
  {
    hide Runs, Reached;
    var s, t := Start(true, meta), WithLog(meta, e);
    steps := SubmitRuns(meta, e);
    steps, t := Go(s, steps, t, LogCommits);
    steps, t := Go(s, steps, t, CbLock);
    steps, t := Go(s, steps, t, CbRead);
    steps, t := Go(s, steps, t, CbStore);
  }

  /** An entry goes through: it is held back when it has committed, and in the end it is applied and nothing is
      held back. */
  lemma EntryGoesThrough(meta: LsMeta, e: Entry) returns (half: seq<Step>, steps: seq<Step>)
    ensures Runs(Start(true, meta), half) && Reached(Start(true, meta), half).recScn == Some(e.scn)
    ensures Runs(Start(true, meta), steps)
    ensures var t := Reached(Start(true, meta), steps);
            && t.meta == ReplayOne(meta, e) && t.recScn.None?
            && t.handlerLock.HandlerFree? && t.scnLock.ScnFree? && t.sub.Outside?
  {
    hide Runs, Reached;
    var s, t := Start(true, meta), HeldBack(meta, e);
    half := CommitRuns(meta, e);
    steps, t := Go(s, half, t, CbUnlock);
    steps, t := Go(s, steps, t, CbReport);
    steps, t := Go(s, steps, t, Poll);
    steps, t := Go(s, steps, t, UpdateState(true));
    steps, t := Go(s, steps, t, ResetRecScn);
  }
}
