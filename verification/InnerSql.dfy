/** Where the statements of an inner SQL connection run: on this server or, through a remote connection, on
    one that has the tenant. The connection is of an inner session and is not itself a resource connection. */
module InnerSqlRouting {
  import opened Common

  /** `connId` is resource_conn_id_ and `svr` is resource_svr_; None stands for their invalid values. */
  datatype Conn = Conn(inTrans: bool, connId: Option<nat>, svr: Option<nat>, forceRemote: bool)

  datatype Side = Here | There(svr: nat, conn: Option<nat>)

  /** The calls on a connection with everything their outcome depends on: whether the tenant is available
      on this server at that moment, which leader the location cache names, an explicit address, and whether
      the remote or local execution succeeds; `given` is the connection id a remote start returns. */
  datatype Call =
    | Start(available: bool, ok: bool, leader: Option<nat>, given: Option<nat>)
    | Write(available: bool, address: Option<nat>, leader: Option<nat>, ok: bool)
    | Read(sameCluster: bool, available: bool, address: Option<nat>, leader: Option<nat>, ok: bool)
    | Execute
    | Commit(ok: bool)
    | Rollback(ok: bool)

  function Reset(c: Conn): Conn { c.(connId := None, svr := None) }

  predicate IsLocalExecute(c: Conn, sameCluster: bool, available: bool) {
    if !sameCluster then false
    else if c.inTrans then c.connId.None?
    else if c.forceRemote then false
    else available
  }

  /** Where a statement outside a transaction is sent when it does not run here. */
  function Target(address: Option<nat>, leader: Option<nat>): Option<nat> {
    if address.Some? then address else leader
  }

  function StartsOn(c: Conn, x: Call): Option<Side>
    requires x.Start?
  {
    if c.inTrans then None
    else if x.available then Some(Here)
    else if c.connId.Some? || c.svr.Some? || x.leader.None? then None
    else Some(There(x.leader.value, None))
  }

  predicate Starts(c: Conn, x: Call)
    requires x.Start?
  {
    StartsOn(c, x).Some? && x.ok
  }

  /** The side a call is executed on, None when it is refused before. A remote side comes with the
      connection id the call is sent with. */
  function RanOn(c: Conn, x: Call): Option<Side> {
    match x
    case Start(_, _, _, _) => StartsOn(c, x)
    case Write(available, address, leader, _) => StatementOn(c, true, available, address, leader)
    case Read(sameCluster, available, address, leader, _) => StatementOn(c, sameCluster, available, address, leader)
    case Execute => Some(Here)
    case Commit(_) => EndsOn(c)
    case Rollback(_) => EndsOn(c)
  }

  function StatementOn(c: Conn, sameCluster: bool, available: bool, address: Option<nat>, leader: Option<nat>): Option<Side> {
    if IsLocalExecute(c, sameCluster, available) then Some(Here)
    else if c.inTrans then
      if c.svr.None? || c.connId.None? || !sameCluster then None else Some(There(c.svr.value, c.connId))
    else if Target(address, leader).None? then None
    else Some(There(Target(address, leader).value, None))
  }

  function EndsOn(c: Conn): Option<Side> {
    if !c.inTrans then None
    else if c.connId.None? then Some(Here)
    else if c.svr.None? then None
    else Some(There(c.svr.value, c.connId))
  }

  function After(c: Conn, x: Call): Conn {
    match x
    case Start(available, ok, leader, given) =>
      if c.inTrans then c
      else if available then c.(inTrans := ok)
      else if !Starts(c, x) then Reset(c)
      else c.(inTrans := true, connId := given, svr := leader)
    case Write(available, address, leader, ok) =>
      if IsLocalExecute(c, true, available) || c.inTrans || Target(address, leader).None? then c
      else if ok then Reset(c)
      else c.(connId := None, svr := Target(address, leader))
    case Read(sameCluster, available, _, _, _) =>
      if IsLocalExecute(c, sameCluster, available) || c.inTrans then c else Reset(c)
    case Execute => c
    case Commit(ok) => AfterEnd(c, ok)
    case Rollback(ok) => AfterEnd(c, ok)
  }

  function AfterEnd(c: Conn, ok: bool): Conn {
    if c.inTrans && c.connId.Some? && c.svr.Some? && ok then Reset(c).(inTrans := false) else c.(inTrans := false)
  }

  // ---------------------------------------------------------------- single calls

  predicate ThisCluster(x: Call) { x.Read? ==> x.sameCluster }

  /** A statement outside a transaction runs here exactly if it is for this cluster, the tenant is available here
      and remote execution is not forced. Otherwise it runs at the given address, else at the leader, and never
      with a connection id; it is refused exactly if there is neither. */
  lemma OutsideExactly(c: Conn, x: Call)
    requires !c.inTrans && (x.Write? || x.Read?)
    ensures RanOn(c, x) == Some(Here) <==> ThisCluster(x) && x.available && !c.forceRemote
    ensures !(ThisCluster(x) && x.available && !c.forceRemote) ==>
              && (x.address.Some? ==> RanOn(c, x) == Some(There(x.address.value, None)))
              && (x.address.None? && x.leader.Some? ==> RanOn(c, x) == Some(There(x.leader.value, None)))
              && (x.address.None? && x.leader.None? ==> RanOn(c, x).None?)
  {
  }

  /** What a statement leaves behind: in a transaction, and after running here, nothing changes. After a remote
      one no server and no id are left, except that a failed write leaves its server and a refused write changes
      nothing. */
  lemma StatementLeaves(c: Conn, x: Call)
    requires x.Write? || x.Read?
    ensures c.inTrans || RanOn(c, x) == Some(Here) ==> After(c, x) == c
    ensures !c.inTrans && RanOn(c, x) != Some(Here) && (x.Read? || (x.ok && RanOn(c, x).Some?)) ==>
              After(c, x) == Conn(false, None, None, c.forceRemote)
    ensures !c.inTrans && x.Write? && RanOn(c, x).Some? && RanOn(c, x).value.There? && !x.ok ==>
              After(c, x) == Conn(false, None, Some(RanOn(c, x).value.svr), c.forceRemote)
    ensures !c.inTrans && x.Write? && RanOn(c, x).None? ==> After(c, x) == c
  {
  }

  /** A statement in a transaction goes to the connection it holds, and runs here if it holds none, whatever is
      available or forced; one for another cluster is refused, and so is one whose connection has no server. */
  lemma InsideExactly(c: Conn, x: Call)
    requires c.inTrans && (x.Write? || x.Read?)
    ensures RanOn(c, x) == Some(Here) <==> ThisCluster(x) && c.connId.None?
    ensures RanOn(c, x).None? <==> !ThisCluster(x) || (c.connId.Some? && c.svr.None?)
    ensures ThisCluster(x) && c.connId.Some? && c.svr.Some? ==> RanOn(c, x) == Some(There(c.svr.value, c.connId))
  {
  }

  /** A start is refused exactly in a transaction or, where the tenant is not available, if a connection is left
      over or no leader is known. It runs here exactly where the tenant is available, whatever is forced. */
  lemma StartExactly(c: Conn, x: Call)
    requires x.Start?
    ensures RanOn(c, x).None? <==> c.inTrans || (!x.available && (c.connId.Some? || c.svr.Some? || x.leader.None?))
    ensures RanOn(c, x) == Some(Here) <==> !c.inTrans && x.available
    ensures RanOn(c, x).Some? && !x.available ==> RanOn(c, x) == Some(There(x.leader.value, None))
    ensures Starts(c, x) <==> RanOn(c, x).Some? && x.ok
    ensures Starts(c, x) ==>
              After(c, x) == if x.available then c.(inTrans := true) else Conn(true, x.given, x.leader, c.forceRemote)
    ensures !Starts(c, x) && (c.inTrans || x.available) ==> After(c, x) == c
    ensures !Starts(c, x) && !c.inTrans && !x.available ==> After(c, x) == Conn(false, None, None, c.forceRemote)
  {
  }

  /** Commit and rollback end the transaction in any case, on the connection it holds or here; the connection is
      given up exactly if that was remote and succeeded. */
  lemma EndExactly(c: Conn, x: Call)
    requires x.Commit? || x.Rollback?
    ensures RanOn(c, x).None? <==> !c.inTrans || (c.connId.Some? && c.svr.None?)
    ensures RanOn(c, x) == Some(Here) <==> c.inTrans && c.connId.None?
    ensures c.inTrans && c.connId.Some? && c.svr.Some? ==> RanOn(c, x) == Some(There(c.svr.value, c.connId))
    ensures After(c, x) == if RanOn(c, x).Some? && RanOn(c, x).value.There? && x.ok
                           then Conn(false, None, None, c.forceRemote) else c.(inTrans := false)
  {
  }

  // ---------------------------------------------------------------- one transaction

  /** The side a transaction lives on once it has started: the id it got stands for it. */
  function Home(x: Call): Side
    requires x.Start? && (!x.available ==> x.leader.Some?)
  {
    if x.available then Here else There(x.leader.value, x.given)
  }

  /** Calls that belong to the transaction; another start and a read of another cluster are refused. */
  predicate InTransaction(x: Call) { x.Write? || (x.Read? && x.sameCluster) || x.Execute? || x.Commit? || x.Rollback? }

  predicate NoExecute(calls: seq<Call>) { forall x | x in calls :: !x.Execute? }

  predicate Ends(x: Call) { x.Commit? || x.Rollback? }

  /** Every statement up to and with the commit or rollback runs on `side`. */
  ghost predicate Sticks(c: Conn, side: Side, calls: seq<Call>)
    decreases |calls|
  {
    calls != [] ==>
      && (InTransaction(calls[0]) ==> RanOn(c, calls[0]) == Some(side))
      && (!Ends(calls[0]) ==> Sticks(After(c, calls[0]), side, calls[1..]))
  }

  /** Whatever calls follow. */
  ghost predicate AlwaysSticks(c: Conn, side: Side) {
    forall calls :: Sticks(c, side, calls)
  }

  /** Whatever calls follow that are routed; `execute` is not. */
  ghost predicate RoutedSticks(c: Conn, side: Side) {
    forall calls | NoExecute(calls) :: Sticks(c, side, calls)
  }

  /** The connection id is set only together with the server. */
  ghost predicate Paired(c: Conn) { c.connId.Some? ==> c.svr.Some? }

  /** What stickiness depends on, and what a caller can see before the first statement: a local start finds
      no left-over remote connection id, and a remote start returns a valid one. */
  predicate StartsClean(c: Conn, x: Call)
    requires x.Start?
  {
    if x.available then c.connId.None? else x.given.Some?
  }

  /** The connection during a transaction on `side`. */
  ghost predicate On(c: Conn, side: Side) {
    && c.inTrans
    && match side
       case Here => c.connId.None?
       case There(svr, conn) => conn.Some? && c.connId == conn && c.svr == Some(svr)
  }

  lemma {:induction false} OnSticks(c: Conn, side: Side, calls: seq<Call>)
    requires On(c, side) && (side.Here? || NoExecute(calls))
    ensures Sticks(c, side, calls)
    decreases |calls|
  {
    if calls != [] && !Ends(calls[0]) {
      OnSticks(After(c, calls[0]), side, calls[1..]);
    }
  }

  /** A call on its own. */
  lemma SticksOne(c: Conn, side: Side, x: Call)
    requires InTransaction(x)
    ensures Sticks(c, side, [x]) <==> RanOn(c, x) == Some(side)
  {
    assert [x][1..] == [];
    assert Ends(x) || Sticks(After(c, x), side, []);
  }

  /** A transaction stays where it began, for all calls and however availability changes, exactly when it
      starts clean and here: `execute` always runs here, so a remote one does not hold it. */
  lemma StickyExactly(c: Conn, x: Call)
    requires Paired(c) && x.Start? && Starts(c, x)
    ensures StartsClean(c, x) && x.available <==> AlwaysSticks(After(c, x), Home(x))
  {
    var t := After(c, x);
    if StartsClean(c, x) && x.available {
      forall calls ensures Sticks(t, Home(x), calls) {
        OnSticks(t, Home(x), calls);
      }
    } else {
      var stray := if x.available then Write(false, None, None, true) else Execute;
      SticksOne(t, Home(x), stray);
      assert !Sticks(t, Home(x), [stray]);
    }
  }

  /** For the calls that are routed it is exactly a clean start. */
  lemma RoutedStickyExactly(c: Conn, x: Call)
    requires Paired(c) && x.Start? && Starts(c, x)
    ensures StartsClean(c, x) <==> RoutedSticks(After(c, x), Home(x))
  {
    var t := After(c, x);
    if StartsClean(c, x) {
      forall calls | NoExecute(calls) ensures Sticks(t, Home(x), calls) {
        OnSticks(t, Home(x), calls);
      }
    } else {
      var w := Write(false, None, None, true);
      SticksOne(t, Home(x), w);
      assert NoExecute([w]) && !Sticks(t, Home(x), [w]);
    }
  }

  /** In a running transaction a call of `execute` stays with it exactly when it is a local one. */
  lemma ExecuteLeavesRemoteTransaction(c: Conn, side: Side)
    requires On(c, side)
    ensures Sticks(c, side, [Execute]) <==> side.Here?
  {
    SticksOne(c, side, Execute);
  }

  // ---------------------------------------------------------------- whole lives

  /** A remote commit or rollback that failed leaves its connection id behind. */
  predicate FailedRemoteEnd(c: Conn, x: Call) { Ends(x) && c.inTrans && c.connId.Some? && !x.ok }

  /** Between transactions no connection id is left. */
  ghost predicate Tidy(c: Conn) { Paired(c) && (!c.inTrans ==> c.connId.None?) }

  /** A failed remote end is the only call that leaves an id behind. */
  lemma TidyExactly(c: Conn, x: Call)
    requires Tidy(c)
    ensures Paired(After(c, x))
    ensures Tidy(After(c, x)) <==> !FailedRemoteEnd(c, x)
  {
  }

  /** No failed remote end, no `execute` in a remote transaction, and every remote start that succeeds returns
      a valid id. */
  ghost predicate Fair(c: Conn, calls: seq<Call>)
    decreases |calls|
  {
    calls != [] ==>
      && !FailedRemoteEnd(c, calls[0])
      && !(calls[0].Execute? && c.inTrans && c.connId.Some?)
      && (calls[0].Start? && Starts(c, calls[0]) && !calls[0].available ==> calls[0].given.Some?)
      && Fair(After(c, calls[0]), calls[1..])
  }

  /** Each transaction of the life sticks to its side. */
  ghost predicate AllStick(c: Conn, calls: seq<Call>)
    decreases |calls|
  {
    calls != [] ==>
      && (calls[0].Start? && Starts(c, calls[0]) ==> Sticks(After(c, calls[0]), Home(calls[0]), calls[1..]))
      && AllStick(After(c, calls[0]), calls[1..])
  }

  const NEW_CONN := Conn(false, None, None, false)

  /** In a fair life a transaction sticks up to its end. */
  lemma {:induction false} FairSticks(c: Conn, side: Side, calls: seq<Call>)
    requires On(c, side) && Fair(c, calls)
    ensures Sticks(c, side, calls)
    decreases |calls|
  {
    if calls != [] && !Ends(calls[0]) {
      FairSticks(After(c, calls[0]), side, calls[1..]);
    }
  }

  lemma {:induction false} TidySticks(c: Conn, calls: seq<Call>)
    requires Tidy(c) && Fair(c, calls)
    ensures AllStick(c, calls)
    decreases |calls|
  {
    if calls != [] {
      var x := calls[0];
      TidyExactly(c, x);
      if x.Start? && Starts(c, x) {
        FairSticks(After(c, x), Home(x), calls[1..]);
      }
      TidySticks(After(c, x), calls[1..]);
    }
  }

  /** Over the whole life of a connection, with any mix of transactions and single statements. */
  lemma TransactionsStick(forceRemote: bool, calls: seq<Call>)
    requires Fair(NEW_CONN.(forceRemote := forceRemote), calls)
    ensures AllStick(NEW_CONN.(forceRemote := forceRemote), calls)
  {
    TidySticks(NEW_CONN.(forceRemote := forceRemote), calls);
  }

  /** Reuse after a failed remote commit: the next transaction starts here, its statements go to the old
      remote connection. */
  lemma ReuseAfterFailedCommitStrays(svr: nat, id: nat)
    ensures var a := After(NEW_CONN, Start(false, true, Some(svr), Some(id)));
            var b := After(a, Commit(false));
            var start := Start(true, true, None, None);
            Starts(b, start) && RanOn(b, start) == Some(Here)
            && RanOn(After(b, start), Write(true, None, None, true)) == Some(There(svr, Some(id)))
  {
  }
}

/** ObInnerSQLConnection. Each method does what the corresponding call of the routing model does. */
module InnerSqlConnections {
  import opened Common
  import opened InnerSqlRouting

  datatype Ret = Success | NotInit | InvalidArgument | NotSupported | Unexpected | Failed

  class InnerSqlConnection {
    var inited: bool
    var isInTrans: bool
    var resourceConnId: Option<nat>
    var resourceSvr: Option<nat>
    const forceRemoteExecute: bool

    function Routing(): Conn
      reads this
    {
      Conn(isInTrans, resourceConnId, resourceSvr, forceRemoteExecute)
    }

    constructor (force: bool)
      ensures inited && Routing() == NEW_CONN.(forceRemote := force)
    {
      inited, isInTrans, resourceConnId, resourceSvr, forceRemoteExecute := true, false, None, None, force;
    }

    method ResetResourceConnInfo()
      modifies this`resourceConnId, this`resourceSvr
      ensures Routing() == Reset(old(Routing()))
    {
      resourceConnId, resourceSvr := None, None;
    }

    method StartTransactionInner(available: bool, ok: bool, leader: Option<nat>, given: Option<nat>)
      returns (ret: Ret, ran: Option<Side>)
      modifies this`isInTrans, this`resourceConnId, this`resourceSvr
      ensures !inited ==> ret.NotInit? && ran.None? && unchanged(this)
      ensures inited ==>
                var x := Start(available, ok, leader, given);
                && Routing() == After(old(Routing()), x) && ran == RanOn(old(Routing()), x)
                && (ret.Success? <==> Starts(old(Routing()), x))
    {
      ret, ran := Success, None;
      if !inited {
        return NotInit, None;
      }
      if isInTrans {
        return Unexpected, None;
      }
      if available {
        ran := Some(Here);
        ret := if ok then Success else Failed;
      } else {
        if resourceConnId.Some? || resourceSvr.Some? {
          ret := Unexpected;
        } else if leader.None? {
          ret := Failed;
        } else {
          resourceSvr := leader;
          ran := Some(There(leader.value, resourceConnId));
          if ok {
            resourceConnId := given;
          } else {
            ret := Failed;
          }
        }
        if !ret.Success? {
          ResetResourceConnInfo();
        }
      }
      if ret.Success? {
        isInTrans := true;
      }
    }

    method ExecuteWriteInner(valid: bool, available: bool, address: Option<nat>, leader: Option<nat>, ok: bool)
      returns (ret: Ret, ran: Option<Side>)
      modifies this`resourceConnId, this`resourceSvr
      ensures !inited ==> ret.NotInit?
      ensures inited && !valid ==> ret.InvalidArgument?
      ensures !inited || !valid ==> ran.None? && unchanged(this)
      ensures inited && valid ==>
                var x := Write(available, address, leader, ok);
                && Routing() == After(old(Routing()), x) && ran == RanOn(old(Routing()), x)
                && (ret.Success? <==> ran.Some? && ok)
    {
      var local := IsLocalExecute(Routing(), true, available);
      ran := None;
      if !inited {
        return NotInit, None;
      }
      if !valid {
        return InvalidArgument, None;
      }
      if local {
        ran := Some(Here);
        ret := if ok then Success else Failed;
        return;
      }
      ret := Success;
      if isInTrans {
        if resourceSvr.None? || resourceConnId.None? {
          ret := Unexpected;
        }
      } else if address.Some? {
        resourceSvr, resourceConnId := address, None;
      } else if leader.None? {
        ret := Failed;
      } else {
        resourceSvr, resourceConnId := leader, None;
      }
      if ret.Success? {
        ran := Some(There(resourceSvr.value, resourceConnId));
        if !ok {
          ret := Failed;
        } else if !isInTrans {
          ResetResourceConnInfo();
        }
      }
    }

    method ExecuteReadInner(valid: bool, sameCluster: bool, available: bool, address: Option<nat>, leader: Option<nat>, ok: bool)
      returns (ret: Ret, ran: Option<Side>)
      modifies this`resourceConnId, this`resourceSvr
      ensures !inited ==> ret.NotInit?
      ensures inited && !valid ==> ret.InvalidArgument?
      ensures !inited || !valid ==> ran.None? && unchanged(this)
      ensures inited && valid ==>
                var x := Read(sameCluster, available, address, leader, ok);
                && Routing() == After(old(Routing()), x) && ran == RanOn(old(Routing()), x)
                && (ret.Success? <==> ran.Some? && ok)
    {
      var local := IsLocalExecute(Routing(), sameCluster, available);
      ran := None;
      if !inited {
        return NotInit, None;
      }
      if !valid {
        return InvalidArgument, None;
      }
      if local {
        ran := Some(Here);
        ret := if ok then Success else Failed;
        return;
      }
      ret := Success;
      if isInTrans {
        if resourceSvr.None? || resourceConnId.None? {
          ret := Unexpected;
        } else if !sameCluster {
          ret := NotSupported;
        }
      } else if address.Some? {
        resourceSvr, resourceConnId := address, None;
      } else if leader.None? {
        ret := Failed;
      } else {
        resourceSvr, resourceConnId := leader, None;
      }
      if ret.Success? {
        ran := Some(There(resourceSvr.value, resourceConnId));
        ret := if ok then Success else Failed;
      }
      if !isInTrans {
        ResetResourceConnInfo();
      }
    }

    /** Runs here, whatever transaction the connection is in. */
    method Execute(valid: bool, ok: bool) returns (ret: Ret, ran: Option<Side>)
      ensures ret == if !inited then NotInit else if !valid then InvalidArgument else if ok then Success else Failed
      ensures ran == if inited && valid then RanOn(Routing(), Call.Execute) else None
    {
      if !inited {
        return NotInit, None;
      }
      if !valid {
        return InvalidArgument, None;
      }
      ret, ran := if ok then Success else Failed, Some(Here);
    }

    /** What commit and rollback share; commit does not look at the connection id again. */
    method EndTransaction(ok: bool) returns (ret: Ret, ran: Option<Side>)
      modifies this`isInTrans, this`resourceConnId, this`resourceSvr
      ensures !isInTrans
      ensures inited ==>
                && Routing() == AfterEnd(old(Routing()), ok) && ran == EndsOn(old(Routing()))
                && (ret.Success? <==> ran.Some? && ok)
      ensures !inited ==> !ret.Success? && ran.None? && resourceConnId == old(resourceConnId) && resourceSvr == old(resourceSvr)
    {
      ran := None;
      var local := resourceConnId.None?;
      if !isInTrans {
        ret := Unexpected;
      } else if !inited {
        ret := NotInit;
      } else if local {
        ran := Some(Here);
        ret := if ok then Success else Failed;
      } else if resourceSvr.None? {
        ret := Unexpected;
      } else {
        ran := Some(There(resourceSvr.value, resourceConnId));
        if ok {
          ResetResourceConnInfo();
          ret := Success;
        } else {
          ret := Failed;
        }
      }
      isInTrans := false;
    }
  }
}
