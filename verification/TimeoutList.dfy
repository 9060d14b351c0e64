/** The intrusive circular list of sockets that wait for a handshake, and its timeout sweep. */
module TimeoutLists {
  const TIMEOUT_THRESHOLD_SEC := 3

  /** A link embedded in a socket that was opened at `startTime`. An unlinked link has a null `next`; its
      `prev` is left as it was. */
  class Link {
    var next: Link?
    var prev: Link?
    const startTime: int

    /** ussl_dlink_init: a ring of one. */
    constructor (start: int)
      ensures next == this && prev == this && startTime == start && Ring([this])
    {
      startTime := start;
      next, prev := this, this;
    }
  }

  predicate Expired(l: Link, now: int) { now - l.startTime > TIMEOUT_THRESHOLD_SEC }

  ghost function Links(q: seq<Link>): set<Link> { set l | l in q }

  ghost predicate Distinct(q: seq<Link>) {
    forall i, j | 0 <= i < j < |q| :: q[i] != q[j]
  }

  /** The link after position i, around the ring. */
  function Succ(q: seq<Link>, i: nat): Link
    requires i < |q|
  {
    if i + 1 < |q| then q[i + 1] else q[0]
  }

  /** The links form a ring in this order, in both directions. */
  ghost predicate Ring(q: seq<Link>)
    reads q
  {
    && q != [] && Distinct(q)
    && (forall i | 0 <= i < |q| :: q[i].next == Succ(q, i))
    && (forall i | 0 <= i < |q| :: Succ(q, i).prev == q[i])
  }

  function Kept(q: seq<Link>, now: int): seq<Link> {
    if q == [] then []
    else Kept(q[..|q| - 1], now) + if Expired(q[|q| - 1], now) then [] else [q[|q| - 1]]
  }

  /** What is kept are exactly the links that have not expired, in their order. */
  lemma {:induction false} KeptExactly(q: seq<Link>, now: int)
    ensures forall l :: l in Kept(q, now) <==> l in q && now - l.startTime <= 3
    ensures |Kept(q, now)| <= |q|
    ensures forall i | 0 <= i < |q| && !Expired(q[i], now) ::
              |Kept(q[..i], now)| < |Kept(q, now)| && Kept(q, now)[|Kept(q[..i], now)|] == q[i]
  {
    if q != [] {
      var init, last := q[..|q| - 1], q[|q| - 1];
      KeptExactly(init, now);
      assert q == init + [last];
      forall i | 0 <= i < |q| && !Expired(q[i], now)
        ensures |Kept(q[..i], now)| < |Kept(q, now)| && Kept(q, now)[|Kept(q[..i], now)|] == q[i]
      {
        if i < |init| {
          assert init[i] == q[i] && init[..i] == q[..i];
        }
      }
    }
  }

  /** ussl_dlink_insert: right behind the head. */
  method Insert(head: Link, n: Link, ghost q: seq<Link>)
    requires Ring(q) && q[0] == head && n !in q
    modifies q, n
    ensures Ring([head, n] + q[1..])
  {
    var next := head.next;
    n.prev, n.next := head, next;
    head.next := n;
    next.prev := n;
  }

  /** ussl_dlink_delete of the link at position k. Deleting an unlinked link changes nothing at all. */
  method Delete(n: Link, ghost q: seq<Link>, ghost k: nat)
    requires n.next != null ==> Ring(q) && k < |q| && q[k] == n
    modifies if n.next == null then {} else Links(q)
    ensures n.next == null
    ensures old(n.next) != null && 1 < |q| ==> Ring(q[..k] + q[k + 1..])
  {
    if n.next != null {
      ghost var j := if k == 0 then |q| - 1 else k - 1;
      assert Succ(q, j) == n;
      var prev, next := n.prev, n.next;
      prev.next := next;
      next.prev := prev;
      n.next := null;
      if 1 < |q| {
        RingWithout(q, k);
      }
    }
  }

  /** The ring closes over a link once its neighbours point at each other. */
  lemma RingWithout(q: seq<Link>, k: nat)
    requires 1 < |q| && k < |q| && Distinct(q)
    requires forall i | 0 <= i < |q| && i != k && Succ(q, i) != q[k] :: q[i].next == Succ(q, i) && Succ(q, i).prev == q[i]
    requires forall i | 0 <= i < |q| && Succ(q, i) == q[k] :: q[i].next == Succ(q, k) && Succ(q, k).prev == q[i]
    ensures Ring(q[..k] + q[k + 1..])
  {
    var r := q[..k] + q[k + 1..];
    forall i | 0 <= i < |r| ensures r[i].next == Succ(r, i) && Succ(r, i).prev == r[i] {
      var o := if i < k then i else i + 1;
      assert r[i] == q[o];
    }
  }

  ghost predicate AllUnlinked(gone: set<Link>)
    reads gone
  {
    forall l | l in gone :: l.next == null
  }

  /** The ring during a sweep: the head, what was kept, what is still to be visited. */
  ghost function Parts(head: Link, kept: seq<Link>, todo: seq<Link>): seq<Link> { [head] + kept + todo }

  lemma NextPart(head: Link, kept: seq<Link>, todo: seq<Link>)
    requires todo != []
    ensures var r, k := Parts(head, kept, todo), 1 + |kept|;
            && k < |r| && r[k] == todo[0] && Succ(r, k) == (if 1 < |todo| then todo[1] else head)
            && Parts(head, kept, todo[1..]) == r[..k] + r[k + 1..] && Parts(head, kept + [todo[0]], todo[1..]) == r
  {
  }

  lemma RingAt(q: seq<Link>, k: nat)
    requires Ring(q) && k < |q|
    ensures q[k].next == Succ(q, k) && (0 < k ==> q[k] != q[0])
    ensures q[k] !in q[..k] + q[k + 1..]
    ensures forall l | l in q[..k] + q[k + 1..] :: l in q
  {
  }

  /** The body of the sweep: an expired link is unlinked. The second delete stands for the one that
      destroying the socket does. */
  method HandleLink(p: Link, now: int, ghost q: seq<Link>, ghost k: nat, ghost gone: set<Link>)
    requires Ring(q) && 0 < k < |q| && q[k] == p
    requires AllUnlinked(gone) && forall l | l in q :: l !in gone
    modifies Links(q)
    ensures if 3 < now - p.startTime then Ring(q[..k] + q[k + 1..]) && p.next == null else Ring(q) && p.next == old(p.next)
    ensures AllUnlinked(if Expired(p, now) then gone + {p} else gone)
  {
    if now - p.startTime > TIMEOUT_THRESHOLD_SEC {
      Delete(p, q, k);
      Delete(p, q, k);
    }
  }

  /** How far a sweep has got. */
  datatype Sweep = Sweep(visited: seq<Link>, kept: seq<Link>, todo: seq<Link>, gone: set<Link>)

  /** The bookkeeping of a sweep, apart from the pointers. */
  ghost predicate SweepOk(head: Link, now: int, q: seq<Link>, w: Sweep) {
    && q != [] && Links(Parts(head, w.kept, w.todo)) <= Links(q) && w.gone <= Links(q)
    && w.visited + w.todo == q[1..] && w.kept == Kept(w.visited, now)
    && (forall l | l in w.visited && Expired(l, now) :: l in w.gone)
    && (forall l | l in Parts(head, w.kept, w.todo) :: l !in w.gone)
  }

  ghost predicate Sweeping(head: Link, now: int, q: seq<Link>, w: Sweep)
    reads Links(q)
  {
    SweepOk(head, now, q, w) && Ring(Parts(head, w.kept, w.todo)) && AllUnlinked(w.gone)
  }

  ghost function NextSweep(w: Sweep, now: int): Sweep
    requires w.todo != []
  {
    var p := w.todo[0];
    if Expired(p, now) then Sweep(w.visited + [p], w.kept, w.todo[1..], w.gone + {p})
    else Sweep(w.visited + [p], w.kept + [p], w.todo[1..], w.gone)
  }

  /** The link looked at: the first one to be visited, or the head at the end. */
  ghost function Current(head: Link, w: Sweep): Link { if w.todo != [] then w.todo[0] else head }

  /** The sequences of a sweep after one more link. */
  lemma NextSequences(visited: seq<Link>, todo: seq<Link>, now: int)
    requires todo != []
    ensures visited + [todo[0]] + todo[1..] == visited + todo
    ensures Kept(visited + [todo[0]], now) == Kept(visited, now) + if Expired(todo[0], now) then [] else [todo[0]]
  {
    assert (visited + [todo[0]])[..|visited|] == visited;
  }

  /** The ring loses at most the link that is looked at. */
  lemma NextMembers(head: Link, now: int, w: Sweep)
    requires w.todo != [] && Distinct(Parts(head, w.kept, w.todo))
    ensures var next := NextSweep(w, now);
            && (forall l | l in Parts(head, next.kept, next.todo) :: l in Parts(head, w.kept, w.todo))
            && (Expired(w.todo[0], now) ==> w.todo[0] !in Parts(head, next.kept, next.todo))
    ensures w.todo[0] in Parts(head, w.kept, w.todo)
  {
    var r, k := Parts(head, w.kept, w.todo), 1 + |w.kept|;
    NextPart(head, w.kept, w.todo);
    assert r[k] !in r[..k] + r[k + 1..];
    assert forall l | l in r[..k] + r[k + 1..] :: l in r;
  }

  lemma SweepOkNext(head: Link, now: int, q: seq<Link>, w: Sweep)
    requires SweepOk(head, now, q, w) && w.todo != [] && Distinct(Parts(head, w.kept, w.todo))
    ensures SweepOk(head, now, q, NextSweep(w, now))
  {
    NextSequences(w.visited, w.todo, now);
    NextMembers(head, now, w);
    hide Parts, Kept, Distinct;
  }

  /** Visits one link; what comes after it is known before it may be unlinked. */
  method VisitLink(p: Link, now: int, ghost head: Link, ghost q: seq<Link>, ghost w: Sweep)
    requires Sweeping(head, now, q, w) && w.todo != [] && p == w.todo[0]
    modifies Links(q)
    ensures Sweeping(head, now, q, NextSweep(w, now)) && old(p.next) == Current(head, NextSweep(w, now))
  {
    ghost var r, k := Parts(head, w.kept, w.todo), 1 + |w.kept|;
    NextPart(head, w.kept, w.todo);
    SweepOkNext(head, now, q, w);
    RingAt(r, k);
    hide Ring, SweepOk, AllUnlinked, Parts, Succ;
    HandleLink(p, now, r, k, w.gone);
  }

  lemma DoneParts(head: Link, now: int, q: seq<Link>, w: Sweep)
    requires Sweeping(head, now, q, w)
    ensures Current(head, w) == head <==> w.todo == []
    ensures w.todo == [] ==> w.visited == q[1..] && Ring([head] + Kept(w.visited, now))
  {
    if w.todo != [] {
      NextPart(head, w.kept, w.todo);
      RingAt(Parts(head, w.kept, w.todo), 1 + |w.kept|);
    } else {
      assert Parts(head, w.kept, []) == [head] + w.kept;
    }
  }

  /** The end of a sweep. */
  lemma Swept(head: Link, now: int, q: seq<Link>, w: Sweep)
    requires Sweeping(head, now, q, w) && w.todo == []
    ensures w.visited == q[1..] && Ring([head] + Kept(q[1..], now))
    ensures forall l | l in q[1..] :: l.next == null <==> 3 < now - l.startTime
  {
    DoneParts(head, now, q, w);
    KeptExactly(w.visited, now);
    var r := [head] + w.kept;
    forall l | l in w.kept ensures l.next != null {
      var i :| 0 <= i < |w.kept| && w.kept[i] == l;
      assert r[i + 1] == l;
    }
  }

  /** One sweep: every link is visited once, in order; the expired ones are unlinked, the others keep their
      order, and the list is a ring again. */
  method CheckAndHandleTimeoutEvent(head: Link, now: int, ghost q: seq<Link>) returns (ghost visited: seq<Link>)
    requires Ring(q) && q[0] == head
    modifies Links(q)
    ensures visited == q[1..]
    ensures Ring([head] + Kept(q[1..], now))
    ensures forall l | l in q[1..] :: l.next == null <==> 3 < now - l.startTime
  {
    ghost var w := Sweep([], [], q[1..], {});
    assert q == Parts(head, [], q[1..]);
    var p: Link := head.next;
    var np := p.next;
    assert Sweeping(head, now, q, w) && p == Current(head, w);
    hide Ring, Sweeping, Kept, NextSweep;
    while p != head
      invariant Sweeping(head, now, q, w) && p == Current(head, w)
      invariant p != head ==> np == p.next
      decreases |w.todo|
    {
      DoneParts(head, now, q, w);
      VisitLink(p, now, head, q, w);
      w := NextSweep(w, now);
      p := np;
      np := p.next;
    }
    DoneParts(head, now, q, w);
    Swept(head, now, q, w);
    visited := w.visited;
  }
}
