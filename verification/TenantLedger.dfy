/** The ledger that keeps tenants from being promised more log disk than the pool has. */
module TenantLedger {
  import opened Common

  /** MIN_DISK_SIZE_PER_PALF_INSTANCE, 512 MB. */
  const MIN_DISK_SIZE_PER_PALF: nat := 0x2000_0000

  /** palf's view of a tenant's log disk: `stable` is the size it stops writing at, `limit` the size it is
      recycling towards. They differ while palf is shrinking. `instances` is the number of its log streams. */
  datatype Palf = Palf(stable: nat, limit: nat, instances: nat)

  /** palf takes a size only if its log streams still fit. */
  predicate Accepts(p: Palf, size: nat) { p.instances * MIN_DISK_SIZE_PER_PALF <= size }

  /** palf expands at once; a smaller size only becomes the recycling target. */
  function PalfUpdate(p: Palf, size: nat): Palf {
    if size == p.limit then p
    else if size < p.stable then p.(limit := size)
    else p.(stable := size, limit := size)
  }

  function PalfShrunk(p: Palf): Palf { p.(stable := p.limit) }

  /** `recorded` is the log disk size kept in the tenant's unit. */
  datatype Tenant = Tenant(recorded: nat, palf: Palf)

  datatype Ledger = Ledger(total: nat, reserved: int, tenants: map<nat, Tenant>)

  /** The size an update may record: the wanted one, unless palf still has to shrink down to it. */
  function Allowed(recorded: nat, wanted: nat, stable: nat): nat {
    if wanted >= stable || wanted == 0 then wanted else recorded
  }

  function AfterCreate(total: nat, reserved: int, size: nat): Option<int> {
    if reserved + size > total then None else Some(reserved + size)
  }

  function AfterUpdate(total: nat, reserved: int, recorded: nat, wanted: nat, stable: nat): Option<int> {
    var r := reserved - recorded + Allowed(recorded, wanted, stable);
    if r > total then None else Some(r)
  }

  function AfterRemove(reserved: int, size: nat): Option<int> {
    if reserved - size < 0 then None else Some(reserved - size)
  }

  /** Callers pass the recorded size of the tenant they name. `palfOk` is whether anything else keeps palf from
      taking the size of an update. */
  datatype Step =
    | CreateTenant(id: nat, size: nat)
    | AbortCreateTenant(id: nat)
    | UpdateTenant(id: nat, wanted: nat, palfOk: bool)
    | RemoveTenant(id: nat)
    | PalfFinishesShrinking(id: nat)
    | OpenPalf(id: nat)
    | ClosePalf(id: nat)
    | Resize(bytes: nat)
    | Restart

  predicate Enabled(l: Ledger, a: Step) {
    match a
    case CreateTenant(id, _) => id !in l.tenants
    case AbortCreateTenant(id) => id in l.tenants
    case UpdateTenant(id, _, _) => id in l.tenants
    case RemoveTenant(id) => id in l.tenants
    case PalfFinishesShrinking(id) => id in l.tenants
    case OpenPalf(id) =>
      id in l.tenants && (l.tenants[id].palf.instances + 1) * MIN_DISK_SIZE_PER_PALF <= l.tenants[id].palf.limit
    case ClosePalf(id) => id in l.tenants && 0 < l.tenants[id].palf.instances
    case Resize(_) => true
    case Restart => true
  }

  /** An update goes through: the ledger has room and palf takes the size. */
  predicate Updates(l: Ledger, a: Step)
    requires a.UpdateTenant? && a.id in l.tenants
  {
    var t := l.tenants[a.id];
    && AfterUpdate(l.total, l.reserved, t.recorded, a.wanted, t.palf.stable).Some?
    && a.palfOk && Accepts(t.palf, a.wanted)
  }

  function WithPalf(l: Ledger, id: nat, p: Palf): Ledger
    requires id in l.tenants
  {
    l.(tenants := l.tenants[id := l.tenants[id].(palf := p)])
  }

  function Apply(l: Ledger, a: Step): Ledger
    requires Enabled(l, a)
  {
    match a
    case CreateTenant(id, size) =>
      (match AfterCreate(l.total, l.reserved, size)
       case None => l
       case Some(r) => l.(reserved := r, tenants := l.tenants[id := Tenant(size, Palf(size, size, 0))]))
    case AbortCreateTenant(id) =>
      l.(reserved := l.reserved - l.tenants[id].recorded, tenants := l.tenants - {id})
    case UpdateTenant(id, wanted, palfOk) =>
      if Updates(l, a) then
        var t := l.tenants[id];
        l.(reserved := l.reserved - t.recorded + Allowed(t.recorded, wanted, t.palf.stable),
           tenants := l.tenants[id := Tenant(Allowed(t.recorded, wanted, t.palf.stable), PalfUpdate(t.palf, wanted))])
      else l
    case RemoveTenant(id) =>
      (match AfterRemove(l.reserved, l.tenants[id].recorded)
       case None => l
       case Some(r) => l.(reserved := r, tenants := l.tenants - {id}))
    case PalfFinishesShrinking(id) => WithPalf(l, id, PalfShrunk(l.tenants[id].palf))
    case OpenPalf(id) => WithPalf(l, id, l.tenants[id].palf.(instances := l.tenants[id].palf.instances + 1))
    case ClosePalf(id) => WithPalf(l, id, l.tenants[id].palf.(instances := l.tenants[id].palf.instances - 1))
    case Resize(bytes) => if bytes < l.reserved then l else l.(total := bytes)
    case Restart => l.(reserved := 0, tenants := map[])
  }

  ghost predicate Runs(l: Ledger, steps: seq<Step>)
    decreases |steps|
  {
    steps == [] || (Enabled(l, steps[0]) && Runs(Apply(l, steps[0]), steps[1..]))
  }

  ghost function After(l: Ledger, steps: seq<Step>): Ledger
    requires Runs(l, steps)
    decreases |steps|
  {
    if steps == [] then l else After(Apply(l, steps[0]), steps[1..])
  }

  // ---------------------------------------------------------------- sums

  /** The sum of `f` over the tenants, in whatever order. */
  ghost function Sum(m: map<nat, Tenant>, f: Tenant -> nat): nat
    decreases |m|
  {
    if m == map[] then 0
    else
      var id :| id in m;
      f(m[id]) + Sum(m - {id}, f)
  }

  lemma {:induction false} SumWithout(m: map<nat, Tenant>, f: Tenant -> nat, id: nat)
    requires id in m
    ensures Sum(m, f) == f(m[id]) + Sum(m - {id}, f)
    decreases |m|
  {
    var k :| k in m && Sum(m, f) == f(m[k]) + Sum(m - {k}, f);
    if k != id {
      SumWithout(m - {k}, f, id);
      SumWithout(m - {id}, f, k);
      assert m - {k} - {id} == m - {id} - {k};
    }
  }

  lemma SumUpdate(m: map<nat, Tenant>, f: Tenant -> nat, id: nat, t: Tenant)
    ensures Sum(m[id := t], f) == Sum(m, f) - (if id in m then f(m[id]) else 0) + f(t)
  {
    SumWithout(m[id := t], f, id);
    assert m[id := t] - {id} == m - {id};
    if id in m {
      SumWithout(m, f, id);
    } else {
      assert m - {id} == m;
    }
  }

  lemma {:induction false} SumMonotone(m: map<nat, Tenant>, f: Tenant -> nat, g: Tenant -> nat)
    requires forall id | id in m :: f(m[id]) <= g(m[id])
    ensures Sum(m, f) <= Sum(m, g)
    decreases |m|
  {
    if m != map[] {
      var id :| id in m;
      SumWithout(m, f, id);
      SumWithout(m, g, id);
      SumMonotone(m - {id}, f, g);
    }
  }

  // ---------------------------------------------------------------- no overselling

  const RECORDED: Tenant -> nat := (t: Tenant) => t.recorded

  /** Disk palf may still write to; a tenant whose recorded size is zero is the hidden sys tenant. */
  const STABLE_UNLESS_HIDDEN: Tenant -> nat := (t: Tenant) => if t.recorded == 0 then 0 else t.palf.stable

  ghost predicate TenantOk(t: Tenant) {
    && t.palf.instances * MIN_DISK_SIZE_PER_PALF <= t.palf.limit <= t.palf.stable
    && (t.palf.stable <= t.recorded || t.recorded == 0)
  }

  ghost predicate Inv(l: Ledger) {
    && l.reserved == Sum(l.tenants, RECORDED)
    && l.reserved <= l.total
    && forall id | id in l.tenants :: TenantOk(l.tenants[id])
  }

  lemma WithPalfKeepsInv(l: Ledger, id: nat, p: Palf)
    requires Inv(l) && id in l.tenants && TenantOk(l.tenants[id].(palf := p))
    ensures Inv(WithPalf(l, id, p))
  {
    SumUpdate(l.tenants, RECORDED, id, l.tenants[id].(palf := p));
  }

  lemma StepKeepsInv(l: Ledger, a: Step)
    requires Inv(l) && Enabled(l, a)
    ensures Inv(Apply(l, a))
  {
    match a
    case CreateTenant(id, size) => SumUpdate(l.tenants, RECORDED, id, Tenant(size, Palf(size, size, 0)));
    case AbortCreateTenant(id) => SumWithout(l.tenants, RECORDED, id);
    case UpdateTenant(id, wanted, _) =>
      var t := l.tenants[id];
      SumUpdate(l.tenants, RECORDED, id, Tenant(Allowed(t.recorded, wanted, t.palf.stable), PalfUpdate(t.palf, wanted)));
    case RemoveTenant(id) => SumWithout(l.tenants, RECORDED, id);
    case PalfFinishesShrinking(id) => WithPalfKeepsInv(l, id, PalfShrunk(l.tenants[id].palf));
    case OpenPalf(id) => WithPalfKeepsInv(l, id, Apply(l, a).tenants[id].palf);
    case ClosePalf(id) => WithPalfKeepsInv(l, id, Apply(l, a).tenants[id].palf);
    case Resize(_) =>
    case Restart =>
  }

  /** A tenant is created exactly if the pool can hold it beside what all others are recorded with. */
  lemma CreateExactly(l: Ledger, id: nat, size: nat)
    requires Inv(l) && id !in l.tenants
    ensures var m, fits := Apply(l, CreateTenant(id, size)), Sum(l.tenants, RECORDED) + size <= l.total;
            && (id in m.tenants <==> fits)
            && (fits ==> m.reserved == Sum(l.tenants, RECORDED) + size && m.total == l.total)
            && (fits ==> m.tenants == l.tenants[id := Tenant(size, Palf(size, size, 0))])
            && (!fits ==> m == l)
  {
  }

  /** An update goes through exactly if palf takes the size and the pool can hold the size to be recorded beside
      what the others are recorded with. That size is the wanted one if it is zero or palf need not shrink to it,
      and the old one otherwise; palf gets the wanted size in any case. */
  lemma UpdateExactly(l: Ledger, id: nat, wanted: nat, palfOk: bool)
    requires Inv(l) && id in l.tenants
    ensures var m, t, others := Apply(l, UpdateTenant(id, wanted, palfOk)), l.tenants[id], Sum(l.tenants - {id}, RECORDED);
            var size := if wanted == 0 || t.palf.stable <= wanted then wanted else t.recorded;
            var goes := palfOk && t.palf.instances * MIN_DISK_SIZE_PER_PALF <= wanted && others + size <= l.total;
            && (Updates(l, UpdateTenant(id, wanted, palfOk)) <==> goes)
            && (!goes ==> m == l)
            && (goes ==> m.total == l.total && m.reserved == others + size && m.tenants - {id} == l.tenants - {id}
                         && id in m.tenants && m.tenants[id].recorded == size && m.tenants[id].palf.limit == wanted
                         && m.tenants[id].palf.instances == t.palf.instances
                         && m.tenants[id].palf.stable == if wanted <= t.palf.stable then t.palf.stable else wanted)
  {
    SumWithout(l.tenants, RECORDED, id);
  }

  /** Removing a tenant, or giving up its creation, takes exactly its recorded size off and is never refused. */
  lemma RemoveExactly(l: Ledger, id: nat, a: Step)
    requires Inv(l) && id in l.tenants && a in {RemoveTenant(id), AbortCreateTenant(id)}
    ensures Apply(l, a) == Ledger(l.total, Sum(l.tenants - {id}, RECORDED), l.tenants - {id})
  {
    SumWithout(l.tenants, RECORDED, id);
  }

  /** The pool takes a size exactly if it holds what all tenants are recorded with. */
  lemma ResizeExactly(l: Ledger, bytes: nat)
    requires Inv(l)
    ensures Apply(l, Resize(bytes)) == if Sum(l.tenants, RECORDED) <= bytes then l.(total := bytes) else l
  {
  }

  /** A log stream is opened exactly if the limit has 512 MB for each one, and the new one. */
  lemma OpenExactly(l: Ledger, id: nat)
    requires Inv(l) && id in l.tenants
    ensures Enabled(l, OpenPalf(id)) <==> l.tenants[id].palf.instances < l.tenants[id].palf.limit / 0x2000_0000
  {
  }

  lemma {:induction false} RunKeepsInv(l: Ledger, steps: seq<Step>)
    requires Inv(l) && Runs(l, steps)
    ensures Inv(After(l, steps))
    decreases |steps|
  {
    if steps != [] {
      StepKeepsInv(l, steps[0]);
      RunKeepsInv(Apply(l, steps[0]), steps[1..]);
    }
  }

  /** Over every run the ledger is the sum of the recorded sizes and fits the pool; and since palf expands
      at once and shrinks later, what palf may still write to fits as well. */
  lemma NoOverselling(total: nat, steps: seq<Step>)
    requires Runs(Ledger(total, 0, map[]), steps)
    ensures var l := After(Ledger(total, 0, map[]), steps);
            && l.reserved == Sum(l.tenants, RECORDED) && 0 <= l.reserved <= l.total
            && (forall id | id in l.tenants :: l.tenants[id].recorded != 0 ==> l.tenants[id].palf.stable <= l.tenants[id].recorded)
            && Sum(l.tenants, STABLE_UNLESS_HIDDEN) <= l.total
  {
    var l := After(Ledger(total, 0, map[]), steps);
    RunKeepsInv(Ledger(total, 0, map[]), steps);
    SumMonotone(l.tenants, STABLE_UNLESS_HIDDEN, RECORDED);
  }

  // ---------------------------------------------------------------- the hidden sys tenant

  /** What palf stops writing at, for tenants that have a log stream to write to. */
  const USED: Tenant -> nat := (t: Tenant) => if t.palf.instances == 0 then 0 else t.palf.stable

  /** A tenant off the ledger has no limit, so that it cannot have a log stream. */
  ghost predicate HiddenOk(l: Ledger) {
    forall id | id in l.tenants :: l.tenants[id].recorded == 0 ==> l.tenants[id].palf.limit == 0
  }

  /** A size below palf's stable one is given to a tenant that is off the ledger: it stays off while palf takes
      the size. */
  predicate Careless(l: Ledger, a: Step)
    requires Enabled(l, a)
  {
    a.UpdateTenant? && Updates(l, a) && l.tenants[a.id].recorded == 0 && 0 < a.wanted < l.tenants[a.id].palf.stable
  }

  /** palf takes a zero size exactly from a tenant without log streams. */
  lemma ZeroSizeExactly(l: Ledger, id: nat)
    requires Inv(l) && id in l.tenants
    ensures Updates(l, UpdateTenant(id, 0, true)) <==> l.tenants[id].palf.instances == 0
  {
    SumWithout(l.tenants, RECORDED, id);
  }

  /** That is the only step after which a tenant off the ledger may have log streams. */
  lemma CarelessExactly(l: Ledger, a: Step)
    requires Inv(l) && HiddenOk(l) && Enabled(l, a)
    ensures HiddenOk(Apply(l, a)) <==> !Careless(l, a)
  {
    if Careless(l, a) {
      assert Apply(l, a).tenants[a.id].recorded == 0 && Apply(l, a).tenants[a.id].palf.limit == a.wanted;
    }
  }

  ghost predicate NeverCareless(l: Ledger, steps: seq<Step>)
    requires Runs(l, steps)
    decreases |steps|
  {
    steps != [] ==> !Careless(l, steps[0]) && NeverCareless(Apply(l, steps[0]), steps[1..])
  }

  lemma {:induction false} RunKeepsHiddenOk(l: Ledger, steps: seq<Step>)
    requires Inv(l) && HiddenOk(l) && Runs(l, steps) && NeverCareless(l, steps)
    ensures Inv(After(l, steps)) && HiddenOk(After(l, steps))
    decreases |steps|
  {
    if steps != [] {
      StepKeepsInv(l, steps[0]);
      CarelessExactly(l, steps[0]);
      RunKeepsHiddenOk(Apply(l, steps[0]), steps[1..]);
    }
  }

  lemma UsedFits(l: Ledger)
    requires Inv(l) && HiddenOk(l)
    ensures Sum(l.tenants, USED) <= l.total
  {
    forall id | id in l.tenants ensures USED(l.tenants[id]) <= RECORDED(l.tenants[id]) {
      assert TenantOk(l.tenants[id]);
    }
    SumMonotone(l.tenants, USED, RECORDED);
  }

  /** Over every run in which no tenant off the ledger is given a size below palf's stable one, what palf may
      write to fits the pool without exception, the hidden sys tenant included. */
  lemma NoOversellingOfUsed(total: nat, steps: seq<Step>)
    requires Runs(Ledger(total, 0, map[]), steps) && NeverCareless(Ledger(total, 0, map[]), steps)
    ensures Sum(After(Ledger(total, 0, map[]), steps).tenants, USED) <= After(Ledger(total, 0, map[]), steps).total
  {
    RunKeepsHiddenOk(Ledger(total, 0, map[]), steps);
    UsedFits(After(Ledger(total, 0, map[]), steps));
  }

  // ---------------------------------------------------------------- a careless update

  ghost predicate Leads(l: Ledger, steps: seq<Step>, m: Ledger) { Runs(l, steps) && After(l, steps) == m }

  lemma LeadsFirst(l: Ledger, a: Step, steps: seq<Step>, m: Ledger)
    requires Enabled(l, a) && Leads(Apply(l, a), steps, m)
    ensures Leads(l, [a] + steps, m)
  {
    assert ([a] + steps)[1..] == steps;
  }

  /** All tenants but one can be removed. */
  lemma {:induction false} RemoveOthers(l: Ledger, id: nat) returns (steps: seq<Step>, m: Ledger)
    requires Inv(l) && id in l.tenants
    ensures Leads(l, steps, m) && Inv(m) && m.total == l.total && m.tenants == map[id := l.tenants[id]]
    decreases |l.tenants|
  {
    if other :| other in l.tenants && other != id {
      var a := RemoveTenant(other);
      SumWithout(l.tenants, RECORDED, other);
      StepKeepsInv(l, a);
      steps, m := RemoveOthers(Apply(l, a), id);
      LeadsFirst(l, a, steps, m);
      steps := [a] + steps;
    } else {
      assert l.tenants == map[id := l.tenants[id]];
      steps, m := [], l;
    }
  }

  lemma SumOfTwo(a: nat, t: Tenant, b: nat, u: Tenant, f: Tenant -> nat)
    requires a != b
    ensures Sum(map[a := t], f) == f(t) && Sum(map[a := t][b := u], f) == f(t) + f(u)
  {
    SumUpdate(map[], f, a, t);
    assert map[][a := t] == map[a := t];
    SumUpdate(map[a := t], f, b, u);
  }

  /** The one tenant off the ledger, and another one that is promised everything. */
  function TwoTenants(id: nat, palf: Palf, total: nat, instances: nat): map<nat, Tenant> {
    map[id := Tenant(0, palf)][id + 1 := Tenant(total, Palf(total, total, instances))]
  }

  lemma Promise(l: Ledger, id: nat, palf: Palf) returns (m: Ledger)
    requires Inv(l) && l.tenants == map[id := Tenant(0, palf)]
    ensures Enabled(l, CreateTenant(id + 1, l.total)) && m == Apply(l, CreateTenant(id + 1, l.total))
    ensures m == l.(reserved := l.total, tenants := TwoTenants(id, palf, l.total, 0))
  {
    SumWithout(l.tenants, RECORDED, id);
    assert l.tenants - {id} == map[];
    m := Apply(l, CreateTenant(id + 1, l.total));
  }

  lemma OpenOther(l: Ledger, id: nat, palf: Palf) returns (m: Ledger)
    requires l.tenants == TwoTenants(id, palf, l.total, 0) && MIN_DISK_SIZE_PER_PALF <= l.total
    ensures Enabled(l, OpenPalf(id + 1)) && m == Apply(l, OpenPalf(id + 1))
    ensures m == l.(tenants := TwoTenants(id, palf, l.total, 1))
  {
    m := Apply(l, OpenPalf(id + 1));
    assert m.tenants == TwoTenants(id, palf, l.total, 1);
  }

  lemma TakeOff(l: Ledger, id: nat) returns (m: Ledger)
    requires Inv(l) && id in l.tenants && l.tenants[id].palf.instances == 0
    ensures Enabled(l, UpdateTenant(id, 0, true)) && m == Apply(l, UpdateTenant(id, 0, true)) && Inv(m) && m.total == l.total
    ensures id in m.tenants && m.tenants[id] == Tenant(0, Palf(l.tenants[id].palf.stable, 0, 0))
  {
    ZeroSizeExactly(l, id);
    m := Apply(l, UpdateTenant(id, 0, true));
    StepKeepsInv(l, UpdateTenant(id, 0, true));
  }

  lemma GiveLeast(l: Ledger, id: nat, stable: nat) returns (m: Ledger)
    requires l.reserved == l.total && l.tenants == TwoTenants(id, Palf(stable, 0, 0), l.total, 1) && MIN_DISK_SIZE_PER_PALF < stable
    ensures var give := UpdateTenant(id, MIN_DISK_SIZE_PER_PALF, true); Enabled(l, give) && m == Apply(l, give)
    ensures m == l.(tenants := TwoTenants(id, Palf(stable, MIN_DISK_SIZE_PER_PALF, 0), l.total, 1))
  {
    m := Apply(l, UpdateTenant(id, MIN_DISK_SIZE_PER_PALF, true));
    assert m.tenants == TwoTenants(id, Palf(stable, MIN_DISK_SIZE_PER_PALF, 0), l.total, 1);
  }

  lemma OpenAgain(l: Ledger, id: nat, stable: nat) returns (m: Ledger)
    requires l.tenants == TwoTenants(id, Palf(stable, MIN_DISK_SIZE_PER_PALF, 0), l.total, 1)
    ensures Enabled(l, OpenPalf(id)) && m == Apply(l, OpenPalf(id))
    ensures m.total == l.total && m.reserved == l.reserved && Sum(m.tenants, USED) == l.total + stable
  {
    m := Apply(l, OpenPalf(id));
    assert m.tenants == TwoTenants(id, Palf(stable, MIN_DISK_SIZE_PER_PALF, 1), l.total, 1);
    SumOfTwo(id, m.tenants[id], id + 1, m.tenants[id + 1], USED);
  }

  /** The careless update is real, from every ledger: a tenant without log streams for which palf's stable size
      is above the least one is turned into the hidden sys tenant and then given that least size before palf has
      shrunk. It can have a log stream again while all disk is promised to another, and palf may write to more
      than there is. */
  lemma HiddenTenantOversells(l: Ledger, id: nat) returns (steps: seq<Step>, m: Ledger)
    requires Inv(l) && id in l.tenants && l.tenants[id].palf.instances == 0
    requires MIN_DISK_SIZE_PER_PALF < l.tenants[id].palf.stable && MIN_DISK_SIZE_PER_PALF <= l.total
    ensures Leads(l, [UpdateTenant(id, 0, true)] + steps, m)
    ensures m.reserved == m.total == l.total && Sum(m.tenants, USED) == m.total + l.tenants[id].palf.stable > m.total
  {
    hide *;
    var stable := l.tenants[id].palf.stable;
    var create := CreateTenant(id + 1, l.total);
    var give, open := UpdateTenant(id, MIN_DISK_SIZE_PER_PALF, true), OpenPalf(id);
    var l1 := TakeOff(l, id);
    var xs, l2 := RemoveOthers(l1, id);
    var l3 := Promise(l2, id, Palf(stable, 0, 0));
    var l4 := OpenOther(l3, id, Palf(stable, 0, 0));
    var l5 := GiveLeast(l4, id, stable);
    m := OpenAgain(l5, id, stable);
    LeadsOn(l1, xs, l2, create);
    LeadsOn(l1, xs + [create], l3, OpenPalf(id + 1));
    LeadsOn(l1, xs + [create] + [OpenPalf(id + 1)], l4, give);
    LeadsOn(l1, xs + [create] + [OpenPalf(id + 1)] + [give], l5, open);
    steps := xs + [create] + [OpenPalf(id + 1)] + [give] + [open];
    LeadsFirst(l, UpdateTenant(id, 0, true), steps, m);
  }

  lemma {:induction false} LeadsOn(l: Ledger, steps: seq<Step>, m: Ledger, a: Step)
    requires Leads(l, steps, m) && Enabled(m, a)
    ensures Leads(l, steps + [a], Apply(m, a))
    decreases |steps|
  {
    if steps == [] {
      assert (steps + [a])[1..] == [];
    } else {
      LeadsOn(Apply(l, steps[0]), steps[1..], m, a);
      assert (steps + [a])[1..] == steps[1..] + [a];
    }
  }
}
