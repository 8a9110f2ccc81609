/** Database and gateway over runs in which VMs come and go while their owners edit ports
    (backend/services/vm_service.py, backend/api/routes/firewall.py). A creation and a deletion are
    one event each, with whatever outcome the contracts of VmService allow. */
module GatewayAgreement {
  import opened Prelude
  import opened Iptables
  import opened PortPolicy
  import NetworkService
  import Allocation
  import Firewall
  import VmService

  type State = Firewall.State
  type Addresses = Firewall.Addresses

  /** The port table, the gateway's chains, and the addresses of the VMs there are. */
  datatype World = World(state: State, ips: Addresses)

  /** A creation past its choices leaves its rows or not, and `left` of its rules: all of either
      when it succeeds, none when it is rolled back in full. A deletion drops the rows or not, and
      leaves the gateway with `chains`. */
  datatype Event =
    | Port(op: Firewall.Op)
    | Create(vm: int, ip: Ip, ports: ServicePorts, first: int, kept: bool, left: seq<Rule>)
    | Delete(vm: int, listed: seq<PortRow>, base: int, vmid: int, chains: Chains, dropped: bool)

  predicate Enabled(w: World, e: Event) {
    match e
    case Port(op) => Firewall.Enabled(w.state, w.ips, op)
    case Create(vm, ip, ports, first, _, left) =>
      && (forall i | i in w.state.rows :: i < first && w.state.rows[i].vm != vm)
      && (forall v | v in w.ips :: v != vm && w.ips[v] != ip)
      && Firewall.PortsDistinct(DefaultRows(vm, ports)) && Firewall.NoneTaken(w.state.rows, DefaultRows(vm, ports))
      && (forall r | r in left :: r in DefaultRules(ports, ip))
    case Delete(vm, listed, base, vmid, chains, _) =>
      && ListsRows(w.state.rows, vm, listed)
      && (if vm in w.ips then OnlyPurges(w.state.chains, chains, VmService.RulesToDelete(listed, base, vmid, w.ips[vm]))
          else chains == w.state.chains)
  }

  /** The answer to the query for the VM's port rows. */
  predicate ListsRows(rows: PortTable, vm: int, listed: seq<PortRow>) {
    && (forall row | row in listed :: row.vm == vm && exists i | i in rows :: rows[i] == row)
    && (forall i | i in rows && rows[i].vm == vm :: rows[i] in listed)
  }

  function Apply(w: World, e: Event): World
    requires Enabled(w, e)
  {
    match e
    case Port(op) => w.(state := Firewall.Apply(w.state, w.ips, op))
    case Create(vm, ip, ports, first, kept, left) =>
      var chains := w.state.chains.AddAll(left);
      if kept then World(Firewall.State(Firewall.InsertAll(w.state.rows, first, DefaultRows(vm, ports)), chains),
                         w.ips[vm := ip])
      else World(Firewall.State(w.state.rows, chains), w.ips)
    case Delete(vm, listed, base, vmid, chains, dropped) =>
      if dropped then World(Firewall.State(Without(w.state.rows, vm), chains), w.ips - {vm})
      else World(Firewall.State(w.state.rows, chains), w.ips)
  }

  function Without(rows: PortTable, vm: int): PortTable { map i | i in rows && rows[i].vm != vm :: rows[i] }

  function Step(w: World, e: Event): World { if Enabled(w, e) then Apply(w, e) else w }

  function Run(w: World, es: seq<Event>): World {
    if es == [] then w else Step(Run(w, es[..|es| - 1]), es[|es| - 1])
  }

  // ---------------------------------------------------------------------------
  // Which rules are whose
  // ---------------------------------------------------------------------------

  /** Ports unique, addresses distinct, and a row behind every forwarding rule. */
  ghost predicate Inv(w: World) {
    && UniquePorts(w.state.rows) && Firewall.DistinctAddresses(w.ips) && Firewall.AllBacked(w.state, w.ips)
  }

  function IpOf(r: Rule): Option<Ip> {
    match r
    case Dnat(_, _, _, ip, _) => Some(ip)
    case Accept(_, _, ip, _) => Some(ip)
    case Foreign(_, _) => None
  }

  lemma RowRulesNameIp(row: PortRow, ip: Ip)
    ensures forall r | r in RowRules(row, ip) :: IpOf(r) == Some(ip)
  {
    Firewall.RowRulesMembers(row, ip);
  }

  lemma RulesOfRowsNameIp(rows: seq<PortRow>, ip: Ip)
    ensures forall r | r in RulesOfRows(rows, ip) :: IpOf(r) == Some(ip)
  {
    RulesOfRowsMembers(rows, ip);
    forall row | row in rows ensures forall r | r in RowRules(row, ip) :: IpOf(r) == Some(ip) {
      RowRulesNameIp(row, ip);
    }
  }

  lemma DeletedRulesNameIp(listed: seq<PortRow>, base: int, vmid: int, ip: Ip)
    ensures forall r | r in VmService.RulesToDelete(listed, base, vmid, ip) :: IpOf(r) == Some(ip)
    ensures forall r | r in RulesOfRows(listed, ip) :: r in VmService.RulesToDelete(listed, base, vmid, ip)
  {
    RulesOfRowsNameIp(listed, ip);
  }

  /** No row is behind a rule for an address that no VM has. */
  lemma NewRulesUnbacked(w: World, ip: Ip, r: Rule)
    requires (forall v | v in w.ips :: w.ips[v] != ip) && IpOf(r) == Some(ip)
    ensures !Firewall.Backed(w.state.rows, w.ips, r)
  {
    forall i | i in w.state.rows && w.state.rows[i].vm in w.ips
      ensures !Firewall.Backs(w.state.rows[i], w.ips, r)
    {
      RowRulesNameIp(w.state.rows[i], w.ips[w.state.rows[i].vm]);
    }
  }

  /** So no such rule is on the gateway. */
  lemma NewRulesAbsent(w: World, ports: ServicePorts, ip: Ip)
    requires Inv(w) && forall v | v in w.ips :: w.ips[v] != ip
    ensures forall r | r in DefaultRules(ports, ip) :: !w.state.chains.Has(r)
  {
    forall r | r in DefaultRules(ports, ip) ensures !w.state.chains.Has(r) {
      NewRulesUnbacked(w, ip, r);
    }
  }

  /** In such a world a failed creation whose cleanup goes through restores the gateway, and
      everything else, without a condition on the rules. */
  lemma FailedCreationRestores(w: World, before: VmService.World, after: VmService.World, f: VmService.CreateFaults,
                               req: VmService.Request, vmid: int, ip: Ip)
    requires Inv(w) && before.chains == w.state.chains && forall v | v in w.ips :: w.ips[v] != ip
    requires VmService.Restored(before, after, f, VmService.NewRules(req, vmid, ip))
    requires !f.clone.Lost? && f.purge.Effective() && f.row.Effective()
    requires NetworkService.AddCompensates(f.rules, before.chains, VmService.NewRules(req, vmid, ip))
    requires NetworkService.DeleteWorks(f.unrules, VmService.NewRules(req, vmid, ip))
    ensures after == before
  {
    if CalculatePorts(req.base, vmid).Some? { NewRulesAbsent(w, CalculatePorts(req.base, vmid).value, ip); }
    VmService.FailureLeavesNoTrace(before, after, f, VmService.NewRules(req, vmid, ip));
  }

  // ---------------------------------------------------------------------------
  // One step
  // ---------------------------------------------------------------------------

  /** The rules of the VM a creation or a deletion is about. */
  function OwnRules(w: World, e: Event): seq<Rule> {
    match e
    case Port(_) => []
    case Create(vm, ip, ports, _, _, _) => DefaultRules(ports, ip)
    case Delete(vm, listed, _, _, _, _) => if vm in w.ips then RulesOfRows(listed, w.ips[vm]) else []
  }

  /** Its rows are in the table afterwards. */
  predicate RowsStay(e: Event) { (e.Create? && e.kept) || (e.Delete? && !e.dropped) }

  /** The rules on the gateway and the rows behind them, after a creation. */
  lemma AfterCreate(w: World, e: Event, r: Rule)
    requires e.Create? && Enabled(w, e)
    ensures Apply(w, e).state.chains.Has(r) <==> w.state.chains.Has(r) || r in e.left
    ensures Firewall.Backed(Apply(w, e).state.rows, Apply(w, e).ips, r) <==>
              Firewall.Backed(w.state.rows, w.ips, r) || (RowsStay(e) && r in OwnRules(w, e))
    ensures r in OwnRules(w, e) ==> !Firewall.Backed(w.state.rows, w.ips, r)
  {
    HasAfterAddAll(w.state.chains, e.left, r);
    if r in OwnRules(w, e) { NewRulesUnbacked(w, e.ip, r); }
    if e.kept {
      DefaultRowsCarryDefaultRules(e.vm, e.ports, e.ip);
      RowsAfterCreate(w.state.rows, Apply(w, e).state.rows, w.ips, Apply(w, e).ips, e.vm, e.ip,
                      DefaultRows(e.vm, e.ports), e.first, r);
    }
  }

  lemma RowsAfterCreate(rows: PortTable, rows': PortTable, ips: Addresses, ips': Addresses, vm: int, ip: Ip,
                        m: seq<PortRow>, first: int, r: Rule)
    requires rows' == Firewall.InsertAll(rows, first, m) && ips' == ips[vm := ip]
    requires forall i | i in rows :: i < first && rows[i].vm != vm
    requires forall row | row in m :: row.vm == vm
    ensures Firewall.Backed(rows', ips', r) <==> Firewall.Backed(rows, ips, r) || r in RulesOfRows(m, ip)
  {
    Firewall.InsertAllExtends(rows, first, m);
    Firewall.ExtendedBacked(rows, rows', first, m, ips', r);
    RulesOfRowsMembers(m, ip);
  }

  /** After a deletion the VM's rows are behind nothing if they are gone, and only the VM's own
      rules can be. */
  lemma AfterDelete(w: World, e: Event, r: Rule)
    requires e.Delete? && Enabled(w, e) && Inv(w) && !r.Foreign?
    ensures Apply(w, e).state.chains.Has(r) ==> w.state.chains.Has(r)
    ensures w.state.chains.Has(r) && r !in OwnRules(w, e) ==> Apply(w, e).state.chains.Has(r)
    ensures Firewall.Backed(Apply(w, e).state.rows, Apply(w, e).ips, r) <==>
              Firewall.Backed(w.state.rows, w.ips, r) && (RowsStay(e) || r !in OwnRules(w, e))
    ensures r in OwnRules(w, e) ==> Firewall.Backed(w.state.rows, w.ips, r)
  {
    RowsAfterDelete(w, e, r);
    if e.vm in w.ips {
      var list := VmService.RulesToDelete(e.listed, e.base, e.vmid, w.ips[e.vm]);
      OnlyPurgesMembers(w.state.chains, e.chains, list);
      DeletedRulesNameIp(e.listed, e.base, e.vmid, w.ips[e.vm]);
      if w.state.chains.Has(r) && r in list { BackedByOwner(w, e, r); }
    }
  }

  /** A row is behind a rule for the VM's address exactly if it is one of the VM's. */
  lemma BackedByOwner(w: World, e: Event, r: Rule)
    requires e.Delete? && Enabled(w, e) && Firewall.DistinctAddresses(w.ips) && e.vm in w.ips
    ensures forall i | i in w.state.rows && Firewall.Backs(w.state.rows[i], w.ips, r) ::
              && (w.state.rows[i].vm == e.vm <==> IpOf(r) == Some(w.ips[e.vm]))
              && (w.state.rows[i].vm == e.vm ==> r in OwnRules(w, e))
    ensures r in OwnRules(w, e) ==> IpOf(r) == Some(w.ips[e.vm]) && Firewall.Backed(w.state.rows, w.ips, r)
  {
    RulesOfRowsMembers(e.listed, w.ips[e.vm]);
    RulesOfRowsNameIp(e.listed, w.ips[e.vm]);
    forall i | i in w.state.rows && Firewall.Backs(w.state.rows[i], w.ips, r)
      ensures w.state.rows[i].vm == e.vm <==> IpOf(r) == Some(w.ips[e.vm])
      ensures w.state.rows[i].vm == e.vm ==> r in OwnRules(w, e)
    {
      RowRulesNameIp(w.state.rows[i], w.ips[w.state.rows[i].vm]);
    }
    if r in OwnRules(w, e) {
      var row :| row in e.listed && r in RowRules(row, w.ips[e.vm]);
      var i :| i in w.state.rows && w.state.rows[i] == row;
      assert Firewall.Backs(w.state.rows[i], w.ips, r);
    }
  }

  lemma RowsAfterDelete(w: World, e: Event, r: Rule)
    requires e.Delete? && Enabled(w, e) && Firewall.DistinctAddresses(w.ips)
    ensures Firewall.Backed(Apply(w, e).state.rows, Apply(w, e).ips, r) <==>
              Firewall.Backed(w.state.rows, w.ips, r) && (RowsStay(e) || r !in OwnRules(w, e))
    ensures r in OwnRules(w, e) ==> Firewall.Backed(w.state.rows, w.ips, r)
  {
    var t := Apply(w, e);
    if e.vm in w.ips { BackedByOwner(w, e, r); }
    if i :| i in w.state.rows && w.state.rows[i].vm != e.vm && Firewall.Backs(w.state.rows[i], w.ips, r) {
      assert i in t.state.rows && Firewall.Backs(t.state.rows[i], t.ips, r);
    }
    if i :| i in t.state.rows && Firewall.Backs(t.state.rows[i], t.ips, r) {
      assert i in w.state.rows && Firewall.Backs(w.state.rows[i], w.ips, r);
    }
  }

  /** No rule is left without its row: a creation that leaves rules leaves its rows, and a
      deletion that drops the rows has got all their rules removed. */
  predicate Covered(w: World, e: Event)
    requires Enabled(w, e)
  {
    match e
    case Port(op) => Firewall.Covered(w.state, w.ips, op)
    case Create(_, _, _, _, kept, left) => kept || left == []
    case Delete(_, _, _, _, chains, dropped) => dropped ==> forall r | r in OwnRules(w, e) :: !chains.Has(r)
  }

  lemma CreateKeepsInv(w: World, e: Event)
    requires Inv(w) && Enabled(w, e) && e.Create?
    ensures Inv(Apply(w, e)) <==> Covered(w, e)
  {
    if e.kept {
      Firewall.InsertAllExtends(w.state.rows, e.first, DefaultRows(e.vm, e.ports));
      Firewall.ExtendedUniquePorts(w.state.rows, Apply(w, e).state.rows, e.first, DefaultRows(e.vm, e.ports));
    }
    CreateKeepsBacked(w, e);
  }

  lemma CreateKeepsBacked(w: World, e: Event)
    requires Inv(w) && Enabled(w, e) && e.Create?
    ensures Firewall.AllBacked(Apply(w, e).state, Apply(w, e).ips) <==> Covered(w, e)
  {
    forall r: Rule { AfterCreate(w, e, r); }
    if e.left != [] { assert e.left[0] in e.left && !e.left[0].Foreign?; }
  }

  lemma DeleteKeepsInv(w: World, e: Event)
    requires Inv(w) && Enabled(w, e) && e.Delete?
    ensures Inv(Apply(w, e)) <==> Covered(w, e)
  {
    if e.vm in w.ips { RulesOfRowsNameIp(e.listed, w.ips[e.vm]); }
    forall r: Rule | !r.Foreign? { AfterDelete(w, e, r); }
  }

  /** The invariant survives exactly under that condition. */
  lemma ApplyKeepsInv(w: World, e: Event)
    requires Inv(w) && Enabled(w, e)
    ensures Inv(Apply(w, e)) <==> Covered(w, e)
  {
    match e
    case Port(op) =>
      Firewall.ApplyKeepsUniquePorts(w.state, w.ips, op);
      Firewall.ApplyKeepsBacked(w.state, w.ips, op);
    case Create(_, _, _, _, _, _) => CreateKeepsInv(w, e);
    case Delete(_, _, _, _, _, _) => DeleteKeepsInv(w, e);
  }

  /** The VM's DNAT rules are there just when its rows are. */
  predicate DnatKept(w: World, e: Event)
    requires Enabled(w, e)
  {
    if e.Port? then Firewall.DnatKept(w.state, w.ips, e.op)
    else forall r | r in OwnRules(w, e) && r.Dnat? :: Apply(w, e).state.chains.Has(r) <==> RowsStay(e)
  }

  /** The same for its FORWARD rules. */
  predicate ForwardKept(w: World, e: Event)
    requires Enabled(w, e)
  {
    if e.Port? then Firewall.ForwardKept(w.state, w.ips, e.op)
    else forall r | r in OwnRules(w, e) && r.Accept? :: Apply(w, e).state.chains.Has(r) <==> RowsStay(e)
  }

  /** The rules of other VMs, and the rows behind them, are as before. */
  lemma OthersInStep(w: World, e: Event, r: Rule)
    requires Inv(w) && Enabled(w, e) && !e.Port? && !r.Foreign?
    requires w.state.chains.Has(r) <==> Firewall.Backed(w.state.rows, w.ips, r)
    ensures (Apply(w, e).state.chains.Has(r) <==> Firewall.Backed(Apply(w, e).state.rows, Apply(w, e).ips, r)) <==>
              (r in OwnRules(w, e) ==> (Apply(w, e).state.chains.Has(r) <==> RowsStay(e)))
  {
    if e.Create? { AfterCreate(w, e, r); } else { AfterDelete(w, e, r); }
  }

  lemma ApplyKeepsDnatExact(w: World, e: Event)
    requires Inv(w) && Enabled(w, e) && Firewall.DnatExact(w.state, w.ips)
    ensures Firewall.DnatExact(Apply(w, e).state, Apply(w, e).ips) <==> DnatKept(w, e)
  {
    if e.Port? {
      Firewall.ApplyKeepsDnatExact(w.state, w.ips, e.op);
    } else {
      forall r: Rule | r.Dnat? { OthersInStep(w, e, r); }
    }
  }

  lemma ApplyKeepsForwardExact(w: World, e: Event)
    requires Inv(w) && Enabled(w, e) && Firewall.ForwardExact(w.state, w.ips)
    ensures Firewall.ForwardExact(Apply(w, e).state, Apply(w, e).ips) <==> ForwardKept(w, e)
  {
    if e.Port? {
      Firewall.ApplyKeepsForwardExact(w.state, w.ips, e.op);
    } else {
      forall r: Rule | r.Accept? { OthersInStep(w, e, r); }
    }
  }

  // ---------------------------------------------------------------------------
  // Runs
  // ---------------------------------------------------------------------------

  /** The event at position n of the run, if it can happen, leaves no rule without a row. */
  predicate CoveredAt(w: World, es: seq<Event>, n: nat)
    requires n < |es|
  {
    Enabled(Run(w, es[..n]), es[n]) ==> Covered(Run(w, es[..n]), es[n])
  }

  predicate DnatKeptAt(w: World, es: seq<Event>, n: nat)
    requires n < |es|
  {
    Enabled(Run(w, es[..n]), es[n]) ==> DnatKept(Run(w, es[..n]), es[n])
  }

  predicate ForwardKeptAt(w: World, es: seq<Event>, n: nat)
    requires n < |es|
  {
    Enabled(Run(w, es[..n]), es[n]) ==> ForwardKept(Run(w, es[..n]), es[n])
  }

  /** Over every run of creations, deletions and port operations, failing and rolled back ones
      included, that leaves no rule without a row: ports and addresses are given out once, and
      every forwarding rule has a row behind it. */
  lemma {:induction false} RunKeepsInv(w: World, es: seq<Event>)
    requires Inv(w) && forall n | 0 <= n < |es| :: CoveredAt(w, es, n)
    ensures Inv(Run(w, es))
  {
    if es == [] {
    } else {
      var front := es[..|es| - 1];
      forall n | 0 <= n < |front| ensures CoveredAt(w, front, n) {
        assert CoveredAt(w, es, n) && front[..n] == es[..n];
      }
      RunKeepsInv(w, front);
      assert CoveredAt(w, es, |es| - 1);
      if Enabled(Run(w, front), es[|es| - 1]) { ApplyKeepsInv(Run(w, front), es[|es| - 1]); }
    }
  }

  /** If besides each event keeps its own DNAT rules in step, they are exactly those of the rows. */
  lemma {:induction false} RunKeepsDnatExact(w: World, es: seq<Event>)
    requires Inv(w) && Firewall.DnatExact(w.state, w.ips)
    requires forall n | 0 <= n < |es| :: CoveredAt(w, es, n) && DnatKeptAt(w, es, n)
    ensures Firewall.DnatExact(Run(w, es).state, Run(w, es).ips)
  {
    if es == [] {
    } else {
      var front := es[..|es| - 1];
      forall n | 0 <= n < |front| ensures CoveredAt(w, front, n) && DnatKeptAt(w, front, n) {
        assert CoveredAt(w, es, n) && DnatKeptAt(w, es, n) && front[..n] == es[..n];
      }
      RunKeepsDnatExact(w, front);
      RunKeepsInv(w, front);
      assert DnatKeptAt(w, es, |es| - 1);
      if Enabled(Run(w, front), es[|es| - 1]) { ApplyKeepsDnatExact(Run(w, front), es[|es| - 1]); }
    }
  }

  /** The same for the FORWARD rules. */
  lemma {:induction false} RunKeepsForwardExact(w: World, es: seq<Event>)
    requires Inv(w) && Firewall.ForwardExact(w.state, w.ips)
    requires forall n | 0 <= n < |es| :: CoveredAt(w, es, n) && ForwardKeptAt(w, es, n)
    ensures Firewall.ForwardExact(Run(w, es).state, Run(w, es).ips)
  {
    if es == [] {
    } else {
      var front := es[..|es| - 1];
      forall n | 0 <= n < |front| ensures CoveredAt(w, front, n) && ForwardKeptAt(w, front, n) {
        assert CoveredAt(w, es, n) && ForwardKeptAt(w, es, n) && front[..n] == es[..n];
      }
      RunKeepsForwardExact(w, front);
      RunKeepsInv(w, front);
      assert ForwardKeptAt(w, es, |es| - 1);
      if Enabled(Run(w, front), es[|es| - 1]) { ApplyKeepsForwardExact(Run(w, front), es[|es| - 1]); }
    }
  }

  // ---------------------------------------------------------------------------
  // What create_vm and delete_vm do is such an event
  // ---------------------------------------------------------------------------

  function Ips(t: VmService.Tables): Addresses { map v | v in t.vms && t.vms[v].ip.Some? :: t.vms[v].ip.value }

  /** The part of the tables and the gateway that this module is about. */
  function View(t: VmService.Tables, c: Chains): World { World(Firewall.State(t.ports, c), Ips(t)) }

  /** Whatever a creation does that gets past its reservation, by the contract of
      VmService.CreateVm: it is an event, a successful one leaves all its rows and rules, and one
      that restores tables and chains leaves none. */
  lemma CreationIsEvent(before: VmService.World, after: VmService.World, id: int, port: int, req: VmService.Request,
                        f: VmService.CreateFaults, vmid: int, ip: Ip) returns (e: Event)
    requires before.tables.Linked() && id !in before.tables.vms && forall p | p in before.tables.ports :: p < port
    requires f.first.Some? && VmService.WellChosen(before.tables, req, f, vmid, ip)
    requires Inv(View(before.tables, before.chains))
    requires NetworkService.OnlyTouches(before.chains, after.chains, VmService.NewRules(req, vmid, ip))
    requires var r := VmService.Reserved(before.tables, id, port, req, vmid, ip);
             id in r.vms && (after.tables == before.tables || after.tables == r || after.tables == r.MarkReady(id))
    ensures var w := View(before.tables, before.chains);
            && e.Create? && e.vm == id && Enabled(w, e) && Apply(w, e) == View(after.tables, after.chains)
            && (VmService.Completed(before, after, id, port, req, vmid, ip) ==>
                  Covered(w, e) && DnatKept(w, e) && ForwardKept(w, e) && RowsStay(e))
            && (after.tables == before.tables && after.chains == before.chains ==>
                  Covered(w, e) && DnatKept(w, e) && ForwardKept(w, e) && !RowsStay(e))
  {
    var w, ports := View(before.tables, before.chains), CalculatePorts(req.base, vmid).value;
    var rules, reserved := DefaultRules(ports, ip), VmService.Reserved(before.tables, id, port, req, vmid, ip);
    NewRulesAbsent(w, ports, ip);
    var middle :| NetworkService.OnlyAdds(before.chains, middle, rules) && OnlyPurges(middle, after.chains, rules);
    var v :| middle == before.chains.AddAll(v) && forall r | r in v :: r in rules && !before.chains.Has(r);
    var left := AddedAndThinned(before.chains, v, after.chains, rules);
    if after.chains == before.chains && left != [] { HasAfterAddAll(before.chains, left, left[0]); }
    e := Create(id, ip, ports, port, after.tables != before.tables, left);
    ReservationIsInsertion(before.tables, id, port, req, vmid, ip);
    NewPortsFree(before.tables, id, req, f, vmid);
    NetworkService.AddedRulesPresent(before.chains, rules);
  }

  lemma ReservationIsInsertion(t: VmService.Tables, id: int, port: int, req: VmService.Request, vmid: int, ip: Ip)
    requires CalculatePorts(req.base, vmid).Some? && id !in t.vms
    ensures var r := VmService.Reserved(t, id, port, req, vmid, ip);
            var d := DefaultRows(id, CalculatePorts(req.base, vmid).value);
            && r.ports == Firewall.InsertAll(t.ports, port, d) && id in r.vms
            && Ips(r) == Ips(t)[id := ip] && Ips(r.MarkReady(id)) == Ips(r) && r != t && r.MarkReady(id) != t
  {
    var d := DefaultRows(id, CalculatePorts(req.base, vmid).value);
    var r := VmService.Reserved(t, id, port, req, vmid, ip);
    assert d[..2][..1] == d[..1] && d[..1][..0] == [] && d[..3] == d;
    assert Firewall.InsertAll(t.ports, port, d[..1]) == t.ports[port := d[0]];
    assert Firewall.InsertAll(t.ports, port, d[..2]) == t.ports[port := d[0]][port + 1 := d[1]];
    assert id in r.vms && id in r.MarkReady(id).vms;
  }

  lemma NewPortsFree(t: VmService.Tables, id: int, req: VmService.Request, f: VmService.CreateFaults, vmid: int)
    requires Allocation.Free(VmService.View(t, f.seen, req), vmid)
    ensures var d := DefaultRows(id, CalculatePorts(req.base, vmid).value);
            Firewall.PortsDistinct(d) && Firewall.NoneTaken(t.ports, d)
  {
    var ports := CalculatePorts(req.base, vmid).value;
    var d := DefaultRows(id, ports);
    assert d[0].externalPort == ports.ssh && d[1].externalPort == ports.svc1 && d[2].externalPort == ports.svc2;
    assert d[0].internalPort == 22 && d[1].internalPort == 80 && d[2].internalPort == 10000;
    VmService.Separate(ports.Set(), t.ExternalPorts());
    assert forall p | p in t.ports :: t.ports[p].externalPort in t.ExternalPorts();
  }

  /** Whatever a deletion does, by the contract of VmService.DeleteVm, is an event, and one that
      removes all rules with the rows, or nothing at all, keeps the agreement. */
  lemma DeletionIsEvent(before: VmService.World, after: VmService.World, id: int, rows: seq<PortRow>, base: int)
    requires id in before.tables.vms && VmService.PortRowsOf(before.tables, id, rows)
    requires Inv(View(before.tables, before.chains))
    requires after.tables == before.tables || after.tables == before.tables.Drop(id)
    requires var vm := before.tables.vms[id];
             if vm.ip.None? then after.chains == before.chains
             else OnlyPurges(before.chains, after.chains, VmService.RulesToDelete(rows, base, vm.vmid, vm.ip.value))
    ensures var w, vm := View(before.tables, before.chains), before.tables.vms[id];
            var e := Delete(id, rows, base, vm.vmid, after.chains, after.tables != before.tables);
            && Enabled(w, e) && Apply(w, e) == View(after.tables, after.chains)
            && (e.dropped && vm.ip.Some?
                && after.chains == before.chains.Purge(VmService.RulesToDelete(rows, base, vm.vmid, vm.ip.value)) ==>
                  Covered(w, e) && DnatKept(w, e) && ForwardKept(w, e))
            && (!e.dropped ==> Covered(w, e))
  {
    var w, vm := View(before.tables, before.chains), before.tables.vms[id];
    var e := Delete(id, rows, base, vm.vmid, after.chains, after.tables != before.tables);
    var dropped := before.tables.Drop(id);
    assert id !in dropped.vms;
    assert dropped.ports == Without(before.tables.ports, id) && Ips(dropped) == Ips(before.tables) - {id};
    if vm.ip.Some? {
      var list := VmService.RulesToDelete(rows, base, vm.vmid, vm.ip.value);
      DeletedRulesNameIp(rows, base, vm.vmid, vm.ip.value);
      PurgeMembers(before.chains, list);
    }
  }

  /** Deleting a VM with an address and a port while the gateway cannot be reached leaves its
      rules without rows. */
  lemma LeftoverBreaks(w: World, e: Event)
    requires Inv(w) && Enabled(w, e) && e.Delete? && e.dropped && e.chains == w.state.chains
    requires Firewall.DnatExact(w.state, w.ips) && e.vm in w.ips && e.listed != []
    ensures !Inv(Apply(w, e))
  {
    var row := e.listed[0];
    var r := Firewall.DnatOf(row, w.ips[e.vm], row.protocol.Expand()[0]);
    assert row in e.listed;
    Firewall.BacksMeans(row, w.ips, r);
    RulesOfRowsMembers(e.listed, w.ips[e.vm]);
    assert r in OwnRules(w, e);
    BackedByOwner(w, e, r);
    ApplyKeepsInv(w, e);
  }

  lemma InsertedAlone(vm: int, d: seq<PortRow>)
    requires forall row | row in d :: row.vm == vm
    ensures ListsRows(Firewall.InsertAll(map[], 0, d), vm, d)
  {
    var rows := Firewall.InsertAll(map[], 0, d);
    Firewall.InsertAllExtends(map[], 0, d);
    forall row | row in d ensures exists i :: i in rows && rows[i] == row {
      var k :| 0 <= k < |d| && d[k] == row;
      assert rows[0 + k] == d[k];
    }
    forall i | i in rows ensures rows[i] in d {
      assert rows[0 + i] == d[i];
    }
  }

  /** After its creation in an empty world, a VM has its three rows and their rules. */
  lemma CreatedAlone(vm: int, ip: Ip, ports: ServicePorts, base: int, vmid: int)
    requires CalculatePorts(base, vmid) == Some(ports)
    ensures var w := World(Firewall.State(map[], Chains([], [])), map[]);
            var e := Create(vm, ip, ports, 0, true, DefaultRules(ports, ip));
            && Inv(w) && Enabled(w, e) && Inv(Apply(w, e))
            && Firewall.DnatExact(Apply(w, e).state, Apply(w, e).ips)
            && ListsRows(Apply(w, e).state.rows, vm, DefaultRows(vm, ports))
  {
    var w := World(Firewall.State(map[], Chains([], [])), map[]);
    var e, d := Create(vm, ip, ports, 0, true, DefaultRules(ports, ip)), DefaultRows(vm, ports);
    assert d[0].externalPort == ports.ssh && d[1].externalPort == ports.svc1 && d[2].externalPort == ports.svc2;
    assert d[0].internalPort == 22 && d[1].internalPort == 80 && d[2].internalPort == 10000;
    InsertedAlone(vm, d);
    WholeCreationKept(w, e);
    ApplyKeepsInv(w, e);
    ApplyKeepsDnatExact(w, e);
  }

  lemma WholeCreationKept(w: World, e: Event)
    requires e.Create? && Enabled(w, e) && e.kept && e.left == DefaultRules(e.ports, e.ip)
    ensures Covered(w, e) && DnatKept(w, e) && ForwardKept(w, e)
  {
    forall r | r in e.left ensures Apply(w, e).state.chains.Has(r) {
      HasAfterAddAll(w.state.chains, e.left, r);
    }
  }

  lemma RunTwo(w: World, a: Event, b: Event)
    ensures Run(w, [a, b]) == Step(Step(w, a), b)
  {
    assert [a][..0] == [] && [a, b][..1] == [a];
    assert Run(w, [a]) == Step(w, a);
  }

  /** From an empty world: a VM is created, and deleted while the gateway cannot be reached. Its
      rows go and its rules stay. */
  lemma LeftoverRulesAreReachable()
    ensures var w, ports := World(Firewall.State(map[], Chains([], [])), map[]), ServicePorts(20100, 21100, 22100);
            var c := Chains([], []).AddAll(DefaultRules(ports, 100));
            && Inv(w)
            && !Inv(Run(w, [Create(7, 100, ports, 0, true, DefaultRules(ports, 100)),
                            Delete(7, DefaultRows(7, ports), 20000, 100, c, true)]))
  {
    var w, ports := World(Firewall.State(map[], Chains([], [])), map[]), ServicePorts(20100, 21100, 22100);
    var create := Create(7, 100, ports, 0, true, DefaultRules(ports, 100));
    CreatedAlone(7, 100, ports, 20000, 100);
    var u := Apply(w, create);
    var delete := Delete(7, DefaultRows(7, ports), 20000, 100, u.state.chains, true);
    NothingPurged(u.state.chains, VmService.RulesToDelete(DefaultRows(7, ports), 20000, 100, 100));
    assert Enabled(u, delete);
    LeftoverBreaks(u, delete);
    RunTwo(w, create, delete);
  }
}
