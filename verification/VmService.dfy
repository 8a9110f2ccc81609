/** Creating and deleting a VM: a saga over the database, Proxmox and the gateway
    (backend/services/vm_service.py). */
module VmService {
  import opened Prelude
  import opened Iptables
  import opened PortPolicy
  import opened NetworkService
  import opened Allocation

  datatype VmRow = VmRow(vmid: int, server: int, owner: int, ip: Option<Ip>, ready: bool)

  datatype Tables = Tables(vms: map<int, VmRow>, ports: PortTable) {
    /** Every port row belongs to a VM row. */
    predicate Linked() { forall p | p in ports :: ports[p].vm in vms }

    /** No two VMs of a node share a VMID, and no two VMs an address. */
    ghost predicate VmsDistinct() {
      && (forall v, w | v in vms && w in vms && v != w :: vms[v].server == vms[w].server ==> vms[v].vmid != vms[w].vmid)
      && (forall v, w | v in vms && w in vms && v != w :: vms[v].ip.Some? ==> vms[v].ip != vms[w].ip)
    }

    /** Nothing is given out twice. */
    ghost predicate Consistent() { UniquePorts(ports) && VmsDistinct() }

    function OwnedBy(user: int): set<int> { set v | v in vms && vms[v].owner == user }

    function Addresses(): set<Ip> { set v | v in vms && vms[v].ip.Some? :: vms[v].ip.value }

    function ExternalPorts(): set<int> { set p | p in ports :: ports[p].externalPort }

    function RecordedOn(server: int): set<int> { set v | v in vms && vms[v].server == server :: vms[v].vmid }

    /** The reservation: the VM's row, not ready, and its three default port rows. */
    function Reserve(id: int, row: VmRow, firstPort: int, rows: seq<PortRow>): Tables
      requires |rows| == 3
    {
      Tables(vms[id := row], ports[firstPort := rows[0]][firstPort + 1 := rows[1]][firstPort + 2 := rows[2]])
    }

    function MarkReady(id: int): Tables
      requires id in vms
    {
      this.(vms := vms[id := vms[id].(ready := true)])
    }

    /** The VM's row and all its port rows removed. */
    function Drop(id: int): Tables {
      Tables(vms - {id}, map p | p in ports && ports[p].vm != id :: ports[p])
    }
  }

  class Database {
    var tables: Tables
    var nextVm: int
    var nextPort: int
    ghost var commits: seq<Tables>  // what every committed transaction left, oldest first

    ghost predicate Valid()
      reads this
    {
      tables.Linked() && (forall v | v in tables.vms :: v < nextVm) && (forall p | p in tables.ports :: p < nextPort)
    }

    /** Commits are all-or-nothing, but the caller may see an error either way. */
    method Commit(t: Tables, call: Call) returns (ok: bool)
      modifies `tables, `commits
      ensures tables == (if call.Effective() then t else old(tables)) && ok == call.Done?
      ensures commits == old(commits) + (if call.Effective() then [t] else [])
    {
      if call.Effective() {
        tables := t;
        commits := commits + [t];
      }
      ok := call.Done?;
    }
  }

  datatype Machine = Machine(cloned: bool, networked: bool, specced: bool, resized: bool, running: bool)

  class Hypervisor {
    var machines: map<int, Machine>
    ghost var history: seq<map<int, Machine>>

    /** A full clone of the template; Proxmox refuses a VMID it already has. */
    method Clone(vmid: int, call: Call) returns (ok: bool)
      modifies this
      ensures old(vmid in machines) ==> machines == old(machines) && !ok
      ensures !old(vmid in machines) ==> ok == call.Done?
      ensures !old(vmid in machines) ==>
                machines == if call.Effective()
                            then old(machines)[vmid := Machine(false, false, false, false, false)]
                            else old(machines)
      ensures history == old(history) + [machines]
    {
      ok := false;
      if vmid !in machines {
        if call.Effective() { machines := machines[vmid := Machine(false, false, false, false, false)]; }
        ok := call.Done?;
      }
      history := history + [machines];
    }

    /** Any call that changes one machine's configuration or power state. */
    method Configure(vmid: int, m: Machine, call: Call) returns (ok: bool)
      requires vmid in machines
      modifies this
      ensures machines == (if call.Effective() then old(machines)[vmid := m] else old(machines)) && ok == call.Done?
      ensures machines - {vmid} == old(machines) - {vmid}
      ensures history == old(history) + [machines]
    {
      if call.Effective() { machines := machines[vmid := m]; }
      history := history + [machines];
      ok := call.Done?;
    }

    method Remove(vmid: int, call: Call) returns (ok: bool)
      modifies this
      ensures machines == (if call.Effective() then old(machines) - {vmid} else old(machines)) && ok == call.Done?
      ensures history == old(history) + [machines]
    {
      if call.Effective() { machines := machines - {vmid}; }
      history := history + [machines];
      ok := call.Done?;
    }
  }

  /** The clone task as the waiting loop sees it end: done and unlocked, or failed or timed
      out, in which case Proxmox may have removed the machine itself. */
  datatype WaitReply = Ready | Failed(removed: bool)

  datatype Request = Request(server: int, base: int, owner: int, limited: bool)

  /** How every external call of one creation fares, those of the cleanup included. `seen` is
      the VMIDs Proxmox reports as taken during the search, which need not be those taken when the
      clone is requested. `told` is whether the cleanup's existence check gets its answer. */
  datatype CreateFaults = CreateFaults(
    first: Option<int>, seen: set<int>, lookupFails: int -> bool, reserve: Call,
    clone: Call, wait: WaitReply, upload: bool, network: Call, specs: Call, resize: Call,
    rules: Session, start: Call, finish: Call,
    told: bool, purge: Call, unrules: Session, row: Call)
  {
    /** The same when Proxmox has the VMID already: it refuses the clone. */
    function Facing(taken: bool): CreateFaults {
      if taken then this.(clone := Refused) else this
    }

    predicate Cloned() { clone.Done? && wait.Ready? }

    predicate Configured() { Cloned() && upload && network.Done? && specs.Done? && resize.Done? }

    predicate Forwarded(before: Chains, w: seq<Rule>) { Configured() && AddWorks(rules, before, w) }

    predicate Started(before: Chains, w: seq<Rule>) { Forwarded(before, w) && start.Done? }

    predicate Finished(before: Chains, w: seq<Rule>) { Started(before, w) && finish.Done? }

    /** After a failed creation Proxmox has what it had before: the clone never took effect,
        or it was acknowledged and the machine is gone again. A clone whose reply is lost is
        never cleaned up, because clone_started is set only once the call returns. */
    predicate MachineRestored() {
      clone.Refused? || (clone.Done? && (wait == Failed(true) || purge.Effective()))
    }

    /** The clone leaves a machine behind when cleanup begins. */
    predicate MachineLeft() { clone.Effective() && !(clone.Done? && wait == Failed(true)) }
  }

  datatype CreateResult = Created(id: int, vmid: int, ip: Ip) | Rejected | RolledBack(id: int, vmid: int, ip: Ip)

  /** Everything but one machine is as it was, at every step recorded after the first n. */
  ghost predicate OthersUntouched(history: seq<map<int, Machine>>, n: nat, before: map<int, Machine>, vmid: int) {
    n <= |history| && forall i | n <= i < |history| :: history[i] - {vmid} == before - {vmid}
  }

  /** Machines that were there before are there, unchanged, at every later step. */
  ghost predicate EarlierMachinesKept(history: seq<map<int, Machine>>, n: nat, before: map<int, Machine>) {
    && n <= |history|
    && forall i, m | n <= i < |history| && m in before :: m in history[i] && history[i][m] == before[m]
  }

  /** Nothing at all happens to the machines when Proxmox refuses the clone. */
  ghost predicate NoMachineTouched(history: seq<map<int, Machine>>, n: nat, before: map<int, Machine>) {
    n <= |history| && forall i | n <= i < |history| :: history[i] == before
  }

  /** The first half of the try block: clone the template, wait, and configure the copy. */
  method Prepare(pve: Hypervisor, vmid: int, f: CreateFaults) returns (ok: bool, cloneStarted: bool)
    modifies pve
    ensures var g := f.Facing(old(vmid in pve.machines)); ok == g.Configured() && cloneStarted == g.clone.Done?
    ensures old(pve.history) <= pve.history
    ensures old(vmid in pve.machines) ==>
              && pve.machines == old(pve.machines)
              && NoMachineTouched(pve.history, |old(pve.history)|, old(pve.machines))
    ensures !old(vmid in pve.machines) ==>
              && (vmid in pve.machines <==> f.MachineLeft()) && pve.machines - {vmid} == old(pve.machines)
              && OthersUntouched(pve.history, |old(pve.history)|, old(pve.machines), vmid)
    ensures ok ==> pve.machines[vmid] == Machine(true, true, true, true, false)
  {
    ghost var before := pve.machines;
    cloneStarted := pve.Clone(vmid, f.clone);
    assert vmid !in before ==> before - {vmid} == before && pve.machines - {vmid} == before;
    if !cloneStarted { return false, false; }
    if f.wait.Failed? {
      if f.wait.removed { var _ := pve.Remove(vmid, Done); }
      return false, true;
    }
    ok := pve.Configure(vmid, pve.machines[vmid].(cloned := true), Done);
    if !f.upload { return false, true; }
    ok := pve.Configure(vmid, pve.machines[vmid].(networked := true), f.network);
    if !ok { return; }
    ok := pve.Configure(vmid, pve.machines[vmid].(specced := true), f.specs);
    if !ok { return; }
    ok := pve.Configure(vmid, pve.machines[vmid].(resized := true), f.resize);
  }

  /** The second half: forward the ports, start the machine, mark the row ready. */
  method Publish(db: Database, pve: Hypervisor, gw: Gateway, id: int, vmid: int, ip: Ip, base: int, f: CreateFaults)
    returns (ok: bool, rulesAdded: bool)
    requires id in db.tables.vms && vmid in pve.machines && CalculatePorts(base, vmid).Some?
    requires f.Configured()
    modifies db`tables, db`commits, pve, gw
    ensures var w := DefaultRules(CalculatePorts(base, vmid).value, ip);
            && ok == f.Finished(old(gw.chains), w)
            && rulesAdded == f.Forwarded(old(gw.chains), w)
            && db.tables == (if f.Started(old(gw.chains), w) && f.finish.Effective()
                             then old(db.tables).MarkReady(id) else old(db.tables))
            && db.commits == old(db.commits)
                             + (if f.Started(old(gw.chains), w) && f.finish.Effective() then [db.tables] else [])
            && (rulesAdded ==> gw.chains == old(gw.chains).AddAll(Missing(old(gw.chains), w)))
            && (!rulesAdded ==> (gw.chains == old(gw.chains) <==> AddCompensates(f.rules, old(gw.chains), w)))
            && OnlyAdds(old(gw.chains), gw.chains, w)
    ensures pve.machines.Keys == old(pve.machines).Keys
    ensures pve.machines - {vmid} == old(pve.machines) - {vmid}
    ensures ok ==> pve.machines[vmid] == old(pve.machines)[vmid].(running := true)
    ensures old(pve.history) <= pve.history && OthersUntouched(pve.history, |old(pve.history)|, old(pve.machines), vmid)
  {
    var added := ManageAdd(gw, base, vmid, ip, f.rules);
    ok, rulesAdded := false, added == Some(true);
    if !rulesAdded { return; }
    ok := pve.Configure(vmid, pve.machines[vmid].(running := true), f.start);
    if !ok { return; }
    ok := db.Commit(db.tables.MarkReady(id), f.finish);
  }

  /** The try block: both halves. */
  method Build(db: Database, pve: Hypervisor, gw: Gateway, id: int, vmid: int, ip: Ip, base: int, f: CreateFaults)
    returns (ok: bool, cloneStarted: bool, rulesAdded: bool)
    requires id in db.tables.vms && CalculatePorts(base, vmid).Some?
    modifies db`tables, db`commits, pve, gw
    ensures var w := DefaultRules(CalculatePorts(base, vmid).value, ip);
            var g := f.Facing(old(vmid in pve.machines));
            var marked := g.Started(old(gw.chains), w) && g.finish.Effective();
            && ok == g.Finished(old(gw.chains), w) && cloneStarted == g.clone.Done?
            && rulesAdded == g.Forwarded(old(gw.chains), w)
            && db.tables == (if marked then old(db.tables).MarkReady(id) else old(db.tables))
            && db.commits == old(db.commits) + (if marked then [db.tables] else [])
            && (rulesAdded ==> gw.chains == old(gw.chains).AddAll(Missing(old(gw.chains), w)))
            && (!g.Configured() ==> gw.chains == old(gw.chains))
            && (g.Configured() && !rulesAdded ==>
                  (gw.chains == old(gw.chains) <==> AddCompensates(g.rules, old(gw.chains), w)))
            && OnlyAdds(old(gw.chains), gw.chains, w)
    ensures old(pve.history) <= pve.history
    ensures old(vmid in pve.machines) ==>
              && pve.machines == old(pve.machines)
              && NoMachineTouched(pve.history, |old(pve.history)|, old(pve.machines))
    ensures !old(vmid in pve.machines) ==>
              && (vmid in pve.machines <==> f.MachineLeft()) && pve.machines - {vmid} == old(pve.machines)
              && OthersUntouched(pve.history, |old(pve.history)|, old(pve.machines), vmid)
    ensures ok ==> pve.machines == old(pve.machines)[vmid := Machine(true, true, true, true, true)]
  {
    NothingAdded(gw.chains, DefaultRules(CalculatePorts(base, vmid).value, ip));
    ok, cloneStarted := Prepare(pve, vmid, f);
    rulesAdded := false;
    if ok {
      ok, rulesAdded := Publish(db, pve, gw, id, vmid, ip, base, f);
      assert pve.machines == (pve.machines - {vmid})[vmid := pve.machines[vmid]];
    }
  }

  /** _cleanup_failed_vm_resources followed by _cleanup_vm_db_record. */
  method CleanUp(db: Database, pve: Hypervisor, gw: Gateway, id: int, vmid: int, ip: Ip, base: int, f: CreateFaults,
                 cloneStarted: bool, rulesAdded: bool)
    requires CalculatePorts(base, vmid).Some?
    modifies db`tables, db`commits, pve, gw
    ensures db.tables == if f.row.Effective() then old(db.tables).Drop(id) else old(db.tables)
    ensures db.commits == old(db.commits) + (if f.row.Effective() then [db.tables] else [])
    ensures pve.machines ==
            if cloneStarted && f.purge.Effective() then old(pve.machines) - {vmid} else old(pve.machines)
    ensures old(pve.history) <= pve.history && OthersUntouched(pve.history, |old(pve.history)|, old(pve.machines), vmid)
    ensures !cloneStarted ==> pve.history == old(pve.history)
    ensures !rulesAdded ==> gw.chains == old(gw.chains)
    ensures var w := DefaultRules(CalculatePorts(base, vmid).value, ip);
            && (rulesAdded && DeleteWorks(f.unrules, w) ==> gw.chains == old(gw.chains).Purge(w))
            && OnlyPurges(old(gw.chains), gw.chains, w)
  {
    if cloneStarted {
      var present := vmid in pve.machines || !f.told;  // no answer counts as "still there"
      if present {
        var _ := pve.Remove(vmid, f.purge);
      }
    }
    NothingPurged(gw.chains, DefaultRules(CalculatePorts(base, vmid).value, ip));
    if rulesAdded {
      var _ := ManageDelete(gw, base, vmid, ip, f.unrules);
    }
    var _ := db.Commit(db.tables.Drop(id), f.row);
  }

  lemma DropUndoesReserve(t: Tables, id: int, row: VmRow, n: int, rows: seq<PortRow>)
    requires t.Linked() && id !in t.vms && |rows| == 3 && forall i | 0 <= i < 3 :: rows[i].vm == id
    requires forall p | p in t.ports :: p < n
    ensures t.Reserve(id, row, n, rows).Drop(id) == t
    ensures t.Reserve(id, row, n, rows).MarkReady(id).Drop(id) == t
  {
    var u := t.Reserve(id, row, n, rows);
    assert u.vms - {id} == t.vms && u.MarkReady(id).vms - {id} == t.vms;
    var kept := map p | p in u.ports && u.ports[p].vm != id :: u.ports[p];
    forall p
      ensures p in kept <==> p in t.ports
      ensures p in t.ports ==> kept[p] == t.ports[p]
    {
      if p in t.ports { assert u.ports[p] == t.ports[p] && t.ports[p].vm in t.vms; }
    }
    assert kept == t.ports;
  }

  lemma ReserveOwned(t: Tables, id: int, row: VmRow, n: int, rows: seq<PortRow>)
    requires id !in t.vms && |rows| == 3
    ensures |t.Reserve(id, row, n, rows).OwnedBy(row.owner)| == |t.OwnedBy(row.owner)| + 1
    ensures t.Reserve(id, row, n, rows).MarkReady(id).OwnedBy(row.owner)
              == t.Reserve(id, row, n, rows).OwnedBy(row.owner)
  {
    var u := t.Reserve(id, row, n, rows);
    OwnedAfterInsert(t, u, id, row);
    MarkReadyOwned(u, id, row.owner);
  }

  lemma OwnedAfterInsert(t: Tables, u: Tables, id: int, row: VmRow)
    requires id !in t.vms && u.vms == t.vms[id := row]
    ensures u.OwnedBy(row.owner) == t.OwnedBy(row.owner) + {id} && id !in t.OwnedBy(row.owner)
  {
  }

  lemma MarkReadyOwned(t: Tables, id: int, owner: int)
    requires id in t.vms
    ensures t.MarkReady(id).OwnedBy(owner) == t.OwnedBy(owner)
  {
  }

  /** What the VMID search looks at; `seen` is what Proxmox reports at that time. */
  function View(t: Tables, seen: set<int>, req: Request): VmidView {
    VmidView(t.RecordedOn(req.server), t.ExternalPorts(), seen, req.base)
  }

  /** The gateway rules of a new VM. */
  function NewRules(req: Request, vmid: int, ip: Ip): seq<Rule> {
    var ports := CalculatePorts(req.base, vmid);
    if ports.Some? then DefaultRules(ports.value, ip) else []
  }

  /** The tables with the reservation of a creation. */
  function Reserved(t: Tables, id: int, port: int, req: Request, vmid: int, ip: Ip): Tables {
    var ports := CalculatePorts(req.base, vmid);
    if ports.None? then t
    else t.Reserve(id, VmRow(vmid, req.server, req.owner, Some(ip), false), port, DefaultRows(id, ports.value))
  }

  lemma Separate(a: set<int>, b: set<int>)
    requires a * b == {}
    ensures forall x | x in b :: x !in a
  {
    assert forall x | x in b && x in a :: x in a * b;
  }

  lemma ThreeMorePorts(t: Tables, id: int, row: VmRow, n: int, rows: seq<PortRow>)
    requires UniquePorts(t.ports) && |rows| == 3 && forall p | p in t.ports :: p < n
    requires forall i | 0 <= i < 3 :: ValidPort(rows[i].externalPort)
    requires forall i, j | 0 <= i < j < 3 :: rows[i].externalPort != rows[j].externalPort
    requires forall p, i | p in t.ports && 0 <= i < 3 :: t.ports[p].externalPort != rows[i].externalPort
    ensures UniquePorts(t.Reserve(id, row, n, rows).ports)
  {
    var u := t.Reserve(id, row, n, rows);
    forall p | p in u.ports && p !in t.ports ensures 0 <= p - n < 3 && u.ports[p] == rows[p - n] {}
  }

  /** A reservation's ports are nobody else's. */
  lemma ReservedPortsDistinct(t: Tables, id: int, port: int, req: Request, seen: set<int>, vmid: int, ip: Ip)
    requires UniquePorts(t.ports) && forall p | p in t.ports :: p < port
    requires Free(View(t, seen, req), vmid)
    ensures UniquePorts(Reserved(t, id, port, req, vmid, ip).ports)
  {
    var ports := CalculatePorts(req.base, vmid).value;
    var d := DefaultRows(id, ports);
    assert d[0].externalPort == ports.ssh && d[1].externalPort == ports.svc1 && d[2].externalPort == ports.svc2;
    Separate(ports.Set(), t.ExternalPorts());
    assert forall p | p in t.ports :: t.ports[p].externalPort in t.ExternalPorts();
    ThreeMorePorts(t, id, VmRow(vmid, req.server, req.owner, Some(ip), false), port, d);
  }

  /** Its VMID is no other VM's on the node, and its address no other VM's at all. */
  lemma ReservedVmsDistinct(t: Tables, id: int, port: int, req: Request, seen: set<int>, vmid: int, ip: Ip)
    requires t.VmsDistinct() && id !in t.vms && Free(View(t, seen, req), vmid) && ip !in t.Addresses()
    ensures Reserved(t, id, port, req, vmid, ip).VmsDistinct()
  {
    forall v | v in t.vms
      ensures t.vms[v].server == req.server ==> t.vms[v].vmid != vmid
      ensures t.vms[v].ip != Some(ip)
    {
      assert t.vms[v].server == req.server ==> t.vms[v].vmid in t.RecordedOn(req.server);
      assert t.vms[v].ip.Some? ==> t.vms[v].ip.value in t.Addresses();
    }
  }

  /** Marking a VM ready and dropping one share nothing out twice. */
  lemma MarkAndDropKeepDistinct(t: Tables, id: int)
    requires t.Consistent()
    ensures t.Drop(id).Consistent()
    ensures id in t.vms ==> t.MarkReady(id).Consistent()
  {
  }

  /** Every state a creation commits gives nothing out twice, if the state before does not. */
  lemma CreationKeepsConsistent(t: Tables, u: Tables, id: int, port: int, req: Request, f: CreateFaults, vmid: int,
                                ip: Ip)
    requires id !in t.vms && forall p | p in t.ports :: p < port
    requires f.first.Some? && WellChosen(t, req, f, vmid, ip)
    requires u == Reserved(t, id, port, req, vmid, ip) && id in u.vms
    ensures t.Consistent() ==> u.Consistent() && u.MarkReady(id).Consistent()
  {
    if t.Consistent() {
      ReservedPortsDistinct(t, id, port, req, f.seen, vmid, ip);
      ReservedVmsDistinct(t, id, port, req, f.seen, vmid, ip);
      MarkAndDropKeepDistinct(u, id);
    }
  }

  /** A point in time: the database tables, the machines on the node, the gateway's chains. */
  datatype World = World(tables: Tables, machines: map<int, Machine>, chains: Chains)

  /** Success: the row is there and ready, with its three port rows, and the machine is cloned,
      configured, resized and running behind its forwarding rules. */
  ghost predicate Completed(before: World, after: World, id: int, port: int, req: Request, vmid: int, ip: Ip) {
    && after.tables.vms == before.tables.vms[id := VmRow(vmid, req.server, req.owner, Some(ip), true)]
    && after.tables.ports == WithDefaults(before.tables.ports, id, port, req.base, vmid)
    && after.machines == before.machines[vmid := Machine(true, true, true, true, true)]
    && after.chains == before.chains.AddAll(Missing(before.chains, NewRules(req, vmid, ip)))
    && DefaultsForwarded(after.chains, req.base, vmid, ip)
  }

  /** The port rows with the three default ones of a VM: SSH, HTTP and the service port. */
  function WithDefaults(ports: PortTable, id: int, port: int, base: int, vmid: int): PortTable
  {
    ports[port := PortRow(id, 22, base + vmid, TcpOnly, Some("0.0.0.0/0"), true)]
         [port + 1 := PortRow(id, 80, base + vmid + 1000, TcpOnly, Some("0.0.0.0/0"), true)]
         [port + 2 := PortRow(id, 10000, base + vmid + 2000, TcpAndUdp, Some("0.0.0.0/0"), true)]
  }

  /** What a reservation leaves in the tables, and what marking it ready changes. */
  lemma ReservedIs(t: Tables, id: int, port: int, req: Request, vmid: int, ip: Ip)
    requires CalculatePorts(req.base, vmid).Some?
    ensures var r := Reserved(t, id, port, req, vmid, ip);
            && r.vms == t.vms[id := VmRow(vmid, req.server, req.owner, Some(ip), false)]
            && r.ports == WithDefaults(t.ports, id, port, req.base, vmid)
            && r.MarkReady(id).vms == t.vms[id := VmRow(vmid, req.server, req.owner, Some(ip), true)]
            && r.MarkReady(id).ports == r.ports
  {
    PortFormula(req.base, vmid);
  }

  /** Failure: exactly when does each system have again what it had in `before`? */
  ghost predicate Restored(before: World, after: World, f: CreateFaults, w: seq<Rule>) {
    && (after.machines == before.machines <==> f.MachineRestored())
    && (after.tables == before.tables <==> f.row.Effective())
    && (!f.Configured() ==> after.chains == before.chains)
    && (f.Configured() && !f.Forwarded(before.chains, w) ==>
          (after.chains == before.chains <==> AddCompensates(f.rules, before.chains, w)))
    && (f.Forwarded(before.chains, w) && DeleteWorks(f.unrules, w) ==>
          (after.chains == before.chains <==> forall x | x in w :: !before.chains.Has(x)))
  }

  /** How a creation past its reservation ends: a whole VM exactly if every call works; otherwise each
      system is restored exactly under its own condition; and no other rule is touched. */
  ghost predicate Ended(before: World, after: World, r: CreateResult, port: int, req: Request, f: CreateFaults)
    requires !r.Rejected?
  {
    var w, g := NewRules(req, r.vmid, r.ip), f.Facing(r.vmid in before.machines);
    && r.Created? == g.Finished(before.chains, w)
    && (if r.Created? then Completed(before, after, r.id, port, req, r.vmid, r.ip) else Restored(before, after, g, w))
    && OnlyTouches(before.chains, after.chains, w)
  }

  /** Every call of the creation works. */
  ghost predicate CallsWork(f: CreateFaults) {
    && f.clone.Done? && f.wait.Ready? && f.upload && f.network.Done? && f.specs.Done? && f.resize.Done?
    && f.rules.configured && f.rules.connects && (forall i: nat :: f.rules.add.check(i).Answered?)
    && (forall i: nat :: f.rules.add.add(i).Done?) && f.start.Done? && f.finish.Done?
  }

  /** Every call of the cleanup works, those on the gateway included. */
  ghost predicate CleanupWorks(f: CreateFaults) {
    && f.purge.Done? && f.row.Done? && f.unrules.configured && f.unrules.connects
    && (forall i: nat :: f.unrules.purge(i).Purged?) && forall i: nat :: f.rules.add.undo(i).Done?
  }

  /** If every call works, the VM is created; otherwise, if those of the cleanup do, nothing is left, unless
      the clone's reply was lost. No step may fail for a VM to be created, and a machine that was there
      already stays. */
  lemma HowItEnds(before: World, after: World, r: CreateResult, port: int, req: Request, f: CreateFaults)
    requires !r.Rejected? && Ended(before, after, r, port, req, f)
    ensures CallsWork(f) && r.vmid !in before.machines ==> r.Created?
    ensures r.Created? ==>
              && f.clone.Done? && f.wait.Ready? && f.upload && f.network.Done? && f.specs.Done? && f.resize.Done?
              && f.start.Done? && f.finish.Done? && f.rules.configured && f.rules.connects
              && r.vmid !in before.machines
    ensures CleanupWorks(f) && !r.Created? && (!f.clone.Lost? || r.vmid in before.machines)
            && (forall x | x in NewRules(req, r.vmid, r.ip) :: !before.chains.Has(x)) ==>
              after == before
    ensures !r.Created? && r.vmid in before.machines ==> after.machines == before.machines
  {
    var w, g := NewRules(req, r.vmid, r.ip), f.Facing(r.vmid in before.machines);
    if CleanupWorks(f) && !r.Created? && !g.clone.Lost? && forall x | x in w :: !before.chains.Has(x) {
      FailureLeavesNoTrace(before, after, g, w);
    }
  }

  /** Every committed state after the first n has the row ready only if `started`. */
  ghost predicate ReadyOnlyIf(commits: seq<Tables>, n: nat, id: int, started: bool) {
    n <= |commits| && forall i | n <= i < |commits| && id in commits[i].vms :: commits[i].vms[id].ready ==> started
  }

  /** The request gets past the quota, the VMID search and the address allocation. */
  ghost predicate Admissible(t: Tables, req: Request, f: CreateFaults) {
    && (req.limited ==> |t.OwnedBy(req.owner)| < MAX_VMS_PER_USER)
    && f.first.Some? && VmidFound(View(t, f.seen, req), f.first.value, f.lookupFails)
    && !RangeFull(t.Addresses())
  }

  /** The VMID is the first free one, and the address the least free one. */
  ghost predicate WellChosen(t: Tables, req: Request, f: CreateFaults, vmid: int, ip: Ip)
    requires f.first.Some?
  {
    && Free(View(t, f.seen, req), vmid) && EndsAt(View(t, f.seen, req), f.first.value, f.lookupFails, vmid)
    && LeastFree(t.Addresses(), ip)
  }

  /** Nothing in the tables and in what Proxmox reports speaks against v. */
  ghost predicate Untaken(t: Tables, req: Request, seen: set<int>, v: int) {
    && v !in seen && (forall m | m in t.vms :: t.vms[m].server == req.server ==> t.vms[m].vmid != v)
    && forall p | p in t.ports :: t.ports[p].externalPort !in {req.base + v, req.base + v + 1000, req.base + v + 2000}
  }

  lemma UntakenMeans(t: Tables, req: Request, f: CreateFaults, v: int)
    requires CalculatePorts(req.base, v).Some? && !f.lookupFails(v)
    ensures Untaken(t, req, f.seen, v) <==> Free(View(t, f.seen, req), v)
    ensures Untaken(t, req, f.seen, v) <==> !Passed(View(t, f.seen, req), f.lookupFails, v)
  {
    var view := View(t, f.seen, req);
    PortsMeet(view, v);
    assert forall m | m in t.vms :: t.vms[m].server == req.server ==> t.vms[m].vmid in view.recorded;
    assert forall p | p in t.ports :: t.ports[p].externalPort in view.portsInUse;
  }

  /** The search from u on comes to an end at the first VMID that is not passed. */
  lemma {:induction false} SearchEnds(view: VmidView, first: int, lookupFails: int -> bool, u: int, v: int)
    returns (w: int)
    requires first <= u <= v < first + 50 && !Passed(view, lookupFails, v)
    requires forall x | first <= x < u :: Passed(view, lookupFails, x)
    ensures u <= w <= v && EndsAt(view, first, lookupFails, w)
    decreases v - u
  {
    w := u;
    if Passed(view, lookupFails, u) { w := SearchEnds(view, first, lookupFails, u + 1, v); }
  }

  /** Who gets a VM: anyone, if one of fifty VMIDs and one address are left, and an ordinary user only
      with at most one VM so far. */
  lemma AdmissibleMeans(t: Tables, req: Request, f: CreateFaults)
    requires f.first.Some? && forall v :: !f.lookupFails(v)
    requires 1 <= req.base + f.first.value && req.base + f.first.value + 49 + 2000 <= 65535
    ensures Admissible(t, req, f) <==>
              && (req.limited ==> |set m | m in t.vms && t.vms[m].owner == req.owner| <= 1)
              && (exists v :: f.first.value <= v < f.first.value + 50 && Untaken(t, req, f.seen, v))
              && exists ip :: Unheld(t, ip)
  {
    var view, first := View(t, f.seen, req), f.first.value;
    forall v | first <= v < first + 50
      ensures Untaken(t, req, f.seen, v) <==> Free(view, v)
      ensures Untaken(t, req, f.seen, v) <==> !Passed(view, f.lookupFails, v)
    {
      PortFormula(req.base, v);
      UntakenMeans(t, req, f, v);
    }
    if v :| first <= v < first + 50 && Untaken(t, req, f.seen, v) {
      var w := SearchEnds(view, first, f.lookupFails, first, v);
      assert EndsAt(view, first, f.lookupFails, w) && Free(view, w) && !f.lookupFails(w);
    }
    if VmidFound(view, first, f.lookupFails) {
      var v :| EndsAt(view, first, f.lookupFails, v) && Free(view, v);
      assert Untaken(t, req, f.seen, v);
    }
    AddressLeft(t);
    assert t.OwnedBy(req.owner) == set m | m in t.vms && t.vms[m].owner == req.owner;
  }

  ghost predicate Unheld(t: Tables, ip: Ip) {
    100 <= ip <= 254 && forall m | m in t.vms :: t.vms[m].ip != Some(ip)
  }

  lemma AddressLeft(t: Tables)
    ensures !RangeFull(t.Addresses()) <==> exists ip :: Unheld(t, ip)
  {
    forall ip ensures ip in t.Addresses() <==> exists m :: m in t.vms && t.vms[m].ip == Some(ip) {}
    if !RangeFull(t.Addresses()) {
      var ip :| 100 <= ip <= 254 && ip !in t.Addresses();
      assert Unheld(t, ip);
    } else {
      forall ip ensures !Unheld(t, ip) { if 100 <= ip <= 254 { assert ip in t.Addresses(); } }
    }
  }

  /** The quota check and the search for a VMID and an address. */
  method Choose(db: Database, req: Request, f: CreateFaults) returns (ok: bool, vmid: int, ip: Ip)
    ensures ok == Admissible(db.tables, req, f)
    ensures ok ==> WellChosen(db.tables, req, f, vmid, ip)
  {
    ok, vmid, ip := false, 0, 0;
    if req.limited && |db.tables.OwnedBy(req.owner)| >= MAX_VMS_PER_USER { return; }
    if f.first.None? { return; }
    var choice := SelectVmid(View(db.tables, f.seen, req), f.first.value, f.lookupFails);
    if !choice.Chosen? { return; }
    var address := AllocateInternalIp(db.tables.Addresses());
    if address.None? { return; }
    return true, choice.vmid, address.value;
  }

  /** create_vm. It chooses a VMID and an address, commits the reservation, and builds the VM;
      when building fails it cleans up according to how far it got. */
  method CreateVm(db: Database, pve: Hypervisor, gw: Gateway, req: Request, f: CreateFaults) returns (r: CreateResult)
    requires db.Valid()
    modifies db, pve, gw
    ensures db.Valid()
    ensures !r.Rejected? <==> Admissible(old(db.tables), req, f) && f.reserve.Done?
    // Refused before anything is reserved: nothing happened, short of a lost commit reply.
    ensures r.Rejected? ==> pve.machines == old(pve.machines) && gw.chains == old(gw.chains)
    ensures r.Rejected? && !f.reserve.Lost? ==> db.tables == old(db.tables)
    ensures !Admissible(old(db.tables), req, f) ==> db.tables == old(db.tables)
    ensures Admissible(old(db.tables), req, f) && f.reserve.Lost? ==>
              exists vmid, ip :: WellChosen(old(db.tables), req, f, vmid, ip)
                                 && db.tables == Reserved(old(db.tables), old(db.nextVm), old(db.nextPort), req,
                                                          vmid, ip)
    // The quota of an ordinary user.
    ensures req.limited && |old(db.tables).OwnedBy(req.owner)| >= MAX_VMS_PER_USER ==>
              r.Rejected? && db.tables == old(db.tables)
    ensures req.limited && |old(db.tables).OwnedBy(req.owner)| <= MAX_VMS_PER_USER ==>
              |db.tables.OwnedBy(req.owner)| <= MAX_VMS_PER_USER
    // What was chosen, and what became of it.
    ensures !r.Rejected? ==>
              var before := World(old(db.tables), old(pve.machines), old(gw.chains));
              Attempted(before, World(db.tables, pve.machines, gw.chains), r, old(db.nextVm), old(db.nextPort), req, f)
              && ReadyCommitted(db.commits, |old(db.commits)|, before, db.tables, r, req, f)
    ensures r.Rejected? ==> ReadyOnlyIf(db.commits, |old(db.commits)|, old(db.nextVm), false)
    ensures old(db.tables.Consistent()) ==> db.tables.Consistent()
    ensures EarlierMachinesKept(pve.history, |old(pve.history)|, old(pve.machines))
    ensures r.Created? ==>
              r.id in db.tables.vms && db.tables.vms[r.id] == VmRow(r.vmid, req.server, req.owner, Some(r.ip), true)
  {
    ghost var before, id, port := db.tables, db.nextVm, db.nextPort;
    ghost var vmid, ip;
    r, vmid, ip := Attempt(db, pve, gw, req, f);
    if Admissible(before, req, f) { CreationTables(before, db.tables, id, port, req, f, vmid, ip); }
  }

  /** A creation past its reservation: what was chosen, how it ended, and in which of three states the
      tables are. */
  ghost predicate Attempted(before: World, after: World, r: CreateResult, id: int, port: int, req: Request,
                            f: CreateFaults)
    requires !r.Rejected?
  {
    var reserved := Reserved(before.tables, id, port, req, r.vmid, r.ip);
    && r.id == id && f.first.Some? && WellChosen(before.tables, req, f, r.vmid, r.ip)
    && Ended(before, after, r, port, req, f)
    && id in reserved.vms
    && (after.tables == before.tables || after.tables == reserved || after.tables == reserved.MarkReady(id))
  }

  /** The row is ready in no committed state before the machine is started, and in the last one if the
      creation succeeds. */
  ghost predicate ReadyCommitted(commits: seq<Tables>, n: nat, before: World, tables: Tables, r: CreateResult,
                                 req: Request, f: CreateFaults)
    requires !r.Rejected?
  {
    && ReadyOnlyIf(commits, n, r.id, f.Facing(r.vmid in before.machines).Started(before.chains,
        NewRules(req, r.vmid, r.ip)))
    && (r.Created? ==> |commits| > n && commits[|commits| - 1] == tables)
  }

  /** What the three possible states of the tables have in common. */
  lemma CreationTables(t: Tables, u: Tables, id: int, port: int, req: Request, f: CreateFaults, vmid: int, ip: Ip)
    requires t.Linked() && id !in t.vms && (forall v | v in t.vms :: v < id) && forall p | p in t.ports :: p < port
    requires Admissible(t, req, f) && WellChosen(t, req, f, vmid, ip)
    requires var r := Reserved(t, id, port, req, vmid, ip);
             id in r.vms && (u == t || u == r || u == r.MarkReady(id))
    ensures u.Linked() && (forall v | v in u.vms :: v < id + 1) && forall p | p in u.ports :: p < port + 3
    ensures t.Consistent() ==> u.Consistent()
    ensures req.limited ==> |u.OwnedBy(req.owner)| <= MAX_VMS_PER_USER
  {
    var r := Reserved(t, id, port, req, vmid, ip);
    CreationKeepsConsistent(t, r, id, port, req, f, vmid, ip);
    ReserveOwned(t, id, VmRow(vmid, req.server, req.owner, Some(ip), false), port,
                 DefaultRows(id, CalculatePorts(req.base, vmid).value));
  }

  /** create_vm itself. `vmid` and `ip` are what was chosen, if anything. */
  method Attempt(db: Database, pve: Hypervisor, gw: Gateway, req: Request, f: CreateFaults)
    returns (r: CreateResult, ghost vmid: int, ghost ip: Ip)
    requires db.Valid()
    modifies db, pve, gw
    ensures !r.Rejected? <==> Admissible(old(db.tables), req, f) && f.reserve.Done?
    ensures r.Rejected? ==> pve.machines == old(pve.machines) && gw.chains == old(gw.chains)
    ensures if Admissible(old(db.tables), req, f) then
              var reserved := Reserved(old(db.tables), old(db.nextVm), old(db.nextPort), req, vmid, ip);
              && WellChosen(old(db.tables), req, f, vmid, ip) && old(db.nextVm) in reserved.vms
              && db.nextVm == old(db.nextVm) + 1 && db.nextPort == old(db.nextPort) + 3
              && (db.tables == old(db.tables) || db.tables == reserved
                  || db.tables == reserved.MarkReady(old(db.nextVm)))
              && (r.Rejected? ==> db.tables == if f.reserve.Lost? then reserved else old(db.tables))
            else db.tables == old(db.tables) && db.nextVm == old(db.nextVm) && db.nextPort == old(db.nextPort)
    ensures !r.Rejected? ==>
              var before := World(old(db.tables), old(pve.machines), old(gw.chains));
              Attempted(before, World(db.tables, pve.machines, gw.chains), r, old(db.nextVm), old(db.nextPort), req, f)
              && ReadyCommitted(db.commits, |old(db.commits)|, before, db.tables, r, req, f)
    ensures r.Rejected? ==> ReadyOnlyIf(db.commits, |old(db.commits)|, old(db.nextVm), false)
    ensures EarlierMachinesKept(pve.history, |old(pve.history)|, old(pve.machines))
    ensures r.Created? ==>
              r.id in db.tables.vms && db.tables.vms[r.id] == VmRow(r.vmid, req.server, req.owner, Some(r.ip), true)
  {
    ghost var before := db.tables;
    var ok, id, port, v, i := Reserve(db, req, f);
    vmid, ip := v, i;
    if !ok { return Rejected, vmid, ip; }
    r := Provision(db, pve, gw, id, port, v, i, req, f, before);
  }

  /** Choose and commit: afterwards the VM's row and port rows are visible. */
  method Reserve(db: Database, req: Request, f: CreateFaults) returns (ok: bool, id: int, port: int, vmid: int, ip: Ip)
    requires db.Valid()
    modifies db
    ensures db.Valid() && ok == (Admissible(old(db.tables), req, f) && f.reserve.Done?)
    ensures if Admissible(old(db.tables), req, f) then
              && WellChosen(old(db.tables), req, f, vmid, ip) && id == old(db.nextVm) && port == old(db.nextPort)
              && db.tables == (if f.reserve.Effective() then Reserved(old(db.tables), id, port, req, vmid, ip)
                               else old(db.tables))
              && db.commits == old(db.commits) + (if f.reserve.Effective() then [db.tables] else [])
            else db.tables == old(db.tables) && db.commits == old(db.commits)
    ensures if Admissible(old(db.tables), req, f)
            then db.nextVm == old(db.nextVm) + 1 && db.nextPort == old(db.nextPort) + 3
            else db.nextVm == old(db.nextVm) && db.nextPort == old(db.nextPort)
    ensures Admissible(old(db.tables), req, f) ==>
              ReserveRow(old(db.tables), Reserved(old(db.tables), id, port, req, vmid, ip), id, req, vmid, ip)
    ensures Admissible(old(db.tables), req, f) ==>
              ReserveCounts(old(db.tables), Reserved(old(db.tables), id, port, req, vmid, ip), id, req)
  {
    ok, vmid, ip := Choose(db, req, f);
    id, port := db.nextVm, db.nextPort;
    if !ok { return; }
    db.nextVm, db.nextPort := id + 1, port + 3;
    ReserveOwned(db.tables, id, VmRow(vmid, req.server, req.owner, Some(ip), false), port,
                 DefaultRows(id, CalculatePorts(req.base, vmid).value));
    ok := db.Commit(Reserved(db.tables, id, port, req, vmid, ip), f.reserve);
  }

  /** The row of a reservation: the owner's VM, with its address, not ready. */
  ghost predicate ReserveRow(t: Tables, u: Tables, id: int, req: Request, vmid: int, ip: Ip) {
    u.vms == t.vms[id := VmRow(vmid, req.server, req.owner, Some(ip), false)]
  }

  /** u has one VM more of the owner's than t, also once it is marked ready. */
  ghost predicate ReserveCounts(t: Tables, u: Tables, id: int, req: Request) {
    && id in u.vms && |u.OwnedBy(req.owner)| == |t.OwnedBy(req.owner)| + 1
    && u.MarkReady(id).OwnedBy(req.owner) == u.OwnedBy(req.owner)
  }

  /** From the committed reservation on. `before` is the tables without it. */
  method Provision(db: Database, pve: Hypervisor, gw: Gateway, id: int, port: int, vmid: int, ip: Ip,
                   req: Request, f: CreateFaults, ghost before: Tables) returns (r: CreateResult)
    requires CalculatePorts(req.base, vmid).Some?
    requires before.Linked() && id !in before.vms && forall p | p in before.ports :: p < port
    requires db.tables == Reserved(before, id, port, req, vmid, ip)
    modifies db`tables, db`commits, pve, gw
    ensures var start := World(before, old(pve.machines), old(gw.chains));
            var after := World(db.tables, pve.machines, gw.chains);
            var w, g := NewRules(req, vmid, ip), f.Facing(vmid in start.machines);
            && (r == Created(id, vmid, ip) || r == RolledBack(id, vmid, ip)) && Ended(start, after, r, port, req, f)
            && (r.Created? ==> |db.commits| > |old(db.commits)| && db.commits[|db.commits| - 1] == db.tables)
            && ReadyOnlyIf(db.commits, |old(db.commits)|, id, g.Started(start.chains, w))
    ensures db.tables == before || db.tables == old(db.tables) || db.tables == old(db.tables).MarkReady(id)
    ensures old(db.commits) <= db.commits
    ensures EarlierMachinesKept(pve.history, |old(pve.history)|, old(pve.machines))
    ensures r.Created? ==>
              id in db.tables.vms && db.tables.vms[id] == VmRow(vmid, req.server, req.owner, Some(ip), true)
  {
    ghost var w := NewRules(req, vmid, ip);
    DropUndoesReserve(before, id, VmRow(vmid, req.server, req.owner, Some(ip), false), port,
                      DefaultRows(id, CalculatePorts(req.base, vmid).value));
    ReservedIs(before, id, port, req, vmid, ip);
    ghost var earlier := pve.machines;
    var built, cloneStarted, rulesAdded := Build(db, pve, gw, id, vmid, ip, req.base, f);
    DeleteAfterAnyAdd(old(gw.chains), gw.chains, w);
    NothingPurged(gw.chains, w);
    if vmid !in earlier { OthersKept(pve.history, |old(pve.history)|, earlier, vmid); }
    if built {
      ForwardedAfterAdd(old(gw.chains), gw.chains, req, vmid, ip);
      return Created(id, vmid, ip);
    }
    CleanUp(db, pve, gw, id, vmid, ip, req.base, f, cloneStarted, rulesAdded);
    if vmid !in earlier { OthersKept(pve.history, |old(pve.history)|, earlier, vmid); }
    return RolledBack(id, vmid, ip);
  }

  lemma ForwardedAfterAdd(before: Chains, after: Chains, req: Request, vmid: int, ip: Ip)
    requires CalculatePorts(req.base, vmid).Some?
    requires after == before.AddAll(Missing(before, NewRules(req, vmid, ip)))
    ensures DefaultsForwarded(after, req.base, vmid, ip)
  {
    AddedRulesPresent(before, NewRules(req, vmid, ip));
    DefaultsAreForwarded(after, req.base, vmid, ip);
  }

  lemma OthersKept(history: seq<map<int, Machine>>, n: nat, before: map<int, Machine>, vmid: int)
    requires OthersUntouched(history, n, before, vmid) && vmid !in before
    ensures EarlierMachinesKept(history, n, before)
  {
    forall i, m | n <= i < |history| && m in before
      ensures m in history[i] && history[i][m] == before[m]
    {
      assert m in before - {vmid} && m in history[i] - {vmid};
    }
  }

  /** When the cleanup calls go through, a failed creation leaves no trace, provided the
      clone's reply was not lost and none of the new rules was there before. */
  lemma FailureLeavesNoTrace(before: World, after: World, f: CreateFaults, w: seq<Rule>)
    requires Restored(before, after, f, w)
    requires !f.clone.Lost? && f.purge.Effective() && f.row.Effective()
    requires AddCompensates(f.rules, before.chains, w) && DeleteWorks(f.unrules, w)
    requires forall x | x in w :: !before.chains.Has(x)
    ensures after == before
  {
  }

  /** When only the clone's reply is lost, everything is restored but the machine. */
  lemma LostCloneLeavesMachine(before: World, after: World, f: CreateFaults, w: seq<Rule>)
    requires Restored(before, after, f, w) && f.clone.Lost? && f.row.Effective()
    ensures after.tables == before.tables && after.chains == before.chains && after.machines != before.machines
  {
  }

  /** Every call works. */
  function NothingFailsFrom(first: int): CreateFaults {
    var s := Session(true, true, AddFaults(i => Answered, i => Done, i => Done), i => Purged);
    CreateFaults(Some(first), {}, v => false, Done, Done, Ready, true, Done, Done, Done, s, Done, Done, true, Done, s,
                 Done)
  }

  /** An input: the first creation ever, every call working except for the clone's reply. It gets
      past its reservation and is rolled back, and by the contract of CreateVm the machine stays. */
  lemma LostCloneIsReachable(req: Request)
    requires CalculatePorts(req.base, 100).Some?
    ensures var f := NothingFailsFrom(100).(clone := Lost);
            && Admissible(Tables(map[], map[]), req, f) && f.reserve.Done?
            && (forall c, w :: !f.Facing(false).Finished(c, w)) && !f.Facing(false).MachineRestored()
  {
    var t, f := Tables(map[], map[]), NothingFailsFrom(100).(clone := Lost);
    var view := View(t, f.seen, req);
    NothingUsed(t);
    assert Free(view, 100) && EndsAt(view, 100, f.lookupFails, 100);
  }

  lemma NothingUsed(t: Tables)
    requires (forall v :: v !in t.vms) && forall p :: p !in t.ports
    ensures t.Addresses() == {} && t.ExternalPorts() == {}
    ensures forall u: int :: t.OwnedBy(u) == {} && t.RecordedOn(u) == {}
  {
    forall u: int ensures t.OwnedBy(u) == {} && t.RecordedOn(u) == {} {
      assert forall x :: x !in t.OwnedBy(u);
      assert forall x :: x !in t.RecordedOn(u);
    }
  }

  // ---------------------------------------------------------------------------
  // Deletion
  // ---------------------------------------------------------------------------

  /** The Proxmox call, one session per port row and protocol, the fallback for VMs
      without default rows, and the final commit. */
  datatype DeleteFaults = DeleteFaults(remove: Call, sessions: (nat, Protocol) -> Session, fallback: Session,
                                       commit: Call)

  /** `rows` answers the query for the VM's port rows. */
  ghost predicate PortRowsOf(t: Tables, id: int, rows: seq<PortRow>) {
    forall row :: row in rows <==> row.vm == id && exists p :: p in t.ports && t.ports[p] == row
  }

  predicate AllRowCallsWork(f: DeleteFaults, rows: seq<PortRow>, ip: Ip) {
    forall i, p | 0 <= i < |rows| && p in rows[i].protocol.Expand() ::
      DeleteWorks(f.sessions(i, p), RulePair(Normalize(rows[i].source), p, rows[i].externalPort, ip,
                                             rows[i].internalPort))
  }

  /** The rules delete_vm asks the gateway to remove. */
  function RulesToDelete(rows: seq<PortRow>, base: int, vmid: int, ip: Ip): seq<Rule> {
    if (exists row | row in rows :: row.isDefault) || CalculatePorts(base, vmid).None? then RulesOfRows(rows, ip)
    else RulesOfRows(rows, ip) + DefaultRules(CalculatePorts(base, vmid).value, ip)
  }

  /** A VM without default rows, whose default ports cannot be computed. */
  predicate BadFallback(rows: seq<PortRow>, base: int, vmid: int, f: DeleteFaults) {
    !(exists row | row in rows :: row.isDefault) && f.fallback.configured && CalculatePorts(base, vmid).None?
  }

  /** Every DELETE session for the VM's rules works. */
  predicate AllDeletesWork(f: DeleteFaults, rows: seq<PortRow>, base: int, vmid: int, ip: Ip) {
    && AllRowCallsWork(f, rows, ip)
    && ((exists row | row in rows :: row.isDefault) || CalculatePorts(base, vmid).None?
        || DeleteWorks(f.fallback, DefaultRules(CalculatePorts(base, vmid).value, ip)))
  }

  /** delete_vm: the machine first, then the gateway rules of every port row, then the rows.
      Gateway failures are passed over; an impossible port in the fallback is not. */
  method DeleteVm(db: Database, pve: Hypervisor, gw: Gateway, id: int, base: int, rows: seq<PortRow>, f: DeleteFaults)
    returns (ok: bool)
    requires id in db.tables.vms && PortRowsOf(db.tables, id, rows)
    modifies db`tables, db`commits, pve, gw
    ensures var vm := old(db.tables).vms[id];
            var stopped := !f.remove.Done? || (vm.ip.Some? && BadFallback(rows, base, vm.vmid, f));
            && ok == (!stopped && f.commit.Done?)
            && pve.machines == (if f.remove.Effective() then old(pve.machines) - {vm.vmid} else old(pve.machines))
            && db.tables == (if !stopped && f.commit.Effective() then old(db.tables).Drop(id) else old(db.tables))
    ensures var v := base + old(db.tables).vms[id].vmid;
            f.remove.Done? && f.commit.Done?
            && (old(db.tables).vms[id].ip.None? || (1 <= v && v + 2000 <= 65535)
                || exists r | r in rows :: r.isDefault) ==>
              ok
    ensures old(db.tables.Consistent()) ==> db.tables.Consistent()
    ensures ok ==>
              && db.tables.vms == old(db.tables).vms - {id}
              && (forall p :: p in db.tables.ports <==> p in old(db.tables).ports && old(db.tables).ports[p].vm != id)
              && (forall p | p in db.tables.ports :: db.tables.ports[p] == old(db.tables).ports[p])
    ensures var vm := old(db.tables).vms[id];
            f.remove.Done? && vm.ip.Some? ==>
              && RowsGone(gw.chains, rows, vm.ip.value, f)
              && (FallbackWorks(rows, base, vm.vmid, vm.ip.value, f) ==>
                  DefaultsGone(gw.chains, base, vm.vmid, vm.ip.value))
    ensures var vm := old(db.tables).vms[id];
            if !f.remove.Done? || vm.ip.None? then gw.chains == old(gw.chains)
            else
              var rules := RulesToDelete(rows, base, vm.vmid, vm.ip.value);
              && OnlyPurges(old(gw.chains), gw.chains, rules)
              && (AllDeletesWork(f, rows, base, vm.vmid, vm.ip.value) ==> gw.chains == old(gw.chains).Purge(rules))
  {
    PortFormula(base, db.tables.vms[id].vmid);
    var vm := db.tables.vms[id];
    if db.tables.Consistent() { MarkAndDropKeepDistinct(db.tables, id); }
    var removed := pve.Remove(vm.vmid, f.remove);
    if !removed { return false; }
    if vm.ip.Some? {
      var done := DeleteRules(gw, rows, base, vm.vmid, vm.ip.value, f);
      if !done { return false; }
    }
    ok := db.Commit(db.tables.Drop(id), f.commit);
  }

  /** Whatever other sessions do, the rules of each row and protocol whose session works are gone. */
  predicate RowsGone(c: Chains, rows: seq<PortRow>, ip: Ip, f: DeleteFaults) {
    forall i, p | 0 <= i < |rows| && p in rows[i].protocol.Expand()
                  && DeleteWorks(f.sessions(i, p), RulePair(Normalize(rows[i].source), p, rows[i].externalPort, ip,
                                                            rows[i].internalPort)) ::
      PairGone(c, Normalize(rows[i].source), p, rows[i].externalPort, ip, rows[i].internalPort)
  }

  /** The VM has no default rows, and the session for the rules of the formula works. */
  predicate FallbackWorks(rows: seq<PortRow>, base: int, vmid: int, ip: Ip, f: DeleteFaults) {
    && (forall row | row in rows :: !row.isDefault) && CalculatePorts(base, vmid).Some?
    && DeleteWorks(f.fallback, DefaultRules(CalculatePorts(base, vmid).value, ip))
  }

  predicate DefaultsGone(c: Chains, base: int, vmid: int, ip: Ip) {
    && PairGone(c, None, Tcp, base + vmid, ip, 22) && PairGone(c, None, Tcp, base + vmid + 1000, ip, 80)
    && PairGone(c, None, Tcp, base + vmid + 2000, ip, 10000) && PairGone(c, None, Udp, base + vmid + 2000, ip, 10000)
  }

  lemma DefaultsAreGone(c: Chains, base: int, vmid: int, ip: Ip)
    requires CalculatePorts(base, vmid).Some?
    ensures DefaultsGone(c.Purge(DefaultRules(CalculatePorts(base, vmid).value, ip)), base, vmid, ip)
  {
    DefaultIsGone(c, base, vmid, ip, Tcp, 0, 22);
    DefaultIsGone(c, base, vmid, ip, Tcp, 1000, 80);
    DefaultIsGone(c, base, vmid, ip, Tcp, 2000, 10000);
    DefaultIsGone(c, base, vmid, ip, Udp, 2000, 10000);
  }

  lemma DefaultIsGone(c: Chains, base: int, vmid: int, ip: Ip, p: Protocol, offset: int, internalPort: int)
    requires CalculatePorts(base, vmid).Some?
    requires (p, offset, internalPort) in {(Tcp, 0, 22), (Tcp, 1000, 80), (Tcp, 2000, 10000), (Udp, 2000, 10000)}
    ensures PairGone(c.Purge(DefaultRules(CalculatePorts(base, vmid).value, ip)), None, p, base + vmid + offset, ip,
                     internalPort)
  {
    var w := DefaultRules(CalculatePorts(base, vmid).value, ip);
    var dnat, accept := Dnat(None, p, base + vmid + offset, ip, internalPort), Accept(None, p, ip, internalPort);
    PurgeMembers(c, w);
    DefaultRulesAre(base, vmid, ip, dnat);
    DefaultRulesAre(base, vmid, ip, accept);
    assert !c.Purge(w).Has(dnat) && !c.Purge(w).Has(accept);
  }

  /** The gateway part of delete_vm. */
  method DeleteRules(gw: Gateway, rows: seq<PortRow>, base: int, vmid: int, ip: Ip, f: DeleteFaults)
    returns (done: bool)
    modifies gw
    ensures done == !BadFallback(rows, base, vmid, f)
    ensures RowsGone(gw.chains, rows, ip, f)
    ensures FallbackWorks(rows, base, vmid, ip, f) ==> DefaultsGone(gw.chains, base, vmid, ip)
    ensures OnlyPurges(old(gw.chains), gw.chains, RulesToDelete(rows, base, vmid, ip))
    ensures AllDeletesWork(f, rows, base, vmid, ip) ==>
              gw.chains == old(gw.chains).Purge(RulesToDelete(rows, base, vmid, ip))
  {
    ghost var first, all := RulesOfRows(rows, ip), RulesToDelete(rows, base, vmid, ip);
    DeleteAllRowRules(gw, rows, ip, f);
    NothingPurged(old(gw.chains), all);
    OnlyPurgesThen(old(gw.chains), old(gw.chains), gw.chains, first, all);
    if !(exists row | row in rows :: row.isDefault) {
      ghost var before := gw.chains;
      var r := ManageDelete(gw, base, vmid, ip, f.fallback);
      if r.None? { return false; }
      if CalculatePorts(base, vmid).Some? {
        PairsStayGone(before, gw.chains, DefaultRules(CalculatePorts(base, vmid).value, ip));
        DefaultsAreGone(before, base, vmid, ip);
        ghost var w := DefaultRules(CalculatePorts(base, vmid).value, ip);
        OnlyPurgesThen(old(gw.chains), before, gw.chains, w, all);
        PurgeTwice(old(gw.chains), first, w);
      }
    }
    return true;
  }

  method DeleteAllRowRules(gw: Gateway, rows: seq<PortRow>, ip: Ip, f: DeleteFaults)
    modifies gw
    ensures AllRowCallsWork(f, rows, ip) ==> gw.chains == old(gw.chains).Purge(RulesOfRows(rows, ip))
    ensures OnlyPurges(old(gw.chains), gw.chains, RulesOfRows(rows, ip))
    ensures RowsGone(gw.chains, rows, ip, f)
  {
    PurgeAbsent(gw.chains, []);
    NothingPurged(gw.chains, RulesOfRows(rows, ip));
    ghost var start, works := gw.chains, AllRowCallsWork(f, rows, ip);
    for i := 0 to |rows|
      invariant works ==> gw.chains == start.Purge(RulesOfRows(rows[..i], ip))
      invariant OnlyPurges(start, gw.chains, RulesOfRows(rows, ip))
      invariant RowsGone(gw.chains, rows[..i], ip, f)
    {
      RowCallsWork(f, rows, ip, i);
      PurgeNextRow(start, rows, i, ip);
      ghost var before := gw.chains;
      var _ := DeleteRowRules(gw, rows[i], ip, p => f.sessions(i, p));
      RowsGoneNext(before, gw.chains, rows, i, ip, f);
      RulesOfRowsMembers(rows, ip);
      OnlyPurgesThen(start, before, gw.chains, RowRules(rows[i], ip), RulesOfRows(rows, ip));
    }
    assert rows[..|rows|] == rows;
  }

  lemma RowsGoneNext(before: Chains, after: Chains, rows: seq<PortRow>, i: nat, ip: Ip, f: DeleteFaults)
    requires i < |rows| && RowsGone(before, rows[..i], ip, f) && OnlyPurges(before, after, RowRules(rows[i], ip))
    requires var row := rows[i]; forall p | p in row.protocol.Expand()
               && DeleteWorks(f.sessions(i, p),
                              RulePair(Normalize(row.source), p, row.externalPort, ip, row.internalPort)) ::
               PairGone(after, Normalize(row.source), p, row.externalPort, ip, row.internalPort)
    ensures RowsGone(after, rows[..i + 1], ip, f)
  {
    PairsStayGone(before, after, RowRules(rows[i], ip));
    assert forall k | 0 <= k < i :: rows[..i][k] == rows[k] == rows[..i + 1][k];
  }

  lemma RowCallsWork(f: DeleteFaults, rows: seq<PortRow>, ip: Ip, i: nat)
    requires i < |rows|
    ensures AllRowCallsWork(f, rows, ip) ==> forall p | p in rows[i].protocol.Expand() ::
              DeleteWorks(f.sessions(i, p),
                          RulePair(Normalize(rows[i].source), p, rows[i].externalPort, ip, rows[i].internalPort))
  {
  }

  lemma PurgeNextRow(c: Chains, rows: seq<PortRow>, i: nat, ip: Ip)
    requires i < |rows|
    ensures c.Purge(RulesOfRows(rows[..i], ip)).Purge(RowRules(rows[i], ip)) == c.Purge(RulesOfRows(rows[..i + 1], ip))
  {
    assert rows[..i + 1] == rows[..i] + [rows[i]];
    RulesOfRowsAppend(rows[..i], rows[i], ip);
    PurgeTwice(c, RulesOfRows(rows[..i], ip), RowRules(rows[i], ip));
  }

  /** Creating a VM and deleting it again brings the gateway back, whatever order the rows
      are read in, exactly when none of the rules was there before the creation. */
  lemma CreateThenDelete(c: Chains, req: Request, id: int, vmid: int, ip: Ip, rows: seq<PortRow>)
    requires CalculatePorts(req.base, vmid).Some?
    requires forall row :: row in rows <==> row in DefaultRows(id, CalculatePorts(req.base, vmid).value)
    ensures var w := NewRules(req, vmid, ip);
            c.AddAll(Missing(c, w)).Purge(RulesToDelete(rows, req.base, vmid, ip)) == c <==>
            forall r | r in w :: !c.Has(r)
  {
    var w, ports := NewRules(req, vmid, ip), CalculatePorts(req.base, vmid).value;
    var d := DefaultRows(id, ports);
    assert d[0] in rows && d[0].isDefault;
    DefaultRowsCarryDefaultRules(id, ports, ip);
    RulesOfRowsMembers(rows, ip);
    RulesOfRowsMembers(d, ip);
    PurgeSameSet(c.AddAll(Missing(c, w)), RulesOfRows(rows, ip), w);
    AddThenPurge(c, w);
  }

  /** After a successful creation the query for the VM's rows answers with the default rows. */
  lemma ReservedRows(t: Tables, id: int, port: int, req: Request, vmid: int, ip: Ip, rows: seq<PortRow>)
    requires t.Linked() && id !in t.vms && CalculatePorts(req.base, vmid).Some?
    requires forall p | p in t.ports :: p < port
    requires PortRowsOf(Reserved(t, id, port, req, vmid, ip), id, rows)
    ensures forall row :: row in rows <==> row in DefaultRows(id, CalculatePorts(req.base, vmid).value)
  {
    var u := Reserved(t, id, port, req, vmid, ip);
    var d := DefaultRows(id, CalculatePorts(req.base, vmid).value);
    assert forall q | q in t.ports :: t.ports[q].vm != id;
    forall row | row in d ensures row in rows {
      var i :| 0 <= i < 3 && d[i] == row;
      assert port + i in u.ports && u.ports[port + i] == row;
    }
    forall row | row in rows ensures row in d {
      var p :| p in u.ports && u.ports[p] == row;
      assert p !in t.ports && row == d[p - port];
    }
  }
}
