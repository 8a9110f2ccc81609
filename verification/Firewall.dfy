/** Port rows in the database and forwarding rules on the gateway, kept in step by the
    port endpoints (backend/api/routes/firewall.py). */
module Firewall {
  import opened Prelude
  import opened Iptables
  import opened PortPolicy
  import opened NetworkService

  const MAX_CUSTOM_PORTS := 30
  const PORT_DRAWS := 100

  type Addresses = map<int, Ip>  // the internal address of each VM that has one

  /** The vm_ports table and the gateway's chains. */
  datatype State = State(rows: PortTable, chains: Chains)

  // ---------------------------------------------------------------------------
  // Agreement
  // ---------------------------------------------------------------------------

  /** The row is for this rule. */
  predicate Backs(row: PortRow, ips: Addresses, r: Rule) {
    row.vm in ips && r in RowRules(row, ips[row.vm])
  }

  predicate Backed(rows: PortTable, ips: Addresses, r: Rule) {
    exists id | id in rows :: Backs(rows[id], ips, r)
  }

  predicate PortsDistinct(m: seq<PortRow>) {
    forall i, j | 0 <= i < j < |m| :: m[i].externalPort != m[j].externalPort && m[i].internalPort != m[j].internalPort
  }

  /** Every forwarding rule on the gateway has a row behind it. */
  ghost predicate AllBacked(s: State, ips: Addresses) {
    forall r: Rule | !r.Foreign? && s.chains.Has(r) :: Backed(s.rows, ips, r)
  }

  /** The DNAT rules are exactly those of the rows. */
  ghost predicate DnatExact(s: State, ips: Addresses) {
    forall r: Rule | r.Dnat? :: s.chains.Has(r) <==> Backed(s.rows, ips, r)
  }

  /** The FORWARD rules are exactly those of the rows. */
  ghost predicate ForwardExact(s: State, ips: Addresses) {
    forall r: Rule | r.Accept? :: s.chains.Has(r) <==> Backed(s.rows, ips, r)
  }

  /** Two rows ask for the same forwarding: same address, internal port and normalized source,
      and a protocol in common. */
  predicate ShareForward(a: PortRow, b: PortRow, ips: Addresses) {
    && a.vm in ips && b.vm in ips && ips[a.vm] == ips[b.vm]
    && a.internalPort == b.internalPort && Normalize(a.source) == Normalize(b.source)
    && exists p :: p in a.protocol.Expand() && p in b.protocol.Expand()
  }

  predicate NoSharing(rows: PortTable, ips: Addresses) {
    forall i, j | i in rows && j in rows && i != j :: !ShareForward(rows[i], rows[j], ips)
  }

  /** No two VMs have one address. */
  ghost predicate DistinctAddresses(ips: Addresses) {
    forall v, w | v in ips && w in ips && ips[v] == ips[w] :: v == w
  }

  /** That is when a FORWARD rule stands for both rows. */
  lemma ShareForwardMeans(a: PortRow, b: PortRow, ips: Addresses)
    ensures ShareForward(a, b, ips) <==> exists r: Rule :: r.Accept? && Backs(a, ips, r) && Backs(b, ips, r)
  {
    if a.vm in ips && b.vm in ips {
      RowRulesMembers(a, ips[a.vm]);
      RowRulesMembers(b, ips[b.vm]);
    }
    if ShareForward(a, b, ips) {
      var p :| p in a.protocol.Expand() && p in b.protocol.Expand();
      var r := Accept(Normalize(a.source), p, ips[a.vm], a.internalPort);
      assert r == RulePair(Normalize(a.source), p, a.externalPort, ips[a.vm], a.internalPort)[1];
      assert r == RulePair(Normalize(b.source), p, b.externalPort, ips[b.vm], b.internalPort)[1];
      assert Backs(a, ips, r) && Backs(b, ips, r);
    }
  }

  /** With distinct addresses, sharing is a matter between ports of one VM. */
  lemma SharingIsWithinOneVm(rows: PortTable, ips: Addresses)
    requires DistinctAddresses(ips)
    ensures NoSharing(rows, ips) <==>
              forall i, j | i in rows && j in rows && i != j && rows[i].vm == rows[j].vm && rows[i].vm in ips ::
                rows[i].internalPort == rows[j].internalPort
                && Normalize(rows[i].source) == Normalize(rows[j].source) ==>
                  forall p | p in rows[i].protocol.Expand() :: p !in rows[j].protocol.Expand()
  {
  }

  // ---------------------------------------------------------------------------
  // The three endpoints on values
  // ---------------------------------------------------------------------------

  /** `ok` is what the gateway call reported; a failed one has compensated. A Restore makes one
      gateway call per internal port and protocol; `worked` are those that worked. `saved` says
      whether the operation's last commit went through, `removed` whether the one did that takes
      back the row of a failed addition. */
  datatype Op =
    | AddPort(id: int, row: PortRow, ok: bool, removed: bool)
    | DeletePort(id: int, saved: bool)
    | Restore(vm: int, ports: ServicePorts, first: int, worked: set<(int, Protocol)>, saved: bool)

  function AddMissing(c: Chains, rules: seq<Rule>): Chains { c.AddAll(Missing(c, rules)) }

  /** The internal ports of the VM's default rows. */
  function DefaultsOf(rows: PortTable, vm: int): set<int> {
    set id | id in rows && rows[id].vm == vm && rows[id].isDefault :: rows[id].internalPort
  }

  /** The default rows the VM no longer has. */
  function MissingDefaults(rows: PortTable, vm: int, ports: ServicePorts): seq<PortRow> {
    Lacking(DefaultRows(vm, ports), DefaultsOf(rows, vm))
  }

  function Lacking(d: seq<PortRow>, have: set<int>): seq<PortRow> {
    if d == [] then []
    else Lacking(d[..|d| - 1], have) + (if d[|d| - 1].internalPort in have then [] else [d[|d| - 1]])
  }

  function AddProtocols(c: Chains, row: PortRow, protocols: seq<Protocol>, ip: Ip,
                        worked: set<(int, Protocol)>): Chains {
    if protocols == [] then c
    else
      var n, p := |protocols| - 1, protocols[|protocols| - 1];
      var before := AddProtocols(c, row, protocols[..n], ip, worked);
      if (row.internalPort, p) in worked
      then AddMissing(before, RulePair(Normalize(row.source), p, row.externalPort, ip, row.internalPort))
      else before
  }

  function AddRows(c: Chains, m: seq<PortRow>, ip: Ip, worked: set<(int, Protocol)>): Chains {
    if m == [] then c
    else
      var row := m[|m| - 1];
      AddProtocols(AddRows(c, m[..|m| - 1], ip, worked), row, row.protocol.Expand(), ip, worked)
  }

  function InsertAll(rows: PortTable, first: int, m: seq<PortRow>): PortTable {
    if m == [] then rows else InsertAll(rows, first, m[..|m| - 1])[first + |m| - 1 := m[|m| - 1]]
  }

  predicate Enabled(s: State, ips: Addresses, op: Op) {
    match op
    case AddPort(id, row, _, _) =>
      && id !in s.rows && ValidPort(row.externalPort)
      && forall i | i in s.rows :: s.rows[i].externalPort != row.externalPort
    case DeletePort(id, _) => id in s.rows
    case Restore(vm, ports, first, _, _) =>
      && (forall i | i in s.rows :: i < first)
      && ports.ssh != ports.svc1 && ports.ssh != ports.svc2 && ports.svc1 != ports.svc2
      && NoneTaken(s.rows, MissingDefaults(s.rows, vm, ports))
  }

  /** The external ports of m are possible and not in use. */
  predicate NoneTaken(rows: PortTable, m: seq<PortRow>) {
    forall row | row in m ::
      ValidPort(row.externalPort) && forall i | i in rows :: rows[i].externalPort != row.externalPort
  }

  function Apply(s: State, ips: Addresses, op: Op): State
    requires Enabled(s, ips, op)
  {
    match op
    case AddPort(id, row, ok, removed) =>
      if row.vm !in ips then s.(rows := s.rows[id := row])
      else if ok then State(s.rows[id := row], AddMissing(s.chains, RowRules(row, ips[row.vm])))
      else if removed then s
      else s.(rows := s.rows[id := row])
    case DeletePort(id, saved) =>
      var row := s.rows[id];
      State(if saved then s.rows - {id} else s.rows,
            if row.vm in ips then s.chains.Purge(RowRules(row, ips[row.vm])) else s.chains)
    case Restore(vm, ports, first, worked, saved) =>
      var m := MissingDefaults(s.rows, vm, ports);
      State(if saved then InsertAll(s.rows, first, m) else s.rows,
            if vm in ips then AddRows(s.chains, m, ips[vm], worked) else s.chains)
  }

  // ---------------------------------------------------------------------------
  // Which rules and rows an operation leaves
  // ---------------------------------------------------------------------------

  lemma AddMissingHas(c: Chains, rules: seq<Rule>)
    ensures forall r :: AddMissing(c, rules).Has(r) <==> c.Has(r) || r in rules
  {
    AddedRulesPresent(c, rules);
  }

  /** The rule belongs to a row's pair for a protocol whose ADD succeeded. */
  predicate Installed(row: PortRow, ip: Ip, worked: set<(int, Protocol)>, r: Rule) {
    exists p | p in row.protocol.Expand() ::
      (row.internalPort, p) in worked && r in RulePair(Normalize(row.source), p, row.externalPort, ip, row.internalPort)
  }

  lemma {:induction false} AddProtocolsHas(c: Chains, row: PortRow, protocols: seq<Protocol>, ip: Ip,
                                           worked: set<(int, Protocol)>)
    ensures forall r :: AddProtocols(c, row, protocols, ip, worked).Has(r) <==>
              c.Has(r) || exists p :: p in protocols && (row.internalPort, p) in worked
                                      && r in RulePair(Normalize(row.source), p, row.externalPort, ip, row.internalPort)
  {
    if protocols == [] {
    } else {
      var n, p := |protocols| - 1, protocols[|protocols| - 1];
      AddProtocolsHas(c, row, protocols[..n], ip, worked);
      AddMissingHas(AddProtocols(c, row, protocols[..n], ip, worked),
                    RulePair(Normalize(row.source), p, row.externalPort, ip, row.internalPort));
      assert protocols == protocols[..n] + [p];
    }
  }

  lemma {:induction false} AddRowsHas(c: Chains, m: seq<PortRow>, ip: Ip, worked: set<(int, Protocol)>)
    ensures forall r :: AddRows(c, m, ip, worked).Has(r) <==>
              c.Has(r) || exists row :: row in m && Installed(row, ip, worked, r)
  {
    if m == [] {
    } else {
      var n, row := |m| - 1, m[|m| - 1];
      var before := AddRows(c, m[..n], ip, worked);
      AddRowsHas(c, m[..n], ip, worked);
      AddProtocolsHas(before, row, row.protocol.Expand(), ip, worked);
      assert m == m[..n] + [row];
      forall r
        ensures AddRows(c, m, ip, worked).Has(r) <==> c.Has(r) || exists x :: x in m && Installed(x, ip, worked, r)
      {
        assert AddRows(c, m, ip, worked).Has(r) <==> before.Has(r) || Installed(row, ip, worked, r);
      }
    }
  }

  lemma {:induction false} InsertAllRows(rows: PortTable, first: int, m: seq<PortRow>)
    requires forall i | i in rows :: i < first
    ensures var t := InsertAll(rows, first, m);
            && (forall i :: i in t <==> i in rows || first <= i < first + |m|)
            && (forall i | i in rows :: t[i] == rows[i])
            && (forall k | 0 <= k < |m| :: t[first + k] == m[k])
  {
    if m == [] {
    } else {
      InsertAllRows(rows, first, m[..|m| - 1]);
    }
  }

  lemma RowRulesMembers(row: PortRow, ip: Ip)
    ensures forall r :: r in RowRules(row, ip) <==>
              exists p :: p in row.protocol.Expand()
                          && r in RulePair(Normalize(row.source), p, row.externalPort, ip, row.internalPort)
  {
    PairsForMembers(row.protocol.Expand(), Normalize(row.source), row.externalPort, ip, row.internalPort);
  }

  /** A DNAT rule names its row's external port, so rows with different ports share none. */
  lemma DnatNamesPort(row: PortRow, ip: Ip, r: Rule)
    requires r in RowRules(row, ip) && r.Dnat?
    ensures r.externalPort == row.externalPort
  {
    RowRulesMembers(row, ip);
  }

  // ---------------------------------------------------------------------------
  // Other rules on the gateway
  // ---------------------------------------------------------------------------

  /** The rules of a chain that forward no port, in order. */
  function Foreigns(s: seq<Rule>): seq<Rule> {
    if s == [] then [] else (if s[0].Foreign? then [s[0]] else []) + Foreigns(s[1..])
  }

  ghost predicate SameForeigns(c: Chains, d: Chains) {
    Foreigns(c.prerouting) == Foreigns(d.prerouting) && Foreigns(c.forward) == Foreigns(d.forward)
  }

  predicate NoneForeign(rules: seq<Rule>) { forall r | r in rules :: !r.Foreign? }

  lemma {:induction false} ForeignsConcat(s: seq<Rule>, t: seq<Rule>)
    ensures Foreigns(s + t) == Foreigns(s) + Foreigns(t)
  {
    if s == [] {
      assert s + t == t;
    } else {
      var h := if s[0].Foreign? then [s[0]] else [];
      assert (s + t)[1..] == s[1..] + t && (s + t)[0] == s[0];
      ForeignsConcat(s[1..], t);
      assert h + (Foreigns(s[1..]) + Foreigns(t)) == h + Foreigns(s[1..]) + Foreigns(t);
    }
  }

  lemma {:induction false} ForeignsNone(s: seq<Rule>)
    requires NoneForeign(s)
    ensures Foreigns(s) == []
  {
    if s == [] {
    } else {
      ForeignsNone(s[1..]);
    }
  }

  lemma {:induction false} ForeignsWithout(s: seq<Rule>, rules: seq<Rule>)
    requires NoneForeign(rules)
    ensures Foreigns(Without(s, rules)) == Foreigns(s)
  {
    if s == [] {
    } else {
      ForeignsWithout(s[1..], rules);
    }
  }

  lemma PurgeKeepsForeigns(c: Chains, rules: seq<Rule>)
    requires NoneForeign(rules)
    ensures SameForeigns(c, c.Purge(rules))
  {
    OnMembers(rules, Prerouting);
    OnMembers(rules, Forward);
    ForeignsWithout(c.prerouting, On(rules, Prerouting));
    ForeignsWithout(c.forward, On(rules, Forward));
  }

  lemma AddMissingKeepsForeigns(c: Chains, rules: seq<Rule>)
    requires NoneForeign(rules)
    ensures SameForeigns(c, AddMissing(c, rules))
  {
    var w := Missing(c, rules);
    MissingMembers(c, rules);
    OnMembers(w, Prerouting);
    OnMembers(w, Forward);
    ForeignsConcat(c.prerouting, On(w, Prerouting));
    ForeignsConcat(c.forward, On(w, Forward));
    ForeignsNone(On(w, Prerouting));
    ForeignsNone(On(w, Forward));
  }

  lemma {:induction false} AddProtocolsKeepsForeigns(c: Chains, row: PortRow, protocols: seq<Protocol>, ip: Ip,
                                                     worked: set<(int, Protocol)>)
    ensures SameForeigns(c, AddProtocols(c, row, protocols, ip, worked))
  {
    if protocols == [] {
    } else {
      var n, p := |protocols| - 1, protocols[|protocols| - 1];
      AddProtocolsKeepsForeigns(c, row, protocols[..n], ip, worked);
      AddMissingKeepsForeigns(AddProtocols(c, row, protocols[..n], ip, worked),
                              RulePair(Normalize(row.source), p, row.externalPort, ip, row.internalPort));
    }
  }

  lemma {:induction false} AddRowsKeepsForeigns(c: Chains, m: seq<PortRow>, ip: Ip, worked: set<(int, Protocol)>)
    ensures SameForeigns(c, AddRows(c, m, ip, worked))
  {
    if m == [] {
    } else {
      var row := m[|m| - 1];
      AddRowsKeepsForeigns(c, m[..|m| - 1], ip, worked);
      AddProtocolsKeepsForeigns(AddRows(c, m[..|m| - 1], ip, worked), row, row.protocol.Expand(), ip, worked);
    }
  }

  lemma RowRulesNotForeign(row: PortRow, ip: Ip)
    ensures NoneForeign(RowRules(row, ip))
  {
    RowRulesMembers(row, ip);
  }

  /** No operation adds, removes or reorders a rule that forwards no port. */
  lemma ApplyKeepsForeigns(s: State, ips: Addresses, op: Op)
    requires Enabled(s, ips, op)
    ensures SameForeigns(s.chains, Apply(s, ips, op).chains)
  {
    match op
    case AddPort(id, row, ok, _) =>
      if row.vm in ips {
        RowRulesNotForeign(row, ips[row.vm]);
        AddMissingKeepsForeigns(s.chains, RowRules(row, ips[row.vm]));
      }
    case DeletePort(id, _) =>
      var row := s.rows[id];
      if row.vm in ips {
        RowRulesNotForeign(row, ips[row.vm]);
        PurgeKeepsForeigns(s.chains, RowRules(row, ips[row.vm]));
      }
    case Restore(vm, ports, first, worked, _) =>
      if vm in ips { AddRowsKeepsForeigns(s.chains, MissingDefaults(s.rows, vm, ports), ips[vm], worked); }
  }

  // ---------------------------------------------------------------------------
  // One step
  // ---------------------------------------------------------------------------

  /** Every gateway call the restoration makes has worked. */
  predicate RestoreWorks(s: State, ips: Addresses, op: Op)
    requires op.Restore?
  {
    op.vm !in ips || forall row, p | row in MissingDefaults(s.rows, op.vm, op.ports) && p in row.protocol.Expand() ::
      (row.internalPort, p) in op.worked
  }

  /** t is rows with the rows of m added under the ids from `first` on. */
  ghost predicate Extended(rows: PortTable, t: PortTable, first: int, m: seq<PortRow>) {
    && (forall i :: i in t <==> i in rows || first <= i < first + |m|)
    && (forall i | i in rows :: i < first && t[i] == rows[i])
    && (forall k | 0 <= k < |m| :: t[first + k] == m[k])
  }

  lemma {:induction false} LackingRows(d: seq<PortRow>, have: set<int>)
    requires PortsDistinct(d)
    ensures forall row :: row in Lacking(d, have) <==> row in d && row.internalPort !in have
    ensures PortsDistinct(Lacking(d, have))
  {
    if d == [] {
    } else {
      var front, last := d[..|d| - 1], d[|d| - 1];
      LackingRows(front, have);
      assert d == front + [last];
      assert forall row | row in front ::
               row.externalPort != last.externalPort && row.internalPort != last.internalPort;
      var m, kept := Lacking(d, have), Lacking(front, have);
      assert m == kept || m == kept + [last];
      assert forall i | 0 <= i < |kept| :: kept[i] in kept;
    }
  }

  lemma MissingDefaultsRows(rows: PortTable, vm: int, ports: ServicePorts)
    requires ports.ssh != ports.svc1 && ports.ssh != ports.svc2 && ports.svc1 != ports.svc2
    ensures var m := MissingDefaults(rows, vm, ports);
            && (forall row | row in m :: row.vm == vm)
            && PortsDistinct(m)
  {
    var d := DefaultRows(vm, ports);
    assert |d| == 3 && d[0].externalPort == ports.ssh && d[1].externalPort == ports.svc1
        && d[2].externalPort == ports.svc2;
    assert d[0].internalPort == 22 && d[1].internalPort == 80 && d[2].internalPort == 10000;
    LackingRows(d, DefaultsOf(rows, vm));
  }

  lemma MissingDefaultsValid(rows: PortTable, vm: int, base: int, vmid: int)
    requires CalculatePorts(base, vmid).Some?
    ensures forall row | row in MissingDefaults(rows, vm, CalculatePorts(base, vmid).value) ::
              ValidPort(row.externalPort)
  {
    var ports := CalculatePorts(base, vmid).value;
    var d := DefaultRows(vm, ports);
    assert |d| == 3 && d[0].externalPort == ports.ssh && d[1].externalPort == ports.svc1
        && d[2].externalPort == ports.svc2;
    assert d[0].internalPort == 22 && d[1].internalPort == 80 && d[2].internalPort == 10000;
    LackingRows(d, DefaultsOf(rows, vm));
  }

  lemma RestoreRows(s: State, ips: Addresses, op: Op)
    requires op.Restore? && Enabled(s, ips, op)
    ensures var m := MissingDefaults(s.rows, op.vm, op.ports);
            && Extended(s.rows, InsertAll(s.rows, op.first, m), op.first, m)
            && (forall row | row in m :: row.vm == op.vm)
            && PortsDistinct(m)
  {
    MissingDefaultsRows(s.rows, op.vm, op.ports);
    InsertAllExtends(s.rows, op.first, MissingDefaults(s.rows, op.vm, op.ports));
  }

  lemma InsertAllExtends(rows: PortTable, first: int, m: seq<PortRow>)
    requires forall i | i in rows :: i < first
    ensures Extended(rows, InsertAll(rows, first, m), first, m)
  {
    InsertAllRows(rows, first, m);
  }

  lemma ExtendedUniquePorts(rows: PortTable, t: PortTable, first: int, m: seq<PortRow>)
    requires Extended(rows, t, first, m) && UniquePorts(rows)
    requires PortsDistinct(m)
    requires NoneTaken(rows, m)
    ensures UniquePorts(t)
  {
    forall i, j | i in t && j in t && i != j
      ensures t[i].externalPort != t[j].externalPort
    {
      if i !in rows { assert t[i] == m[i - first]; }
      if j !in rows { assert t[j] == m[j - first]; }
    }
    forall i | i in t ensures ValidPort(t[i].externalPort) {
      if i !in rows { assert t[i] == m[i - first]; }
    }
  }

  /** External ports stay distinct and valid: the database's unique column is never violated. */
  lemma ApplyKeepsUniquePorts(s: State, ips: Addresses, op: Op)
    requires Enabled(s, ips, op) && UniquePorts(s.rows)
    ensures UniquePorts(Apply(s, ips, op).rows)
  {
    if op.Restore? && op.saved {
      RestoreRows(s, ips, op);
      ExtendedUniquePorts(s.rows, Apply(s, ips, op).rows, op.first, MissingDefaults(s.rows, op.vm, op.ports));
    }
  }

  /** Which rules the gateway holds after an operation. */
  lemma ApplyRules(s: State, ips: Addresses, op: Op, r: Rule)
    requires Enabled(s, ips, op)
    ensures op.AddPort? && op.ok && op.row.vm in ips ==>
              (Apply(s, ips, op).chains.Has(r) <==> s.chains.Has(r) || Backs(op.row, ips, r))
    ensures op.AddPort? && (!op.ok || op.row.vm !in ips) ==> Apply(s, ips, op).chains == s.chains
    ensures op.DeletePort? ==> (Apply(s, ips, op).chains.Has(r) <==> s.chains.Has(r) && !Backs(s.rows[op.id], ips, r))
    ensures op.Restore? && op.vm !in ips ==> Apply(s, ips, op).chains == s.chains
    ensures op.Restore? && op.vm in ips ==>
              (Apply(s, ips, op).chains.Has(r) <==>
               s.chains.Has(r) || RestoredRule(MissingDefaults(s.rows, op.vm, op.ports), ips[op.vm], op.worked, r))
  {
    match op
    case AddPort(id, row, ok, _) => if row.vm in ips { AddMissingHas(s.chains, RowRules(row, ips[row.vm])); }
    case DeletePort(id, _) =>
      if s.rows[id].vm in ips { PurgeMembers(s.chains, RowRules(s.rows[id], ips[s.rows[id].vm])); }
    case Restore(vm, ports, first, worked, _) =>
      if vm in ips { AddRowsHas(s.chains, MissingDefaults(s.rows, vm, ports), ips[vm], worked); }
  }

  predicate RestoredRule(m: seq<PortRow>, ip: Ip, worked: set<(int, Protocol)>, r: Rule) {
    exists row | row in m :: Installed(row, ip, worked, r)
  }

  lemma InstalledIsBacking(row: PortRow, ips: Addresses, worked: set<(int, Protocol)>, r: Rule)
    requires row.vm in ips
    ensures Installed(row, ips[row.vm], worked, r) ==> Backs(row, ips, r)
    ensures (forall p | p in row.protocol.Expand() :: (row.internalPort, p) in worked) && Backs(row, ips, r) ==>
              Installed(row, ips[row.vm], worked, r)
  {
    RowRulesMembers(row, ips[row.vm]);
  }

  /** The operation leaves its row, or rows, in the table. */
  predicate RowStays(ips: Addresses, op: Op) {
    match op
    case AddPort(_, row, ok, removed) => row.vm !in ips || ok || !removed
    case DeletePort(_, saved) => !saved
    case Restore(_, _, _, _, saved) => saved
  }

  /** The rows behind a rule, before and after an operation. */
  lemma ApplyBacked(s: State, ips: Addresses, op: Op, r: Rule)
    requires Enabled(s, ips, op)
    ensures op.AddPort? ==>
              (Backed(Apply(s, ips, op).rows, ips, r) <==>
               Backed(s.rows, ips, r) || (RowStays(ips, op) && Backs(op.row, ips, r)))
    ensures op.DeletePort? ==>
              (Backed(Apply(s, ips, op).rows, ips, r) <==>
               exists i | i in s.rows && (i != op.id || RowStays(ips, op)) :: Backs(s.rows[i], ips, r))
    ensures op.Restore? ==>
              (Backed(Apply(s, ips, op).rows, ips, r) <==>
               || Backed(s.rows, ips, r)
               || (RowStays(ips, op)
                   && exists row :: row in MissingDefaults(s.rows, op.vm, op.ports) && Backs(row, ips, r)))
  {
    var t := Apply(s, ips, op).rows;
    match op
    case AddPort(id, row, ok, removed) =>
      if RowStays(ips, op) {
        assert t == s.rows[id := row];
        if i :| i in s.rows && Backs(s.rows[i], ips, r) { assert i in t && Backs(t[i], ips, r); }
        if Backs(row, ips, r) { assert id in t && Backs(t[id], ips, r); }
      }
    case DeletePort(id, saved) =>
      if i :| i in s.rows && (i != id || !saved) && Backs(s.rows[i], ips, r) { assert i in t && Backs(t[i], ips, r); }
    case Restore(vm, ports, first, worked, saved) =>
      if saved {
        RestoreRows(s, ips, op);
        ExtendedBacked(s.rows, t, first, MissingDefaults(s.rows, vm, ports), ips, r);
      }
  }

  lemma ExtendedBacked(rows: PortTable, t: PortTable, first: int, m: seq<PortRow>, ips: Addresses, r: Rule)
    requires Extended(rows, t, first, m)
    ensures Backed(t, ips, r) <==> Backed(rows, ips, r) || exists row :: row in m && Backs(row, ips, r)
  {
    if i :| i in rows && Backs(rows[i], ips, r) { assert i in t && Backs(t[i], ips, r); }
    if row :| row in m && Backs(row, ips, r) {
      var k :| 0 <= k < |m| && m[k] == row;
      assert first + k in t && Backs(t[first + k], ips, r);
    }
    if i :| i in t && Backs(t[i], ips, r) {
      if i !in rows { assert t[i] == m[i - first]; }
    }
  }

  // ---------------------------------------------------------------------------
  // Every forwarding rule has a row
  // ---------------------------------------------------------------------------

  /** No restoration loses its rows to a failing commit after a call for one of them has worked. */
  predicate Covered(s: State, ips: Addresses, op: Op) {
    op.Restore? && !op.saved && op.vm in ips ==>
      forall row, p | row in MissingDefaults(s.rows, op.vm, op.ports) && p in row.protocol.Expand() ::
        (row.internalPort, p) !in op.worked
  }

  /** An operation leaves a forwarding rule without a row exactly if it is a restoration that
      added rules before its commit failed. */
  lemma ApplyKeepsBacked(s: State, ips: Addresses, op: Op)
    requires Enabled(s, ips, op) && AllBacked(s, ips)
    ensures AllBacked(Apply(s, ips, op), ips) <==> Covered(s, ips, op)
  {
    if !Covered(s, ips, op) {
      OrphanRule(s, ips, op);
    } else {
      forall r: Rule | !r.Foreign? && Apply(s, ips, op).chains.Has(r)
        ensures Backed(Apply(s, ips, op).rows, ips, r)
      {
        ApplyRules(s, ips, op, r);
        ApplyBacked(s, ips, op, r);
        if op.Restore? { RestoredIsBacked(s, ips, op, r); }
      }
    }
  }

  lemma RestoredIsBacked(s: State, ips: Addresses, op: Op, r: Rule)
    requires op.Restore? && Enabled(s, ips, op)
    ensures op.vm in ips && RestoredRule(MissingDefaults(s.rows, op.vm, op.ports), ips[op.vm], op.worked, r) ==>
              exists row :: row in MissingDefaults(s.rows, op.vm, op.ports) && Backs(row, ips, r)
    ensures RestoreWorks(s, ips, op)
            && (exists row :: row in MissingDefaults(s.rows, op.vm, op.ports) && Backs(row, ips, r)) ==>
              op.vm in ips && RestoredRule(MissingDefaults(s.rows, op.vm, op.ports), ips[op.vm], op.worked, r)
  {
    RestoreRows(s, ips, op);
    var m := MissingDefaults(s.rows, op.vm, op.ports);
    if op.vm in ips {
      forall row | row in m
        ensures Installed(row, ips[op.vm], op.worked, r) ==> Backs(row, ips, r)
        ensures RestoreWorks(s, ips, op) && Backs(row, ips, r) ==> Installed(row, ips[op.vm], op.worked, r)
      {
        InstalledIsBacking(row, ips, op.worked, r);
      }
    }
  }

  /** The rules of one row and protocol. */
  function DnatOf(row: PortRow, ip: Ip, p: Protocol): Rule {
    Dnat(Normalize(row.source), p, row.externalPort, ip, row.internalPort)
  }

  function AcceptOf(row: PortRow, ip: Ip, p: Protocol): Rule {
    Accept(Normalize(row.source), p, ip, row.internalPort)
  }

  lemma BacksMeans(row: PortRow, ips: Addresses, r: Rule)
    requires row.vm in ips
    ensures Backs(row, ips, r) <==>
              exists p :: p in row.protocol.Expand()
                          && r in {DnatOf(row, ips[row.vm], p), AcceptOf(row, ips[row.vm], p)}
  {
    RowRulesMembers(row, ips[row.vm]);
  }

  /** A restoration installs the rules of a row and protocol exactly if their call worked. */
  lemma RestoredMeans(m: seq<PortRow>, vm: int, ips: Addresses, worked: set<(int, Protocol)>, row: PortRow, p: Protocol)
    requires PortsDistinct(m) && vm in ips && (forall x | x in m :: x.vm == vm)
    requires row in m && p in row.protocol.Expand()
    ensures RestoredRule(m, ips[vm], worked, DnatOf(row, ips[vm], p)) <==> (row.internalPort, p) in worked
    ensures RestoredRule(m, ips[vm], worked, AcceptOf(row, ips[vm], p)) <==> (row.internalPort, p) in worked
  {
    var ip := ips[vm];
    var pair := RulePair(Normalize(row.source), p, row.externalPort, ip, row.internalPort);
    assert pair[0] == DnatOf(row, ip, p) && pair[1] == AcceptOf(row, ip, p);
    if (row.internalPort, p) in worked {
      assert Installed(row, ip, worked, pair[0]) && Installed(row, ip, worked, pair[1]);
    }
  }

  /** No row of the table names the external port of a row still to be restored. */
  lemma NewDnatUnbacked(rows: PortTable, ips: Addresses, row: PortRow, ip: Ip, p: Protocol)
    requires forall i | i in rows :: rows[i].externalPort != row.externalPort
    ensures !Backed(rows, ips, DnatOf(row, ip, p))
  {
    forall i | i in rows ensures !Backs(rows[i], ips, DnatOf(row, ip, p)) {
      if Backs(rows[i], ips, DnatOf(row, ip, p)) { DnatNamesPort(rows[i], ips[rows[i].vm], DnatOf(row, ip, p)); }
    }
  }

  /** A restoration that is not covered leaves a DNAT rule without a row. */
  lemma OrphanRule(s: State, ips: Addresses, op: Op)
    requires Enabled(s, ips, op) && !Covered(s, ips, op)
    ensures exists r: Rule :: r.Dnat? && Apply(s, ips, op).chains.Has(r) && !Backed(Apply(s, ips, op).rows, ips, r)
  {
    var m := MissingDefaults(s.rows, op.vm, op.ports);
    var row, p :| row in m && p in row.protocol.Expand() && (row.internalPort, p) in op.worked;
    var r := DnatOf(row, ips[op.vm], p);
    RestoreRows(s, ips, op);
    RestoredMeans(m, op.vm, ips, op.worked, row, p);
    NewDnatUnbacked(s.rows, ips, row, ips[op.vm], p);
    ApplyRules(s, ips, op, r);
  }

  // ---------------------------------------------------------------------------
  // DNAT rules are exactly those of the rows
  // ---------------------------------------------------------------------------

  /** The operation changes rows and DNAT rules alike: an addition or deletion whose last commit
      goes through, a restoration that keeps just the rows whose calls worked. */
  predicate DnatKept(s: State, ips: Addresses, op: Op)
    requires Enabled(s, ips, op)
  {
    match op
    case AddPort(_, row, ok, removed) => row.vm !in ips || ok || removed
    case DeletePort(id, saved) => s.rows[id].vm !in ips || saved
    case Restore(vm, ports, _, worked, saved) =>
      vm !in ips || forall row, p | row in MissingDefaults(s.rows, vm, ports) && p in row.protocol.Expand() ::
        (row.internalPort, p) in worked <==> saved
  }

  /** Exact agreement of DNAT rules survives an operation exactly if its commits go through and
      the calls of a restoration all work, or all of a restoration fails. */
  lemma ApplyKeepsDnatExact(s: State, ips: Addresses, op: Op)
    requires Enabled(s, ips, op) && UniquePorts(s.rows) && DnatExact(s, ips)
    ensures DnatExact(Apply(s, ips, op), ips) <==> DnatKept(s, ips, op)
  {
    if !DnatKept(s, ips, op) {
      DnatBroken(s, ips, op);
    } else {
      forall r: Rule | r.Dnat?
        ensures Apply(s, ips, op).chains.Has(r) <==> Backed(Apply(s, ips, op).rows, ips, r)
      {
        ApplyRules(s, ips, op, r);
        ApplyBacked(s, ips, op, r);
        if op.Restore? { RestoredIsBacked(s, ips, op, r); }
        if op.DeletePort? && Backs(s.rows[op.id], ips, r) { OnlyOneRowBacks(s.rows, ips, op.id, r); }
      }
    }
  }

  lemma OnlyOneRowBacks(rows: PortTable, ips: Addresses, id: int, r: Rule)
    requires UniquePorts(rows) && id in rows && r.Dnat? && Backs(rows[id], ips, r)
    ensures forall i | i in rows && i != id :: !Backs(rows[i], ips, r)
  {
    DnatNamesPort(rows[id], ips[rows[id].vm], r);
    forall i | i in rows && i != id ensures !Backs(rows[i], ips, r) {
      if Backs(rows[i], ips, r) { DnatNamesPort(rows[i], ips[rows[i].vm], r); }
    }
  }

  /** Otherwise there is a row without its DNAT rule, or such a rule without a row. */
  lemma DnatBroken(s: State, ips: Addresses, op: Op)
    requires Enabled(s, ips, op) && DnatExact(s, ips) && !DnatKept(s, ips, op)
    ensures exists r: Rule :: r.Dnat? && (Apply(s, ips, op).chains.Has(r) <==> !Backed(Apply(s, ips, op).rows, ips, r))
  {
    match op
    case AddPort(_, row, _, _) =>
      var p := row.protocol.Expand()[0];
      var r := DnatOf(row, ips[row.vm], p);
      BacksMeans(row, ips, r);
      NewDnatUnbacked(s.rows, ips, row, ips[row.vm], p);
      ApplyRules(s, ips, op, r);
      ApplyBacked(s, ips, op, r);
    case DeletePort(id, _) =>
      var p := s.rows[id].protocol.Expand()[0];
      var r := DnatOf(s.rows[id], ips[s.rows[id].vm], p);
      BacksMeans(s.rows[id], ips, r);
      ApplyRules(s, ips, op, r);
      ApplyBacked(s, ips, op, r);
    case Restore(vm, ports, _, worked, saved) =>
      var m := MissingDefaults(s.rows, vm, ports);
      var row, p :| row in m && p in row.protocol.Expand() && !((row.internalPort, p) in worked <==> saved);
      var r := DnatOf(row, ips[vm], p);
      RestoreRows(s, ips, op);
      RestoredMeans(m, vm, ips, worked, row, p);
      BacksMeans(row, ips, r);
      NewDnatUnbacked(s.rows, ips, row, ips[vm], p);
      ApplyRules(s, ips, op, r);
      ApplyBacked(s, ips, op, r);
  }

  // ---------------------------------------------------------------------------
  // FORWARD rules are exactly those of the rows
  // ---------------------------------------------------------------------------

  /** Some row of the table asks for the same forwarding as this one does for p. */
  predicate HasTwin(rows: PortTable, ips: Addresses, row: PortRow, p: Protocol)
    requires row.vm in ips
  {
    exists i | i in rows ::
      && rows[i].vm in ips && ips[rows[i].vm] == ips[row.vm] && rows[i].internalPort == row.internalPort
      && Normalize(rows[i].source) == Normalize(row.source) && p in rows[i].protocol.Expand()
  }

  lemma TwinMeans(rows: PortTable, ips: Addresses, row: PortRow, p: Protocol)
    requires row.vm in ips
    ensures HasTwin(rows, ips, row, p) <==> Backed(rows, ips, AcceptOf(row, ips[row.vm], p))
  {
    forall i | i in rows && rows[i].vm in ips
      ensures Backs(rows[i], ips, AcceptOf(row, ips[row.vm], p)) <==>
                && ips[rows[i].vm] == ips[row.vm] && rows[i].internalPort == row.internalPort
                && Normalize(rows[i].source) == Normalize(row.source) && p in rows[i].protocol.Expand()
    {
      BacksMeans(rows[i], ips, AcceptOf(row, ips[row.vm], p));
    }
  }

  /** The operation changes rows and FORWARD rules alike: as for DNAT rules, except that a rule
      can also be there on another row's account, and must stay if that row does. */
  predicate ForwardKept(s: State, ips: Addresses, op: Op)
    requires Enabled(s, ips, op)
  {
    match op
    case AddPort(_, row, ok, removed) =>
      row.vm !in ips || ok || removed || forall p | p in row.protocol.Expand() :: HasTwin(s.rows, ips, row, p)
    case DeletePort(id, saved) =>
      || s.rows[id].vm !in ips
      || (saved && forall i | i in s.rows && i != id :: !ShareForward(s.rows[i], s.rows[id], ips))
    case Restore(vm, ports, _, worked, saved) =>
      vm !in ips || forall row, p | row in MissingDefaults(s.rows, vm, ports) && p in row.protocol.Expand() ::
        ((row.internalPort, p) in worked <==> saved) || (row.vm in ips && HasTwin(s.rows, ips, row, p))
  }

  /** Exact agreement of FORWARD rules survives an operation exactly under that condition. */
  lemma ApplyKeepsForwardExact(s: State, ips: Addresses, op: Op)
    requires Enabled(s, ips, op) && ForwardExact(s, ips)
    ensures ForwardExact(Apply(s, ips, op), ips) <==> ForwardKept(s, ips, op)
  {
    match op
    case AddPort(_, _, _, _) => ForwardAfterAdd(s, ips, op);
    case DeletePort(_, _) => ForwardAfterDelete(s, ips, op);
    case Restore(_, _, _, _, _) => ForwardAfterRestore(s, ips, op);
  }

  lemma ForwardAfterAdd(s: State, ips: Addresses, op: Op)
    requires Enabled(s, ips, op) && ForwardExact(s, ips) && op.AddPort?
    ensures ForwardExact(Apply(s, ips, op), ips) <==> ForwardKept(s, ips, op)
  {
    var t, row := Apply(s, ips, op), op.row;
    forall r: Rule | r.Accept?
      ensures row.vm !in ips || op.ok || op.removed ==> (t.chains.Has(r) <==> Backed(t.rows, ips, r))
      ensures row.vm in ips && !op.ok && !op.removed ==>
                ((t.chains.Has(r) <==> Backed(t.rows, ips, r)) <==> (Backs(row, ips, r) ==> Backed(s.rows, ips, r)))
    {
      ApplyRules(s, ips, op, r);
      ApplyBacked(s, ips, op, r);
    }
    if row.vm in ips && !op.ok && !op.removed {
      forall p | p in row.protocol.Expand()
        ensures Backs(row, ips, AcceptOf(row, ips[row.vm], p))
        ensures HasTwin(s.rows, ips, row, p) <==> Backed(s.rows, ips, AcceptOf(row, ips[row.vm], p))
      {
        BacksMeans(row, ips, AcceptOf(row, ips[row.vm], p));
        TwinMeans(s.rows, ips, row, p);
      }
      forall r: Rule | r.Accept? && Backs(row, ips, r)
        ensures exists p :: p in row.protocol.Expand() && r == AcceptOf(row, ips[row.vm], p)
      {
        BacksMeans(row, ips, r);
      }
    }
  }

  lemma ForwardAfterDelete(s: State, ips: Addresses, op: Op)
    requires Enabled(s, ips, op) && ForwardExact(s, ips) && op.DeletePort?
    ensures ForwardExact(Apply(s, ips, op), ips) <==> ForwardKept(s, ips, op)
  {
    var t, row := Apply(s, ips, op), s.rows[op.id];
    forall r: Rule | r.Accept?
      ensures t.chains.Has(r) <==> Backed(s.rows, ips, r) && !Backs(row, ips, r)
      ensures Backed(t.rows, ips, r) <==>
                exists i | i in s.rows && (i != op.id || !op.saved) :: Backs(s.rows[i], ips, r)
    {
      ApplyRules(s, ips, op, r);
      ApplyBacked(s, ips, op, r);
    }
    if row.vm in ips && !op.saved {
      var r := AcceptOf(row, ips[row.vm], row.protocol.Expand()[0]);
      BacksMeans(row, ips, r);
      assert Backed(t.rows, ips, r) && !t.chains.Has(r);
    } else if i :| i in s.rows && i != op.id && ShareForward(s.rows[i], row, ips) {
      ShareForwardMeans(s.rows[i], row, ips);
      var r: Rule :| r.Accept? && Backs(s.rows[i], ips, r) && Backs(row, ips, r);
      assert Backed(t.rows, ips, r) && !t.chains.Has(r);
    } else {
      forall r: Rule, i | r.Accept? && Backs(row, ips, r) && i in s.rows && i != op.id
        ensures !Backs(s.rows[i], ips, r)
      {
        ShareForwardMeans(s.rows[i], row, ips);
      }
    }
  }

  /** Whether a FORWARD rule is still in step after a restoration. */
  lemma RestoredInStep(s: State, ips: Addresses, op: Op, r: Rule)
    requires Enabled(s, ips, op) && ForwardExact(s, ips) && op.Restore? && op.vm in ips && r.Accept?
    ensures var t, m := Apply(s, ips, op), MissingDefaults(s.rows, op.vm, op.ports);
            (t.chains.Has(r) <==> Backed(t.rows, ips, r)) <==>
            || Backed(s.rows, ips, r)
            || (RestoredRule(m, ips[op.vm], op.worked, r) <==> op.saved && exists row :: row in m && Backs(row, ips, r))
  {
    ApplyRules(s, ips, op, r);
    ApplyBacked(s, ips, op, r);
  }

  /** The same for the rule of a row and protocol. */
  lemma RestoredPairInStep(s: State, ips: Addresses, op: Op, row: PortRow, p: Protocol)
    requires Enabled(s, ips, op) && ForwardExact(s, ips) && op.Restore? && op.vm in ips
    requires row in MissingDefaults(s.rows, op.vm, op.ports) && p in row.protocol.Expand()
    ensures row.vm == op.vm
    ensures var t, r := Apply(s, ips, op), AcceptOf(row, ips[op.vm], p);
            (t.chains.Has(r) <==> Backed(t.rows, ips, r)) <==>
            HasTwin(s.rows, ips, row, p) || ((row.internalPort, p) in op.worked <==> op.saved)
  {
    var m, r := MissingDefaults(s.rows, op.vm, op.ports), AcceptOf(row, ips[op.vm], p);
    RestoreRows(s, ips, op);
    RestoredInStep(s, ips, op, r);
    BacksMeans(row, ips, r);
    TwinMeans(s.rows, ips, row, p);
    RestoredMeans(m, op.vm, ips, op.worked, row, p);
  }

  /** Rules of none of the rows stay in step. */
  lemma RestoredOtherInStep(s: State, ips: Addresses, op: Op, r: Rule)
    requires Enabled(s, ips, op) && ForwardExact(s, ips) && op.Restore? && op.vm in ips && r.Accept?
    requires forall row, p | row in MissingDefaults(s.rows, op.vm, op.ports) && p in row.protocol.Expand() ::
               r != AcceptOf(row, ips[op.vm], p)
    ensures Apply(s, ips, op).chains.Has(r) <==> Backed(Apply(s, ips, op).rows, ips, r)
  {
    var m := MissingDefaults(s.rows, op.vm, op.ports);
    RestoreRows(s, ips, op);
    forall row | row in m ensures !Backs(row, ips, r) {
      BacksMeans(row, ips, r);
    }
    RestoredIsBacked(s, ips, op, r);
    RestoredInStep(s, ips, op, r);
  }

  lemma ForwardAfterRestore(s: State, ips: Addresses, op: Op)
    requires Enabled(s, ips, op) && ForwardExact(s, ips) && op.Restore?
    ensures ForwardExact(Apply(s, ips, op), ips) <==> ForwardKept(s, ips, op)
  {
    var t, m := Apply(s, ips, op), MissingDefaults(s.rows, op.vm, op.ports);
    if op.vm !in ips {
      RestoreRows(s, ips, op);
      forall r: Rule | r.Accept? ensures t.chains.Has(r) <==> Backed(t.rows, ips, r) {
        ApplyRules(s, ips, op, r);
        ApplyBacked(s, ips, op, r);
      }
    } else {
      forall row, p | row in m && p in row.protocol.Expand()
        ensures row.vm == op.vm
        ensures (t.chains.Has(AcceptOf(row, ips[op.vm], p)) <==> Backed(t.rows, ips, AcceptOf(row, ips[op.vm], p))) <==>
                HasTwin(s.rows, ips, row, p) || ((row.internalPort, p) in op.worked <==> op.saved)
      {
        RestoredPairInStep(s, ips, op, row, p);
      }
      forall r: Rule | r.Accept? && forall row, p | row in m && p in row.protocol.Expand() ::
                         r != AcceptOf(row, ips[op.vm], p)
        ensures t.chains.Has(r) <==> Backed(t.rows, ips, r)
      {
        RestoredOtherInStep(s, ips, op, r);
      }
    }
  }

  // ---------------------------------------------------------------------------
  // Runs
  // ---------------------------------------------------------------------------

  /** An operation that is not possible in a state is answered with an error and changes nothing. */
  function Next(s: State, ips: Addresses, op: Op): State {
    if Enabled(s, ips, op) then Apply(s, ips, op) else s
  }

  function Run(s: State, ips: Addresses, ops: seq<Op>): State {
    if ops == [] then s else Next(Run(s, ips, ops[..|ops| - 1]), ips, ops[|ops| - 1])
  }

  /** The operation at position n of the run, if it can happen, leaves no rule without a row. */
  predicate CoveredAt(s: State, ips: Addresses, ops: seq<Op>, n: nat)
    requires n < |ops|
  {
    var t := Run(s, ips, ops[..n]);
    Enabled(t, ips, ops[n]) ==> Covered(t, ips, ops[n])
  }

  /** Over every run: ports stay unique, and as long as no commit of a restoration fails after
      rules have been added, every forwarding rule has a row behind it. */
  lemma {:induction false} RunKeepsBacked(s: State, ips: Addresses, ops: seq<Op>)
    requires UniquePorts(s.rows) && AllBacked(s, ips)
    requires forall n | 0 <= n < |ops| :: CoveredAt(s, ips, ops, n)
    ensures UniquePorts(Run(s, ips, ops).rows) && AllBacked(Run(s, ips, ops), ips)
  {
    if ops == [] {
    } else {
      var before, op := ops[..|ops| - 1], ops[|ops| - 1];
      var t := Run(s, ips, before);
      forall n | 0 <= n < |before| ensures CoveredAt(s, ips, before, n) {
        assert CoveredAt(s, ips, ops, n) && before[..n] == ops[..n];
      }
      RunKeepsBacked(s, ips, before);
      assert CoveredAt(s, ips, ops, |ops| - 1);
      if Enabled(t, ips, op) {
        ApplyKeepsUniquePorts(t, ips, op);
        ApplyKeepsBacked(t, ips, op);
      }
    }
  }

  /** Over every run: rules that forward no port stay as they are, in order. */
  lemma {:induction false} RunKeepsForeigns(s: State, ips: Addresses, ops: seq<Op>)
    ensures SameForeigns(s.chains, Run(s, ips, ops).chains)
  {
    if ops == [] {
    } else {
      var t, op := Run(s, ips, ops[..|ops| - 1]), ops[|ops| - 1];
      RunKeepsForeigns(s, ips, ops[..|ops| - 1]);
      if Enabled(t, ips, op) { ApplyKeepsForeigns(t, ips, op); }
    }
  }

  /** The operation at position n of the run, if it can happen, keeps rows and DNAT rules in step. */
  predicate DnatKeptAt(s: State, ips: Addresses, ops: seq<Op>, n: nat)
    requires n < |ops|
  {
    var t := Run(s, ips, ops[..n]);
    Enabled(t, ips, ops[n]) ==> DnatKept(t, ips, ops[n])
  }

  /** Over every such run the DNAT rules are exactly those of the rows. */
  lemma {:induction false} RunKeepsDnatExact(s: State, ips: Addresses, ops: seq<Op>)
    requires UniquePorts(s.rows) && DnatExact(s, ips)
    requires forall n | 0 <= n < |ops| :: DnatKeptAt(s, ips, ops, n)
    ensures UniquePorts(Run(s, ips, ops).rows) && DnatExact(Run(s, ips, ops), ips)
  {
    if ops == [] {
    } else {
      var before, op := ops[..|ops| - 1], ops[|ops| - 1];
      var t := Run(s, ips, before);
      forall n | 0 <= n < |before| ensures DnatKeptAt(s, ips, before, n) {
        assert DnatKeptAt(s, ips, ops, n) && before[..n] == ops[..n];
      }
      RunKeepsDnatExact(s, ips, before);
      assert DnatKeptAt(s, ips, ops, |ops| - 1);
      if Enabled(t, ips, op) {
        ApplyKeepsUniquePorts(t, ips, op);
        ApplyKeepsDnatExact(t, ips, op);
      }
    }
  }

  predicate ForwardKeptAt(s: State, ips: Addresses, ops: seq<Op>, n: nat)
    requires n < |ops|
  {
    var t := Run(s, ips, ops[..n]);
    Enabled(t, ips, ops[n]) ==> ForwardKept(t, ips, ops[n])
  }

  /** Over every run of operations that keep them in step the FORWARD rules are exactly those
      of the rows. */
  lemma {:induction false} RunKeepsForwardExact(s: State, ips: Addresses, ops: seq<Op>)
    requires ForwardExact(s, ips)
    requires forall n | 0 <= n < |ops| :: ForwardKeptAt(s, ips, ops, n)
    ensures ForwardExact(Run(s, ips, ops), ips)
  {
    if ops == [] {
    } else {
      var before, op := ops[..|ops| - 1], ops[|ops| - 1];
      var t := Run(s, ips, before);
      forall n | 0 <= n < |before| ensures ForwardKeptAt(s, ips, before, n) {
        assert ForwardKeptAt(s, ips, ops, n) && before[..n] == ops[..n];
      }
      RunKeepsForwardExact(s, ips, before);
      assert ForwardKeptAt(s, ips, ops, |ops| - 1);
      if Enabled(t, ips, op) { ApplyKeepsForwardExact(t, ips, op); }
    }
  }

  /** Where no two rows share a FORWARD rule, what keeps the DNAT rules keeps the others too. */
  lemma NoSharingSuffices(s: State, ips: Addresses, op: Op)
    requires Enabled(s, ips, op) && NoSharing(s.rows, ips) && DnatKept(s, ips, op)
    ensures ForwardKept(s, ips, op)
  {
  }

  /** So over every run without sharing that keeps the DNAT rules, both kinds are exact. */
  lemma RunWithoutSharing(s: State, ips: Addresses, ops: seq<Op>)
    requires UniquePorts(s.rows) && DnatExact(s, ips) && ForwardExact(s, ips)
    requires forall n | 0 <= n < |ops| :: DnatKeptAt(s, ips, ops, n) && NoSharing(Run(s, ips, ops[..n]).rows, ips)
    ensures DnatExact(Run(s, ips, ops), ips) && ForwardExact(Run(s, ips, ops), ips)
  {
    forall n | 0 <= n < |ops| ensures ForwardKeptAt(s, ips, ops, n) {
      assert DnatKeptAt(s, ips, ops, n);
      var t := Run(s, ips, ops[..n]);
      if Enabled(t, ips, ops[n]) { NoSharingSuffices(t, ips, ops[n]); }
    }
    RunKeepsDnatExact(s, ips, ops);
    RunKeepsForwardExact(s, ips, ops);
  }

  /** A run of two successful additions and one deletion after which FORWARD rules and rows
      disagree: the second port's rule is gone. It needs a VM with an address and two free
      external ports, and the ports to agree in internal port, protocol and source. */
  lemma SharedRuleIsLost(s: State, ips: Addresses, id: int, a: PortRow, b: PortRow)
    requires Enabled(s, ips, AddPort(id, a, true, true)) && Enabled(s, ips, AddPort(id + 1, b, true, true))
    requires ForwardExact(s, ips)
    requires a.externalPort != b.externalPort && a.vm == b.vm && a.vm in ips
    requires a.internalPort == b.internalPort && a.protocol == b.protocol && Normalize(a.source) == Normalize(b.source)
    ensures ForwardExact(Run(s, ips, [AddPort(id, a, true, true), AddPort(id + 1, b, true, true)]), ips)
    ensures var t := Run(s, ips, [AddPort(id, a, true, true), AddPort(id + 1, b, true, true), DeletePort(id, true)]);
            t.rows == s.rows[id + 1 := b] && !ForwardExact(t, ips)
  {
    var op1, op2, op3 := AddPort(id, a, true, true), AddPort(id + 1, b, true, true), DeletePort(id, true);
    var t := Run(s, ips, [op1, op2]);
    BothAdded(s, ips, id, a, b);
    RunOne(s, ips, [op1, op2], op3);
    assert [op1, op2] + [op3] == [op1, op2, op3];
    DeletingSharedBreaks(t, ips, id, id + 1);
    assert t.rows - {id} == s.rows[id + 1 := b];
  }

  /** Such a run starts from an empty table and an empty gateway. */
  lemma SharedRuleLossIsReachable()
    ensures var s, ips := State(map[], Chains([], [])), map[1 := 100];
            var a, b := PortRow(1, 8080, 30000, TcpOnly, None, false), PortRow(1, 8080, 30001, TcpOnly, None, false);
            var ops := [AddPort(1, a, true, true), AddPort(2, b, true, true), DeletePort(1, true)];
            ForwardExact(s, ips) && !ForwardExact(Run(s, ips, ops), ips)
  {
    var a, b := PortRow(1, 8080, 30000, TcpOnly, None, false), PortRow(1, 8080, 30001, TcpOnly, None, false);
    SharedRuleIsLost(State(map[], Chains([], [])), map[1 := 100], 1, a, b);
  }

  lemma BothAdded(s: State, ips: Addresses, id: int, a: PortRow, b: PortRow)
    requires Enabled(s, ips, AddPort(id, a, true, true)) && Enabled(s, ips, AddPort(id + 1, b, true, true))
    requires ForwardExact(s, ips)
    requires a.externalPort != b.externalPort && a.vm in ips && b.vm in ips
    ensures var t := Run(s, ips, [AddPort(id, a, true, true), AddPort(id + 1, b, true, true)]);
            t.rows == s.rows[id := a][id + 1 := b] && ForwardExact(t, ips)
  {
    var op1, op2 := AddPort(id, a, true, true), AddPort(id + 1, b, true, true);
    RunOne(s, ips, [], op1);
    RunOne(s, ips, [op1], op2);
    assert [] + [op1] == [op1] && [op1] + [op2] == [op1, op2];
    var s1 := Apply(s, ips, op1);
    assert s1.rows == s.rows[id := a] && Enabled(s1, ips, op2);
    ApplyKeepsForwardExact(s, ips, op1);
    ApplyKeepsForwardExact(s1, ips, op2);
  }

  lemma RunOne(s: State, ips: Addresses, ops: seq<Op>, op: Op)
    ensures Run(s, ips, ops + [op]) == Next(Run(s, ips, ops), ips, op)
  {
    assert (ops + [op])[..|ops|] == ops;
  }

  lemma DeletingSharedBreaks(s: State, ips: Addresses, id: int, other: int)
    requires ForwardExact(s, ips) && id in s.rows && other in s.rows && id != other
    requires var a, b := s.rows[id], s.rows[other];
             && a.vm == b.vm && a.vm in ips && a.internalPort == b.internalPort && a.protocol == b.protocol
             && Normalize(a.source) == Normalize(b.source)
    ensures !ForwardExact(Apply(s, ips, DeletePort(id, true)), ips)
  {
    var p := s.rows[id].protocol.Expand()[0];
    assert p in s.rows[id].protocol.Expand() && p in s.rows[other].protocol.Expand();
    assert ShareForward(s.rows[other], s.rows[id], ips);
    ApplyKeepsForwardExact(s, ips, DeletePort(id, true));
  }

  // ---------------------------------------------------------------------------
  // Failing commits
  // ---------------------------------------------------------------------------

  /** A restoration whose commit fails after a call has worked leaves a rule without a row. */
  lemma UnsavedRestoreBreaks(s: State, ips: Addresses, op: Op, row: PortRow, p: Protocol)
    requires Enabled(s, ips, op) && op.Restore? && !op.saved && op.vm in ips
    requires row in MissingDefaults(s.rows, op.vm, op.ports) && p in row.protocol.Expand()
    requires (row.internalPort, p) in op.worked && UniquePorts(s.rows)
    ensures AllBacked(s, ips) ==> !AllBacked(Apply(s, ips, op), ips)
    ensures DnatExact(s, ips) ==> !DnatExact(Apply(s, ips, op), ips)
  {
    if AllBacked(s, ips) { ApplyKeepsBacked(s, ips, op); }
    if DnatExact(s, ips) { ApplyKeepsDnatExact(s, ips, op); }
  }

  /** With no rows at all, all default rows are missing. */
  lemma AllDefaultsMissing(vm: int, ports: ServicePorts, base: int, vmid: int)
    requires CalculatePorts(base, vmid) == Some(ports)
    ensures var d := DefaultRows(vm, ports);
            && (forall row | row in d :: row in MissingDefaults(map[], vm, ports))
            && NoneTaken(map[], MissingDefaults(map[], vm, ports))
  {
    var d := DefaultRows(vm, ports);
    assert d[0].internalPort == 22 && d[1].internalPort == 80 && d[2].internalPort == 10000;
    assert d[0].externalPort == ports.ssh && d[1].externalPort == ports.svc1 && d[2].externalPort == ports.svc2;
    MissingDefaultsValid(map[], vm, base, vmid);
    LackingRows(d, DefaultsOf(map[], vm));
  }

  /** Such a run starts from an empty table and an empty gateway. */
  lemma OrphanRuleIsReachable()
    ensures var s, ips := State(map[], Chains([], [])), map[7 := 100];
            var op := Restore(7, ServicePorts(20100, 21100, 22100), 0, {(22, Tcp)}, false);
            && Enabled(s, ips, op) && AllBacked(s, ips) && DnatExact(s, ips)
            && !AllBacked(Run(s, ips, [op]), ips) && !DnatExact(Run(s, ips, [op]), ips)
  {
    var s, ips, ports := State(map[], Chains([], [])), map[7 := 100], ServicePorts(20100, 21100, 22100);
    var op, row := Restore(7, ports, 0, {(22, Tcp)}, false), DefaultRows(7, ports)[0];
    AllDefaultsMissing(7, ports, 20000, 100);
    assert row in DefaultRows(7, ports) && row.protocol.Expand()[0] == Tcp;
    UnsavedRestoreBreaks(s, ips, op, row, Tcp);
  }

  /** From any state in agreement with a port of a VM that has an address: deleting the port
      with a commit that fails leaves its row without rules. */
  lemma UnsavedDeleteBreaks(s: State, ips: Addresses, id: int)
    requires UniquePorts(s.rows) && DnatExact(s, ips) && ForwardExact(s, ips)
    requires id in s.rows && s.rows[id].vm in ips
    ensures var t := Apply(s, ips, DeletePort(id, false));
            t.rows == s.rows && !DnatExact(t, ips) && !ForwardExact(t, ips)
  {
    ApplyKeepsDnatExact(s, ips, DeletePort(id, false));
    ApplyKeepsForwardExact(s, ips, DeletePort(id, false));
  }

  /** From an empty table and gateway: an addition that the gateway refuses, and whose row the
      next commit fails to take back. */
  lemma UnremovedRowIsReachable()
    ensures var s, ips := State(map[], Chains([], [])), map[7 := 100];
            var op := AddPort(0, PortRow(7, 8080, 30000, TcpOnly, None, false), false, false);
            Enabled(s, ips, op) && DnatExact(s, ips) && !DnatExact(Run(s, ips, [op]), ips)
  {
    var s, ips := State(map[], Chains([], [])), map[7 := 100];
    var op := AddPort(0, PortRow(7, 8080, 30000, TcpOnly, None, false), false, false);
    ApplyKeepsDnatExact(s, ips, op);
  }

  // ---------------------------------------------------------------------------
  // The endpoints
  // ---------------------------------------------------------------------------

  /** Whatever the gateway holds, a failed ADD in this session takes back what it added. */
  ghost predicate AlwaysCompensates(s: Session) {
    forall j: nat :: s.add.undo(j).Effective()
  }

  /** No command of an ADD in this session fails. */
  ghost predicate NeverFails(s: Session) {
    s.Opens() && (forall j: nat :: s.add.check(j).Answered?) && (forall j: nat :: s.add.add(j).Done?)
  }

  /** The same of all sessions of a restoration, by internal port and protocol. */
  ghost predicate AllCompensate(sessions: (int, Protocol) -> Session) {
    forall i, p :: AlwaysCompensates(sessions(i, p))
  }

  ghost predicate AllNeverFail(sessions: (int, Protocol) -> Session) {
    forall i, p :: NeverFails(sessions(i, p))
  }

  datatype Response = Success | TooMany | NoFreePort | NotSaved | GatewayFailed | NotFound | Conflict | ServerError

  class PortEndpoints {
    const ips: Addresses
    const gw: Gateway
    var rows: PortTable
    var nextId: int

    constructor (ips: Addresses, gw: Gateway, rows: PortTable, nextId: int)
      requires (forall i | i in rows :: i < nextId) && UniquePorts(rows)
      ensures Valid() && Now() == State(rows, gw.chains) && this.ips == ips && this.gw == gw
    {
      this.ips := ips;
      this.gw := gw;
      this.rows := rows;
      this.nextId := nextId;
    }

    ghost predicate Valid()
      reads this
    {
      (forall i | i in rows :: i < nextId) && UniquePorts(rows)
    }

    ghost function Now(): State
      reads this, gw
    {
      State(rows, gw.chains)
    }

    /** Up to a hundred random draws; the first port no row uses. */
    method AllocateRandomPort(draws: nat -> int) returns (r: Option<int>)
      ensures r.Some? ==>
                (forall i | i in rows :: rows[i].externalPort != r.value)
                && exists n: nat :: n < PORT_DRAWS && r.value == draws(n)
                                    && forall k: nat | k < n :: Drawn(rows, draws(k))
      ensures r.None? <==> forall k: nat | k < PORT_DRAWS :: Drawn(rows, draws(k))
    {
      for n := 0 to PORT_DRAWS
        invariant forall k: nat | k < n :: Drawn(rows, draws(k))
      {
        if !Drawn(rows, draws(n)) { return Some(draws(n)); }
      }
      return None;
    }

    /** One ADD, which adds what is missing, or nothing at all if it fails and compensates. */
    method TryAdd(rules: seq<Rule>, s: Session) returns (ok: bool)
      modifies gw
      ensures ok == AddWorks(s, old(gw.chains), rules) && OnlyAdds(old(gw.chains), gw.chains, rules)
      ensures ok ==> gw.chains == AddMissing(old(gw.chains), rules) && forall r | r in rules :: gw.chains.Has(r)
      ensures old(gw.chains.prerouting) <= gw.chains.prerouting && old(gw.chains.forward) <= gw.chains.forward
      ensures forall r | gw.chains.Has(r) :: old(gw.chains).Has(r) || r in rules
      ensures !ok && AlwaysCompensates(s) ==> gw.chains == old(gw.chains)
    {
      ok := Add(gw, rules, s);
      OnlyAddsHas(old(gw.chains), gw.chains, rules);
    }

    /** The gateway part of add_custom_port. */
    method OpenPort(row: PortRow, protocol: Protocol, ip: Ip, s: Session) returns (ok: bool)
      requires row.protocol == if protocol.Tcp? then TcpOnly else UdpOnly
      modifies gw
      ensures ok == AddWorks(s, old(gw.chains), RowRules(row, ip))
                && OnlyAdds(old(gw.chains), gw.chains, RowRules(row, ip))
      ensures ok ==> gw.chains == AddMissing(old(gw.chains), RowRules(row, ip))
      ensures !ok && AlwaysCompensates(s) ==> gw.chains == old(gw.chains)
      ensures ok ==>
                var src := if row.source in {None, Some(""), Some("0.0.0.0/0"), Some("0.0.0.0")} then None
                    else row.source;
                var dnat := Dnat(src, protocol, row.externalPort, ip, row.internalPort);
                var accept := Accept(src, protocol, ip, row.internalPort);
                && dnat in gw.chains.prerouting && accept in gw.chains.forward
                && (forall x | gw.chains.Has(x) :: old(gw.chains).Has(x) || x in {dnat, accept})
                && old(gw.chains.prerouting) <= gw.chains.prerouting && old(gw.chains.forward) <= gw.chains.forward
    {
      RowRulesAre(row, ip);
      ok := TryAdd(RowRules(row, ip), s);
      if ok { BothThere(gw.chains, RowRules(row, ip)); }
    }

    /** add_custom_port: the row is saved first, so that its port is taken; the gateway call
        follows, and when it fails the row is removed again, if that commit goes through. */
    method AddCustomPort(vm: int, internalPort: int, protocol: Protocol, source: Option<string>, draws: nat -> int,
                         saved: bool, s: Session, removed: bool) returns (r: Response, row: PortRow)
      requires Valid() && forall n: nat :: 30000 <= draws(n) <= 39999
      modifies this, gw
      ensures Valid() && r in {Success, TooMany, NoFreePort, NotSaved, GatewayFailed, ServerError}
      ensures r.TooMany? <==> |CustomPorts(old(rows), vm)| >= MAX_CUSTOM_PORTS
      ensures r.NoFreePort? <==> !r.TooMany? && forall k: nat | k < 100 :: Drawn(old(rows), draws(k))
      ensures r.TooMany? <==> |set i | i in old(rows) && old(rows)[i].vm == vm && !old(rows)[i].isDefault| >= 30
      ensures r.NotSaved? <==> !r.TooMany? && !r.NoFreePort? && !saved
      ensures r in {Success, GatewayFailed, ServerError} ==>
                exists n: nat :: n < 100 && row.externalPort == draws(n)
                    && forall k: nat | k < n :: Drawn(old(rows), draws(k))
      ensures r.GatewayFailed? || r.ServerError? <==>
                && !r.TooMany? && !r.NoFreePort? && saved && vm in ips
                && !AddWorks(s, old(gw.chains), RowRules(row, ips[vm]))
      ensures r.GatewayFailed? ==> removed
      ensures r.ServerError? ==> !removed
      ensures r in {TooMany, NoFreePort, NotSaved} ==> Now() == old(Now())
      ensures r in {Success, GatewayFailed, ServerError} ==>
                var op := AddPort(old(nextId), row, r.Success?, removed);
                && row == PortRow(vm, internalPort, row.externalPort,
                                  if protocol.Tcp? then TcpOnly else UdpOnly, source, false)
                && Enabled(old(Now()), ips, op) && rows == Apply(old(Now()), ips, op).rows
                && (r.Success? || AlwaysCompensates(s) ==> Now() == Apply(old(Now()), ips, op))
      ensures r.GatewayFailed? || r.ServerError? ==>
                vm in ips && OnlyAdds(old(gw.chains), gw.chains, RowRules(row, ips[vm]))
      // The rules of a new port, in terms of the request: one DNAT and one FORWARD rule, restricted to the
      // source unless that means everywhere, and nothing else.
      ensures r.Success? ==> rows == old(rows)[old(nextId) := row]
      ensures r.Success? && vm !in ips ==> gw.chains == old(gw.chains)
      ensures r.Success? && vm in ips ==>
                var src := if source in {None, Some(""), Some("0.0.0.0/0"), Some("0.0.0.0")} then None else source;
                var dnat := Dnat(src, protocol, row.externalPort, ips[vm], internalPort);
                var accept := Accept(src, protocol, ips[vm], internalPort);
                && dnat in gw.chains.prerouting && accept in gw.chains.forward
                && (forall x | gw.chains.Has(x) :: old(gw.chains).Has(x) || x in {dnat, accept})
                && old(gw.chains.prerouting) <= gw.chains.prerouting && old(gw.chains.forward) <= gw.chains.forward
    {
      row := PortRow(vm, internalPort, 0, if protocol.Tcp? then TcpOnly else UdpOnly, source, false);
      if |CustomPorts(rows, vm)| >= MAX_CUSTOM_PORTS { return TooMany, row; }
      var port := AllocateRandomPort(draws);
      if port.None? { return NoFreePort, row; }
      row := row.(externalPort := port.value);
      if !saved { return NotSaved, row; }
      r := SavePort(row, protocol, s, removed);
    }

    /** add_custom_port from its first commit on. */
    method SavePort(row: PortRow, protocol: Protocol, s: Session, removed: bool) returns (r: Response)
      requires Valid() && Enabled(Now(), ips, AddPort(nextId, row, true, removed))
      requires row.protocol == if protocol.Tcp? then TcpOnly else UdpOnly
      modifies this, gw
      ensures Valid() && r in {Success, GatewayFailed, ServerError}
      ensures !r.Success? <==> row.vm in ips && !AddWorks(s, old(gw.chains), RowRules(row, ips[row.vm]))
      ensures r.GatewayFailed? ==> removed
      ensures r.ServerError? ==> !removed
      ensures var op := AddPort(old(nextId), row, r.Success?, removed);
              && rows == Apply(old(Now()), ips, op).rows
              && (r.Success? || AlwaysCompensates(s) ==> Now() == Apply(old(Now()), ips, op))
      ensures !r.Success? ==> OnlyAdds(old(gw.chains), gw.chains, RowRules(row, ips[row.vm]))
      ensures r.Success? ==> rows == old(rows)[old(nextId) := row]
      ensures r.Success? && row.vm !in ips ==> gw.chains == old(gw.chains)
      ensures r.Success? && row.vm in ips ==>
                var src := if row.source in {None, Some(""), Some("0.0.0.0/0"), Some("0.0.0.0")} then None
                    else row.source;
                var dnat := Dnat(src, protocol, row.externalPort, ips[row.vm], row.internalPort);
                var accept := Accept(src, protocol, ips[row.vm], row.internalPort);
                && dnat in gw.chains.prerouting && accept in gw.chains.forward
                && (forall x | gw.chains.Has(x) :: old(gw.chains).Has(x) || x in {dnat, accept})
                && old(gw.chains.prerouting) <= gw.chains.prerouting && old(gw.chains.forward) <= gw.chains.forward
    {
      var id, before := nextId, rows;
      nextId := nextId + 1;
      rows := rows[id := row];
      r := Success;
      if row.vm in ips {
        var ok := OpenPort(row, protocol, ips[row.vm], s);
        if !ok {
          if !removed { return ServerError; }
          rows := rows - {id};
          assert rows == before;
          r := GatewayFailed;
        }
      }
    }

    /** delete_custom_port: the row goes whatever the gateway says, if the commit goes through. */
    method DeleteCustomPort(vm: int, id: int, sessions: Protocol -> Session, saved: bool) returns (r: Response)
      requires Valid()
      modifies this`rows, gw
      ensures Valid() && r in {Success, NotFound, ServerError}
      ensures r.NotFound? == !(id in old(rows) && old(rows)[id].vm == vm)
      ensures r.NotFound? ==> Now() == old(Now())
      ensures r.Success? ==> rows == old(rows) - {id}
      ensures r.ServerError? ==> rows == old(rows)
      ensures !r.NotFound? && vm !in ips ==> gw.chains == old(gw.chains)
      // Each protocol of the row whose session works has its two rules removed.
      ensures !r.NotFound? && vm in ips ==>
                var row, src := old(rows)[id], Normalize(old(rows)[id].source);
                forall p | p in row.protocol.Expand()
                           && DeleteWorks(sessions(p), RulePair(src, p, row.externalPort, ips[vm], row.internalPort)) ::
                  && Dnat(src, p, row.externalPort, ips[vm], row.internalPort) !in gw.chains.prerouting
                  && Accept(src, p, ips[vm], row.internalPort) !in gw.chains.forward
      ensures !r.NotFound? ==>
                var row, op := old(rows)[id], DeletePort(id, saved);
                && r.Success? == saved && rows == Apply(old(Now()), ips, op).rows
                && (vm !in ips ==> Now() == Apply(old(Now()), ips, op))
                && (vm in ips ==>
                      && OnlyPurges(old(gw.chains), gw.chains, RowRules(row, ips[vm]))
                      && ((forall p | p in row.protocol.Expand() ::
                             DeleteWorks(sessions(p), RulePair(Normalize(row.source), p, row.externalPort, ips[vm],
                                                               row.internalPort))) ==>
                          Now() == Apply(old(Now()), ips, op)))
    {
      if id !in rows || rows[id].vm != vm { return NotFound; }
      if vm in ips {
        var _ := DeleteRowRules(gw, rows[id], ips[vm], sessions);
        assert forall p | PairGone(gw.chains, Normalize(rows[id].source), p, rows[id].externalPort, ips[vm],
                                   rows[id].internalPort) ::
                 Dnat(Normalize(rows[id].source), p, rows[id].externalPort, ips[vm], rows[id].internalPort)
                 !in gw.chains.prerouting;
      }
      if !saved { return ServerError; }
      rows := rows - {id};
      return Success;
    }

    /** restore_default_ports: one ADD per missing default port and protocol; failures are
        logged and the rows are saved all the same. A failing commit leaves the added rules.
        `met` is the chains that each call meets. */
    method RestoreDefaultPorts(vm: int, base: int, vmid: int, sessions: (int, Protocol) -> Session, saved: bool)
      returns (r: Response, worked: set<(int, Protocol)>, ghost met: map<(int, Protocol), Chains>)
      requires Valid()
      modifies this, gw
      ensures Valid() && r in {Success, Conflict, ServerError}
      ensures HasDefaults(old(rows), vm) <==> HasDefault(old(rows), vm, 22) && HasDefault(old(rows), vm, 80)
                                              && HasDefault(old(rows), vm, 10000)
      ensures HasDefaults(old(rows), vm) ==> r.Success? && Now() == old(Now())
      ensures !HasDefaults(old(rows), vm) && CalculatePorts(base, vmid).None? ==> r.ServerError? && Now() == old(Now())
      ensures !HasDefaults(old(rows), vm) && CalculatePorts(base, vmid).Some? ==>
                var m := MissingDefaults(old(rows), vm, CalculatePorts(base, vmid).value);
                && (r.Conflict? <==> exists row :: row in m && Drawn(old(rows), row.externalPort))
                && (r.Conflict? ==> Now() == old(Now()))
                && (r.ServerError? <==> !r.Conflict? && !saved)
                && (!r.Conflict? ==> Restored(old(Now()), Now(), vm, CalculatePorts(base, vmid).value, old(nextId),
                                              sessions,
                                              worked, met, saved))
      // In terms of the ports: what comes back, and what is forwarded.
      ensures r.Success? && !HasDefaults(old(rows), vm) ==> DefaultsRestored(old(rows), rows, vm, base, vmid)
      ensures r.Success? && AllCompensate(sessions) && vm in ips ==>
                ForwardedFor(gw.chains, base, vmid, ips[vm], worked)
    {
      worked, met := {}, map[];
      HasDefaultsMeans(rows, vm);
      var ports := CalculatePorts(base, vmid);
      if HasDefaults(rows, vm) { return Success, worked, met; }
      if ports.None? { return ServerError, worked, met; }
      var m := MissingDefaults(rows, vm, ports.value);
      if exists row | row in m :: Drawn(rows, row.externalPort) { return Conflict, worked, met; }
      worked, met := RestoreMissing(vm, base, vmid, sessions, saved);
      r := if saved then Success else ServerError;
    }

    /** What a restoration that gets to the gateway does, from one state to the other. */
    ghost predicate Restored(before: State, after: State, vm: int, ports: ServicePorts, first: int,
                             sessions: (int, Protocol) -> Session, worked: set<(int, Protocol)>,
                             met: map<(int, Protocol), Chains>, saved: bool)
    {
      var m := MissingDefaults(before.rows, vm, ports);
      var op := Restore(vm, ports, first, worked, saved);
      && Enabled(before, ips, op) && after.rows == Apply(before, ips, op).rows
      && OnlyAdds(before.chains, after.chains, if vm in ips then RulesOfRows(m, ips[vm]) else [])
      && (vm in ips ==> CallsAnswered(m, ips[vm], sessions, worked, met))
      && (AllCompensate(sessions) ==>
            && after == Apply(before, ips, op)
            && (vm in ips ==> MetInOrder(before.chains, m, |m|, ips[vm], worked, met)))
      && (AllNeverFail(sessions) ==> RestoreWorks(before, ips, op))
    }

    /** The part of restore_default_ports after its checks. */
    method RestoreMissing(vm: int, base: int, vmid: int, sessions: (int, Protocol) -> Session, saved: bool)
      returns (worked: set<(int, Protocol)>, ghost met: map<(int, Protocol), Chains>)
      requires Valid() && CalculatePorts(base, vmid).Some?
      requires forall row | row in MissingDefaults(rows, vm, CalculatePorts(base, vmid).value) ::
                 !Drawn(rows, row.externalPort)
      modifies this, gw
      ensures Valid()
      ensures Restored(old(Now()), Now(), vm, CalculatePorts(base, vmid).value, old(nextId), sessions, worked, met,
                saved)
      ensures saved ==> DefaultsRestored(old(rows), rows, vm, base, vmid)
      ensures AllCompensate(sessions) && vm in ips ==> ForwardedFor(gw.chains, base, vmid, ips[vm], worked)
    {
      var m := MissingDefaults(rows, vm, CalculatePorts(base, vmid).value);
      RestorePossible(Now(), ips, vm, base, vmid, nextId);
      worked, met := InstallRestored(vm, m, sessions);
      if vm in ips && AllNeverFail(sessions) { AllCallsWork(m, ips[vm], sessions, worked, met); }
      if vm in ips && AllCompensate(sessions) {
        AllForwarded(old(gw.chains), m, vm, base, vmid, ips[vm], worked);
      }
      if saved { SaveRestored(m, vm, base, vmid); }
    }

    /** The gateway part of a restoration: nothing for a VM without an address. */
    method InstallRestored(vm: int, m: seq<PortRow>, sessions: (int, Protocol) -> Session)
      returns (worked: set<(int, Protocol)>, ghost met: map<(int, Protocol), Chains>)
      requires PortsDistinct(m)
      modifies gw
      ensures OnlyAdds(old(gw.chains), gw.chains, if vm in ips then RulesOfRows(m, ips[vm]) else [])
      ensures vm !in ips ==> gw.chains == old(gw.chains) && worked == {}
      ensures vm in ips ==> CallsAnswered(m, ips[vm], sessions, worked, met)
      ensures CallsOf(m, worked)
      ensures vm in ips && AllCompensate(sessions) ==>
                gw.chains == AddRows(old(gw.chains), m, ips[vm], worked)
                && MetInOrder(old(gw.chains), m, |m|, ips[vm], worked, met)
    {
      worked, met := {}, map[];
      NothingAdded(gw.chains, []);
      if vm in ips { worked, met := AddRestored(m, ips[vm], sessions); }
    }

    /** The commit of a restoration. */
    method SaveRestored(m: seq<PortRow>, vm: int, base: int, vmid: int)
      requires Valid() && PortsDistinct(m) && NoneTaken(rows, m)
      requires CalculatePorts(base, vmid).Some? && m == MissingDefaults(rows, vm, CalculatePorts(base, vmid).value)
      modifies `rows, `nextId
      ensures Valid() && rows == InsertAll(old(rows), old(nextId), m)
      ensures DefaultsRestored(old(rows), rows, vm, base, vmid)
    {
      ghost var before, first := rows, nextId;
      InsertAllExtends(rows, nextId, m);
      ExtendedUniquePorts(rows, InsertAll(rows, nextId, m), nextId, m);
      rows := InsertAll(rows, nextId, m);
      nextId := nextId + |m|;
      RestoredAre(before, rows, first, vm, base, vmid);
    }

    /** The gateway calls of a restoration, row by row. */
    method AddRestored(m: seq<PortRow>, ip: Ip, sessions: (int, Protocol) -> Session)
      returns (worked: set<(int, Protocol)>, ghost met: map<(int, Protocol), Chains>)
      requires PortsDistinct(m)
      modifies gw
      ensures CallsAnswered(m, ip, sessions, worked, met) && CallsOf(m, worked)
      ensures AllCompensate(sessions) ==>
                && gw.chains == AddRows(old(gw.chains), m, ip, worked)
                && MetInOrder(old(gw.chains), m, |m|, ip, worked, met)
      ensures OnlyAdds(old(gw.chains), gw.chains, RulesOfRows(m, ip))
    {
      worked, met := {}, map[];
      NothingAdded(gw.chains, []);
      for i := 0 to |m|
        invariant RowsDone(old(gw.chains), gw.chains, m, i, ip, sessions, worked, met)
      {
        var row := m[i];
        ghost var before := gw.chains;
        var w;
        ghost var met';
        w, met' := AddProtocolRules(row, ip, p => sessions(row.internalPort, p));
        RowsDoneNext(old(gw.chains), before, gw.chains, m, i, ip, sessions, worked, met, w, met');
        worked, met := worked + w, met + met';
      }
      assert m[..|m|] == m;
    }

    /** One ADD per protocol of the row. */
    method AddProtocolRules(row: PortRow, ip: Ip, sessions: Protocol -> Session)
      returns (w: set<(int, Protocol)>, ghost met: map<(int, Protocol), Chains>)
      modifies gw
      ensures forall k | k in w || k in met :: k.0 == row.internalPort && k.1 in row.protocol.Expand()
      ensures RowAnswered(row, row.protocol.Expand(), ip, sessions, w, met)
      ensures (forall p :: AlwaysCompensates(sessions(p))) ==>
                && gw.chains == AddProtocols(old(gw.chains), row, row.protocol.Expand(), ip, w)
                && RowInOrder(old(gw.chains), row, |row.protocol.Expand()|, ip, w, met)
      ensures OnlyAdds(old(gw.chains), gw.chains, RowRules(row, ip))
    {
      var protocols := row.protocol.Expand();
      w, met := {}, map[];
      NothingAdded(gw.chains, []);
      for j := 0 to |protocols|
        invariant RowDone(old(gw.chains), gw.chains, row, j, ip, sessions, w, met)
      {
        var p := protocols[j];
        ghost var before, was := gw.chains, w;
        var ok := TryAdd(RulePair(Normalize(row.source), p, row.externalPort, ip, row.internalPort), sessions(p));
        if ok { w := w + {(row.internalPort, p)}; }
        RowDoneNext(old(gw.chains), before, gw.chains, row, j, ip, sessions, was, w, met);
        met := met[(row.internalPort, p) := before];
      }
      assert protocols[..|protocols|] == protocols;
    }
  }

  // ---------------------------------------------------------------------------
  // The calls of a restoration
  // ---------------------------------------------------------------------------

  /** Those calls worked whose session could add the rules to the chains it met. */
  predicate RowAnswered(row: PortRow, protocols: seq<Protocol>, ip: Ip, sessions: Protocol -> Session,
                        worked: set<(int, Protocol)>, met: map<(int, Protocol), Chains>)
  {
    forall p | p in protocols ::
      && (row.internalPort, p) in met
      && ((row.internalPort, p) in worked <==>
          AddWorks(sessions(p), met[(row.internalPort, p)],
                   RulePair(Normalize(row.source), p, row.externalPort, ip, row.internalPort)))
  }

  ghost predicate CallsAnswered(m: seq<PortRow>, ip: Ip, sessions: (int, Protocol) -> Session,
                                worked: set<(int, Protocol)>, met: map<(int, Protocol), Chains>)
  {
    forall row | row in m ::
      RowAnswered(row, row.protocol.Expand(), ip, p => sessions(row.internalPort, p), worked, met)
  }

  lemma OnlyAddsHas(before: Chains, after: Chains, rules: seq<Rule>)
    requires OnlyAdds(before, after, rules)
    ensures forall r :: before.Has(r) ==> after.Has(r)
    ensures forall r :: after.Has(r) ==> before.Has(r) || r in rules
  {
    var w :| after == before.AddAll(w) && forall r | r in w :: r in rules && !before.Has(r);
    forall r ensures after.Has(r) <==> before.Has(r) || r in w { HasAfterAddAll(before, w, r); }
  }

  lemma BothThere(c: Chains, rules: seq<Rule>)
    requires |rules| == 2 && rules[0].Dnat? && rules[1].Accept? && forall r | r in rules :: c.Has(r)
    ensures rules[0] in c.prerouting && rules[1] in c.forward
  {
    assert c.Has(rules[0]) && c.Has(rules[1]);
  }

  lemma AllCallsWork(m: seq<PortRow>, ip: Ip, sessions: (int, Protocol) -> Session,
                     worked: set<(int, Protocol)>, met: map<(int, Protocol), Chains>)
    requires CallsAnswered(m, ip, sessions, worked, met) && AllNeverFail(sessions)
    ensures forall row, p | row in m && p in row.protocol.Expand() :: (row.internalPort, p) in worked
  {
    forall row, p | row in m && p in row.protocol.Expand() ensures (row.internalPort, p) in worked {
      assert RowAnswered(row, row.protocol.Expand(), ip, p => sessions(row.internalPort, p), worked, met);
      assert NeverFails(sessions(row.internalPort, p));
    }
  }

  /** Each call of a row meets what the calls before it that worked have left. */
  ghost predicate RowInOrder(c: Chains, row: PortRow, n: nat, ip: Ip, worked: set<(int, Protocol)>,
                             met: map<(int, Protocol), Chains>)
    requires n <= |row.protocol.Expand()|
  {
    forall j | 0 <= j < n ::
      && (row.internalPort, row.protocol.Expand()[j]) in met
      && met[(row.internalPort, row.protocol.Expand()[j])]
         == AddProtocols(c, row, row.protocol.Expand()[..j], ip, worked)
  }

  /** So does each call of the k-th row of a restoration. */
  ghost predicate RowMet(c: Chains, m: seq<PortRow>, k: nat, ip: Ip, worked: set<(int, Protocol)>,
                         met: map<(int, Protocol), Chains>)
    requires k < |m|
  {
    RowInOrder(AddRows(c, m[..k], ip, worked), m[k], |m[k].protocol.Expand()|, ip, worked, met)
  }

  /** And of the first n rows. */
  ghost predicate MetInOrder(c: Chains, m: seq<PortRow>, n: nat, ip: Ip, worked: set<(int, Protocol)>,
                             met: map<(int, Protocol), Chains>)
    requires n <= |m|
  {
    forall k | 0 <= k < n :: RowMet(c, m, k, ip, worked, met)
  }

  lemma NextProtocolAnswered(row: PortRow, j: nat, ip: Ip, sessions: Protocol -> Session, was: set<(int, Protocol)>,
                             w: set<(int, Protocol)>, met: map<(int, Protocol), Chains>, before: Chains)
    requires j < |row.protocol.Expand()| && RowAnswered(row, row.protocol.Expand()[..j], ip, sessions, was, met)
    requires forall i | 0 <= i < j :: row.protocol.Expand()[i] != row.protocol.Expand()[j]
    requires (row.internalPort, row.protocol.Expand()[j]) !in was
    requires var p := row.protocol.Expand()[j];
             var pair := RulePair(Normalize(row.source), p, row.externalPort, ip, row.internalPort);
             w == if AddWorks(sessions(p), before, pair) then was + {(row.internalPort, p)} else was
    ensures var e := row.protocol.Expand();
            RowAnswered(row, e[..j + 1], ip, sessions, w, met[(row.internalPort, e[j]) := before])
  {
    var e := row.protocol.Expand();
    assert e[..j + 1] == e[..j] + [e[j]];
  }

  lemma NextProtocolInOrder(c: Chains, row: PortRow, j: nat, ip: Ip, was: set<(int, Protocol)>,
                            w: set<(int, Protocol)>, met: map<(int, Protocol), Chains>)
    requires j < |row.protocol.Expand()| && RowInOrder(c, row, j, ip, was, met)
    requires var p := row.protocol.Expand()[j]; w == was || w == was + {(row.internalPort, p)}
    ensures var e := row.protocol.Expand();
            RowInOrder(c, row, j + 1, ip, w, met[(row.internalPort, e[j]) := AddProtocols(c, row, e[..j], ip, was)])
    ensures var e := row.protocol.Expand();
            var before := AddProtocols(c, row, e[..j], ip, was);
            AddProtocols(c, row, e[..j + 1], ip, w) ==
            if (row.internalPort, e[j]) in w
            then AddMissing(before, RulePair(Normalize(row.source), e[j], row.externalPort, ip, row.internalPort))
            else before
  {
    var e := row.protocol.Expand();
    assert e[..j + 1][..j] == e[..j];
    forall k | 0 <= k <= j ensures AddProtocols(c, row, e[..k], ip, was) == AddProtocols(c, row, e[..k], ip, w) {
      AddProtocolsSame(c, row, e[..k], ip, was, w);
    }
  }

  /** The first j calls of a row are done: from c to now. */
  ghost predicate RowDone(c: Chains, now: Chains, row: PortRow, j: nat, ip: Ip, sessions: Protocol -> Session,
                          w: set<(int, Protocol)>, met: map<(int, Protocol), Chains>)
    requires j <= |row.protocol.Expand()|
  {
    var e := row.protocol.Expand()[..j];
    && (forall k | k in w || k in met :: k.0 == row.internalPort && k.1 in e)
    && RowAnswered(row, e, ip, sessions, w, met)
    && ((forall p :: AlwaysCompensates(sessions(p))) ==>
          now == AddProtocols(c, row, e, ip, w) && RowInOrder(c, row, j, ip, w, met))
    && OnlyAdds(c, now, PairsFor(e, Normalize(row.source), row.externalPort, ip, row.internalPort))
  }

  lemma NextPairAdded(c: Chains, before: Chains, now: Chains, e: seq<Protocol>, j: nat, source: Source,
                      externalPort: int, ip: Ip, internalPort: int)
    requires j < |e| && OnlyAdds(c, before, PairsFor(e[..j], source, externalPort, ip, internalPort))
    requires OnlyAdds(before, now, RulePair(source, e[j], externalPort, ip, internalPort))
    ensures OnlyAdds(c, now, PairsFor(e[..j + 1], source, externalPort, ip, internalPort))
  {
    assert e[..j + 1] == e[..j] + [e[j]];
    OnlyAddsTwice(c, before, now, PairsFor(e[..j], source, externalPort, ip, internalPort),
                  RulePair(source, e[j], externalPort, ip, internalPort));
    PairsForAppend(e[..j], e[j], source, externalPort, ip, internalPort);
  }

  lemma RowDoneNext(c: Chains, before: Chains, now: Chains, row: PortRow, j: nat, ip: Ip, sessions: Protocol -> Session,
                    was: set<(int, Protocol)>, w: set<(int, Protocol)>, met: map<(int, Protocol), Chains>)
    requires j < |row.protocol.Expand()| && RowDone(c, before, row, j, ip, sessions, was, met)
    requires var p := row.protocol.Expand()[j];
             var pair := RulePair(Normalize(row.source), p, row.externalPort, ip, row.internalPort);
             var ok := AddWorks(sessions(p), before, pair);
             && w == (if ok then was + {(row.internalPort, p)} else was) && OnlyAdds(before, now, pair)
             && (ok ==> now == AddMissing(before, pair))
             && (!ok && AlwaysCompensates(sessions(p)) ==> now == before)
    ensures RowDone(c, now, row, j + 1, ip, sessions, w, met[(row.internalPort, row.protocol.Expand()[j]) := before])
  {
    var e, source := row.protocol.Expand(), Normalize(row.source);
    var pair := RulePair(source, e[j], row.externalPort, ip, row.internalPort);
    assert e[..j + 1] == e[..j] + [e[j]] && e[j] !in e[..j];
    NextPairAdded(c, before, now, e, j, source, row.externalPort, ip, row.internalPort);
    NextProtocolAnswered(row, j, ip, sessions, was, w, met, before);
    if forall p :: AlwaysCompensates(sessions(p)) { NextProtocolInOrder(c, row, j, ip, was, w, met); }
  }

  lemma NextRowAnswered(m: seq<PortRow>, i: nat, ip: Ip, sessions: (int, Protocol) -> Session,
                        worked: set<(int, Protocol)>, met: map<(int, Protocol), Chains>,
                        w: set<(int, Protocol)>, met': map<(int, Protocol), Chains>)
    requires i < |m| && PortsDistinct(m) && CallsAnswered(m[..i], ip, sessions, worked, met)
    requires forall k | k in worked || k in met :: exists x :: x in m[..i] && x.internalPort == k.0
    requires forall k | k in w || k in met' :: k.0 == m[i].internalPort
    requires RowAnswered(m[i], m[i].protocol.Expand(), ip, p => sessions(m[i].internalPort, p), w, met')
    ensures CallsAnswered(m[..i + 1], ip, sessions, worked + w, met + met')
  {
    CallsApart(m, i, worked, w);
    assert m[..i + 1] == m[..i] + [m[i]];
    forall row | row in m[..i + 1]
      ensures RowAnswered(row, row.protocol.Expand(), ip, p => sessions(row.internalPort, p), worked + w, met + met')
    {
      if row in m[..i] {
        assert RowAnswered(row, row.protocol.Expand(), ip, p => sessions(row.internalPort, p), worked, met);
        AnsweredSame(row, ip, p => sessions(row.internalPort, p), worked, met, worked + w, met + met');
      } else {
        AnsweredSame(row, ip, p => sessions(row.internalPort, p), w, met', worked + w, met + met');
      }
    }
  }

  /** Only the row's own calls matter for their answers. */
  lemma AnsweredSame(row: PortRow, ip: Ip, sessions: Protocol -> Session, v: set<(int, Protocol)>,
                     met: map<(int, Protocol), Chains>, w: set<(int, Protocol)>, met': map<(int, Protocol), Chains>)
    requires RowAnswered(row, row.protocol.Expand(), ip, sessions, v, met)
    requires forall p :: (row.internalPort, p) in v <==> (row.internalPort, p) in w
    requires forall p | (row.internalPort, p) in met ::
               (row.internalPort, p) in met' && met'[(row.internalPort, p)] == met[(row.internalPort, p)]
    ensures RowAnswered(row, row.protocol.Expand(), ip, sessions, w, met')
  {
  }

  /** No call of the earlier rows is one of this row's. */
  predicate ApartFrom(m: seq<PortRow>, i: nat, worked: set<(int, Protocol)>, w: set<(int, Protocol)>)
    requires i < |m|
  {
    && (forall k | k in worked :: k.0 != m[i].internalPort)
    && (forall k | k in w :: k.0 == m[i].internalPort)
    && (forall row | row in m[..i] :: row.internalPort != m[i].internalPort)
  }

  lemma CallsApart(m: seq<PortRow>, i: nat, worked: set<(int, Protocol)>, w: set<(int, Protocol)>)
    requires i < |m| && PortsDistinct(m)
    requires forall k | k in worked :: exists x :: x in m[..i] && x.internalPort == k.0
    requires forall k | k in w :: k.0 == m[i].internalPort
    ensures ApartFrom(m, i, worked, w)
  {
  }

  lemma NextRowChains(c: Chains, m: seq<PortRow>, i: nat, ip: Ip, worked: set<(int, Protocol)>, w: set<(int, Protocol)>)
    requires i < |m| && ApartFrom(m, i, worked, w)
    ensures AddRows(c, m[..i + 1], ip, worked + w)
            == AddProtocols(AddRows(c, m[..i], ip, worked), m[i], m[i].protocol.Expand(), ip, w)
  {
    assert m[..i + 1][..i] == m[..i];
    AddRowsSame(c, m[..i], ip, worked, worked + w);
    AddProtocolsSame(AddRows(c, m[..i], ip, worked), m[i], m[i].protocol.Expand(), ip, w, worked + w);
  }

  /** Only the row's own calls matter for the order of its calls. */
  lemma RowInOrderSame(c: Chains, row: PortRow, ip: Ip, v: set<(int, Protocol)>, met: map<(int, Protocol), Chains>,
                       w: set<(int, Protocol)>, met': map<(int, Protocol), Chains>)
    requires RowInOrder(c, row, |row.protocol.Expand()|, ip, v, met)
    requires forall p :: (row.internalPort, p) in v <==> (row.internalPort, p) in w
    requires forall p | (row.internalPort, p) in met ::
               (row.internalPort, p) in met' && met'[(row.internalPort, p)] == met[(row.internalPort, p)]
    ensures RowInOrder(c, row, |row.protocol.Expand()|, ip, w, met')
  {
    var e := row.protocol.Expand();
    forall j | 0 <= j < |e| ensures AddProtocols(c, row, e[..j], ip, v) == AddProtocols(c, row, e[..j], ip, w) {
      AddProtocolsSame(c, row, e[..j], ip, v, w);
    }
  }

  /** The calls of an earlier row stay in order. */
  lemma EarlierRowMet(c: Chains, m: seq<PortRow>, i: nat, k: nat, ip: Ip, worked: set<(int, Protocol)>,
                      met: map<(int, Protocol), Chains>, w: set<(int, Protocol)>, met': map<(int, Protocol), Chains>)
    requires k < i < |m| && ApartFrom(m, i, worked, w) && forall k | k in met' :: k.0 == m[i].internalPort
    requires RowMet(c, m, k, ip, worked, met)
    ensures RowMet(c, m, k, ip, worked + w, met + met')
  {
    assert m[k] == m[..i][k];
    assert forall row | row in m[..k] :: row in m[..i];
    AddRowsSame(c, m[..k], ip, worked, worked + w);
    RowInOrderSame(AddRows(c, m[..k], ip, worked), m[k], ip, worked, met, worked + w, met + met');
  }

  lemma NextRowInOrder(c: Chains, m: seq<PortRow>, i: nat, ip: Ip, worked: set<(int, Protocol)>,
                       met: map<(int, Protocol), Chains>, w: set<(int, Protocol)>, met': map<(int, Protocol), Chains>)
    requires i < |m| && ApartFrom(m, i, worked, w) && MetInOrder(c, m, i, ip, worked, met)
    requires forall k | k in met' :: k.0 == m[i].internalPort
    requires RowInOrder(AddRows(c, m[..i], ip, worked), m[i], |m[i].protocol.Expand()|, ip, w, met')
    ensures MetInOrder(c, m, i + 1, ip, worked + w, met + met')
  {
    AddRowsSame(c, m[..i], ip, worked, worked + w);
    RowInOrderSame(AddRows(c, m[..i], ip, worked), m[i], ip, w, met', worked + w, met + met');
    forall k | 0 <= k < i ensures RowMet(c, m, k, ip, worked + w, met + met') {
      EarlierRowMet(c, m, i, k, ip, worked, met, w, met');
    }
  }

  /** The calls of the first i rows are done: from c to now. */
  ghost predicate RowsDone(c: Chains, now: Chains, m: seq<PortRow>, i: nat, ip: Ip,
                           sessions: (int, Protocol) -> Session, worked: set<(int, Protocol)>,
                           met: map<(int, Protocol), Chains>)
    requires i <= |m|
  {
    && (forall k | k in worked || k in met :: exists x :: x in m[..i] && x.internalPort == k.0)
    && CallsAnswered(m[..i], ip, sessions, worked, met) && CallsOf(m[..i], worked)
    && (AllCompensate(sessions) ==>
          now == AddRows(c, m[..i], ip, worked) && MetInOrder(c, m, i, ip, worked, met))
    && OnlyAdds(c, now, RulesOfRows(m[..i], ip))
  }

  lemma RowsDoneNext(c: Chains, before: Chains, now: Chains, m: seq<PortRow>, i: nat, ip: Ip,
                     sessions: (int, Protocol) -> Session, worked: set<(int, Protocol)>,
                     met: map<(int, Protocol), Chains>, w: set<(int, Protocol)>, met': map<(int, Protocol), Chains>)
    requires i < |m| && PortsDistinct(m) && RowsDone(c, before, m, i, ip, sessions, worked, met)
    requires forall k | k in w || k in met' :: k.0 == m[i].internalPort && k.1 in m[i].protocol.Expand()
    requires RowAnswered(m[i], m[i].protocol.Expand(), ip, p => sessions(m[i].internalPort, p), w, met')
    requires AllCompensate(sessions) ==>
               && now == AddProtocols(before, m[i], m[i].protocol.Expand(), ip, w)
               && RowInOrder(before, m[i], |m[i].protocol.Expand()|, ip, w, met')
    requires OnlyAdds(before, now, RowRules(m[i], ip))
    ensures RowsDone(c, now, m, i + 1, ip, sessions, worked + w, met + met')
  {
    NextRowAdded(c, before, now, m, i, ip);
    NextRowAnswered(m, i, ip, sessions, worked, met, w, met');
    CallsOfNext(m, i, worked, w);
    if AllCompensate(sessions) { RowsOrderedNext(c, before, now, m, i, ip, worked, met, w, met'); }
  }

  lemma RowsOrderedNext(c: Chains, before: Chains, now: Chains, m: seq<PortRow>, i: nat, ip: Ip,
                        worked: set<(int, Protocol)>, met: map<(int, Protocol), Chains>,
                        w: set<(int, Protocol)>, met': map<(int, Protocol), Chains>)
    requires i < |m| && PortsDistinct(m)
    requires forall k | k in worked :: exists x :: x in m[..i] && x.internalPort == k.0
    requires forall k | k in w || k in met' :: k.0 == m[i].internalPort
    requires before == AddRows(c, m[..i], ip, worked) && MetInOrder(c, m, i, ip, worked, met)
    requires now == AddProtocols(before, m[i], m[i].protocol.Expand(), ip, w)
    requires RowInOrder(before, m[i], |m[i].protocol.Expand()|, ip, w, met')
    ensures now == AddRows(c, m[..i + 1], ip, worked + w) && MetInOrder(c, m, i + 1, ip, worked + w, met + met')
  {
    CallsApart(m, i, worked, w);
    NextRowInOrder(c, m, i, ip, worked, met, w, met');
    NextRowChains(c, m, i, ip, worked, w);
  }

  lemma NextRowAdded(c: Chains, before: Chains, now: Chains, m: seq<PortRow>, i: nat, ip: Ip)
    requires i < |m| && OnlyAdds(c, before, RulesOfRows(m[..i], ip)) && OnlyAdds(before, now, RowRules(m[i], ip))
    ensures OnlyAdds(c, now, RulesOfRows(m[..i + 1], ip))
  {
    assert m[..i + 1] == m[..i] + [m[i]];
    OnlyAddsTwice(c, before, now, RulesOfRows(m[..i], ip), RowRules(m[i], ip));
    RulesOfRowsAppend(m[..i], m[i], ip);
  }

  /** The calls are those of the rows and their protocols. */
  predicate CallsOf(m: seq<PortRow>, worked: set<(int, Protocol)>) {
    forall k | k in worked :: exists row :: row in m && row.internalPort == k.0 && k.1 in row.protocol.Expand()
  }

  lemma CallsOfNext(m: seq<PortRow>, i: nat, worked: set<(int, Protocol)>, w: set<(int, Protocol)>)
    requires i < |m| && CallsOf(m[..i], worked)
    requires forall k | k in w :: k.0 == m[i].internalPort && k.1 in m[i].protocol.Expand()
    ensures CallsOf(m[..i + 1], worked + w)
  {
    assert m[..i + 1] == m[..i] + [m[i]];
    forall k | k in worked + w
      ensures exists row :: row in m[..i + 1] && row.internalPort == k.0 && k.1 in row.protocol.Expand()
    {
      if k in w {
        assert m[i] in m[..i + 1];
      } else {
        var row :| row in m[..i] && row.internalPort == k.0 && k.1 in row.protocol.Expand();
        assert row in m[..i + 1];
      }
    }
  }

  // ---------------------------------------------------------------------------
  // A restoration in terms of the ports
  // ---------------------------------------------------------------------------

  /** The external port of a default port lies this far above base + vmid. */
  function Offset(internalPort: int): (d: int)
    ensures (internalPort == 22 ==> d == 0) && (internalPort == 80 ==> d == 1000)
              && (internalPort == 10000 ==> d == 2000)
  {
    if internalPort == 22 then 0 else if internalPort == 80 then 1000 else 2000
  }

  predicate HasDefault(rows: PortTable, vm: int, internalPort: int) {
    exists i | i in rows :: rows[i].vm == vm && rows[i].isDefault && rows[i].internalPort == internalPort
  }

  /** Earlier rows stay; each default port is there again; and what is new is the row of a default
      port that was not there. */
  ghost predicate DefaultsRestored(before: PortTable, after: PortTable, vm: int, base: int, vmid: int) {
    && (forall i | i in before :: i in after && after[i] == before[i])
    && HasDefault(after, vm, 22) && HasDefault(after, vm, 80) && HasDefault(after, vm, 10000)
    && forall i | i in after && i !in before ::
         var k := after[i].internalPort;
         && k in {22, 80, 10000} && !HasDefault(before, vm, k)
         && after[i] == PortRow(vm, k, base + vmid + Offset(k), if k == 10000 then TcpAndUdp else TcpOnly,
                                Some("0.0.0.0/0"), true)
  }

  lemma HasDefaultsMeans(rows: PortTable, vm: int)
    ensures HasDefaults(rows, vm) <==>
              HasDefault(rows, vm, 22) && HasDefault(rows, vm, 80) && HasDefault(rows, vm, 10000)
    ensures forall k :: k in DefaultsOf(rows, vm) <==> HasDefault(rows, vm, k)
  {
  }

  /** The rows a restoration adds, by their fields. */
  lemma MissingAre(rows: PortTable, vm: int, base: int, vmid: int, row: PortRow)
    requires CalculatePorts(base, vmid).Some?
    ensures row in MissingDefaults(rows, vm, CalculatePorts(base, vmid).value) <==>
              var k := row.internalPort;
              && k in {22, 80, 10000} && !HasDefault(rows, vm, k)
              && row == PortRow(vm, k, base + vmid + Offset(k), if k == 10000 then TcpAndUdp else TcpOnly,
                                Some("0.0.0.0/0"), true)
  {
    var ports := CalculatePorts(base, vmid).value;
    var d := DefaultRows(vm, ports);
    assert d[0].internalPort == 22 && d[1].internalPort == 80 && d[2].internalPort == 10000;
    assert d[0].externalPort == ports.ssh && d[1].externalPort == ports.svc1 && d[2].externalPort == ports.svc2;
    PortFormula(base, vmid);
    LackingRows(d, DefaultsOf(rows, vm));
    HasDefaultsMeans(rows, vm);
    DefaultRowsAre(vm, base, vmid, row);
  }

  lemma RestoredAre(rows: PortTable, after: PortTable, first: int, vm: int, base: int, vmid: int)
    requires CalculatePorts(base, vmid).Some? && forall i | i in rows :: i < first
    requires after == InsertAll(rows, first, MissingDefaults(rows, vm, CalculatePorts(base, vmid).value))
    ensures DefaultsRestored(rows, after, vm, base, vmid)
  {
    var m := MissingDefaults(rows, vm, CalculatePorts(base, vmid).value);
    InsertAllExtends(rows, first, m);
    forall i | i in after && i !in rows ensures after[i] in m {
      assert after[first + (i - first)] == m[i - first];
    }
    forall i | i in after && i !in rows { MissingAre(rows, vm, base, vmid, after[i]); }
    forall k | k in {22, 80, 10000} ensures HasDefault(after, vm, k) {
      if HasDefault(rows, vm, k) {
        var i :| i in rows && rows[i].vm == vm && rows[i].isDefault && rows[i].internalPort == k;
        assert i in after && after[i] == rows[i];
      } else {
        var row := PortRow(vm, k, base + vmid + Offset(k), if k == 10000 then TcpAndUdp
                           else TcpOnly, Some("0.0.0.0/0"), true);
        MissingAre(rows, vm, base, vmid, row);
        var j :| 0 <= j < |m| && m[j] == row;
        assert first + j in after && after[first + j] == row;
      }
    }
  }

  /** The calls that worked have their rules on the gateway. */
  ghost predicate ForwardedFor(c: Chains, base: int, vmid: int, ip: Ip, worked: set<(int, Protocol)>) {
    forall k | k in worked :: k.0 in {22, 80, 10000} && Forwarded(c, k.1, base + vmid + Offset(k.0), ip, k.0)
  }

  lemma AllForwarded(c: Chains, m: seq<PortRow>, vm: int, base: int, vmid: int, ip: Ip, worked: set<(int, Protocol)>)
    requires CalculatePorts(base, vmid).Some? && CallsOf(m, worked)
    requires forall row | row in m :: row in DefaultRows(vm, CalculatePorts(base, vmid).value)
    ensures ForwardedFor(AddRows(c, m, ip, worked), base, vmid, ip, worked)
  {
    forall k | k in worked
      ensures k.0 in {22, 80, 10000} && Forwarded(AddRows(c, m, ip, worked), k.1, base + vmid + Offset(k.0), ip, k.0)
    {
      CallForwarded(c, m, vm, base, vmid, ip, worked, k);
    }
  }

  lemma CallForwarded(c: Chains, m: seq<PortRow>, vm: int, base: int, vmid: int, ip: Ip, worked: set<(int, Protocol)>,
                      key: (int, Protocol))
    requires CalculatePorts(base, vmid).Some? && CallsOf(m, worked) && key in worked
    requires forall row | row in m :: row in DefaultRows(vm, CalculatePorts(base, vmid).value)
    ensures key.0 in {22, 80, 10000}
    ensures Forwarded(AddRows(c, m, ip, worked), key.1, base + vmid + Offset(key.0), ip, key.0)
  {
    var row :| row in m && row.internalPort == key.0 && key.1 in row.protocol.Expand();
    AddRowsHas(c, m, ip, worked);
    RowForwarded(AddRows(c, m, ip, worked), c, m, row, key.1, ip, worked);
  }

  lemma RowForwarded(d: Chains, c: Chains, m: seq<PortRow>, row: PortRow, p: Protocol, ip: Ip,
                     worked: set<(int, Protocol)>)
    requires row in m && p in row.protocol.Expand() && (row.internalPort, p) in worked
    requires forall r :: d.Has(r) <==> c.Has(r) || exists x :: x in m && Installed(x, ip, worked, r)
    ensures DnatOf(row, ip, p) in d.prerouting && AcceptOf(row, ip, p) in d.forward
  {
    var pair := RulePair(Normalize(row.source), p, row.externalPort, ip, row.internalPort);
    assert pair[0] in pair && pair[1] in pair;
    assert Installed(row, ip, worked, pair[0]) && Installed(row, ip, worked, pair[1]);
    assert d.Has(pair[0]) && d.Has(pair[1]);
  }

  lemma RestorePossible(s: State, ips: Addresses, vm: int, base: int, vmid: int, first: int)
    requires CalculatePorts(base, vmid).Some? && forall i | i in s.rows :: i < first
    requires forall row | row in MissingDefaults(s.rows, vm, CalculatePorts(base, vmid).value) ::
              !Drawn(s.rows, row.externalPort)
    ensures var m := MissingDefaults(s.rows, vm, CalculatePorts(base, vmid).value);
            && PortsDistinct(m) && NoneTaken(s.rows, m)
            && (forall row | row in m :: row in DefaultRows(vm, CalculatePorts(base, vmid).value))
            && forall worked, saved ::
                 Enabled(s, ips, Restore(vm, CalculatePorts(base, vmid).value, first, worked, saved))
  {
    var m := MissingDefaults(s.rows, vm, CalculatePorts(base, vmid).value);
    MissingDefaultsRows(s.rows, vm, CalculatePorts(base, vmid).value);
    MissingDefaultsValid(s.rows, vm, base, vmid);
    forall row | row in m ensures row in DefaultRows(vm, CalculatePorts(base, vmid).value) {
      MissingAre(s.rows, vm, base, vmid, row);
      DefaultRowsAre(vm, base, vmid, row);
    }
    forall row, i | row in m && i in s.rows ensures s.rows[i].externalPort != row.externalPort {
      assert !Drawn(s.rows, row.externalPort);
    }
  }

  /** Only the answers for the row's own protocols matter. */
  lemma {:induction false} AddProtocolsSame(c: Chains, row: PortRow, protocols: seq<Protocol>, ip: Ip,
                                            v: set<(int, Protocol)>, w: set<(int, Protocol)>)
    requires forall p | p in protocols :: (row.internalPort, p) in v <==> (row.internalPort, p) in w
    ensures AddProtocols(c, row, protocols, ip, v) == AddProtocols(c, row, protocols, ip, w)
  {
    if protocols == [] {
    } else {
      AddProtocolsSame(c, row, protocols[..|protocols| - 1], ip, v, w);
    }
  }

  lemma {:induction false} AddRowsSame(c: Chains, m: seq<PortRow>, ip: Ip, v: set<(int, Protocol)>,
                                       w: set<(int, Protocol)>)
    requires forall row, p | row in m :: (row.internalPort, p) in v <==> (row.internalPort, p) in w
    ensures AddRows(c, m, ip, v) == AddRows(c, m, ip, w)
  {
    if m == [] {
    } else {
      var n, row := |m| - 1, m[|m| - 1];
      AddRowsSame(c, m[..n], ip, v, w);
      AddProtocolsSame(AddRows(c, m[..n], ip, v), row, row.protocol.Expand(), ip, v, w);
    }
  }

  function CustomPorts(rows: PortTable, vm: int): set<int> {
    set i | i in rows && rows[i].vm == vm && !rows[i].isDefault
  }

  /** The VM has a default row for each of the three default internal ports. */
  predicate HasDefaults(rows: PortTable, vm: int) {
    {22, 80, 10000} <= DefaultsOf(rows, vm)
  }

  predicate Drawn(rows: PortTable, port: int) {
    exists i | i in rows :: rows[i].externalPort == port
  }

  lemma DrawnMeans(rows: PortTable, port: int)
    ensures Drawn(rows, port) <==> port in set i | i in rows :: rows[i].externalPort
  {
  }
}
