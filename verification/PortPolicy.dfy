/** Which ports a VM gets and which gateway rules a port row stands for
    (backend/services/network_service.py, backend/models/vm_port.py). */
module PortPolicy {
  import opened Prelude
  import opened Iptables

  predicate ValidPort(p: int) { 1 <= p <= 65535 }

  datatype ServicePorts = ServicePorts(ssh: int, svc1: int, svc2: int) {
    function Set(): set<int> { {ssh, svc1, svc2} }
  }

  /** The port formula; None where the source raises ValueError. */
  function CalculatePorts(basePort: int, vmid: int): Option<ServicePorts> {
    var p := ServicePorts(basePort + vmid, basePort + 1000 + vmid, basePort + 2000 + vmid);
    if ValidPort(p.ssh) && ValidPort(p.svc1) && ValidPort(p.svc2) then Some(p) else None
  }

  /** The service at offset k gets base + k + vmid, if that is possible for all three. */
  lemma PortFormula(base: int, vmid: int)
    ensures CalculatePorts(base, vmid).Some? <==> 1 <= base + vmid && base + vmid + 2000 <= 65535
    ensures CalculatePorts(base, vmid).Some? ==>
              CalculatePorts(base, vmid).value == ServicePorts(base + vmid, base + vmid + 1000, base + vmid + 2000)
  {
  }

  /** When the ports of two (base, vmid) pairs collide. Bases a thousand apart, as the
      nodes have by default, do collide on equal VMIDs. */
  lemma PortSetsMeet(base: int, v: int, base': int, v': int)
    requires CalculatePorts(base, v).Some? && CalculatePorts(base', v').Some?
    ensures var d := (base + v) - (base' + v');
            CalculatePorts(base, v).value.Set() !! CalculatePorts(base', v').value.Set()
            <==> d !in {0, 1000, -1000, 2000, -2000}
  {
    var p, q := CalculatePorts(base, v).value, CalculatePorts(base', v').value;
    var d := (base + v) - (base' + v');
    assert p.ssh - q.ssh == p.svc1 - q.svc1 == p.svc2 - q.svc2 == d;
    if d == 0 { assert p.ssh in p.Set() * q.Set(); }
    if d == 1000 { assert p.ssh in p.Set() * q.Set(); }
    if d == -1000 { assert p.svc1 in p.Set() * q.Set(); }
    if d == 2000 { assert p.ssh in p.Set() * q.Set(); }
    if d == -2000 { assert p.svc2 in p.Set() * q.Set(); }
  }

  datatype ProtocolSpec = TcpOnly | UdpOnly | TcpAndUdp {
    function Expand(): (r: seq<Protocol>)
      ensures (Tcp in r <==> !this.UdpOnly?) && (Udp in r <==> !this.TcpOnly?)
      ensures |r| == (if this.TcpAndUdp? then 2 else 1) && r[0] == (if this.UdpOnly? then Udp else Tcp)
    {
      match this
      case TcpOnly => [Tcp]
      case UdpOnly => [Udp]
      case TcpAndUdp => [Tcp, Udp]
    }
  }

  /** Values that mean "from anywhere" leave no source argument in the rule. */
  function Normalize(source: Option<string>): (r: Source)
    ensures r == None <==> source in {None, Some(""), Some("0.0.0.0/0"), Some("0.0.0.0")}
    ensures r != None ==> r == source
  {
    if source == None || source.value in ["", "0.0.0.0/0", "0.0.0.0"] then None else source
  }

  /** One row of the vm_ports table. */
  datatype PortRow = PortRow(vm: int, internalPort: int, externalPort: int, protocol: ProtocolSpec,
                             source: Option<string>, isDefault: bool)

  /** The vm_ports table. */
  type PortTable = map<int, PortRow>

  /** external_port is a unique column, and all ports are possible. */
  predicate UniquePorts(rows: PortTable) {
    && (forall i, j | i in rows && j in rows && i != j :: rows[i].externalPort != rows[j].externalPort)
    && (forall i | i in rows :: ValidPort(rows[i].externalPort))
  }

  /** The DNAT and FORWARD rules of one forwarded port and protocol. */
  function RulePair(source: Source, p: Protocol, externalPort: int, ip: Ip, internalPort: int): seq<Rule> {
    [Dnat(source, p, externalPort, ip, internalPort), Accept(source, p, ip, internalPort)]
  }

  function PairsFor(protocols: seq<Protocol>, source: Source, externalPort: int, ip: Ip, internalPort: int): seq<Rule> {
    if protocols == [] then []
    else RulePair(source, protocols[0], externalPort, ip, internalPort)
         + PairsFor(protocols[1..], source, externalPort, ip, internalPort)
  }

  /** The gateway rules a row stands for, given its VM's address. */
  function RowRules(row: PortRow, ip: Ip): seq<Rule> {
    PairsFor(row.protocol.Expand(), Normalize(row.source), row.externalPort, ip, row.internalPort)
  }

  function RulesOfRows(rows: seq<PortRow>, ip: Ip): seq<Rule> {
    if rows == [] then [] else RowRules(rows[0], ip) + RulesOfRows(rows[1..], ip)
  }

  /** The rules manage_iptables installs for a new VM. */
  function DefaultRules(p: ServicePorts, ip: Ip): seq<Rule> {
    RulePair(None, Tcp, p.ssh, ip, 22) + RulePair(None, Tcp, p.svc1, ip, 80)
    + RulePair(None, Tcp, p.svc2, ip, 10000) + RulePair(None, Udp, p.svc2, ip, 10000)
  }

  /** The rows create_vm and restore_default_ports write for the default ports. */
  function DefaultRows(vm: int, p: ServicePorts): seq<PortRow> {
    var anywhere := Some("0.0.0.0/0");
    [PortRow(vm, 22, p.ssh, TcpOnly, anywhere, true),
     PortRow(vm, 80, p.svc1, TcpOnly, anywhere, true),
     PortRow(vm, 10000, p.svc2, TcpAndUdp, anywhere, true)]
  }

  /** What creation installs is, in order, what deletion derives from the rows it wrote. */
  lemma DefaultRowsCarryDefaultRules(vm: int, p: ServicePorts, ip: Ip)
    ensures RulesOfRows(DefaultRows(vm, p), ip) == DefaultRules(p, ip)
  {
    var rows := DefaultRows(vm, p);
    var a := Some("0.0.0.0/0");
    assert Normalize(a) == None by { assert a.value == ["", "0.0.0.0/0", "0.0.0.0"][1]; }
    PairsForOne(Tcp, p.ssh, ip, 22);
    PairsForOne(Tcp, p.svc1, ip, 80);
    PairsForOne(Udp, p.svc2, ip, 10000);
    assert RowRules(rows[0], ip) == RulePair(None, Tcp, p.ssh, ip, 22);
    assert RowRules(rows[1], ip) == RulePair(None, Tcp, p.svc1, ip, 80);
    assert RowRules(rows[2], ip) == RulePair(None, Tcp, p.svc2, ip, 10000) + RulePair(None, Udp, p.svc2, ip, 10000) by {
      assert [Tcp, Udp][1..] == [Udp];
    }
    assert RulesOfRows([rows[2]], ip) == RowRules(rows[2], ip) + [] by { assert [rows[2]][1..] == []; }
    assert RulesOfRows([rows[1], rows[2]], ip) == RowRules(rows[1], ip) + RulesOfRows([rows[2]], ip);
    assert rows[1..] == [rows[1], rows[2]];
  }

  /** What a default port is forwarded to, in which protocols, and from which external port. */
  lemma DefaultRulesAre(base: int, vmid: int, ip: Ip, r: Rule)
    requires CalculatePorts(base, vmid).Some?
    ensures r in DefaultRules(CalculatePorts(base, vmid).value, ip) <==>
              || r == Dnat(None, Tcp, base + vmid, ip, 22) || r == Accept(None, Tcp, ip, 22)
              || r == Dnat(None, Tcp, base + vmid + 1000, ip, 80) || r == Accept(None, Tcp, ip, 80)
              || r == Dnat(None, Tcp, base + vmid + 2000, ip, 10000) || r == Accept(None, Tcp, ip, 10000)
              || r == Dnat(None, Udp, base + vmid + 2000, ip, 10000) || r == Accept(None, Udp, ip, 10000)
  {
    PortFormula(base, vmid);
    var p := CalculatePorts(base, vmid).value;
    assert DefaultRules(p, ip) ==
      [Dnat(None, Tcp, p.ssh, ip, 22), Accept(None, Tcp, ip, 22),
       Dnat(None, Tcp, p.svc1, ip, 80), Accept(None, Tcp, ip, 80),
       Dnat(None, Tcp, p.svc2, ip, 10000), Accept(None, Tcp, ip, 10000),
       Dnat(None, Udp, p.svc2, ip, 10000), Accept(None, Udp, ip, 10000)];
  }

  /** The rows of the default ports, by their fields. */
  lemma DefaultRowsAre(vm: int, base: int, vmid: int, row: PortRow)
    requires CalculatePorts(base, vmid).Some?
    ensures row in DefaultRows(vm, CalculatePorts(base, vmid).value) <==>
              || row == PortRow(vm, 22, base + vmid, TcpOnly, Some("0.0.0.0/0"), true)
              || row == PortRow(vm, 80, base + vmid + 1000, TcpOnly, Some("0.0.0.0/0"), true)
              || row == PortRow(vm, 10000, base + vmid + 2000, TcpAndUdp, Some("0.0.0.0/0"), true)
  {
    PortFormula(base, vmid);
    var d := DefaultRows(vm, CalculatePorts(base, vmid).value);
    assert d[0] in d && d[1] in d && d[2] in d;
  }

  /** The rules of a row of one protocol. */
  lemma RowRulesAre(row: PortRow, ip: Ip)
    requires !row.protocol.TcpAndUdp?
    ensures var p := if row.protocol.TcpOnly? then Tcp else Udp;
            RowRules(row, ip) == [Dnat(Normalize(row.source), p, row.externalPort, ip, row.internalPort),
                                  Accept(Normalize(row.source), p, ip, row.internalPort)]
  {
    var e, p := row.protocol.Expand(), if row.protocol.TcpOnly? then Tcp else Udp;
    assert e == [p] && e[1..] == [];
    assert PairsFor(e[1..], Normalize(row.source), row.externalPort, ip, row.internalPort) == [];
  }

  lemma PairsForOne(p: Protocol, externalPort: int, ip: Ip, internalPort: int)
    ensures PairsFor([p], None, externalPort, ip, internalPort) == RulePair(None, p, externalPort, ip, internalPort)
  {
    assert [p][1..] == [];
  }

  /** No rule is installed twice. */
  lemma DefaultRulesDistinct(base: int, vmid: int, ip: Ip)
    requires CalculatePorts(base, vmid).Some?
    ensures var w := DefaultRules(CalculatePorts(base, vmid).value, ip);
            |w| == 8 && forall i, j | 0 <= i < j < |w| :: w[i] != w[j]
  {
    var p := CalculatePorts(base, vmid).value;
    assert DefaultRules(p, ip) ==
      [Dnat(None, Tcp, p.ssh, ip, 22), Accept(None, Tcp, ip, 22),
       Dnat(None, Tcp, p.svc1, ip, 80), Accept(None, Tcp, ip, 80),
       Dnat(None, Tcp, p.svc2, ip, 10000), Accept(None, Tcp, ip, 10000),
       Dnat(None, Udp, p.svc2, ip, 10000), Accept(None, Udp, ip, 10000)];
  }

  lemma {:induction false} PairsForMembers(protocols: seq<Protocol>, source: Source, externalPort: int, ip: Ip,
                                           internalPort: int)
    ensures forall r :: r in PairsFor(protocols, source, externalPort, ip, internalPort) <==>
              exists p :: p in protocols && r in RulePair(source, p, externalPort, ip, internalPort)
  {
    if protocols == [] {
    } else {
      PairsForMembers(protocols[1..], source, externalPort, ip, internalPort);
    }
  }

  lemma {:induction false} RulesOfRowsMembers(rows: seq<PortRow>, ip: Ip)
    ensures forall r :: r in RulesOfRows(rows, ip) <==> exists row :: row in rows && r in RowRules(row, ip)
  {
    if rows == [] {
    } else {
      RulesOfRowsMembers(rows[1..], ip);
    }
  }

  /** The rules of a row, one more protocol at a time. */
  lemma {:induction false} PairsForAppend(protocols: seq<Protocol>, p: Protocol, source: Source, externalPort: int,
                                          ip: Ip, internalPort: int)
    ensures PairsFor(protocols + [p], source, externalPort, ip, internalPort)
            == PairsFor(protocols, source, externalPort, ip, internalPort)
               + RulePair(source, p, externalPort, ip, internalPort)
  {
    if protocols == [] {
      assert [] + [p] == [p] && [p][1..] == [];
    } else {
      assert (protocols + [p])[1..] == protocols[1..] + [p];
      PairsForAppend(protocols[1..], p, source, externalPort, ip, internalPort);
    }
  }

  lemma {:induction false} RulesOfRowsAppend(rows: seq<PortRow>, row: PortRow, ip: Ip)
    ensures RulesOfRows(rows + [row], ip) == RulesOfRows(rows, ip) + RowRules(row, ip)
  {
    if rows == [] {
      assert [] + [row] == [row] && [row][1..] == [];
    } else {
      assert (rows + [row])[1..] == rows[1..] + [row];
      RulesOfRowsAppend(rows[1..], row, ip);
    }
  }
}
