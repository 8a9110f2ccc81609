/** VMID search and internal address allocation (backend/services/vm_service.py). */
module Allocation {
  import opened Prelude
  import opened Iptables
  import opened PortPolicy

  const MAX_VMID_PROBES := 50

  // ---------------------------------------------------------------------------
  // VMID search
  // ---------------------------------------------------------------------------

  datatype VmidChoice = Chosen(vmid: int) | NoneLeft | ImpossiblePort | LookupError

  /** What the search looks at: the VMIDs the database has on this node, every external
      port in the database, the VMIDs Proxmox has, and the node's base port. */
  datatype VmidView = VmidView(recorded: set<int>, portsInUse: set<int>, existing: set<int>, base: int)

  /** The default ports of v cannot be computed, and no record of v hides that. */
  predicate PortError(view: VmidView, v: int) {
    v !in view.recorded && CalculatePorts(view.base, v).None?
  }

  predicate ConflictsInDb(view: VmidView, v: int)
    requires !PortError(view, v)
  {
    v in view.recorded || CalculatePorts(view.base, v).value.Set() * view.portsInUse != {}
  }

  predicate Free(view: VmidView, v: int) {
    !PortError(view, v) && !ConflictsInDb(view, v) && v !in view.existing
  }

  /** Taken, in the database or in Proxmox, and no error in finding out: the search moves on.
      `lookupFails(v)` is an exception from Proxmox, which is asked only when the database has
      no objection to v. */
  predicate Passed(view: VmidView, lookupFails: int -> bool, v: int) {
    !PortError(view, v) && (ConflictsInDb(view, v) || (!lookupFails(v) && v in view.existing))
  }

  /** The search ends at v: every VMID before it is passed, v itself is not. */
  predicate EndsAt(view: VmidView, first: int, lookupFails: int -> bool, v: int) {
    && first <= v < first + MAX_VMID_PROBES && !Passed(view, lookupFails, v)
    && forall u | first <= u < v :: Passed(view, lookupFails, u)
  }

  /** The search finds a VMID. */
  ghost predicate VmidFound(view: VmidView, first: int, lookupFails: int -> bool) {
    exists v :: EndsAt(view, first, lookupFails, v) && Free(view, v) && !lookupFails(v)
  }

  /** The database has no objection to a VMID when its three ports are not in use. */
  lemma PortsMeet(view: VmidView, v: int)
    ensures !PortError(view, v) && v !in view.recorded ==>
              (ConflictsInDb(view, v) <==>
               !({view.base + v, view.base + v + 1000, view.base + v + 2000} !! view.portsInUse))
  {
    PortFormula(view.base, v);
    var mine := {view.base + v, view.base + v + 1000, view.base + v + 2000};
    DisjointMeans(mine, view.portsInUse);
    if CalculatePorts(view.base, v).Some? {
      assert CalculatePorts(view.base, v).value.Set() == mine;
    }
  }

  /** _select_vmid: probe from `first` upwards. */
  method SelectVmid(view: VmidView, first: int, lookupFails: int -> bool) returns (r: VmidChoice)
    ensures r.Chosen? ==> EndsAt(view, first, lookupFails, r.vmid) && Free(view, r.vmid) && !lookupFails(r.vmid)
    ensures r.Chosen? <==> VmidFound(view, first, lookupFails)
    // In terms of what is taken:
    ensures r.Chosen? ==>
              && first <= r.vmid < first + 50 && r.vmid !in view.recorded && r.vmid !in view.existing
              && {view.base + r.vmid, view.base + r.vmid + 1000, view.base + r.vmid + 2000} !! view.portsInUse
    ensures r.Chosen? || r.NoneLeft? ==> forall v | first <= v < (if r.Chosen? then r.vmid else first + 50) ::
              || v in view.recorded || v in view.existing
              || !({view.base + v, view.base + v + 1000, view.base + v + 2000} !! view.portsInUse)
    ensures r.LookupError? ==> exists v :: first <= v < first + 50 && lookupFails(v) && v !in view.recorded
    ensures r.NoneLeft? <==> forall v | first <= v < first + MAX_VMID_PROBES :: Passed(view, lookupFails, v)
    ensures r.ImpossiblePort? <==> exists v :: EndsAt(view, first, lookupFails, v) && PortError(view, v)
  {
    var vmid := first;
    for i := 0 to MAX_VMID_PROBES
      invariant vmid == first + i
      invariant forall v | first <= v < vmid :: Passed(view, lookupFails, v)
      invariant forall v | first <= v < vmid ::
                  || v in view.recorded || v in view.existing
                  || !({view.base + v, view.base + v + 1000, view.base + v + 2000} !! view.portsInUse)
    {
      if !Passed(view, lookupFails, vmid) { assert EndsAt(view, first, lookupFails, vmid); }
      PortsMeet(view, vmid);
      if PortError(view, vmid) { return ImpossiblePort; }
      if !ConflictsInDb(view, vmid) {
        if lookupFails(vmid) { return LookupError; }
        if vmid !in view.existing { return Chosen(vmid); }
      }
      vmid := vmid + 1;
    }
    return NoneLeft;
  }

  // ---------------------------------------------------------------------------
  // Internal addresses
  // ---------------------------------------------------------------------------

  const IP_START: Ip := 100
  const IP_END: Ip := 254

  /** The last octet of an address in the /24 that is handed out. */
  predicate InRange(ip: Ip) { IP_START <= ip <= IP_END }

  /** ip is the least address of the range outside `used`. */
  predicate LeastFree(used: set<Ip>, ip: Ip) {
    InRange(ip) && ip !in used && forall o | IP_START <= o < ip :: o in used
  }

  predicate RangeFull(used: set<Ip>) {
    forall o | IP_START <= o <= IP_END :: o in used
  }

  /** None is the 507 response. */
  method AllocateInternalIp(used: set<Ip>) returns (r: Option<Ip>)
    ensures r.Some? ==> LeastFree(used, r.value)
    ensures r.Some? ==> 100 <= r.value <= 254 && r.value !in used && forall o | 100 <= o < r.value :: o in used
    ensures r.None? <==> RangeFull(used)
    ensures r.None? <==> forall o | 100 <= o <= 254 :: o in used
  {
    for octet := IP_START to IP_END + 1
      invariant forall o | IP_START <= o < octet :: o in used
    {
      if octet !in used { return Some(octet); }
    }
    return None;
  }

  // ---------------------------------------------------------------------------
  // Interleaved reservations
  // ---------------------------------------------------------------------------

  type TxId = int
  type VmId = int

  /** A transaction that creates a VM: holding the advisory lock with the used addresses
      read, or having picked an address that is not committed yet. */
  datatype Tx = Reading(used: set<Ip>) | Picked(used: set<Ip>, ip: Ip)

  /** Committed addresses by VM, the lock's holder, and what the holder has done.
      pg_advisory_xact_lock is released only by commit or rollback. */
  datatype Pool = Pool(committed: map<VmId, Ip>, holder: Option<TxId>, tx: Option<Tx>)

  datatype IpEvent =
    | Lock(t: TxId)                        // the lock is granted and the used addresses are read
    | Pick(t: TxId, answer: Option<Ip>)    // the scan's answer; None rolls back with a 507
    | Commit(t: TxId, vm: VmId)            // the VM's row becomes visible, the lock is released
    | Rollback(t: TxId)
    | Release(vm: VmId)                    // another transaction deletes a VM, without the lock

  /** The addresses the query at the start of an allocation returns. */
  function Used(committed: map<VmId, Ip>): set<Ip> { set v | v in committed :: committed[v] }

  /** What AllocateInternalIp may answer. */
  predicate ScanAnswer(used: set<Ip>, answer: Option<Ip>) {
    (answer.Some? ==> LeastFree(used, answer.value)) && (answer.None? <==> RangeFull(used))
  }

  /** An event that cannot happen in a state leaves it as it is. */
  function IpStep(p: Pool, e: IpEvent): Pool {
    match e
    case Lock(t) => if p.holder == None then p.(holder := Some(t), tx := Some(Reading(Used(p.committed)))) else p
    case Pick(t, answer) =>
      if p.holder == Some(t) && p.tx.Some? && p.tx.value.Reading? && ScanAnswer(p.tx.value.used, answer) then
        if answer.Some? then p.(tx := Some(Picked(p.tx.value.used, answer.value))) else p.(holder := None, tx := None)
      else p
    case Commit(t, vm) =>
      if p.holder == Some(t) && p.tx.Some? && p.tx.value.Picked? && vm !in p.committed then
        Pool(p.committed[vm := p.tx.value.ip], None, None)
      else p
    case Rollback(t) => if p.holder == Some(t) then p.(holder := None, tx := None) else p
    case Release(vm) => p.(committed := p.committed - {vm})
  }

  function IpRun(p: Pool, es: seq<IpEvent>): Pool {
    if es == [] then p else IpStep(IpRun(p, es[..|es| - 1]), es[|es| - 1])
  }

  /** No two VMs share an address, and all addresses are in range. */
  ghost predicate AddressesDistinct(committed: map<VmId, Ip>) {
    && (forall v, w | v in committed && w in committed && v != w :: committed[v] != committed[w])
    && (forall v | v in committed :: InRange(committed[v]))
  }

  /** What the holder read covers every committed address, and what it picked is the
      least address outside what it read. */
  ghost predicate PoolInv(p: Pool) {
    && AddressesDistinct(p.committed)
    && (p.tx.Some? ==> Used(p.committed) <= p.tx.value.used)
    && (p.tx.Some? && p.tx.value.Picked? ==> LeastFree(p.tx.value.used, p.tx.value.ip))
  }

  lemma IpStepKeeps(p: Pool, e: IpEvent)
    requires PoolInv(p)
    ensures PoolInv(IpStep(p, e))
  {
    var q := IpStep(p, e);
    if e.Commit? && q != p {
      forall v | v in q.committed && v != e.vm ensures q.committed[v] != p.tx.value.ip {
        assert p.committed[v] in Used(p.committed);
      }
    }
  }

  /** Under every interleaving of creations and deletions, no address is given out twice. */
  lemma {:induction false} AddressesStayDistinct(committed: map<VmId, Ip>, es: seq<IpEvent>)
    requires AddressesDistinct(committed)
    ensures PoolInv(IpRun(Pool(committed, None, None), es))
    ensures AddressesDistinct(IpRun(Pool(committed, None, None), es).committed)
  {
    if es == [] {
    } else {
      AddressesStayDistinct(committed, es[..|es| - 1]);
      IpStepKeeps(IpRun(Pool(committed, None, None), es[..|es| - 1]), es[|es| - 1]);
    }
  }

  /** A transaction holds the lock exactly while it knows what it read. */
  lemma {:induction false} HolderHasRead(committed: map<VmId, Ip>, es: seq<IpEvent>)
    ensures var p := IpRun(Pool(committed, None, None), es); p.tx.Some? <==> p.holder.Some?
  {
    if es == [] {
    } else {
      HolderHasRead(committed, es[..|es| - 1]);
    }
  }

  /** Event n grants the free lock to t, and t has held it ever since. */
  ghost predicate HeldSince(committed: map<VmId, Ip>, es: seq<IpEvent>, n: nat, t: TxId) {
    && n < |es| && es[n] == Lock(t) && IpRun(Pool(committed, None, None), es[..n]).holder == None
    && forall k | n < k <= |es| :: IpRun(Pool(committed, None, None), es[..k]).holder == Some(t)
  }

  /** What a transaction goes by is what was committed when it was granted the lock, and it has
      held the lock without interruption since. */
  lemma {:induction false} ReadUnderLock(committed: map<VmId, Ip>, es: seq<IpEvent>, t: TxId) returns (n: nat)
    requires IpRun(Pool(committed, None, None), es).holder == Some(t)
    ensures HeldSince(committed, es, n, t)
    ensures IpRun(Pool(committed, None, None), es).tx.Some?
    ensures Used(IpRun(Pool(committed, None, None), es[..n]).committed)
            == IpRun(Pool(committed, None, None), es).tx.value.used
  {
    HolderHasRead(committed, es);
    assert es != [] && es[..|es|] == es;
    var last := |es| - 1;
    if IpRun(Pool(committed, None, None), es[..last]).holder == Some(t) {
      n := ReadUnderLock(committed, es[..last], t);
      assert es[..last][..n] == es[..n];
      forall k | n < k <= |es| ensures IpRun(Pool(committed, None, None), es[..k]).holder == Some(t) {
        if k <= last { assert es[..last][..k] == es[..k]; }
      }
    } else {
      n := last;
    }
  }

  /** In every run, when a VM's row appears its address is new, and it is the least free address
      of the database as it stood when the transaction was granted the lock it still holds. */
  lemma {:induction false} CommittedAddressIsLeast(committed: map<VmId, Ip>, es: seq<IpEvent>, e: IpEvent)
    returns (n: nat)
    requires AddressesDistinct(committed)
    requires e.Commit?
    requires var p := IpRun(Pool(committed, None, None), es); e.vm !in p.committed && e.vm in IpStep(p, e).committed
    ensures HeldSince(committed, es, n, e.t)
    ensures var p := IpRun(Pool(committed, None, None), es);
            var ip := IpStep(p, e).committed[e.vm];
            && LeastFree(Used(IpRun(Pool(committed, None, None), es[..n]).committed), ip)
            && ip !in Used(p.committed)
  {
    AddressesStayDistinct(committed, es);
    n := ReadUnderLock(committed, es, e.t);
  }

  /** A transaction that nobody disturbs: with the lock free it gets the least free address, its
      row appears and the lock is free again; with the range full nothing changes. */
  lemma WholeTransaction(committed: map<VmId, Ip>, used: set<Ip>, t: TxId, vm: VmId, ip: Ip)
    requires vm !in committed && used == set v | v in committed :: committed[v]
    ensures 100 <= ip <= 254 && ip !in used && (forall o | 100 <= o < ip :: o in used) ==>
              IpRun(Pool(committed, None, None), [Lock(t), Pick(t, Some(ip)), Commit(t, vm)])
              == Pool(committed[vm := ip], None, None)
    ensures (forall o | 100 <= o <= 254 :: o in used) ==>
              IpRun(Pool(committed, None, None), [Lock(t), Pick(t, None)]) == Pool(committed, None, None)
  {
    var p := Pool(committed, None, None);
    assert [] + [Lock(t)] == [Lock(t)] && [Lock(t)] + [Pick(t, None)] == [Lock(t), Pick(t, None)];
    assert [Lock(t)] + [Pick(t, Some(ip))] == [Lock(t), Pick(t, Some(ip))];
    assert [Lock(t), Pick(t, Some(ip))] + [Commit(t, vm)] == [Lock(t), Pick(t, Some(ip)), Commit(t, vm)];
    assert IpRun(p, [Lock(t)]) == Pool(committed, Some(t), Some(Reading(used)));
  }

  /** While one transaction holds the lock, no other gets in, and neither a rollback nor a deletion
      gives anything out. */
  lemma OthersWait(p: Pool, e: IpEvent)
    requires p.holder.Some?
    ensures e.Lock? || ((e.Pick? || e.Commit? || e.Rollback?) && p.holder != Some(e.t)) ==> IpStep(p, e) == p
    ensures e == Rollback(p.holder.value) ==> IpStep(p, e) == Pool(p.committed, None, None)
    ensures e.Release? ==> IpStep(p, e) == Pool(p.committed - {e.vm}, p.holder, p.tx)
  {
  }
}
