/** Lease times of VMs: seven days at creation, fourteen more per extension, a grace period of
    three days, and the background pass that stops and deletes (backend/main.py,
    backend/api/routes/vmcontrol.py, backend/services/vm_service.py). Times are microseconds. */
module VmExpiry {
  import opened Prelude

  const DAY := 86_400_000_000
  const EXPIRE_GRACE_DAYS := 3

  // ---------------------------------------------------------------------------
  // Windows
  // ---------------------------------------------------------------------------

  datatype Window = Far | Soon | Grace | Due

  predicate InFar(expires: int, now: int) { expires > now + 3 * DAY }

  /** Three days or less to go. */
  predicate InSoon(expires: int, now: int) { expires > now && expires <= now + 3 * DAY }

  /** Expired, to be stopped. */
  predicate InGrace(expires: int, now: int) { expires <= now && expires > now - EXPIRE_GRACE_DAYS * DAY }

  /** Expired for three days, to be deleted. */
  predicate InDue(expires: int, now: int) { expires <= now - EXPIRE_GRACE_DAYS * DAY }

  function WindowAt(expires: int, now: int): Window {
    if InFar(expires, now) then Far
    else if InSoon(expires, now) then Soon
    else if InGrace(expires, now) then Grace
    else Due
  }

  /** The queries of the background pass put every expiring VM into exactly one window, and
      as time goes by a VM only moves on to later windows. */
  lemma WindowsPartition(expires: int, now: int, later: int) returns (w: Window, v: Window)
    requires now <= later
    ensures (w.Far? <==> InFar(expires, now)) && (w.Soon? <==> InSoon(expires, now))
    ensures (w.Grace? <==> InGrace(expires, now)) && (w.Due? <==> InDue(expires, now))
    ensures (v.Far? <==> InFar(expires, later)) && (v.Soon? <==> InSoon(expires, later))
    ensures (v.Grace? <==> InGrace(expires, later)) && (v.Due? <==> InDue(expires, later))
    ensures v.Far? ==> w.Far?
    ensures v.Soon? ==> w.Far? || w.Soon?
    ensures v.Grace? ==> !w.Due?
  {
    w := WindowAt(expires, now);
    v := WindowAt(expires, later);
  }

  // ---------------------------------------------------------------------------
  // Steps
  // ---------------------------------------------------------------------------

  /** `days` of a timedelta: rounded down, also for negative spans. */
  function Days(span: int): int { span / DAY }

  /** A VM row, with the number of its extensions so far. */
  datatype Lease = Lease(createdAt: int, expiresAt: Option<int>, ready: bool, extensions: nat)

  /** A pass over the VMs: the time it reads at its start, and, once the grace query has
      run, the VMs it goes on to stop, with the expiry the query saw. */
  datatype Pass = Pass(at: int, stopping: map<int, int>)

  /** `created` is every VM there has been; ids are not reused. */
  datatype State = State(now: int, vms: map<int, Lease>, created: set<int>, running: set<int>, pass: Option<Pass>)

  datatype Action = PowerOn | PowerOff | Shutdown | Reboot

  /** `effective`: the call to Proxmox had its effect. */
  datatype Event =
    | Tick(d: nat)
    | Create(vm: int, limited: bool)   // the row; limited: the owner's role is USER
    | Built(vm: int)                   // the machine is started and the row marked ready
    | Extend(vm: int)
    | Control(vm: int, action: Action, admin: bool, effective: bool)
    | Remove(vm: int)                  // deleted by its owner
    | PassBegins
    | GraceQuery
    | GraceStop(vm: int, effective: bool)        // one turn of the stopping loop, which runs in a thread
    | PassEnds(failed: set<int>, off: set<int>)  // the deletions; some fail, and may leave the machine off

  function Expired(s: State, at: int): map<int, int> {
    map v | v in s.vms && s.vms[v].expiresAt.Some? && InGrace(s.vms[v].expiresAt.value, at) :: s.vms[v].expiresAt.value
  }

  function ToDelete(s: State, at: int): set<int> {
    set v | v in s.vms && s.vms[v].expiresAt.Some? && InDue(s.vms[v].expiresAt.value, at)
  }

  predicate CanExtend(s: State, vm: int) {
    vm in s.vms && s.vms[vm].expiresAt.Some? && Days(s.vms[vm].expiresAt.value - s.now) <= 7
  }

  /** The guards of control_vm: the VM is complete, and not expired if it is to be started. */
  predicate CanControl(s: State, vm: int, action: Action, admin: bool) {
    && vm in s.vms && s.vms[vm].ready
    && (action in {PowerOn, Reboot} && s.vms[vm].expiresAt.Some? && s.vms[vm].expiresAt.value <= s.now ==> admin)
  }

  /** A reboot leaves a machine that is off as it is. */
  function Switched(running: set<int>, vm: int, action: Action): set<int> {
    match action
    case PowerOn => running + {vm}
    case PowerOff => running - {vm}
    case Shutdown => running - {vm}
    case Reboot => running
  }

  /** An event that cannot happen changes nothing. */
  function Step(s: State, e: Event): State {
    match e
    case Tick(d) => s.(now := s.now + d)
    case Create(vm, limited) =>
      if vm in s.created then s
      else s.(vms := s.vms[vm := Lease(s.now, if limited then Some(s.now + 7 * DAY) else None, false, 0)],
              created := s.created + {vm})
    case Built(vm) =>
      if vm !in s.vms || s.vms[vm].ready then s
      else s.(vms := s.vms[vm := s.vms[vm].(ready := true)], running := s.running + {vm})
    case Extend(vm) =>
      if !CanExtend(s, vm) then s
      else
        var l := s.vms[vm];
        s.(vms := s.vms[vm := l.(expiresAt := Some(l.expiresAt.value + 14 * DAY), extensions := l.extensions + 1)])
    case Control(vm, action, admin, effective) =>
      if CanControl(s, vm, action, admin) && effective then s.(running := Switched(s.running, vm, action)) else s
    case Remove(vm) =>
      State(s.now, s.vms - {vm}, s.created, s.running - {vm},
            if s.pass.Some? then Some(s.pass.value.(stopping := s.pass.value.stopping - {vm})) else None)
    case PassBegins => if s.pass.None? then s.(pass := Some(Pass(s.now, map[]))) else s
    case GraceQuery => if s.pass.Some? then s.(pass := Some(Pass(s.pass.value.at, Expired(s, s.pass.value.at)))) else s
    case GraceStop(vm, effective) =>
      if s.pass.Some? && vm in s.pass.value.stopping then
        s.(pass := Some(s.pass.value.(stopping := s.pass.value.stopping - {vm})),
           running := if effective then s.running - {vm} else s.running)
      else s
    case PassEnds(failed, off) =>
      if s.pass.Some? then
        var due := ToDelete(s, s.pass.value.at);
        State(s.now, s.vms - (due - failed), s.created, s.running - (due - failed) - (due * off), None)
      else s
  }

  function Run(s: State, es: seq<Event>): State {
    if es == [] then s else Step(Run(s, es[..|es| - 1]), es[|es| - 1])
  }

  /** What the events without a method do: a USER's VM is created for seven days, others without an
      end; it can be used once it is built; a VM its owner removes is gone. */
  lemma LifeOfAVm(s: State, vm: int, limited: bool)
    requires vm !in s.created && vm !in s.vms
    ensures var t := Run(s, [Create(vm, limited), Built(vm)]);
            && vm in t.running && vm in t.vms && t.vms[vm].ready && t.vms[vm].createdAt == s.now
            && t.vms[vm].expiresAt == (if limited then Some(s.now + 7 * DAY) else None)
            && t.vms - {vm} == s.vms && t.running == s.running + {vm} && t.now == s.now
            && vm !in Step(t, Remove(vm)).vms && vm !in Step(t, Remove(vm)).running
            && Step(t, Remove(vm)).vms == s.vms
    ensures Step(s, Create(vm, limited)).running == s.running && !Step(s, Create(vm, limited)).vms[vm].ready
  {
    RunOne(s, [], Create(vm, limited));
    RunOne(s, [Create(vm, limited)], Built(vm));
    assert [] + [Create(vm, limited)] == [Create(vm, limited)];
    assert [Create(vm, limited)] + [Built(vm)] == [Create(vm, limited), Built(vm)];
    var t := Run(s, [Create(vm, limited), Built(vm)]);
    assert t.vms - {vm} == s.vms;
  }

  lemma RunOne(s: State, es: seq<Event>, e: Event)
    ensures Run(s, es + [e]) == Step(Run(s, es), e)
  {
    assert (es + [e])[..|es|] == es;
  }

  // ---------------------------------------------------------------------------
  // The operations
  // ---------------------------------------------------------------------------

  datatype Response = Success | NotFound | NoExpiry | TooEarly | NotReady | IsExpired | Provisioning | ProxmoxError

  class VmTable {
    var vms: map<int, Lease>
    var running: set<int>
    var pass: Option<Pass>
    ghost var created: set<int>

    constructor (vms: map<int, Lease>, running: set<int>)
      ensures this.vms == vms && this.running == running && pass == None && created == vms.Keys
    {
      this.vms, this.running, pass, created := vms, running, None, vms.Keys;
    }

    ghost function At(now: int): State
      reads this
    {
      State(now, vms, created, running, pass)
    }

    /** extend_vm. "Seven days before expiry" is checked on whole days, so the window is open
        from just under eight days on, and never closes. */
    method Extend(vm: int, now: int) returns (r: Response)
      modifies `vms
      ensures r in {Success, NotFound, NoExpiry, TooEarly}
      ensures r.NotFound? <==> vm !in old(vms)
      ensures r.NoExpiry? <==> vm in old(vms) && old(vms)[vm].expiresAt == None
      ensures r.Success? <==>
                vm in old(vms) && old(vms)[vm].expiresAt.Some? && old(vms)[vm].expiresAt.value - now < 8 * DAY
      ensures At(now) == Step(old(At(now)), Event.Extend(vm))
      ensures r.Success? ==> vm in vms && vms[vm].expiresAt == Some(old(vms)[vm].expiresAt.value + 14 * DAY)
      ensures vms.Keys == old(vms).Keys && forall v | v in vms && v != vm :: vms[v] == old(vms)[v]
      ensures !r.Success? ==> vms == old(vms)
      ensures r.Success? ==> vms[vm].createdAt == old(vms)[vm].createdAt && vms[vm].ready == old(vms)[vm].ready
      ensures r.Success? && InGrace(old(vms)[vm].expiresAt.value, now) ==> vms[vm].expiresAt.value > now + 11 * DAY
    {
      if vm !in vms { return NotFound; }
      var lease := vms[vm];
      if lease.expiresAt.None? { return NoExpiry; }
      if Days(lease.expiresAt.value - now) > 7 { return TooEarly; }
      vms := vms[vm := lease.(expiresAt := Some(lease.expiresAt.value + 14 * DAY), extensions := lease.extensions + 1)];
      return Success;
    }

    /** control_vm. `provisioning` is the answer of the cloud-init check, asked only before
        a running machine is taken down. */
    method Control(vm: int, action: Action, admin: bool, now: int, provisioning: bool, call: Call) returns (r: Response)
      modifies `running
      ensures r in {Success, NotFound, NotReady, IsExpired, Provisioning, ProxmoxError}
      ensures r in {NotFound, NotReady, IsExpired} <==> !CanControl(old(At(now)), vm, action, admin)
      ensures (r.NotFound? <==> vm !in vms) && (r.NotReady? <==> vm in vms && !vms[vm].ready)
      ensures r.Provisioning? <==>
                CanControl(old(At(now)), vm, action, admin) && action != PowerOn && vm in old(running) && provisioning
      ensures At(now) == Step(old(At(now)), Event.Control(vm, action, admin, !r.Provisioning? && call.Effective()))
      ensures r.Success? || r.ProxmoxError? ==> r.Success? == call.Done?
      // In terms of the request:
      ensures r.IsExpired? <==>
                vm in vms && vms[vm].ready && action in {PowerOn, Reboot} && !admin
                && vms[vm].expiresAt.Some? && vms[vm].expiresAt.value <= now
      ensures running - {vm} == old(running) - {vm}
      ensures r.Success? && action.PowerOn? ==> vm in running
      ensures r.Success? && action in {PowerOff, Shutdown} ==> vm !in running
      ensures action.Reboot? ==> running == old(running)
      ensures r.ProxmoxError? && call.Refused? ==> running == old(running)
      ensures r in {NotFound, NotReady, IsExpired, Provisioning} ==> running == old(running)
    {
      if vm !in vms { return NotFound; }
      if !vms[vm].ready { return NotReady; }
      if action in {PowerOn, Reboot} && vms[vm].expiresAt.Some? && vms[vm].expiresAt.value <= now && !admin {
        return IsExpired;
      }
      if action in {PowerOff, Shutdown, Reboot} && vm in running && provisioning { return Provisioning; }
      if call.Effective() { running := Switched(running, vm, action); }
      return if call.Done? then Success else ProxmoxError;
    }

    /** The grace query of a pass. */
    method ListExpired(now: int)
      requires pass.Some?
      modifies `pass
      ensures pass == Some(Pass(old(pass).value.at, Expired(At(now), old(pass).value.at)))
      ensures forall v :: v in pass.value.stopping <==>
                v in vms && vms[v].expiresAt.Some? && vms[v].expiresAt.value <= pass.value.at
                && vms[v].expiresAt.value > pass.value.at - 3 * DAY
      ensures At(now) == Step(old(At(now)), GraceQuery)
    {
      var listed := map v | v in vms && vms[v].expiresAt.Some? && InGrace(vms[v].expiresAt.value, pass.value.at) ::
                      vms[v].expiresAt.value;
      pass := Some(pass.value.(stopping := listed));
    }

    /** One turn of the stopping loop. A stop that fails is logged and passed over. */
    method StopOne(vm: int, call: Call, now: int)
      requires pass.Some? && vm in pass.value.stopping
      modifies `running, `pass
      ensures running == (if call.Effective() then old(running) - {vm} else old(running))
      ensures pass == Some(old(pass).value.(stopping := old(pass).value.stopping - {vm}))
      ensures At(now) == Step(old(At(now)), GraceStop(vm, call.Effective()))
    {
      if call.Effective() { running := running - {vm}; }
      pass := Some(pass.value.(stopping := pass.value.stopping - {vm}));
    }

    /** _process_grace_vms, undisturbed; `rows` answers its query. */
    method StopExpired(rows: seq<int>, calls: int -> Call, now: int) returns (ghost es: seq<Event>)
      requires pass.Some? && forall v :: v in rows <==> v in Expired(At(now), pass.value.at)
      requires forall i, j | 0 <= i < j < |rows| :: rows[i] != rows[j]
      modifies `running, `pass
      ensures running == old(running) - (set v | v in rows && calls(v).Effective())
      ensures At(now) == Run(old(At(now)), es) && forall e | e in es :: e.GraceQuery? || e.GraceStop?
    {
      ghost var s := At(now);
      RunOne(s, [], GraceQuery);
      es := [] + [GraceQuery];
      ListExpired(now);
      for n := 0 to |rows|
        invariant pass.Some? && forall v | v in rows[n..] :: v in pass.value.stopping
        invariant running == old(running) - (set v | v in rows[..n] && calls(v).Effective())
        invariant At(now) == Run(s, es) && forall e | e in es :: e.GraceQuery? || e.GraceStop?
      {
        var v := rows[n];
        assert rows[..n + 1] == rows[..n] + [v];
        assert v !in rows[n + 1..];
        RunOne(s, es, GraceStop(v, calls(v).Effective()));
        es := es + [GraceStop(v, calls(v).Effective())];
        StopOne(v, calls(v), now);
      }
      assert rows[..|rows|] == rows;
    }

    /** The deletions that end a pass; `rows` answers their query, `failed` are those that
        raise. A failed deletion is logged and passed over. */
    method DeleteDue(rows: seq<int>, failed: set<int>, off: set<int>, now: int)
      requires pass.Some? && forall v :: v in rows <==> v in ToDelete(At(now), pass.value.at)
      modifies `vms, `running, `pass
      ensures At(now) == Step(old(At(now)), PassEnds(failed, off))
      ensures pass == None && forall v :: v in vms <==>
                v in old(vms) && !(old(vms)[v].expiresAt.Some? && v !in failed
                                   && old(vms)[v].expiresAt.value <= old(pass).value.at - 3 * DAY)
      ensures forall v | v in vms :: vms[v] == old(vms)[v]
    {
      ghost var due := ToDelete(At(now), pass.value.at);
      assert forall v :: v in due <==> v in rows;
      assert due == set v | v in rows;
      for n := 0 to |rows|
        invariant pass == old(pass)
        invariant vms == old(vms) - ((set v | v in rows[..n]) - failed)
        invariant running == old(running) - ((set v | v in rows[..n]) - failed) - ((set v | v in rows[..n]) * off)
      {
        var v := rows[n];
        assert rows[..n + 1] == rows[..n] + [v];
        if v !in failed { vms := vms - {v}; }
        if v !in failed || v in off { running := running - {v}; }
      }
      assert rows[..|rows|] == rows;
      pass := None;
    }
  }

  // ---------------------------------------------------------------------------
  // Runs
  // ---------------------------------------------------------------------------

  /** A USER's lease follows from its creation and its extensions, and is bounded. */
  predicate LeaseInv(l: Lease, now: int) {
    && l.createdAt <= now
    && (l.expiresAt == None ==> l.extensions == 0)
    && (l.expiresAt.Some? ==>
          && l.expiresAt.value == l.createdAt + 7 * DAY + 14 * DAY * l.extensions
          && l.expiresAt.value - now < 22 * DAY
          && 14 * DAY * l.extensions < now - l.createdAt + 15 * DAY)
  }

  /** What the pass set out to stop was in the grace window as it read it, and has since
      either kept its expiry or gained at least one extension. */
  ghost predicate PassInv(s: State, p: Pass) {
    && p.at <= s.now
    && forall v | v in p.stopping ::
         && InGrace(p.stopping[v], p.at)
         && v in s.vms && s.vms[v].expiresAt.Some?
         && (s.vms[v].expiresAt.value == p.stopping[v] || s.vms[v].expiresAt.value >= p.stopping[v] + 14 * DAY)
  }

  ghost predicate Inv(s: State) {
    && (forall v | v in s.vms :: v in s.created && LeaseInv(s.vms[v], s.now))
    && (s.pass.Some? ==> PassInv(s, s.pass.value))
  }

  lemma StepKeepsInv(s: State, e: Event)
    requires Inv(s)
    ensures Inv(Step(s, e))
  {
  }

  /** Over every run: a USER's VM always has less than 22 days left, and k extensions take
      more than 14k - 15 days since creation. */
  lemma {:induction false} LeasesAreBounded(s: State, es: seq<Event>)
    requires Inv(s)
    ensures Inv(Run(s, es))
    ensures var t := Run(s, es); forall v | v in t.vms && t.vms[v].expiresAt.Some? ::
              && t.vms[v].expiresAt.value - t.now < 22 * DAY
              && 14 * DAY * t.vms[v].extensions < t.now - t.vms[v].createdAt + 15 * DAY
  {
    if es == [] {
    } else {
      LeasesAreBounded(s, es[..|es| - 1]);
      StepKeepsInv(Run(s, es[..|es| - 1]), es[|es| - 1]);
    }
  }

  /** Over every run: the pass deletes a VM only when it has been expired for three days by
      the current clock, although the pass goes by the time it read at its start. */
  lemma DeletedOnlyWhenDue(s: State, es: seq<Event>, e: Event, vm: int)
    requires Inv(s)
    requires var t := Run(s, es); vm in t.vms && vm !in Step(t, e).vms && e.PassEnds?
    ensures var t := Run(s, es); t.vms[vm].expiresAt.Some? && InDue(t.vms[vm].expiresAt.value, t.now)
  {
    LeasesAreBounded(s, es);
  }

  /** A stop hits a VM outside its grace window exactly when the VM was extended after the
      pass had listed it. */
  lemma StopsExtendedVms(s: State, es: seq<Event>, vm: int)
    requires Inv(s)
    requires var t := Run(s, es); t.pass.Some? && vm in t.pass.value.stopping
    ensures var t := Run(s, es);
            && vm in t.vms && t.vms[vm].expiresAt.Some?
            && (InGrace(t.vms[vm].expiresAt.value, t.pass.value.at) <==>
                t.vms[vm].expiresAt.value == t.pass.value.stopping[vm])
  {
    LeasesAreBounded(s, es);
  }

  lemma RunFour(s: State, a: Event, b: Event, c: Event, d: Event)
    ensures Run(s, [a, b, c, d]) == Step(Step(Step(Step(s, a), b), c), d)
  {
    RunOne(s, [], a);
    RunOne(s, [a], b);
    RunOne(s, [a, b], c);
    RunOne(s, [a, b, c], d);
    assert [] + [a] == [a] && [a] + [b] == [a, b] && [a, b] + [c] == [a, b, c] && [a, b, c] + [d] == [a, b, c, d];
  }

  /** A run that stops an extended VM, from any state with a VM in its grace period: the pass
      lists it, its owner extends it, and the stop follows. It then has more than eleven days. */
  lemma ExtendedIsStopped(s: State, vm: int)
    requires s.pass.None? && vm in s.vms && s.vms[vm].expiresAt.Some? && InGrace(s.vms[vm].expiresAt.value, s.now)
    ensures var t := Run(s, [PassBegins, GraceQuery, Extend(vm), GraceStop(vm, true)]);
            && vm in t.vms && vm !in t.running
            && t.vms[vm].expiresAt == Some(s.vms[vm].expiresAt.value + 14 * DAY)
            && t.vms[vm].expiresAt.value > t.now + 11 * DAY
  {
    RunFour(s, PassBegins, GraceQuery, Extend(vm), GraceStop(vm, true));
    var s2 := Step(Step(s, PassBegins), GraceQuery);
    assert vm in s2.pass.value.stopping && s2.vms == s.vms && s2.now == s.now;
  }

  /** Such a state is reached from an empty one: eight days after a USER's VM was created. */
  lemma GraceIsReachable()
    ensures var t := Run(State(0, map[], {}, {}, None), [Create(1, true), Built(1), Tick(8 * DAY), PassBegins]);
            t == State(8 * DAY, map[1 := Lease(0, Some(7 * DAY), true, 0)], {1}, {1}, Some(Pass(8 * DAY, map[])))
  {
    var s := State(0, map[], {}, {}, None);
    RunFour(s, Create(1, true), Built(1), Tick(8 * DAY), PassBegins);
    var s1 := Step(s, Create(1, true));
    assert s1.vms == map[1 := Lease(0, Some(7 * DAY), false, 0)] && s1.created == {1};
  }

  lemma ExtendedStopIsReachable()
    ensures var s := State(0, map[], {}, {}, None);
            var t := Run(s, [Create(1, true), Built(1), Tick(8 * DAY), PassBegins]
                            + [GraceQuery, Extend(1), GraceStop(1, true)]);
            && Inv(s) && 1 in t.vms && 1 !in t.running
            && t.vms[1].expiresAt == Some(21 * DAY) && InFar(21 * DAY, t.now)
  {
    var s := State(0, map[], {}, {}, None);
    var es := [Create(1, true), Built(1), Tick(8 * DAY), PassBegins];
    GraceIsReachable();
    RunOne(s, es, GraceQuery);
    RunOne(s, es + [GraceQuery], Extend(1));
    RunOne(s, es + [GraceQuery] + [Extend(1)], GraceStop(1, true));
    assert es + [GraceQuery] + [Extend(1)] + [GraceStop(1, true)] == es + [GraceQuery, Extend(1), GraceStop(1, true)];
  }

  function Elapsed(es: seq<Event>): nat {
    if es == [] then 0 else Elapsed(es[..|es| - 1]) + (match es[|es| - 1] case Tick(d) => d case _ => 0)
  }

  /** An extension made before the deletion window protects the VM from deletion, and from
      being listed for a stop, for the next eleven days, also from a pass already under way. */
  lemma {:induction false} ExtensionProtects(s: State, es: seq<Event>, vm: int)
    requires Inv(s) && CanExtend(s, vm) && !InDue(s.vms[vm].expiresAt.value, s.now)
    requires Elapsed(es) <= 11 * DAY && forall i | 0 <= i < |es| :: es[i] != Remove(vm)
    ensures var t := Run(Step(s, Extend(vm)), es);
            && vm in t.created && vm in t.vms && t.vms[vm].expiresAt.Some? && t.vms[vm].expiresAt.value > t.now
            && t.now == s.now + Elapsed(es)
            && t.vms[vm].expiresAt.value >= s.vms[vm].expiresAt.value + 14 * DAY
            && (t.pass.Some? ==> t.pass.value.at <= t.now)
  {
    if es == [] {
    } else {
      assert Elapsed(es[..|es| - 1]) <= Elapsed(es);
      ExtensionProtects(s, es[..|es| - 1], vm);
    }
  }

  /** An expired machine that is complete and off stays off, over every run, until its lease is
      extended or an administrator starts it. */
  lemma {:induction false} ExpiredStaysOff(s: State, es: seq<Event>, vm: int)
    requires Inv(s) && vm in s.vms && s.vms[vm].ready && vm !in s.running
    requires s.vms[vm].expiresAt.Some? && s.vms[vm].expiresAt.value <= s.now
    requires forall e | e in es :: e != Extend(vm) && !(e.Control? && e.vm == vm && e.admin)
    ensures var t := Run(s, es);
            && vm !in t.running && t.now >= s.now && vm in t.created && (vm in t.vms ==> t.vms[vm] == s.vms[vm])
  {
    if es == [] {
    } else {
      assert es[|es| - 1] in es;
      ExpiredStaysOff(s, es[..|es| - 1], vm);
    }
  }
}
