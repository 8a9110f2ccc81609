/** Subdomain rows in the database and routes on the proxy (backend/api/routes/https_gateway.py,
    and the route part of delete_vm). Any call to the proxy may fail or lose its reply, and any
    commit may fail. */
module HttpsGateway {
  import opened Prelude
  import opened CaddyService

  const MAX_HTTPS_ROUTES_PER_VM := 2

  /** A row of https_routes. */
  datatype Row = Row(vm: int, subdomain: string, port: int, synced: bool)

  type Rows = map<int, Row>
  type Addresses = map<int, int>  // the internal address of each VM that has one

  datatype State = State(rows: Rows, routes: seq<Route>)

  /** subdomain is a unique column. */
  ghost predicate UniqueSubdomains(rows: Rows) {
    forall i, j | i in rows && j in rows && rows[i].subdomain == rows[j].subdomain :: i == j
  }

  /** A row marked synced goes to its own VM and port. */
  ghost predicate SyncedIsServed(s: State, ips: Addresses) {
    forall i | i in s.rows && s.rows[i].synced ::
      && s.rows[i].vm in ips
      && Dispatch(s.routes, Domain(s.rows[i].subdomain)) == Some(Target(ips[s.rows[i].vm], s.rows[i].port))
  }

  ghost predicate Inv(s: State, ips: Addresses) {
    UniqueSubdomains(s.rows) && Tidy(s.routes) && SyncedIsServed(s, ips)
  }

  /** saved: the commit of the row's insertion or deletion went through; marked: so did the
      commit of its synced flag. In a DeleteVm, ids are the VM's rows. */
  datatype Op =
    | Add(id: int, vm: int, subdomain: string, port: int, saved: bool, calls: AddCalls, marked: bool)
    | Remove(id: int, call: Call, pick: nat, saved: bool)
    | DeleteVm(vm: int, ids: seq<int>, deletes: seq<Call>, picks: seq<nat>, saved: bool)

  predicate Enabled(s: State, ips: Addresses, op: Op) {
    match op
    case Add(id, vm, subdomain, _, _, _, _) =>
      && id !in s.rows && vm in ips
      && |set i | i in s.rows && s.rows[i].vm == vm| < MAX_HTTPS_ROUTES_PER_VM
      && forall i | i in s.rows :: s.rows[i].subdomain != subdomain
    case Remove(id, _, _, _) => id in s.rows
    case DeleteVm(vm, ids, calls, picks, _) =>
      && |calls| == |ids| == |picks|
      && (forall k | 0 <= k < |ids| :: ids[k] in s.rows && s.rows[ids[k]].vm == vm)
      && (forall i | i in s.rows && s.rows[i].vm == vm :: i in ids)
      && (forall j, k | 0 <= j < k < |ids| :: ids[j] != ids[k])
  }

  /** The routes after deleting those of several rows, one call each. */
  function DeleteAll(s: State, ids: seq<int>, calls: seq<Call>, picks: seq<nat>): seq<Route>
    requires |calls| == |ids| == |picks| && forall k | 0 <= k < |ids| :: ids[k] in s.rows
  {
    if ids == [] then s.routes
    else
      var n := |ids| - 1;
      AfterDelete(DeleteAll(s, ids[..n], calls[..n], picks[..n]), s.rows[ids[n]].subdomain, calls[n], picks[n])
  }

  function Apply(s: State, ips: Addresses, op: Op): State
    requires Enabled(s, ips, op)
  {
    match op
    case Add(id, vm, subdomain, port, saved, calls, marked) =>
      if !saved then s
      else
        var synced := calls.get && calls.patch.Done? && marked;
        State(s.rows[id := Row(vm, subdomain, port, synced)],
              AfterAdd(s.routes, subdomain, Target(ips[vm], port), calls))
    case Remove(id, call, pick, saved) =>
      State(if saved then s.rows - {id} else s.rows, AfterDelete(s.routes, s.rows[id].subdomain, call, pick))
    case DeleteVm(vm, ids, calls, picks, saved) =>
      State(if saved then map i | i in s.rows && s.rows[i].vm != vm :: s.rows[i] else s.rows,
            DeleteAll(s, ids, calls, picks))
  }

  function Step(s: State, ips: Addresses, op: Op): State {
    if Enabled(s, ips, op) then Apply(s, ips, op) else s
  }

  function Run(s: State, ips: Addresses, ops: seq<Op>): State {
    if ops == [] then s else Step(Run(s, ips, ops[..|ops| - 1]), ips, ops[|ops| - 1])
  }

  lemma {:induction false} DeleteAllKeepsOthers(s: State, ids: seq<int>, calls: seq<Call>, picks: seq<nat>,
                                                host: string)
    requires |calls| == |ids| == |picks| && (forall k | 0 <= k < |ids| :: ids[k] in s.rows) && Tidy(s.routes)
    requires forall k | 0 <= k < |ids| :: host != Domain(s.rows[ids[k]].subdomain)
    ensures Tidy(DeleteAll(s, ids, calls, picks))
    ensures Dispatch(DeleteAll(s, ids, calls, picks), host) == Dispatch(s.routes, host)
  {
    if ids == [] {
    } else {
      var n := |ids| - 1;
      DeleteAllKeepsOthers(s, ids[..n], calls[..n], picks[..n], host);
      DeleteKeepsOthers(DeleteAll(s, ids[..n], calls[..n], picks[..n]), s.rows[ids[n]].subdomain, calls[n], picks[n]);
    }
  }

  lemma {:induction false} DeleteAllTidy(s: State, ids: seq<int>, calls: seq<Call>, picks: seq<nat>)
    requires |calls| == |ids| == |picks| && (forall k | 0 <= k < |ids| :: ids[k] in s.rows) && Tidy(s.routes)
    ensures Tidy(DeleteAll(s, ids, calls, picks))
  {
    if ids == [] {
    } else {
      var n := |ids| - 1;
      DeleteAllTidy(s, ids[..n], calls[..n], picks[..n]);
      DeleteKeepsOthers(DeleteAll(s, ids[..n], calls[..n], picks[..n]), s.rows[ids[n]].subdomain, calls[n], picks[n]);
    }
  }

  /** Rows whose route the operation has taken out before a commit that failed. */
  predicate LeftWithoutCommit(s: State, op: Op, i: int) {
    match op
    case Add(_, _, _, _, _, _, _) => false
    case Remove(id, _, _, saved) => i == id && !saved
    case DeleteVm(vm, _, _, _, saved) => i in s.rows && s.rows[i].vm == vm && !saved
  }

  /** No such row is marked synced, unless its host still goes where it should. */
  ghost predicate Harmless(s: State, ips: Addresses, op: Op)
    requires Enabled(s, ips, op)
  {
    forall i | i in s.rows && LeftWithoutCommit(s, op, i) && s.rows[i].synced ::
      Dispatch(Apply(s, ips, op).routes, Domain(s.rows[i].subdomain)) == Dispatch(s.routes, Domain(s.rows[i].subdomain))
  }

  /** Hosts of other rows than those an operation is about keep their destination. */
  lemma ApplyKeepsOthers(s: State, ips: Addresses, op: Op, i: int)
    requires Inv(s, ips) && Enabled(s, ips, op) && i in s.rows
    requires op.Remove? ==> op.id != i
    requires op.DeleteVm? ==> op.vm != s.rows[i].vm
    ensures Dispatch(Apply(s, ips, op).routes, Domain(s.rows[i].subdomain))
              == Dispatch(s.routes, Domain(s.rows[i].subdomain))
  {
    match op
    case Add(id, vm, subdomain, port, saved, calls, marked) =>
      NamesInjective(s.rows[i].subdomain, subdomain);
      AddKeepsOthers(s.routes, subdomain, Target(ips[vm], port), calls);
    case Remove(id, call, pick, saved) =>
      NamesInjective(s.rows[i].subdomain, s.rows[id].subdomain);
      DeleteKeepsOthers(s.routes, s.rows[id].subdomain, call, pick);
    case DeleteVm(vm, ids, calls, picks, saved) =>
      forall k | 0 <= k < |ids| ensures Domain(s.rows[i].subdomain) != Domain(s.rows[ids[k]].subdomain) {
        var j := ids[k];
        assert i in s.rows && j in s.rows && s.rows[i].vm != vm && s.rows[j].vm == vm;
        assert s.rows[i].subdomain != s.rows[j].subdomain;
        NamesInjective(s.rows[i].subdomain, s.rows[ids[k]].subdomain);
      }
      DeleteAllKeepsOthers(s, ids, calls, picks, Domain(s.rows[i].subdomain));
  }

  lemma ApplyKeepsTidy(s: State, ips: Addresses, op: Op)
    requires Inv(s, ips) && Enabled(s, ips, op)
    ensures UniqueSubdomains(Apply(s, ips, op).rows) && Tidy(Apply(s, ips, op).routes)
  {
    match op
    case Add(id, vm, subdomain, port, saved, calls, marked) =>
      AddKeepsOthers(s.routes, subdomain, Target(ips[vm], port), calls);
    case Remove(id, call, pick, saved) => DeleteKeepsOthers(s.routes, s.rows[id].subdomain, call, pick);
    case DeleteVm(vm, ids, calls, picks, saved) => DeleteAllTidy(s, ids, calls, picks);
  }

  /** Synced rows stay served exactly if no commit fails after the route of a synced row has
      been taken out, to the detriment of its host. */
  lemma ApplyKeepsInv(s: State, ips: Addresses, op: Op)
    requires Inv(s, ips) && Enabled(s, ips, op)
    ensures Inv(Apply(s, ips, op), ips) <==> Harmless(s, ips, op)
  {
    var t := Apply(s, ips, op);
    ApplyKeepsTidy(s, ips, op);
    forall i | i in s.rows && i in t.rows && t.rows[i] == s.rows[i] && !LeftWithoutCommit(s, op, i)
      ensures Dispatch(t.routes, Domain(s.rows[i].subdomain)) == Dispatch(s.routes, Domain(s.rows[i].subdomain))
    {
      ApplyKeepsOthers(s, ips, op, i);
    }
    if op.Add? { AddKeepsOthers(s.routes, op.subdomain, Target(ips[op.vm], op.port), op.calls); }
  }

  /** The operation at position n of the run, if it can happen, does no harm by a failed commit. */
  ghost predicate HarmlessAt(s: State, ips: Addresses, ops: seq<Op>, n: nat)
    requires n < |ops|
  {
    Enabled(Run(s, ips, ops[..n]), ips, ops[n]) ==> Harmless(Run(s, ips, ops[..n]), ips, ops[n])
  }

  /** Over every run, with whatever calls failing or losing their replies and whatever orphan
      routes they leave, each row marked synced is served by its own VM, as long as no commit
      fails after a synced row's route has gone. */
  lemma {:induction false} SyncedRowsAreServed(s: State, ips: Addresses, ops: seq<Op>)
    requires Inv(s, ips) && forall n | 0 <= n < |ops| :: HarmlessAt(s, ips, ops, n)
    ensures Inv(Run(s, ips, ops), ips)
  {
    if ops == [] {
    } else {
      var front := ops[..|ops| - 1];
      var t := Run(s, ips, front);
      forall n | 0 <= n < |front| ensures HarmlessAt(s, ips, front, n) {
        assert HarmlessAt(s, ips, ops, n) && front[..n] == ops[..n];
      }
      SyncedRowsAreServed(s, ips, front);
      assert HarmlessAt(s, ips, ops, |ops| - 1);
      if Enabled(t, ips, ops[|ops| - 1]) { ApplyKeepsInv(t, ips, ops[|ops| - 1]); }
    }
  }

  /** A commit that goes through does no harm. */
  lemma SavedIsHarmless(s: State, ips: Addresses, op: Op)
    requires Enabled(s, ips, op) && op.saved
    ensures Harmless(s, ips, op)
  {
  }

  /** Removing a row whose commit fails does no harm exactly if the row was not synced, the
      proxy did not delete, or another route sends the host to the same place. */
  lemma RemoveIsHarmless(s: State, ips: Addresses, id: int, call: Call, pick: nat)
    requires Inv(s, ips) && id in s.rows
    ensures Harmless(s, ips, Remove(id, call, pick, false)) <==>
              || !s.rows[id].synced || call.Refused?
              || Dispatch(RemoveById(s.routes, RouteId(s.rows[id].subdomain), pick), Domain(s.rows[id].subdomain))
                 == Some(Target(ips[s.rows[id].vm], s.rows[id].port))
  {
  }

  /** What the first n deletions leave of the routes. */
  function AfterSome(s: State, ids: seq<int>, calls: seq<Call>, picks: seq<nat>, n: nat): seq<Route>
    requires |calls| == |ids| == |picks| && n <= |ids| && forall k | 0 <= k < |ids| :: ids[k] in s.rows
  {
    DeleteAll(s, ids[..n], calls[..n], picks[..n])
  }

  /** The host of the k-th row goes where the k-th deletion has left it; before that it goes
      where it always has. */
  lemma {:induction false} OwnDeletionDecides(s: State, ips: Addresses, op: Op, k: nat, n: nat)
    requires Inv(s, ips) && Enabled(s, ips, op) && op.DeleteVm? && k < |op.ids| && n <= |op.ids|
    ensures Tidy(AfterSome(s, op.ids, op.deletes, op.picks, n))
    ensures var host := Domain(s.rows[op.ids[k]].subdomain);
            Dispatch(AfterSome(s, op.ids, op.deletes, op.picks, n), host) ==
            Dispatch(if n <= k then s.routes else AfterSome(s, op.ids, op.deletes, op.picks, k + 1), host)
  {
    if n == 0 {
    } else {
      var row, last := s.rows[op.ids[k]], s.rows[op.ids[n - 1]];
      assert op.ids[..n][..n - 1] == op.ids[..n - 1] && op.deletes[..n][..n - 1] == op.deletes[..n - 1]
             && op.picks[..n][..n - 1] == op.picks[..n - 1];
      OwnDeletionDecides(s, ips, op, k, n - 1);
      DeleteKeepsOthers(AfterSome(s, op.ids, op.deletes, op.picks, n - 1), last.subdomain, op.deletes[n - 1],
                        op.picks[n - 1]);
      if n - 1 != k {
        assert op.ids[n - 1] != op.ids[k];
        NamesInjective(row.subdomain, last.subdomain);
      }
    }
  }

  /** The k-th deletion leaves its row's host as it was: the row is not synced, the proxy did not
      delete, or another route sends the host to the same place. */
  ghost predicate DeletionHarmless(s: State, ips: Addresses, op: Op, k: nat)
    requires Enabled(s, ips, op) && op.DeleteVm? && k < |op.ids|
  {
    var row := s.rows[op.ids[k]];
    || !row.synced || op.deletes[k].Refused?
    || (row.vm in ips
        && Dispatch(RemoveById(AfterSome(s, op.ids, op.deletes, op.picks, k), RouteId(row.subdomain), op.picks[k]),
                    Domain(row.subdomain)) == Some(Target(ips[row.vm], row.port)))
  }

  /** A deletion of a VM whose commit fails does no harm exactly if none of its deletions does. */
  lemma DeleteVmIsHarmless(s: State, ips: Addresses, op: Op)
    requires Inv(s, ips) && Enabled(s, ips, op) && op.DeleteVm?
    ensures Harmless(s, ips, op) <==> op.saved || forall k | 0 <= k < |op.ids| :: DeletionHarmless(s, ips, op, k)
  {
    var n := |op.ids|;
    assert op.ids[..n] == op.ids && op.deletes[..n] == op.deletes && op.picks[..n] == op.picks;
    forall k | 0 <= k < n && s.rows[op.ids[k]].synced
      ensures var host := Domain(s.rows[op.ids[k]].subdomain);
              (Dispatch(Apply(s, ips, op).routes, host) == Dispatch(s.routes, host)) <==>
              DeletionHarmless(s, ips, op, k)
    {
      OwnDeletionDecides(s, ips, op, k, n);
      OwnDeletionDecides(s, ips, op, k, k);
      assert op.ids[..k + 1][..k] == op.ids[..k] && op.deletes[..k + 1][..k] == op.deletes[..k]
             && op.picks[..k + 1][..k] == op.picks[..k];
    }
    if Harmless(s, ips, op) && !op.saved {
      forall k | 0 <= k < n ensures DeletionHarmless(s, ips, op, k) {
        assert LeftWithoutCommit(s, op, op.ids[k]);
      }
    }
  }

  /** A run that leaves a synced row without a route: it is added, and the commit of its
      deletion fails after the proxy has deleted the route. */
  lemma ServiceIsLost(ips: Addresses, vm: int, subdomain: string, port: int)
    requires vm in ips
    ensures var add := Add(1, vm, subdomain, port, true, AddCalls(Done, 0, true, Done), true);
            var t := Run(State(map[], []), ips, [add, Remove(1, Done, 0, false)]);
            && Inv(State(map[], []), ips) && t.rows == map[1 := Row(vm, subdomain, port, true)] && t.routes == []
            && !Inv(t, ips)
  {
    var s := State(map[], []);
    var add := Add(1, vm, subdomain, port, true, AddCalls(Done, 0, true, Done), true);
    var remove := Remove(1, Done, 0, false);
    assert [add, remove][..1] == [add] && [add][..0] == [];
    assert Run(s, ips, []) == s && Run(s, ips, [add]) == Apply(s, ips, add);
    var u := Apply(s, ips, add);
    assert u == State(map[1 := Row(vm, subdomain, port, true)], [NewRoute(subdomain, Target(ips[vm], port))]);
    assert Apply(u, ips, remove).routes == [];
    assert Dispatch([], Domain(subdomain)) == None;
  }

  // ---------------------------------------------------------------------------
  // The endpoints
  // ---------------------------------------------------------------------------

  datatype Response = Success | NoAddress | TooMany | Taken | NotSaved | NotFound | ServerError

  class RouteEndpoints {
    const ips: Addresses
    const caddy: Server
    var rows: Rows
    var nextId: int

    constructor (ips: Addresses, caddy: Server, rows: Rows, nextId: int)
      requires forall i | i in rows :: i < nextId
      ensures this.ips == ips && this.caddy == caddy && this.rows == rows && this.nextId == nextId
    {
      this.ips, this.caddy, this.rows, this.nextId := ips, caddy, rows, nextId;
    }

    ghost function Now(): State
      reads this, caddy
    {
      State(rows, caddy.routes)
    }

    ghost predicate Valid()
      reads this, caddy
    {
      Inv(Now(), ips) && forall i | i in rows :: i < nextId
    }

    /** add_https_route: the row is committed unsynced and stays whatever the proxy says. */
    method AddHttpsRoute(vm: int, subdomain: string, port: int, saved: bool, calls: AddCalls, marked: bool)
      returns (r: Response)
      requires Valid()
      modifies this, caddy
      ensures Valid() && r in {Success, NoAddress, TooMany, Taken, NotSaved, ServerError}
      ensures r.NoAddress? <==> vm !in ips
      ensures r.TooMany? <==> vm in ips && |set i | i in old(rows) && old(rows)[i].vm == vm| >= MAX_HTTPS_ROUTES_PER_VM
      ensures r.Taken? <==>
                !r.NoAddress? && !r.TooMany? && exists i | i in old(rows) :: old(rows)[i].subdomain == subdomain
      ensures r.NotSaved? <==> !r.NoAddress? && !r.TooMany? && !r.Taken? && !saved
      ensures r.ServerError? <==>
                !r.NoAddress? && !r.TooMany? && !r.Taken? && saved && calls.get && calls.patch.Done? && !marked
      ensures Now() == Step(old(Now()), ips, Add(old(nextId), vm, subdomain, port, saved, calls, marked))
      // The row, and where its host goes when it is marked synced.
      ensures r.Success? || r.ServerError? ==>
                var synced := calls.get && calls.patch.Done? && marked;
                && rows == old(rows)[old(nextId) := Row(vm, subdomain, port, synced)]
                && (calls.get && calls.patch.Done? ==>
                      vm in ips && Dispatch(caddy.routes, subdomain + "." + "https.gsmsv.site")
                          == Some(Target(ips[vm], port)))
      ensures !r.Success? && !r.ServerError? ==> rows == old(rows) && caddy.routes == old(caddy.routes)
    {
      if vm !in ips { return NoAddress; }
      if |set i | i in rows && rows[i].vm == vm| >= MAX_HTTPS_ROUTES_PER_VM { return TooMany; }
      if exists i | i in rows :: rows[i].subdomain == subdomain { return Taken; }
      if !saved { return NotSaved; }
      var id := nextId;
      ghost var op := Add(id, vm, subdomain, port, saved, calls, marked);
      SavedIsHarmless(Now(), ips, op);
      ApplyKeepsInv(Now(), ips, op);
      nextId := nextId + 1;
      rows := rows[id := Row(vm, subdomain, port, false)];
      var synced := AddRoute(caddy, subdomain, Target(ips[vm], port), calls);
      r := Success;
      if synced {
        if marked { rows := rows[id := rows[id].(synced := true)]; } else { r := ServerError; }
      }
      assert Now() == Apply(old(Now()), ips, op);
    }

    /** delete_https_route: the row goes whatever the proxy says, if its commit goes through. */
    method DeleteHttpsRoute(vm: int, id: int, call: Call, pick: nat, saved: bool) returns (r: Response)
      requires Valid()
      modifies this`rows, caddy
      ensures r in {Success, NotFound, ServerError} && (r.NotFound? <==> !(id in old(rows) && old(rows)[id].vm == vm))
      ensures !r.NotFound? ==> r.Success? == saved
      ensures r.Success? ==>
                && rows == old(rows) - {id}
                && var copies := Copies(old(caddy.routes), "route-" + old(rows)[id].subdomain);
                   Copies(caddy.routes, "route-" + old(rows)[id].subdomain) ==
                   if call.Effective() && copies > 0 then copies - 1 else copies
      ensures !r.Success? ==> rows == old(rows)
      ensures Now() == if r.NotFound? then old(Now()) else Apply(old(Now()), ips, Remove(id, call, pick, saved))
      ensures Valid() <==> r.NotFound? || Harmless(old(Now()), ips, Remove(id, call, pick, saved))
      ensures !Valid() ==> !saved && old(rows)[id].synced && !call.Refused?
    {
      if id !in rows || rows[id].vm != vm { return NotFound; }
      ApplyKeepsInv(Now(), ips, Remove(id, call, pick, saved));
      var _ := DeleteRoute(caddy, rows[id].subdomain, call, pick);
      if !saved { return ServerError; }
      rows := rows - {id};
      return Success;
    }

    /** What delete_vm does with the routes of the VM; `ids` is the query's answer. The rows go
        with the VM's record, in the commit at the end. */
    method DeleteRoutesOfVm(vm: int, ids: seq<int>, calls: seq<Call>, picks: seq<nat>, saved: bool)
      requires Valid() && Enabled(Now(), ips, DeleteVm(vm, ids, calls, picks, saved))
      modifies this`rows, caddy
      ensures Now() == Apply(old(Now()), ips, DeleteVm(vm, ids, calls, picks, saved))
      ensures saved ==> (forall i :: i in rows <==> i in old(rows) && old(rows)[i].vm != vm)
                        && forall i | i in rows :: rows[i] == old(rows)[i]
      ensures !saved ==> rows == old(rows)
      ensures Valid() <==> saved || forall k | 0 <= k < |ids| ::
                DeletionHarmless(old(Now()), ips, DeleteVm(vm, ids, calls, picks, saved), k)
    {
      ghost var s := Now();
      DeleteVmIsHarmless(s, ips, DeleteVm(vm, ids, calls, picks, saved));
      ApplyKeepsInv(s, ips, DeleteVm(vm, ids, calls, picks, saved));
      for n := 0 to |ids|
        invariant rows == s.rows && nextId == old(nextId)
        invariant caddy.routes == DeleteAll(s, ids[..n], calls[..n], picks[..n]) && Tidy(caddy.routes)
      {
        assert ids[..n + 1][..n] == ids[..n] && calls[..n + 1][..n] == calls[..n] && picks[..n + 1][..n] == picks[..n];
        var _ := DeleteRoute(caddy, rows[ids[n]].subdomain, calls[n], picks[n]);
      }
      assert ids[..|ids|] == ids && calls[..|ids|] == calls && picks[..|ids|] == picks;
      if saved { rows := map i | i in rows && rows[i].vm != vm :: rows[i]; }
    }
  }
}
