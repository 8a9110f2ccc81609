/** The VM quota of ordinary users over runs of the creation queue
    (backend/services/vm_creation_queue.py, backend/services/vm_service.py). */
module QueueQuota {
  import opened Prelude
  import opened CreationQueue

  /** No ordinary user owns more VMs than the quota. */
  ghost predicate QuotaKept(s: State, users: Users) {
    forall u | u in users :: |VmsOf(s, u)| <= MAX_VMS_PER_USER
  }

  /** What a user has and is still to get. */
  function Load(s: State, u: int): nat { |VmsOf(s, u)| + |UncommittedOf(s, u)| }

  /** Nor will they once the jobs already admitted have run. */
  ghost predicate RoomKept(s: State, users: Users) {
    forall u | u in users :: Load(s, u) <= MAX_VMS_PER_USER
  }

  /** The worker's job is a RUNNING one. */
  predicate AtWork(s: State) {
    s.worker.Working? ==> s.worker.id in s.jobs && s.jobs[s.worker.id].status == Running
  }

  lemma StepKeepsQuota(s: State, users: Users, e: Event)
    requires QuotaKept(s, users)
    ensures QuotaKept(Step(s, users, e), users)
  {
    var t := Step(s, users, e);
    forall u | u in users ensures |VmsOf(t, u)| <= MAX_VMS_PER_USER {
      if forall v | v in t.vms :: v in s.vms && t.vms[v] == s.vms[v] {
        SubsetCount(VmsOf(t, u), VmsOf(s, u));
      } else {
        var owner := s.jobs[s.worker.id].user;
        SubsetCount(VmsOf(t, u), VmsOf(s, u) + (if owner == u then {e.vm} else {}));
      }
    }
  }

  /** A deletion gives its owner room for one more VM, and changes nothing for others. */
  lemma DeletionFreesRoom(s: State, users: Users, vm: int)
    requires s.up && vm in s.vms
    ensures var t := Step(s, users, Delete(vm));
            && t == s.(vms := s.vms - {vm}) && |VmsOf(t, s.vms[vm])| == |VmsOf(s, s.vms[vm])| - 1
            && forall u | u != s.vms[vm] :: VmsOf(t, u) == VmsOf(s, u)
  {
    var t := Step(s, users, Delete(vm));
    assert VmsOf(t, s.vms[vm]) == VmsOf(s, s.vms[vm]) - {vm};
  }

  /** Over every run, crashes included, an ordinary user never owns more VMs than allowed. */
  lemma {:induction false} QuotaOverRuns(s: State, users: Users, es: seq<Event>)
    requires QuotaKept(s, users)
    ensures QuotaKept(Run(s, users, es), users)
  {
    if es == [] {
    } else {
      QuotaOverRuns(s, users, es[..|es| - 1]);
      StepKeepsQuota(Run(s, users, es[..|es| - 1]), users, es[|es| - 1]);
    }
  }

  lemma SetsAfterAdmit(s: State, users: Users, e: Event, u: int)
    requires e.Admit? && Enabled(s, users, e)
    ensures VmsOf(Apply(s, users, e), u) == VmsOf(s, u)
    ensures ActiveOf(Apply(s, users, e), u) == ActiveOf(s, u) + (if e.user == u then {e.id} else {})
    ensures UncommittedOf(Apply(s, users, e), u) <= ActiveOf(Apply(s, users, e), u)
    ensures e.user != u ==> UncommittedOf(Apply(s, users, e), u) == UncommittedOf(s, u)
  {
  }

  lemma RoomAfterAdmit(s: State, users: Users, e: Event, u: int)
    requires AtWork(s) && Load(s, u) <= MAX_VMS_PER_USER && e.Admit? && Enabled(s, users, e) && u in users
    ensures Load(Apply(s, users, e), u) <= MAX_VMS_PER_USER
  {
    SetsAfterAdmit(s, users, e, u);
    if e.user == u {
      assert HasRoom(s, users, u);
      SubsetCount(UncommittedOf(Apply(s, users, e), u), ActiveOf(s, u) + {e.id});
    }
  }

  lemma SetsAfterReserve(s: State, users: Users, e: Event, u: int)
    requires AtWork(s) && e.Reserve? && Enabled(s, users, e)
    ensures var t, id := Apply(s, users, e), s.worker.id;
            if t.worker.Idle? then VmsOf(t, u) == VmsOf(s, u) && UncommittedOf(t, u) <= UncommittedOf(s, u)
            else if s.jobs[id].user == u then
              && VmsOf(t, u) == VmsOf(s, u) + {e.vm} && UncommittedOf(t, u) == UncommittedOf(s, u) - {id}
              && id in UncommittedOf(s, u)
            else VmsOf(t, u) == VmsOf(s, u) && UncommittedOf(t, u) == UncommittedOf(s, u)
  {
  }

  lemma RoomAfterReserve(s: State, users: Users, e: Event, u: int)
    requires AtWork(s) && e.Reserve? && Enabled(s, users, e)
    ensures Load(Apply(s, users, e), u) <= Load(s, u)
  {
    SetsAfterReserve(s, users, e, u);
    SubsetCount(UncommittedOf(Apply(s, users, e), u), UncommittedOf(s, u));
  }

  lemma RoomAfterOther(s: State, users: Users, e: Event, u: int)
    requires AtWork(s) && Enabled(s, users, e)
    requires !e.Admit? && !e.Reserve? && !e.Crash?
    ensures Load(Apply(s, users, e), u) <= Load(s, u)
  {
    var t := Apply(s, users, e);
    SetsAfterOther(s, users, e, u);
    SubsetCount(VmsOf(t, u), VmsOf(s, u));
    SubsetCount(UncommittedOf(t, u), UncommittedOf(s, u));
  }

  lemma SetsAfterOther(s: State, users: Users, e: Event, u: int)
    requires AtWork(s) && Enabled(s, users, e)
    requires !e.Admit? && !e.Reserve? && !e.Crash?
    ensures VmsOf(Apply(s, users, e), u) <= VmsOf(s, u)
    ensures UncommittedOf(Apply(s, users, e), u) <= UncommittedOf(s, u)
  {
  }

  /** A crash keeps the room exactly unless it hits a user at the limit between the first
      commit of create_vm and the end of the job: the VM stays, and the job starts over. */
  lemma CrashKeepsRoom(s: State, users: Users)
    requires Inv(s) && RoomKept(s, users)
    ensures RoomKept(Step(s, users, Crash), users) <==>
              !(s.worker.Working? && s.worker.vm.Some? && s.jobs[s.worker.id].user in users
                && Load(s, s.jobs[s.worker.id].user) == MAX_VMS_PER_USER)
  {
    forall u { LoadAfterCrash(s, users, u); }
  }

  lemma LoadAfterCrash(s: State, users: Users, u: int)
    requires AtWork(s)
    ensures Load(Step(s, users, Crash), u) ==
              Load(s, u) + (if s.worker.Working? && s.worker.vm.Some? && s.jobs[s.worker.id].user == u then 1 else 0)
  {
    SetsAfterCrash(s, users, u);
  }

  lemma SetsAfterCrash(s: State, users: Users, u: int)
    requires AtWork(s)
    ensures var t := Step(s, users, Crash);
            && VmsOf(t, u) == VmsOf(s, u)
            && (if s.worker.Working? && s.worker.vm.Some? && s.jobs[s.worker.id].user == u
                then s.worker.id !in UncommittedOf(s, u) && UncommittedOf(t, u) == UncommittedOf(s, u) + {s.worker.id}
                else UncommittedOf(t, u) == UncommittedOf(s, u))
  {
    var t := Step(s, users, Crash);
    assert t.jobs == s.jobs && t.vms == s.vms && t.worker == Dead;
  }

  /** Over every run without crashes, VMs and admitted jobs together stay within the quota. */
  lemma {:induction false} RoomOverRuns(s: State, users: Users, es: seq<Event>)
    requires Inv(s) && RoomKept(s, users) && forall e | e in es :: !e.Crash?
    ensures Inv(Run(s, users, es)) && RoomKept(Run(s, users, es), users)
  {
    RunKeepsInv(s, users, es);
    if es != [] {
      var front, e := es[..|es| - 1], es[|es| - 1];
      var t := Run(s, users, front);
      RoomOverRuns(s, users, front);
      if Enabled(t, users, e) {
        forall u | u in users ensures Load(Apply(t, users, e), u) <= MAX_VMS_PER_USER {
          if e.Admit? { RoomAfterAdmit(t, users, e, u); }
          else if e.Reserve? { RoomAfterReserve(t, users, e, u); }
          else { RoomAfterOther(t, users, e, u); }
        }
      }
    }
  }

  /** So without crashes a job that was admitted is never refused by create_vm's own quota
      check: its reservation goes through. */
  lemma AdmittedIsNotRefused(s: State, users: Users, es: seq<Event>, vm: int, at: int)
    requires Inv(s) && RoomKept(s, users) && forall e | e in es :: !e.Crash?
    requires Enabled(Run(s, users, es), users, Reserve(vm, at))
    ensures var t := Run(s, users, es);
            Step(t, users, Reserve(vm, at)).worker == Working(t.worker.id, Some(vm))
  {
    var t := Run(s, users, es);
    RoomOverRuns(s, users, es);
    var u := t.jobs[t.worker.id].user;
    assert t.worker.id in UncommittedOf(t, u);
    SubsetCount({t.worker.id}, UncommittedOf(t, u));
  }

  // ---------------------------------------------------------------------------
  // What a crash breaks
  // ---------------------------------------------------------------------------

  /** States of a run, one per event: each is the step of the one before. */
  ghost predicate Trace(states: seq<State>, users: Users, es: seq<Event>) {
    |states| == |es| + 1 && forall i | 0 <= i < |es| :: states[i + 1] == Step(states[i], users, es[i])
  }

  lemma {:induction false} TraceEnds(states: seq<State>, users: Users, es: seq<Event>)
    requires Trace(states, users, es)
    ensures Run(states[0], users, es) == states[|es|]
  {
    if es == [] {
    } else {
      TraceEnds(states[..|es|], users, es[..|es| - 1]);
    }
  }

  /** A crash after create_vm's reservation and before the job's final commit makes the job
      start over, and its first VM stays behind. If its owner has reached the quota the job,
      though admitted, is refused; otherwise it gets a second VM. */
  lemma CrashMidJob(s: State, users: Users, rows: seq<Id>, vm: int, at: int)
    requires Inv(s) && s.worker.Working? && s.worker.vm.Some? && vm !in s.vms
    requires IsPending(s.jobs, rows)
    ensures var id, u := s.worker.id, s.jobs[s.worker.id].user;
            var t := Run(s, users, [Crash, Start(rows), Take, Claim(at), Reserve(vm, at)]);
            if u in users && |VmsOf(s, u)| >= MAX_VMS_PER_USER
            then id in t.jobs && t.jobs[id].status == Failed && t.vms == s.vms
            else t.worker == Working(id, Some(vm)) && t.vms == s.vms[vm := u]
  {
    var s1 := Step(s, users, Crash);
    var s2 := Step(s1, users, Start(rows));
    var s3 := Step(s2, users, Take);
    var s4 := Step(s3, users, Claim(at));
    var s5 := Step(s4, users, Reserve(vm, at));
    TraceEnds([s, s1, s2, s3, s4, s5], users, [Crash, Start(rows), Take, Claim(at), Reserve(vm, at)]);
    BackAtWork(s, users, rows, at);
    ReservedOrRefused(s4, users, vm, at);
    assert VmsOf(s4, s.jobs[s.worker.id].user) == VmsOf(s, s.jobs[s.worker.id].user);
  }

  /** A state with two requests of one user and nothing else. */
  function TwoJobs(a: Status, memory: seq<Message>, announcing: Option<Id>, worker: Worker): State {
    var first := if a == Queued then Job(1, 0, a, 0, None, None, None) else Job(1, 0, a, 1, None, Some(2), None);
    var vms := if worker.Working? && worker.vm.Some? then map[worker.vm.value := 1] else map[];
    State(map["a" := first, "b" := Job(1, 1, Queued, 0, None, None, None)], vms, true, memory, announcing, worker,
          false)
  }

  /** From an empty queue to a state in which a crash breaks the room: a USER's two requests are
      admitted, and the first has got as far as its VM. */
  lemma RoomBreakIsReachable()
    ensures var s := State(map[], map[], false, [], None, Dead, false);
            var es := [Start([]), Admit("a", 1, 0), Announce, Admit("b", 1, 1), Announce, Take, Claim(2),
                       Reserve(7, 3)];
            && Inv(s) && RoomKept(s, {1}) && RoomKept(Run(s, {1}, es), {1})
            && !RoomKept(Step(Run(s, {1}, es), {1}, Crash), {1})
  {
    var s := State(map[], map[], false, [], None, Dead, false);
    var es := [Start([]), Admit("a", 1, 0), Announce, Admit("b", 1, 1), Announce, Take, Claim(2), Reserve(7, 3)];
    EmptyRoom(s);
    OneAdmitted(s);
    SecondAdmitted();
    FirstAtWork();
    var s3 := OneJob([Entry("a")], None);
    var s5 := TwoJobs(Queued, [Entry("a"), Entry("b")], None, Idle);
    var t := TwoJobs(Running, [Entry("b")], None, Working("a", Some(7)));
    TraceEnds([s, Step(s, {1}, es[0]), OneJob([], Some("a")), s3, Step(s3, {1}, es[3]), s5, Step(s5, {1}, es[5]),
               TwoJobs(Running, [Entry("b")], None, Working("a", None)), t], {1}, es);
    RoomOverRuns(s, {1}, es);
    LoadAtLimit(t);
    CrashKeepsRoom(t, {1});
  }

  lemma EmptyRoom(s: State)
    requires s.vms == map[] && s.jobs == map[]
    ensures forall u :: VmsOf(s, u) == {} && ActiveOf(s, u) == {} && UncommittedOf(s, u) == {}
  {
  }

  function OneJob(memory: seq<Message>, announcing: Option<Id>): State {
    State(map["a" := Job(1, 0, Queued, 0, None, None, None)], map[], true, memory, announcing, Idle, false)
  }

  lemma OneAdmitted(s: State)
    requires s == State(map[], map[], false, [], None, Dead, false)
    ensures var s1 := Step(s, {1}, Start([]));
            && Step(s1, {1}, Admit("a", 1, 0)) == OneJob([], Some("a"))
            && Step(OneJob([], Some("a")), {1}, Announce) == OneJob([Entry("a")], None)
  {
    var s1 := Step(s, {1}, Start([]));
    assert s1 == State(map[], map[], true, [], None, Idle, false);
    EmptyRoom(s1);
  }

  lemma SecondAdmitted()
    ensures var s3 := OneJob([Entry("a")], None);
            Step(Step(s3, {1}, Admit("b", 1, 1)), {1}, Announce)
            == TwoJobs(Queued, [Entry("a"), Entry("b")], None, Idle)
  {
    var s3 := OneJob([Entry("a")], None);
    assert VmsOf(s3, 1) == {} && ActiveOf(s3, 1) == {"a"};
    assert Enabled(s3, {1}, Admit("b", 1, 1));
    assert [Entry("a")] + [Entry("b")] == [Entry("a"), Entry("b")];
  }

  lemma FirstAtWork()
    ensures var s5 := TwoJobs(Queued, [Entry("a"), Entry("b")], None, Idle);
            var s7 := TwoJobs(Running, [Entry("b")], None, Working("a", None));
            && Step(Step(s5, {1}, Take), {1}, Claim(2)) == s7
            && Step(s7, {1}, Reserve(7, 3)) == TwoJobs(Running, [Entry("b")], None, Working("a", Some(7)))
  {
    var s5 := TwoJobs(Queued, [Entry("a"), Entry("b")], None, Idle);
    var s7 := TwoJobs(Running, [Entry("b")], None, Working("a", None));
    assert Step(s5, {1}, Take) == TwoJobs(Queued, [Entry("b")], None, Holding("a"));
    assert VmsOf(s7, 1) == {};
  }

  lemma LoadAtLimit(t: State)
    requires t == TwoJobs(Running, [Entry("b")], None, Working("a", Some(7)))
    ensures Load(t, 1) == MAX_VMS_PER_USER
  {
    assert VmsOf(t, 1) == {7};
    assert ActiveOf(t, 1) == {"a", "b"};
    assert UncommittedOf(t, 1) == {"b"};
  }

  lemma ReservedOrRefused(s: State, users: Users, vm: int, at: int)
    requires Enabled(s, users, Reserve(vm, at))
    ensures var id, u := s.worker.id, s.jobs[s.worker.id].user;
            var t := Step(s, users, Reserve(vm, at));
            if u in users && |VmsOf(s, u)| >= MAX_VMS_PER_USER
            then id in t.jobs && t.jobs[id].status == Failed && t.vms == s.vms
            else t.worker == Working(id, Some(vm)) && t.vms == s.vms[vm := u]
  {
  }

  lemma BackAtWork(s: State, users: Users, rows: seq<Id>, at: int)
    requires Inv(s) && s.worker.Working?
    requires IsPending(s.jobs, rows)
    ensures var t := Step(Step(Step(Step(s, users, Crash), users, Start(rows)), users, Take), users, Claim(at));
            && t.up && t.worker == Working(s.worker.id, None) && t.vms == s.vms
            && s.worker.id in t.jobs && t.jobs[s.worker.id].user == s.jobs[s.worker.id].user
  {
    AfterRestart(s, users, rows);
    TakenAndClaimed(Step(Step(s, users, Crash), users, Start(rows)), users, s.worker.id, at);
  }

  /** The interrupted job leads the answer to the recovery query. */
  lemma InterruptedIsFirst(s: State, rows: seq<Id>)
    requires Inv(s) && s.worker.Working? && IsPending(s.jobs, rows)
    ensures rows != [] && rows[0] == s.worker.id
  {
    var i :| 0 <= i < |rows| && rows[i] == s.worker.id;
    if i > 0 {
      PendingOrder(s.jobs, rows, i, 0);
    }
  }

  lemma AfterRestart(s: State, users: Users, rows: seq<Id>)
    requires Inv(s) && s.worker.Working?
    requires IsPending(s.jobs, rows)
    ensures var t, id := Step(Step(s, users, Crash), users, Start(rows)), s.worker.id;
            && t.up && t.worker == Idle && t.vms == s.vms && t.memory != [] && t.memory[0] == Entry(id)
            && IsQueued(t.jobs, id) && t.jobs[id].vmid == None && t.jobs[id].user == s.jobs[id].user
  {
    InterruptedIsFirst(s, rows);
    var t := Step(Step(s, users, Crash), users, Start(rows));
    assert t == State(Recovered(s.jobs), s.vms, true, [] + Entries(rows), None, Idle, false);
  }

  lemma TakenAndClaimed(s: State, users: Users, id: Id, at: int)
    requires s.up && s.worker == Idle && s.memory != [] && s.memory[0] == Entry(id)
    requires IsQueued(s.jobs, id) && s.jobs[id].vmid == None
    ensures var t := Step(Step(s, users, Take), users, Claim(at));
            && t.up && t.worker == Working(id, None) && t.vms == s.vms
            && id in t.jobs && t.jobs[id].user == s.jobs[id].user
  {
    var t := Step(s, users, Take);
    assert t.worker == Holding(id) && t.jobs == s.jobs;
  }
}
