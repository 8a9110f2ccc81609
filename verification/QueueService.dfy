/** The queue's operations as the code runs them: enqueue, recovery, the worker's loop. Each
    changes the state by a run of the protocol's steps. */
module QueueService {
  import opened Prelude
  import opened JobIds
  import opened CreationQueue
  import opened QueueGuarantees

  lemma {:induction false} RunAppend(s: State, users: Users, a: seq<Event>, b: seq<Event>)
    ensures Run(s, users, a + b) == Run(Run(s, users, a), users, b)
  {
    if b == [] {
      assert a + b == a;
    } else {
      assert (a + b)[..|a + b| - 1] == a + b[..|b| - 1];
      RunAppend(s, users, a, b[..|b| - 1]);
    }
  }

  lemma RunOne(s: State, users: Users, es: seq<Event>, e: Event)
    ensures Run(s, users, es + [e]) == Step(Run(s, users, es), users, e)
  {
    assert (es + [e])[..|es|] == es;
  }

  /** How create_vm ends for a job: an error before the reservation, one after it, or a VM. */
  datatype Outcome = EarlyError | LateError(cleaned: bool) | VmReady(vmid: int)

  class Service {
    const users: Users
    var jobs: Jobs
    var vms: map<int, int>
    var nextVm: int
    var up: bool
    var memory: seq<Message>
    var announcing: Option<Id>
    var worker: Worker
    var stopping: bool

    ghost function Now(): State
      reads this
    {
      State(jobs, vms, up, memory, announcing, worker, stopping)
    }

    ghost predicate Valid()
      reads this
    {
      Inv(Now()) && forall v | v in vms :: v < nextVm
    }

    /** A fresh process over the rows of the last one. */
    constructor (users: Users, jobs: Jobs, vms: map<int, int>, nextVm: int)
      requires (forall k | k in jobs :: RowInv(jobs[k])) && RunningFirst(jobs) && (forall v | v in vms :: v < nextVm)
      ensures Valid() && Now() == State(jobs, vms, false, [], None, Dead, false) && this.users == users
    {
      this.users, this.jobs, this.vms, this.nextVm := users, jobs, vms, nextVm;
      up, memory, announcing, worker, stopping := false, [], None, Dead, false;
    }

    /** The recovery loop: every row goes into the queue, RUNNING ones back to QUEUED. */
    method Recover(rows: seq<Id>)
      requires IsPending(jobs, rows)
      modifies `jobs, `memory
      ensures jobs == Recovered(old(jobs)) && memory == old(memory) + Entries(rows)
      ensures jobs.Keys == old(jobs).Keys && forall k | k in jobs ::
                jobs[k] == if old(jobs)[k].status == Running
                           then old(jobs)[k].(status := Queued, startedAt := None, attempts := old(jobs)[k].attempts
                                              + 1)
                           else old(jobs)[k]
    {
      ghost var before := jobs;
      for i := 0 to |rows|
        invariant jobs.Keys == before.Keys && memory == old(memory) + Entries(rows[..i])
        invariant forall k | k in jobs :: jobs[k] == if k in rows[..i] then Requeued(before[k]) else before[k]
      {
        var id := rows[i];
        PendingDistinct(before, rows, i);
        if jobs[id].status == Running {
          jobs := jobs[id := jobs[id].(status := Queued, startedAt := None, attempts := jobs[id].attempts + 1)];
        }
        memory := memory + [Entry(id)];
        assert rows[..i + 1] == rows[..i] + [id];
        assert Entries(rows[..i + 1]) == Entries(rows[..i]) + [Entry(id)];
      }
      assert rows[..|rows|] == rows;
    }

    /** start_vm_creation_worker; `rows` is the answer to the recovery query. */
    method Start(rows: seq<Id>)
      requires Valid() && Enabled(Now(), users, Event.Start(rows))
      modifies this
      ensures Valid() && Now() == Step(old(Now()), users, Event.Start(rows))
    {
      StepKeepsInv(Now(), users, Event.Start(rows));
      Recover(rows);
      up, announcing, worker, stopping := true, None, Idle, false;
    }

    method Admit(id: Id, user: int, at: int) returns (ok: bool)
      requires up && announcing == None && id !in jobs
      requires forall k | k in jobs :: Earlier(jobs[k].queuedAt, k, at, id)
      modifies `jobs, `announcing
      ensures ok == HasRoom(old(Now()), users, user) && Now() == Step(old(Now()), users, Event.Admit(id, user, at))
      ensures ok ==> announcing == Some(id) && IsQueued(jobs, id)
      ensures ok <==> (user in users ==>
                         |set v | v in vms && vms[v] == user|
                         + |set k | k in old(jobs) && old(jobs)[k].user == user
                             && old(jobs)[k].status in {Queued, Running}| < 2)
      ensures ok ==> jobs == old(jobs)[id := Job(user, at, Queued, 0, None, None, None)]
    {
      assert (set k | k in jobs && jobs[k].user == user && jobs[k].status.Active())
             == set k | k in jobs && jobs[k].user == user && jobs[k].status in {Queued, Running};
      if user in users && |set v | v in vms && vms[v] == user|
                          + |set k | k in jobs && jobs[k].user == user && jobs[k].status.Active()| >= MAX_VMS_PER_USER {
        return false;
      }
      jobs := jobs[id := Job(user, at, Queued, 0, None, None, None)];
      announcing := Some(id);
      return true;
    }

    method Announce()
      requires up && announcing.Some?
      modifies `memory, `announcing
      ensures Now() == Step(old(Now()), users, Event.Announce)
    {
      memory, announcing := memory + [Entry(announcing.value)], None;
    }

    /** _get_queue_position */
    method GetPosition(id: Id) returns (position: Option<nat>)
      ensures position == Position(Now(), id)
      ensures position.Some? <==> id in jobs && jobs[id].status == Queued
    {
      if id !in jobs || jobs[id].status != Queued { return None; }
      position := Some(|set k | k in jobs && jobs[k].status == Queued && (k == id || Before(jobs, k, id))|);
    }

    /** enqueue_vm_creation: refused for lack of quota, or stored, put into the queue and
        answered with its position, which is the last. */
    method Enqueue(id: Id, user: int, at: int) returns (position: Option<nat>)
      requires Valid() && up && announcing == None && id !in jobs
      requires forall k | k in jobs :: Earlier(jobs[k].queuedAt, k, at, id)
      modifies this
      ensures Valid() && (position.Some? <==> HasRoom(old(Now()), users, user))
      ensures position.None? ==> Now() == old(Now())
      ensures position.Some? ==>
                && Now() == Run(old(Now()), users, [Event.Admit(id, user, at), Event.Announce])
                && position == Position(Now(), id) == Some(|QueuedIds(Now())|)
                && jobs == old(jobs)[id := Job(user, at, Queued, 0, None, None, None)] && vms == old(vms)
                && memory == old(memory) + [Entry(id)]
      ensures position.Some? <==> (user in users ==>
                |set v | v in old(vms) && old(vms)[v] == user|
                + |set k | k in old(jobs) && old(jobs)[k].user == user && old(jobs)[k].status in {Queued, Running}| < 2)
    {
      ghost var s := Now();
      var ok := Admit(id, user, at);
      if !ok { return None; }
      ghost var stored := Now();
      Announce();
      RunOne(s, users, [], Event.Admit(id, user, at));
      RunOne(s, users, [Event.Admit(id, user, at)], Event.Announce);
      assert [Event.Admit(id, user, at)] + [Event.Announce] == [Event.Admit(id, user, at), Event.Announce];
      assert [] + [Event.Admit(id, user, at)] == [Event.Admit(id, user, at)];
      RunKeepsInv(s, users, [Event.Admit(id, user, at), Event.Announce]);
      assert stored == Apply(s, users, Event.Admit(id, user, at)) && jobs == stored.jobs;
      NewestIsLast(s, users, id, user, at);
      position := GetPosition(id);
    }

    method Claim(at: int)
      requires up && worker.Holding?
      modifies `jobs, `worker
      ensures Now() == Step(old(Now()), users, Event.Claim(at))
      ensures worker == Idle || worker == Working(old(worker).id, None)
      ensures IsQueued(old(jobs), old(worker).id) && old(jobs)[old(worker).id].vmid == None ==>
                && worker == Working(old(worker).id, None)
                && jobs == old(jobs)[old(worker).id := old(jobs)[old(worker).id].(status := Running,
                    startedAt := Some(at),
                                                         attempts := old(jobs)[old(worker).id].attempts + 1)]
      ensures !IsQueued(old(jobs), old(worker).id) ==> jobs == old(jobs) && worker == Idle
    {
      var id := worker.id;
      if !(id in jobs && jobs[id].status == Queued) {
        worker := Idle;
        return;
      }
      var job := jobs[id].(status := Running, startedAt := Some(at), attempts := jobs[id].attempts + 1);
      jobs := jobs[id := job];
      if job.vmid.Some? {
        jobs := jobs[id := Finished(job, Completed, job.vmid, at)];
        worker := Idle;
        return;
      }
      worker := Working(id, None);
    }

    /** create_vm up to its reservation; a lack of quota fails the job. */
    method Reserve(at: int) returns (vm: int)
      requires up && worker.Working? && worker.id in jobs && worker.vm == None
      requires forall v | v in vms :: v < nextVm
      modifies `jobs, `vms, `nextVm, `worker
      ensures vm == old(nextVm) && Now() == Step(old(Now()), users, Event.Reserve(vm, at))
      ensures worker == Idle || worker == Working(old(worker).id, Some(vm))
      ensures forall v | v in vms :: v < nextVm
      ensures if AtQuota(old(jobs)[old(worker).id].user, old(vms)) then
                && worker == Idle && vms == old(vms)
                && Ended(old(jobs), jobs, old(worker).id, Failed, old(jobs)[old(worker).id].vmid, at)
              else worker.Working? && jobs == old(jobs) && vms == old(vms)[vm := old(jobs)[old(worker).id].user]
    {
      vm := nextVm;
      nextVm := nextVm + 1;
      var id, user := worker.id, jobs[worker.id].user;
      if user in users && |set v | v in vms && vms[v] == user| >= MAX_VMS_PER_USER {
        jobs := jobs[id := Finished(jobs[id], Failed, jobs[id].vmid, at)];
        worker := Idle;
      } else {
        vms := vms[vm := user];
        worker := Working(id, Some(vm));
      }
    }

    /** The user may not have another VM. */
    predicate AtQuota(user: int, vms: map<int, int>) {
      user in users && |set v | v in vms && vms[v] == user| >= 2
    }

    /** The result is written to the job: COMPLETED with the VMID that create_vm returned, or FAILED. */
    method Record(o: Outcome, at: int)
      requires up && worker.Working? && worker.id in jobs
      requires o.VmReady? ==> worker.vm.Some?
      modifies `jobs, `vms, `worker
      ensures worker == Idle && vms.Keys <= old(vms).Keys
      ensures o.VmReady? ==> Ended(old(jobs), jobs, old(worker).id, Completed, Some(o.vmid), at)
      ensures !o.VmReady? ==> Ended(old(jobs), jobs, old(worker).id, Failed, old(jobs)[old(worker).id].vmid, at)
      ensures o.VmReady? ==> jobs[old(worker).id].status == Completed && jobs[old(worker).id].vmid == Some(o.vmid)
      ensures !o.VmReady? ==> jobs[old(worker).id].status == Failed
      ensures vms == if o == LateError(true) && old(worker).vm.Some? then old(vms) - {old(worker).vm.value}
                else old(vms)
      ensures Now() == Step(old(Now()), users,
                            if o.VmReady? then Event.Succeed(o.vmid, at) else Event.Fail(o == LateError(true), at))
    {
      var id := worker.id;
      if o.VmReady? {
        jobs := jobs[id := Finished(jobs[id], Completed, Some(o.vmid), at)];
      } else {
        if o == LateError(true) && worker.vm.Some? { vms := vms - {worker.vm.value}; }
        jobs := jobs[id := Finished(jobs[id], Failed, jobs[id].vmid, at)];
      }
      worker := Idle;
    }

    /** The part of process_vm_creation_job after a claim: create_vm, and the job's last commit. */
    method Create(o: Outcome, at: int) returns (ghost es: seq<Event>)
      requires Valid() && up && worker.Working? && worker.vm == None
      modifies `jobs, `vms, `nextVm, `worker
      ensures Valid() && worker == Idle
      ensures Now() == Run(old(Now()), users, es) && forall e | e in es :: !e.Crash? && !e.Start?
      ensures Created(old(Now()), Now(), old(nextVm), o, at)
    {
      RunningHasNoVm(Now());
      ghost var s := Now();
      es := CreateAndRecord(o, at);
      RunKeepsInv(s, users, es);
    }

    /** COMPLETED with the VMID if create_vm returned one, FAILED without in every other case. */
    ghost predicate Created(s: State, t: State, vm: int, o: Outcome, at: int)
      requires s.worker.Working? && s.worker.id in s.jobs
    {
      var id, user := s.worker.id, s.jobs[s.worker.id].user;
      if o.VmReady? && !AtQuota(user, s.vms) then
        Ended(s.jobs, t.jobs, id, Completed, Some(o.vmid), at) && t.vms == s.vms[vm := user]
      else
        && Ended(s.jobs, t.jobs, id, Failed, None, at)
        && t.vms == if o == LateError(false) && !AtQuota(user, s.vms) then s.vms[vm := user] else s.vms
    }

    method CreateAndRecord(o: Outcome, at: int) returns (ghost es: seq<Event>)
      requires up && worker.Working? && worker.vm == None && worker.id in jobs && jobs[worker.id].vmid == None
      requires forall v | v in vms :: v < nextVm
      modifies `jobs, `vms, `nextVm, `worker
      ensures worker == Idle && forall v | v in vms :: v < nextVm
      ensures Now() == Run(old(Now()), users, es) && forall e | e in es :: !e.Crash? && !e.Start?
      ensures Created(old(Now()), Now(), old(nextVm), o, at)
    {
      ghost var s := Now();
      es := [];
      if !o.EarlyError? {
        var vm := Reserve(at);
        RunOne(s, users, es, Event.Reserve(vm, at));
        es := es + [Event.Reserve(vm, at)];
        if worker.Idle? { return; }
        assert vms - {vm} == s.vms;
      }
      ghost var last := if o.VmReady? then Event.Succeed(o.vmid, at) else Event.Fail(o == LateError(true), at);
      RunOne(s, users, es, last);
      es := es + [last];
      Record(o, at);
    }

    /** process_vm_creation_job for the id in the worker's hand. */
    method Process(o: Outcome, at: int) returns (ghost es: seq<Event>)
      requires Valid() && up && worker.Holding?
      modifies `jobs, `vms, `nextVm, `worker
      ensures Valid() && worker == Idle
      ensures Now() == Run(old(Now()), users, es) && forall e | e in es :: !e.Crash? && !e.Start?
      // A QUEUED job gets the result of its creation, and only that job changes; any other id is passed over.
      ensures !IsQueued(old(jobs), old(worker).id) ==> jobs == old(jobs) && vms == old(vms)
      ensures var id := old(worker).id; IsQueued(old(jobs), id) ==>
                var completes := o.VmReady? && !AtQuota(old(jobs)[id].user, old(vms));
                && id in jobs && jobs[id].status == (if completes then Completed else Failed)
                && jobs[id].vmid == (if completes then Some(o.vmid) else None)
                && jobs[id].startedAt == Some(at) && jobs[id].finishedAt == Some(at)
                && jobs[id].attempts == old(jobs)[id].attempts + 1
                && jobs.Keys == old(jobs).Keys && forall k | k in jobs && k != id :: jobs[k] == old(jobs)[k]
    {
      ghost var s := Now();
      RunOne(s, users, [], Event.Claim(at));
      es := [] + [Event.Claim(at)];
      RunKeepsInv(s, users, es);
      Claim(at);
      if worker.Working? {
        ghost var more := Create(o, at);
        RunAppend(s, users, es, more);
        es := es + more;
      }
    }

    /** stop_vm_creation_worker: the flag, and a sentinel behind everything else. */
    method Stop()
      requires Inv(Now()) && up && !worker.Dead?
      modifies `stopping, `memory
      ensures Inv(Now()) && Now() == Step(old(Now()), users, Event.Stop)
      ensures stopping && memory == old(memory) + [Sentinel]
    {
      ghost var s := Now();
      StepKeepsInv(s, users, Event.Stop);
      stopping, memory := true, memory + [Sentinel];
      assert Now() == Step(s, users, Event.Stop);
    }

    /** queue.get, and what the worker does with a sentinel. */
    method TakeHead()
      requires up && worker == Idle && memory != []
      modifies `memory, `worker
      ensures Now() == Step(old(Now()), users, Take) && memory == old(memory)[1..]
      ensures worker == match old(memory)[0] case Entry(id) => Holding(id) case Sentinel => Dead
    {
      worker := match memory[0] case Entry(id) => Holding(id) case Sentinel => Dead;
      memory := memory[1..];
    }

    /** One turn of the worker's loop with something in the queue. */
    method Turn(o: Outcome, at: int) returns (ghost es: seq<Event>)
      requires Valid() && up && worker == Idle && memory != []
      modifies `jobs, `vms, `nextVm, `worker, `memory
      ensures Valid() && (worker == Idle || (worker == Dead && old(memory)[0] == Sentinel))
      ensures memory == old(memory)[1..]
      ensures Now() == Run(old(Now()), users, es) && forall e | e in es :: !e.Crash? && !e.Start?
      ensures old(memory)[0] == Sentinel ==> jobs == old(jobs) && vms == old(vms) && worker == Dead
      ensures old(memory)[0].Entry? ==>
                var id := old(memory)[0].id;
                && (!IsQueued(old(jobs), id) ==> jobs == old(jobs))
                && (IsQueued(old(jobs), id) ==>
                      var completes := o.VmReady? && !AtQuota(old(jobs)[id].user, old(vms));
                      && id in jobs && jobs[id].status == (if completes then Completed else Failed)
                      && jobs[id].vmid == (if completes then Some(o.vmid) else None))
    {
      ghost var s := Now();
      RunOne(s, users, [], Take);
      es := [] + [Take];
      TakeHead();
      RunKeepsInv(s, users, es);
      if worker.Holding? {
        ghost var more := Process(o, at);
        RunAppend(s, users, es, more);
        es := es + more;
      }
    }

    /** _worker_loop, left alone until the queue is empty, the sentinel comes, or the stop flag
        is set. `outcomes` says how each creation ends. */
    method WorkerLoop(outcomes: nat -> Outcome, at: int) returns (ghost es: seq<Event>)
      requires Valid() && up && worker == Idle
      modifies `jobs, `vms, `nextVm, `worker, `memory
      ensures Valid() && (worker == Idle || worker == Dead)
      ensures Now() == Run(old(Now()), users, es) && forall e | e in es :: !e.Crash? && !e.Start?
      ensures worker == Dead ==> stopping || Sentinel in old(memory)
      // Left alone, the worker finishes every job there is.
      ensures worker == Idle && announcing == None ==> forall k | k in jobs :: !jobs[k].status.Active()
    {
      ghost var s := Now();
      es := [];
      var n := 0;
      while memory != [] && worker == Idle && !stopping
        invariant Valid() && (worker == Idle || (worker == Dead && Sentinel in old(memory)))
        invariant n <= |old(memory)| && memory == old(memory)[n..]
        invariant Now() == Run(s, users, es) && forall e | e in es :: !e.Crash? && !e.Start?
        decreases |memory|
      {
        ghost var more := Turn(outcomes(n), at);
        RunAppend(s, users, es, more);
        es := es + more;
        n := n + 1;
      }
      if worker == Idle && stopping {
        RunOne(s, users, es, Exit);
        es := es + [Exit];
        worker := Dead;
        RunKeepsInv(s, users, es);
      }
      if worker == Idle && announcing == None { EmptyLineMeansDone(Now()); }
    }
  }

  /** The job has ended so, and no other row has changed. */
  ghost predicate Ended(before: Jobs, after: Jobs, id: Id, status: Status, vmid: Option<int>, at: int) {
    && id in before && after.Keys == before.Keys && (forall k | k in before && k != id :: after[k] == before[k])
    && after[id].status == status && after[id].vmid == vmid && after[id].finishedAt == Some(at)
    && after[id].user == before[id].user && after[id].queuedAt == before[id].queuedAt
    && after[id].attempts == before[id].attempts && after[id].startedAt == before[id].startedAt
  }

  lemma RunningHasNoVm(s: State)
    requires Inv(s) && s.up && s.worker.Working?
    ensures s.worker.id in s.jobs && s.jobs[s.worker.id].vmid == None
  {
    assert RowInv(s.jobs[s.worker.id]);
  }

  /** Over every run: once create_vm's result is committed, the job is COMPLETED with its VMID for
      good, and once an error is, it is FAILED for good. */
  lemma ResultIsFinal(s: State, users: Users, e: Event, es: seq<Event>)
    requires Inv(s) && Enabled(s, users, e) && (e.Succeed? || e.Fail?)
    ensures var t, id := Run(Step(s, users, e), users, es), s.worker.id;
            && id in t.jobs && t.jobs[id].status == (if e.Succeed? then Completed else Failed)
            && t.jobs[id].vmid == (if e.Succeed? then Some(e.vmid) else None)
            && t.jobs[id].finishedAt == Some(e.at) && t.jobs[id].user == s.jobs[id].user
  {
    RunningHasNoVm(s);
    StepKeepsInv(s, users, e);
    FinishedForGood(Step(s, users, e), users, es, s.worker.id);
  }

  /** With nothing in line and the worker idle, no job is unfinished. */
  lemma EmptyLineMeansDone(s: State)
    requires Inv(s) && s.up && s.worker.Idle? && s.memory == [] && s.announcing == None
    ensures forall k | k in s.jobs :: !s.jobs[k].status.Active()
  {
    assert Line(s) == [];
  }

  /** A new request comes after all others. */
  lemma NewestIsLast(s: State, users: Users, id: Id, user: int, at: int)
    requires Enabled(s, users, Event.Admit(id, user, at))
    ensures Position(Apply(s, users, Event.Admit(id, user, at)), id)
              == Some(|QueuedIds(Apply(s, users, Event.Admit(id, user, at)))|)
  {
    var t := Apply(s, users, Event.Admit(id, user, at));
    assert QueuedIds(t) == set k | k in t.jobs && t.jobs[k].status == Queued && (k == id || Before(t.jobs, k, id));
  }

  lemma PendingDistinct(jobs: Jobs, rows: seq<Id>, i: nat)
    requires IsPending(jobs, rows) && i < |rows|
    ensures rows[i] !in rows[..i]
  {
    LessIrreflexive(rows[i]);
  }
}
