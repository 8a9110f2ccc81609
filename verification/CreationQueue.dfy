/** The durable queue of creation jobs: rows in the database, ids in memory, one worker
    (backend/services/vm_creation_queue.py). The events of this module are the atomic steps
    of the endpoint, the worker thread, start-up, shutdown and crashes, in any interleaving. */
module CreationQueue {
  import opened Prelude
  import opened JobIds

  type Id = string
  type Users = set<int>  // the users whose role is USER, to whom the quota applies

  datatype Status = Queued | Running | Completed | Failed {
    predicate Active() { Queued? || Running? }
  }

  /** A row of vm_creation_jobs. */
  datatype Job = Job(user: int, queuedAt: int, status: Status, attempts: nat, vmid: Option<int>,
                     startedAt: Option<int>, finishedAt: Option<int>)

  type Jobs = map<Id, Job>

  datatype Message = Entry(id: Id) | Sentinel

  /** The worker thread: not running, waiting, holding an id it took, or inside create_vm,
      with the VM row it has reserved, if any. */
  datatype Worker = Dead | Idle | Holding(id: Id) | Working(id: Id, vm: Option<int>)

  /** `jobs` and `vms` (VM row to owner) are durable, the rest belongs to the process.
      `announcing` is an id whose row is committed but which is not in memory yet. */
  datatype State = State(jobs: Jobs, vms: map<int, int>, up: bool, memory: seq<Message>,
                         announcing: Option<Id>, worker: Worker, stopping: bool)

  datatype Event =
    | Admit(id: Id, user: int, at: int)   // validation and the commit of the new row
    | Announce                            // put(job.id)
    | Take                                // the worker gets the head of the queue
    | Claim(at: int)                      // the compare-and-set from QUEUED to RUNNING
    | Reserve(vm: int, at: int)           // create_vm's quota check and first commit
    | Succeed(vmid: int, at: int)         // the job's final commit, even if the VM is deleted by then
    | Fail(cleaned: bool, at: int)        // create_vm raised; was the VM's row removed?
    | Delete(vm: int)                     // a VM is deleted by its owner or by expiry
    | Crash                               // the process ends; memory and threads are gone
    | Start(rows: seq<Id>)                // recovery with the query's answer, then a new worker
    | Stop                                // the stop flag and the sentinel
    | Exit                                // the worker notices the stop flag

  // ---------------------------------------------------------------------------
  // Queries
  // ---------------------------------------------------------------------------

  /** The order (queued_at, id). */
  predicate Earlier(atA: int, a: Id, atB: int, b: Id) {
    atA < atB || (atA == atB && Less(a, b))
  }

  predicate Before(jobs: Jobs, a: Id, b: Id)
    requires a in jobs && b in jobs
  {
    Earlier(jobs[a].queuedAt, a, jobs[b].queuedAt, b)
  }

  predicate IsQueued(jobs: Jobs, id: Id) { id in jobs && jobs[id].status == Queued }

  function VmsOf(s: State, user: int): set<int> { set v | v in s.vms && s.vms[v] == user }

  function ActiveOf(s: State, user: int): set<Id> {
    set id | id in s.jobs && s.jobs[id].user == user && s.jobs[id].status.Active()
  }

  /** Active jobs of the user whose VM is not committed. */
  function UncommittedOf(s: State, user: int): set<Id> {
    ActiveOf(s, user) - (if s.worker.Working? && s.worker.vm.Some? then {s.worker.id} else {})
  }

  /** `rows` answers the recovery query: every active job once, in (queued_at, id) order. */
  predicate IsPending(jobs: Jobs, rows: seq<Id>) {
    && (forall id | id in rows :: id in jobs && jobs[id].status.Active())
    && (forall id | id in jobs && jobs[id].status.Active() :: id in rows)
    && (forall i, j | 0 <= i < j < |rows| :: Before(jobs, rows[i], rows[j]))
  }

  // ---------------------------------------------------------------------------
  // Steps
  // ---------------------------------------------------------------------------

  function Requeued(job: Job): Job {
    if job.status == Running then job.(status := Queued, startedAt := None, attempts := job.attempts + 1) else job
  }

  function Recovered(jobs: Jobs): Jobs { map id | id in jobs :: Requeued(jobs[id]) }

  function Entries(rows: seq<Id>): seq<Message> { seq(|rows|, i requires 0 <= i < |rows| => Entry(rows[i])) }

  function Finished(job: Job, status: Status, vmid: Option<int>, at: int): Job {
    job.(status := status, vmid := vmid, finishedAt := Some(at))
  }

  /** The quota leaves room for one more request. */
  predicate HasRoom(s: State, users: Users, user: int) {
    user in users ==> |VmsOf(s, user)| + |ActiveOf(s, user)| < MAX_VMS_PER_USER
  }

  /** Can the event happen? New ids and times come after all earlier ones, because the clock
      does not go back. Only one endpoint runs at a time, so one id is announced at a time. */
  predicate Enabled(s: State, users: Users, e: Event) {
    match e
    case Admit(id, user, at) =>
      && s.up && s.announcing == None && id !in s.jobs && HasRoom(s, users, user)
      && forall k | k in s.jobs :: Earlier(s.jobs[k].queuedAt, k, at, id)
    case Announce => s.up && s.announcing.Some?
    case Take => s.up && s.worker.Idle? && s.memory != []
    case Claim(_) => s.up && s.worker.Holding?
    case Reserve(vm, _) => s.up && s.worker.Working? && s.worker.id in s.jobs && s.worker.vm == None && vm !in s.vms
    case Succeed(_, _) => s.up && s.worker.Working? && s.worker.id in s.jobs && s.worker.vm.Some?
    case Fail(_, _) => s.up && s.worker.Working? && s.worker.id in s.jobs
    case Delete(vm) => s.up && vm in s.vms
    case Crash => true
    case Start(rows) => s.worker.Dead? && s.announcing == None && IsPending(s.jobs, rows)
    case Stop => s.up && !s.worker.Dead?
    case Exit => s.up && s.worker.Idle? && s.stopping
  }

  function Apply(s: State, users: Users, e: Event): State
    requires Enabled(s, users, e)
  {
    match e
    case Admit(id, user, at) =>
      s.(jobs := s.jobs[id := Job(user, at, Queued, 0, None, None, None)], announcing := Some(id))
    case Announce => s.(memory := s.memory + [Entry(s.announcing.value)], announcing := None)
    case Take =>
      s.(memory := s.memory[1..], worker := match s.memory[0] case Entry(id) => Holding(id) case Sentinel => Dead)
    case Claim(at) =>
      var id := s.worker.id;
      if !IsQueued(s.jobs, id) then s.(worker := Idle)
      else
        var job := s.jobs[id].(status := Running, startedAt := Some(at), attempts := s.jobs[id].attempts + 1);
        if job.vmid.Some? then s.(jobs := s.jobs[id := Finished(job, Completed, job.vmid, at)], worker := Idle)
        else s.(jobs := s.jobs[id := job], worker := Working(id, None))
    case Reserve(vm, at) =>
      var id := s.worker.id;
      var user := s.jobs[id].user;
      if user in users && |VmsOf(s, user)| >= MAX_VMS_PER_USER
      then s.(jobs := s.jobs[id := Finished(s.jobs[id], Failed, s.jobs[id].vmid, at)], worker := Idle)
      else s.(vms := s.vms[vm := user], worker := Working(id, Some(vm)))
    case Succeed(vmid, at) =>
      s.(jobs := s.jobs[s.worker.id := Finished(s.jobs[s.worker.id], Completed, Some(vmid), at)], worker := Idle)
    case Fail(cleaned, at) =>
      s.(jobs := s.jobs[s.worker.id := Finished(s.jobs[s.worker.id], Failed, s.jobs[s.worker.id].vmid, at)],
         vms := if cleaned && s.worker.vm.Some? then s.vms - {s.worker.vm.value} else s.vms,
         worker := Idle)
    case Delete(vm) => s.(vms := s.vms - {vm})
    case Crash => State(s.jobs, s.vms, false, [], None, Dead, false)
    case Start(rows) => State(Recovered(s.jobs), s.vms, true, s.memory + Entries(rows), None, Idle, false)
    case Stop => s.(stopping := true, memory := s.memory + [Sentinel])
    case Exit => s.(worker := Dead)
  }

  /** An event that cannot happen changes nothing. */
  function Step(s: State, users: Users, e: Event): State {
    if Enabled(s, users, e) then Apply(s, users, e) else s
  }

  function Run(s: State, users: Users, es: seq<Event>): State {
    if es == [] then s else Step(Run(s, users, es[..|es| - 1]), users, es[|es| - 1])
  }

  /** The id a step claims, if it does. */
  function Claimed(s: State, users: Users, e: Event): seq<Id> {
    if e.Claim? && Enabled(s, users, e) && IsQueued(s.jobs, s.worker.id) then [s.worker.id] else []
  }

  /** The ids claimed during a run, in order. */
  function Claims(s: State, users: Users, es: seq<Event>): seq<Id> {
    if es == [] then []
    else Claims(s, users, es[..|es| - 1]) + Claimed(Run(s, users, es[..|es| - 1]), users, es[|es| - 1])
  }

  // ---------------------------------------------------------------------------
  // Invariant
  // ---------------------------------------------------------------------------

  /** Everything on its way to the worker: the id in its hand, the queue, the id being put. */
  function Line(s: State): seq<Message> {
    (if s.worker.Holding? then [Entry(s.worker.id)] else [])
    + s.memory
    + (if s.announcing.Some? then [Entry(s.announcing.value)] else [])
  }

  /** Ids in line are jobs. */
  ghost predicate KnownIds(jobs: Jobs, line: seq<Message>) {
    forall m | m in line && m.Entry? :: m.id in jobs
  }

  /** Every QUEUED job is in line. */
  ghost predicate AllInLine(jobs: Jobs, line: seq<Message>) {
    forall k | k in jobs && jobs[k].status == Queued :: Entry(k) in line
  }

  /** Wherever a QUEUED job stands in line, earlier QUEUED jobs stand in front of it. */
  ghost predicate InOrder(jobs: Jobs, line: seq<Message>) {
    forall i, k | 0 <= i < |line| && line[i].Entry? && IsQueued(jobs, line[i].id) && IsQueued(jobs, k) ::
      Before(jobs, k, line[i].id) ==> Entry(k) in line[..i]
  }

  /** The line and the rows of a running process fit together. */
  ghost predicate LineInv(jobs: Jobs, line: seq<Message>) {
    KnownIds(jobs, line) && AllInLine(jobs, line) && InOrder(jobs, line)
  }

  /** In a running process, RUNNING is the status of the job the worker is at. */
  ghost predicate WorkerInv(s: State) {
    && (s.worker.Working? ==> s.worker.id in s.jobs && s.jobs[s.worker.id].status == Running)
    && (forall k | k in s.jobs && s.jobs[k].status == Running :: s.worker.Working? && s.worker.id == k)
  }

  /** What each row says at all times, crashes included. */
  ghost predicate RowInv(job: Job) {
    && (job.attempts % 2 == 0 <==> job.status == Queued)
    && (job.vmid.Some? ==> job.status == Completed)
    && (job.startedAt.Some? <==> job.status != Queued)
    && (job.finishedAt.Some? <==> !job.status.Active())
  }

  /** A RUNNING job comes before every other unfinished one, also in the rows a crash leaves. */
  ghost predicate RunningFirst(jobs: Jobs) {
    forall r, k | r in jobs && k in jobs && r != k && jobs[r].status == Running && jobs[k].status.Active() ::
      Before(jobs, r, k)
  }

  ghost predicate Inv(s: State) {
    && (forall k | k in s.jobs :: RowInv(s.jobs[k]))
    && RunningFirst(s.jobs)
    && (s.up ==> LineInv(s.jobs, Line(s)) && WorkerInv(s))
    && (!s.up ==> s.memory == [] && s.announcing == None && s.worker.Dead?)
  }

  // ---------------------------------------------------------------------------
  // The invariant holds in every reachable state
  // ---------------------------------------------------------------------------

  /** No job becomes QUEUED, and the line stays or loses a head nobody waits for. */
  lemma LineKept(jobs: Jobs, line: seq<Message>, jobs': Jobs, line': seq<Message>)
    requires LineInv(jobs, line)
    requires forall k | k in jobs :: k in jobs'
    requires forall k | IsQueued(jobs', k) :: IsQueued(jobs, k) && jobs'[k].queuedAt == jobs[k].queuedAt
    requires || line' == line
             || (line != [] && line' == line[1..] && (line[0].Entry? ==> !IsQueued(jobs', line[0].id)))
    ensures LineInv(jobs', line')
  {
    if line' != line {
      assert line == [line[0]] + line';
      forall i, k | 0 <= i < |line'| && line'[i].Entry? && IsQueued(jobs', line'[i].id) && IsQueued(jobs', k)
        ensures Before(jobs', k, line'[i].id) ==> Entry(k) in line'[..i]
      {
        assert line'[i] == line[i + 1] && line[..i + 1] == [line[0]] + line'[..i];
      }
    }
  }

  lemma SentinelAdded(jobs: Jobs, a: seq<Message>, b: seq<Message>)
    requires LineInv(jobs, a + b)
    ensures LineInv(jobs, a + [Sentinel] + b)
  {
    var l, m := a + b, a + [Sentinel] + b;
    forall x | x in l ensures x in m {
      assert x in a || x in b;
    }
    forall i, k | 0 <= i < |m| && m[i].Entry? && IsQueued(jobs, m[i].id) && IsQueued(jobs, k)
      ensures Before(jobs, k, m[i].id) ==> Entry(k) in m[..i]
    {
      var j := if i < |a| then i else i - 1;
      assert l[j] == m[i];
      assert forall x | x in l[..j] :: x in m[..i] by {
        forall x | x in l[..j] ensures x in m[..i] {
          var n :| 0 <= n < j && l[n] == x;
          assert m[if n < |a| then n else n + 1] == x;
        }
      }
    }
  }

  lemma NewestAdded(jobs: Jobs, line: seq<Message>, id: Id, job: Job)
    requires LineInv(jobs, line) && id !in jobs && job.status == Queued
    requires forall k | k in jobs :: Earlier(jobs[k].queuedAt, k, job.queuedAt, id)
    ensures LineInv(jobs[id := job], line + [Entry(id)])
  {
    var jobs', line' := jobs[id := job], line + [Entry(id)];
    forall i, k | 0 <= i < |line'| && line'[i].Entry? && IsQueued(jobs', line'[i].id) && IsQueued(jobs', k)
      ensures Before(jobs', k, line'[i].id) ==> Entry(k) in line'[..i]
    {
      if i < |line| {
        assert line'[i] == line[i] && line[i] in line && line'[..i] == line[..i];
        if k == id { EarlierAsymmetric(job.queuedAt, id, jobs[line[i].id].queuedAt, line[i].id); }
      } else {
        assert line'[..i] == line;
        if k == id { LessIrreflexive(id); }
      }
    }
  }

  lemma EarlierAsymmetric(atA: int, a: Id, atB: int, b: Id)
    requires Earlier(atB, b, atA, a)
    ensures !Earlier(atA, a, atB, b)
  {
    if Less(a, b) && Less(b, a) {
      LessTransitive(a, b, a);
      LessIrreflexive(a);
    }
  }

  lemma EarlierTotal(atA: int, a: Id, atB: int, b: Id)
    requires a != b
    ensures Earlier(atA, a, atB, b) || Earlier(atB, b, atA, a)
  {
    LessTotal(a, b);
  }

  lemma EarlierTransitive(atA: int, a: Id, atB: int, b: Id, atC: int, c: Id)
    requires Earlier(atA, a, atB, b) && Earlier(atB, b, atC, c)
    ensures Earlier(atA, a, atC, c)
  {
    if atA == atB == atC { LessTransitive(a, b, c); }
  }

  /** Recovery: nothing is in front but ids that were already in order. */
  lemma PendingAdded(jobs: Jobs, line: seq<Message>, rows: seq<Id>)
    requires IsPending(jobs, rows)
    requires KnownIds(jobs, line) && InOrder(jobs, line)
    requires forall k | k in jobs && jobs[k].status == Running :: line == []
    ensures LineInv(Recovered(jobs), line + Entries(rows))
  {
    PendingInLine(jobs, line, rows);
    PendingInOrder(jobs, line, rows);
  }

  lemma PendingInLine(jobs: Jobs, line: seq<Message>, rows: seq<Id>)
    requires IsPending(jobs, rows) && KnownIds(jobs, line)
    ensures KnownIds(Recovered(jobs), line + Entries(rows)) && AllInLine(Recovered(jobs), line + Entries(rows))
  {
    forall k | k in jobs && jobs[k].status.Active() ensures Entry(k) in line + Entries(rows) {
      var j :| 0 <= j < |rows| && rows[j] == k;
      assert Entries(rows)[j] == Entry(k);
    }
  }

  lemma PendingInOrder(jobs: Jobs, line: seq<Message>, rows: seq<Id>)
    requires IsPending(jobs, rows) && InOrder(jobs, line)
    requires forall k | k in jobs && jobs[k].status == Running :: line == []
    ensures InOrder(Recovered(jobs), line + Entries(rows))
  {
    var jobs', line' := Recovered(jobs), line + Entries(rows);
    forall i, k | 0 <= i < |line'| && line'[i].Entry? && IsQueued(jobs', line'[i].id) && IsQueued(jobs', k)
                  && Before(jobs', k, line'[i].id)
      ensures Entry(k) in line'[..i]
    {
      if i < |line| {
        assert line'[i] == line[i] && line'[..i] == line[..i];
        assert IsQueued(jobs, line[i].id) && IsQueued(jobs, k);
      } else {
        assert line'[i] == Entry(rows[i - |line|]);
        PendingInFront(jobs, line, rows, i - |line|, k);
      }
    }
  }

  lemma PendingInFront(jobs: Jobs, line: seq<Message>, rows: seq<Id>, i: nat, k: Id)
    requires IsPending(jobs, rows) && i < |rows|
    requires k in jobs && jobs[k].status.Active() && Before(jobs, k, rows[i])
    ensures Entry(k) in (line + Entries(rows))[..|line| + i]
  {
    var j :| 0 <= j < |rows| && rows[j] == k;
    PendingOrder(jobs, rows, j, i);
    assert (line + Entries(rows))[..|line| + i][|line| + j] == Entry(k);
  }

  lemma PendingOrder(jobs: Jobs, rows: seq<Id>, i: nat, j: nat)
    requires IsPending(jobs, rows) && i < |rows| && j < |rows| && Before(jobs, rows[i], rows[j])
    ensures i < j
  {
    if i == j { LessIrreflexive(rows[i]); }
    if j < i { EarlierAsymmetric(jobs[rows[i]].queuedAt, rows[i], jobs[rows[j]].queuedAt, rows[j]); }
  }

  lemma LineClaim(s: State, users: Users, e: Event)
    requires Enabled(s, users, e) && Inv(s) && e.Claim?
    ensures LineInv(Apply(s, users, e).jobs, Line(Apply(s, users, e)))
  {
    var t := Apply(s, users, e);
    assert Line(s)[0] == Entry(s.worker.id);
    assert Line(t) == Line(s)[1..];
    LineKept(s.jobs, Line(s), t.jobs, Line(t));
  }

  /** While create_vm runs, its job only moves between RUNNING and the final statuses. */
  lemma LineCreate(s: State, users: Users, e: Event)
    requires Enabled(s, users, e) && Inv(s) && (e.Reserve? || e.Succeed? || e.Fail? || e.Delete? || e.Exit?)
    ensures LineInv(Apply(s, users, e).jobs, Line(Apply(s, users, e)))
  {
    var t := Apply(s, users, e);
    assert Line(t) == Line(s);
    assert forall k | IsQueued(t.jobs, k) :: IsQueued(s.jobs, k) && t.jobs[k] == s.jobs[k];
    LineKept(s.jobs, Line(s), t.jobs, Line(t));
  }

  lemma LineQueue(s: State, users: Users, e: Event)
    requires Enabled(s, users, e) && Inv(s) && (e.Admit? || e.Announce? || e.Take?)
    ensures LineInv(Apply(s, users, e).jobs, Line(Apply(s, users, e)))
  {
    var t := Apply(s, users, e);
    match e
    case Admit(id, user, at) =>
      assert Line(t) == Line(s) + [Entry(id)];
      NewestAdded(s.jobs, Line(s), id, t.jobs[id]);
    case Announce =>
      assert Line(t) == Line(s);
    case Take =>
      assert s.memory == [s.memory[0]] + s.memory[1..];
      assert Line(t) == Line(s) || (Line(t) == Line(s)[1..] && Line(s)[0] == Sentinel);
      LineKept(s.jobs, Line(s), t.jobs, Line(t));
  }

  lemma LineStart(s: State, users: Users, e: Event)
    requires Enabled(s, users, e) && Inv(s) && e.Start?
    ensures LineInv(Apply(s, users, e).jobs, Line(Apply(s, users, e)))
  {
    if s.up { assert Line(s) == s.memory; }
    PendingAdded(s.jobs, s.memory, e.rows);
    assert Line(Apply(s, users, e)) == s.memory + Entries(e.rows);
  }

  lemma LineStop(s: State, users: Users, e: Event)
    requires Enabled(s, users, e) && Inv(s) && e.Stop?
    ensures LineInv(Apply(s, users, e).jobs, Line(Apply(s, users, e)))
  {
    var a := (if s.worker.Holding? then [Entry(s.worker.id)] else []) + s.memory;
    var b := if s.announcing.Some? then [Entry(s.announcing.value)] else [];
    assert Line(s) == a + b && Line(Apply(s, users, e)) == a + [Sentinel] + b;
    SentinelAdded(s.jobs, a, b);
  }

  /** Rows keep their internal consistency, and RUNNING its meaning. */
  lemma RowsKept(s: State, t: State, id: Id)
    requires Inv(s) && s.up && id in t.jobs && RowInv(t.jobs[id]) && t.jobs.Keys == s.jobs.Keys + {id}
    requires forall k | k in s.jobs && k != id :: t.jobs[k] == s.jobs[k] && s.jobs[k].status != Running
    requires t.worker.Working? ==> t.worker.id == id
    requires t.worker.Working? <==> t.jobs[id].status == Running
    ensures WorkerInv(t) && forall k | k in t.jobs :: RowInv(t.jobs[k])
  {
  }

  lemma RowsClaim(s: State, users: Users, e: Event)
    requires Enabled(s, users, e) && Inv(s) && e.Claim?
    ensures WorkerInv(Apply(s, users, e))
              && forall k | k in Apply(s, users, e).jobs :: RowInv(Apply(s, users, e).jobs[k])
  {
    WorkerKnown(s);
    assert RowInv(s.jobs[s.worker.id]);
    RowsKept(s, Apply(s, users, e), s.worker.id);
  }

  /** The worker's id is a job. */
  lemma WorkerKnown(s: State)
    requires Inv(s) && s.up && (s.worker.Holding? || s.worker.Working?)
    ensures s.worker.id in s.jobs
    ensures forall k | k in s.jobs && k != s.worker.id :: s.jobs[k].status != Running
  {
    if s.worker.Holding? { assert Entry(s.worker.id) == Line(s)[0]; }
  }

  lemma RowsOther(s: State, users: Users, e: Event)
    requires Enabled(s, users, e) && Inv(s) && !e.Crash? && !(e.Claim? || e.Reserve? || e.Succeed? || e.Fail?)
    ensures WorkerInv(Apply(s, users, e))
              && forall k | k in Apply(s, users, e).jobs :: RowInv(Apply(s, users, e).jobs[k])
  {
  }

  /** No other job becomes RUNNING or QUEUED, apart from a new one after all others. */
  lemma RunningFirstKept(jobs: Jobs, jobs': Jobs)
    requires RunningFirst(jobs)
    requires forall k | k in jobs' && jobs'[k].status == Running :: k in jobs && jobs[k] == jobs'[k]
    requires forall k | k in jobs' && jobs'[k].status.Active() ::
               || (k in jobs && jobs[k].status.Active() && jobs'[k].queuedAt == jobs[k].queuedAt)
               || forall r | r in jobs && r != k :: Earlier(jobs[r].queuedAt, r, jobs'[k].queuedAt, k)
    ensures RunningFirst(jobs')
  {
  }

  /** In a running process the id a claim takes is the first of the QUEUED jobs. */
  lemma HeldIsFirst(s: State)
    requires Inv(s) && s.up && s.worker.Holding? && IsQueued(s.jobs, s.worker.id)
    ensures forall k | IsQueued(s.jobs, k) && k != s.worker.id :: Before(s.jobs, s.worker.id, k)
  {
    var id := s.worker.id;
    assert Line(s)[0] == Entry(id) && Line(s)[..0] == [];
    forall k | IsQueued(s.jobs, k) && k != id ensures Before(s.jobs, id, k) {
      EarlierTotal(s.jobs[k].queuedAt, k, s.jobs[id].queuedAt, id);
    }
  }

  lemma ClaimedIsFirst(jobs: Jobs, jobs': Jobs, id: Id)
    requires id in jobs && jobs'.Keys == jobs.Keys && jobs'[id].queuedAt == jobs[id].queuedAt
    requires forall k | k in jobs && k != id :: jobs'[k] == jobs[k] && jobs[k].status != Running
    requires forall k | IsQueued(jobs, k) && k != id :: Before(jobs, id, k)
    ensures RunningFirst(jobs')
  {
    forall k | k in jobs' && k != id && jobs'[k].status.Active() ensures Before(jobs', id, k) {
      assert IsQueued(jobs, k);
    }
  }

  lemma RunningFirstAfterClaim(s: State, users: Users, e: Event)
    requires Enabled(s, users, e) && Inv(s) && e.Claim?
    ensures RunningFirst(Apply(s, users, e).jobs)
  {
    WorkerKnown(s);
    if IsQueued(s.jobs, s.worker.id) {
      HeldIsFirst(s);
      ClaimedIsFirst(s.jobs, Apply(s, users, e).jobs, s.worker.id);
    } else {
      assert Apply(s, users, e).jobs == s.jobs;
    }
  }

  lemma RunningFirstAfterOther(s: State, users: Users, e: Event)
    requires Enabled(s, users, e) && Inv(s) && !e.Claim?
    ensures RunningFirst(Apply(s, users, e).jobs)
  {
    RunningFirstKept(s.jobs, Apply(s, users, e).jobs);
  }

  lemma StepKeepsInv(s: State, users: Users, e: Event)
    requires Inv(s)
    ensures Inv(Step(s, users, e))
  {
    if Enabled(s, users, e) {
      if e.Claim? { RunningFirstAfterClaim(s, users, e); } else { RunningFirstAfterOther(s, users, e); }
    }
    if Enabled(s, users, e) && !e.Crash? {
      if e.Claim? { LineClaim(s, users, e); }
      else if e.Reserve? || e.Succeed? || e.Fail? || e.Delete? || e.Exit? { LineCreate(s, users, e); }
      else if e.Start? { LineStart(s, users, e); }
      else if e.Stop? { LineStop(s, users, e); }
      else { LineQueue(s, users, e); }
      if e.Claim? { RowsClaim(s, users, e); }
      else if !e.Reserve? && !e.Succeed? && !e.Fail? { RowsOther(s, users, e); }
    }
  }

  lemma {:induction false} RunKeepsInv(s: State, users: Users, es: seq<Event>)
    requires Inv(s)
    ensures Inv(Run(s, users, es))
  {
    if es == [] {
    } else {
      RunKeepsInv(s, users, es[..|es| - 1]);
      StepKeepsInv(Run(s, users, es[..|es| - 1]), users, es[|es| - 1]);
    }
  }
}
