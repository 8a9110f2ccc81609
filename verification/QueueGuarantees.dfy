/** What the creation queue guarantees over whole runs. */
module QueueGuarantees {
  import opened Prelude
  import opened JobIds
  import opened CreationQueue

  // ---------------------------------------------------------------------------
  // No accepted job is lost
  // ---------------------------------------------------------------------------

  /** The job is finished, at the worker, or QUEUED with its id on the way to the worker. */
  ghost predicate Accounted(s: State, id: Id)
    requires id in s.jobs
  {
    || !s.jobs[id].status.Active()
    || (s.jobs[id].status == Running && s.worker.Working? && s.worker.id == id)
    || (s.jobs[id].status == Queued && Entry(id) in Line(s))
  }

  lemma {:induction false} JobsStay(s: State, users: Users, es: seq<Event>)
    ensures s.jobs.Keys <= Run(s, users, es).jobs.Keys
  {
    if es == [] {
    } else {
      JobsStay(s, users, es[..|es| - 1]);
      var t, e := Run(s, users, es[..|es| - 1]), es[|es| - 1];
      assert t.jobs.Keys <= Step(t, users, e).jobs.Keys by {
        if Enabled(t, users, e) && e.Start? { assert Recovered(t.jobs).Keys == t.jobs.Keys; }
      }
    }
  }

  /** Over every run, with crashes and restarts, the row of an accepted job stays, and while
      the process is up the job is accounted for. */
  lemma NoJobLost(s: State, users: Users, es: seq<Event>, id: Id)
    requires Inv(s) && id in s.jobs
    ensures var t := Run(s, users, es); id in t.jobs && (t.up ==> Accounted(t, id))
  {
    JobsStay(s, users, es);
    RunKeepsInv(s, users, es);
  }

  /** Right after a crash and a start, the queue is exactly the unfinished jobs in
      (queued_at, id) order, all of them QUEUED, and the worker waits for the first. */
  lemma RecoveryIsComplete(s: State, users: Users, es: seq<Event>, rows: seq<Id>)
    requires Inv(s)
    requires IsPending(Run(s, users, es).jobs, rows)
    ensures var before := Run(s, users, es);
            var t := Run(s, users, es + [Crash, Start(rows)]);
            && t.up && t.worker == Idle && t.announcing == None && t.memory == Entries(rows)
            && (forall id :: Entry(id) in t.memory <==> id in before.jobs && before.jobs[id].status.Active())
            && (forall id | id in t.jobs && t.jobs[id].status.Active() :: t.jobs[id].status == Queued)
  {
    var before := Run(s, users, es);
    var all := es + [Crash, Start(rows)];
    assert all[..|all| - 1] == es + [Crash] && (es + [Crash])[..|es|] == es;
    var down := Run(s, users, es + [Crash]);
    assert down == Apply(before, users, Crash);
    assert Enabled(down, users, Start(rows));
    var t := Run(s, users, all);
    assert t.memory == [] + Entries(rows) == Entries(rows);
    forall id ensures Entry(id) in t.memory <==> id in before.jobs && before.jobs[id].status.Active() {
      if id in rows {
        var i :| 0 <= i < |rows| && rows[i] == id;
        assert t.memory[i] == Entry(id);
      }
    }
  }

  /** The recovery query always has an answer. */
  lemma {:induction false} PendingExists(jobs: Jobs, ids: set<Id>) returns (rows: seq<Id>)
    requires forall k | k in ids :: k in jobs
    ensures forall k :: k in rows <==> k in ids
    ensures forall i, j | 0 <= i < j < |rows| :: Before(jobs, rows[i], rows[j])
  {
    if ids == {} {
      rows := [];
    } else {
      var last := LastOf(jobs, ids);
      var front := PendingExists(jobs, ids - {last});
      rows := front + [last];
    }
  }

  /** Every non-empty set of jobs has a last one in (queued_at, id) order. */
  lemma {:induction false} LastOf(jobs: Jobs, ids: set<Id>) returns (last: Id)
    requires ids != {} && forall k | k in ids :: k in jobs
    ensures last in ids && forall k | k in ids && k != last :: Before(jobs, k, last)
  {
    var x :| x in ids;
    if ids == {x} {
      last := x;
    } else {
      var y := LastOf(jobs, ids - {x});
      EarlierTotal(jobs[x].queuedAt, x, jobs[y].queuedAt, y);
      if Before(jobs, x, y) {
        last := y;
      } else {
        last := x;
        forall k | k in ids && k != x ensures Before(jobs, k, x) {
          assert k in ids - {x};
          if k != y { EarlierTransitive(jobs[k].queuedAt, k, jobs[y].queuedAt, y, jobs[x].queuedAt, x); }
        }
      }
    }
  }

  lemma StartIsPossible(s: State, users: Users) returns (rows: seq<Id>)
    requires s.worker.Dead? && s.announcing == None
    ensures Enabled(s, users, Start(rows))
  {
    rows := PendingExists(s.jobs, set k | k in s.jobs && s.jobs[k].status.Active());
  }

  // ---------------------------------------------------------------------------
  // The claim serialises work
  // ---------------------------------------------------------------------------

  /** The status moves a single step can make. */
  predicate Moves(a: Status, b: Status) {
    a == b || (a == Queued && b == Running) || (a == Running && b in {Completed, Failed, Queued})
  }

  lemma StatusMoves(s: State, users: Users, e: Event, id: Id)
    requires Inv(s) && id in s.jobs
    ensures var t := Step(s, users, e);
            && id in t.jobs && Moves(s.jobs[id].status, t.jobs[id].status)
            && (s.jobs[id].status == Running && t.jobs[id].status == Queued ==> e.Start? && !s.up)
            && (s.jobs[id].status == Queued && t.jobs[id].status == Running ==> Claimed(s, users, e) == [id])
            && (!s.jobs[id].status.Active() ==> t.jobs[id] == s.jobs[id])
            && t.jobs[id].queuedAt == s.jobs[id].queuedAt && t.jobs[id].user == s.jobs[id].user
  {
  }

  /** A finished job never changes again. */
  lemma {:induction false} FinishedForGood(s: State, users: Users, es: seq<Event>, id: Id)
    requires Inv(s) && id in s.jobs && !s.jobs[id].status.Active()
    ensures id in Run(s, users, es).jobs && Run(s, users, es).jobs[id] == s.jobs[id]
  {
    if es == [] {
    } else {
      FinishedForGood(s, users, es[..|es| - 1], id);
      RunKeepsInv(s, users, es[..|es| - 1]);
      StatusMoves(Run(s, users, es[..|es| - 1]), users, es[|es| - 1], id);
    }
  }

  /** How often a run puts the job back from RUNNING to QUEUED. */
  function Recoveries(s: State, users: Users, es: seq<Event>, id: Id): nat {
    if es == [] then 0
    else
      var t, e := Run(s, users, es[..|es| - 1]), es[|es| - 1];
      Recoveries(s, users, es[..|es| - 1], id)
      + (if e.Start? && Enabled(t, users, e) && id in t.jobs && t.jobs[id].status == Running then 1 else 0)
  }

  function Attempts(s: State, id: Id): nat { if id in s.jobs then s.jobs[id].attempts else 0 }

  /** `attempts` counts the claims and the recoveries of the job. */
  lemma {:induction false} AttemptsCount(s: State, users: Users, es: seq<Event>, id: Id)
    requires Inv(s)
    ensures Attempts(Run(s, users, es), id)
            == Attempts(s, id) + multiset(Claims(s, users, es))[id] + Recoveries(s, users, es, id)
  {
    if es == [] {
    } else {
      var front, e := es[..|es| - 1], es[|es| - 1];
      var t := Run(s, users, front);
      AttemptsCount(s, users, front, id);
      RunKeepsInv(s, users, front);
      AttemptsStep(t, users, e, id);
    }
  }

  lemma AttemptsStep(t: State, users: Users, e: Event, id: Id)
    requires Inv(t)
    ensures Attempts(Step(t, users, e), id)
            == Attempts(t, id) + multiset(Claimed(t, users, e))[id]
               + (if e.Start? && Enabled(t, users, e) && id in t.jobs && t.jobs[id].status == Running then 1 else 0)
  {
  }

  /** Not yet claimed in this process life. */
  predicate Unclaimed(s: State, id: Id) {
    id !in s.jobs || s.jobs[id].status == Queued || (!s.up && s.jobs[id].status == Running)
  }

  /** Within one process life, whatever duplicates the queue holds and however often the
      worker is stopped and started, a job is claimed at most once, so create_vm runs at most
      once for it. */
  lemma {:induction false} ClaimedOncePerLife(s: State, users: Users, es: seq<Event>, id: Id)
    requires Inv(s) && forall e | e in es :: !e.Crash?
    ensures multiset(Claims(s, users, es))[id] <= 1
    ensures Unclaimed(Run(s, users, es), id) ==> multiset(Claims(s, users, es))[id] == 0
  {
    if es == [] {
    } else {
      var front, e := es[..|es| - 1], es[|es| - 1];
      ClaimedOncePerLife(s, users, front, id);
      RunKeepsInv(s, users, front);
      UnclaimedStep(Run(s, users, front), users, e, id);
    }
  }

  lemma UnclaimedStep(t: State, users: Users, e: Event, id: Id)
    requires Inv(t) && !e.Crash?
    ensures Unclaimed(Step(t, users, e), id) ==> Unclaimed(t, id) && multiset(Claimed(t, users, e))[id] == 0
    ensures multiset(Claimed(t, users, e))[id] == 1 ==> Unclaimed(t, id)
    ensures multiset(Claimed(t, users, e))[id] <= 1
  {
  }

  // ---------------------------------------------------------------------------
  // Positions and the order of claims
  // ---------------------------------------------------------------------------

  function QueuedIds(s: State): set<Id> { set k | k in s.jobs && s.jobs[k].status == Queued }

  /** The QUEUED jobs that come before a job in (queued_at, id) order. */
  function Ahead(s: State, id: Id): set<Id>
    requires id in s.jobs
  {
    set k | k in s.jobs && s.jobs[k].status == Queued && Before(s.jobs, k, id)
  }

  /** _get_queue_position: QUEUED jobs with an earlier time, or the same time and an id that
      is not larger. */
  function Position(s: State, id: Id): Option<nat> {
    if !IsQueued(s.jobs, id) then None
    else Some(|set k | k in s.jobs && s.jobs[k].status == Queued && (k == id || Before(s.jobs, k, id))|)
  }

  /** Whatever stands in the queue, a claim takes the first QUEUED job. */
  lemma ClaimTakesFirst(s: State, users: Users, e: Event)
    requires Inv(s) && Claimed(s, users, e) != []
    ensures var id := Claimed(s, users, e)[0];
            IsQueued(s.jobs, id) && forall k | IsQueued(s.jobs, k) && k != id :: Before(s.jobs, id, k)
  {
    HeldIsFirst(s);
  }

  /** Claims follow the (queued_at, id) order: until a QUEUED job is claimed, only jobs ahead
      of it are, and jobs not yet claimed stay QUEUED. */
  lemma {:induction false} ClaimsBefore(s: State, users: Users, es: seq<Event>, id: Id)
    requires Inv(s) && IsQueued(s.jobs, id) && id !in Claims(s, users, es)
    ensures IsQueued(Run(s, users, es).jobs, id)
    ensures forall k | IsQueued(s.jobs, k) && k !in Claims(s, users, es) :: IsQueued(Run(s, users, es).jobs, k)
    ensures forall k | k in Claims(s, users, es) && IsQueued(s.jobs, k) :: k in Ahead(s, id)
    ensures forall k | k in s.jobs ::
              k in Run(s, users, es).jobs && Run(s, users, es).jobs[k].queuedAt == s.jobs[k].queuedAt
  {
    if es == [] {
    } else {
      var front, e := es[..|es| - 1], es[|es| - 1];
      var t := Run(s, users, front);
      ClaimsBefore(s, users, front, id);
      RunKeepsInv(s, users, front);
      forall k | k in t.jobs
        ensures k in Step(t, users, e).jobs && Step(t, users, e).jobs[k].queuedAt == t.jobs[k].queuedAt
        ensures t.jobs[k].status == Queued && k !in Claimed(t, users, e) ==> Step(t, users, e).jobs[k].status == Queued
      {
        StatusMoves(t, users, e, k);
      }
      if Claimed(t, users, e) != [] {
        var k := Claimed(t, users, e)[0];
        ClaimTakesFirst(t, users, e);
        assert k in Claims(s, users, es) && k != id;
      }
    }
  }

  /** When a run gets to claim a job, it has claimed all jobs that were ahead of it, and of
      the jobs QUEUED at the start no others. */
  lemma AheadIsClaimed(s: State, users: Users, front: seq<Event>, e: Event, id: Id)
    requires Inv(s) && IsQueued(s.jobs, id) && id !in Claims(s, users, front)
    requires Claimed(Run(s, users, front), users, e) == [id]
    ensures (set k | k in Claims(s, users, front) && IsQueued(s.jobs, k)) == Ahead(s, id)
  {
    ClaimsBefore(s, users, front, id);
    RunKeepsInv(s, users, front);
    ClaimTakesFirst(Run(s, users, front), users, e);
    forall k | k in Ahead(s, id) ensures k in Claims(s, users, front) {
      EarlierAsymmetric(s.jobs[id].queuedAt, id, s.jobs[k].queuedAt, k);
      LessIrreflexive(id);
    }
  }

  /** Where in the run the job is first claimed. */
  lemma {:induction false} FirstClaim(s: State, users: Users, es: seq<Event>, id: Id) returns (m: nat)
    requires id in Claims(s, users, es)
    ensures m < |es| && id !in Claims(s, users, es[..m]) && Claimed(Run(s, users, es[..m]), users, es[m]) == [id]
    ensures Claims(s, users, es[..m]) + [id] <= Claims(s, users, es)
  {
    var front := es[..|es| - 1];
    if id in Claims(s, users, front) {
      m := FirstClaim(s, users, front, id);
      assert es[..m] == front[..m];
    } else {
      m := |es| - 1;
    }
  }

  /** The reported position is the real one: in any run, crashes included, in which a QUEUED
      job is claimed, exactly position - 1 of the jobs QUEUED now are claimed before it, and
      they are the ones ahead of it. */
  lemma PositionIsReal(s: State, users: Users, es: seq<Event>, id: Id) returns (n: nat)
    requires Inv(s) && IsQueued(s.jobs, id) && id in Claims(s, users, es)
    ensures n < |Claims(s, users, es)| && Claims(s, users, es)[n] == id && id !in Claims(s, users, es)[..n]
    ensures var earlier := set k | k in Claims(s, users, es)[..n] && IsQueued(s.jobs, k);
            earlier == Ahead(s, id) && Position(s, id) == Some(1 + |earlier|)
  {
    var m := FirstClaim(s, users, es, id);
    n := |Claims(s, users, es[..m])|;
    assert Claims(s, users, es)[..n] == Claims(s, users, es[..m]);
    AheadIsClaimed(s, users, es[..m], es[m], id);
    PositionCountsAhead(s, id);
  }

  lemma PositionCountsAhead(s: State, id: Id)
    requires IsQueued(s.jobs, id)
    ensures Position(s, id) == Some(1 + |Ahead(s, id)|)
  {
    LessIrreflexive(id);
    assert (set k | k in s.jobs && s.jobs[k].status == Queued && (k == id || Before(s.jobs, k, id)))
           == Ahead(s, id) + {id};
  }

  /** The positions of n QUEUED jobs are 1 to n, each taken once. */
  lemma PositionsAreOneToN(s: State)
    ensures forall a, b | a in QueuedIds(s) && b in QueuedIds(s) && a != b :: Position(s, a) != Position(s, b)
    ensures forall p | 1 <= p <= |QueuedIds(s)| :: exists id :: id in QueuedIds(s) && Position(s, id) == Some(p)
    ensures forall id | id in QueuedIds(s) :: 1 <= Position(s, id).value <= |QueuedIds(s)|
  {
    var q := QueuedIds(s);
    forall a, b | a in q && b in q && a != b ensures Position(s, a) != Position(s, b) {
      EarlierTotal(s.jobs[a].queuedAt, a, s.jobs[b].queuedAt, b);
      if Before(s.jobs, a, b) { PositionsRise(s, a, b); } else { PositionsRise(s, b, a); }
    }
    forall p | 1 <= p <= |q| ensures exists id :: id in q && Position(s, id) == Some(p) {
      var id := RankOf(s, q, p);
      PositionCountsAhead(s, id);
    }
    forall id | id in q ensures 1 <= Position(s, id).value <= |q| {
      PositionCountsAhead(s, id);
      LessIrreflexive(id);
      assert Ahead(s, id) <= q - {id};
      SubsetCount(Ahead(s, id), q - {id});
    }
  }

  lemma PositionsRise(s: State, a: Id, b: Id)
    requires IsQueued(s.jobs, a) && IsQueued(s.jobs, b) && Before(s.jobs, a, b)
    ensures Position(s, a).value < Position(s, b).value
  {
    PositionCountsAhead(s, a);
    PositionCountsAhead(s, b);
    LessIrreflexive(a);
    forall k | k in Ahead(s, a) ensures k in Ahead(s, b) {
      EarlierTransitive(s.jobs[k].queuedAt, k, s.jobs[a].queuedAt, a, s.jobs[b].queuedAt, b);
    }
    assert a in Ahead(s, b) && a !in Ahead(s, a);
    SubsetCount(Ahead(s, a), Ahead(s, b) - {a});
  }

  /** The p-th job of a set closed under "ahead of". */
  lemma {:induction false} RankOf(s: State, ids: set<Id>, p: nat) returns (id: Id)
    requires ids <= QueuedIds(s) && 1 <= p <= |ids|
    requires forall k | k in ids :: Ahead(s, k) <= ids
    ensures id in ids && |Ahead(s, id)| == p - 1
  {
    var last := LastOf(s.jobs, ids);
    LessIrreflexive(last);
    assert Ahead(s, last) == ids - {last} by {
      forall k | k in ids - {last} ensures k in Ahead(s, last) {}
    }
    if p == |ids| {
      id := last;
    } else {
      forall k | k in ids - {last} ensures Ahead(s, k) <= ids - {last} {
        EarlierAsymmetric(s.jobs[last].queuedAt, last, s.jobs[k].queuedAt, k);
      }
      id := RankOf(s, ids - {last}, p);
    }
  }
}
