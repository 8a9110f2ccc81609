/** The node metrics cache under concurrent callers (backend/api/routes/monitoring.py,
    _get_cached_node_stats): one lock per node, entries that live thirty seconds from the end
    of the fetch, and a check that the node is still the same. */
module NodeStatsCache {
  import opened Prelude

  const TTL := 30

  type Node = int
  type Caller = int
  type Identity = int  // name, address, port and API user of a node, taken together

  /** A fetch of a node's metrics, offline answers included. Its value is its number. */
  datatype Fetch = Fetch(node: Node, identity: Identity, begun: int, done: Option<int>)

  datatype Entry = Entry(expires: int, identity: Identity, fetch: nat)

  /** Where a caller is: waiting for the node's lock, holding it before the cache lookup,
      fetching, or back with the value of a fetch. */
  datatype Phase =
    | Waiting(node: Node, identity: Identity)
    | Looking(node: Node, identity: Identity)
    | Fetching(node: Node, identity: Identity, fetch: nat)
    | Returned(node: Node, identity: Identity, fetch: nat, at: int)

  datatype State = State(now: int, cache: map<Node, Entry>, holder: map<Node, Caller>,
                         callers: map<Caller, Phase>, fetches: seq<Fetch>)

  datatype Event =
    | Tick(d: nat)
    | Call(c: Caller, node: Node, identity: Identity)
    | Acquire(c: Caller)
    | Look(c: Caller)     // the lookup, and on a miss the start of the fetch
    | Store(c: Caller)    // the end of the fetch: stamp, store, return, release

  const Init := State(0, map[], map[], map[], [])

  predicate Hit(s: State, node: Node, identity: Identity) {
    node in s.cache && s.cache[node].expires > s.now && s.cache[node].identity == identity
  }

  /** An event that cannot happen changes nothing. */
  function Step(s: State, e: Event): State {
    match e
    case Tick(d) => s.(now := s.now + d)
    case Call(c, node, identity) => if c in s.callers then s else s.(callers := s.callers[c := Waiting(node, identity)])
    case Acquire(c) =>
      if c in s.callers && s.callers[c].Waiting? && s.callers[c].node !in s.holder then
        var p := s.callers[c];
        s.(holder := s.holder[p.node := c], callers := s.callers[c := Looking(p.node, p.identity)])
      else s
    case Look(c) =>
      if c !in s.callers || !s.callers[c].Looking? then s
      else
        var p := s.callers[c];
        if Hit(s, p.node, p.identity) then
          s.(holder := s.holder - {p.node},
             callers := s.callers[c := Returned(p.node, p.identity, s.cache[p.node].fetch, s.now)])
        else
          s.(callers := s.callers[c := Fetching(p.node, p.identity, |s.fetches|)],
             fetches := s.fetches + [Fetch(p.node, p.identity, s.now, None)])
    case Store(c) =>
      if c !in s.callers || !s.callers[c].Fetching? || s.callers[c].fetch >= |s.fetches| then s
      else
        var p := s.callers[c];
        s.(cache := s.cache[p.node := Entry(s.now + TTL, p.identity, p.fetch)],
           holder := s.holder - {p.node},
           callers := s.callers[c := Returned(p.node, p.identity, p.fetch, s.now)],
           fetches := s.fetches[p.fetch := s.fetches[p.fetch].(done := Some(s.now))])
  }

  function RunFrom(s: State, es: seq<Event>): State {
    if es == [] then s else Step(RunFrom(s, es[..|es| - 1]), es[|es| - 1])
  }

  function Run(es: seq<Event>): State { RunFrom(Init, es) }

  // ---------------------------------------------------------------------------
  // Invariant
  // ---------------------------------------------------------------------------

  /** The lock of a node is held by the caller that looks or fetches, and by no other. */
  ghost predicate LockInv(s: State) {
    && (forall c | c in s.callers && (s.callers[c].Looking? || s.callers[c].Fetching?) ::
          s.callers[c].node in s.holder && s.holder[s.callers[c].node] == c)
    && (forall c | c in s.callers && s.callers[c].Fetching? :: s.callers[c].fetch < |s.fetches|
          && s.fetches[s.callers[c].fetch] ==
             Fetch(s.callers[c].node, s.callers[c].identity, s.fetches[s.callers[c].fetch].begun, None))
    && (forall i | 0 <= i < |s.fetches| && s.fetches[i].done == None ::
          s.fetches[i].node in s.holder && s.holder[s.fetches[i].node] in s.callers
          && s.callers[s.holder[s.fetches[i].node]].Fetching? && s.callers[s.holder[s.fetches[i].node]].fetch == i)
  }

  /** A cache entry is the result of the node's latest finished fetch. */
  ghost predicate CacheInv(s: State) {
    && (forall n | n in s.cache ::
          && s.cache[n].fetch < |s.fetches|
          && s.fetches[s.cache[n].fetch].node == n
          && s.fetches[s.cache[n].fetch].identity == s.cache[n].identity
          && s.fetches[s.cache[n].fetch].done == Some(s.cache[n].expires - TTL))
    && (forall i | 0 <= i < |s.fetches| && s.fetches[i].done.Some? ::
          s.fetches[i].node in s.cache && i <= s.cache[s.fetches[i].node].fetch)
  }

  ghost predicate TimesInv(s: State) {
    forall i | 0 <= i < |s.fetches| ::
      && s.fetches[i].begun <= s.now
      && (s.fetches[i].done.Some? ==> s.fetches[i].begun <= s.fetches[i].done.value <= s.now)
  }

  /** Fetches of one node never overlap: a later one begins when the earlier one is done. */
  ghost predicate SerialInv(s: State) {
    forall i, j | 0 <= i < j < |s.fetches| && s.fetches[i].node == s.fetches[j].node ::
      s.fetches[i].done.Some? && s.fetches[i].done.value <= s.fetches[j].begun
  }

  /** b begins at least thirty seconds after a is done, unless the node's identity changed. */
  predicate Apart(a: Fetch, b: Fetch) {
    a.done.Some? && (a.identity == b.identity ==> b.begun >= a.done.value + TTL)
  }

  /** No fetch of the node lies between the two. */
  predicate Consecutive(fetches: seq<Fetch>, i: nat, j: nat)
    requires i < j < |fetches|
  {
    fetches[i].node == fetches[j].node && forall k | i < k < j :: fetches[k].node != fetches[j].node
  }

  ghost predicate SpacingInv(s: State) {
    forall i, j | 0 <= i < j < |s.fetches| && Consecutive(s.fetches, i, j) :: Apart(s.fetches[i], s.fetches[j])
  }

  /** A returned value is of a fetch with the caller's identity of the node, done less than
      thirty seconds before the value was handed out. */
  ghost predicate FreshInv(s: State) {
    forall c | c in s.callers && s.callers[c].Returned? ::
      var p := s.callers[c];
      && p.fetch < |s.fetches|
      && s.fetches[p.fetch].node == p.node && s.fetches[p.fetch].identity == p.identity
      && s.fetches[p.fetch].done.Some? && s.fetches[p.fetch].done.value <= p.at < s.fetches[p.fetch].done.value + TTL
  }

  ghost predicate Inv(s: State) {
    LockInv(s) && CacheInv(s) && TimesInv(s) && SerialInv(s) && SpacingInv(s) && FreshInv(s)
  }

  /** A miss begins a fetch. */
  predicate Missed(s: State, t: State, c: Caller) {
    && c in s.callers && s.callers[c].Looking? && !Hit(s, s.callers[c].node, s.callers[c].identity)
    && t == Step(s, Look(c))
  }

  lemma MissKeepsLock(s: State, t: State, c: Caller)
    requires LockInv(s) && CacheInv(s) && FreshInv(s) && Missed(s, t, c)
    ensures LockInv(t) && CacheInv(t) && FreshInv(t)
  {
    assert forall i | 0 <= i < |s.fetches| :: t.fetches[i] == s.fetches[i];
  }

  /** The node has no fetch under way, and its latest is old or of another identity. */
  lemma MissKeepsSpacing(s: State, t: State, c: Caller)
    requires LockInv(s) && CacheInv(s) && TimesInv(s) && SerialInv(s) && SpacingInv(s) && Missed(s, t, c)
    ensures TimesInv(t) && SerialInv(t) && SpacingInv(t)
  {
    var n := |s.fetches|;
    assert forall i | 0 <= i < n :: t.fetches[i] == s.fetches[i];
    assert forall i | 0 <= i < n && t.fetches[i].node == t.fetches[n].node :: t.fetches[i].done.Some?;
    forall i, j | 0 <= i < j < |t.fetches| && Consecutive(t.fetches, i, j)
      ensures Apart(t.fetches[i], t.fetches[j])
    {
      if j < n { assert Consecutive(s.fetches, i, j); }
    }
  }

  /** s and t differ in that c has stored the result of fetch f. */
  predicate Stored(s: State, t: State, c: Caller, f: nat) {
    && c in s.callers && s.callers[c].Fetching? && s.callers[c].fetch == f < |s.fetches|
    && t == Step(s, Store(c))
  }

  lemma StoreKeepsCache(s: State, t: State, c: Caller, f: nat)
    requires LockInv(s) && CacheInv(s) && SerialInv(s) && Stored(s, t, c, f)
    ensures CacheInv(t)
  {
    assert forall i | 0 <= i < |s.fetches| && i != f :: t.fetches[i] == s.fetches[i];
  }

  lemma StoreKeepsSpacing(s: State, t: State, c: Caller, f: nat)
    requires LockInv(s) && TimesInv(s) && SerialInv(s) && SpacingInv(s) && Stored(s, t, c, f)
    ensures TimesInv(t) && SerialInv(t) && SpacingInv(t)
  {
    assert forall i | 0 <= i < |s.fetches| && i != f :: t.fetches[i] == s.fetches[i];
    forall i, j | 0 <= i < j < |t.fetches| && Consecutive(t.fetches, i, j)
      ensures Apart(t.fetches[i], t.fetches[j])
    {
      assert Consecutive(s.fetches, i, j);
    }
  }

  lemma StoreKeepsFresh(s: State, t: State, c: Caller, f: nat)
    requires LockInv(s) && FreshInv(s) && Stored(s, t, c, f)
    ensures FreshInv(t)
  {
    assert forall i | 0 <= i < |s.fetches| && i != f :: t.fetches[i] == s.fetches[i];
  }

  lemma WaitKeepsInv(s: State, e: Event)
    requires Inv(s) && (e.Tick? || e.Call? || e.Acquire?)
    ensures Inv(Step(s, e))
  {
  }

  lemma StepKeepsInv(s: State, e: Event)
    requires Inv(s)
    ensures Inv(Step(s, e))
  {
    if e.Tick? || e.Call? || e.Acquire? {
      WaitKeepsInv(s, e);
    } else if e.Look? && e.c in s.callers && s.callers[e.c].Looking? {
      if !Hit(s, s.callers[e.c].node, s.callers[e.c].identity) {
        MissKeepsLock(s, Step(s, e), e.c);
        MissKeepsSpacing(s, Step(s, e), e.c);
      }
    } else if e.Store? && e.c in s.callers && s.callers[e.c].Fetching? {
      var t, f := Step(s, e), s.callers[e.c].fetch;
      StoreKeepsCache(s, t, e.c, f);
      StoreKeepsSpacing(s, t, e.c, f);
      StoreKeepsFresh(s, t, e.c, f);
    }
  }

  lemma {:induction false} RunFromKeepsInv(s: State, es: seq<Event>)
    requires Inv(s)
    ensures Inv(RunFrom(s, es))
  {
    if es == [] {
    } else {
      RunFromKeepsInv(s, es[..|es| - 1]);
      StepKeepsInv(RunFrom(s, es[..|es| - 1]), es[|es| - 1]);
    }
  }

  lemma RunKeepsInv(es: seq<Event>)
    ensures Inv(Run(es))
  {
    RunFromKeepsInv(Init, es);
  }

  // ---------------------------------------------------------------------------
  // Guarantees
  // ---------------------------------------------------------------------------

  /** Under every interleaving, what a caller gets back is a fetch of the node it asked for,
      under the identity it asked with, done less than thirty seconds before. */
  lemma ValuesAreRecent(es: seq<Event>, c: Caller)
    requires c in Run(es).callers && Run(es).callers[c].Returned?
    ensures var s, p := Run(es), Run(es).callers[c];
            && p.fetch < |s.fetches| && s.fetches[p.fetch].node == p.node && s.fetches[p.fetch].identity == p.identity
            && s.fetches[p.fetch].done.Some? && 0 <= p.at - s.fetches[p.fetch].done.value < TTL
  {
    RunKeepsInv(es);
  }

  /** Under every interleaving, fetches of one node do not overlap, and two that follow each
      other are thirty seconds apart unless the node's identity changed in between. */
  lemma FetchesAreSpaced(es: seq<Event>, i: nat, j: nat)
    requires i < j < |Run(es).fetches| && Run(es).fetches[i].node == Run(es).fetches[j].node
    ensures var a, b := Run(es).fetches[i], Run(es).fetches[j];
            && a.done.Some? && a.done.value <= b.begun
            && (Consecutive(Run(es).fetches, i, j) && a.identity == b.identity ==> b.begun >= a.done.value + TTL)
  {
    RunKeepsInv(es);
  }

  // ---------------------------------------------------------------------------
  // The function itself
  // ---------------------------------------------------------------------------

  class NodeStats {
    var cache: map<Node, Entry>
    var holder: map<Node, Caller>
    var callers: map<Caller, Phase>
    var fetches: seq<Fetch>

    constructor ()
      ensures At(0) == Init
    {
      cache, holder, callers, fetches := map[], map[], map[], [];
    }

    ghost function At(now: int): State
      reads this
    {
      State(now, cache, holder, callers, fetches)
    }

    /** A caller that finds the node's lock free. */
    method Enter(c: Caller, node: Node, identity: Identity, now: int)
      requires c !in callers && node !in holder
      modifies `callers, `holder
      ensures At(now) == Step(Step(old(At(now)), Call(c, node, identity)), Acquire(c))
      ensures c in callers && callers[c] == Looking(node, identity) && holder == old(holder)[node := c]
    {
      holder, callers := holder[node := c], callers[c := Waiting(node, identity)][c := Looking(node, identity)];
    }

    /** The lookup under the lock: a live entry of the same identity is returned, otherwise a
        fetch begins. */
    method LookUp(c: Caller, now: int) returns (hit: bool)
      requires c in callers && callers[c].Looking?
      modifies `callers, `holder, `fetches
      ensures At(now) == Step(old(At(now)), Look(c)) && c in callers
      ensures hit == Hit(old(At(now)), old(callers)[c].node, old(callers)[c].identity)
      ensures var p := old(callers)[c];
              if hit then
                && p.node in cache && callers[c] == Returned(p.node, p.identity, cache[p.node].fetch, now)
                && fetches == old(fetches) && holder == old(holder) - {p.node}
              else
                && callers[c] == Fetching(p.node, p.identity, |old(fetches)|) && holder == old(holder)
                && fetches == old(fetches) + [Fetch(p.node, p.identity, now, None)]
    {
      var p := callers[c];
      hit := p.node in cache && cache[p.node].expires > now && cache[p.node].identity == p.identity;
      if hit {
        holder, callers := holder - {p.node}, callers[c := Returned(p.node, p.identity, cache[p.node].fetch, now)];
      } else {
        callers := callers[c := Fetching(p.node, p.identity, |fetches|)];
        fetches := fetches + [Fetch(p.node, p.identity, now, None)];
      }
    }

    /** The end of a fetch: the entry's time starts now. */
    method StoreFetched(c: Caller, now: int)
      requires c in callers && callers[c].Fetching? && callers[c].fetch < |fetches|
      modifies this
      ensures At(now) == Step(old(At(now)), Store(c)) && c in callers
      ensures var p := old(callers)[c];
              && cache == old(cache)[p.node := Entry(now + TTL, p.identity, p.fetch)]
              && holder == old(holder) - {p.node}
              && callers[c] == Returned(p.node, p.identity, p.fetch, now)
              && fetches == old(fetches)[p.fetch := old(fetches)[p.fetch].(done := Some(now))]
    {
      var p := callers[c];
      cache, holder := cache[p.node := Entry(now + TTL, p.identity, p.fetch)], holder - {p.node};
      callers := callers[c := Returned(p.node, p.identity, p.fetch, now)];
      fetches := fetches[p.fetch := fetches[p.fetch].(done := Some(now))];
    }

    /** _get_cached_node_stats, undisturbed; a fetch takes `took`. */
    method GetCachedNodeStats(c: Caller, node: Node, identity: Identity, took: nat, now: int)
      returns (fetch: nat, end: int)
      requires c !in callers && node !in holder
      modifies this
      ensures var hit := Hit(old(At(now)), node, identity);
              && fetch == (if hit then old(cache)[node].fetch else |old(fetches)|)
              && end == (if hit then now else now + took)
              && cache == (if hit then old(cache) else old(cache)[node := Entry(end + TTL, identity, fetch)])
              && fetches == (if hit then old(fetches) else old(fetches) + [Fetch(node, identity, now, Some(end))])
      ensures c in callers && callers[c] == Returned(node, identity, fetch, end) && holder == old(holder)
      ensures At(end) == RunFrom(old(At(now)), [Call(c, node, identity), Acquire(c), Look(c)]) ||
              At(end) == RunFrom(old(At(now)), [Call(c, node, identity), Acquire(c), Look(c), Tick(took), Store(c)])
    {
      ghost var s := At(now);
      RunThree(s, Call(c, node, identity), Acquire(c), Look(c));
      Enter(c, node, identity, now);
      assert holder - {node} == old(holder);
      var hit := LookUp(c, now);
      if hit { return cache[node].fetch, now; }
      fetch, end := callers[c].fetch, now + took;
      RunTwoMore(s, [Call(c, node, identity), Acquire(c), Look(c)], Tick(took), Store(c));
      assert [Call(c, node, identity), Acquire(c), Look(c)] + [Tick(took), Store(c)]
             == [Call(c, node, identity), Acquire(c), Look(c), Tick(took), Store(c)];
      assert At(end) == Step(RunFrom(s, [Call(c, node, identity), Acquire(c), Look(c)]), Tick(took));
      StoreFetched(c, end);
    }
  }

  lemma RunThree(s: State, a: Event, b: Event, c: Event)
    ensures RunFrom(s, [a, b, c]) == Step(Step(Step(s, a), b), c)
  {
    RunOne(s, [], a);
    RunOne(s, [a], b);
    RunOne(s, [a, b], c);
    assert [] + [a] == [a] && [a] + [b] == [a, b] && [a, b] + [c] == [a, b, c];
  }

  lemma RunTwoMore(s: State, es: seq<Event>, a: Event, b: Event)
    ensures RunFrom(s, es + [a, b]) == Step(Step(RunFrom(s, es), a), b)
  {
    var l := es + [a];
    RunOne(s, es, a);
    RunOne(s, l, b);
    assert l + [b] == es + [a, b];
  }

  lemma RunOne(s: State, es: seq<Event>, e: Event)
    ensures RunFrom(s, es + [e]) == Step(RunFrom(s, es), e)
  {
    assert (es + [e])[..|es|] == es;
  }
}
