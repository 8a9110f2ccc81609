/** Transactions on the gateway's rules over SSH (backend/services/network_service.py).
    One session talks to the gateway at a time; each remote command can be refused,
    or take effect while its reply is lost. */
module NetworkService {
  import opened Prelude
  import opened Iptables
  import opened PortPolicy

  /** `-C` answers truthfully (exit 0 or 1), or the caller sees another status or an exception. */
  datatype CheckReply = Answered | Broken

  /** What the remote side does with the commands of one ADD: check(i) for the i-th
      rule, add(j) and undo(j) for the j-th rule found missing. */
  datatype AddFaults = AddFaults(check: nat -> CheckReply, add: nat -> Call, undo: nat -> Call)

  /** One DELETE command. Cut(n) stops after n copies, with its reply lost. */
  datatype PurgeCall = Purged | NotRun | Cut(copies: nat)

  /** after holds before's rules, untouched and in place, plus requested rules that were absent. */
  ghost predicate OnlyAdds(before: Chains, after: Chains, rules: seq<Rule>) {
    exists w :: after == before.AddAll(w) && forall r | r in w :: r in rules && !before.Has(r)
  }

  /** Requested rules that were absent may have come in, and then copies of them gone out.
      What was there and is not requested is all there, untouched and in place. */
  ghost predicate OnlyTouches(before: Chains, after: Chains, rules: seq<Rule>) {
    exists middle :: OnlyAdds(before, middle, rules) && OnlyPurges(middle, after, rules)
  }

  /** The add pass gets as far as the j-th missing rule. */
  predicate Reached(f: AddFaults, j: nat) {
    forall i | 0 <= i < j :: f.add(i).Done?
  }

  /** Every addition that took effect is taken back. */
  predicate UndoCovers(f: AddFaults, before: Chains, rules: seq<Rule>) {
    forall j | 0 <= j < |Missing(before, rules)| ::
      Reached(f, j) && f.add(j).Effective() ==> f.undo(j).Effective()
  }

  /** Some rule could not be inspected, so nothing was attempted. */
  predicate InspectionFails(f: AddFaults, rules: seq<Rule>) {
    exists i | 0 <= i < |rules| :: f.check(i).Broken?
  }

  predicate Distinct(rules: seq<Rule>) {
    forall i, j | 0 <= i < j < |rules| :: rules[i] != rules[j]
  }

  /** Every check is answered and every missing rule is added with a reply. */
  predicate NothingFails(f: AddFaults, before: Chains, rules: seq<Rule>) {
    && (forall i | 0 <= i < |rules| :: f.check(i).Answered?)
    && (forall j | 0 <= j < |Missing(before, rules)| :: f.add(j).Done?)
  }

  class Gateway {
    var chains: Chains
    ghost var history: seq<Chains>  // the chains after every remote command, oldest first

    constructor (chains: Chains)
      ensures this.chains == chains && history == []
    {
      this.chains := chains;
      history := [];
    }

    method Append(r: Rule, call: Call) returns (ok: bool)
      modifies this
      ensures chains == if call.Effective() then old(chains).Append(r) else old(chains)
      ensures history == old(history) + [chains] && ok == call.Done?
    {
      if call.Effective() { chains := chains.Append(r); }
      history := history + [chains];
      ok := call.Done?;
    }

    /** `-C rule && -D rule` */
    method GuardedDrop(r: Rule, call: Call)
      modifies this
      ensures chains == if call.Effective() && old(chains).Has(r) then old(chains).Drop(r) else old(chains)
      ensures history == old(history) + [chains]
    {
      if call.Effective() && chains.Has(r) { chains := chains.Drop(r); }
      history := history + [chains];
    }

    /** `while -D rule; do :; done`, the loop the DELETE command runs on the gateway. */
    method DropEveryCopy(r: Rule, call: PurgeCall) returns (ok: bool)
      modifies this
      ensures ok == call.Purged?
      ensures call.Purged? ==> chains == old(chains).Purge([r])
      ensures call.NotRun? ==> chains == old(chains)
      ensures OnlyPurges(old(chains), chains, [r]) && history == old(history) + [chains]
    {
      NothingPurged(chains, [r]);
      if !call.NotRun? {
        var done := 0;
        while chains.Has(r) && (call.Purged? || done < call.copies)
          invariant OnlyPurges(old(chains), chains, [r]) && history == old(history)
          decreases |chains.Get(ChainOf(r))|
        {
          DropOnlyPurges(chains, r, [r]);
          OnlyPurgesThen(old(chains), chains, chains.Drop(r), [r], [r]);
          RemoveFirstShorter(chains.Get(ChainOf(r)), r);
          chains := chains.Drop(r);
          done := done + 1;
        }
        if call.Purged? {
          OnlyPurgesKeepsRest(old(chains), chains, [r]);
          PurgeAbsent(chains, [r]);
        }
      }
      history := history + [chains];
      ok := call.Purged?;
    }
  }

  lemma {:induction false} RemoveFirstShorter(s: seq<Rule>, r: Rule)
    requires r in s
    ensures |RemoveFirst(s, r)| == |s| - 1
  {
    if s[0] != r { RemoveFirstShorter(s[1..], r); }
  }

  /** Every chain state recorded after the first n only adds requested rules. */
  ghost predicate StepsOnlyAdd(history: seq<Chains>, n: nat, before: Chains, rules: seq<Rule>) {
    n <= |history| && forall i | n <= i < |history| :: OnlyAdds(before, history[i], rules)
  }

  /** Inspect every rule, append the missing ones, and on a failure take back the
      attempted additions in reverse order. */
  method RunAdd(gw: Gateway, rules: seq<Rule>, f: AddFaults) returns (ok: bool)
    modifies gw
    ensures ok == NothingFails(f, old(gw.chains), rules)
    ensures ok ==> (forall i | 0 <= i < |rules| :: f.check(i).Answered?) && forall r | r in rules :: gw.chains.Has(r)
    ensures (forall i: nat :: f.check(i).Answered? && f.add(i).Done?) ==> ok
    ensures (exists i | 0 <= i < |rules| :: !f.check(i).Answered?) ==> !ok && gw.chains == old(gw.chains)
    ensures (forall i: nat :: f.undo(i).Done?) && !ok ==> gw.chains == old(gw.chains)
    ensures old(gw.chains.prerouting) <= gw.chains.prerouting && old(gw.chains.forward) <= gw.chains.forward
    ensures ok ==> gw.chains == old(gw.chains).AddAll(Missing(old(gw.chains), rules))
    ensures !ok && (InspectionFails(f, rules) || UndoCovers(f, old(gw.chains), rules)) ==> gw.chains == old(gw.chains)
    ensures !ok && Distinct(rules) && gw.chains == old(gw.chains) ==>
              InspectionFails(f, rules) || UndoCovers(f, old(gw.chains), rules)
    ensures OnlyAdds(old(gw.chains), gw.chains, rules)
    ensures old(gw.history) <= gw.history
    ensures StepsOnlyAdd(gw.history, |old(gw.history)|, old(gw.chains), rules)
  {
    ghost var start := gw.chains;
    NothingAdded(start, rules);
    MissingMembers(start, rules);
    AddedRulesPresent(start, rules);
    var inspected, pending := Inspect(gw, rules, f);
    if !inspected { return false; }
    var attempted;
    ghost var w;
    ok, attempted, w := AppendMissing(gw, pending, rules, f);
    if !ok {
      CoversWhatTookEffect(f, start, rules, attempted, w);
      if Distinct(rules) { MissingDistinct(start, rules); }
      RollBack(gw, start, w, attempted, rules, f);
    }
  }

  /** After an add pass that stopped early, the compensations that matter are those of what
      took effect. */
  lemma CoversWhatTookEffect(f: AddFaults, before: Chains, rules: seq<Rule>, attempted: seq<Rule>, w: seq<Rule>)
    requires attempted != [] && attempted <= Missing(before, rules) && w <= attempted && |attempted| - 1 <= |w|
    requires Reached(f, |attempted| - 1) && !f.add(|attempted| - 1).Done?
    requires w == attempted <==> f.add(|attempted| - 1).Effective()
    ensures UndoCovers(f, before, rules) <==> forall j | 0 <= j < |w| :: f.undo(j).Effective()
  {
    forall j | 0 <= j < |Missing(before, rules)| ensures Reached(f, j) && f.add(j).Effective() <==> j < |w| {
      if j >= |attempted| { assert !Reached(f, j); }
    }
  }

  /** The check pass, before anything changes: which rules are missing? */
  method Inspect(gw: Gateway, rules: seq<Rule>, f: AddFaults) returns (ok: bool, pending: seq<Rule>)
    ensures ok == (forall i | 0 <= i < |rules| :: f.check(i).Answered?)
    ensures ok ==> pending == Missing(gw.chains, rules)
  {
    pending := [];
    for i := 0 to |rules|
      invariant pending == Missing(gw.chains, rules[..i])
      invariant forall k | 0 <= k < i :: f.check(k).Answered?
    {
      MissingPrefix(gw.chains, rules, i);
      if f.check(i).Broken? { return false, pending; }
      if !gw.chains.Has(rules[i]) { pending := pending + [rules[i]]; }
    }
    assert rules[..|rules|] == rules;
    ok := true;
  }

  /** The add pass: append until a call fails. `w` is what took effect. */
  method AppendMissing(gw: Gateway, pending: seq<Rule>, ghost rules: seq<Rule>, f: AddFaults)
    returns (ok: bool, attempted: seq<Rule>, ghost w: seq<Rule>)
    requires forall r | r in pending :: r in rules && !gw.chains.Has(r)
    modifies gw
    ensures ok == (forall j | 0 <= j < |pending| :: f.add(j).Done?)
    ensures ok ==> w == pending
    ensures !ok ==> attempted != [] && attempted <= pending && w <= attempted && |attempted| - 1 <= |w|
    ensures !ok ==> Reached(f, |attempted| - 1) && !f.add(|attempted| - 1).Done?
    ensures !ok ==> (w == attempted <==> f.add(|attempted| - 1).Effective())
    ensures gw.chains == old(gw.chains).AddAll(w)
    ensures old(gw.history) <= gw.history
    ensures StepsOnlyAdd(gw.history, |old(gw.history)|, old(gw.chains), rules)
  {
    ghost var start := gw.chains;
    ok, attempted, w := true, [], [];
    assert start == start.AddAll([]);
    while |attempted| < |pending| && ok
      invariant attempted <= pending
      invariant gw.chains == start.AddAll(w) && w <= attempted
      invariant ok ==> w == attempted && Reached(f, |attempted|)
      invariant !ok ==> attempted != [] && |attempted| - 1 <= |w| && Reached(f, |attempted| - 1)
      invariant !ok ==> !f.add(|attempted| - 1).Done? && (w == attempted <==> f.add(|attempted| - 1).Effective())
      invariant old(gw.history) <= gw.history
      invariant StepsOnlyAdd(gw.history, |old(gw.history)|, start, rules)
      decreases |pending| - |attempted|
    {
      var j, r := |attempted|, pending[|attempted|];
      assert pending[..j + 1] == attempted + [r];
      attempted := attempted + [r];
      ok := gw.Append(r, f.add(j));
      if f.add(j).Effective() {
        AppendAfterAddAll(start, w, r);
        w := w + [r];
      }
      assert OnlyAdds(start, gw.chains, rules);
    }
  }

  /** Take back the attempted additions, last first. `w` is what they left on the gateway:
      all of them, or all but the last. */
  method RollBack(gw: Gateway, ghost start: Chains, ghost w: seq<Rule>, attempted: seq<Rule>,
                  ghost rules: seq<Rule>, f: AddFaults)
    requires gw.chains == start.AddAll(w)
    requires forall r | r in attempted :: r in rules && !start.Has(r)
    requires attempted != [] && w <= attempted && |attempted| - 1 <= |w|
    modifies gw
    ensures (forall j | 0 <= j < |w| :: f.undo(j).Effective()) ==> gw.chains == start
    ensures Distinct(attempted) && gw.chains == start ==> forall j | 0 <= j < |w| :: f.undo(j).Effective()
    ensures OnlyAdds(start, gw.chains, rules)
    ensures old(gw.history) <= gw.history
    ensures StepsOnlyAdd(gw.history, |old(gw.history)|, start, rules)
  {
    ghost var left := w;
    var n := |attempted|;
    assert attempted[..n] == attempted == w + attempted[|w|..];
    for j := n downto 0
      invariant gw.chains == start.AddAll(left) && Undoing(left, w, attempted, j, f)
      invariant old(gw.history) <= gw.history
      invariant StepsOnlyAdd(gw.history, |old(gw.history)|, start, rules)
    {
      left := UndoAttempt(gw, start, left, w, attempted, j, rules, f);
    }
    Undone(start, left, w, attempted, f);
  }

  /** One turn of the rollback loop. */
  method UndoAttempt(gw: Gateway, ghost start: Chains, ghost left: seq<Rule>, ghost w: seq<Rule>, attempted: seq<Rule>,
                     j: nat, ghost rules: seq<Rule>, f: AddFaults) returns (ghost now: seq<Rule>)
    requires j < |attempted| && Undoing(left, w, attempted, j + 1, f)
    requires gw.chains == start.AddAll(left) && w <= attempted && |attempted| - 1 <= |w|
    requires forall r | r in attempted :: r in rules && !start.Has(r)
    modifies gw
    ensures gw.chains == start.AddAll(now) && Undoing(now, w, attempted, j, f)
    ensures OnlyAdds(start, gw.chains, rules) && gw.history == old(gw.history) + [gw.chains]
  {
    UndoOne(start, left, attempted[j]);
    UndoStep(left, w, attempted, j, f);
    now := if f.undo(j).Effective() then RemoveFirst(left, attempted[j]) else left;
    gw.GuardedDrop(attempted[j], f.undo(j));
  }

  /** What is left in the end: nothing if every compensation took effect, and if the
      attempts were distinct, only then. */
  lemma Undone(start: Chains, left: seq<Rule>, w: seq<Rule>, attempted: seq<Rule>, f: AddFaults)
    requires Undoing(left, w, attempted, 0, f) && w <= attempted
    requires forall r | r in attempted :: !start.Has(r)
    ensures (forall j | 0 <= j < |w| :: f.undo(j).Effective()) ==> start.AddAll(left) == start
    ensures Distinct(attempted) && start.AddAll(left) == start ==> forall j | 0 <= j < |w| :: f.undo(j).Effective()
  {
    if forall j | 0 <= j < |w| :: f.undo(j).Effective() {
      assert multiset(left) == multiset{} && |left| == |multiset(left)|;
      assert start == start.AddAll([]);
    }
  }

  lemma {:induction false} MissingDistinct(c: Chains, rules: seq<Rule>)
    requires Distinct(rules)
    ensures Distinct(Missing(c, rules))
  {
    if rules == [] {
    } else {
      MissingDistinct(c, rules[..|rules| - 1]);
      MissingMembers(c, rules[..|rules| - 1]);
    }
  }

  /** Halfway through the rollback, with the attempts from j on undone: `left` remains of w. */
  ghost predicate Undoing(left: seq<Rule>, w: seq<Rule>, attempted: seq<Rule>, j: nat, f: AddFaults)
    requires j <= |attempted|
  {
    && (forall r | r in left :: r in w)
    && (j == |attempted| ==> left == w)
    && ((forall k | j <= k < |w| :: f.undo(k).Effective()) ==> multiset(left) <= multiset(attempted[..j]))
    && (Distinct(attempted) ==> forall k | 0 <= k < |w| && (k < j || !f.undo(k).Effective()) :: w[k] in left)
  }

  lemma UndoStep(left: seq<Rule>, w: seq<Rule>, attempted: seq<Rule>, j: nat, f: AddFaults)
    requires j < |attempted| && Undoing(left, w, attempted, j + 1, f)
    requires w <= attempted && |attempted| - 1 <= |w|
    ensures Undoing(if f.undo(j).Effective() then RemoveFirst(left, attempted[j]) else left, w, attempted, j, f)
  {
    RemoveFirstKeeps(left, attempted[j]);
    if forall k | j <= k < |w| :: f.undo(k).Effective() { UndoneSoFar(left, w, attempted, j, f); }
  }

  lemma UndoneSoFar(left: seq<Rule>, w: seq<Rule>, attempted: seq<Rule>, j: nat, f: AddFaults)
    requires j < |attempted| && Undoing(left, w, attempted, j + 1, f)
    requires w <= attempted && |attempted| - 1 <= |w| && forall k | j <= k < |w| :: f.undo(k).Effective()
    ensures multiset(if f.undo(j).Effective() then RemoveFirst(left, attempted[j]) else left)
              <= multiset(attempted[..j])
  {
    assert attempted[..j + 1] == attempted[..j] + [attempted[j]];
    if f.undo(j).Effective() {
      RemoveFirstFewer(left, attempted[j], attempted[..j]);
    } else {
      assert left == w == attempted[..j];
    }
  }

  lemma RemoveFirstFewer(left: seq<Rule>, r: Rule, earlier: seq<Rule>)
    requires multiset(left) <= multiset(earlier + [r])
    ensures multiset(RemoveFirst(left, r)) <= multiset(earlier)
  {
    RemoveFirstMultiset(left, r);
  }

  lemma RemoveFirstKeeps(left: seq<Rule>, r: Rule)
    ensures forall x | x in RemoveFirst(left, r) :: x in left
    ensures forall x | x in left && x != r :: x in RemoveFirst(left, r)
  {
    RemoveFirstMultiset(left, r);
    forall x | x in RemoveFirst(left, r) ensures x in left {
      assert x in multiset(RemoveFirst(left, r));
    }
    forall x | x in left && x != r ensures x in RemoveFirst(left, r) {
      assert x in multiset(left) && x in multiset(RemoveFirst(left, r));
    }
  }

  /** One compensation takes its rule back if it is there. */
  lemma UndoOne(start: Chains, left: seq<Rule>, r: Rule)
    requires !start.Has(r)
    ensures var now := start.AddAll(left);
            (if now.Has(r) then now.Drop(r) else now) == start.AddAll(RemoveFirst(left, r))
  {
    HasAfterAddAll(start, left, r);
    DropAfterAddAll(start, left, r);
    if r !in left { RemoveFirstAbsent(left, r); }
  }

  lemma NothingAdded(c: Chains, rules: seq<Rule>)
    ensures OnlyAdds(c, c, rules)
  {
    assert c == c.AddAll([]);
  }

  /** Additions one after the other are additions. */
  lemma OnlyAddsTwice(a: Chains, b: Chains, c: Chains, rules: seq<Rule>, more: seq<Rule>)
    requires OnlyAdds(a, b, rules) && OnlyAdds(b, c, more)
    ensures OnlyAdds(a, c, rules + more)
  {
    var v :| b == a.AddAll(v) && forall r | r in v :: r in rules && !a.Has(r);
    var w :| c == b.AddAll(w) && forall r | r in w :: r in more && !b.Has(r);
    AddAllTwice(a, v, w);
    forall r | r in w ensures !a.Has(r) { HasAfterAddAll(a, v, r); }
    assert c == a.AddAll(v + w);
  }

  /** Of the first n rules none is left whose command worked. */
  predicate GoneSoFar(c: Chains, rules: seq<Rule>, calls: nat -> PurgeCall, n: nat)
    requires n <= |rules|
  {
    forall k | 0 <= k < n :: calls(k).Purged? ==> !c.Has(rules[k])
  }

  lemma GoneNext(before: Chains, after: Chains, rules: seq<Rule>, calls: nat -> PurgeCall, n: nat)
    requires n < |rules| && GoneSoFar(before, rules, calls, n) && OnlyPurges(before, after, [rules[n]])
    requires calls(n).Purged? ==> after == before.Purge([rules[n]])
    ensures GoneSoFar(after, rules, calls, n + 1)
  {
    OnlyPurgesMembers(before, after, [rules[n]]);
    PurgeMembers(before, [rules[n]]);
  }

  /** The DELETE action: each command removes every copy of its rule; a refused command
      is passed over, a lost reply ends the run. */
  method RunDelete(gw: Gateway, rules: seq<Rule>, calls: nat -> PurgeCall) returns (ok: bool)
    modifies gw
    ensures ok == (forall i | 0 <= i < |rules| :: calls(i).Purged?)
    ensures ok ==> gw.chains == old(gw.chains).Purge(rules)
    ensures OnlyPurges(old(gw.chains), gw.chains, rules)
    ensures forall i | 0 <= i < |rules| && calls(i).Purged? && (forall k | 0 <= k < i :: !calls(k).Cut?) ::
              !gw.chains.Has(rules[i])
    ensures old(gw.history) <= gw.history
    ensures forall i | |old(gw.history)| <= i < |gw.history| :: OnlyPurges(old(gw.chains), gw.history[i], rules)
  {
    ok := true;
    PurgeAbsent(gw.chains, []);
    NothingPurged(gw.chains, rules);
    var i := 0;
    while i < |rules|
      invariant i <= |rules| && ok == (forall k | 0 <= k < i :: calls(k).Purged?)
      invariant PurgedSoFar(old(gw.chains), gw.chains, rules, calls, i, ok)
      invariant old(gw.history) <= gw.history
      invariant forall k | |old(gw.history)| <= k < |gw.history| :: OnlyPurges(old(gw.chains), gw.history[k], rules)
    {
      ghost var before := gw.chains;
      var purged := gw.DropEveryCopy(rules[i], calls(i));
      PurgedNext(old(gw.chains), before, gw.chains, rules, calls, i, ok);
      ok := ok && purged;
      if calls(i).Cut? {
        return;
      }
      i := i + 1;
    }
    assert rules[..|rules|] == rules;
  }

  /** Halfway through a DELETE; ok says that every command so far has worked. */
  predicate PurgedSoFar(start: Chains, now: Chains, rules: seq<Rule>, calls: nat -> PurgeCall, i: nat, ok: bool)
    requires i <= |rules|
  {
    && (ok ==> now == start.Purge(rules[..i])) && OnlyPurges(start, now, rules) && GoneSoFar(now, rules, calls, i)
  }

  lemma PurgedNext(start: Chains, before: Chains, now: Chains, rules: seq<Rule>, calls: nat -> PurgeCall, i: nat,
                   ok: bool)
    requires i < |rules| && PurgedSoFar(start, before, rules, calls, i, ok) && OnlyPurges(before, now, [rules[i]])
    requires calls(i).Purged? ==> now == before.Purge([rules[i]])
    ensures PurgedSoFar(start, now, rules, calls, i + 1, ok && calls(i).Purged?)
  {
    OnlyPurgesThen(start, before, now, [rules[i]], rules);
    GoneNext(before, now, rules, calls, i);
    PurgeTwice(start, rules[..i], [rules[i]]);
    assert rules[..i] + [rules[i]] == rules[..i + 1];
  }

  // ---------------------------------------------------------------------------
  // manage_iptables and manage_custom_iptables
  // ---------------------------------------------------------------------------

  /** One SSH session with the gateway: is it configured, does the connection open,
      and how do its commands fare? */
  datatype Session = Session(configured: bool, connects: bool, add: AddFaults, purge: nat -> PurgeCall) {
    predicate Opens() { configured && connects }
  }

  predicate AddWorks(s: Session, before: Chains, rules: seq<Rule>) {
    s.Opens() && NothingFails(s.add, before, rules)
  }

  /** A failing ADD leaves nothing behind. */
  predicate AddCompensates(s: Session, before: Chains, rules: seq<Rule>) {
    !s.Opens() || InspectionFails(s.add, rules) || UndoCovers(s.add, before, rules)
  }

  predicate DeleteWorks(s: Session, rules: seq<Rule>) {
    s.Opens() && forall i | 0 <= i < |rules| :: s.purge(i).Purged?
  }

  method Add(gw: Gateway, rules: seq<Rule>, s: Session) returns (ok: bool)
    modifies gw
    ensures ok == AddWorks(s, old(gw.chains), rules)
    ensures ok ==> s.configured && s.connects && forall r | r in rules :: gw.chains.Has(r)
    ensures s.configured && s.connects && (forall i: nat :: s.add.check(i).Answered? && s.add.add(i).Done?) ==> ok
    ensures !s.configured || !s.connects ==> gw.chains == old(gw.chains)
    ensures (forall i: nat :: s.add.undo(i).Done?) && !ok ==> gw.chains == old(gw.chains)
    ensures old(gw.chains.prerouting) <= gw.chains.prerouting && old(gw.chains.forward) <= gw.chains.forward
    ensures ok ==> gw.chains == old(gw.chains).AddAll(Missing(old(gw.chains), rules))
    ensures !ok && AddCompensates(s, old(gw.chains), rules) ==> gw.chains == old(gw.chains)
    ensures !ok && Distinct(rules) && gw.chains == old(gw.chains) ==> AddCompensates(s, old(gw.chains), rules)
    ensures OnlyAdds(old(gw.chains), gw.chains, rules)
    ensures old(gw.history) <= gw.history && StepsOnlyAdd(gw.history, |old(gw.history)|, old(gw.chains), rules)
  {
    NothingAdded(gw.chains, rules);
    if !s.configured || !s.connects { return false; }
    ok := RunAdd(gw, rules, s.add);
  }

  method Delete(gw: Gateway, rules: seq<Rule>, s: Session) returns (ok: bool)
    modifies gw
    ensures ok == DeleteWorks(s, rules)
    ensures ok ==> gw.chains == old(gw.chains).Purge(rules)
    ensures OnlyPurges(old(gw.chains), gw.chains, rules) && old(gw.history) <= gw.history
    ensures s.configured && s.connects && (forall i :: !s.purge(i).Cut?) ==>
              forall i | 0 <= i < |rules| && s.purge(i).Purged? :: !gw.chains.Has(rules[i])
  {
    NothingPurged(gw.chains, rules);
    if !s.configured || !s.connects { return false; }
    ok := RunDelete(gw, rules, s.purge);
  }

  /** A port is forwarded from everywhere. */
  predicate Forwarded(c: Chains, p: Protocol, externalPort: int, ip: Ip, internalPort: int) {
    Dnat(None, p, externalPort, ip, internalPort) in c.prerouting && Accept(None, p, ip, internalPort) in c.forward
  }

  /** SSH, HTTP and the service port of a VM are forwarded. */
  predicate DefaultsForwarded(c: Chains, base: int, vmid: int, ip: Ip) {
    && Forwarded(c, Tcp, base + vmid, ip, 22) && Forwarded(c, Tcp, base + 1000 + vmid, ip, 80)
    && Forwarded(c, Tcp, base + 2000 + vmid, ip, 10000) && Forwarded(c, Udp, base + 2000 + vmid, ip, 10000)
  }

  lemma DefaultsAreForwarded(c: Chains, base: int, vmid: int, ip: Ip)
    requires CalculatePorts(base, vmid).Some?
    requires forall r | r in DefaultRules(CalculatePorts(base, vmid).value, ip) :: c.Has(r)
    ensures DefaultsForwarded(c, base, vmid, ip)
  {
    forall r | r in DefaultRules(CalculatePorts(base, vmid).value, ip)
      ensures r.Dnat? ==> r in c.prerouting
      ensures r.Accept? ==> r in c.forward
    {
      assert c.Has(r);
    }
    DefaultRulesAre(base, vmid, ip, Dnat(None, Tcp, base + vmid, ip, 22));
    DefaultRulesAre(base, vmid, ip, Accept(None, Tcp, ip, 22));
    DefaultRulesAre(base, vmid, ip, Dnat(None, Tcp, base + 1000 + vmid, ip, 80));
    DefaultRulesAre(base, vmid, ip, Accept(None, Tcp, ip, 80));
    DefaultRulesAre(base, vmid, ip, Dnat(None, Tcp, base + 2000 + vmid, ip, 10000));
    DefaultRulesAre(base, vmid, ip, Accept(None, Tcp, ip, 10000));
    DefaultRulesAre(base, vmid, ip, Dnat(None, Udp, base + 2000 + vmid, ip, 10000));
    DefaultRulesAre(base, vmid, ip, Accept(None, Udp, ip, 10000));
  }

  /** manage_iptables with action ADD. None is the ValueError of an impossible port;
      a gateway that is not configured is noticed first. */
  method ManageAdd(gw: Gateway, base: int, vmid: int, ip: Ip, s: Session) returns (r: Option<bool>)
    modifies gw
    ensures r.None? <==> s.configured && CalculatePorts(base, vmid).None?
    ensures CalculatePorts(base, vmid).None? ==> gw.chains == old(gw.chains) && r != Some(true)
    ensures CalculatePorts(base, vmid).Some? ==>
              var rules := DefaultRules(CalculatePorts(base, vmid).value, ip);
              && r == Some(AddWorks(s, old(gw.chains), rules))
              && (r.value ==> gw.chains == old(gw.chains).AddAll(Missing(old(gw.chains), rules)))
              && (r.value ==> DefaultsForwarded(gw.chains, base, vmid, ip))
              && (!r.value ==> (gw.chains == old(gw.chains) <==> AddCompensates(s, old(gw.chains), rules)))
              && OnlyAdds(old(gw.chains), gw.chains, rules)
  {
    if !s.configured {
      if CalculatePorts(base, vmid).Some? {
        NothingAdded(gw.chains, DefaultRules(CalculatePorts(base, vmid).value, ip));
      }
      return Some(false);
    }
    var ports := CalculatePorts(base, vmid);
    if ports.None? { return None; }
    DefaultRulesDistinct(base, vmid, ip);
    var ok := Add(gw, DefaultRules(ports.value, ip), s);
    if ok { DefaultsAreForwarded(gw.chains, base, vmid, ip); }
    return Some(ok);
  }

  /** manage_iptables with action DELETE. */
  method ManageDelete(gw: Gateway, base: int, vmid: int, ip: Ip, s: Session) returns (r: Option<bool>)
    modifies gw
    ensures r.None? <==> s.configured && CalculatePorts(base, vmid).None?
    ensures CalculatePorts(base, vmid).None? ==> gw.chains == old(gw.chains) && r != Some(true)
    ensures CalculatePorts(base, vmid).Some? ==>
              var rules := DefaultRules(CalculatePorts(base, vmid).value, ip);
              && r == Some(DeleteWorks(s, rules))
              && (r.value ==> gw.chains == old(gw.chains).Purge(rules))
              && OnlyPurges(old(gw.chains), gw.chains, rules)
  {
    var ports := CalculatePorts(base, vmid);
    if !s.configured {
      if ports.Some? { NothingPurged(gw.chains, DefaultRules(ports.value, ip)); }
      return Some(false);
    }
    if ports.None? { return None; }
    var ok := Delete(gw, DefaultRules(ports.value, ip), s);
    return Some(ok);
  }

  /** Neither rule of a forwarded port and protocol is on the gateway. */
  predicate PairGone(c: Chains, source: Source, p: Protocol, externalPort: int, ip: Ip, internalPort: int) {
    Dnat(source, p, externalPort, ip, internalPort) !in c.prerouting
        && Accept(source, p, ip, internalPort) !in c.forward
  }

  lemma PairsStayGone(before: Chains, after: Chains, rules: seq<Rule>)
    requires OnlyPurges(before, after, rules)
    ensures forall source, p, e, ip, n | PairGone(before, source, p, e, ip, n) :: PairGone(after, source, p, e, ip, n)
  {
    OnlyPurgesMembers(before, after, rules);
    forall source, p, e, ip, n | PairGone(before, source, p, e, ip, n)
      ensures PairGone(after, source, p, e, ip, n)
    {
      assert !before.Has(Dnat(source, p, e, ip, n)) && !before.Has(Accept(source, p, ip, n));
      assert !after.Has(Dnat(source, p, e, ip, n)) && !after.Has(Accept(source, p, ip, n));
    }
  }

  lemma PurgedPairGone(c: Chains, source: Source, p: Protocol, externalPort: int, ip: Ip, internalPort: int)
    ensures PairGone(c.Purge(RulePair(source, p, externalPort, ip, internalPort)), source, p, externalPort, ip,
              internalPort)
  {
    var pair := RulePair(source, p, externalPort, ip, internalPort);
    PurgeMembers(c, pair);
    assert pair[0] in pair && pair[1] in pair;
    assert !c.Purge(pair).Has(pair[0]) && !c.Purge(pair).Has(pair[1]);
  }

  /** What deleting a port row asks of the gateway: one DELETE session per protocol. A failed
      session is logged and passed over. */
  method DeleteRowRules(gw: Gateway, row: PortRow, ip: Ip, sessions: Protocol -> Session) returns (ok: bool)
    modifies gw
    ensures ok == (forall p | p in row.protocol.Expand() ::
                     DeleteWorks(sessions(p),
                                 RulePair(Normalize(row.source), p, row.externalPort, ip, row.internalPort)))
    ensures ok ==> gw.chains == old(gw.chains).Purge(RowRules(row, ip))
    ensures OnlyPurges(old(gw.chains), gw.chains, RowRules(row, ip))
    // A session that fails does not keep the others from removing theirs.
    ensures forall p | p in row.protocol.Expand()
                       && DeleteWorks(sessions(p),
                                      RulePair(Normalize(row.source), p, row.externalPort, ip, row.internalPort)) ::
              PairGone(gw.chains, Normalize(row.source), p, row.externalPort, ip, row.internalPort)
  {
    var protocols, source := row.protocol.Expand(), Normalize(row.source);
    ok := true;
    PurgeAbsent(gw.chains, []);
    NothingPurged(gw.chains, RowRules(row, ip));
    for j := 0 to |protocols|
      invariant ok == (forall p | p in protocols[..j] ::
                         DeleteWorks(sessions(p), RulePair(source, p, row.externalPort, ip, row.internalPort)))
      invariant ok ==>
                  gw.chains == old(gw.chains).Purge(PairsFor(protocols[..j], source, row.externalPort, ip,
                                                             row.internalPort))
      invariant OnlyPurges(old(gw.chains), gw.chains, RowRules(row, ip))
      invariant forall p | p in protocols[..j]
                && DeleteWorks(sessions(p), RulePair(source, p, row.externalPort, ip, row.internalPort)) ::
                  PairGone(gw.chains, source, p, row.externalPort, ip, row.internalPort)
    {
      var pair := RulePair(source, protocols[j], row.externalPort, ip, row.internalPort);
      ghost var before := gw.chains;
      var worked := Delete(gw, pair, sessions(protocols[j]));
      PairsStayGone(before, gw.chains, pair);
      if worked { PurgedPairGone(before, source, protocols[j], row.externalPort, ip, row.internalPort); }
      assert protocols[..j + 1] == protocols[..j] + [protocols[j]];
      PairsForMembers(protocols, source, row.externalPort, ip, row.internalPort);
      OnlyPurgesThen(old(gw.chains), before, gw.chains, pair, RowRules(row, ip));
      PairsForAppend(protocols[..j], protocols[j], source, row.externalPort, ip, row.internalPort);
      PurgeTwice(old(gw.chains), PairsFor(protocols[..j], source, row.externalPort, ip, row.internalPort), pair);
      ok := ok && worked;
    }
    assert protocols[..|protocols|] == protocols;
  }

  // ---------------------------------------------------------------------------
  // What the contracts add up to
  // ---------------------------------------------------------------------------

  /** A successful ADD leaves every requested rule present, and nothing else new. */
  lemma AddedRulesPresent(before: Chains, rules: seq<Rule>)
    ensures forall r :: before.AddAll(Missing(before, rules)).Has(r) <==> before.Has(r) || r in rules
  {
    MissingMembers(before, rules);
    forall r
      ensures before.AddAll(Missing(before, rules)).Has(r) <==> before.Has(r) || r in rules
    {
      HasAfterAddAll(before, Missing(before, rules), r);
    }
  }

  /** Rules that are not requested are all there, in order. */
  lemma OnlyTouchesKeepsRest(before: Chains, after: Chains, rules: seq<Rule>)
    requires OnlyTouches(before, after, rules)
    ensures after.Purge(rules) == before.Purge(rules)
  {
    var middle :| OnlyAdds(before, middle, rules) && OnlyPurges(middle, after, rules);
    DeleteAfterAnyAdd(before, middle, rules);
    OnlyPurgesKeepsRest(middle, after, rules);
  }

  /** Whatever an ADD did, a later DELETE of the same rules that works leaves exactly
      what purging the starting chains would have left. */
  lemma DeleteAfterAnyAdd(before: Chains, middle: Chains, rules: seq<Rule>)
    requires OnlyAdds(before, middle, rules)
    ensures middle.Purge(rules) == before.Purge(rules)
    ensures middle.Purge(rules) == before <==> forall r | r in rules :: !before.Has(r)
  {
    var w :| middle == before.AddAll(w) && forall r | r in w :: r in rules && !before.Has(r);
    PurgeAfterAddAll(before, w, rules);
    PurgeMembers(before, rules);
    if forall r | r in rules :: !before.Has(r) { PurgeAbsent(before, rules); }
  }
}
