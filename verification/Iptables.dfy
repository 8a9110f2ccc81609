/** The gateway's two rule chains as ordered lists, and what iptables does to them:
    `-A` appends, `-C` looks for a rule, `-D` removes the first match. */
module Iptables {
  import opened Prelude

  datatype Chain = Prerouting | Forward
  datatype Protocol = Tcp | Udp

  /** A source restriction after normalization; None means every source. */
  type Source = Option<string>
  type Ip = int

  datatype Rule =
    | Dnat(source: Source, protocol: Protocol, externalPort: int, ip: Ip, internalPort: int)
    | Accept(source: Source, protocol: Protocol, ip: Ip, internalPort: int)
    | Foreign(chain: Chain, text: string)

  /** The chain a rule lives in: DNAT rules in nat/PREROUTING, ACCEPT rules in FORWARD. */
  function ChainOf(r: Rule): (k: Chain)
    ensures (r.Dnat? ==> k == Prerouting) && (r.Accept? ==> k == Forward)
  {
    match r
    case Dnat(_, _, _, _, _) => Prerouting
    case Accept(_, _, _, _) => Forward
    case Foreign(chain, _) => chain
  }

  datatype Chains = Chains(prerouting: seq<Rule>, forward: seq<Rule>) {
    function Get(k: Chain): seq<Rule> {
      if k == Prerouting then prerouting else forward
    }

    function Set(k: Chain, s: seq<Rule>): Chains {
      if k == Prerouting then this.(prerouting := s) else this.(forward := s)
    }

    /** `-C` */
    predicate Has(r: Rule) { r in Get(ChainOf(r)) }

    /** `-A` */
    function Append(r: Rule): (c: Chains)
      ensures ChainOf(r) == Prerouting ==> c.prerouting == prerouting + [r] && c.forward == forward
      ensures ChainOf(r) == Forward ==> c.forward == forward + [r] && c.prerouting == prerouting
    { Set(ChainOf(r), Get(ChainOf(r)) + [r]) }

    /** `-D` */
    function Drop(r: Rule): Chains { Set(ChainOf(r), RemoveFirst(Get(ChainOf(r)), r)) }

    /** The chains with the rules of w appended in order, each to its own chain. */
    function AddAll(w: seq<Rule>): (c: Chains)
      ensures prerouting <= c.prerouting && forward <= c.forward
    {
      Chains(prerouting + On(w, Prerouting), forward + On(w, Forward))
    }

    /** The chains with every copy of every listed rule gone from its own chain. */
    function Purge(rules: seq<Rule>): Chains {
      Chains(Without(prerouting, On(rules, Prerouting)), Without(forward, On(rules, Forward)))
    }
  }

  /** The rules of w that go to chain k, in order. */
  function On(w: seq<Rule>, k: Chain): seq<Rule> {
    if w == [] then []
    else if ChainOf(w[|w| - 1]) == k then On(w[..|w| - 1], k) + [w[|w| - 1]]
    else On(w[..|w| - 1], k)
  }

  function RemoveFirst(s: seq<Rule>, r: Rule): seq<Rule> {
    if s == [] then []
    else if s[0] == r then s[1..]
    else [s[0]] + RemoveFirst(s[1..], r)
  }

  function Without(s: seq<Rule>, rules: seq<Rule>): seq<Rule> {
    if s == [] then []
    else if s[0] in rules then Without(s[1..], rules)
    else [s[0]] + Without(s[1..], rules)
  }

  /** `after` is `before` with some copies of listed rules taken out, the rest in its order. */
  predicate Thinned(after: seq<Rule>, before: seq<Rule>, rules: seq<Rule>) {
    if before == [] then after == []
    else
      || (after != [] && after[0] == before[0] && Thinned(after[1..], before[1..], rules))
      || (before[0] in rules && Thinned(after, before[1..], rules))
  }

  /** after is before with, at most, copies of listed rules taken out of their own chain. */
  predicate OnlyPurges(before: Chains, after: Chains, rules: seq<Rule>) {
    && Thinned(after.prerouting, before.prerouting, On(rules, Prerouting))
    && Thinned(after.forward, before.forward, On(rules, Forward))
  }

  /** The rules of the list that the chains do not hold, in order. */
  function Missing(c: Chains, rules: seq<Rule>): seq<Rule> {
    if rules == [] then []
    else
      var last := rules[|rules| - 1];
      Missing(c, rules[..|rules| - 1]) + (if c.Has(last) then [] else [last])
  }

  // ---------------------------------------------------------------------------
  // Appending
  // ---------------------------------------------------------------------------

  lemma {:induction false} OnMembers(w: seq<Rule>, k: Chain)
    ensures forall r :: r in On(w, k) <==> r in w && ChainOf(r) == k
  {
    if w == [] {
    } else {
      OnMembers(w[..|w| - 1], k);
      assert w == w[..|w| - 1] + [w[|w| - 1]];
    }
  }

  lemma AppendAfterAddAll(c: Chains, w: seq<Rule>, r: Rule)
    ensures c.AddAll(w).Append(r) == c.AddAll(w + [r])
  {
    assert (w + [r])[..|w|] == w;
  }

  lemma {:induction false} OnConcat(a: seq<Rule>, b: seq<Rule>, k: Chain)
    ensures On(a + b, k) == On(a, k) + On(b, k)
  {
    if b == [] {
      assert a + b == a;
    } else {
      assert (a + b)[..|a + b| - 1] == a + b[..|b| - 1];
      OnConcat(a, b[..|b| - 1], k);
    }
  }

  lemma AddAllTwice(c: Chains, a: seq<Rule>, b: seq<Rule>)
    ensures c.AddAll(a).AddAll(b) == c.AddAll(a + b)
  {
    OnConcat(a, b, Prerouting);
    OnConcat(a, b, Forward);
  }

  lemma HasAfterAddAll(c: Chains, w: seq<Rule>, r: Rule)
    ensures c.AddAll(w).Has(r) <==> c.Has(r) || r in w
  {
    OnMembers(w, ChainOf(r));
  }

  lemma {:induction false} MissingMembers(c: Chains, rules: seq<Rule>)
    ensures forall r :: r in Missing(c, rules) <==> r in rules && !c.Has(r)
  {
    if rules == [] {
    } else {
      MissingMembers(c, rules[..|rules| - 1]);
      assert rules == rules[..|rules| - 1] + [rules[|rules| - 1]];
    }
  }

  lemma {:induction false} MissingPrefix(c: Chains, rules: seq<Rule>, i: nat)
    requires i < |rules|
    ensures Missing(c, rules[..i + 1]) == Missing(c, rules[..i]) + (if c.Has(rules[i]) then [] else [rules[i]])
  {
    assert rules[..i + 1][..i] == rules[..i];
  }

  // ---------------------------------------------------------------------------
  // Removing one copy
  // ---------------------------------------------------------------------------

  lemma {:induction false} RemoveFirstPast(s: seq<Rule>, t: seq<Rule>, r: Rule)
    requires r !in s
    ensures RemoveFirst(s + t, r) == s + RemoveFirst(t, r)
  {
    if s == [] {
      assert s + t == t;
    } else {
      assert (s + t)[1..] == s[1..] + t;
      RemoveFirstPast(s[1..], t, r);
      assert (s + t)[0] == s[0] && s == [s[0]] + s[1..];
    }
  }

  lemma {:induction false} RemoveFirstBefore(s: seq<Rule>, t: seq<Rule>, r: Rule)
    requires r in s
    ensures RemoveFirst(s + t, r) == RemoveFirst(s, r) + t
  {
    assert (s + t)[1..] == s[1..] + t;
    if s[0] != r {
      RemoveFirstBefore(s[1..], t, r);
      assert [s[0]] + (RemoveFirst(s[1..], r) + t) == [s[0]] + RemoveFirst(s[1..], r) + t;
    }
  }

  lemma {:induction false} RemoveFirstAbsent(s: seq<Rule>, r: Rule)
    requires r !in s
    ensures RemoveFirst(s, r) == s
  {
    if s == [] {
    } else {
      RemoveFirstAbsent(s[1..], r);
    }
  }

  lemma {:induction false} RemoveFirstMultiset(s: seq<Rule>, r: Rule)
    ensures multiset(RemoveFirst(s, r)) == multiset(s) - multiset{r}
  {
    if s == [] {
    } else {
      assert s == [s[0]] + s[1..];
      RemoveFirstMultiset(s[1..], r);
    }
  }

  /** Selecting a chain commutes with removing a rule's first copy. */
  lemma {:induction false} OnRemoveFirst(w: seq<Rule>, r: Rule, k: Chain)
    ensures On(RemoveFirst(w, r), k) == if ChainOf(r) == k then RemoveFirst(On(w, k), r) else On(w, k)
  {
    if w == [] { return; }
    var front, last := w[..|w| - 1], w[|w| - 1];
    assert w == front + [last];
    OnRemoveFirst(front, r, k);
    OnMembers(front, k);
    if r in front {
      RemoveFirstBefore(front, [last], r);
      assert (RemoveFirst(front, r) + [last])[..|RemoveFirst(front, r)|] == RemoveFirst(front, r);
      if ChainOf(r) == k && ChainOf(last) == k { RemoveFirstBefore(On(front, k), [last], r); }
    } else {
      RemoveFirstPast(front, [last], r);
      RemoveFirstAbsent(front, r);
      if last == r {
        assert RemoveFirst([last], r) == [];
        assert front + [] == front;
        if ChainOf(r) == k { RemoveFirstPast(On(front, k), [last], r); assert On(front, k) + [] == On(front, k); }
      } else {
        assert RemoveFirst([last], r) == [last] + RemoveFirst([], r) == [last];
        if ChainOf(r) == k { OnMembers(w, k); RemoveFirstAbsent(On(w, k), r); }
      }
    }
  }

  /** Dropping a rule the starting chains did not hold only touches what was appended. */
  lemma DropAfterAddAll(c: Chains, w: seq<Rule>, r: Rule)
    requires !c.Has(r)
    ensures c.AddAll(w).Drop(r) == c.AddAll(RemoveFirst(w, r))
  {
    OnRemoveFirst(w, r, Prerouting);
    OnRemoveFirst(w, r, Forward);
    RemoveFirstPast(c.Get(ChainOf(r)), On(w, ChainOf(r)), r);
  }

  // ---------------------------------------------------------------------------
  // Removing every copy
  // ---------------------------------------------------------------------------

  lemma {:induction false} WithoutMembers(s: seq<Rule>, rules: seq<Rule>)
    ensures forall r :: r in Without(s, rules) <==> r in s && r !in rules
  {
    if s == [] {
    } else {
      WithoutMembers(s[1..], rules);
    }
  }

  lemma {:induction false} WithoutNothing(s: seq<Rule>, rules: seq<Rule>)
    requires forall r | r in s :: r !in rules
    ensures Without(s, rules) == s
  {
    if s == [] {
    } else {
      WithoutNothing(s[1..], rules);
    }
  }

  lemma {:induction false} WithoutEverything(s: seq<Rule>, rules: seq<Rule>)
    requires forall r | r in s :: r in rules
    ensures Without(s, rules) == []
  {
    if s == [] {
    } else {
      WithoutEverything(s[1..], rules);
    }
  }

  lemma {:induction false} WithoutConcat(s: seq<Rule>, t: seq<Rule>, rules: seq<Rule>)
    ensures Without(s + t, rules) == Without(s, rules) + Without(t, rules)
  {
    if s == [] {
      assert s + t == t;
    } else {
      assert (s + t)[1..] == s[1..] + t && (s + t)[0] == s[0];
      WithoutConcat(s[1..], t, rules);
    }
  }

  /** Removing in two rounds is removing the union. */
  lemma {:induction false} WithoutTwice(s: seq<Rule>, a: seq<Rule>, b: seq<Rule>)
    ensures Without(Without(s, a), b) == Without(s, a + b)
  {
    if s == [] {
    } else {
      WithoutTwice(s[1..], a, b);
    }
  }

  /** Only which rules are listed matters, not how often or in what order. */
  lemma {:induction false} WithoutSameSet(s: seq<Rule>, a: seq<Rule>, b: seq<Rule>)
    requires forall r :: r in a <==> r in b
    ensures Without(s, a) == Without(s, b)
  {
    if s == [] {
    } else {
      WithoutSameSet(s[1..], a, b);
    }
  }

  lemma PurgeTwice(c: Chains, a: seq<Rule>, b: seq<Rule>)
    ensures c.Purge(a).Purge(b) == c.Purge(a + b)
  {
    forall k: Chain
      ensures Without(Without(c.Get(k), On(a, k)), On(b, k)) == Without(c.Get(k), On(a + b, k))
    {
      WithoutTwice(c.Get(k), On(a, k), On(b, k));
      OnMembers(a, k);
      OnMembers(b, k);
      OnMembers(a + b, k);
      WithoutSameSet(c.Get(k), On(a, k) + On(b, k), On(a + b, k));
    }
    assert c.Get(Prerouting) == c.prerouting && c.Get(Forward) == c.forward;
  }

  /** Only which rules are listed matters, not how often or in what order. */
  lemma PurgeSameSet(c: Chains, a: seq<Rule>, b: seq<Rule>)
    requires forall r :: r in a <==> r in b
    ensures c.Purge(a) == c.Purge(b)
  {
    forall k: Chain
      ensures Without(c.Get(k), On(a, k)) == Without(c.Get(k), On(b, k))
    {
      OnMembers(a, k);
      OnMembers(b, k);
      WithoutSameSet(c.Get(k), On(a, k), On(b, k));
    }
    assert c.Get(Prerouting) == c.prerouting && c.Get(Forward) == c.forward;
  }

  /** Every listed rule is gone, every other rule is as before. */
  lemma PurgeMembers(c: Chains, rules: seq<Rule>)
    ensures forall r :: c.Purge(rules).Has(r) <==> c.Has(r) && r !in rules
  {
    forall k: Chain
      ensures forall r :: r in c.Purge(rules).Get(k) <==> r in c.Get(k) && !(r in rules && ChainOf(r) == k)
    {
      OnMembers(rules, k);
      WithoutMembers(c.Get(k), On(rules, k));
    }
  }

  lemma PurgeAbsent(c: Chains, rules: seq<Rule>)
    requires forall r | r in rules :: !c.Has(r)
    ensures c.Purge(rules) == c
  {
    forall k: Chain
      ensures Without(c.Get(k), On(rules, k)) == c.Get(k)
    {
      OnMembers(rules, k);
      WithoutNothing(c.Get(k), On(rules, k));
    }
    assert c.Get(Prerouting) == c.prerouting && c.Get(Forward) == c.forward;
  }

  /** Purging takes back whatever was appended from the same list. */
  lemma PurgeAfterAddAll(c: Chains, w: seq<Rule>, rules: seq<Rule>)
    requires forall r | r in w :: r in rules
    ensures c.AddAll(w).Purge(rules) == c.Purge(rules)
  {
    forall k: Chain
      ensures Without(c.Get(k) + On(w, k), On(rules, k)) == Without(c.Get(k), On(rules, k))
    {
      OnMembers(w, k);
      OnMembers(rules, k);
      WithoutConcat(c.Get(k), On(w, k), On(rules, k));
      WithoutEverything(On(w, k), On(rules, k));
    }
    assert c.Get(Prerouting) == c.prerouting && c.Get(Forward) == c.forward;
  }

  // ---------------------------------------------------------------------------
  // Removing some copies
  // ---------------------------------------------------------------------------

  lemma {:induction false} ThinnedSelf(s: seq<Rule>, rules: seq<Rule>)
    ensures Thinned(s, s, rules)
  {
    if s == [] {
    } else {
      ThinnedSelf(s[1..], rules);
    }
  }

  lemma {:induction false} ThinnedTwice(c: seq<Rule>, b: seq<Rule>, a: seq<Rule>, rules: seq<Rule>)
    requires Thinned(c, b, rules) && Thinned(b, a, rules)
    ensures Thinned(c, a, rules)
    decreases |a|
  {
    if a == [] {
    } else if b != [] && b[0] == a[0] && Thinned(b[1..], a[1..], rules) {
      if c != [] && c[0] == b[0] && Thinned(c[1..], b[1..], rules) {
        ThinnedTwice(c[1..], b[1..], a[1..], rules);
      } else {
        ThinnedTwice(c, b[1..], a[1..], rules);
      }
    } else {
      ThinnedTwice(c, b, a[1..], rules);
    }
  }

  lemma {:induction false} ThinnedByMore(b: seq<Rule>, a: seq<Rule>, some: seq<Rule>, rules: seq<Rule>)
    requires Thinned(b, a, some) && forall r | r in some :: r in rules
    ensures Thinned(b, a, rules)
  {
    if a == [] {
    } else if b != [] && b[0] == a[0] && Thinned(b[1..], a[1..], some) {
      ThinnedByMore(b[1..], a[1..], some, rules);
    } else {
      ThinnedByMore(b, a[1..], some, rules);
    }
  }

  lemma {:induction false} ThinnedByRemoveFirst(s: seq<Rule>, r: Rule, rules: seq<Rule>)
    requires r in rules
    ensures Thinned(RemoveFirst(s, r), s, rules)
  {
    if s == [] {
    } else if s[0] == r {
      ThinnedSelf(s[1..], rules);
    } else {
      ThinnedByRemoveFirst(s[1..], r, rules);
    }
  }

  /** What is not listed is all there, in order, and nothing has come in. */
  lemma {:induction false} ThinnedKeepsRest(b: seq<Rule>, a: seq<Rule>, rules: seq<Rule>)
    requires Thinned(b, a, rules)
    ensures Without(b, rules) == Without(a, rules) && multiset(b) <= multiset(a)
  {
    if a == [] {
    } else if b != [] && b[0] == a[0] && Thinned(b[1..], a[1..], rules) {
      ThinnedKeepsRest(b[1..], a[1..], rules);
      assert a == [a[0]] + a[1..] && b == [b[0]] + b[1..];
    } else {
      ThinnedKeepsRest(b, a[1..], rules);
      assert a == [a[0]] + a[1..];
    }
  }

  lemma NothingPurged(c: Chains, rules: seq<Rule>)
    ensures OnlyPurges(c, c, rules)
  {
    ThinnedSelf(c.prerouting, On(rules, Prerouting));
    ThinnedSelf(c.forward, On(rules, Forward));
  }

  lemma DropOnlyPurges(c: Chains, r: Rule, rules: seq<Rule>)
    requires r in rules
    ensures OnlyPurges(c, c.Drop(r), rules)
  {
    NothingPurged(c, rules);
    OnMembers(rules, ChainOf(r));
    ThinnedByRemoveFirst(c.Get(ChainOf(r)), r, On(rules, ChainOf(r)));
  }

  /** Purging some of the listed rules after purging others. */
  lemma OnlyPurgesThen(a: Chains, b: Chains, c: Chains, some: seq<Rule>, rules: seq<Rule>)
    requires OnlyPurges(a, b, rules) && OnlyPurges(b, c, some) && forall r | r in some :: r in rules
    ensures OnlyPurges(a, c, rules)
  {
    OnMembers(some, Prerouting);
    OnMembers(some, Forward);
    OnMembers(rules, Prerouting);
    OnMembers(rules, Forward);
    ThinnedByMore(c.prerouting, b.prerouting, On(some, Prerouting), On(rules, Prerouting));
    ThinnedByMore(c.forward, b.forward, On(some, Forward), On(rules, Forward));
    ThinnedTwice(c.prerouting, b.prerouting, a.prerouting, On(rules, Prerouting));
    ThinnedTwice(c.forward, b.forward, a.forward, On(rules, Forward));
  }

  /** No rule has come in, and unlisted rules are all there, in order. */
  lemma OnlyPurgesKeepsRest(before: Chains, after: Chains, rules: seq<Rule>)
    requires OnlyPurges(before, after, rules)
    ensures after.Purge(rules) == before.Purge(rules)
    ensures multiset(after.prerouting) <= multiset(before.prerouting)
    ensures multiset(after.forward) <= multiset(before.forward)
  {
    ThinnedKeepsRest(after.prerouting, before.prerouting, On(rules, Prerouting));
    ThinnedKeepsRest(after.forward, before.forward, On(rules, Forward));
  }

  lemma OnlyPurgesMembers(before: Chains, after: Chains, rules: seq<Rule>)
    requires OnlyPurges(before, after, rules)
    ensures forall r | after.Has(r) :: before.Has(r)
    ensures forall r | before.Has(r) && r !in rules :: after.Has(r)
  {
    OnlyPurgesKeepsRest(before, after, rules);
    PurgeMembers(before, rules);
    PurgeMembers(after, rules);
    forall r | after.Has(r) ensures before.Has(r) {
      assert r in multiset(after.Get(ChainOf(r)));
    }
    forall r | before.Has(r) && r !in rules ensures after.Has(r) {
      assert before.Purge(rules).Has(r);
    }
  }

  /** Taking listed rules out leaves a part without any as it is. */
  lemma {:induction false} ThinnedPrefix(b: seq<Rule>, s: seq<Rule>, t: seq<Rule>, rules: seq<Rule>)
    requires Thinned(b, s + t, rules) && forall r | r in s :: r !in rules
    ensures s <= b && Thinned(b[|s|..], t, rules)
  {
    if s == [] {
      assert s + t == t;
    } else {
      assert (s + t)[1..] == s[1..] + t && (s + t)[0] == s[0];
      ThinnedPrefix(b[1..], s[1..], t, rules);
      assert b == [b[0]] + b[1..] && s == [s[0]] + s[1..];
    }
  }

  /** In one chain: what is left of the rules that were added. */
  lemma ThinnedTail(d: seq<Rule>, s: seq<Rule>, t: seq<Rule>, rules: seq<Rule>) returns (left: seq<Rule>)
    requires Thinned(d, s + t, rules) && forall r | r in s :: r !in rules
    ensures d == s + left && forall r | r in left :: r in t
  {
    ThinnedPrefix(d, s, t, rules);
    left := d[|s|..];
    ThinnedKeepsRest(left, t, rules);
    assert forall r | r in left :: r in multiset(left);
  }

  /** Rules that were not there, added and partly taken out again, are a list added at the end. */
  lemma AddedAndThinned(c: Chains, v: seq<Rule>, d: Chains, rules: seq<Rule>) returns (left: seq<Rule>)
    requires OnlyPurges(c.AddAll(v), d, rules) && forall r | r in rules :: !c.Has(r)
    ensures d == c.AddAll(left) && forall r | r in left :: r in v
  {
    OnMembers(rules, Prerouting);
    OnMembers(rules, Forward);
    OnMembers(v, Prerouting);
    OnMembers(v, Forward);
    var p := ThinnedTail(d.prerouting, c.prerouting, On(v, Prerouting), On(rules, Prerouting));
    var f := ThinnedTail(d.forward, c.forward, On(v, Forward), On(rules, Forward));
    left := p + f;
    OnBothChains(p, f);
  }

  lemma OnBothChains(p: seq<Rule>, f: seq<Rule>)
    requires (forall r | r in p :: ChainOf(r) == Prerouting) && forall r | r in f :: ChainOf(r) == Forward
    ensures On(p + f, Prerouting) == p && On(p + f, Forward) == f
  {
    OnConcat(p, f, Prerouting);
    OnConcat(p, f, Forward);
    OnOneChain(p, Prerouting);
    OnOneChain(f, Forward);
  }

  lemma {:induction false} OnOneChain(w: seq<Rule>, k: Chain)
    requires forall r | r in w :: ChainOf(r) == k
    ensures forall j :: On(w, j) == if j == k then w else []
  {
    if w == [] {
    } else {
      OnOneChain(w[..|w| - 1], k);
      assert w == w[..|w| - 1] + [w[|w| - 1]];
    }
  }

  /** Adding the missing rules and later purging all of them brings the chains back
      exactly when none of them was there in the first place. */
  lemma AddThenPurge(c: Chains, rules: seq<Rule>)
    ensures c.AddAll(Missing(c, rules)).Purge(rules) == c <==> forall r | r in rules :: !c.Has(r)
  {
    MissingMembers(c, rules);
    PurgeAfterAddAll(c, Missing(c, rules), rules);
    PurgeMembers(c, rules);
    if forall r | r in rules :: !c.Has(r) { PurgeAbsent(c, rules); }
  }
}
