/** Choosing the storage a VM is cloned to (backend/services/mon_service.py) and reading the
    configured candidates (backend/core/config.py). */
module CloneStorage {
  import opened Prelude

  const GIB := 1024 * 1024 * 1024
  const USAGE_LIMIT_PCT := 80

  /** An entry of the node's storage list; None stands for a missing field. */
  datatype Storage = Storage(name: string, active: bool, enabled: bool, images: bool,
                             total: int, used: int, avail: Option<int>)
  {
    function Avail(): int { if avail.Some? then avail.value else total - used }

    predicate Eligible(required: int) {
      && active && enabled && images && total > 0
      && used * 100 < USAGE_LIMIT_PCT * total
      && Avail() >= required
    }
  }

  /** NoSpace is the 507 answer, Unavailable the 503 one. */
  datatype Choice = Chosen(name: string) | NoSpace | Unavailable

  /** The dictionary by name: of several entries with one name the last counts. */
  function ByName(storages: seq<Storage>): map<string, Storage> {
    if storages == [] then map[]
    else ByName(storages[..|storages| - 1])[storages[|storages| - 1].name := storages[|storages| - 1]]
  }

  predicate IsEligible(known: map<string, Storage>, name: string, required: int) {
    name in known && known[name].Eligible(required)
  }

  /** The i-th candidate is eligible, no eligible one has more room, and none before it as much. */
  predicate Best(known: map<string, Storage>, candidates: seq<string>, required: int, i: nat) {
    && i < |candidates| && IsEligible(known, candidates[i], required)
    && forall j | 0 <= j < |candidates| && IsEligible(known, candidates[j], required) ::
         if j < i then known[candidates[j]].Avail() < known[candidates[i]].Avail()
         else known[candidates[j]].Avail() <= known[candidates[i]].Avail()
  }

  /** What the choice must be: NoSpace exactly when nothing is eligible. */
  ghost predicate RightChoice(known: map<string, Storage>, candidates: seq<string>, required: int, r: Choice) {
    match r
    case Chosen(name) =>
      exists i: nat :: i < |candidates| && candidates[i] == name && Best(known, candidates, required, i)
    case NoSpace => forall i | 0 <= i < |candidates| :: !IsEligible(known, candidates[i], required)
    case Unavailable => false
  }

  /** No later entry has the same name. */
  predicate LastOfName(storages: seq<Storage>, k: int) {
    0 <= k < |storages| && forall j | k < j < |storages| :: storages[j].name != storages[k].name
  }

  /** The free bytes, reported or computed. */
  function Room(st: Storage): (room: int)
    ensures st.avail.Some? ==> room == st.avail.value
    ensures st.avail.None? ==> room == st.total - st.used
  {
    st.Avail()
  }

  /** Active, enabled, for VM images, below four fifths full, and with that many GiB free. */
  predicate HasSpace(st: Storage, requiredGb: nat) {
    && st.active && st.enabled && st.images && st.total > 0
    && 100 * st.used < 80 * st.total && Room(st) >= requiredGb * 1_073_741_824
  }

  lemma {:induction false} ByNameIsLast(storages: seq<Storage>)
    ensures forall k | LastOfName(storages, k) ::
              storages[k].name in ByName(storages) && ByName(storages)[storages[k].name] == storages[k]
  {
    if storages == [] {
    } else {
      var n := |storages| - 1;
      ByNameIsLast(storages[..n]);
      forall k | LastOfName(storages, k)
        ensures storages[k].name in ByName(storages) && ByName(storages)[storages[k].name] == storages[k]
      {
        if k < n {
          assert LastOfName(storages[..n], k) && storages[..n][k] == storages[k];
          assert storages[n].name != storages[k].name;
        }
      }
    }
  }

  lemma {:induction false} NameIsListed(storages: seq<Storage>, name: string)
    requires name in ByName(storages)
    ensures exists k :: LastOfName(storages, k) && storages[k].name == name
  {
    var n := |storages| - 1;
    if storages[n].name == name {
      assert LastOfName(storages, n);
    } else {
      NameIsListed(storages[..n], name);
      var k :| LastOfName(storages[..n], k) && storages[..n][k].name == name;
      assert LastOfName(storages, k);
    }
  }

  /** select_clone_storage; the node answers with its storage list, or the lookup fails. */
  method SelectCloneStorage(answer: Option<seq<Storage>>, candidates: seq<string>, requiredGb: nat) returns (r: Choice)
    ensures r == Unavailable <==> answer.None?
    ensures answer.Some? ==> RightChoice(ByName(answer.value), candidates, requiredGb * GIB, r)
    // In terms of the node's answer, where the last entry of a name counts:
    ensures answer.Some? && r.Chosen? ==>
              r.name in candidates && exists k ::
                && LastOfName(answer.value, k) && answer.value[k].name == r.name
                && HasSpace(answer.value[k], requiredGb)
                && forall c, j | c in candidates && LastOfName(answer.value, j) && answer.value[j].name == c
                                 && HasSpace(answer.value[j], requiredGb) ::
                     Room(answer.value[j]) <= Room(answer.value[k])
    ensures answer.Some? && r.NoSpace? ==>
              forall c, j | c in candidates && LastOfName(answer.value, j) && answer.value[j].name == c ::
                !HasSpace(answer.value[j], requiredGb)
  {
    if answer.None? { return Unavailable; }
    var storages := answer.value;
    var known := map[];
    for k := 0 to |storages|
      invariant known == ByName(storages[..k])
    {
      assert storages[..k + 1][..k] == storages[..k];
      known := known[storages[k].name := storages[k]];
    }
    assert storages[..|storages|] == storages;

    var required := requiredGb * GIB;
    var selected: Option<string>, selectedAvail := None, -1;
    ghost var at := 0;
    for i := 0 to |candidates|
      invariant selected.None? ==>
                  selectedAvail == -1 && forall j | 0 <= j < i :: !IsEligible(known, candidates[j], required)
      invariant selected.Some? ==>
                  at < i && candidates[at] == selected.value && Best(known, candidates[..i], required, at)
                  && selectedAvail == known[candidates[at]].Avail()
    {
      var name := candidates[i];
      if name !in known { continue; }
      var st := known[name];
      if !st.active { continue; }
      if !st.enabled { continue; }
      if !st.images { continue; }
      if st.total <= 0 { continue; }
      if st.used * 100 >= USAGE_LIMIT_PCT * st.total { continue; }
      if st.Avail() < required { continue; }
      if st.Avail() > selectedAvail {
        selected, selectedAvail := Some(name), st.Avail();
        at := i;
      }
    }
    assert candidates[..|candidates|] == candidates;
    ByNameIsLast(storages);
    if selected.Some? { NameIsListed(storages, selected.value); }
    forall c, j | c in candidates && LastOfName(storages, j) && storages[j].name == c
      ensures IsEligible(known, c, required) <==> HasSpace(storages[j], requiredGb)
    {
    }
    return if selected.Some? then Chosen(selected.value) else NoSpace;
  }

  // ---------------------------------------------------------------------------
  // The choice is determined
  // ---------------------------------------------------------------------------

  /** The choice as a fold over the candidates. */
  function Pick(known: map<string, Storage>, cs: seq<string>, required: int): (r: Choice)
    ensures r != Unavailable && (r.Chosen? ==> r.name in known)
  {
    if cs == [] then NoSpace
    else
      var before, last := Pick(known, cs[..|cs| - 1], required), cs[|cs| - 1];
      if IsEligible(known, last, required) && (!before.Chosen? || known[last].Avail() > known[before.name].Avail())
      then Chosen(last) else before
  }

  lemma {:induction false} PickIsRight(known: map<string, Storage>, cs: seq<string>, required: int)
    ensures RightChoice(known, cs, required, Pick(known, cs, required))
  {
    if cs == [] {
    } else {
      var n := |cs| - 1;
      var front, before := cs[..n], Pick(known, cs[..n], required);
      PickIsRight(known, front, required);
      if before.Chosen? {
        var i: nat :| i < |front| && front[i] == before.name && Best(known, front, required, i);
        if !(IsEligible(known, cs[n], required) && known[cs[n]].Avail() > known[before.name].Avail()) {
          assert Best(known, cs, required, i);
        } else {
          assert Best(known, cs, required, n);
        }
      } else if IsEligible(known, cs[n], required) {
        assert Best(known, cs, required, n);
      }
    }
  }

  /** There is one right answer. */
  lemma RightChoiceIsPick(known: map<string, Storage>, cs: seq<string>, required: int, r: Choice)
    requires RightChoice(known, cs, required, r)
    ensures r == Pick(known, cs, required)
  {
    PickIsRight(known, cs, required);
    var p := Pick(known, cs, required);
    if r.Chosen? && p.Chosen? {
      var i: nat :| i < |cs| && cs[i] == r.name && Best(known, cs, required, i);
      var j: nat :| j < |cs| && cs[j] == p.name && Best(known, cs, required, j);
      assert i == j;
    }
  }

  /** The eligible candidates, in order. */
  function EligibleOnly(known: map<string, Storage>, cs: seq<string>, required: int): (e: seq<string>)
    ensures forall k :: k in e ==> IsEligible(known, k, required)
  {
    if cs == [] then []
    else
      var n := |cs| - 1;
      EligibleOnly(known, cs[..n], required) + (if IsEligible(known, cs[n], required) then [cs[n]] else [])
  }

  lemma {:induction false} PickSkipsIneligible(known: map<string, Storage>, cs: seq<string>, required: int)
    ensures Pick(known, EligibleOnly(known, cs, required), required) == Pick(known, cs, required)
  {
    if cs == [] {
    } else {
      var n := |cs| - 1;
      var e := EligibleOnly(known, cs[..n], required);
      PickSkipsIneligible(known, cs[..n], required);
      if IsEligible(known, cs[n], required) {
        assert (e + [cs[n]])[..|e|] == e;
      } else {
        assert EligibleOnly(known, cs, required) == e;
      }
    }
  }

  lemma {:induction false} PickByAvail(known: map<string, Storage>, known': map<string, Storage>, e: seq<string>,
                                       required: int)
    requires forall k | k in e ::
               IsEligible(known, k, required) && IsEligible(known', k, required)
               && known[k].Avail() == known'[k].Avail()
    ensures Pick(known, e, required) == Pick(known', e, required)
    ensures Pick(known, e, required).Chosen? ==> Pick(known, e, required).name in e
  {
    if e == [] {
    } else {
      PickByAvail(known, known', e[..|e| - 1], required);
    }
  }

  /** The answer depends only on which candidates are eligible, in what order, and how much
      room they have: ineligible ones can be added anywhere, or change, without effect. */
  lemma OnlyEligibleMatter(known: map<string, Storage>, cs: seq<string>, known': map<string, Storage>, cs': seq<string>,
                           required: int, r: Choice, r': Choice)
    requires RightChoice(known, cs, required, r) && RightChoice(known', cs', required, r')
    requires EligibleOnly(known, cs, required) == EligibleOnly(known', cs', required)
    requires forall k | k in EligibleOnly(known, cs, required) ::
               k in known && k in known' && known[k].Avail() == known'[k].Avail()
    ensures r == r'
  {
    RightChoiceIsPick(known, cs, required, r);
    RightChoiceIsPick(known', cs', required, r');
    PickSkipsIneligible(known, cs, required);
    PickSkipsIneligible(known', cs', required);
    PickByAvail(known, known', EligibleOnly(known, cs, required), required);
  }

  lemma {:induction false} ByNameEntries(storages: seq<Storage>)
    requires forall i, j | 0 <= i < j < |storages| :: storages[i].name != storages[j].name
    ensures forall k :: k in ByName(storages) <==> exists st :: st in storages && st.name == k
    ensures forall st | st in storages :: ByName(storages)[st.name] == st
  {
    if storages == [] {
    } else {
      var n := |storages| - 1;
      ByNameEntries(storages[..n]);
      assert storages == storages[..n] + [storages[n]];
    }
  }

  /** The order in which the node lists its storages does not matter when names are distinct. */
  lemma ListOrderIrrelevant(a: seq<Storage>, b: seq<Storage>)
    requires forall i, j | 0 <= i < j < |a| :: a[i].name != a[j].name
    requires forall i, j | 0 <= i < j < |b| :: b[i].name != b[j].name
    requires forall st :: st in a <==> st in b
    ensures ByName(a) == ByName(b)
  {
    ByNameEntries(a);
    ByNameEntries(b);
    assert ByName(a).Keys == ByName(b).Keys;
    forall k | k in ByName(a) ensures ByName(a)[k] == ByName(b)[k] {
      var st :| st in a && st.name == k;
      assert ByName(a)[st.name] == st && ByName(b)[st.name] == st;
    }
  }

  // ---------------------------------------------------------------------------
  // The configured candidates
  // ---------------------------------------------------------------------------

  // The ASCII characters that strip() takes off.
  predicate IsSpace(c: char) { c in " \t\n\r" || c as int in {0x0b, 0x0c, 0x1c, 0x1d, 0x1e, 0x1f} }

  function TrimLeft(s: string): string { if s != [] && IsSpace(s[0]) then TrimLeft(s[1..]) else s }

  function TrimRight(s: string): string {
    if s != [] && IsSpace(s[|s| - 1]) then TrimRight(s[..|s| - 1]) else s
  }

  function Strip(s: string): string { TrimRight(TrimLeft(s)) }

  /** The pieces between commas; never empty. */
  function Split(s: string): (r: seq<string>)
    ensures |r| >= 1
  {
    if s == [] then [""]
    else if s[0] == ',' then [""] + Split(s[1..])
    else var r := Split(s[1..]); [[s[0]] + r[0]] + r[1..]
  }

  function Join(names: seq<string>): string {
    if names == [] then ""
    else if |names| == 1 then names[0]
    else names[0] + "," + Join(names[1..])
  }

  /** Stripped pieces that are not blank. */
  function Names(pieces: seq<string>): seq<string> {
    if pieces == [] then []
    else
      var last := Strip(pieces[|pieces| - 1]);
      Names(pieces[..|pieces| - 1]) + (if last == "" then [] else [last])
  }

  /** First occurrences, in order. */
  function Dedupe(names: seq<string>): seq<string> {
    if names == [] then []
    else
      var front, last := Dedupe(names[..|names| - 1]), names[|names| - 1];
      if last in front then front else front + [last]
  }

  function Parse(raw: string): seq<string> { Dedupe(Names(Split(raw))) }

  predicate IsFirstNamed(nodes: seq<(string, string)>, name: string, i: nat)
    requires i < |nodes|
  {
    nodes[i].0 == name && forall j | 0 <= j < i :: nodes[j].0 != name
  }

  /** get_clone_storages: the first node of that name counts; none, or no name, gives []. */
  method GetCloneStorages(nodes: seq<(string, string)>, nodeName: string) returns (names: seq<string>)
    ensures nodeName == "" || (forall i | 0 <= i < |nodes| :: nodes[i].0 != nodeName) ==> names == []
    ensures nodeName != "" ==> forall i | 0 <= i < |nodes| && IsFirstNamed(nodes, nodeName, i) ::
              names == Parse(nodes[i].1)
  {
    for i := 0 to |nodes|
      invariant nodeName == "" || forall j | 0 <= j < i :: nodes[j].0 != nodeName
    {
      if nodeName != "" && nodes[i].0 == nodeName { return Parse(nodes[i].1); }
    }
    return [];
  }

  /** A usable name: not blank, without commas, and without space around it. */
  predicate Proper(name: string) { name != "" && ',' !in name && Strip(name) == name }

  lemma {:induction false} TrimLeftFixed(s: string)
    ensures TrimLeft(s) == [] || !IsSpace(TrimLeft(s)[0])
    ensures |TrimLeft(s)| <= |s| && TrimLeft(s) == s[|s| - |TrimLeft(s)|..]
  {
    if s != [] && IsSpace(s[0]) { TrimLeftFixed(s[1..]); }
  }

  lemma {:induction false} TrimRightFixed(s: string)
    ensures TrimRight(s) == [] || !IsSpace(TrimRight(s)[|TrimRight(s)| - 1])
    ensures TrimRight(s) <= s
  {
    if s != [] && IsSpace(s[|s| - 1]) { TrimRightFixed(s[..|s| - 1]); }
  }

  lemma StripIsProper(s: string)
    requires ',' !in s
    ensures Strip(s) != "" ==> Proper(Strip(s))
  {
    TrimLeftFixed(s);
    TrimRightFixed(TrimLeft(s));
  }

  lemma {:induction false} SplitHasNoCommas(s: string)
    ensures forall p | p in Split(s) :: ',' !in p
  {
    if s == [] {
    } else {
      SplitHasNoCommas(s[1..]);
    }
  }

  lemma {:induction false} NamesAreProper(pieces: seq<string>)
    requires forall p | p in pieces :: ',' !in p
    ensures forall n | n in Names(pieces) :: Proper(n)
  {
    if pieces == [] {
    } else {
      var k := |pieces| - 1;
      NamesAreProper(pieces[..k]);
      StripIsProper(pieces[k]);
    }
  }

  predicate Distinct(names: seq<string>) { forall i, j | 0 <= i < j < |names| :: names[i] != names[j] }

  lemma {:induction false} DedupeIsDistinct(names: seq<string>)
    ensures Distinct(Dedupe(names)) && forall n :: n in Dedupe(names) <==> n in names
  {
    if names == [] {
    } else {
      DedupeIsDistinct(names[..|names| - 1]);
      assert names == names[..|names| - 1] + [names[|names| - 1]];
    }
  }

  lemma {:induction false} DedupeFixed(names: seq<string>)
    requires Distinct(names)
    ensures Dedupe(names) == names
  {
    if names == [] {
    } else {
      DedupeFixed(names[..|names| - 1]);
      assert names == names[..|names| - 1] + [names[|names| - 1]];
    }
  }

  lemma {:induction false} NamesFixed(names: seq<string>)
    requires forall n | n in names :: Proper(n)
    ensures Names(names) == names
  {
    if names == [] {
    } else {
      var front, last := names[..|names| - 1], names[|names| - 1];
      NamesFixed(front);
      assert Proper(last);
      assert names == front + [last];
    }
  }

  lemma {:induction false} SplitWhole(name: string)
    requires ',' !in name
    ensures Split(name) == [name]
  {
    if name == "" {
    } else {
      SplitWhole(name[1..]);
      assert [name[0]] + name[1..] == name;
    }
  }

  lemma {:induction false} SplitFirst(name: string, rest: string)
    requires ',' !in name
    ensures Split(name + "," + rest) == [name] + Split(rest)
  {
    var s := name + "," + rest;
    if name == "" {
      assert s[1..] == rest;
    } else {
      assert s[1..] == name[1..] + "," + rest;
      SplitFirst(name[1..], rest);
      assert [name[0]] + name[1..] == name;
      assert ([name[1..]] + Split(rest))[1..] == Split(rest);
    }
  }

  lemma {:induction false} SplitJoin(names: seq<string>)
    requires names != [] && forall k | 0 <= k < |names| :: ',' !in names[k]
    ensures Split(Join(names)) == names
  {
    assert names == [names[0]] + names[1..];
    if |names| == 1 {
      SplitWhole(names[0]);
    } else {
      SplitJoin(names[1..]);
      SplitFirst(names[0], Join(names[1..]));
    }
  }

  /** Parsing, joining with commas and parsing again gives the same list. */
  lemma ParseRoundTrip(raw: string)
    ensures Distinct(Parse(raw)) && forall n | n in Parse(raw) :: Proper(n)
    ensures Parse(Join(Parse(raw))) == Parse(raw)
  {
    SplitHasNoCommas(raw);
    NamesAreProper(Split(raw));
    DedupeIsDistinct(Names(Split(raw)));
    var names := Parse(raw);
    if names == [] {
      assert Split("") == [""] && Strip("") == "" && Names([""]) == Names([]);
    } else {
      assert forall k | 0 <= k < |names| :: Proper(names[k]);
      SplitJoin(names);
      NamesFixed(names);
      DedupeFixed(names);
    }
  }

  // ---------------------------------------------------------------------------
  // Nothing is lost in parsing
  // ---------------------------------------------------------------------------

  /** What is between the commas, put together again. */
  lemma {:induction false} JoinSplit(s: string)
    ensures Join(Split(s)) == s
  {
    if s == "" {
    } else {
      JoinSplit(s[1..]);
      var r := Split(s[1..]);
      assert s == [s[0]] + s[1..];
      if s[0] == ',' {
        assert Split(s)[1..] == r;
      } else {
        JoinHead(s[0], r);
      }
    }
  }

  lemma JoinHead(c: char, r: seq<string>)
    requires r != []
    ensures Join([[c] + r[0]] + r[1..]) == [c] + Join(r)
  {
    var t := [[c] + r[0]] + r[1..];
    assert t[1..] == r[1..] && t[0] == [c] + r[0];
    if |r| > 1 { assert [c] + r[0] + "," + Join(r[1..]) == [c] + (r[0] + "," + Join(r[1..])); }
  }

  predicate AllSpace(s: string) { forall c | c in s :: IsSpace(c) }

  lemma {:induction false} TrimLeftRest(s: string)
    ensures |TrimLeft(s)| <= |s| && TrimLeft(s) == s[|s| - |TrimLeft(s)|..] && AllSpace(s[..|s| - |TrimLeft(s)|])
  {
    if s != [] && IsSpace(s[0]) {
      TrimLeftRest(s[1..]);
      var n := |s| - |TrimLeft(s)|;
      assert s[..n] == [s[0]] + s[1..][..n - 1];
    }
  }

  lemma {:induction false} TrimRightRest(s: string)
    ensures TrimRight(s) <= s && AllSpace(s[|TrimRight(s)|..])
  {
    if s != [] && IsSpace(s[|s| - 1]) {
      TrimRightRest(s[..|s| - 1]);
      var n := |TrimRight(s)|;
      assert s[n..] == s[..|s| - 1][n..] + [s[|s| - 1]];
    }
  }

  /** Stripping takes away the space on either side, and nothing else. */
  lemma StripMeans(s: string) returns (before: string, after: string)
    ensures s == before + Strip(s) + after && AllSpace(before) && AllSpace(after)
    ensures Strip(s) != "" ==> !IsSpace(Strip(s)[0]) && !IsSpace(Strip(s)[|Strip(s)| - 1])
    ensures forall c :: IsSpace(c) <==> 9 <= c as int <= 13 || 28 <= c as int <= 32
  {
    var t := TrimLeft(s);
    TrimLeftRest(s);
    TrimRightRest(t);
    TrimLeftFixed(s);
    TrimRightFixed(t);
    before, after := s[..|s| - |t|], t[|TrimRight(t)|..];
    assert t == TrimRight(t) + after && s == before + t;
  }

  lemma {:induction false} NamesMembers(pieces: seq<string>)
    ensures forall n :: n in Names(pieces) <==> n != "" && exists p :: p in pieces && Strip(p) == n
  {
    if pieces == [] {
    } else {
      NamesMembers(pieces[..|pieces| - 1]);
      assert pieces == pieces[..|pieces| - 1] + [pieces[|pieces| - 1]];
    }
  }

  /** Every name between the commas is in the list, and nothing else is. */
  lemma ParseMembers(raw: string)
    ensures forall n :: n in Parse(raw) <==> n != "" && exists p :: p in Split(raw) && Strip(p) == n
    ensures Join(Split(raw)) == raw
  {
    NamesMembers(Split(raw));
    DedupeIsDistinct(Names(Split(raw)));
    JoinSplit(raw);
  }
}
