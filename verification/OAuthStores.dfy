/** The in-memory stores of the OAuth flow: login states and one-time codes
    (backend/api/routes/oauth.py). */
module OAuthStores {
  import opened Prelude

  const STORE_TTL := 300
  const CODE_TTL := 60
  const MAX_PENDING := 1000

  type Token = string

  datatype Pending = Pending(verifier: string, expires: int, role: string)
  datatype Grant = Grant(access: string, refresh: string, expires: int)

  type States = map<Token, Pending>
  type Codes = map<Token, Grant>

  class Stores {
    var states: States
    var codes: Codes
    ghost var issued: set<Token>  // every state and code handed out so far

    constructor ()
      ensures At(0) == Empty
    {
      states, codes, issued := map[], map[], {};
    }

    ghost function At(now: int): State
      reads this
    {
      State(now, states, codes, issued)
    }

    /** _cleanup_stores: collect the expired keys of each store, then pop them one by one. */
    method Cleanup(now: int)
      modifies `states, `codes
      ensures At(now) == Step(old(At(now)), Event.Cleanup)
      // Exactly the entries that have not expired are left.
      ensures forall k :: k in states <==> k in old(states) && old(states)[k].expires >= now
      ensures forall k :: k in codes <==> k in old(codes) && old(codes)[k].expires >= now
      ensures (forall k | k in states :: states[k] == old(states)[k])
                && forall k | k in codes :: codes[k] == old(codes)[k]
    {
      var stale := set k | k in states && states[k].expires < now;
      while stale != {}
        invariant codes == old(codes) && forall k | k in stale :: k in states
        invariant forall k :: k in states <==> k in old(states) && (old(states)[k].expires >= now || k in stale)
        invariant forall k | k in states :: states[k] == old(states)[k]
      {
        var k :| k in stale;
        states, stale := states - {k}, stale - {k};
      }
      stale := set k | k in codes && codes[k].expires < now;
      while stale != {}
        invariant states == LiveStates(old(states), now)
        invariant forall k | k in stale :: k in codes
        invariant forall k :: k in codes <==> k in old(codes) && (old(codes)[k].expires >= now || k in stale)
        invariant forall k | k in codes :: codes[k] == old(codes)[k]
      {
        var k :| k in stale;
        codes, stale := codes - {k}, stale - {k};
      }
    }

    /** oauth_authorize: clean up, then store the state unless too many are pending. */
    method Authorize(state: Token, verifier: string, role: string, now: int) returns (admitted: bool)
      requires state !in issued
      modifies this
      ensures admitted == (|LiveStates(old(states), now)| <= MAX_PENDING)
      ensures At(now) == Step(old(At(now)), Event.Authorize(state, verifier, role))
      ensures admitted == (|set k | k in old(states) && old(states)[k].expires >= now| <= 1000)
      ensures admitted ==> state in states && states[state] == Pending(verifier, now + 300, role)
    {
      Cleanup(now);
      assert states.Keys == set k | k in old(states) && old(states)[k].expires >= now;
      if |states| > MAX_PENDING { return false; }
      states := states[state := Pending(verifier, now + STORE_TTL, role)];
      issued := issued + {state};
      return true;
    }

    /** oauth_callback: the state is consumed whether or not it is still good. */
    method Callback(state: Token, now: int) returns (r: Option<Pending>)
      modifies this`states
      ensures At(now) == Step(old(At(now)), Event.Callback(state)) && states == old(states) - {state}
      ensures r.Some? <==> state in old(states) && old(states)[state].expires >= now
      ensures r.Some? ==> r.value == old(states)[state]
      ensures [Login(r)] == Answers(old(At(now)), Event.Callback(state))
    {
      if state !in states {
        assert states == states - {state};
        return None;
      }
      var p := states[state];
      states := states - {state};
      if p.expires < now { return None; }
      return Some(p);
    }

    method IssueCode(code: Token, access: string, refresh: string, now: int)
      requires code !in issued
      modifies `codes, `issued
      ensures At(now) == Step(old(At(now)), Issue(code, access, refresh))
      ensures codes == old(codes)[code := Grant(access, refresh, now + 60)]
    {
      codes := codes[code := Grant(access, refresh, now + CODE_TTL)];
      issued := issued + {code};
    }

    /** exchange_temp_code: one use. */
    method Exchange(code: Token, now: int) returns (r: Option<Grant>)
      modifies this`codes
      ensures At(now) == Step(old(At(now)), Event.Exchange(code)) && codes == old(codes) - {code}
      ensures r.Some? <==> code in old(codes) && old(codes)[code].expires >= now
      ensures r.Some? ==> r.value == old(codes)[code]
      ensures [Tokens(r)] == Answers(old(At(now)), Event.Exchange(code))
    {
      if code !in codes {
        assert codes == codes - {code};
        return None;
      }
      var g := codes[code];
      codes := codes - {code};
      if g.expires < now { return None; }
      return Some(g);
    }
  }

  function LiveStates(states: States, now: int): States { map k | k in states && states[k].expires >= now :: states[k] }

  function LiveCodes(codes: Codes, now: int): Codes { map k | k in codes && codes[k].expires >= now :: codes[k] }

  lemma LiveStatesFewer(states: States, now: int)
    ensures |LiveStates(states, now)| <= |states|
  {
    SubsetCount(LiveStates(states, now).Keys, states.Keys);
  }

  // ---------------------------------------------------------------------------
  // Runs with and without cleanup
  // ---------------------------------------------------------------------------

  datatype State = State(now: int, states: States, codes: Codes, issued: set<Token>)

  /** Tokens are random, so a new state or code was never used before. */
  datatype Event =
    | Tick(d: nat)
    | Cleanup
    | Authorize(state: Token, verifier: string, role: string)
    | Callback(state: Token)
    | Issue(code: Token, access: string, refresh: string)
    | Exchange(code: Token)

  datatype Answer = Login(p: Option<Pending>) | Tokens(g: Option<Grant>)

  function Cleaning(s: State): State {
    s.(states := LiveStates(s.states, s.now), codes := LiveCodes(s.codes, s.now))
  }

  /** An authorization is let through unless, after its cleanup, too many are pending. */
  predicate Admits(s: State, state: Token) {
    state !in s.issued && |LiveStates(s.states, s.now)| <= MAX_PENDING
  }

  function Store(s: State, state: Token, verifier: string, role: string): State {
    s.(states := s.states[state := Pending(verifier, s.now + STORE_TTL, role)], issued := s.issued + {state})
  }

  function Step(s: State, e: Event): State {
    match e
    case Tick(d) => s.(now := s.now + d)
    case Cleanup => Cleaning(s)
    case Authorize(state, verifier, role) =>
      if Admits(s, state) then Store(Cleaning(s), state, verifier, role) else Cleaning(s)
    case Callback(state) => s.(states := s.states - {state})
    case Issue(code, access, refresh) =>
      if code in s.issued then s
      else s.(codes := s.codes[code := Grant(access, refresh, s.now + CODE_TTL)], issued := s.issued + {code})
    case Exchange(code) => s.(codes := s.codes - {code})
  }

  /** What the caller of a step is told. */
  function Answers(s: State, e: Event): seq<Answer> {
    match e
    case Callback(state) =>
      [Login(if state in s.states && s.states[state].expires >= s.now then Some(s.states[state]) else None)]
    case Exchange(code) =>
      [Tokens(if code in s.codes && s.codes[code].expires >= s.now then Some(s.codes[code]) else None)]
    case _ => []
  }

  function Run(s: State, es: seq<Event>): State {
    if es == [] then s else Step(Run(s, es[..|es| - 1]), es[|es| - 1])
  }

  function Outcomes(s: State, es: seq<Event>): seq<Answer> {
    if es == [] then [] else Outcomes(s, es[..|es| - 1]) + Answers(Run(s, es[..|es| - 1]), es[|es| - 1])
  }

  /** The step without any cleanup, where the same authorizations are let through as in s. */
  function PlainStep(s: State, full: State, e: Event): State {
    match e
    case Cleanup => full
    case Authorize(state, verifier, role) => if Admits(s, state) then Store(full, state, verifier, role) else full
    case _ => Step(full, e)
  }

  /** The run without any cleanup, beside the run with it. */
  function PlainRun(s: State, es: seq<Event>): State {
    if es == [] then s else PlainStep(Run(s, es[..|es| - 1]), PlainRun(s, es[..|es| - 1]), es[|es| - 1])
  }

  function PlainOutcomes(s: State, es: seq<Event>): seq<Answer> {
    if es == [] then []
    else PlainOutcomes(s, es[..|es| - 1]) + Answers(PlainRun(s, es[..|es| - 1]), es[|es| - 1])
  }

  /** The cleaned state holds what the other holds, except for expired entries. */
  ghost predicate Cleaned(s: State, full: State) {
    && s.now == full.now && s.issued == full.issued
    && (forall k | k in s.states :: k in full.states && s.states[k] == full.states[k])
    && (forall k | k in full.states && k !in s.states :: full.states[k].expires < full.now)
    && (forall k | k in s.codes :: k in full.codes && s.codes[k] == full.codes[k])
    && (forall k | k in full.codes && k !in s.codes :: full.codes[k].expires < full.now)
  }

  lemma StoreKeepsCleaned(s: State, full: State, state: Token, verifier: string, role: string)
    requires Cleaned(s, full)
    ensures Cleaned(Store(s, state, verifier, role), Store(full, state, verifier, role))
  {
  }

  lemma CleanedStep(s: State, full: State, e: Event)
    requires Cleaned(s, full)
    ensures Cleaned(Step(s, e), PlainStep(s, full, e)) && Answers(s, e) == Answers(full, e)
  {
    if e.Authorize? {
      StoreKeepsCleaned(Cleaning(s), full, e.state, e.verifier, e.role);
    }
  }

  /** Cleanup is invisible: whatever cleanups are interleaved, those of authorizations included,
      every callback and every exchange is answered as in the run without them. */
  lemma {:induction false} CleanupIsInvisible(s: State, es: seq<Event>)
    ensures Cleaned(Run(s, es), PlainRun(s, es)) && Outcomes(s, es) == PlainOutcomes(s, es)
  {
    if es == [] {
    } else {
      var front := es[..|es| - 1];
      CleanupIsInvisible(s, front);
      CleanedStep(Run(s, front), PlainRun(s, front), es[|es| - 1]);
    }
  }

  // ---------------------------------------------------------------------------
  // One use each
  // ---------------------------------------------------------------------------

  /** Did the step let a login through for this state, or hand out tokens for this code? */
  predicate Honours(s: State, e: Event, token: Token) {
    || (e == Callback(token) && token in s.states && s.states[token].expires >= s.now)
    || (e == Exchange(token) && token in s.codes && s.codes[token].expires >= s.now)
  }

  function TimesHonoured(s: State, es: seq<Event>, token: Token): nat {
    if es == [] then 0
    else
      TimesHonoured(s, es[..|es| - 1], token)
      + (if Honours(Run(s, es[..|es| - 1]), es[|es| - 1], token) then 1 else 0)
  }

  const Empty := State(0, map[], map[], {})

  /** A stored token was issued, as a state or as a code, and lives no longer than its time. */
  ghost predicate Inv(s: State) {
    && (forall k | k in s.states :: k in s.issued && k !in s.codes && s.states[k].expires <= s.now + STORE_TTL)
    && (forall k | k in s.codes :: k in s.issued && s.codes[k].expires <= s.now + CODE_TTL)
  }

  lemma StepKeepsInv(s: State, e: Event)
    requires Inv(s)
    ensures Inv(Step(s, e))
  {
  }

  /** The token was issued and is in no store any more. */
  predicate Spent(s: State, token: Token) { token in s.issued && token !in s.states && token !in s.codes }

  /** In every run each state and each code is honoured at most once, and a token that has
      been honoured is in no store. */
  lemma {:induction false} HonouredOnce(es: seq<Event>, token: Token)
    ensures Inv(Run(Empty, es)) && TimesHonoured(Empty, es, token) <= 1
    ensures TimesHonoured(Empty, es, token) == 1 ==> Spent(Run(Empty, es), token)
  {
    if es == [] {
    } else {
      var s, e := Run(Empty, es[..|es| - 1]), es[|es| - 1];
      HonouredOnce(es[..|es| - 1], token);
      StepKeepsInv(s, e);
    }
  }

  /** A token is honoured only within its lifetime: at most five minutes after a state was
      admitted, one minute after a code was issued. */
  lemma {:induction false} HonouredInTime(es: seq<Event>, more: seq<Event>, e: Event, token: Token)
    requires token !in Run(Empty, es).issued && token in Step(Run(Empty, es), e).issued
    requires Honours(Run(Step(Run(Empty, es), e), more),
                     if e.Authorize? then Callback(token) else Exchange(token), token)
    ensures var issuedAt, usedAt := Run(Empty, es).now, Run(Step(Run(Empty, es), e), more).now;
            usedAt <= issuedAt + (if e.Authorize? then STORE_TTL else CODE_TTL)
  {
    HonouredOnce(es, token);
    EntryStays(Step(Run(Empty, es), e), more, token);
  }

  lemma {:induction false} EntryStays(s: State, es: seq<Event>, token: Token)
    requires token in s.issued
    ensures token in Run(s, es).issued
    ensures token in Run(s, es).states ==> token in s.states && Run(s, es).states[token] == s.states[token]
    ensures token in Run(s, es).codes ==> token in s.codes && Run(s, es).codes[token] == s.codes[token]
  {
    if es == [] {
    } else {
      EntryStays(s, es[..|es| - 1], token);
    }
  }

  /** A callback or an exchange is honoured exactly when its caller gets what was stored. */
  lemma HonouredMeansAnswered(s: State, token: Token)
    ensures Honours(s, Callback(token), token) <==> exists p :: Answers(s, Callback(token)) == [Login(Some(p))]
    ensures Honours(s, Exchange(token), token) <==> exists g :: Answers(s, Exchange(token)) == [Tokens(Some(g))]
    ensures Honours(s, Callback(token), token) ==> Answers(s, Callback(token)) == [Login(Some(s.states[token]))]
    ensures Honours(s, Exchange(token), token) ==> Answers(s, Exchange(token)) == [Tokens(Some(s.codes[token]))]
    ensures !Honours(s, Callback(token), token) ==> Answers(s, Callback(token)) == [Login(None)]
    ensures !Honours(s, Exchange(token), token) ==> Answers(s, Exchange(token)) == [Tokens(None)]
  {
    if Honours(s, Callback(token), token) { assert Answers(s, Callback(token)) == [Login(Some(s.states[token]))]; }
    if Honours(s, Exchange(token), token) { assert Answers(s, Exchange(token)) == [Tokens(Some(s.codes[token]))]; }
  }

  /** An issued token stays where it is, with what it was issued with, until it is used or expires. */
  lemma {:induction false} EntryKept(s: State, es: seq<Event>, token: Token)
    requires token in s.issued
    ensures var t := Run(s, es);
            t.now >= s.now && token in t.issued
            && (token in s.states && s.states[token].expires >= t.now
                && (forall e | e in es :: e != Callback(token)) ==>
                  token in t.states && t.states[token] == s.states[token])
            && (token in s.codes && s.codes[token].expires >= t.now && (forall e | e in es :: e != Exchange(token)) ==>
                  token in t.codes && t.codes[token] == s.codes[token])
  {
    if es == [] {
    } else {
      var front, e := es[..|es| - 1], es[|es| - 1];
      assert e in es && forall x | x in front :: x in es;
      EntryKept(s, front, token);
      assert Run(s, es) == Step(Run(s, front), e);
      if forall x | x in es :: x != Callback(token) { assert forall x | x in front :: x != Callback(token); }
      if forall x | x in es :: x != Exchange(token) { assert forall x | x in front :: x != Exchange(token); }
    }
  }

  /** Over every run: the callback on a state admitted less than five minutes before, and not called
      back on since, is told the verifier and the role it was admitted with. */
  lemma LoginGetsThrough(s: State, es: seq<Event>, state: Token, verifier: string, role: string)
    requires state !in s.issued && |set k | k in s.states && s.states[k].expires >= s.now| <= 1000
    requires forall e | e in es :: e != Callback(state)
    requires var t := Run(Step(s, Authorize(state, verifier, role)), es); t.now <= s.now + 300
    ensures var t := Run(Step(s, Authorize(state, verifier, role)), es);
            Answers(t, Callback(state)) == [Login(Some(Pending(verifier, s.now + 300, role)))]
  {
    assert LiveStates(s.states, s.now).Keys == set k | k in s.states && s.states[k].expires >= s.now;
    var u := Step(s, Authorize(state, verifier, role));
    assert state in u.states && u.states[state] == Pending(verifier, s.now + 300, role);
    EntryKept(u, es, state);
  }

  /** Over every run: the exchange of a code issued less than a minute before, and not exchanged
      since, is told the access and the refresh token it was issued with. */
  lemma TokensGetThrough(s: State, es: seq<Event>, code: Token, access: string, refresh: string)
    requires code !in s.issued && forall e | e in es :: e != Exchange(code)
    requires var t := Run(Step(s, Issue(code, access, refresh)), es); t.now <= s.now + 60
    ensures var t := Run(Step(s, Issue(code, access, refresh)), es);
            Answers(t, Exchange(code)) == [Tokens(Some(Grant(access, refresh, s.now + 60)))]
  {
    EntryKept(Step(s, Issue(code, access, refresh)), es, code);
  }

  /** Over every run there are never more than 1001 pending states. */
  lemma {:induction false} PendingIsBounded(es: seq<Event>)
    ensures |Run(Empty, es).states| <= MAX_PENDING + 1
  {
    if es == [] {
    } else {
      PendingIsBounded(es[..|es| - 1]);
      PendingStep(Run(Empty, es[..|es| - 1]), es[|es| - 1]);
    }
  }

  lemma PendingStep(s: State, e: Event)
    requires |s.states| <= MAX_PENDING + 1
    ensures |Step(s, e).states| <= MAX_PENDING + 1
  {
    LiveStatesFewer(s.states, s.now);
    if e.Callback? { SubsetCount((s.states - {e.state}).Keys, s.states.Keys); }
  }
}
