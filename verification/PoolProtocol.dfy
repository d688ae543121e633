/**
 Pooled requests as a step system. Any number of requests run `acquire`, an operation and
 `release` over one reservoir; the environment picks the interleaving, the clock, the NOOP and
 login outcomes and how operations end. Each step is what runs between two suspension points, or
 under one hold of the lock; the instant a request stamps is read before it takes the lock.
 */
module PoolProtocol {
  import opened Credentials
  import opened Sequences
  import opened Wrappers
  import opened Pool

  /** Sessions are numbered in the order they are opened. */
  datatype Session = Session(id: nat)

  datatype Config = Config(maxIdle: nat, ttl: nat)

  datatype ErrorKind =
    | BadRequest | Unauthorized | PayloadTooLarge | AuthFailure | HostUnreachable
    | NotFound | TlsFailure | AutoconfigFailed | NotImplemented

  datatype Outcome = Success | Failure(kind: ErrorKind)

  /** The two outcomes after which a session is logged out. */
  predicate IsTransportError(outcome: Outcome) {
    outcome == Failure(HostUnreachable) || outcome == Failure(TlsFailure)
  }

  datatype Phase =
    | Started
    | TakeStamped(now: nat)
    | Sweeping(dead: seq<Session>, candidate: Option<Session>)
    | Probing(session: Session)
    | Discarding(session: Session)
    | Connecting
    | Operating(session: Session)
    | Releasing(session: Session, outcome: Outcome)
    | GiveStamped(session: Session, outcome: Outcome, now: nat)
    | LoggingOut(session: Session, outcome: Outcome)
    | Evicting(dead: seq<Session>, outcome: Outcome)
    | Finished(outcome: Outcome)

  datatype Request = Request(cred: Credential, phase: Phase)

  /**
   `owner[x.id]` is the credential session `x` logged in with. `suspect` holds the sessions whose NOOP
   failed or whose last operation ended in a transport error; no step consults it.
   */
  datatype State = State(
    clock: nat,
    idle: seq<Entry<Session>>,
    requests: seq<Request>,
    closed: multiset<Session>,
    owner: seq<Credential>,
    suspect: set<Session>)

  const Init := State(0, [], [], multiset{}, [], {})

  datatype Event =
    | Tick(elapsed: nat)
    | Arrive(cred: Credential)
    | Proceed(r: nat)
    | ProbeEnds(r: nat, alive: bool)
    | LoginEnds(r: nat, outcome: Outcome)
    | OperationEnds(r: nat, outcome: Outcome)

  /** The phases in which a request waits for the network. */
  predicate Waits(p: Phase) {
    p.Probing? || p.Connecting? || p.Operating?
  }

  predicate Enabled(s: State, e: Event) {
    match e
    case Tick(_) => true
    case Arrive(_) => true
    case Proceed(r) => r < |s.requests| && !Waits(s.requests[r].phase) && !s.requests[r].phase.Finished?
    case ProbeEnds(r, _) => r < |s.requests| && s.requests[r].phase.Probing?
    case LoginEnds(r, _) => r < |s.requests| && s.requests[r].phase.Connecting?
    case OperationEnds(r, _) => r < |s.requests| && s.requests[r].phase.Operating?
  }

  function Goto(s: State, r: nat, phase: Phase): State
    requires r < |s.requests|
  {
    s.(requests := s.requests[r := Request(s.requests[r].cred, phase)])
  }

  function Close(s: State, x: Session): State {
    s.(closed := s.closed + multiset{x})
  }

  /** What a request does by itself. */
  function Advance(c: Config, s: State, r: nat): State
    requires Enabled(s, Proceed(r))
  {
    var key := KeyOf(s.requests[r].cred);
    match s.requests[r].phase
    case Started =>
      Goto(s, r, if c.maxIdle > 0 then TakeStamped(s.clock) else Connecting)
    case TakeStamped(now) =>
      var hit := Hit(s.idle, key, now, c.ttl);
      var candidate := if hit.Some? then Some(hit.value.conn) else None;
      Goto(s.(idle := AfterTake(s.idle, key, now, c.ttl)), r, Sweeping(Dead(s.idle, now, c.ttl), candidate))
    case Sweeping(dead, candidate) =>
      if dead != [] then Goto(Close(s, dead[0]), r, Sweeping(dead[1..], candidate))
      else if candidate.Some? then Goto(s, r, Probing(candidate.value))
      else Goto(s, r, Connecting)
    case Discarding(x) =>
      Goto(Close(s, x), r, Connecting)
    case Releasing(x, outcome) =>
      Goto(s, r,
        if IsTransportError(outcome) || c.maxIdle == 0 then LoggingOut(x, outcome)
        else GiveStamped(x, outcome, s.clock))
    case LoggingOut(x, outcome) =>
      Goto(Close(s, x), r, Finished(outcome))
    case GiveStamped(x, outcome, now) =>
      var e := Entry(key, x, now);
      Goto(s.(idle := AfterPut(s.idle, e, now, c.ttl, c.maxIdle)), r,
           Evicting(Evicted(s.idle, e, now, c.ttl, c.maxIdle), outcome))
    case Evicting(dead, outcome) =>
      if dead != [] then Goto(Close(s, dead[0]), r, Evicting(dead[1..], outcome))
      else Goto(s, r, Finished(outcome))
    case _ => s
  }

  function Next(c: Config, s: State, e: Event): State
    requires Enabled(s, e)
  {
    match e
    case Tick(elapsed) => s.(clock := s.clock + elapsed)
    case Arrive(cred) => s.(requests := s.requests + [Request(cred, Started)])
    case Proceed(r) => Advance(c, s, r)
    case ProbeEnds(r, alive) =>
      var x := s.requests[r].phase.session;
      if alive then Goto(s, r, Operating(x))
      else Goto(s.(suspect := s.suspect + {x}), r, Discarding(x))
    case LoginEnds(r, outcome) =>
      if outcome.Success?
      then Goto(s.(owner := s.owner + [s.requests[r].cred]), r, Operating(Session(|s.owner|)))
      else Goto(s, r, Finished(outcome))
    case OperationEnds(r, outcome) =>
      var x := s.requests[r].phase.session;
      var s' := if IsTransportError(outcome) then s.(suspect := s.suspect + {x}) else s;
      Goto(s', r, Releasing(x, outcome))
  }

  // -------------------------------------------------------------------------
  // Where the sessions are
  // -------------------------------------------------------------------------

  /** The sessions a request owns. */
  function Held(p: Phase): multiset<Session> {
    match p
    case Sweeping(dead, candidate) =>
      multiset(dead) + if candidate.Some? then multiset{candidate.value} else multiset{}
    case Probing(x) => multiset{x}
    case Discarding(x) => multiset{x}
    case Operating(x) => multiset{x}
    case Releasing(x, _) => multiset{x}
    case GiveStamped(x, _, _) => multiset{x}
    case LoggingOut(x, _) => multiset{x}
    case Evicting(dead, _) => multiset(dead)
    case _ => multiset{}
  }

  /** How often the first `k` requests own `x`. */
  function HeldCount(requests: seq<Request>, k: nat, x: Session): nat
    requires k <= |requests|
  {
    if k == 0 then 0 else HeldCount(requests, k - 1, x) + Held(requests[k - 1].phase)[x]
  }

  /** How often `x` is anywhere. */
  function Places(s: State, x: Session): nat {
    multiset(Conns(s.idle))[x] + HeldCount(s.requests, |s.requests|, x) + s.closed[x]
  }

  lemma {:induction false} HeldUpdate(requests: seq<Request>, r: nat, req: Request, k: nat, x: Session)
    requires r < |requests| && k <= |requests|
    ensures HeldCount(requests[r := req], k, x) == HeldCount(requests, k, x) +
              (if r < k then Held(req.phase)[x] as int - Held(requests[r].phase)[x] else 0)
  {
    hide Held;
    if k > 0 {
      HeldUpdate(requests, r, req, k - 1, x);
    }
  }

  lemma {:induction false} HeldPrefix(requests: seq<Request>, req: Request, k: nat, x: Session)
    requires k <= |requests|
    ensures HeldCount(requests + [req], k, x) == HeldCount(requests, k, x)
  {
    hide Held;
    if k > 0 {
      HeldPrefix(requests, req, k - 1, x);
    }
  }

  lemma {:induction false} HeldSome(requests: seq<Request>, r: nat, k: nat, x: Session)
    requires r < k <= |requests|
    ensures HeldCount(requests, k, x) >= Held(requests[r].phase)[x]
  {
    hide Held;
    if r < k - 1 {
      HeldSome(requests, r, k - 1, x);
    }
  }

  lemma {:induction false} HeldTwice(requests: seq<Request>, r: nat, q: nat, k: nat, x: Session)
    requires r < q < k <= |requests|
    ensures HeldCount(requests, k, x) >=
              Held(requests[r].phase)[x] + Held(requests[q].phase)[x]
  {
    hide Held;
    if q == k - 1 {
      HeldSome(requests, r, q, x);
    } else {
      HeldTwice(requests, r, q, k - 1, x);
    }
  }

  lemma {:induction false} HeldByNone(requests: seq<Request>, k: nat, x: Session)
    requires k <= |requests| && forall r :: 0 <= r < k ==> x !in Held(requests[r].phase)
    ensures HeldCount(requests, k, x) == 0
  {
    hide Held;
    if k > 0 {
      HeldByNone(requests, k - 1, x);
    }
  }

  /** How often `x` is where request `r` can move it. */
  function Nearby(s: State, r: nat, x: Session): nat
    requires r < |s.requests|
  {
    multiset(Conns(s.idle))[x] + Held(s.requests[r].phase)[x] + s.closed[x]
  }

  /** One request moving sessions between its own hands and the shared places moves nothing else. */
  lemma Rebalance(s: State, t: State, r: nat, req: Request, x: Session)
    requires r < |s.requests| && t.requests == s.requests[r := req]
    ensures Places(t, x) - Places(s, x) == Nearby(t, r, x) as int - Nearby(s, r, x)
  {
    HeldUpdate(s.requests, r, req, |s.requests|, x);
  }

  /** No step loses or copies a session; only a login adds one, the next in number. */
  lemma StepConserves(c: Config, s: State, e: Event, x: Session)
    requires Enabled(s, e)
    ensures var t := Next(c, s, e);
            && Places(t, x) == Places(s, x) + (if |s.owner| == x.id < |t.owner| then 1 else 0)
            && |s.owner| <= |t.owner| <= |s.owner| + 1
  {
    hide Advance, KeyOf, IsTransportError, Places, HeldCount;
    match e
    case Tick(_) => ArriveConserves(c, s, e, x);
    case Arrive(_) => ArriveConserves(c, s, e, x);
    case Proceed(r) => AdvanceConserves(c, s, r, x);
    case _ => ReplyConserves(c, s, e, x);
  }

  lemma ArriveConserves(c: Config, s: State, e: Event, x: Session)
    requires e.Tick? || e.Arrive?
    ensures Places(Next(c, s, e), x) == Places(s, x) && Next(c, s, e).owner == s.owner
  {
    hide Advance, KeyOf, IsTransportError;
    if e.Arrive? {
      HeldPrefix(s.requests, Request(e.cred, Started), |s.requests|, x);
    }
  }

  lemma ReplyConserves(c: Config, s: State, e: Event, x: Session)
    requires Enabled(s, e) && (e.ProbeEnds? || e.LoginEnds? || e.OperationEnds?)
    ensures var t := Next(c, s, e);
            && Places(t, x) == Places(s, x) + (if |s.owner| == x.id < |t.owner| then 1 else 0)
            && |s.owner| <= |t.owner| <= |s.owner| + 1
  {
    hide Places;
    match e
    case ProbeEnds(r, alive) => ProbeConserves(c, s, r, alive, x);
    case LoginEnds(r, outcome) => LoginConserves(c, s, r, outcome, x);
    case OperationEnds(r, outcome) => OperationConserves(c, s, r, outcome, x);
  }

  lemma ProbeConserves(c: Config, s: State, r: nat, alive: bool, x: Session)
    requires Enabled(s, ProbeEnds(r, alive))
    ensures var t := Next(c, s, ProbeEnds(r, alive)); Places(t, x) == Places(s, x) && t.owner == s.owner
  {
    hide Advance, Places;
    var t := Next(c, s, ProbeEnds(r, alive));
    Rebalance(s, t, r, t.requests[r], x);
  }

  lemma LoginConserves(c: Config, s: State, r: nat, outcome: Outcome, x: Session)
    requires Enabled(s, LoginEnds(r, outcome))
    ensures var t := Next(c, s, LoginEnds(r, outcome));
            && Places(t, x) == Places(s, x) + (if |s.owner| == x.id < |t.owner| then 1 else 0)
            && |s.owner| <= |t.owner| <= |s.owner| + 1
  {
    hide Advance, Places;
    var t := Next(c, s, LoginEnds(r, outcome));
    Rebalance(s, t, r, t.requests[r], x);
  }

  lemma OperationConserves(c: Config, s: State, r: nat, outcome: Outcome, x: Session)
    requires Enabled(s, OperationEnds(r, outcome))
    ensures var t := Next(c, s, OperationEnds(r, outcome)); Places(t, x) == Places(s, x) && t.owner == s.owner
  {
    hide Advance, Places;
    var t := Next(c, s, OperationEnds(r, outcome));
    Rebalance(s, t, r, t.requests[r], x);
  }

  lemma AdvanceConserves(c: Config, s: State, r: nat, x: Session)
    requires Enabled(s, Proceed(r))
    ensures Places(Advance(c, s, r), x) == Places(s, x) && Advance(c, s, r).owner == s.owner
  {
    hide Advance, Places;
    match s.requests[r].phase
    case TakeStamped(_) => TakeStepConserves(c, s, r, x);
    case GiveStamped(_, _, _) => GiveStepConserves(c, s, r, x);
    case Sweeping(_, _) => SweepStepConserves(c, s, r, x);
    case Evicting(_, _) => EvictStepConserves(c, s, r, x);
    case Discarding(_) => CloseStepConserves(c, s, r, x);
    case LoggingOut(_, _) => CloseStepConserves(c, s, r, x);
    case Started => QuietStepConserves(c, s, r, x);
    case Releasing(_, _) => QuietStepConserves(c, s, r, x);
  }

  lemma QuietStepConserves(c: Config, s: State, r: nat, x: Session)
    requires Enabled(s, Proceed(r)) && (s.requests[r].phase.Started? || s.requests[r].phase.Releasing?)
    ensures Places(Advance(c, s, r), x) == Places(s, x) && Advance(c, s, r).owner == s.owner
  {
    hide Places;
    var t := Advance(c, s, r);
    Rebalance(s, t, r, t.requests[r], x);
  }

  lemma CloseStepConserves(c: Config, s: State, r: nat, x: Session)
    requires Enabled(s, Proceed(r)) && (s.requests[r].phase.Discarding? || s.requests[r].phase.LoggingOut?)
    ensures Places(Advance(c, s, r), x) == Places(s, x) && Advance(c, s, r).owner == s.owner
  {
    hide Places, HeldCount, KeyOf, AfterTake, AfterPut, Dead, Evicted, Hit, Conns, IsTransportError;
    var t := Advance(c, s, r);
    Rebalance(s, t, r, t.requests[r], x);
  }

  lemma TakeStepConserves(c: Config, s: State, r: nat, x: Session)
    requires Enabled(s, Proceed(r)) && s.requests[r].phase.TakeStamped?
    ensures Places(Advance(c, s, r), x) == Places(s, x) && Advance(c, s, r).owner == s.owner
  {
    hide AfterTake, AfterPut, Dead, Evicted, Hit, Places;
    var t := Advance(c, s, r);
    Rebalance(s, t, r, t.requests[r], x);
    TakeConserves(s.idle, KeyOf(s.requests[r].cred), s.requests[r].phase.now, c.ttl);
  }

  lemma GiveStepConserves(c: Config, s: State, r: nat, x: Session)
    requires Enabled(s, Proceed(r)) && s.requests[r].phase.GiveStamped?
    ensures Places(Advance(c, s, r), x) == Places(s, x) && Advance(c, s, r).owner == s.owner
  {
    hide AfterTake, AfterPut, Dead, Evicted, Hit, Places;
    var t, p := Advance(c, s, r), s.requests[r].phase;
    Rebalance(s, t, r, t.requests[r], x);
    PutConserves(s.idle, Entry(KeyOf(s.requests[r].cred), p.session, p.now), p.now, c.ttl, c.maxIdle);
    assert (multiset(Conns(s.idle)) + multiset{p.session})[x] ==
           multiset(Conns(t.idle))[x] + Held(t.requests[r].phase)[x];
  }

  lemma SweepStepConserves(c: Config, s: State, r: nat, x: Session)
    requires Enabled(s, Proceed(r)) && s.requests[r].phase.Sweeping?
    ensures Places(Advance(c, s, r), x) == Places(s, x) && Advance(c, s, r).owner == s.owner
  {
    hide Places, Held;
    var t, p := Advance(c, s, r), s.requests[r].phase;
    Rebalance(s, t, r, t.requests[r], x);
    SweptHeld(p.dead, p.candidate, x);
  }

  /** What a sweeping request owns before and after its next move. */
  lemma SweptHeld(dead: seq<Session>, candidate: Option<Session>, x: Session)
    ensures dead != [] ==>
              Held(Sweeping(dead, candidate))[x] == multiset{dead[0]}[x] + Held(Sweeping(dead[1..], candidate))[x]
    ensures dead == [] && candidate.Some? ==> Held(Sweeping(dead, candidate))[x] == Held(Probing(candidate.value))[x]
    ensures dead == [] && candidate.None? ==> Held(Sweeping(dead, candidate))[x] == Held(Connecting)[x]
  {
    if dead != [] {
      FirstAndRest(dead, x);
    }
  }

  lemma EvictStepConserves(c: Config, s: State, r: nat, x: Session)
    requires Enabled(s, Proceed(r)) && s.requests[r].phase.Evicting?
    ensures Places(Advance(c, s, r), x) == Places(s, x) && Advance(c, s, r).owner == s.owner
  {
    hide Places;
    var t, dead := Advance(c, s, r), s.requests[r].phase.dead;
    Rebalance(s, t, r, t.requests[r], x);
    if dead != [] {
      FirstAndRest(dead, x);
    }
  }

  lemma FirstAndRest(dead: seq<Session>, x: Session)
    requires dead != []
    ensures multiset(dead)[x] == multiset{dead[0]}[x] + multiset(dead[1..])[x]
  {
    assert dead == [dead[0]] + dead[1..];
  }

  // -------------------------------------------------------------------------
  // The invariant
  // -------------------------------------------------------------------------

  /** `x` logged in with the credential's key and has not failed. */
  predicate Fit(s: State, x: Session, cred: Credential) {
    x.id < |s.owner| && KeyOf(s.owner[x.id]) == KeyOf(cred) && x !in s.suspect
  }

  /** The sessions a request may use, and the instants it has read, are in order. */
  predicate RequestOk(s: State, q: Request) {
    match q.phase
    case TakeStamped(now) => now <= s.clock
    case Sweeping(_, candidate) => candidate.Some? ==> Fit(s, candidate.value, q.cred)
    case Probing(x) => Fit(s, x, q.cred)
    case Operating(x) => Fit(s, x, q.cred)
    case Releasing(x, outcome) => IsTransportError(outcome) || Fit(s, x, q.cred)
    case GiveStamped(x, _, now) => Fit(s, x, q.cred) && now <= s.clock
    case _ => true
  }

  predicate EntryOk(s: State, e: Entry<Session>) {
    && e.conn.id < |s.owner| && e.key == KeyOf(s.owner[e.conn.id])
    && e.conn !in s.suspect
    && e.storedAt <= s.clock
  }

  /** What idle entries and requests promise, one by one. */
  predicate Sound(c: Config, s: State) {
    && |s.idle| <= c.maxIdle
    && (forall i :: 0 <= i < |s.idle| ==> EntryOk(s, s.idle[i]))
    && (forall r :: 0 <= r < |s.requests| ==> RequestOk(s, s.requests[r]))
    && (forall x :: x in s.suspect ==> x.id < |s.owner|)
  }

  ghost predicate Inv(c: Config, s: State) {
    && (forall x: Session :: Places(s, x) == if x.id < |s.owner| then 1 else 0)
    && Sound(c, s)
  }

  /** What a request holds, nobody else has. */
  lemma HeldAlone(s: State, r: nat, x: Session)
    requires Places(s, x) <= 1
    requires r < |s.requests| && x in Held(s.requests[r].phase)
    ensures forall i :: 0 <= i < |s.idle| ==> s.idle[i].conn != x
    ensures x !in s.closed
    ensures forall q :: 0 <= q < |s.requests| && q != r ==> x !in Held(s.requests[q].phase)
  {
    HeldSome(s.requests, r, |s.requests|, x);
    assert x !in Conns(s.idle);
    assert forall i :: 0 <= i < |s.idle| ==> Conns(s.idle)[i] == s.idle[i].conn;
    forall q | 0 <= q < |s.requests| && q != r ensures x !in Held(s.requests[q].phase) {
      HeldTwice(s.requests, if r < q then r else q, if r < q then q else r, |s.requests|, x);
    }
  }

  lemma StepKeepsInv(c: Config, s: State, e: Event)
    requires Inv(c, s) && Enabled(s, e)
    ensures Inv(c, Next(c, s, e))
  {
    hide Advance, Places, Next, Sound;
    var t := Next(c, s, e);
    forall x: Session ensures Places(t, x) == if x.id < |t.owner| then 1 else 0 {
      StepConserves(c, s, e, x);
    }
    StepStaysSound(c, s, e);
  }

  lemma StepStaysSound(c: Config, s: State, e: Event)
    requires Inv(c, s) && Enabled(s, e)
    ensures Sound(c, Next(c, s, e))
  {
    hide Advance, Places;
    match e
    case Proceed(r) => AdvanceStaysSound(c, s, r);
    case ProbeEnds(r, alive) => ProbeStaysSound(c, s, r, alive);
    case OperationEnds(r, outcome) => OperationStaysSound(c, s, r, outcome);
    case LoginEnds(r, _) => RestStillOk(c, s, Next(c, s, e), r);
    case Tick(_) => RestStillOk(c, s, Next(c, s, e), |s.requests|);
    case Arrive(_) => RestStillOk(c, s, Next(c, s, e), |s.requests|);
  }

  lemma ProbeStaysSound(c: Config, s: State, r: nat, alive: bool)
    requires Inv(c, s) && Enabled(s, ProbeEnds(r, alive))
    ensures Sound(c, Next(c, s, ProbeEnds(r, alive)))
  {
    hide Advance, Places, HeldCount, KeyOf, EntryOk, RequestOk;
    var t := Next(c, s, ProbeEnds(r, alive));
    HeldAlone(s, r, s.requests[r].phase.session);
    RestStillOk(c, s, t, r);
    ProbedStaysOk(c, s, r, alive);
  }

  lemma ProbedStaysOk(c: Config, s: State, r: nat, alive: bool)
    requires Sound(c, s) && Enabled(s, ProbeEnds(r, alive))
    ensures var t := Next(c, s, ProbeEnds(r, alive));
            RequestOk(t, t.requests[r]) && forall x :: x in t.suspect ==> x.id < |t.owner|
  {
    hide Advance, KeyOf, EntryOk;
    assert RequestOk(s, s.requests[r]);
  }

  lemma OperationStaysSound(c: Config, s: State, r: nat, outcome: Outcome)
    requires Inv(c, s) && Enabled(s, OperationEnds(r, outcome))
    ensures Sound(c, Next(c, s, OperationEnds(r, outcome)))
  {
    hide Advance, Places, HeldCount, KeyOf, EntryOk, RequestOk;
    var t := Next(c, s, OperationEnds(r, outcome));
    HeldAlone(s, r, s.requests[r].phase.session);
    RestStillOk(c, s, t, r);
    OperatedStaysOk(c, s, r, outcome);
  }

  lemma OperatedStaysOk(c: Config, s: State, r: nat, outcome: Outcome)
    requires Sound(c, s) && Enabled(s, OperationEnds(r, outcome))
    ensures var t := Next(c, s, OperationEnds(r, outcome));
            RequestOk(t, t.requests[r]) && forall x :: x in t.suspect ==> x.id < |t.owner|
  {
    hide Advance, KeyOf, EntryOk;
    assert RequestOk(s, s.requests[r]);
  }

  /** Everything but request `r` stays in order when time passes, sessions open, and `r`'s own fails. */
  lemma RestStillOk(c: Config, s: State, t: State, r: nat)
    requires Inv(c, s)
    requires s.clock <= t.clock && s.owner <= t.owner
    requires forall i :: 0 <= i < |s.idle| && s.idle[i].conn in t.suspect ==> s.idle[i].conn in s.suspect
    requires forall q :: 0 <= q < |s.requests| && q != r ==>
               forall x :: x in Held(s.requests[q].phase) && x in t.suspect ==> x in s.suspect
    ensures forall i :: 0 <= i < |s.idle| ==> EntryOk(t, s.idle[i])
    ensures forall q :: 0 <= q < |s.requests| && q != r ==> RequestOk(t, s.requests[q])
  {
    hide Places;
    forall q | 0 <= q < |s.requests| && q != r ensures RequestOk(t, s.requests[q]) {
      RequestStillOk(s, t, s.requests[q]);
    }
  }

  lemma RequestStillOk(s: State, t: State, q: Request)
    requires RequestOk(s, q) && s.clock <= t.clock && s.owner <= t.owner
    requires forall x :: x in Held(q.phase) && x in t.suspect ==> x in s.suspect
    ensures RequestOk(t, q)
  {
    match q.phase
    case Sweeping(dead, candidate) =>
      if candidate.Some? { assert candidate.value in Held(q.phase); }
    case Probing(x) => assert x in Held(q.phase);
    case Operating(x) => assert x in Held(q.phase);
    case Releasing(x, _) => assert x in Held(q.phase);
    case GiveStamped(x, _, _) => assert x in Held(q.phase);
    case _ =>
  }

  lemma AdvanceStaysSound(c: Config, s: State, r: nat)
    requires Inv(c, s) && Enabled(s, Proceed(r))
    ensures Sound(c, Advance(c, s, r))
  {
    hide AfterTake, AfterPut, Dead, Evicted, Hit, HeldCount, Places, Advance;
    var t := Advance(c, s, r);
    OnlyMoves(c, s, r);
    RestStillOk(c, s, t, r);
    assert RequestOk(s, s.requests[r]);
    if s.requests[r].phase.TakeStamped? {
      TakeStaysOk(c, s, r);
    } else if s.requests[r].phase.GiveStamped? {
      GiveStaysOk(c, s, r);
    } else {
      MoveStaysOk(c, s, r);
    }
  }

  /** A request's own step touches no other request. */
  lemma OnlyMoves(c: Config, s: State, r: nat)
    requires Enabled(s, Proceed(r))
    ensures var t := Advance(c, s, r);
            && |t.requests| == |s.requests| && t.requests[r].cred == s.requests[r].cred
            && (forall q :: 0 <= q < |s.requests| && q != r ==> t.requests[q] == s.requests[q])
            && t.owner == s.owner && t.suspect == s.suspect && t.clock == s.clock
            && (t.idle == s.idle || s.requests[r].phase.TakeStamped? || s.requests[r].phase.GiveStamped?)
  {
    hide AfterTake, AfterPut, Dead, Evicted, Hit, KeyOf;
  }

  lemma TakeStaysOk(c: Config, s: State, r: nat)
    requires Inv(c, s) && Enabled(s, Proceed(r)) && s.requests[r].phase.TakeStamped?
    ensures var t := Advance(c, s, r);
            && |t.idle| <= c.maxIdle && RequestOk(t, t.requests[r])
            && (forall i :: 0 <= i < |t.idle| ==> EntryOk(t, t.idle[i]))
  {
    hide AfterTake, AfterPut, Dead, Evicted, Hit, HeldCount, Places;
    TakenFromIdle(s.idle, KeyOf(s.requests[r].cred), s.requests[r].phase.now, c.ttl);
  }

  lemma GiveStaysOk(c: Config, s: State, r: nat)
    requires Inv(c, s) && Enabled(s, Proceed(r)) && s.requests[r].phase.GiveStamped?
    ensures var t := Advance(c, s, r);
            && |t.idle| <= c.maxIdle && RequestOk(t, t.requests[r])
            && (forall i :: 0 <= i < |t.idle| ==> EntryOk(t, t.idle[i]))
  {
    hide AfterTake, AfterPut, Dead, Evicted, Hit, HeldCount, Places;
    var p := s.requests[r].phase;
    assert RequestOk(s, s.requests[r]);
    PutIntoIdle(s.idle, Entry(KeyOf(s.requests[r].cred), p.session, p.now), p.now, c.ttl, c.maxIdle);
  }

  lemma MoveStaysOk(c: Config, s: State, r: nat)
    requires Enabled(s, Proceed(r)) && RequestOk(s, s.requests[r])
    requires !s.requests[r].phase.TakeStamped? && !s.requests[r].phase.GiveStamped?
    ensures RequestOk(Advance(c, s, r), Advance(c, s, r).requests[r])
  {
    hide AfterTake, AfterPut, Dead, Evicted, Hit, KeyOf, Fit, IsTransportError;
    var t, cred := Advance(c, s, r), s.requests[r].cred;
    match s.requests[r].phase
    case Sweeping(_, candidate) =>
      if candidate.Some? { FitSame(s, t, candidate.value, cred); }
    case Releasing(x, _) => FitSame(s, t, x, cred);
    case _ =>
  }

  lemma FitSame(s: State, t: State, x: Session, cred: Credential)
    ensures s.owner == t.owner && s.suspect == t.suspect ==> (Fit(s, x, cred) <==> Fit(t, x, cred))
  {
  }

  /** A put adds one entry and otherwise only removes. */
  lemma PutIntoIdle(es: seq<Entry<Session>>, e: Entry<Session>, now: nat, ttl: nat, maxIdle: nat)
    ensures |AfterPut(es, e, now, ttl, maxIdle)| <= maxIdle
    ensures forall i :: 0 <= i < |AfterPut(es, e, now, ttl, maxIdle)| ==>
              AfterPut(es, e, now, ttl, maxIdle)[i] == e || AfterPut(es, e, now, ttl, maxIdle)[i] in es
  {
    hide AfterPut;
    PutMeaning(es, e, now, ttl, maxIdle);
    forall i: nat | i < |AfterPut(es, e, now, ttl, maxIdle)|
      ensures AfterPut(es, e, now, ttl, maxIdle)[i] == e || AfterPut(es, e, now, ttl, maxIdle)[i] in es
    {
      PutKeeps(es, e, now, ttl, maxIdle, i);
    }
  }

  /** A take only removes entries, and hands out one of them. */
  lemma TakenFromIdle(es: seq<Entry<Session>>, key: PoolKey, now: nat, ttl: nat)
    ensures |AfterTake(es, key, now, ttl)| <= |es|
    ensures forall i :: 0 <= i < |AfterTake(es, key, now, ttl)| ==> AfterTake(es, key, now, ttl)[i] in es
    ensures Hit(es, key, now, ttl).Some? ==>
              var e := Hit(es, key, now, ttl).value; e in es && e.key == key && !Expired(e, now, ttl)
  {
    LiveMembers(es, now, ttl);
  }

  // -------------------------------------------------------------------------
  // Runs
  // -------------------------------------------------------------------------

  /** A run from the empty pool: `states[i + 1]` is what `events[i]` makes of `states[i]`. */
  predicate IsRun(c: Config, states: seq<State>, events: seq<Event>) {
    && |states| == |events| + 1 && states[0] == Init
    && forall i :: 0 <= i < |events| ==>
         Enabled(states[i], events[i]) && states[i + 1] == Next(c, states[i], events[i])
  }

  lemma {:induction false} RunKeepsInv(c: Config, states: seq<State>, events: seq<Event>, i: nat)
    requires IsRun(c, states, events) && i < |states|
    ensures Inv(c, states[i])
  {
    if i > 0 {
      RunKeepsInv(c, states, events, i - 1);
      StepKeepsInv(c, states[i - 1], events[i - 1]);
    }
  }

  predicate IsIdle(s: State, x: Session) {
    exists i :: 0 <= i < |s.idle| && s.idle[i].conn == x
  }

  predicate IsHeld(s: State, x: Session) {
    exists r :: 0 <= r < |s.requests| && x in Held(s.requests[r].phase)
  }

  /** At every moment of every run, each session ever opened is in exactly one place. */
  lemma OnePlaceEach(c: Config, states: seq<State>, events: seq<Event>, i: nat, x: Session)
    requires IsRun(c, states, events) && i < |states|
    ensures var s := states[i];
            && (x.id < |s.owner| <==> IsIdle(s, x) || IsHeld(s, x) || x in s.closed)
            && !(IsIdle(s, x) && IsHeld(s, x)) && !(IsHeld(s, x) && x in s.closed)
            && !(IsIdle(s, x) && x in s.closed)
            && (forall r, q :: 0 <= r < q < |s.requests| ==>
                  !(x in Held(s.requests[r].phase) && x in Held(s.requests[q].phase)))
            && (forall j, k :: 0 <= j < k < |s.idle| ==> !(s.idle[j].conn == x == s.idle[k].conn))
  {
    RunKeepsInv(c, states, events, i);
    OnePlace(c, states[i], x);
  }

  lemma OnePlace(c: Config, s: State, x: Session)
    requires Inv(c, s)
    ensures x.id < |s.owner| <==> IsIdle(s, x) || IsHeld(s, x) || x in s.closed
    ensures !(IsIdle(s, x) && IsHeld(s, x)) && !(IsHeld(s, x) && x in s.closed)
    ensures !(IsIdle(s, x) && x in s.closed)
    ensures forall r, q :: 0 <= r < q < |s.requests| ==>
              !(x in Held(s.requests[r].phase) && x in Held(s.requests[q].phase))
    ensures forall j, k :: 0 <= j < k < |s.idle| ==> !(s.idle[j].conn == x == s.idle[k].conn)
  {
    hide EntryOk, RequestOk;
    assert Places(s, x) == if x.id < |s.owner| then 1 else 0;
    if IsHeld(s, x) {
      var r :| 0 <= r < |s.requests| && x in Held(s.requests[r].phase);
      HeldSome(s.requests, r, |s.requests|, x);
      HeldAlone(s, r, x);
    } else {
      HeldByNone(s.requests, |s.requests|, x);
    }
    IdleCounted(s, x);
  }

  lemma IdleCounted(s: State, x: Session)
    ensures multiset(Conns(s.idle))[x] > 0 <==> IsIdle(s, x)
    ensures multiset(Conns(s.idle))[x] <= 1 ==>
              forall j, k :: 0 <= j < k < |s.idle| ==> !(s.idle[j].conn == x == s.idle[k].conn)
  {
    var cs := Conns(s.idle);
    assert forall j :: 0 <= j < |s.idle| ==> cs[j] == s.idle[j].conn;
    assert x in cs <==> IsIdle(s, x);
    forall j, k | 0 <= j < k < |s.idle| && cs[j] == x == cs[k] ensures multiset(cs)[x] >= 2 {
      TwiceCounted(cs, j, k);
    }
  }

  /** A request only ever works on a session that logged in as the same user, password and server. */
  lemma HandedToItsOwner(c: Config, states: seq<State>, events: seq<Event>, i: nat, r: nat)
    requires IsRun(c, states, events) && i < |states|
    ensures var s := states[i];
            r < |s.requests| && s.requests[r].phase.Operating? ==>
              var x, cred := s.requests[r].phase.session, s.requests[r].cred;
              && x.id < |s.owner| && x !in s.suspect
              && s.owner[x.id].username == cred.username && s.owner[x.id].password == cred.password
              && s.owner[x.id].imapTarget == cred.imapTarget
  {
    RunKeepsInv(c, states, events, i);
    var s := states[i];
    if r < |s.requests| {
      assert RequestOk(s, s.requests[r]);
    }
  }

  lemma {:induction false} SuspectForever(c: Config, states: seq<State>, events: seq<Event>, i: nat, j: nat)
    requires IsRun(c, states, events) && i <= j < |states|
    ensures states[i].suspect <= states[j].suspect
  {
    if i < j {
      SuspectForever(c, states, events, i, j - 1);
    }
  }

  /** A session that failed its NOOP or an operation is never idle and never worked on again. */
  lemma SuspectNeverReused(c: Config, states: seq<State>, events: seq<Event>, i: nat, j: nat, x: Session)
    requires IsRun(c, states, events) && i <= j < |states|
    requires x in states[i].suspect
    ensures !IsIdle(states[j], x)
    ensures forall r :: 0 <= r < |states[j].requests| ==>
              states[j].requests[r].phase != Operating(x) && states[j].requests[r].phase != Probing(x)
  {
    SuspectForever(c, states, events, i, j);
    RunKeepsInv(c, states, events, j);
    var s := states[j];
    forall r | 0 <= r < |s.requests| ensures s.requests[r].phase != Operating(x) && s.requests[r].phase != Probing(x) {
      assert RequestOk(s, s.requests[r]);
    }
  }

  /** A session becomes suspect by failing its NOOP, by a lost connection or a TLS failure, and by nothing else. */
  lemma FailuresAreSuspect(c: Config, s: State, e: Event, x: Session)
    requires Enabled(s, e)
    ensures x in Next(c, s, e).suspect <==>
              || x in s.suspect
              || (e.ProbeEnds? && !e.alive && x == s.requests[e.r].phase.session)
              || (e.OperationEnds? && e.outcome in {Failure(HostUnreachable), Failure(TlsFailure)}
                  && x == s.requests[e.r].phase.session)
  {
    hide AfterTake, AfterPut, Dead, Evicted, Hit, KeyOf;
    if e.Proceed? {
      OnlyMoves(c, s, e.r);
    }
  }

  /** A warm session is handed out younger than the lifetime, on the taker's clock. */
  lemma HitsAreYoung(c: Config, states: seq<State>, events: seq<Event>, i: nat, r: nat)
    requires IsRun(c, states, events) && i < |events| && events[i] == Proceed(r)
    requires states[i].requests[r].phase.TakeStamped?
    ensures var now, after := states[i].requests[r].phase.now, states[i + 1].requests[r].phase;
            && after.Sweeping? && now <= states[i].clock
            && (after.candidate.Some? ==>
                  exists e :: && e in states[i].idle && e.conn == after.candidate.value
                              && e.key == KeyOf(states[i].requests[r].cred)
                              && (now < e.storedAt || now - e.storedAt < c.ttl))
  {
    RunKeepsInv(c, states, events, i);
    var s := states[i];
    assert RequestOk(s, s.requests[r]);
    TakenFromIdle(s.idle, KeyOf(s.requests[r].cred), s.requests[r].phase.now, c.ttl);
  }

  /** The pool stays within its cap, and a disabled pool stays empty. */
  lemma CapHolds(c: Config, states: seq<State>, events: seq<Event>, i: nat)
    requires IsRun(c, states, events) && i < |states|
    ensures |states[i].idle| <= c.maxIdle
  {
    RunKeepsInv(c, states, events, i);
  }

  /** Once every request has finished, each session opened is idle, within the cap, or closed. */
  lemma NothingLeaks(c: Config, states: seq<State>, events: seq<Event>, i: nat, x: Session)
    requires IsRun(c, states, events) && i < |states|
    requires forall r :: 0 <= r < |states[i].requests| ==> states[i].requests[r].phase.Finished?
    ensures x.id < |states[i].owner| ==> IsIdle(states[i], x) || x in states[i].closed
    ensures c.maxIdle == 0 && x.id < |states[i].owner| ==> x in states[i].closed
  {
    OnePlaceEach(c, states, events, i, x);
    CapHolds(c, states, events, i);
    assert !IsHeld(states[i], x);
  }

  /** Work starts only on a session that has just answered its NOOP or has just been opened by this request. */
  lemma WorkStartsOnTheProven(c: Config, s: State, e: Event, r: nat, x: Session)
    requires Enabled(s, e) && r < |s.requests|
    requires s.requests[r].phase != Operating(x) && Next(c, s, e).requests[r].phase == Operating(x)
    ensures || (s.requests[r].phase == Probing(x) && e == ProbeEnds(r, true))
            || (s.requests[r].phase == Connecting && e == LoginEnds(r, Success) && x.id == |s.owner|)
  {
    hide AfterTake, AfterPut, Dead, Evicted, Hit, KeyOf;
  }

  // -------------------------------------------------------------------------
  // Progress
  // -------------------------------------------------------------------------

  /** How far a request is from finishing: stages first, then sessions left to close. */
  function Rank(p: Phase): (nat, nat) {
    match p
    case Started => (11, 0)
    case TakeStamped(_) => (10, 0)
    case Sweeping(dead, _) => (9, |dead|)
    case Probing(_) => (8, 0)
    case Discarding(_) => (7, 0)
    case Connecting => (6, 0)
    case Operating(_) => (5, 0)
    case Releasing(_, _) => (4, 0)
    case GiveStamped(_, _, _) => (3, 0)
    case LoggingOut(_, _) => (2, 0)
    case Evicting(dead, _) => (1, |dead|)
    case Finished(_) => (0, 0)
  }

  predicate Below(a: (nat, nat), b: (nat, nat)) {
    a.0 < b.0 || (a.0 == b.0 && a.1 < b.1)
  }

  /** The request an event moves, if any. */
  function Mover(e: Event): Option<nat> {
    if e.Tick? || e.Arrive? then None else Some(e.r)
  }

  /** No request is ever stuck, and every step of a request brings that request nearer its end. */
  lemma AlwaysNearer(c: Config, s: State, e: Event, r: nat)
    requires r < |s.requests|
    ensures !s.requests[r].phase.Finished? ==>
              || Enabled(s, Proceed(r)) || Enabled(s, ProbeEnds(r, true))
              || Enabled(s, LoginEnds(r, Success)) || Enabled(s, OperationEnds(r, Success))
    ensures Enabled(s, e) ==> Nearer(s, Next(c, s, e), e, r)
  {
    hide Advance, Nearer;
    if Enabled(s, e) {
      if e.Proceed? {
        ProceedNearer(c, s, e.r, r);
      } else {
        ReplyNearer(c, s, e, r);
      }
    }
  }

  lemma ReplyNearer(c: Config, s: State, e: Event, r: nat)
    requires r < |s.requests| && Enabled(s, e) && !e.Proceed?
    ensures Nearer(s, Next(c, s, e), e, r)
  {
    hide Advance;
  }

  /** An event moves its own request down in rank, and no other at all. */
  predicate Nearer(s: State, t: State, e: Event, r: nat)
    requires r < |s.requests|
  {
    && r < |t.requests| && t.requests[r].cred == s.requests[r].cred
    && (if Mover(e) == Some(r) then Below(Rank(t.requests[r].phase), Rank(s.requests[r].phase))
        else t.requests[r] == s.requests[r])
  }

  lemma ProceedNearer(c: Config, s: State, m: nat, r: nat)
    requires r < |s.requests| && Enabled(s, Proceed(m))
    ensures Nearer(s, Advance(c, s, m), Proceed(m), r)
  {
    hide Advance, Rank;
    OnlyMoves(c, s, m);
    if r == m {
      RankDrops(c, s, r);
    }
  }

  lemma RankDrops(c: Config, s: State, r: nat)
    requires Enabled(s, Proceed(r))
    ensures Below(Rank(Advance(c, s, r).requests[r].phase), Rank(s.requests[r].phase))
  {
    hide AfterTake, AfterPut, Dead, Evicted, Hit, Conns, KeyOf;
    match s.requests[r].phase
    case Sweeping(dead, _) =>
      assert dead != [] ==> |dead[1..]| < |dead|;
    case Evicting(dead, _) =>
      assert dead != [] ==> |dead[1..]| < |dead|;
    case _ =>
  }
}
