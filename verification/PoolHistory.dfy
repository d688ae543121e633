/**
 What must lie behind a pooled request, wherever it is: the protocol read backwards. Nothing here
 mentions how a step is computed, only which events came before and what they left.
 */
module PoolHistory {
  import opened Credentials
  import opened Pool
  import opened PoolProtocol
  import opened Wrappers

  datatype Run = Run(config: Config, states: seq<State>, events: seq<Event>) {
    predicate Ok() {
      IsRun(config, states, events)
    }
  }

  /** Event `k` was `e`, and found request `r` in phase `p`. */
  predicate At(run: Run, k: int, r: nat, e: Event, p: Phase) {
    && 0 <= k < |run.events| && k + 1 < |run.states| && run.events[k] == e
    && r < |run.states[k].requests| && run.states[k].requests[r].phase == p
  }

  /** The clock was read as `now` in phase `p`. */
  ghost predicate ReadClock(run: Run, i: nat, r: nat, p: Phase, now: nat) {
    exists k :: k < i && At(run, k, r, Proceed(r), p) && run.states[k].clock == now
  }

  /** The reservoir was swept and searched, and gave `candidate`. */
  ghost predicate Searched(run: Run, i: nat, r: nat, candidate: Option<Session>) {
    exists k, now :: k < i && At(run, k, r, Proceed(r), TakeStamped(now)) && Took(run, k, r, now, candidate)
  }

  predicate Took(run: Run, k: int, r: nat, now: nat, candidate: Option<Session>) {
    && 0 <= k && k + 1 < |run.states| && r < |run.states[k].requests|
    && var idle, key := run.states[k].idle, KeyOf(run.states[k].requests[r].cred);
       && run.states[k + 1].idle == AfterTake(idle, key, now, run.config.ttl)
       && (match Hit(idle, key, now, run.config.ttl)
           case Some(e) => candidate == Some(e.conn)
           case None => candidate == None)
  }

  /** The session answered its NOOP, or failed to. */
  ghost predicate Probed(run: Run, i: nat, r: nat, x: Session, alive: bool) {
    exists k :: k < i && At(run, k, r, ProbeEnds(r, alive), Probing(x))
  }

  /** The session failed its NOOP and was closed. */
  ghost predicate Dropped(run: Run, i: nat, r: nat, x: Session) {
    && Probed(run, i, r, x, false)
    && exists k :: k < i && At(run, k, r, Proceed(r), Discarding(x)) && x in run.states[k + 1].closed
  }

  /** The session was opened by this request's own login, and belongs to its credential. */
  ghost predicate LoggedIn(run: Run, i: nat, r: nat, x: Session) {
    exists k :: k < i && At(run, k, r, LoginEnds(r, Success), Connecting) && x.id == |run.states[k].owner|
                && run.states[k + 1].owner == run.states[k].owner + [run.states[k].requests[r].cred]
  }

  /** The operation on the session ended in `outcome`. */
  ghost predicate Ended(run: Run, i: nat, r: nat, x: Session, outcome: Outcome) {
    exists k :: k < i && At(run, k, r, OperationEnds(r, outcome), Operating(x))
  }

  /** Whether a session is kept after an operation: pooling is on, and the connection was not lost. */
  predicate Kept(c: Config, outcome: Outcome) {
    c.maxIdle > 0 && outcome != Failure(HostUnreachable) && outcome != Failure(TlsFailure)
  }

  /** The session was put into the reservoir under the request's own key, at the instant it had read. */
  ghost predicate PutBack(run: Run, i: nat, r: nat, x: Session, outcome: Outcome) {
    exists k, now :: k < i && At(run, k, r, Proceed(r), GiveStamped(x, outcome, now)) && Gave(run, k, r, x, now)
  }

  predicate Gave(run: Run, k: int, r: nat, x: Session, now: nat) {
    && 0 <= k && k + 1 < |run.states| && r < |run.states[k].requests|
    && var e := Entry(KeyOf(run.states[k].requests[r].cred), x, now);
       run.states[k + 1].idle == AfterPut(run.states[k].idle, e, now, run.config.ttl, run.config.maxIdle)
  }

  /** The session was closed by this request, its operation over. */
  ghost predicate LoggedOut(run: Run, i: nat, r: nat, x: Session, outcome: Outcome) {
    exists k :: k < i && At(run, k, r, Proceed(r), LoggingOut(x, outcome)) && x in run.states[k + 1].closed
  }

  /** Whether the pool was asked as it must be before a login: not at all, in vain, or for a dead session. */
  ghost predicate MissedThePool(run: Run, i: nat, r: nat) {
    || run.config.maxIdle == 0
    || Searched(run, i, r, None)
    || exists x :: Searched(run, i, r, Some(x)) && Dropped(run, i, r, x)
  }

  /** The session is fit to work on: a warm one that has just answered its NOOP, or a fresh login after a miss. */
  ghost predicate Proven(run: Run, i: nat, r: nat, x: Session) {
    || (run.config.maxIdle > 0 && Searched(run, i, r, Some(x)) && Probed(run, i, r, x, true))
    || (MissedThePool(run, i, r) && LoggedIn(run, i, r, x))
  }

  /** The past that each phase needs. */
  ghost predicate Lawful(run: Run, i: nat, r: nat)
    requires i < |run.states| && r < |run.states[i].requests|
  {
    match run.states[i].requests[r].phase
    case Started => true
    case TakeStamped(now) => run.config.maxIdle > 0 && ReadClock(run, i, r, Started, now)
    case Sweeping(_, candidate) => run.config.maxIdle > 0 && Searched(run, i, r, candidate)
    case Probing(x) => run.config.maxIdle > 0 && Searched(run, i, r, Some(x))
    case Discarding(x) => run.config.maxIdle > 0 && Searched(run, i, r, Some(x)) && Probed(run, i, r, x, false)
    case Connecting => MissedThePool(run, i, r)
    case Operating(x) => Proven(run, i, r, x)
    case Releasing(x, outcome) => Proven(run, i, r, x) && Ended(run, i, r, x, outcome)
    case GiveStamped(x, outcome, now) =>
      && Proven(run, i, r, x) && Ended(run, i, r, x, outcome) && Kept(run.config, outcome)
      && ReadClock(run, i, r, Releasing(x, outcome), now)
    case LoggingOut(x, outcome) =>
      Proven(run, i, r, x) && Ended(run, i, r, x, outcome) && !Kept(run.config, outcome)
    case Evicting(_, outcome) => EndedInPool(run, i, r, outcome)
    case Finished(outcome) =>
      || EndedInPool(run, i, r, outcome)
      || EndedClosed(run, i, r, outcome)
      || (outcome.Failure? && NeverLoggedIn(run, i, r, outcome))
  }

  ghost predicate WorkedAndPut(run: Run, i: nat, r: nat, x: Session, outcome: Outcome) {
    && Proven(run, i, r, x) && Ended(run, i, r, x, outcome)
    && Kept(run.config, outcome) && PutBack(run, i, r, x, outcome)
  }

  ghost predicate WorkedAndClosed(run: Run, i: nat, r: nat, x: Session, outcome: Outcome) {
    && Proven(run, i, r, x) && Ended(run, i, r, x, outcome)
    && !Kept(run.config, outcome) && LoggedOut(run, i, r, x, outcome)
  }

  ghost predicate EndedInPool(run: Run, i: nat, r: nat, outcome: Outcome) {
    exists x :: WorkedAndPut(run, i, r, x, outcome)
  }

  ghost predicate EndedClosed(run: Run, i: nat, r: nat, outcome: Outcome) {
    exists x :: WorkedAndClosed(run, i, r, x, outcome)
  }

  ghost predicate NeverLoggedIn(run: Run, i: nat, r: nat, outcome: Outcome) {
    MissedThePool(run, i, r) && exists k :: k < i && At(run, k, r, LoginEnds(r, outcome), Connecting)
  }

  /** The past only grows. */
  lemma PastStays(run: Run, i: nat, r: nat, x: Session, candidate: Option<Session>, outcome: Outcome, p: Phase, now: nat, alive: bool)
    ensures ReadClock(run, i, r, p, now) ==> ReadClock(run, i + 1, r, p, now)
    ensures Searched(run, i, r, candidate) ==> Searched(run, i + 1, r, candidate)
    ensures Probed(run, i, r, x, alive) ==> Probed(run, i + 1, r, x, alive)
    ensures Dropped(run, i, r, x) ==> Dropped(run, i + 1, r, x)
    ensures LoggedIn(run, i, r, x) ==> LoggedIn(run, i + 1, r, x)
    ensures Ended(run, i, r, x, outcome) ==> Ended(run, i + 1, r, x, outcome)
    ensures PutBack(run, i, r, x, outcome) ==> PutBack(run, i + 1, r, x, outcome)
    ensures LoggedOut(run, i, r, x, outcome) ==> LoggedOut(run, i + 1, r, x, outcome)
  {
    hide At, Took, Gave;
  }

  lemma MissStays(run: Run, i: nat, r: nat)
    ensures MissedThePool(run, i, r) ==> MissedThePool(run, i + 1, r)
  {
    hide Searched, Dropped;
    PastStays(run, i, r, Session(0), None, Success, Started, 0, true);
    if x :| Searched(run, i, r, Some(x)) && Dropped(run, i, r, x) {
      PastStays(run, i, r, x, Some(x), Success, Started, 0, true);
    }
  }

  lemma ProvenStays(run: Run, i: nat, r: nat, x: Session)
    ensures Proven(run, i, r, x) ==> Proven(run, i + 1, r, x)
  {
    hide Searched, Probed, LoggedIn, MissedThePool;
    PastStays(run, i, r, x, Some(x), Success, Started, 0, true);
    MissStays(run, i, r);
  }

  lemma WorkStays(run: Run, i: nat, r: nat, x: Session, outcome: Outcome)
    ensures Proven(run, i, r, x) && Ended(run, i, r, x, outcome) ==>
              Proven(run, i + 1, r, x) && Ended(run, i + 1, r, x, outcome)
    ensures WorkedAndPut(run, i, r, x, outcome) ==> WorkedAndPut(run, i + 1, r, x, outcome)
    ensures WorkedAndClosed(run, i, r, x, outcome) ==> WorkedAndClosed(run, i + 1, r, x, outcome)
  {
    hide Proven, Ended, PutBack, LoggedOut, Kept;
    ProvenStays(run, i, r, x);
    PastStays(run, i, r, x, None, outcome, Started, 0, true);
  }

  lemma FailedLoginStays(run: Run, i: nat, r: nat, outcome: Outcome)
    ensures NeverLoggedIn(run, i, r, outcome) ==> NeverLoggedIn(run, i + 1, r, outcome)
  {
    hide MissedThePool, At;
    MissStays(run, i, r);
  }

  /** A request that does not move stays lawful. */
  lemma LawfulStays(run: Run, i: nat, r: nat)
    requires i + 1 < |run.states| && r < |run.states[i].requests| && Lawful(run, i, r)
    requires r < |run.states[i + 1].requests| && run.states[i + 1].requests[r] == run.states[i].requests[r]
    ensures Lawful(run, i + 1, r)
  {
    hide Searched, Probed, Ended, ReadClock, Proven, MissedThePool, WorkedAndPut, WorkedAndClosed, NeverLoggedIn, Kept;
    match run.states[i].requests[r].phase
    case Started =>
    case TakeStamped(now) => PastStays(run, i, r, Session(0), None, Success, Started, now, true);
    case Sweeping(_, candidate) => PastStays(run, i, r, Session(0), candidate, Success, Started, 0, true);
    case Probing(x) => PastStays(run, i, r, x, Some(x), Success, Started, 0, true);
    case Discarding(x) => PastStays(run, i, r, x, Some(x), Success, Started, 0, false);
    case Connecting => MissStays(run, i, r);
    case Operating(x) => ProvenStays(run, i, r, x);
    case Releasing(x, outcome) => WorkStays(run, i, r, x, outcome);
    case GiveStamped(x, outcome, now) =>
      WorkStays(run, i, r, x, outcome);
      PastStays(run, i, r, x, None, outcome, Releasing(x, outcome), now, true);
    case LoggingOut(x, outcome) => WorkStays(run, i, r, x, outcome);
    case Evicting(_, outcome) => FinishStays(run, i, r, outcome);
    case Finished(outcome) => FinishStays(run, i, r, outcome);
  }

  lemma FinishStays(run: Run, i: nat, r: nat, outcome: Outcome)
    ensures EndedInPool(run, i, r, outcome) ==> EndedInPool(run, i + 1, r, outcome)
    ensures EndedClosed(run, i, r, outcome) ==> EndedClosed(run, i + 1, r, outcome)
    ensures NeverLoggedIn(run, i, r, outcome) ==> NeverLoggedIn(run, i + 1, r, outcome)
  {
    hide WorkedAndPut, WorkedAndClosed, NeverLoggedIn;
    if x :| WorkedAndPut(run, i, r, x, outcome) {
      WorkStays(run, i, r, x, outcome);
    }
    if x :| WorkedAndClosed(run, i, r, x, outcome) {
      WorkStays(run, i, r, x, outcome);
    }
    FailedLoginStays(run, i, r, outcome);
  }

  // -------------------------------------------------------------------------
  // One lemma a phase, about the step out of it
  // -------------------------------------------------------------------------

  /** Request `r`, lawful in phase `p`, makes the next step of the run by event `e`. */
  ghost predicate Steps(run: Run, i: nat, r: nat, e: Event) {
    && run.Ok() && i + 1 < |run.states| && run.events[i] == e
    && r < |run.states[i].requests| && Lawful(run, i, r)
  }

  lemma StartStep(run: Run, i: nat, r: nat)
    requires Steps(run, i, r, Proceed(r)) && run.states[i].requests[r].phase == Started
    ensures Lawful(run, i + 1, r)
  {
    assert At(run, i, r, Proceed(r), Started);
  }

  lemma TakeStep(run: Run, i: nat, r: nat, now: nat)
    requires Steps(run, i, r, Proceed(r)) && run.states[i].requests[r].phase == TakeStamped(now)
    ensures Lawful(run, i + 1, r)
  {
    hide AfterTake, Hit, Dead, KeyOf, ReadClock;
    assert At(run, i, r, Proceed(r), TakeStamped(now));
    assert Took(run, i, r, now, run.states[i + 1].requests[r].phase.candidate);
  }

  lemma SweepStep(run: Run, i: nat, r: nat)
    requires Steps(run, i, r, Proceed(r)) && run.states[i].requests[r].phase.Sweeping?
    ensures Lawful(run, i + 1, r)
  {
    hide Searched, KeyOf;
    PastStays(run, i, r, Session(0), run.states[i].requests[r].phase.candidate, Success, Started, 0, true);
  }

  lemma ProbeStep(run: Run, i: nat, r: nat, alive: bool)
    requires Steps(run, i, r, ProbeEnds(r, alive)) && run.states[i].requests[r].phase.Probing?
    ensures Lawful(run, i + 1, r)
  {
    hide Searched, Advance;
    var x := run.states[i].requests[r].phase.session;
    PastStays(run, i, r, x, Some(x), Success, Started, 0, true);
    assert At(run, i, r, ProbeEnds(r, alive), Probing(x));
  }

  lemma DiscardStep(run: Run, i: nat, r: nat)
    requires Steps(run, i, r, Proceed(r)) && run.states[i].requests[r].phase.Discarding?
    ensures Lawful(run, i + 1, r)
  {
    hide Searched, Probed, KeyOf;
    var x := run.states[i].requests[r].phase.session;
    PastStays(run, i, r, x, Some(x), Success, Started, 0, false);
    assert At(run, i, r, Proceed(r), Discarding(x));
    assert Dropped(run, i + 1, r, x);
  }

  lemma LoginStep(run: Run, i: nat, r: nat, outcome: Outcome)
    requires Steps(run, i, r, LoginEnds(r, outcome)) && run.states[i].requests[r].phase.Connecting?
    ensures Lawful(run, i + 1, r)
  {
    hide MissedThePool, Advance;
    MissStays(run, i, r);
    assert At(run, i, r, LoginEnds(r, outcome), Connecting);
    if outcome.Success? {
      assert LoggedIn(run, i + 1, r, run.states[i + 1].requests[r].phase.session);
    } else {
      assert NeverLoggedIn(run, i + 1, r, outcome);
    }
  }

  lemma OperateStep(run: Run, i: nat, r: nat, outcome: Outcome)
    requires Steps(run, i, r, OperationEnds(r, outcome)) && run.states[i].requests[r].phase.Operating?
    ensures Lawful(run, i + 1, r)
  {
    hide Proven, Advance;
    var x := run.states[i].requests[r].phase.session;
    ProvenStays(run, i, r, x);
    assert At(run, i, r, OperationEnds(r, outcome), Operating(x));
  }

  lemma ReleaseStep(run: Run, i: nat, r: nat)
    requires Steps(run, i, r, Proceed(r)) && run.states[i].requests[r].phase.Releasing?
    ensures Lawful(run, i + 1, r)
  {
    hide Proven, Ended, KeyOf;
    var p := run.states[i].requests[r].phase;
    WorkStays(run, i, r, p.session, p.outcome);
    assert At(run, i, r, Proceed(r), p);
  }

  lemma GiveStep(run: Run, i: nat, r: nat)
    requires Steps(run, i, r, Proceed(r)) && run.states[i].requests[r].phase.GiveStamped?
    ensures Lawful(run, i + 1, r)
  {
    hide Proven, Ended, KeyOf, ReadClock, AfterPut, Evicted, Kept;
    var p := run.states[i].requests[r].phase;
    WorkStays(run, i, r, p.session, p.outcome);
    assert At(run, i, r, Proceed(r), p);
    assert Gave(run, i, r, p.session, p.now);
    assert WorkedAndPut(run, i + 1, r, p.session, p.outcome);
  }

  lemma LogoutStep(run: Run, i: nat, r: nat)
    requires Steps(run, i, r, Proceed(r)) && run.states[i].requests[r].phase.LoggingOut?
    ensures Lawful(run, i + 1, r)
  {
    hide Proven, Ended, KeyOf, Kept;
    var p := run.states[i].requests[r].phase;
    WorkStays(run, i, r, p.session, p.outcome);
    assert At(run, i, r, Proceed(r), p);
    assert WorkedAndClosed(run, i + 1, r, p.session, p.outcome);
  }

  lemma EvictStep(run: Run, i: nat, r: nat)
    requires Steps(run, i, r, Proceed(r)) && run.states[i].requests[r].phase.Evicting?
    ensures Lawful(run, i + 1, r)
  {
    hide WorkedAndPut, WorkedAndClosed, NeverLoggedIn, KeyOf;
    FinishStays(run, i, r, run.states[i].requests[r].phase.outcome);
  }

  lemma MoveStaysLawful(run: Run, i: nat, r: nat)
    requires i < |run.events| && Steps(run, i, r, run.events[i]) && Mover(run.events[i]) == Some(r)
    ensures Lawful(run, i + 1, r)
  {
    hide Lawful, Next, Advance;
    assert Enabled(run.states[i], run.events[i]);
    match run.events[i]
    case ProbeEnds(_, alive) => ProbeStep(run, i, r, alive);
    case LoginEnds(_, outcome) => LoginStep(run, i, r, outcome);
    case OperationEnds(_, outcome) => OperateStep(run, i, r, outcome);
    case Proceed(_) =>
      match run.states[i].requests[r].phase
      case Started => StartStep(run, i, r);
      case TakeStamped(now) => TakeStep(run, i, r, now);
      case Sweeping(_, _) => SweepStep(run, i, r);
      case Discarding(_) => DiscardStep(run, i, r);
      case Releasing(_, _) => ReleaseStep(run, i, r);
      case GiveStamped(_, _, _) => GiveStep(run, i, r);
      case LoggingOut(_, _) => LogoutStep(run, i, r);
      case Evicting(_, _) => EvictStep(run, i, r);
  }

  /**
   In every run every request has the past its phase needs. In particular it works on a session only
   once that session has answered its NOOP or been opened by its own login, and logs in only after the
   pool was asked in vain; a session whose operation did not lose the connection goes back into the
   pool, any other is closed; and it finishes as its operation, or its failed login, ended.
   */
  lemma {:induction false} EveryPhaseHasItsPast(run: Run, i: nat, r: nat)
    requires run.Ok() && i < |run.states| && r < |run.states[i].requests|
    ensures Lawful(run, i, r)
  {
    hide Lawful, Next;
    if i > 0 {
      var s, e := run.states[i - 1], run.events[i - 1];
      assert Enabled(s, e) && run.states[i] == Next(run.config, s, e);
      if r < |s.requests| {
        EveryPhaseHasItsPast(run, i - 1, r);
        AlwaysNearer(run.config, s, e, r);
        if Mover(e) == Some(r) {
          MoveStaysLawful(run, i - 1, r);
        } else {
          LawfulStays(run, i - 1, r);
        }
      } else {
        NewcomerIsLawful(run, i - 1, r);
      }
    }
  }

  lemma NewcomerIsLawful(run: Run, i: nat, r: nat)
    requires run.Ok() && i + 1 < |run.states| && |run.states[i].requests| <= r < |run.states[i + 1].requests|
    ensures Lawful(run, i + 1, r)
  {
    hide Advance;
    var s, e := run.states[i], run.events[i];
    assert Enabled(s, e) && run.states[i + 1] == Next(run.config, s, e);
    if e.Proceed? {
      OnlyMoves(run.config, s, e.r);
    }
  }
}
