/**
 Any number of `resolve` calls over one cache, as a step system. The environment picks the
 interleaving, the clock and the network each ladder sees. Each step is what runs between two
 suspension points or under one hold of the lock.
 */
module ResolveProtocol {
  import opened Wrappers
  import opened Autoconfig
  import opened AutoconfigCache

  /** A ladder that was walked to its end, by which call, and when its result was stamped. */
  datatype Ladder = Ladder(caller: nat, domain: string, email: Option<string>, net: Network, stamped: nat) {
    ghost function Value(): Option<MailServers> {
      Memo(LadderResult(net, domain, email))
    }
  }

  datatype Phase =
    | Arrived
    | Missed
    | Walked(net: Network)
    | Stamped(entry: CacheEntry)
    | Answered(answer: Answer, looked: nat)

  datatype Call = Call(raw: string, email: Option<string>, phase: Phase, asked: seq<Query>)

  /** `ladders` is history only: no step consults it. */
  datatype State = State(clock: nat, entries: map<string, CacheEntry>, calls: seq<Call>, ladders: seq<Ladder>)

  const Init := State(0, map[], [], [])

  datatype Event =
    | Tick(elapsed: nat)
    | Arrive(raw: string, email: Option<string>)
    | Consult(c: nat)
    | Walk(c: nat, net: Network, asked: seq<Query>)
    | TakeStamp(c: nat)
    | Insert(c: nat)

  ghost predicate Enabled(s: State, e: Event) {
    match e
    case Tick(_) => true
    case Arrive(_, _) => true
    case Consult(c) => c < |s.calls| && s.calls[c].phase.Arrived?
    case Walk(c, net, asked) =>
      && c < |s.calls| && s.calls[c].phase.Missed?
      && Autoconfig.Walked(net, Normalise(s.calls[c].raw), s.calls[c].email, asked)
    case TakeStamp(c) => c < |s.calls| && s.calls[c].phase.Walked?
    case Insert(c) => c < |s.calls| && s.calls[c].phase.Stamped?
  }

  function Goto(s: State, c: nat, phase: Phase): State
    requires c < |s.calls|
  {
    s.(calls := s.calls[c := s.calls[c].(phase := phase)])
  }

  ghost function Next(cfg: Settings, s: State, e: Event): State
    requires Enabled(s, e)
  {
    match e
    case Tick(elapsed) => s.(clock := s.clock + elapsed)
    case Arrive(raw, email) => s.(calls := s.calls + [Call(raw, email, Arrived, [])])
    case Consult(c) =>
      var d := Normalise(s.calls[c].raw);
      if !IsPublicDomain(d) then Goto(s, c, Answered(Err(NotPublic(d)), s.clock))
      else (match Lookup(s.entries, d, s.clock)
        case Some(value) => Goto(s, c, Answered(AnswerOf(value, d), s.clock))
        case None => Goto(s, c, Missed))
    case Walk(c, net, asked) =>
      s.(calls := s.calls[c := s.calls[c].(phase := Phase.Walked(net), asked := asked)])
    case TakeStamp(c) =>
      var d, email := Normalise(s.calls[c].raw), s.calls[c].email;
      var l := Ladder(c, d, email, s.calls[c].phase.net, s.clock);
      Goto(s, c, Stamped(Stamp(cfg, l.Value(), s.clock))).(ladders := s.ladders + [l])
    case Insert(c) =>
      var d, entry := Normalise(s.calls[c].raw), s.calls[c].phase.entry;
      Goto(s.(entries := s.entries[d := entry]), c, Answered(AnswerOf(entry.value, d), s.clock))
  }

  // -------------------------------------------------------------------------
  // What every step keeps
  // -------------------------------------------------------------------------

  /** Ladder `k` was walked for `d`, and `entry` is its stamped result. */
  ghost predicate Made(cfg: Settings, s: State, k: int, d: string, entry: CacheEntry) {
    && 0 <= k < |s.ladders| && s.ladders[k].domain == d
    && entry == Stamp(cfg, s.ladders[k].Value(), s.ladders[k].stamped)
  }

  /** Ladder `k` was walked by call `c`. */
  ghost predicate MadeBy(cfg: Settings, s: State, k: int, c: nat, entry: CacheEntry) {
    && c < |s.calls| && Made(cfg, s, k, Normalise(s.calls[c].raw), entry)
    && s.ladders[k].caller == c && s.ladders[k].email == s.calls[c].email
  }

  /**
   Call `c` answers what ladder `k` found for the same domain: its own walk, or one stamped less than
   its lifetime before `c` consulted the cache. Only its own walk asks the network anything.
   */
  ghost predicate Explains(cfg: Settings, s: State, k: int, c: nat)
    requires c < |s.calls| && s.calls[c].phase.Answered?
  {
    var call := s.calls[c];
    var d := Normalise(call.raw);
    && 0 <= k < |s.ladders| && s.ladders[k].domain == d
    && call.phase.answer == AnswerOf(s.ladders[k].Value(), d)
    && var l := s.ladders[k];
      || (l.caller == c && l.email == call.email && Autoconfig.Walked(l.net, d, call.email, call.asked))
      || (call.asked == [] && l.stamped <= call.phase.looked < l.stamped + Ttl(cfg, l.Value()))
  }

  ghost predicate Justified(cfg: Settings, s: State, c: nat)
    requires c < |s.calls| && s.calls[c].phase.Answered?
  {
    var d := Normalise(s.calls[c].raw);
    if !IsPublicDomain(d) then s.calls[c].phase.answer == Err(NotPublic(d)) && s.calls[c].asked == []
    else exists k :: Explains(cfg, s, k, c)
  }

  ghost predicate CallOk(cfg: Settings, s: State, c: nat)
    requires c < |s.calls|
  {
    var call := s.calls[c];
    var d := Normalise(call.raw);
    match call.phase
    case Arrived => call.asked == []
    case Missed => IsPublicDomain(d) && call.asked == []
    case Walked(net) => IsPublicDomain(d) && Autoconfig.Walked(net, d, call.email, call.asked)
    case Stamped(entry) =>
      && IsPublicDomain(d)
      && exists k :: MadeBy(cfg, s, k, c, entry) && Autoconfig.Walked(s.ladders[k].net, d, call.email, call.asked)
    case Answered(_, _) => Justified(cfg, s, c)
  }

  ghost predicate EntryOk(cfg: Settings, s: State, d: string)
    requires d in s.entries
  {
    IsPublicDomain(d) && exists k :: Made(cfg, s, k, d, s.entries[d])
  }

  ghost predicate LadderOk(s: State, k: nat)
    requires k < |s.ladders|
  {
    var l := s.ladders[k];
    && l.stamped <= s.clock && l.caller < |s.calls|
    && l.domain == Normalise(s.calls[l.caller].raw) && l.email == s.calls[l.caller].email
  }

  ghost predicate Inv(cfg: Settings, s: State) {
    && (forall d :: d in s.entries ==> EntryOk(cfg, s, d))
    && (forall k: nat :: k < |s.ladders| ==> LadderOk(s, k))
    && (forall c: nat :: c < |s.calls| ==> CallOk(cfg, s, c))
  }

  /** A step only adds to the history, and changes no call's question. */
  ghost predicate Extends(s: State, t: State) {
    && s.ladders <= t.ladders && s.clock <= t.clock && |s.calls| <= |t.calls|
    && forall c: nat :: c < |s.calls| ==> t.calls[c].raw == s.calls[c].raw && t.calls[c].email == s.calls[c].email
  }

  lemma StepExtends(cfg: Settings, s: State, e: Event)
    requires Enabled(s, e)
    ensures Extends(s, Next(cfg, s, e))
  {
    hide Normalise, IsPublicDomain, Autoconfig.Walked, LadderResult, Lookup;
  }

  lemma MadeStays(cfg: Settings, s: State, t: State, k: int, d: string, entry: CacheEntry)
    requires Extends(s, t) && Made(cfg, s, k, d, entry)
    ensures Made(cfg, t, k, d, entry)
  {
    hide LadderResult;
    assert t.ladders[k] == s.ladders[k];
  }

  lemma JustifiedStays(cfg: Settings, s: State, t: State, c: nat)
    requires Extends(s, t) && c < |s.calls| && t.calls[c] == s.calls[c]
    requires s.calls[c].phase.Answered? && Justified(cfg, s, c)
    ensures Justified(cfg, t, c)
  {
    hide Normalise, IsPublicDomain, Autoconfig.Walked, LadderResult;
    if k :| Explains(cfg, s, k, c) {
      assert t.ladders[k] == s.ladders[k];
      assert Explains(cfg, t, k, c);
    }
  }

  lemma CallStays(cfg: Settings, s: State, t: State, c: nat)
    requires Extends(s, t) && c < |s.calls| && t.calls[c] == s.calls[c]
    ensures CallOk(cfg, s, c) ==> CallOk(cfg, t, c)
  {
    hide Normalise, IsPublicDomain, Autoconfig.Walked, LadderResult, Justified;
    if CallOk(cfg, s, c) {
      match s.calls[c].phase
      case Stamped(entry) =>
        var d := Normalise(s.calls[c].raw);
        var k :| MadeBy(cfg, s, k, c, entry) && Autoconfig.Walked(s.ladders[k].net, d, s.calls[c].email, s.calls[c].asked);
        assert t.ladders[k] == s.ladders[k];
        assert MadeBy(cfg, t, k, c, entry);
      case Answered(_, _) => JustifiedStays(cfg, s, t, c);
      case _ =>
    }
  }

  // One lemma an event, about the call it moves.

  lemma ConsultOk(cfg: Settings, s: State, c: nat)
    requires Inv(cfg, s) && Enabled(s, Consult(c))
    ensures CallOk(cfg, Next(cfg, s, Consult(c)), c)
  {
    hide Normalise, IsPublicDomain, Autoconfig.Walked, LadderResult;
    var t := Next(cfg, s, Consult(c));
    var d := Normalise(s.calls[c].raw);
    assert CallOk(cfg, s, c);
    if IsPublicDomain(d) && Lookup(s.entries, d, s.clock).Some? {
      assert EntryOk(cfg, s, d);
      var k :| Made(cfg, s, k, d, s.entries[d]);
      assert LadderOk(s, k);
      assert Explains(cfg, t, k, c);
    }
  }

  lemma WalkOk(cfg: Settings, s: State, c: nat, net: Network, asked: seq<Query>)
    requires Inv(cfg, s) && Enabled(s, Walk(c, net, asked))
    ensures CallOk(cfg, Next(cfg, s, Walk(c, net, asked)), c)
  {
    hide Normalise, IsPublicDomain, Autoconfig.Walked, LadderResult;
    assert CallOk(cfg, s, c);
  }

  lemma TakeStampOk(cfg: Settings, s: State, c: nat)
    requires Inv(cfg, s) && Enabled(s, TakeStamp(c))
    ensures CallOk(cfg, Next(cfg, s, TakeStamp(c)), c)
  {
    hide Normalise, IsPublicDomain, Autoconfig.Walked, LadderResult;
    var t := Next(cfg, s, TakeStamp(c));
    assert CallOk(cfg, s, c);
    assert MadeBy(cfg, t, |s.ladders|, c, t.calls[c].phase.entry);
  }

  lemma InsertOk(cfg: Settings, s: State, c: nat)
    requires Inv(cfg, s) && Enabled(s, Insert(c))
    ensures CallOk(cfg, Next(cfg, s, Insert(c)), c)
    ensures EntryOk(cfg, Next(cfg, s, Insert(c)), Normalise(s.calls[c].raw))
  {
    hide Normalise, IsPublicDomain, Autoconfig.Walked, LadderResult;
    var t := Next(cfg, s, Insert(c));
    var d, entry := Normalise(s.calls[c].raw), s.calls[c].phase.entry;
    assert CallOk(cfg, s, c);
    var k :| MadeBy(cfg, s, k, c, entry) && Autoconfig.Walked(s.ladders[k].net, d, s.calls[c].email, s.calls[c].asked);
    assert Explains(cfg, t, k, c);
    assert Made(cfg, t, k, d, t.entries[d]);
  }

  lemma ArriveOk(cfg: Settings, s: State, e: Event)
    requires Enabled(s, e) && e.Arrive?
    ensures CallOk(cfg, Next(cfg, s, e), |s.calls|)
  {
    hide Normalise, IsPublicDomain, Autoconfig.Walked, LadderResult;
  }

  /** The call an event moves. */
  predicate Moves(e: Event, c: nat) {
    match e
    case Tick(_) => false
    case Arrive(_, _) => false
    case Consult(m) => m == c
    case Walk(m, _, _) => m == c
    case TakeStamp(m) => m == c
    case Insert(m) => m == c
  }

  lemma StepKeepsCall(cfg: Settings, s: State, e: Event, c: nat)
    requires Inv(cfg, s) && Enabled(s, e) && c < |Next(cfg, s, e).calls|
    ensures CallOk(cfg, Next(cfg, s, e), c)
  {
    hide Normalise, IsPublicDomain, Autoconfig.Walked, LadderResult, CallOk, EntryOk, LadderOk, Lookup;
    var t := Next(cfg, s, e);
    StepExtends(cfg, s, e);
    if Moves(e, c) {
      match e
      case Consult(_) => ConsultOk(cfg, s, c);
      case Walk(_, net, asked) => WalkOk(cfg, s, c, net, asked);
      case TakeStamp(_) => TakeStampOk(cfg, s, c);
      case Insert(_) => InsertOk(cfg, s, c);
    } else if c == |s.calls| {
      ArriveOk(cfg, s, e);
    } else if c < |s.calls| {
      assert t.calls[c] == s.calls[c];
      CallStays(cfg, s, t, c);
    }
  }

  lemma StepKeepsEntry(cfg: Settings, s: State, e: Event, d: string)
    requires Inv(cfg, s) && Enabled(s, e) && d in Next(cfg, s, e).entries
    ensures EntryOk(cfg, Next(cfg, s, e), d)
  {
    hide Normalise, IsPublicDomain, Autoconfig.Walked, LadderResult, CallOk, LadderOk;
    var t := Next(cfg, s, e);
    StepExtends(cfg, s, e);
    if e.Insert? && d == Normalise(s.calls[e.c].raw) {
      InsertOk(cfg, s, e.c);
    } else {
      assert EntryOk(cfg, s, d) && t.entries[d] == s.entries[d];
      var k :| Made(cfg, s, k, d, s.entries[d]);
      MadeStays(cfg, s, t, k, d, s.entries[d]);
    }
  }

  lemma StepKeepsLadder(cfg: Settings, s: State, e: Event, k: nat)
    requires Inv(cfg, s) && Enabled(s, e) && k < |Next(cfg, s, e).ladders|
    ensures LadderOk(Next(cfg, s, e), k)
  {
    hide Normalise, IsPublicDomain, Autoconfig.Walked, LadderResult, CallOk, EntryOk;
    var t := Next(cfg, s, e);
    StepExtends(cfg, s, e);
    if k < |s.ladders| {
      assert LadderOk(s, k) && t.ladders[k] == s.ladders[k];
    }
  }

  lemma StepKeepsInv(cfg: Settings, s: State, e: Event)
    requires Inv(cfg, s) && Enabled(s, e)
    ensures Inv(cfg, Next(cfg, s, e))
  {
    hide Next, Normalise, IsPublicDomain, Autoconfig.Walked, LadderResult, CallOk, EntryOk, LadderOk;
    var t := Next(cfg, s, e);
    forall d | d in t.entries ensures EntryOk(cfg, t, d) {
      StepKeepsEntry(cfg, s, e, d);
    }
    forall k: nat | k < |t.ladders| ensures LadderOk(t, k) {
      StepKeepsLadder(cfg, s, e, k);
    }
    forall c: nat | c < |t.calls| ensures CallOk(cfg, t, c) {
      StepKeepsCall(cfg, s, e, c);
    }
  }

  // -------------------------------------------------------------------------
  // Progress
  // -------------------------------------------------------------------------

  /** How many steps a call has left at most. */
  function Rank(p: Phase): nat {
    match p
    case Arrived => 4
    case Missed => 3
    case Walked(_) => 2
    case Stamped(_) => 1
    case Answered(_, _) => 0
  }

  /** The events that can move a call on; `asked` is a walk it could make. */
  ghost predicate CanMove(s: State, c: nat, net: Network, asked: seq<Query>) {
    Enabled(s, Consult(c)) || Enabled(s, Walk(c, net, asked)) || Enabled(s, TakeStamp(c)) || Enabled(s, Insert(c))
  }

  /**
   No call is ever stuck, whatever network its ladder meets; each of its steps lowers its rank, and a
   step of another call, an arrival or the clock leaves it as it is. So a call ends within four steps.
   */
  lemma AlwaysNearer(cfg: Settings, s: State, e: Event, c: nat, net: Network)
    requires c < |s.calls|
    ensures !s.calls[c].phase.Answered? ==> exists asked :: CanMove(s, c, net, asked)
    ensures Enabled(s, e) ==>
              var t := Next(cfg, s, e);
              && c < |t.calls| && t.calls[c].raw == s.calls[c].raw && t.calls[c].email == s.calls[c].email
              && (if Moves(e, c) then Rank(t.calls[c].phase) < Rank(s.calls[c].phase) else t.calls[c] == s.calls[c])
  {
    hide Normalise, IsPublicDomain, Autoconfig.Walked, LadderResult, Lookup;
    var d, email := Normalise(s.calls[c].raw), s.calls[c].email;
    var asked := SomeWalk(net, d, email);
    assert !s.calls[c].phase.Answered? ==> CanMove(s, c, net, asked);
  }

  // -------------------------------------------------------------------------
  // Over every run
  // -------------------------------------------------------------------------

  ghost predicate IsRun(cfg: Settings, states: seq<State>, events: seq<Event>) {
    && |states| == |events| + 1 && states[0] == Init
    && forall i :: 0 <= i < |events| ==> Enabled(states[i], events[i]) && states[i + 1] == Next(cfg, states[i], events[i])
  }

  lemma {:induction false} RunKeepsInv(cfg: Settings, states: seq<State>, events: seq<Event>, i: nat)
    requires IsRun(cfg, states, events) && i < |states|
    ensures Inv(cfg, states[i])
  {
    if i > 0 {
      RunKeepsInv(cfg, states, events, i - 1);
      StepKeepsInv(cfg, states[i - 1], events[i - 1]);
    }
  }

  /**
   Every answer for a public domain is a ladder result for that domain, walked for some call that
   asked about it: this call itself, or one stamped less than the matching lifetime before this
   call consulted the cache. An answer from the cache asked the network nothing.
   */
  lemma AnswersAreLadderResults(cfg: Settings, states: seq<State>, events: seq<Event>, i: nat, c: nat)
    requires IsRun(cfg, states, events) && i < |states|
    requires c < |states[i].calls| && states[i].calls[c].phase.Answered?
    ensures var s, call := states[i], states[i].calls[c];
            var d := Normalise(call.raw);
            if !IsPublicDomain(d) then call.phase.answer == Err(NotPublic(d)) && call.asked == []
            else exists k: nat ::
              && k < |s.ladders| && Explains(cfg, s, k, c)
              && s.ladders[k].caller < |s.calls| && Normalise(s.calls[s.ladders[k].caller].raw) == d
              && s.calls[s.ladders[k].caller].email == s.ladders[k].email
  {
    hide Normalise, IsPublicDomain, Autoconfig.Walked, LadderResult, EntryOk;
    RunKeepsInv(cfg, states, events, i);
    var s := states[i];
    assert CallOk(cfg, s, c);
    if k :| Explains(cfg, s, k, c) {
      assert LadderOk(s, k);
    }
  }

  /** The cache holds public domains in their one spelling, and never an empty success. */
  lemma CacheIsTidy(cfg: Settings, states: seq<State>, events: seq<Event>, i: nat, d: string)
    requires IsRun(cfg, states, events) && i < |states| && d in states[i].entries
    ensures IsPublicDomain(d) && Normalise(d) == d
    ensures states[i].entries[d].value.Some? ==> !states[i].entries[d].value.value.IsEmpty()
    ensures states[i].entries[d].expires <= states[i].clock + Ttl(cfg, states[i].entries[d].value)
  {
    hide Normalise, IsPublicDomain, Autoconfig.Walked, LadderResult, CallOk;
    RunKeepsInv(cfg, states, events, i);
    var s := states[i];
    assert EntryOk(cfg, s, d);
    var k :| Made(cfg, s, k, d, s.entries[d]);
    assert LadderOk(s, k);
    CacheKeysAreFixed(s.calls[s.ladders[k].caller].raw);
  }

  /** Only an insertion changes the cache, in one entry: the call's own ladder result, as it was stamped. */
  lemma OnlyLaddersFillTheCache(cfg: Settings, states: seq<State>, events: seq<Event>, i: nat)
    requires IsRun(cfg, states, events) && i < |events|
    ensures !events[i].Insert? ==> states[i + 1].entries == states[i].entries
    ensures events[i].Insert? ==>
              var s, c := states[i], events[i].c;
              var d := Normalise(s.calls[c].raw);
              exists k :: 0 <= k < |s.ladders| && s.ladders[k].caller == c && s.ladders[k].domain == d &&
                var found := LadderResult(s.ladders[k].net, d, s.ladders[k].email);
                states[i + 1].entries == s.entries[d :=
                  if found.imapTarget.None? && found.smtpTarget.None?
                  then CacheEntry(s.ladders[k].stamped + cfg.negativeTtl, None)
                  else CacheEntry(s.ladders[k].stamped + cfg.positiveTtl, Some(found))]
  {
    hide Normalise, IsPublicDomain, Autoconfig.Walked, LadderResult, EntryOk, LadderOk, Lookup;
    RunKeepsInv(cfg, states, events, i);
    var s, e := states[i], events[i];
    assert Enabled(s, e) && states[i + 1] == Next(cfg, s, e);
    if e.Insert? {
      assert CallOk(cfg, s, e.c);
      var d, entry := Normalise(s.calls[e.c].raw), s.calls[e.c].phase.entry;
      var k :| MadeBy(cfg, s, k, e.c, entry)
        && Autoconfig.Walked(s.ladders[k].net, d, s.calls[e.c].email, s.calls[e.c].asked);
      RememberedAsFound(cfg, LadderResult(s.ladders[k].net, d, s.ladders[k].email), d, s.ladders[k].stamped);
    }
  }

  /** A ladder is stamped with the clock as it is then, once, when its result is in. */
  lemma StampsReadTheClock(cfg: Settings, s: State, e: Event)
    requires Enabled(s, e)
    ensures Next(cfg, s, e).ladders ==
              if e.TakeStamp? then
                s.ladders + [Ladder(e.c, Normalise(s.calls[e.c].raw), s.calls[e.c].email, s.calls[e.c].phase.net, s.clock)]
              else s.ladders
  {
    hide Normalise, IsPublicDomain, Autoconfig.Walked, LadderResult, Lookup;
  }

  /** While an entry lives, every call that consults the cache is answered from it at once. */
  lemma LiveEntryAnswers(cfg: Settings, states: seq<State>, events: seq<Event>, i: nat, c: nat)
    requires IsRun(cfg, states, events) && i < |events| && events[i] == Consult(c)
    ensures var s, t := states[i], states[i + 1];
            var d := Normalise(s.calls[c].raw);
            d in s.entries && s.entries[d].expires > s.clock ==>
              && t.calls[c].phase == Answered(AnswerOf(s.entries[d].value, d), s.clock)
              && t.calls[c].asked == []
  {
    hide Normalise, Autoconfig.Walked, LadderResult;
    var s := states[i];
    RunKeepsInv(cfg, states, events, i);
    var d := Normalise(s.calls[c].raw);
    assert CallOk(cfg, s, c);
    assert d in s.entries ==> EntryOk(cfg, s, d);
  }
}
