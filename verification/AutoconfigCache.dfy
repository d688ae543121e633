/**
 `resolve`: the ladder behind a cache whose entries expire. First one call by itself, then any
 number of calls interleaved over one cache. An entry's expiry is computed before the cache is
 locked, so entries may be inserted out of the order in which they were stamped.
 */
module AutoconfigCache {
  import opened Wrappers
  import opened Text
  import opened Autoconfig
  import Utf8

  datatype Settings = Settings(positiveTtl: nat, negativeTtl: nat)

  /** `value` is `None` for a domain known to have no configuration. */
  datatype CacheEntry = CacheEntry(expires: nat, value: Option<MailServers>)

  datatype ResolveError = NotPublic(domain: string) | NothingFound(domain: string)

  type Answer = Result<MailServers, ResolveError>

  /** What a lookup at `now` finds; expired entries are as good as absent. */
  function Lookup(entries: map<string, CacheEntry>, domain: string, now: nat): Option<Option<MailServers>> {
    if domain in entries && entries[domain].expires > now then Some(entries[domain].value) else None
  }

  /** What is worth remembering of a ladder result. */
  function Memo(found: MailServers): Option<MailServers> {
    if found.IsEmpty() then None else Some(found)
  }

  function Ttl(settings: Settings, value: Option<MailServers>): nat {
    if value.Some? then settings.positiveTtl else settings.negativeTtl
  }

  function Stamp(settings: Settings, value: Option<MailServers>, now: nat): CacheEntry {
    CacheEntry(now + Ttl(settings, value), value)
  }

  function AnswerOf(value: Option<MailServers>, domain: string): Answer {
    match value
    case Some(found) => Ok(found)
    case None => Err(NothingFound(domain))
  }

  // -------------------------------------------------------------------------
  // One call by itself
  // -------------------------------------------------------------------------

  class Cache {
    var entries: map<string, CacheEntry>

    constructor ()
      ensures entries == map[]
    {
      entries := map[];
    }

    method Get(domain: string, now: nat) returns (hit: Option<Option<MailServers>>)
      ensures hit == Lookup(entries, domain, now)
    {
      if domain !in entries {
        return None;
      }
      var entry := entries[domain];
      hit := if entry.expires > now then Some(entry.value) else None;
    }

    method Put(settings: Settings, domain: string, value: Option<MailServers>, now: nat)
      modifies this
      ensures entries == old(entries)[domain := Stamp(settings, value, now)]
    {
      var ttl := if value.Some? then settings.positiveTtl else settings.negativeTtl;
      entries := entries[domain := CacheEntry(now + ttl, value)];
    }

    /** `looked` and `stamped` are the two readings of the clock. */
    method Resolve(net: Network, settings: Settings, raw: string, email: Option<string>, looked: nat, stamped: nat)
      returns (answer: Answer, asked: seq<Query>)
      modifies this
      ensures var d := Normalise(raw); !IsPublicDomain(d) ==>
                answer == Err(NotPublic(d)) && asked == [] && entries == old(entries)
      ensures var d := Normalise(raw);
              IsPublicDomain(d) && Lookup(old(entries), d, looked).Some? ==>
                && answer == AnswerOf(Lookup(old(entries), d, looked).value, d)
                && asked == [] && entries == old(entries)
      ensures var d := Normalise(raw);
              IsPublicDomain(d) && Lookup(old(entries), d, looked).None? ==>
                var value := Memo(LadderResult(net, d, email));
                && answer == AnswerOf(value, d) && Walked(net, d, email, asked)
                && entries == old(entries)[d := Stamp(settings, value, stamped)]
    {
      hide Normalise, IsPublicDomain, LadderResult, Walked;
      var domain := Normalise(raw);
      asked := [];
      if !IsPublicDomain(domain) {
        return Err(NotPublic(domain)), asked;
      }
      var hit := Get(domain, looked);
      if hit.Some? {
        return AnswerOf(hit.value, domain), asked;
      }
      var resolved;
      resolved, asked := RunLadder(net, domain, email);
      var value := if resolved.IsEmpty() then None else Some(resolved);
      Put(settings, domain, value, stamped);
      answer := AnswerOf(value, domain);
    }
  }

  // -------------------------------------------------------------------------
  // What a lookup finds
  // -------------------------------------------------------------------------

  /** A value put under a domain at an instant. */
  datatype Record = Record(domain: string, value: Option<MailServers>, at: nat)

  /** The cache that a history of puts leaves. */
  function Replay(settings: Settings, puts: seq<Record>): map<string, CacheEntry> {
    if puts == [] then map[]
    else
      var last := puts[|puts| - 1];
      Replay(settings, puts[..|puts| - 1])[last.domain := Stamp(settings, last.value, last.at)]
  }

  /** Put `k` is the last one under `domain`. */
  predicate IsLastPut(puts: seq<Record>, domain: string, k: int) {
    0 <= k < |puts| && puts[k].domain == domain && forall j :: k < j < |puts| ==> puts[j].domain != domain
  }

  /**
   A lookup finds the value last put under its own domain, as long as that value's lifetime has not
   run out since it was stamped, and nothing otherwise, whatever was put under other domains.
   */
  lemma {:induction false} GetFindsTheLastPut(settings: Settings, puts: seq<Record>, domain: string, now: nat)
    ensures var hit := Lookup(Replay(settings, puts), domain, now);
            if exists k :: IsLastPut(puts, domain, k) then
              forall k :: IsLastPut(puts, domain, k) ==>
                hit == if now < puts[k].at + Ttl(settings, puts[k].value) then Some(puts[k].value) else None
            else hit.None? && forall k :: 0 <= k < |puts| ==> puts[k].domain != domain
  {
    hide Ttl;
    if puts != [] {
      var n := |puts| - 1;
      if puts[n].domain == domain {
        assert IsLastPut(puts, domain, n);
      } else {
        var front := puts[..n];
        GetFindsTheLastPut(settings, front, domain, now);
        assert forall k :: 0 <= k < n ==> front[k] == puts[k];
        assert forall k :: IsLastPut(puts, domain, k) <==> IsLastPut(front, domain, k);
      }
    }
  }

  /** What is stored and answered for each ladder result: only one with neither side is a failure, and for the shorter time. */
  lemma RememberedAsFound(settings: Settings, found: MailServers, domain: string, at: nat)
    ensures found.imapTarget.None? && found.smtpTarget.None? ==>
              && Stamp(settings, Memo(found), at) == CacheEntry(at + settings.negativeTtl, None)
              && AnswerOf(Memo(found), domain) == Err(NothingFound(domain))
    ensures found.imapTarget.Some? || found.smtpTarget.Some? ==>
              && Stamp(settings, Memo(found), at) == CacheEntry(at + settings.positiveTtl, Some(found))
              && AnswerOf(Memo(found), domain) == Ok(found)
  {
  }

  // -------------------------------------------------------------------------
  // Cache keys
  // -------------------------------------------------------------------------

  /** A domain as it may be written: white space outside, dots after. */
  predicate Written(raw: string, before: string, core: string, dots: string, after: string) {
    && raw == before + (core + dots) + after
    && AllWhitespace(before) && AllWhitespace(after) && AllDots(dots)
    && core != [] && Trimmed(core) && core[|core| - 1] != '.'
  }

  /** Normalising leaves the core, its ASCII letters in lower case. */
  lemma NormaliseExactly(raw: string, before: string, core: string, dots: string, after: string)
    requires Written(raw, before, core, dots, after)
    ensures var d := Normalise(raw);
            && |d| == |core|
            && forall i :: 0 <= i < |d| ==>
                 d[i] == if 'A' <= core[i] <= 'Z' then (core[i] as int + ('a' as int - 'A' as int)) as char else core[i]
  {
    assert Trimmed(core + dots) by {
      assert dots != [] ==> (core + dots)[|core + dots| - 1] == '.';
    }
    TrimCore(before, core + dots, after);
    TrimDotsCore(core, dots);
  }

  /** The same domain, whatever the case of its letters and whatever is written around it. */
  ghost predicate SameDomain(a: string, b: string) {
    exists beforeA, coreA, dotsA, afterA, beforeB, coreB, dotsB, afterB ::
      && Written(a, beforeA, coreA, dotsA, afterA) && Written(b, beforeB, coreB, dotsB, afterB)
      && |coreA| == |coreB| && forall i :: 0 <= i < |coreA| ==> SameLetter(coreA[i], coreB[i])
  }

  /** Two spellings of a domain fill and consult one entry. */
  lemma SpellingsShareAnEntry(a: string, b: string, entries: map<string, CacheEntry>, entry: CacheEntry, now: nat)
    requires SameDomain(a, b)
    ensures Normalise(a) == Normalise(b)
    ensures entries[Normalise(a) := entry] == entries[Normalise(b) := entry]
    ensures Lookup(entries[Normalise(a) := entry], Normalise(b), now) == if now < entry.expires then Some(entry.value) else None
  {
    hide Normalise;
    var beforeA, coreA, dotsA, afterA, beforeB, coreB, dotsB, afterB :|
      && Written(a, beforeA, coreA, dotsA, afterA) && Written(b, beforeB, coreB, dotsB, afterB)
      && |coreA| == |coreB| && forall i :: 0 <= i < |coreA| ==> SameLetter(coreA[i], coreB[i]);
    NormaliseExactly(a, beforeA, coreA, dotsA, afterA);
    NormaliseExactly(b, beforeB, coreB, dotsB, afterB);
    assert forall i :: 0 <= i < |coreA| ==> Normalise(a)[i] == Normalise(b)[i];
  }

  lemma PublicHasNoWhitespace(d: string)
    requires IsPublicDomain(d) && TrimDots(d) == d
    ensures forall i :: 0 <= i < |d| ==> !IsWhitespace(d[i])
  {
    hide TrimDots, Split, Join, IsIpv4Literal, Utf8.Encode, Lower, IsLocalName;
    forall i | 0 <= i < |d| ensures !IsWhitespace(d[i]) {
      var parts := Split(d, '.');
      JoinedCharacters(parts, '.', d[i]);
      if d[i] != '.' {
        var k :| 0 <= k < |parts| && d[i] in parts[k];
        assert IsLabel(parts[k]);
      }
    }
  }

  lemma {:induction false} LowerKeepsDots(s: string)
    ensures TrimDots(s) == s ==> TrimDots(Lower(s)) == Lower(s)
    ensures Lower(Lower(s)) == Lower(s)
  {
  }

  lemma {:induction false} TrimDotsIsStable(s: string)
    ensures TrimDots(TrimDots(s)) == TrimDots(s)
  {
  }

  /**
   Normalising a domain that is accepted is final: no domain is cached under two spellings, and a
   cached spelling is the one its own lookup uses.
   */
  lemma CacheKeysAreFixed(raw: string)
    requires IsPublicDomain(Normalise(raw))
    ensures Normalise(Normalise(raw)) == Normalise(raw)
  {
    hide IsPublicDomain;
    var t := TrimDots(Trim(raw));
    var d := Lower(t);
    TrimDotsIsStable(Trim(raw));
    LowerKeepsDots(t);
    PublicHasNoWhitespace(d);
    TrimFixpoint(d);
  }
}
