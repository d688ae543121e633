/**
 The reservoir of idle connections: a bounded, least-recently-used, expiring deque. Instants and
 durations are natural numbers of one unit; nothing here assumes that entries are sorted by age.
 */
module Pool {
  import opened Credentials
  import opened Wrappers

  /** The SHA-256 of a password, taken as injective. */
  datatype Digest = Sha256(password: string)

  datatype PoolKey = PoolKey(host: string, port: nat, username: string, secretDigest: Digest)

  function KeyOf(cred: Credential): PoolKey {
    PoolKey(cred.imapTarget.host, cred.imapTarget.port, cred.username, Sha256(cred.password))
  }

  datatype Entry<T> = Entry(key: PoolKey, conn: T, storedAt: nat)

  /** `now.saturating_duration_since(stored_at) >= ttl`. */
  predicate Expired<T>(e: Entry<T>, now: nat, ttl: nat) {
    (if now >= e.storedAt then now - e.storedAt else 0) >= ttl
  }

  /** Two credentials share sessions exactly when they log in to one server as one user with one password. */
  lemma KeysAgreeExactly(a: Credential, b: Credential)
    ensures KeyOf(a) == KeyOf(b) <==>
              && a.imapTarget.host == b.imapTarget.host && a.imapTarget.port == b.imapTarget.port
              && a.username == b.username && a.password == b.password
  {
    assert Sha256(a.password) == Sha256(b.password) <==> a.password == b.password;
  }

  /** An entry expires exactly when the clock reaches its lifetime past the instant it was stored; one from the future is new. */
  lemma ExpiredExactly<T>(e: Entry<T>, now: nat, ttl: nat)
    ensures ttl > 0 ==> (Expired(e, now, ttl) <==> now >= e.storedAt + ttl)
    ensures ttl == 0 ==> Expired(e, now, ttl)
  {
  }

  // -------------------------------------------------------------------------
  // What the operations compute
  // -------------------------------------------------------------------------

  function Conns<T>(es: seq<Entry<T>>): (cs: seq<T>)
    ensures |cs| == |es| && forall i :: 0 <= i < |es| ==> cs[i] == es[i].conn
  {
    seq(|es|, i requires 0 <= i < |es| => es[i].conn)
  }

  /** The unexpired entries, in order. */
  function Live<T>(es: seq<Entry<T>>, now: nat, ttl: nat): (r: seq<Entry<T>>)
    ensures |r| <= |es|
  {
    if es == [] then []
    else
      var last := es[|es| - 1];
      Live(es[..|es| - 1], now, ttl) + if Expired(last, now, ttl) then [] else [last]
  }

  /** The connections of the expired entries, in order. */
  function Dead<T>(es: seq<Entry<T>>, now: nat, ttl: nat): seq<T> {
    if es == [] then []
    else
      var last := es[|es| - 1];
      Dead(es[..|es| - 1], now, ttl) + if Expired(last, now, ttl) then [last.conn] else []
  }

  /** The index of the last entry under `key`: `Iterator::rposition`. */
  function LastIndex<T>(es: seq<Entry<T>>, key: PoolKey): (r: Option<nat>)
    ensures r.Some? ==>
              && r.value < |es| && es[r.value].key == key
              && forall i :: r.value < i < |es| ==> es[i].key != key
    ensures r.None? ==> forall i :: 0 <= i < |es| ==> es[i].key != key
  {
    if es == [] then None
    else if es[|es| - 1].key == key then Some(|es| - 1)
    else LastIndex(es[..|es| - 1], key)
  }

  function WithoutIndex<T>(es: seq<Entry<T>>, i: nat): seq<Entry<T>>
    requires i < |es|
  {
    es[..i] + es[i + 1..]
  }

  /** What `take` hands out, and what it leaves. */
  function Hit<T>(es: seq<Entry<T>>, key: PoolKey, now: nat, ttl: nat): Option<Entry<T>> {
    var live := Live(es, now, ttl);
    match LastIndex(live, key)
    case Some(i) => Some(live[i])
    case None => None
  }

  function AfterTake<T>(es: seq<Entry<T>>, key: PoolKey, now: nat, ttl: nat): seq<Entry<T>> {
    var live := Live(es, now, ttl);
    match LastIndex(live, key)
    case Some(i) => WithoutIndex(live, i)
    case None => live
  }

  /** How many of `n` entries are over the cap. */
  function Excess(n: nat, maxIdle: nat): nat {
    if n > maxIdle then n - maxIdle else 0
  }

  /** What `put` leaves: the newest `maxIdle` of the survivors and the new entry. */
  function AfterPut<T>(es: seq<Entry<T>>, e: Entry<T>, now: nat, ttl: nat, maxIdle: nat): seq<Entry<T>> {
    var all := Live(es, now, ttl) + [e];
    all[Excess(|all|, maxIdle)..]
  }

  /** What `put` gives up: the expired, then the least recently used. */
  function Evicted<T>(es: seq<Entry<T>>, e: Entry<T>, now: nat, ttl: nat, maxIdle: nat): seq<T> {
    var all := Live(es, now, ttl) + [e];
    Dead(es, now, ttl) + Conns(all[..Excess(|all|, maxIdle)])
  }

  // -------------------------------------------------------------------------
  // The deque, changed in place
  // -------------------------------------------------------------------------

  class Reservoir<T(==)> {
    var entries: seq<Entry<T>>

    constructor ()
      ensures entries == []
    {
      entries := [];
    }

    /** Sweep the deque from the front, one index at a time. */
    method DrainExpired(now: nat, ttl: nat) returns (dead: seq<T>)
      modifies this
      ensures entries == Live(old(entries), now, ttl)
      ensures dead == Dead(old(entries), now, ttl)
    {
      dead := [];
      var i := 0;
      ghost var was, k := entries, 0;
      while i < |entries|
        invariant k <= |was| && i <= |entries|
        invariant entries[..i] == Live(was[..k], now, ttl)
        invariant entries[i..] == was[k..]
        invariant dead == Dead(was[..k], now, ttl)
        decreases |entries| - i
      {
        assert entries[i] == was[k] && entries[i + 1..] == entries[i..][1..] == was[k..][1..] == was[k + 1..];
        assert was[..k + 1][..k] == was[..k];
        if Expired(entries[i], now, ttl) {
          dead := dead + [entries[i].conn];
          entries := WithoutIndex(entries, i);
          assert entries[i..] == was[k + 1..];
        } else {
          i := i + 1;
        }
        k := k + 1;
      }
      assert k == |was| && was[..k] == was && entries[..i] == entries;
    }

    /** Sweep, then hand out the rearmost match. */
    method Take(key: PoolKey, now: nat, ttl: nat) returns (hit: Option<T>, expired: seq<T>)
      modifies this
      ensures entries == AfterTake(old(entries), key, now, ttl)
      ensures expired == Dead(old(entries), now, ttl)
      ensures hit == match Hit(old(entries), key, now, ttl) case Some(e) => Some(e.conn) case None => None
    {
      expired := DrainExpired(now, ttl);
      match LastIndex(entries, key) {
        case Some(i) =>
          hit := Some(entries[i].conn);
          entries := WithoutIndex(entries, i);
        case None =>
          hit := None;
      }
    }

    /** Sweep, push at the back, then pop at the front until the cap holds. */
    method Put(key: PoolKey, conn: T, now: nat, ttl: nat, maxIdle: nat) returns (dead: seq<T>)
      modifies this
      ensures entries == AfterPut(old(entries), Entry(key, conn, now), now, ttl, maxIdle)
      ensures dead == Evicted(old(entries), Entry(key, conn, now), now, ttl, maxIdle)
    {
      hide Live, Dead;
      var swept := DrainExpired(now, ttl);
      dead := swept;
      entries := entries + [Entry(key, conn, now)];
      ghost var all, k := entries, 0;
      while |entries| > maxIdle
        invariant k <= Excess(|all|, maxIdle)
        invariant entries == all[k..]
        invariant dead == swept + Conns(all[..k])
      {
        dead := dead + [entries[0].conn];
        entries := entries[1..];
        assert all[..k + 1] == all[..k] + [all[k]];
        k := k + 1;
      }
    }
  }

  // -------------------------------------------------------------------------
  // What that means
  // -------------------------------------------------------------------------

  lemma {:induction false} LiveConcat<T>(a: seq<Entry<T>>, b: seq<Entry<T>>, now: nat, ttl: nat)
    ensures Live(a + b, now, ttl) == Live(a, now, ttl) + Live(b, now, ttl)
  {
    hide Expired;
    if b == [] {
      assert a + b == a;
    } else {
      var n := |b| - 1;
      LiveConcat(a, b[..n], now, ttl);
      assert (a + b)[..|a| + n] == a + b[..n] && (a + b)[|a| + n] == b[n];
    }
  }

  lemma {:induction false} DeadConcat<T>(a: seq<Entry<T>>, b: seq<Entry<T>>, now: nat, ttl: nat)
    ensures Dead(a + b, now, ttl) == Dead(a, now, ttl) + Dead(b, now, ttl)
  {
    hide Expired;
    if b == [] {
      assert a + b == a;
    } else {
      var n := |b| - 1;
      DeadConcat(a, b[..n], now, ttl);
      assert (a + b)[..|a| + n] == a + b[..n] && (a + b)[|a| + n] == b[n];
    }
  }

  /** Sweeping in two goes is sweeping at once: `Live` and `Dead` keep the order they find. */
  lemma SweepConcat<T>(a: seq<Entry<T>>, b: seq<Entry<T>>, now: nat, ttl: nat)
    ensures Live(a + b, now, ttl) == Live(a, now, ttl) + Live(b, now, ttl)
    ensures Dead(a + b, now, ttl) == Dead(a, now, ttl) + Dead(b, now, ttl)
  {
    LiveConcat(a, b, now, ttl);
    DeadConcat(a, b, now, ttl);
  }

  lemma {:induction false} LiveMember<T>(es: seq<Entry<T>>, now: nat, ttl: nat, i: nat)
    requires i < |Live(es, now, ttl)|
    ensures Live(es, now, ttl)[i] in es && !Expired(Live(es, now, ttl)[i], now, ttl)
  {
    var n := |es| - 1;
    if i < |Live(es[..n], now, ttl)| {
      LiveMember(es[..n], now, ttl, i);
    }
  }

  lemma {:induction false} LiveHas<T>(es: seq<Entry<T>>, now: nat, ttl: nat, i: nat)
    requires i < |es| && !Expired(es[i], now, ttl)
    ensures es[i] in Live(es, now, ttl)
  {
    var n := |es| - 1;
    if i < n {
      LiveHas(es[..n], now, ttl, i);
    }
  }

  /** The sweep keeps exactly the unexpired entries. */
  lemma LiveMembers<T>(es: seq<Entry<T>>, now: nat, ttl: nat)
    ensures var live := Live(es, now, ttl);
            && (forall i :: 0 <= i < |live| ==> live[i] in es && !Expired(live[i], now, ttl))
            && (forall i :: 0 <= i < |es| && !Expired(es[i], now, ttl) ==> es[i] in live)
  {
    hide Live, Expired;
    var live := Live(es, now, ttl);
    forall i | 0 <= i < |live| ensures live[i] in es && !Expired(live[i], now, ttl) {
      LiveMember(es, now, ttl, i);
    }
    forall i | 0 <= i < |es| && !Expired(es[i], now, ttl) ensures es[i] in live {
      LiveHas(es, now, ttl, i);
    }
  }

  /** Sweeping loses and copies no connection. */
  lemma {:induction false} SweepConserves<T>(es: seq<Entry<T>>, now: nat, ttl: nat)
    ensures multiset(Conns(es)) == multiset(Conns(Live(es, now, ttl))) + multiset(Dead(es, now, ttl))
  {
    if es != [] {
      var n := |es| - 1;
      SweepConserves(es[..n], now, ttl);
      assert Conns(es) == Conns(es[..n]) + [es[n].conn];
      var live := Live(es[..n], now, ttl);
      assert Conns(live + [es[n]]) == Conns(live) + [es[n].conn];
      assert live + [] == live;
    }
  }

  lemma ConnsConcat<T>(a: seq<Entry<T>>, b: seq<Entry<T>>)
    ensures Conns(a + b) == Conns(a) + Conns(b)
    ensures multiset(Conns(a + b)) == multiset(Conns(a)) + multiset(Conns(b))
  {
    assert Conns(a + b) == Conns(a) + Conns(b);
  }

  lemma WithoutIndexConserves<T>(es: seq<Entry<T>>, i: nat)
    requires i < |es|
    ensures multiset(Conns(es)) == multiset(Conns(WithoutIndex(es, i))) + multiset{es[i].conn}
  {
    ConnsConcat(es[..i], es[i + 1..]);
    ConnsConcat(es[..i], [es[i]] + es[i + 1..]);
    ConnsConcat([es[i]], es[i + 1..]);
    assert es == es[..i] + ([es[i]] + es[i + 1..]);
    assert Conns([es[i]]) == [es[i].conn];
  }

  /** Connections before a take: those left, those swept, and the one handed out. */
  lemma TakeConserves<T>(es: seq<Entry<T>>, key: PoolKey, now: nat, ttl: nat)
    ensures multiset(Conns(es)) ==
              multiset(Conns(AfterTake(es, key, now, ttl))) + multiset(Dead(es, now, ttl)) +
              (match Hit(es, key, now, ttl) case Some(e) => multiset{e.conn} case None => multiset{})
  {
    hide Live, Dead;
    SweepConserves(es, now, ttl);
    var live := Live(es, now, ttl);
    match LastIndex(live, key)
    case Some(i) => WithoutIndexConserves(live, i);
    case None =>
  }

  /** Connections before a put, and the new one: those left and those given up. */
  lemma PutConserves<T>(es: seq<Entry<T>>, e: Entry<T>, now: nat, ttl: nat, maxIdle: nat)
    ensures multiset(Conns(es)) + multiset{e.conn} ==
              multiset(Conns(AfterPut(es, e, now, ttl, maxIdle))) + multiset(Evicted(es, e, now, ttl, maxIdle))
  {
    hide Live, Dead;
    SweepConserves(es, now, ttl);
    var live := Live(es, now, ttl);
    var all := live + [e];
    var k := Excess(|all|, maxIdle);
    ConnsConcat(live, [e]);
    assert Conns([e]) == [e.conn];
    ConnsConcat(all[..k], all[k..]);
    assert all == all[..k] + all[k..];
    calc {
      multiset(Conns(es)) + multiset{e.conn};
      multiset(Dead(es, now, ttl)) + multiset(Conns(all));
      multiset(Dead(es, now, ttl)) + multiset(Conns(all[..k])) + multiset(Conns(all[k..]));
      multiset(Dead(es, now, ttl) + Conns(all[..k])) + multiset(Conns(all[k..]));
    }
  }

  /**
   A hit is the last unexpired entry under the key, and taking it disturbs no other: what is left
   is what was live, in order, without it.
   */
  lemma TakeMeaning<T>(es: seq<Entry<T>>, key: PoolKey, now: nat, ttl: nat)
    ensures Hit(es, key, now, ttl).None? <==>
              forall i :: 0 <= i < |es| && es[i].key == key ==> Expired(es[i], now, ttl)
    ensures Hit(es, key, now, ttl).Some? ==>
              exists i ::
                && 0 <= i < |es| && Hit(es, key, now, ttl) == Some(es[i])
                && es[i].key == key && !Expired(es[i], now, ttl)
                && (forall j :: i < j < |es| && es[j].key == key ==> Expired(es[j], now, ttl))
                && AfterTake(es, key, now, ttl) == Live(es[..i] + es[i + 1..], now, ttl)
  {
    hide Live;
    var live := Live(es, now, ttl);
    if Hit(es, key, now, ttl).Some? {
      var at := LastIndex(live, key).value;
      var i := Origin(es, now, ttl, at);
      LiveMembers(es[i + 1..], now, ttl);
      forall j | i < j < |es| && es[j].key == key ensures Expired(es[j], now, ttl) {
        var rest := es[i + 1..];
        var tail := Live(rest, now, ttl);
        assert forall m :: 0 <= m < |tail| ==> tail[m] == live[at + 1 + m] && tail[m].key != key;
        assert es[j] == rest[j - i - 1];
      }
      LiveConcat(es[..i], es[i + 1..], now, ttl);
    } else {
      LiveMembers(es, now, ttl);
    }
  }

  /** A sweep spares exactly the entries whose lifetime has not run out, and a take can hand any of them out. */
  lemma YoungEntriesSurvive<T>(es: seq<Entry<T>>, now: nat, ttl: nat, i: nat)
    requires i < |es| && ttl > 0 && now < es[i].storedAt + ttl
    ensures es[i] in Live(es, now, ttl)
    ensures Hit(es, es[i].key, now, ttl).Some?
  {
    LiveMembers(es, now, ttl);
    TakeMeaning(es, es[i].key, now, ttl);
    ExpiredExactly(es[i], now, ttl);
  }

  /** Where the `at`-th live entry sits among all entries. */
  lemma {:induction false} Origin<T>(es: seq<Entry<T>>, now: nat, ttl: nat, at: nat) returns (i: nat)
    requires at < |Live(es, now, ttl)|
    ensures i < |es| && es[i] == Live(es, now, ttl)[at] && !Expired(es[i], now, ttl)
    ensures Live(es[..i], now, ttl) == Live(es, now, ttl)[..at]
    ensures Live(es[i + 1..], now, ttl) == Live(es, now, ttl)[at + 1..]
  {
    var n := |es| - 1;
    var front, last := Live(es[..n], now, ttl), Live([es[n]], now, ttl);
    assert es == es[..n] + [es[n]];
    LiveConcat(es[..n], [es[n]], now, ttl);
    if at < |front| {
      i := Origin(es[..n], now, ttl, at);
      OriginStep(es, n, now, ttl, i);
    } else {
      i := n;
      assert last == [es[n]];
      assert es[n + 1..] == [];
    }
  }

  lemma OriginStep<T>(es: seq<Entry<T>>, n: nat, now: nat, ttl: nat, i: nat)
    requires i < n == |es| - 1
    ensures es[..n][..i] == es[..i] && es[..n][i] == es[i]
    ensures Live(es[i + 1..], now, ttl) == Live(es[..n][i + 1..], now, ttl) + Live([es[n]], now, ttl)
  {
    hide Live;
    assert es[i + 1..] == es[..n][i + 1..] + [es[n]];
    LiveConcat(es[..n][i + 1..], [es[n]], now, ttl);
  }

  /**
   A put keeps the newest of what was live and the new entry, as many as the cap allows, and gives
   up exactly the expired and, oldest first, what the cap leaves no room for.
   */
  lemma PutMeaning<T>(es: seq<Entry<T>>, e: Entry<T>, now: nat, ttl: nat, maxIdle: nat)
    ensures var all, after := Live(es, now, ttl) + [e], AfterPut(es, e, now, ttl, maxIdle);
            && |after| == (if |all| <= maxIdle then |all| else maxIdle)
            && (exists lost :: all == lost + after && Evicted(es, e, now, ttl, maxIdle) == Dead(es, now, ttl) + Conns(lost))
            && (maxIdle > 0 ==> after != [] && after[|after| - 1] == e)
  {
    hide Live, Dead;
    var all := Live(es, now, ttl) + [e];
    var k := Excess(|all|, maxIdle);
    var lost, after := all[..k], AfterPut(es, e, now, ttl, maxIdle);
    assert after == all[k..] && all == lost + after;
    assert Evicted(es, e, now, ttl, maxIdle) == Dead(es, now, ttl) + Conns(lost);
    assert |after| > 0 ==> after[|after| - 1] == all[|all| - 1];
  }

  lemma PutKeeps<T>(es: seq<Entry<T>>, e: Entry<T>, now: nat, ttl: nat, maxIdle: nat, i: nat)
    requires i < |AfterPut(es, e, now, ttl, maxIdle)|
    ensures var kept := AfterPut(es, e, now, ttl, maxIdle)[i]; kept == e || (kept in es && !Expired(kept, now, ttl))
  {
    hide Live;
    var live := Live(es, now, ttl);
    var k := Excess(|live| + 1, maxIdle) + i;
    assert AfterPut(es, e, now, ttl, maxIdle)[i] == (live + [e])[k];
    if k < |live| {
      LiveMember(es, now, ttl, k);
    }
  }
}
