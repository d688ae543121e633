/**
 The bounded newest-first search: narrow the matching UIDs before fetching, print them as a
 sequence set, put an arbitrary-order reply back in order, and report truncation.
 */
module NewestSearch {
  import opened Sequences
  import opened Wrappers
  import opened Text

  type Uid = u: int | 0 <= u <= 0xFFFF_FFFF

  const DEFAULT_SEARCH_LIMIT: nat := 10
  const MAX_SEARCH_LIMIT: nat := 50

  function EffectiveLimit(limit: Option<nat>): (n: nat)
    ensures limit.None? ==> n == 10
    ensures limit.Some? && limit.value <= 50 ==> n == limit.value
    ensures limit.Some? && limit.value > 50 ==> n == 50
  {
    var wanted := if limit.Some? then limit.value else DEFAULT_SEARCH_LIMIT;
    if wanted <= MAX_SEARCH_LIMIT then wanted else MAX_SEARCH_LIMIT
  }

  // -------------------------------------------------------------------------
  // Sorting newest first
  // -------------------------------------------------------------------------

  predicate Descending(s: seq<Uid>) {
    forall i, j :: 0 <= i < j < |s| ==> s[i] >= s[j]
  }

  predicate StrictlyDescending(s: seq<Uid>) {
    forall i, j :: 0 <= i < j < |s| ==> s[i] > s[j]
  }

  predicate Distinct(s: seq<Uid>) {
    forall i, j :: 0 <= i < j < |s| ==> s[i] != s[j]
  }

  function Insert(u: Uid, s: seq<Uid>): (r: seq<Uid>)
    requires Descending(s)
    ensures Descending(r) && multiset(r) == multiset(s) + multiset{u}
    ensures r != [] && (r[0] == u || (s != [] && r[0] == s[0]))
  {
    if s == [] || u >= s[0] then [u] + s
    else
      var rest := Insert(u, s[1..]);
      assert s == [s[0]] + s[1..];
      assert forall i :: 0 < i < |rest| ==> rest[0] >= rest[i];
      [s[0]] + rest
  }

  /** The UIDs in descending order. */
  function SortNewest(s: seq<Uid>): (r: seq<Uid>)
    ensures Descending(r) && multiset(r) == multiset(s)
  {
    if s == [] then []
    else
      assert s == [s[0]] + s[1..];
      Insert(s[0], SortNewest(s[1..]))
  }

  lemma HeadIsGreatest(a: seq<Uid>, b: seq<Uid>)
    requires a != [] && b != [] && Descending(a) && multiset(a) == multiset(b)
    ensures a[0] >= b[0]
  {
    assert b[0] in multiset(b);
    assert b[0] in a;
  }

  lemma TailContents(a: seq<Uid>, b: seq<Uid>)
    requires a != [] && b != [] && a[0] == b[0] && multiset(a) == multiset(b)
    ensures multiset(a[1..]) == multiset(b[1..])
  {
    assert a == [a[0]] + a[1..] && b == [b[0]] + b[1..];
    assert multiset(a[1..]) == multiset(a) - multiset{a[0]};
    assert multiset(b[1..]) == multiset(b) - multiset{b[0]};
  }

  /** Order and contents leave one descending list. */
  lemma {:induction false} DescendingUnique(a: seq<Uid>, b: seq<Uid>)
    requires Descending(a) && Descending(b) && multiset(a) == multiset(b)
    ensures a == b
  {
    assert |a| == |multiset(a)| == |multiset(b)| == |b|;
    if a != [] {
      HeadIsGreatest(a, b);
      HeadIsGreatest(b, a);
      TailContents(a, b);
      DescendingUnique(a[1..], b[1..]);
      assert a == [a[0]] + a[1..] && b == [b[0]] + b[1..];
    }
  }

  lemma SameContents(a: seq<Uid>, b: seq<Uid>)
    requires multiset(a) == multiset(b)
    ensures |a| == |b|
    ensures forall x :: x in a <==> x in b
    ensures Distinct(a) ==> Distinct(b)
  {
    assert |multiset(a)| == |multiset(b)|;
    assert forall x :: x in a <==> x in multiset(a);
    assert forall x :: x in b <==> x in multiset(b);
    if Distinct(a) {
      forall i, j | 0 <= i < j < |b| ensures b[i] != b[j] {
        if b[i] == b[j] {
          TwiceCounted(b, i, j);
          DistinctCount(a, b[i]);
          assert false;
        }
      }
    }
  }

  lemma {:induction false} DistinctCount(s: seq<Uid>, x: Uid)
    requires Distinct(s)
    ensures multiset(s)[x] <= 1
  {
    if s != [] {
      DistinctCount(s[1..], x);
      assert s == [s[0]] + s[1..];
      assert s[0] !in s[1..];
    }
  }

  /** The newest `limit` of `s`, newest first. */
  function Newest(s: seq<Uid>, limit: nat): seq<Uid> {
    var sorted := SortNewest(s);
    if |sorted| > limit then sorted[..limit] else sorted
  }

  /** The list of matching UIDs, narrowed in place. */
  class UidList {
    var uids: seq<Uid>

    constructor (found: seq<Uid>)
      ensures uids == found
    {
      uids := found;
    }

    /** Drop all but the newest `limit`; `total` counts the list as it was found. */
    method SelectNewest(limit: nat) returns (total: nat)
      modifies this
      ensures total == |old(uids)|
      ensures uids == Newest(old(uids), limit)
    {
      total := |uids|;
      uids := SortNewest(uids);
      if |uids| > limit {
        uids := uids[..limit];
      }
    }
  }

  /**
   Narrowing a set of UIDs, listed in any order, keeps exactly the largest `limit` of them: the
   result is strictly descending, drawn from the list, as long as it can be, and everything left
   out is smaller than everything kept.
   */
  lemma NewestIsTheTop(s: seq<Uid>, limit: nat)
    ensures var kept := Newest(s, limit);
            && |kept| == (if limit < |s| then limit else |s|)
            && (forall u :: u in kept ==> u in s)
            && (forall u, v :: u in s && u !in kept && v in kept ==> u <= v)
            && (Distinct(s) ==> StrictlyDescending(kept))
            && (Distinct(s) ==> forall u, v :: u in s && u !in kept && v in kept ==> u < v)
  {
    var sorted, kept := SortNewest(s), Newest(s, limit);
    SameContents(s, sorted);
    assert forall i :: 0 <= i < |kept| ==> kept[i] == sorted[i];
    forall u, v | u in s && u !in kept && v in kept ensures u <= v {
      var i :| 0 <= i < |sorted| && sorted[i] == u;
      var j :| 0 <= j < |kept| && kept[j] == v;
      assert i >= |kept|;
    }
  }

  /** The order in which a set of UIDs is listed does not matter. */
  lemma NewestIgnoresOrder(a: seq<Uid>, b: seq<Uid>, limit: nat)
    requires multiset(a) == multiset(b)
    ensures Newest(a, limit) == Newest(b, limit)
  {
    DescendingUnique(SortNewest(a), SortNewest(b));
  }

  // -------------------------------------------------------------------------
  // The search
  // -------------------------------------------------------------------------

  datatype SearchResponse = SearchResponse(results: seq<Uid>, total: nat, truncated: bool)

  function FromResults(results: seq<Uid>, total: nat): SearchResponse {
    SearchResponse(results, total, total > |results|)
  }

  /** What the search asks the server for, in the order it asks. */
  function Requested(found: seq<Uid>, limit: Option<nat>): seq<Uid> {
    Newest(found, EffectiveLimit(limit))
  }

  /** `r` reports on the matches `found`, given the server's `reply` to the fetch. */
  predicate Answers(found: seq<Uid>, limit: Option<nat>, reply: seq<Uid>, r: SearchResponse) {
    && r.total == |found|
    && (r.truncated <==> |r.results| < |found|)
    && (if Requested(found, limit) == [] then r.results == []
        else Descending(r.results) && multiset(r.results) == multiset(reply))
  }

  /** Nothing is fetched when nothing is selected. */
  method Search(found: seq<Uid>, limit: Option<nat>, reply: seq<Uid>) returns (r: SearchResponse)
    ensures Answers(found, limit, reply, r)
  {
    var selection := new UidList(found);
    var total := selection.SelectNewest(EffectiveLimit(limit));
    if selection.uids == [] {
      r := FromResults([], total);
    } else {
      r := FromResults(SortNewest(reply), total);
      SameContents(reply, SortNewest(reply));
    }
  }

  /**
   Against a server that answers each requested UID once, in whatever order, the caller gets the
   newest of the matches, as many as the limit allows, newest first, and is told exactly when
   there were more.
   */
  lemma FaithfulReply(found: seq<Uid>, limit: Option<nat>, reply: seq<Uid>, r: SearchResponse)
    requires multiset(reply) == multiset(Requested(found, limit))
    requires Answers(found, limit, reply, r)
    ensures r.results == Requested(found, limit)
    ensures |r.results| == (if EffectiveLimit(limit) < |found| then EffectiveLimit(limit) else |found|)
    ensures r.truncated <==> EffectiveLimit(limit) < |found|
    ensures Distinct(found) ==> StrictlyDescending(r.results)
  {
    NewestIsTheTop(found, EffectiveLimit(limit));
    if Requested(found, limit) != [] {
      assert Descending(Requested(found, limit));
      DescendingUnique(r.results, Requested(found, limit));
    }
  }

  // -------------------------------------------------------------------------
  // The UID set of a FETCH
  // -------------------------------------------------------------------------

  /** The UIDs in decimal, joined by commas. */
  function PrintUidSet(uids: seq<Uid>): string {
    Join(seq(|uids|, i requires 0 <= i < |uids| => Decimal(uids[i])), ",")
  }

  /** `seq-number` and `seq-range` of section 9 of RFC 3501; `None` is `*`. */
  datatype SetItem = Single(n: Option<nat>) | Range(first: Option<nat>, last: Option<nat>)

  /** `nz-number`, or `*`. */
  function ReadSeqNumber(s: string): Option<Option<nat>> {
    if s == "*" then Some(None)
    else if s == [] || !AllDigits(s) || s[0] == '0' || Value(s) > 0xFFFF_FFFF then None
    else Some(Some(Value(s)))
  }

  function ReadItem(s: string): Option<SetItem> {
    match SplitOnce(s, ':')
    case None =>
      (match ReadSeqNumber(s) case None => None case Some(n) => Some(Single(n)))
    case Some((a, b)) =>
      match (ReadSeqNumber(a), ReadSeqNumber(b))
      case (Some(first), Some(last)) => Some(Range(first, last))
      case _ => None
  }

  function ReadItems(parts: seq<string>): Option<seq<SetItem>> {
    if parts == [] then Some([])
    else match (ReadItem(parts[0]), ReadItems(parts[1..]))
      case (Some(item), Some(rest)) => Some([item] + rest)
      case _ => None
  }

  /** `sequence-set`. */
  function ReadSequenceSet(s: string): Option<seq<SetItem>> {
    ReadItems(Split(s, ','))
  }

  function Singles(uids: seq<Uid>): seq<SetItem> {
    seq(|uids|, i requires 0 <= i < |uids| => Single(Some(uids[i])))
  }

  lemma ReadPrintedUid(u: Uid)
    ensures ReadItem(Decimal(u)) == if u == 0 then None else Some(Single(Some(u)))
  {
    assert ':' !in Decimal(u) && Decimal(u) != "*";
    if u == 0 {
      assert Decimal(0) == "0";
    }
  }

  lemma {:induction false} ReadPrintedUids(uids: seq<Uid>, parts: seq<string>)
    requires |parts| == |uids| && forall i :: 0 <= i < |uids| ==> parts[i] == Decimal(uids[i])
    ensures ReadItems(parts) == if 0 in uids then None else Some(Singles(uids))
  {
    hide ReadItem, Decimal, Value;
    if uids != [] {
      ReadPrintedUid(uids[0]);
      ReadPrintedUids(uids[1..], parts[1..]);
      assert uids == [uids[0]] + uids[1..];
      assert Singles(uids) == [Single(Some(uids[0]))] + Singles(uids[1..]);
    } else {
      assert Singles(uids) == [];
    }
  }

  /**
   The printed set reads back as exactly the UIDs asked for, in order. A set naming UID 0, which no
   message has, is not a sequence set at all.
   */
  lemma UidSetReadsBack(uids: seq<Uid>)
    requires uids != []
    ensures ReadSequenceSet(PrintUidSet(uids)) == if 0 in uids then None else Some(Singles(uids))
  {
    var parts := seq(|uids|, i requires 0 <= i < |uids| => Decimal(uids[i]));
    forall i | 0 <= i < |parts| ensures ',' !in parts[i] {
      assert AllDigits(parts[i]);
    }
    SplitJoin(parts, ',');
    ReadPrintedUids(uids, parts);
  }
}
