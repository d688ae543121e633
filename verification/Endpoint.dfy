/**
 The address policy on provider targets. Reading an address literal and asking DNS belong to the
 standard library and the system: both are functions of the guard.
 */
module Endpoint {
  import opened Credentials
  import opened Wrappers
  import opened Text
  import opened Autoconfig

  datatype Ip = V4(v4: bv32) | V6(v6: bv128)

  // -------------------------------------------------------------------------
  // The classifier, by octets, segments and masks
  // -------------------------------------------------------------------------

  function Octets(a: bv32): (bv32, bv32, bv32, bv32) {
    ((a >> 24) & 0xff, (a >> 16) & 0xff, (a >> 8) & 0xff, a & 0xff)
  }

  predicate IsPrivate(a: bv32) {
    || Octets(a).0 == 10
    || (Octets(a).0 == 172 && 16 <= Octets(a).1 <= 31)
    || (Octets(a).0 == 192 && Octets(a).1 == 168)
  }

  predicate IsDocumentation(a: bv32) {
    || (Octets(a).0 == 192 && Octets(a).1 == 0 && Octets(a).2 == 2)
    || (Octets(a).0 == 198 && Octets(a).1 == 51 && Octets(a).2 == 100)
    || (Octets(a).0 == 203 && Octets(a).1 == 0 && Octets(a).2 == 113)
  }

  predicate IsForbiddenV4(a: bv32) {
    || Octets(a).0 == 127
    || IsPrivate(a)
    || (Octets(a).0 == 169 && Octets(a).1 == 254)
    || a == 0
    || a == 0xffff_ffff
    || 224 <= Octets(a).0 <= 239
    || IsDocumentation(a)
    || (Octets(a).0 == 100 && Octets(a).1 & 0xc0 == 0x40)
    || Octets(a).0 == 0
  }

  /** The first of the eight segments. */
  function Segment0(a: bv128): bv128 {
    (a >> 112) & 0xffff
  }

  /** `to_ipv4_mapped`: `::ffff:a.b.c.d`. */
  function MappedV4(a: bv128): Option<bv32> {
    if a >> 32 == 0xffff then Some((a & 0xffff_ffff) as bv32) else None
  }

  predicate IsForbiddenV6(a: bv128) {
    || a == 1
    || a == 0
    || Segment0(a) & 0xff00 == 0xff00
    || Segment0(a) & 0xfe00 == 0xfc00
    || Segment0(a) & 0xffc0 == 0xfe80
  }

  predicate IsForbiddenIp(ip: Ip) {
    match ip
    case V4(a) => IsForbiddenV4(a)
    case V6(a) =>
      match MappedV4(a)
      case Some(v4) => IsForbiddenV4(v4)
      case None => IsForbiddenV6(a)
  }

  // -------------------------------------------------------------------------
  // The same set, as ranges of addresses
  // -------------------------------------------------------------------------

  predicate NonPublicV4(a: bv32) {
    || a <= 0x00ff_ffff                       // 0.0.0.0/8
    || 0x0a00_0000 <= a <= 0x0aff_ffff        // 10.0.0.0/8
    || 0x6440_0000 <= a <= 0x647f_ffff        // 100.64.0.0/10
    || 0x7f00_0000 <= a <= 0x7fff_ffff        // 127.0.0.0/8
    || 0xa9fe_0000 <= a <= 0xa9fe_ffff        // 169.254.0.0/16
    || 0xac10_0000 <= a <= 0xac1f_ffff        // 172.16.0.0/12
    || 0xc000_0200 <= a <= 0xc000_02ff        // 192.0.2.0/24
    || 0xc0a8_0000 <= a <= 0xc0a8_ffff        // 192.168.0.0/16
    || 0xc633_6400 <= a <= 0xc633_64ff        // 198.51.100.0/24
    || 0xcb00_7100 <= a <= 0xcb00_71ff        // 203.0.113.0/24
    || 0xe000_0000 <= a <= 0xefff_ffff        // 224.0.0.0/4
    || a == 0xffff_ffff                       // 255.255.255.255
  }

  predicate NonPublicV6(a: bv128) {
    || a <= 1                                                    // ::, ::1
    || 0xfc00_0000_0000_0000_0000_0000_0000_0000 <= a <= 0xfdff_ffff_ffff_ffff_ffff_ffff_ffff_ffff  // fc00::/7
    || 0xfe80_0000_0000_0000_0000_0000_0000_0000 <= a <= 0xfebf_ffff_ffff_ffff_ffff_ffff_ffff_ffff  // fe80::/10
    || 0xff00_0000_0000_0000_0000_0000_0000_0000 <= a            // ff00::/8
  }

  const MAPPED_FIRST: bv128 := 0xffff_0000_0000
  const MAPPED_LAST: bv128 := 0xffff_ffff_ffff

  /** The address an IPv4-mapped one stands for. */
  function Unmapped(a: bv128): bv32
    requires MAPPED_FIRST <= a <= MAPPED_LAST
  {
    (a - MAPPED_FIRST) as bv32
  }

  /** An IPv4-mapped address is as public as the address it maps. */
  predicate NonPublic(ip: Ip) {
    match ip
    case V4(a) => NonPublicV4(a)
    case V6(a) => NonPublicV6(a) || (MAPPED_FIRST <= a <= MAPPED_LAST && NonPublicV4(Unmapped(a)))
  }

  lemma OctetsAreRanges(a: bv32)
    ensures IsForbiddenV4(a) <==> NonPublicV4(a)
  {
  }

  lemma MappedIsARange(a: bv128)
    ensures MappedV4(a).Some? <==> MAPPED_FIRST <= a <= MAPPED_LAST
    ensures MappedV4(a).Some? ==> MappedV4(a).value == Unmapped(a)
    ensures MappedV4(a).Some? ==> !NonPublicV6(a)
  {
  }

  lemma SegmentsAreRanges(a: bv128)
    ensures IsForbiddenV6(a) <==> NonPublicV6(a)
  {
  }

  /** The masks select exactly these ranges, for every address of either family. */
  lemma ClassifierIsRanges(ip: Ip)
    ensures IsForbiddenIp(ip) <==> NonPublic(ip)
  {
    match ip
    case V4(a) => OctetsAreRanges(a);
    case V6(a) => V6IsRanges(a);
  }

  lemma V6IsRanges(a: bv128)
    ensures IsForbiddenIp(V6(a)) <==> NonPublic(V6(a))
  {
    hide IsForbiddenV4, NonPublicV4, IsForbiddenV6, NonPublicV6, MappedV4, Unmapped;
    MappedIsARange(a);
    SegmentsAreRanges(a);
    if MappedV4(a).Some? {
      OctetsAreRanges(MappedV4(a).value);
    }
  }

  // -------------------------------------------------------------------------
  // The guard
  // -------------------------------------------------------------------------

  /** `lookup` gives `None` for a failed resolution. */
  datatype Guard = Guard(enabled: bool, literal: string -> Option<Ip>, lookup: string -> Option<seq<Ip>>)

  datatype Refusal = Blocked(source: string, host: string) | HostUnreachable(source: string, host: string)

  /** The host as given, without white space and trailing dots. */
  function Host(target: HostPort): string {
    TrimDots(Trim(target.host))
  }

  /** `[literal]` is unwrapped. */
  function Bare(host: string): string {
    if |host| >= 2 && host[0] == '[' && host[|host| - 1] == ']' then host[1..|host| - 1] else host
  }

  function Check(guard: Guard, source: string, target: HostPort): Option<Refusal> {
    if !guard.enabled then None
    else
      var host := Host(target);
      var bare := Bare(host);
      match guard.literal(bare)
      case Some(ip) => if IsForbiddenIp(ip) then Some(Blocked(source, host)) else None
      case None =>
        if IsLocalName(Lower(bare)) then Some(Blocked(source, host))
        else match guard.lookup(bare)
          case None => Some(HostUnreachable(source, host))
          case Some(addrs) =>
            if addrs == [] then Some(HostUnreachable(source, host))
            else if exists i :: 0 <= i < |addrs| && IsForbiddenIp(addrs[i]) then Some(Blocked(source, host))
            else None
  }

  /** Every address a host stands for, unless it is a name with no public meaning. */
  function Answers(guard: Guard, bare: string): Option<seq<Ip>> {
    match guard.literal(bare)
    case Some(ip) => Some([ip])
    case None => if IsLocalName(Lower(bare)) then None else guard.lookup(bare)
  }

  predicate AllPublic(addrs: seq<Ip>) {
    forall i :: 0 <= i < |addrs| ==> !NonPublic(addrs[i])
  }

  lemma {:induction false} AllPublicIsNoneForbidden(addrs: seq<Ip>)
    ensures AllPublic(addrs) <==> !exists i :: 0 <= i < |addrs| && IsForbiddenIp(addrs[i])
  {
    hide IsForbiddenIp, NonPublic;
    if addrs != [] {
      var n := |addrs| - 1;
      AllPublicIsNoneForbidden(addrs[..n]);
      ClassifierIsRanges(addrs[n]);
      assert addrs == addrs[..n] + [addrs[n]];
      assert forall i :: 0 <= i < n ==> addrs[i] == addrs[..n][i];
    }
  }

  /**
   An enabled guard passes exactly the targets that stand for at least one address and for public
   ones only; one public answer does not excuse another. Disabled, it passes everything.
   */
  lemma CheckMeaning(guard: Guard, source: string, target: HostPort)
    ensures !guard.enabled ==> Check(guard, source, target).None?
    ensures guard.enabled ==>
              var bare := Bare(Host(target));
              && (Check(guard, source, target).None? <==>
                    Answers(guard, bare).Some? && Answers(guard, bare).value != [] && AllPublic(Answers(guard, bare).value))
              && (Check(guard, source, target) == Some(HostUnreachable(source, Host(target))) <==>
                    && guard.literal(bare).None? && !IsLocalName(Lower(bare))
                    && (guard.lookup(bare).None? || guard.lookup(bare).value == []))
  {
    hide IsForbiddenIp, NonPublic, Host, Bare, IsLocalName;
    var bare := Bare(Host(target));
    if Answers(guard, bare).Some? {
      AllPublicIsNoneForbidden(Answers(guard, bare).value);
      assert guard.literal(bare).Some? ==> Answers(guard, bare).value[0] == guard.literal(bare).value;
    }
  }

  /** White space, trailing dots and brackets around a host do not change the verdict on it. */
  lemma DecorationIsIgnored(guard: Guard, source: string, host: string, port: nat,
                            before: string, dots: string, after: string)
    requires Trimmed(host) && host != [] && host[|host| - 1] != '.' && host[0] != '['
    requires AllWhitespace(before) && AllWhitespace(after)
    requires forall i :: 0 <= i < |dots| ==> dots[i] == '.'
    ensures Check(guard, source, HostPort(before + (host + dots) + after, port)) == Check(guard, source, HostPort(host, port))
    ensures Check(guard, source, HostPort(before + ("[" + host + "]" + dots) + after, port)).None? <==>
              Check(guard, source, HostPort(host, port)).None?
    ensures Bare(Host(HostPort(before + (host + dots) + after, port))) == host
    ensures Bare(Host(HostPort(before + ("[" + host + "]" + dots) + after, port))) == host
  {
    hide Check, Host, Bare;
    HostOfDecorated(host, port, "", "", "");
    assert "" + (host + "") + "" == host;
    HostOfDecorated(host, port, before, dots, after);
    var wrapped := "[" + host + "]";
    HostOfDecorated(wrapped, port, before, dots, after);
    BareOfWrapped(host);
    VerdictIsOnBare(guard, source, HostPort(before + (host + dots) + after, port), HostPort(host, port));
    VerdictIsOnBare(guard, source, HostPort(before + (wrapped + dots) + after, port), HostPort(host, port));
  }

  lemma BareOfWrapped(host: string)
    requires host != [] && host[0] != '['
    ensures Bare(host) == host && Bare("[" + host + "]") == host
  {
    var wrapped := "[" + host + "]";
    assert wrapped[1..|wrapped| - 1] == host;
  }

  lemma VerdictIsOnBare(guard: Guard, source: string, a: HostPort, b: HostPort)
    requires Bare(Host(a)) == Bare(Host(b))
    ensures Check(guard, source, a).None? <==> Check(guard, source, b).None?
    ensures Host(a) == Host(b) ==> Check(guard, source, a) == Check(guard, source, b)
  {
    hide IsForbiddenIp, IsLocalName, Host, Bare;
  }

  lemma HostOfDecorated(host: string, port: nat, before: string, dots: string, after: string)
    requires Trimmed(host) && host != [] && host[|host| - 1] != '.'
    requires AllWhitespace(before) && AllWhitespace(after)
    requires forall i :: 0 <= i < |dots| ==> dots[i] == '.'
    ensures Host(HostPort(before + (host + dots) + after, port)) == host
  {
    assert Trimmed(host + dots);
    TrimCore(before, host + dots, after);
    TrimDotsCore(host, dots);
  }
}
