/**
 The autoconfiguration ladder. The network is an oracle: no query is asked twice within one walk
 (`RunLadder` says so), so nothing is lost by letting each query have one answer.
 */
module Autoconfig {
  import opened Credentials
  import opened Wrappers
  import opened Text
  import Utf8

  datatype MailServers = MailServers(imapTarget: Option<HostPort>, smtpTarget: Option<HostPort>) {
    predicate IsComplete() {
      imapTarget.Some? && smtpTarget.Some?
    }

    predicate IsEmpty() {
      imapTarget.None? && smtpTarget.None?
    }

    /** Each side as it is here, or else as it is in `other`. */
    function MergeFrom(other: MailServers): MailServers {
      MailServers(
        if imapTarget.None? then other.imapTarget else imapTarget,
        if smtpTarget.None? then other.smtpTarget else smtpTarget)
    }
  }

  const NOTHING := MailServers(None, None)

  // -------------------------------------------------------------------------
  // Domains
  // -------------------------------------------------------------------------

  /** `str::trim_end_matches('.')`. */
  function TrimDots(s: string): (r: string)
    ensures r != [] ==> r[|r| - 1] != '.'
  {
    if s != [] && s[|s| - 1] == '.' then TrimDots(s[..|s| - 1]) else s
  }

  function Normalise(domain: string): string {
    Lower(TrimDots(Trim(domain)))
  }

  predicate EndsWith(s: string, suffix: string) {
    |suffix| <= |s| && s[|s| - |suffix|..] == suffix
  }

  predicate IsAlnum(c: char) {
    'a' <= c <= 'z' || 'A' <= c <= 'Z' || IsAsciiDigit(c)
  }

  /** One octet of a dotted quad: no leading zero, at most 255. */
  predicate IsQuadOctet(s: string) {
    1 <= |s| <= 3 && AllDigits(s) && Value(s) <= 255 && (|s| > 1 ==> s[0] != '0')
  }

  /** An IPv4 literal. (An IPv6 literal holds a colon, which no label may.) */
  predicate IsIpv4Literal(s: string) {
    var parts := Split(s, '.');
    |parts| == 4 && forall i :: 0 <= i < 4 ==> IsQuadOctet(parts[i])
  }

  predicate IsLabel(s: string) {
    && 1 <= |s| <= 63
    && (forall i :: 0 <= i < |s| ==> IsAlnum(s[i]) || s[i] == '-')
    && s[0] != '-' && s[|s| - 1] != '-'
  }

  /** `localhost` and the suffixes reserved for private use. */
  predicate IsLocalName(lower: string) {
    lower == "localhost" || EndsWith(lower, ".localhost") || EndsWith(lower, ".local") || EndsWith(lower, ".internal")
  }

  predicate IsPublicDomain(domain: string) {
    var d := TrimDots(domain);
    && d != [] && |Utf8.Encode(d)| <= 253 && '.' in d
    && !IsIpv4Literal(d)
    && !IsLocalName(Lower(d))
    && forall i :: 0 <= i < |Split(d, '.')| ==> IsLabel(Split(d, '.')[i])
  }

  /** The labels that are not empty. */
  function Labels(parts: seq<string>): seq<string> {
    if parts == [] then []
    else if parts[0] == [] then Labels(parts[1..])
    else [parts[0]] + Labels(parts[1..])
  }

  /** What is left of a name when all but its last two labels go. */
  function RegistrableDomain(host: string): string {
    var h := Lower(TrimDots(host));
    var labels := Labels(Split(h, '.'));
    if |labels| <= 2 then h
    else Join(labels[|labels| - 2..], ".")
  }

  lemma LabelsOfCons(parts: seq<string>)
    requires parts != []
    ensures Labels(parts) == (if parts[0] == [] then [] else [parts[0]]) + Labels(parts[1..])
  {
  }

  lemma {:induction false} LabelsConcat(a: seq<string>, b: seq<string>)
    ensures Labels(a + b) == Labels(a) + Labels(b)
  {
    if a == [] {
      assert a + b == b;
    } else {
      LabelsConcat(a[1..], b);
      assert (a + b)[1..] == a[1..] + b && (a + b)[0] == a[0];
      LabelsOfCons(a);
      LabelsOfCons(a + b);
    }
  }

  lemma {:induction false} TrimDotsCore(core: string, dots: string)
    requires core != [] && core[|core| - 1] != '.' && forall i :: 0 <= i < |dots| ==> dots[i] == '.'
    ensures TrimDots(core + dots) == core
  {
    if dots == [] {
      assert core + dots == core;
    } else {
      var n := |dots| - 1;
      assert (core + dots)[..|core| + n] == core + dots[..n];
      TrimDotsCore(core, dots[..n]);
    }
  }

  lemma {:induction false} LabelsEmpty(parts: seq<string>)
    ensures Labels(parts) == [] <==> forall i :: 0 <= i < |parts| ==> parts[i] == []
  {
    if parts != [] {
      LabelsEmpty(parts[1..]);
      assert forall i :: 0 < i < |parts| ==> parts[i] == parts[1..][i - 1];
    }
  }

  lemma NoLabels(s: string)
    ensures Labels(Split(s, '.')) == [] <==> AllDots(s)
  {
    var parts := Split(s, '.');
    LabelsEmpty(parts);
    forall i | 0 <= i < |parts| && parts[i] != [] ensures !AllDots(s) {
      PartsAreJoined(parts, '.', i, parts[i][0]);
    }
    forall i | 0 <= i < |s| && s[i] != '.' ensures Labels(parts) != [] {
      JoinedCharacters(parts, '.', s[i]);
      var k :| 0 <= k < |parts| && s[i] in parts[k];
      assert parts[k] != [];
    }
  }

  lemma LowerConcat(a: string, b: string)
    ensures Lower(a + b) == Lower(a) + Lower(b)
    ensures Lower(".") == "."
    ensures AllDots(Lower(a)) <==> AllDots(a)
  {
  }

  lemma TwoLabels(name: string, suffix: string)
    requires '.' !in name && '.' !in suffix && name != [] && suffix != []
    ensures Split(Lower(name + "." + suffix), '.') == [Lower(name), Lower(suffix)]
    ensures Labels([Lower(name), Lower(suffix)]) == [Lower(name), Lower(suffix)]
    ensures Join([Lower(name), Lower(suffix)], ".") == Lower(name + "." + suffix)
  {
    assert Lower(name + "." + suffix) == Lower(name) + "." + Lower(suffix);
    var two := [Lower(name), Lower(suffix)];
    assert two[1..] == [two[1]] && two[1..][1..] == [];
    assert Labels(two[1..]) == [two[1]] + Labels(two[1..][1..]) == [two[1]];
    SplitJoin(two, '.');
  }

  /**
   The exchanger's provider is its last two labels in lower case, whatever comes before them. Only a
   name with nothing but dots before them is left as it is.
   */
  lemma RegistrableIsLastTwo(sub: string, name: string, suffix: string, dots: string)
    requires '.' !in name && '.' !in suffix && name != [] && suffix != [] && AllDots(dots)
    ensures RegistrableDomain((name + "." + suffix) + dots) == Lower(name + "." + suffix)
    ensures RegistrableDomain((sub + "." + (name + "." + suffix)) + dots) ==
              if AllDots(sub) then Lower(sub + "." + (name + "." + suffix)) else Lower(name + "." + suffix)
  {
    hide Split, Labels, Join, TrimDots, Lower, LowerChar;
    var tail := name + "." + suffix;
    var host := sub + "." + tail;
    TrimDotsCore(tail, dots);
    TrimDotsCore(host, dots);
    TwoLabels(name, suffix);
    LowerConcat(sub, ".");
    LowerConcat(sub + ".", tail);
    SplitConcat(Lower(sub), '.', Lower(tail));
    var front, last := Split(Lower(sub), '.'), [Lower(name), Lower(suffix)];
    LabelsConcat(front, last);
    NoLabels(Lower(sub));
    assert (Labels(front) + last)[|Labels(front)|..] == last;
  }

  /** What counts as local, letter by letter: the name itself, or any name under a suffix. */
  lemma LocalNameExactly(lower: string)
    ensures IsLocalName(lower) <==>
              || lower == "localhost"
              || (exists sub :: lower == sub + ".localhost")
              || (exists sub :: lower == sub + ".local")
              || (exists sub :: lower == sub + ".internal")
  {
    EndsExactly(lower, ".localhost");
    EndsExactly(lower, ".local");
    EndsExactly(lower, ".internal");
  }

  lemma EndsExactly(s: string, suffix: string)
    ensures EndsWith(s, suffix) <==> exists sub :: s == sub + suffix
  {
    if EndsWith(s, suffix) {
      assert s == s[..|s| - |suffix|] + suffix;
    }
  }

  /** A label is 1 to 63 ASCII letters, digits and hyphens, with no hyphen at either end. */
  lemma LabelExactly(s: string)
    ensures IsLabel(s) <==>
              && 1 <= |s| <= 63 && s[0] != '-' && s[|s| - 1] != '-'
              && forall i :: 0 <= i < |s| ==> 'a' <= s[i] <= 'z' || 'A' <= s[i] <= 'Z' || '0' <= s[i] <= '9' || s[i] == '-'
  {
  }

  ghost predicate IsQuad(s: string, a: nat, b: nat, c: nat, d: nat) {
    a <= 255 && b <= 255 && c <= 255 && d <= 255 && s == Join([Decimal(a), Decimal(b), Decimal(c), Decimal(d)], ".")
  }

  /** An IPv4 literal is four plain numerals up to 255 with dots between, and nothing else. */
  lemma Ipv4LiteralExactly(s: string)
    ensures IsIpv4Literal(s) <==> exists a, b, c, d :: IsQuad(s, a, b, c, d)
  {
    hide Split, Join, Decimal, Value, IsQuadOctet;
    var parts := Split(s, '.');
    if IsIpv4Literal(s) {
      var a := QuadOctetIsNumeral(parts[0]);
      var b := QuadOctetIsNumeral(parts[1]);
      var c := QuadOctetIsNumeral(parts[2]);
      var d := QuadOctetIsNumeral(parts[3]);
      assert parts == [Decimal(a), Decimal(b), Decimal(c), Decimal(d)];
      assert IsQuad(s, a, b, c, d);
    }
    forall a, b, c, d | IsQuad(s, a, b, c, d) ensures IsIpv4Literal(s) {
      QuadIsLiteral(s, a, b, c, d);
    }
  }

  lemma QuadIsLiteral(s: string, a: nat, b: nat, c: nat, d: nat)
    requires IsQuad(s, a, b, c, d)
    ensures IsIpv4Literal(s)
  {
    hide Split, Join, Decimal, Value, IsQuadOctet;
    OctetIsQuadOctet(a);
    OctetIsQuadOctet(b);
    OctetIsQuadOctet(c);
    OctetIsQuadOctet(d);
    SplitJoin([Decimal(a), Decimal(b), Decimal(c), Decimal(d)], '.');
  }

  lemma QuadOctetIsNumeral(s: string) returns (n: nat)
    requires IsQuadOctet(s)
    ensures n <= 255 && s == Decimal(n)
  {
    hide Decimal;
    n := Value(s);
    var zeros := DigitsAreNumeral(s);
  }

  /** Two labels or more, dots between them and any number of dots after. */
  ghost predicate IsDnsName(domain: string, labels: seq<string>, dots: string) {
    && |labels| >= 2 && (forall i :: 0 <= i < |labels| ==> IsLabel(labels[i]))
    && AllDots(dots) && domain == Join(labels, ".") + dots
  }

  /** A public domain is a DNS name of at most 253 characters that is no address and no local name. */
  lemma PublicDomainExactly(domain: string)
    ensures IsPublicDomain(domain) <==>
              && (exists labels, dots :: IsDnsName(domain, labels, dots))
              && |TrimDots(domain)| <= 253
              && !IsIpv4Literal(TrimDots(domain)) && !IsLocalName(Lower(TrimDots(domain)))
  {
    hide IsIpv4Literal, IsLocalName, Split, Join, TrimDots, Utf8.Encode;
    var d := TrimDots(domain);
    if IsPublicDomain(domain) {
      TrimDotsPrefix(domain);
      var labels, dots := Split(d, '.'), domain[|d|..];
      DottedHasLabels(d);
      assert IsDnsName(domain, labels, dots);
      LabelsAreAscii(labels);
    }
    forall labels, dots | IsDnsName(domain, labels, dots)
      ensures d == Join(labels, ".") && Split(d, '.') == labels && '.' in d && d != [] && |Utf8.Encode(d)| == |d|
    {
      DnsNameSplits(domain, labels, dots);
      LabelsAreAscii(labels);
    }
  }

  lemma {:induction false} TrimDotsPrefix(s: string)
    ensures TrimDots(s) <= s && AllDots(s[|TrimDots(s)|..])
  {
    if s != [] && s[|s| - 1] == '.' {
      TrimDotsPrefix(s[..|s| - 1]);
    }
  }

  lemma DottedHasLabels(d: string)
    requires '.' in d
    ensures |Split(d, '.')| >= 2 && Join(Split(d, '.'), ".") == d
  {
  }

  lemma {:induction false} LabelsAreAscii(labels: seq<string>)
    requires labels != [] && forall i :: 0 <= i < |labels| ==> IsLabel(labels[i])
    ensures |Utf8.Encode(Join(labels, "."))| == |Join(labels, ".")|
  {
    var d := Join(labels, ".");
    forall i | 0 <= i < |d| ensures d[i] as int < 0x80 {
      JoinedCharacters(labels, '.', d[i]);
    }
    Utf8.EncodeAscii(d);
  }

  lemma DnsNameSplits(domain: string, labels: seq<string>, dots: string)
    requires IsDnsName(domain, labels, dots)
    ensures var d := Join(labels, "."); TrimDots(domain) == d && Split(d, '.') == labels && '.' in d && d != []
  {
    var d := Join(labels, ".");
    var front, last := labels[..|labels| - 1], labels[|labels| - 1];
    assert labels == front + [last];
    JoinConcat(front, [last], ".");
    assert d[|d| - 1] == last[|last| - 1];
    TrimDotsCore(d, dots);
    forall i | 0 <= i < |labels| ensures '.' !in labels[i] {
      assert IsLabel(labels[i]);
    }
    SplitJoin(labels, '.');
  }

  lemma OctetIsQuadOctet(n: nat)
    requires n <= 255
    ensures IsQuadOctet(Decimal(n)) && '.' !in Decimal(n)
  {
  }

  /** No dotted quad is a public domain, and no name under the local suffixes is, in any case. */
  lemma AddressesAndLocalNamesAreNotPublic(a: nat, b: nat, c: nat, d: nat, sub: string, suffix: string)
    requires a <= 255 && b <= 255 && c <= 255 && d <= 255
    requires Lower(suffix) in [".localhost", ".local", ".internal"]
    ensures !IsPublicDomain(Join([Decimal(a), Decimal(b), Decimal(c), Decimal(d)], "."))
    ensures !IsPublicDomain(sub + suffix)
  {
    hide Utf8.Encode;
    QuadIsNotPublic(a, b, c, d);
    LocalIsNotPublic(sub, suffix);
  }

  lemma QuadIsNotPublic(a: nat, b: nat, c: nat, d: nat)
    requires a <= 255 && b <= 255 && c <= 255 && d <= 255
    ensures !IsPublicDomain(Join([Decimal(a), Decimal(b), Decimal(c), Decimal(d)], "."))
  {
    hide *;
    OctetIsQuadOctet(a);
    OctetIsQuadOctet(b);
    OctetIsQuadOctet(c);
    OctetIsQuadOctet(d);
    PartsAreNotPublic([Decimal(a), Decimal(b), Decimal(c), Decimal(d)]);
  }

  lemma PartsAreNotPublic(parts: seq<string>)
    requires |parts| == 4 && forall i :: 0 <= i < 4 ==> IsQuadOctet(parts[i]) && '.' !in parts[i]
    ensures !IsPublicDomain(Join(parts, "."))
  {
    hide Join, Split, TrimDots, Value, IsLocalName, Lower, Utf8.Encode;
    SplitJoin(parts, '.');
    assert IsQuadOctet(parts[3]);
    JoinHasNoDotAtEnd(parts);
  }

  lemma JoinHasNoDotAtEnd(parts: seq<string>)
    requires |parts| >= 2 && parts[|parts| - 1] != [] && '.' !in parts[|parts| - 1]
    ensures TrimDots(Join(parts, ".")) == Join(parts, ".")
  {
    hide Join, TrimDots;
    var s, n := Join(parts, "."), |parts| - 1;
    assert parts == parts[..n] + [parts[n]];
    JoinConcat(parts[..n], [parts[n]], ".");
    JoinOne(parts[n]);
    assert s[|s| - 1] == parts[n][|parts[n]| - 1];
    TrimDotsCore(s, []);
    assert s + [] == s;
  }

  lemma JoinOne(part: string)
    ensures Join([part], ".") == part
  {
  }

  lemma LocalIsNotPublic(sub: string, suffix: string)
    requires Lower(suffix) in [".localhost", ".local", ".internal"]
    ensures !IsPublicDomain(sub + suffix)
  {
    hide Utf8.Encode, Split, IsIpv4Literal, Lower, TrimDots;
    var s := sub + suffix;
    LowerConcat(sub, suffix);
    LastOfLower(suffix);
    TrimDotsCore(s, []);
    assert s + [] == s;
    assert Lower(s)[|sub|..] == Lower(suffix);
  }

  lemma LastOfLower(suffix: string)
    requires Lower(suffix) in [".localhost", ".local", ".internal"]
    ensures suffix != [] && suffix[|suffix| - 1] != '.'
  {
  }

  // -------------------------------------------------------------------------
  // The network
  // -------------------------------------------------------------------------

  /** Where autoconfig XML is looked for; an address rides along as `?emailaddress=`. */
  datatype Url =
    | Provider(domain: string, email: Option<string>)
    | WellKnown(domain: string, email: Option<string>)
    | Ispdb(domain: string)

  datatype Service = Imaps | PlainImap | Submissions | Submission

  datatype Query = Fetch(url: Url) | Srv(service: Service, domain: string) | Mx(domain: string)

  datatype XmlServer = XmlServer(kind: string, hostname: Option<string>, port: Option<nat>, socketType: Option<string>)

  datatype ClientConfig = ClientConfig(incoming: seq<XmlServer>, outgoing: seq<XmlServer>)

  /** `Body(None)` is a body that is not autoconfig XML. */
  datatype FetchOutcome = Body(config: Option<ClientConfig>) | NotFound | Failed

  datatype Network = Network(
    fetch: Url -> FetchOutcome,
    srv: (Service, string) -> seq<HostPort>,
    mx: string -> seq<string>)

  function First<T>(v: seq<T>): Option<T> {
    if v == [] then None else Some(v[0])
  }

  // -------------------------------------------------------------------------
  // One autoconfig document
  // -------------------------------------------------------------------------

  predicate EqText(a: string, b: string) {
    Lower(a) == Lower(b)
  }

  predicate Usable(s: XmlServer, kind: string) {
    EqText(s.kind, kind) && s.hostname.Some? && s.hostname.value != [] && s.port.Some?
  }

  predicate IsSsl(s: XmlServer) {
    s.socketType.Some? && EqText(s.socketType.value, "SSL")
  }

  /** The first usable server, SSL ones only when `ssl`. */
  function FirstUsable(servers: seq<XmlServer>, kind: string, ssl: bool): Option<HostPort> {
    if servers == [] then None
    else if Usable(servers[0], kind) && (ssl ==> IsSsl(servers[0]))
    then Some(HostPort(servers[0].hostname.value, servers[0].port.value))
    else FirstUsable(servers[1..], kind, ssl)
  }

  /** The first SSL server of a kind, else the first of that kind. */
  function PickServer(servers: seq<XmlServer>, kind: string): Option<HostPort> {
    var ssl := FirstUsable(servers, kind, true);
    if ssl.Some? then ssl else FirstUsable(servers, kind, false)
  }

  /** What a fetch contributes. */
  function Found(outcome: FetchOutcome): MailServers {
    match outcome
    case Body(Some(config)) => MailServers(PickServer(config.incoming, "imap"), PickServer(config.outgoing, "smtp"))
    case _ => NOTHING
  }

  /** A pick comes from a usable entry, prefers SSL, and among equals takes the first. */
  lemma {:induction false} FirstUsableMeaning(servers: seq<XmlServer>, kind: string, ssl: bool)
    ensures FirstUsable(servers, kind, ssl).None? <==>
              forall i :: 0 <= i < |servers| ==> !(Usable(servers[i], kind) && (ssl ==> IsSsl(servers[i])))
    ensures FirstUsable(servers, kind, ssl).Some? ==>
              exists i ::
                && 0 <= i < |servers| && Usable(servers[i], kind) && (ssl ==> IsSsl(servers[i]))
                && FirstUsable(servers, kind, ssl).value == HostPort(servers[i].hostname.value, servers[i].port.value)
                && forall j :: 0 <= j < i ==> !(Usable(servers[j], kind) && (ssl ==> IsSsl(servers[j])))
  {
    hide IsSsl;
    if servers != [] {
      FirstUsableMeaning(servers[1..], kind, ssl);
      var rest := servers[1..];
      assert forall i :: 0 < i < |servers| ==> servers[i] == rest[i - 1];
      if !(Usable(servers[0], kind) && (ssl ==> IsSsl(servers[0]))) && FirstUsable(servers, kind, ssl).Some? {
        var i :| 0 <= i < |rest| && Usable(rest[i], kind) && (ssl ==> IsSsl(rest[i]))
                && FirstUsable(rest, kind, ssl).value == HostPort(rest[i].hostname.value, rest[i].port.value)
                && forall j :: 0 <= j < i ==> !(Usable(rest[j], kind) && (ssl ==> IsSsl(rest[j])));
        assert servers[i + 1] == rest[i];
      }
    }
  }

  /** Entry `i` is the one to pick: the first with SSL, and the first at all only when none has SSL. */
  predicate IsPick(servers: seq<XmlServer>, kind: string, i: nat)
    requires i < |servers|
  {
    && Usable(servers[i], kind)
    && (if IsSsl(servers[i]) then forall j :: 0 <= j < i ==> !(Usable(servers[j], kind) && IsSsl(servers[j]))
        else forall j :: 0 <= j < |servers| && Usable(servers[j], kind) ==> j >= i && !IsSsl(servers[j]))
  }

  lemma PickServerMeaning(servers: seq<XmlServer>, kind: string)
    ensures PickServer(servers, kind).None? <==> forall i :: 0 <= i < |servers| ==> !Usable(servers[i], kind)
    ensures PickServer(servers, kind).Some? ==> exists i: nat ::
              && i < |servers| && IsPick(servers, kind, i)
              && PickServer(servers, kind).value == HostPort(servers[i].hostname.value, servers[i].port.value)
  {
    hide IsSsl, FirstUsable;
    FirstUsableMeaning(servers, kind, true);
    FirstUsableMeaning(servers, kind, false);
    var ssl := FirstUsable(servers, kind, true).Some?;
    if PickServer(servers, kind).Some? {
      var i: int :| && 0 <= i < |servers| && Usable(servers[i], kind) && (ssl ==> IsSsl(servers[i]))
        && PickServer(servers, kind).value == HostPort(servers[i].hostname.value, servers[i].port.value)
        && forall j :: 0 <= j < i ==> !(Usable(servers[j], kind) && (ssl ==> IsSsl(servers[j])));
      assert IsPick(servers, kind, i);
    }
  }

  lemma PickIsUnique(servers: seq<XmlServer>, kind: string, i: nat, j: nat)
    requires i < |servers| && j < |servers| && IsPick(servers, kind, i) && IsPick(servers, kind, j)
    ensures i == j
  {
    hide Usable, IsSsl;
  }

  /** `answer` is what a list of servers has for a kind: its pick, or nothing when none of them will do. */
  ghost predicate Offers(servers: seq<XmlServer>, kind: string, answer: Option<HostPort>) {
    match answer
    case None => forall i :: 0 <= i < |servers| ==> !Usable(servers[i], kind)
    case Some(target) =>
      exists i: nat :: i < |servers| && IsPick(servers, kind, i)
        && target == HostPort(servers[i].hostname.value, servers[i].port.value)
  }

  /** A document gives its incoming server for IMAP and its outgoing one for SMTP; anything else gives nothing. */
  ghost predicate Gives(outcome: FetchOutcome, m: MailServers) {
    match outcome
    case Body(Some(config)) => Offers(config.incoming, "imap", m.imapTarget) && Offers(config.outgoing, "smtp", m.smtpTarget)
    case _ => m.imapTarget.None? && m.smtpTarget.None?
  }

  lemma OffersExactly(servers: seq<XmlServer>, kind: string, answer: Option<HostPort>)
    ensures Offers(servers, kind, answer) <==> answer == PickServer(servers, kind)
  {
    hide IsSsl, EqText, PickServer;
    PickServerMeaning(servers, kind);
    assert Offers(servers, kind, PickServer(servers, kind));
    if Offers(servers, kind, answer) {
      OffersOne(servers, kind, answer, PickServer(servers, kind));
    }
  }

  lemma OffersOne(servers: seq<XmlServer>, kind: string, a: Option<HostPort>, b: Option<HostPort>)
    requires Offers(servers, kind, a) && Offers(servers, kind, b)
    ensures a == b
  {
    hide IsSsl, EqText;
    forall i: nat, j: nat | i < |servers| && j < |servers| && IsPick(servers, kind, i) && IsPick(servers, kind, j)
      ensures i == j
    {
      PickIsUnique(servers, kind, i, j);
    }
  }

  lemma FoundExactly(outcome: FetchOutcome, m: MailServers)
    ensures Gives(outcome, m) <==> m == Found(outcome)
  {
    hide Offers, PickServer;
    match outcome
    case Body(Some(config)) =>
      OffersExactly(config.incoming, "imap", m.imapTarget);
      OffersExactly(config.outgoing, "smtp", m.smtpTarget);
    case _ =>
  }

  /** Which entries are looked at: of the kind in any case, with a host and a port; and which of them have SSL. */
  lemma UsableExactly(s: XmlServer, kind: string)
    ensures Usable(s, kind) <==>
              && |s.kind| == |kind| && (forall i :: 0 <= i < |kind| ==> SameLetter(s.kind[i], kind[i]))
              && s.hostname.Some? && |s.hostname.value| > 0 && s.port.Some?
    ensures IsSsl(s) <==>
              && s.socketType.Some? && |s.socketType.value| == 3 && SameLetter(s.socketType.value[0], 'S')
              && SameLetter(s.socketType.value[1], 'S') && SameLetter(s.socketType.value[2], 'L')
  {
    EqTextExactly(s.kind, kind);
    if s.socketType.Some? {
      EqTextExactly(s.socketType.value, "SSL");
    }
  }

  /** The same character, or the two cases of one ASCII letter. */
  predicate SameLetter(a: char, b: char) {
    || a == b
    || ('A' <= a <= 'Z' && b as int == a as int + 32)
    || ('A' <= b <= 'Z' && a as int == b as int + 32)
  }

  lemma EqTextExactly(a: string, b: string)
    ensures EqText(a, b) <==> |a| == |b| && forall i :: 0 <= i < |a| ==> SameLetter(a[i], b[i])
  {
    var x, y := Lower(a), Lower(b);
    if |a| == |b| {
      assert x == y <==> forall i :: 0 <= i < |x| ==> x[i] == y[i];
      assert forall i :: 0 <= i < |a| ==> (x[i] == y[i] <==> SameLetter(a[i], b[i]));
    }
  }

  // -------------------------------------------------------------------------
  // Every source, asked eagerly
  // -------------------------------------------------------------------------

  /** The address is passed on only when it is one. */
  function HttpUrls(domain: string, email: Option<string>): seq<Url> {
    var query := if email.Some? && '@' in email.value then email else None;
    [Provider(domain, query), WellKnown(domain, query), Ispdb(domain)]
  }

  function HttpSources(net: Network, urls: seq<Url>): seq<MailServers> {
    seq(|urls|, i requires 0 <= i < |urls| => Found(net.fetch(urls[i])))
  }

  /** Implicit TLS before the plain services. */
  function SrvSources(net: Network, domain: string): seq<MailServers> {
    [MailServers(First(net.srv(Imaps, domain)), First(net.srv(Submissions, domain))),
     MailServers(First(net.srv(PlainImap, domain)), First(net.srv(Submission, domain)))]
  }

  /** The provider behind the mail exchanger, unless it is the domain itself or not public. */
  function MxDomain(net: Network, domain: string): Option<string> {
    match First(net.mx(domain))
    case None => None
    case Some(exchanger) =>
      var d := RegistrableDomain(exchanger);
      if d == domain || !IsPublicDomain(d) then None else Some(d)
  }

  function MxSources(net: Network, domain: string): seq<MailServers> {
    match MxDomain(net, domain)
    case None => []
    case Some(d) => HttpSources(net, HttpUrls(d, None))
  }

  /** All sources in order of precedence. */
  function Sources(net: Network, domain: string, email: Option<string>): seq<MailServers> {
    HttpSources(net, HttpUrls(domain, email)) + SrvSources(net, domain) + MxSources(net, domain)
  }

  /** For each side, the first source that names it. */
  function FirstNamed(sources: seq<MailServers>): MailServers {
    if sources == [] then NOTHING else sources[0].MergeFrom(FirstNamed(sources[1..]))
  }

  function LadderResult(net: Network, domain: string, email: Option<string>): MailServers {
    FirstNamed(Sources(net, domain, email))
  }

  function OrElse(a: Option<HostPort>, b: Option<HostPort>): Option<HostPort> {
    if a.Some? then a else b
  }

  /**
   The order of precedence, source by source. The address goes along only when it is one, and never
   to the exchanger's provider.
   */
  lemma Precedence(net: Network, domain: string, email: Option<string>)
    ensures var q := if email.Some? && '@' in email.value then email else None;
            var a, b, c :=
              Found(net.fetch(Provider(domain, q))), Found(net.fetch(WellKnown(domain, q))), Found(net.fetch(Ispdb(domain)));
            var imaps, plainImap := net.srv(Imaps, domain), net.srv(PlainImap, domain);
            var submissions, submission := net.srv(Submissions, domain), net.srv(Submission, domain);
            var mx := FirstNamed(MxSources(net, domain));
            var r := LadderResult(net, domain, email);
            && r.imapTarget == OrElse(a.imapTarget, OrElse(b.imapTarget, OrElse(c.imapTarget,
                 if imaps != [] then Some(imaps[0]) else if plainImap != [] then Some(plainImap[0]) else mx.imapTarget)))
            && r.smtpTarget == OrElse(a.smtpTarget, OrElse(b.smtpTarget, OrElse(c.smtpTarget,
                 if submissions != [] then Some(submissions[0])
                 else if submission != [] then Some(submission[0]) else mx.smtpTarget)))
            && mx == (
                 if net.mx(domain) == [] then NOTHING
                 else
                   var d := RegistrableDomain(net.mx(domain)[0]);
                   if d == domain || !IsPublicDomain(d) then NOTHING
                   else Found(net.fetch(Provider(d, None))).MergeFrom(
                          Found(net.fetch(WellKnown(d, None))).MergeFrom(Found(net.fetch(Ispdb(d))))))
  {
    hide Found, RegistrableDomain, IsPublicDomain;
    FirstNamedConcat(HttpSources(net, HttpUrls(domain, email)) + SrvSources(net, domain), MxSources(net, domain));
    FirstNamedConcat(HttpSources(net, HttpUrls(domain, email)), SrvSources(net, domain));
    FirstOfThree(HttpSources(net, HttpUrls(domain, email)));
    assert FirstNamed(HttpSources(net, HttpUrls(domain, email))) ==
      var urls := HttpUrls(domain, email);
      Found(net.fetch(urls[0])).MergeFrom(Found(net.fetch(urls[1])).MergeFrom(Found(net.fetch(urls[2]))));
    var s := SrvSources(net, domain);
    FirstOfTwo(s[0], s[1]);
    assert s == [s[0]] + [s[1]];
    if MxDomain(net, domain).Some? {
      FirstOfThree(MxSources(net, domain));
    }
  }

  /** What the first document gives is final, side by side. */
  lemma FirstDocumentDecides(net: Network, domain: string, email: Option<string>, m: MailServers)
    requires Gives(net.fetch(Provider(domain, if email.Some? && '@' in email.value then email else None)), m)
    ensures m.imapTarget.Some? ==> LadderResult(net, domain, email).imapTarget == m.imapTarget
    ensures m.smtpTarget.Some? ==> LadderResult(net, domain, email).smtpTarget == m.smtpTarget
  {
    hide Gives, Found, LadderResult;
    FoundExactly(net.fetch(Provider(domain, if email.Some? && '@' in email.value then email else None)), m);
    Precedence(net, domain, email);
  }

  lemma FirstOfTwo(a: MailServers, b: MailServers)
    ensures FirstNamed([a]) == a && FirstNamed([a] + [b]) == a.MergeFrom(b)
  {
    assert [a][1..] == [] && [b][1..] == [];
    FirstNamedConcat([a], [b]);
  }

  lemma FirstOfThree(s: seq<MailServers>)
    requires |s| == 3
    ensures FirstNamed(s) == s[0].MergeFrom(s[1].MergeFrom(s[2]))
  {
    FirstOfTwo(s[0], s[1]);
    FirstOfTwo(s[1], s[2]);
    FirstNamedConcat([s[0]], [s[1]] + [s[2]]);
    assert s == [s[0]] + ([s[1]] + [s[2]]);
  }

  predicate IsFirst(sources: seq<MailServers>, side: MailServers -> Option<HostPort>, answer: Option<HostPort>) {
    match answer
    case None => forall i :: 0 <= i < |sources| ==> side(sources[i]).None?
    case Some(_) =>
      exists i :: 0 <= i < |sources| && side(sources[i]) == answer && forall j :: 0 <= j < i ==> side(sources[j]).None?
  }

  /** `FirstNamed` is what its name says, on each side by itself. */
  lemma {:induction false} FirstNamedMeaning(sources: seq<MailServers>)
    ensures IsFirst(sources, (m: MailServers) => m.imapTarget, FirstNamed(sources).imapTarget)
    ensures IsFirst(sources, (m: MailServers) => m.smtpTarget, FirstNamed(sources).smtpTarget)
  {
    if sources != [] {
      FirstNamedMeaning(sources[1..]);
      FirstOfCons(sources, (m: MailServers) => m.imapTarget, FirstNamed(sources[1..]).imapTarget);
      FirstOfCons(sources, (m: MailServers) => m.smtpTarget, FirstNamed(sources[1..]).smtpTarget);
    }
  }

  lemma FirstOfCons(sources: seq<MailServers>, side: MailServers -> Option<HostPort>, rest: Option<HostPort>)
    requires sources != [] && IsFirst(sources[1..], side, rest)
    ensures IsFirst(sources, side, if side(sources[0]).Some? then side(sources[0]) else rest)
  {
    var tail := sources[1..];
    assert forall i :: 0 < i < |sources| ==> sources[i] == tail[i - 1];
    if side(sources[0]).None? && rest.Some? {
      var i :| 0 <= i < |tail| && side(tail[i]) == rest && forall j :: 0 <= j < i ==> side(tail[j]).None?;
      assert side(sources[i + 1]) == rest;
    }
  }

  lemma {:induction false} FirstNamedConcat(a: seq<MailServers>, b: seq<MailServers>)
    ensures FirstNamed(a + b) == FirstNamed(a).MergeFrom(FirstNamed(b))
  {
    if a == [] {
      assert a + b == b;
    } else {
      FirstNamedConcat(a[1..], b);
      assert (a + b)[1..] == a[1..] + b;
    }
  }

  // -------------------------------------------------------------------------
  // The walk, stopping as soon as both sides are known
  // -------------------------------------------------------------------------

  function Fetches(urls: seq<Url>): seq<Query> {
    seq(|urls|, i requires 0 <= i < |urls| => Fetch(urls[i]))
  }

  /** `asked` fetches the URLs in order, each exactly when those before it leave a side open. */
  ghost predicate AskedAsNeeded(net: Network, urls: seq<Url>, asked: seq<Query>) {
    && asked <= Fetches(urls)
    && forall k :: 0 <= k < |urls| ==> (k < |asked| <==> !FirstNamed(HttpSources(net, urls)[..k]).IsComplete())
  }

  /** `asked` is the queries made, in order. */
  method HttpLadder(net: Network, urls: seq<Url>) returns (acc: MailServers, asked: seq<Query>)
    ensures acc == FirstNamed(HttpSources(net, urls))
    ensures AskedAsNeeded(net, urls, asked)
    ensures urls != [] ==> asked != []
  {
    acc, asked := NOTHING, [];
    var all := HttpSources(net, urls);
    for i := 0 to |urls|
      invariant acc == FirstNamed(all[..i])
      invariant asked == Fetches(urls)[..i]
      invariant forall k :: 0 <= k < i ==> !FirstNamed(all[..k]).IsComplete()
    {
      if acc.IsComplete() {
        StaysComplete(all, i);
        break;
      }
      asked := asked + [Fetch(urls[i])];
      acc := acc.MergeFrom(Found(net.fetch(urls[i])));
      assert all[..i + 1] == all[..i] + [all[i]];
      FirstNamedConcat(all[..i], [all[i]]);
    }
    assert all[..|urls|] == all;
  }

  lemma StaysComplete(all: seq<MailServers>, i: nat)
    requires i <= |all| && FirstNamed(all[..i]).IsComplete()
    ensures FirstNamed(all) == FirstNamed(all[..i])
    ensures forall k :: i <= k <= |all| ==> FirstNamed(all[..k]).IsComplete()
  {
    forall k | i <= k <= |all| ensures FirstNamed(all[..k]) == FirstNamed(all[..i]) {
      assert all[..k] == all[..i] + all[i..k];
      FirstNamedConcat(all[..i], all[i..k]);
    }
    assert all[..|all|] == all;
  }

  /** A plain service is asked for exactly when the implicit-TLS one has no record. */
  predicate SrvAsNeeded(net: Network, domain: string, asked: seq<Query>) {
    && 2 <= |asked| <= 4 && NoRepeats(asked)
    && (forall i :: 0 <= i < |asked| ==> asked[i].Srv? && asked[i].domain == domain)
    && Srv(Imaps, domain) in asked && Srv(Submissions, domain) in asked
    && (Srv(PlainImap, domain) in asked <==> net.srv(Imaps, domain) == [])
    && (Srv(Submission, domain) in asked <==> net.srv(Submissions, domain) == [])
  }

  method SrvLookup(net: Network, domain: string) returns (r: MailServers, asked: seq<Query>)
    ensures r == FirstNamed(SrvSources(net, domain))
    ensures SrvAsNeeded(net, domain, asked) && asked != []
  {
    asked := [Srv(Imaps, domain)];
    var imapTarget := First(net.srv(Imaps, domain));
    if imapTarget.None? {
      asked := asked + [Srv(PlainImap, domain)];
      imapTarget := First(net.srv(PlainImap, domain));
    }
    asked := asked + [Srv(Submissions, domain)];
    var smtpTarget := First(net.srv(Submissions, domain));
    if smtpTarget.None? {
      asked := asked + [Srv(Submission, domain)];
      smtpTarget := First(net.srv(Submission, domain));
    }
    r := MailServers(imapTarget, smtpTarget);
    var s := SrvSources(net, domain);
    assert s[1..][1..] == [];
    assert FirstNamed(s[1..]) == s[1].MergeFrom(NOTHING);
  }

  method MxAutoconfig(net: Network, domain: string) returns (r: MailServers, asked: seq<Query>)
    ensures r == FirstNamed(MxSources(net, domain))
    ensures asked != [] && asked[0] == Mx(domain)
    ensures MxDomain(net, domain).None? <==> asked == [Mx(domain)]
    ensures MxDomain(net, domain).Some? ==>
              AskedAsNeeded(net, HttpUrls(MxDomain(net, domain).value, None), asked[1..])
  {
    hide AskedAsNeeded, HttpSources, HttpUrls, IsPublicDomain, RegistrableDomain;
    asked := [Mx(domain)];
    var exchanger := First(net.mx(domain));
    if exchanger.None? {
      return NOTHING, asked;
    }
    var mxDomain := RegistrableDomain(exchanger.value);
    if mxDomain == domain || !IsPublicDomain(mxDomain) {
      return NOTHING, asked;
    }
    var more;
    r, more := HttpLadder(net, HttpUrls(mxDomain, None));
    ThreeUrls(mxDomain);
    asked := asked + more;
    assert asked[1..] == more;
  }

  predicate NoRepeats(asked: seq<Query>) {
    forall i, j :: 0 <= i < j < |asked| ==> asked[i] != asked[j]
  }

  /** The queries of one walk, rung by rung; a rung is skipped exactly when both sides are known by then. */
  ghost predicate IsWalk(net: Network, domain: string, email: Option<string>, asked: seq<Query>,
                         http: seq<Query>, srv: seq<Query>, mx: seq<Query>) {
    && asked == http + srv + mx
    && AskedAsNeeded(net, HttpUrls(domain, email), http)
    && (srv == [] <==> FirstNamed(HttpSources(net, HttpUrls(domain, email))).IsComplete())
    && (srv != [] ==> SrvAsNeeded(net, domain, srv))
    && (mx == [] <==> FirstNamed(HttpSources(net, HttpUrls(domain, email)) + SrvSources(net, domain)).IsComplete())
    && (mx == [] || mx[0] == Mx(domain))
    && (mx != [] ==> (|mx| > 1 <==> MxDomain(net, domain).Some?))
    && (|mx| > 1 ==> AskedAsNeeded(net, HttpUrls(MxDomain(net, domain).value, None), mx[1..]))
  }

  ghost predicate Walked(net: Network, domain: string, email: Option<string>, asked: seq<Query>) {
    exists http, srv, mx :: IsWalk(net, domain, email, asked, http, srv, mx)
  }

  datatype Kind = FetchKind | SrvKind | MxKind

  function KindOf(q: Query): Kind {
    match q
    case Fetch(_) => FetchKind
    case Srv(_, _) => SrvKind
    case Mx(_) => MxKind
  }

  function CountKind(asked: seq<Query>, kind: Kind): nat {
    if asked == [] then 0
    else CountKind(asked[1..], kind) + if KindOf(asked[0]) == kind then 1 else 0
  }

  lemma {:induction false} CountConcat(a: seq<Query>, b: seq<Query>, kind: Kind)
    ensures CountKind(a + b, kind) == CountKind(a, kind) + CountKind(b, kind)
  {
    if a == [] {
      assert a + b == b;
    } else {
      assert (a + b)[1..] == a[1..] + b;
      CountConcat(a[1..], b, kind);
    }
  }

  lemma {:induction false} CountAtMost(a: seq<Query>, kind: Kind)
    ensures CountKind(a, kind) <= |a|
    ensures (forall i :: 0 <= i < |a| ==> KindOf(a[i]) != kind) ==> CountKind(a, kind) == 0
  {
    if a != [] {
      CountAtMost(a[1..], kind);
      assert forall i :: 0 < i < |a| ==> a[i] == a[1..][i - 1];
    }
  }

  /**
   One walk makes at most 6 fetches, 4 SRV lookups and 1 MX lookup, none of them twice, and
   the address goes to no domain but the one it belongs to.
   */
  lemma WalkIsBounded(net: Network, domain: string, email: Option<string>, asked: seq<Query>)
    requires Walked(net, domain, email, asked)
    ensures CountKind(asked, FetchKind) <= 6 && CountKind(asked, SrvKind) <= 4 && CountKind(asked, MxKind) <= 1
    ensures NoRepeats(asked)
    ensures forall i :: 0 <= i < |asked| ==> IsDiscreet(domain, asked, i)
  {
    var http, srv, mx :| IsWalk(net, domain, email, asked, http, srv, mx);
    WalkCounts(net, domain, email, asked, http, srv, mx);
    WalkHasNoRepeats(net, domain, email, asked, http, srv, mx);
    forall i | 0 <= i < |asked| ensures IsDiscreet(domain, asked, i) {
      WalkIsDiscreet(net, domain, email, asked, http, srv, mx, i);
    }
  }

  /**
   Until the MX lookup every fetch is for the domain itself; after it, for a public domain other
   than it, and without the address.
   */
  predicate IsDiscreet(domain: string, asked: seq<Query>, i: nat)
    requires i < |asked|
  {
    asked[i].Fetch? ==>
      var url := asked[i].url;
      if exists m :: 0 <= m < i && asked[m].Mx? then
        url.domain != domain && IsPublicDomain(url.domain) && (url.Ispdb? || url.email.None?)
      else url.domain == domain
  }

  lemma WalkIsDiscreet(net: Network, domain: string, email: Option<string>, asked: seq<Query>,
                       http: seq<Query>, srv: seq<Query>, mx: seq<Query>, i: nat)
    requires IsWalk(net, domain, email, asked, http, srv, mx) && i < |asked|
    ensures IsDiscreet(domain, asked, i)
  {
    hide IsPublicDomain, RegistrableDomain;
    HttpPrefix(HttpUrls(domain, email), domain, http);
    if i < |http| {
      assert forall m :: 0 <= m <= i ==> asked[m] == http[m];
    } else if i < |http| + |srv| {
      assert asked[i] == srv[i - |http|];
    } else {
      var k := i - |http| - |srv|;
      assert asked[i] == mx[k];
      if k > 0 {
        assert mx[k] == mx[1..][k - 1];
        assert asked[i - k] == mx[0];
      }
    }
  }

  lemma WalkCounts(net: Network, domain: string, email: Option<string>, asked: seq<Query>,
                   http: seq<Query>, srv: seq<Query>, mx: seq<Query>)
    requires IsWalk(net, domain, email, asked, http, srv, mx)
    ensures CountKind(asked, FetchKind) <= 6 && CountKind(asked, SrvKind) <= 4 && CountKind(asked, MxKind) <= 1
  {
    hide MxDomain;
    forall kind: Kind ensures CountKind(asked, kind) <=
        (if kind == FetchKind then 6 else if kind == SrvKind then 4 else 1) {
      CountConcat(http + srv, mx, kind);
      CountConcat(http, srv, kind);
      CountAtMost(http, kind);
      CountAtMost(srv, kind);
      if mx != [] {
        CountAtMost(mx[1..], kind);
      }
    }
  }

  lemma HttpPrefix(urls: seq<Url>, domain: string, asked: seq<Query>)
    requires asked <= Fetches(urls)
    requires exists email :: urls == HttpUrls(domain, email)
    ensures forall i :: 0 <= i < |asked| ==> asked[i].Fetch? && asked[i].url.domain == domain
    ensures NoRepeats(asked)
  {
  }

  lemma NoRepeatsConcat(a: seq<Query>, b: seq<Query>)
    requires NoRepeats(a) && NoRepeats(b)
    requires forall i, j :: 0 <= i < |a| && 0 <= j < |b| ==> a[i] != b[j]
    ensures NoRepeats(a + b)
  {
  }

  lemma WalkHasNoRepeats(net: Network, domain: string, email: Option<string>, asked: seq<Query>,
                         http: seq<Query>, srv: seq<Query>, mx: seq<Query>)
    requires IsWalk(net, domain, email, asked, http, srv, mx)
    ensures NoRepeats(asked)
  {
    hide IsPublicDomain, HttpUrls, RegistrableDomain;
    HttpPrefix(HttpUrls(domain, email), domain, http);
    NoRepeatsConcat(http, srv);
    if |mx| > 1 {
      var d := MxDomain(net, domain).value;
      HttpPrefix(HttpUrls(d, None), d, mx[1..]);
      assert mx == [mx[0]] + mx[1..];
      NoRepeatsConcat([mx[0]], mx[1..]);
      assert forall j :: 1 <= j < |mx| ==> mx[j] == mx[1..][j - 1];
    }
    assert forall j :: 0 <= j < |mx| ==> mx[j].Mx? || (mx[j].Fetch? && mx[j].url.domain != domain);
    NoRepeatsConcat(http + srv, mx);
  }

  /** Stopping early gives the same answer as asking every source. */
  method RunLadder(net: Network, domain: string, email: Option<string>)
    returns (acc: MailServers, asked: seq<Query>)
    ensures acc == LadderResult(net, domain, email)
    ensures Walked(net, domain, email, asked)
  {
    hide AskedAsNeeded, SrvAsNeeded, MxDomain, HttpUrls, HttpSources, SrvSources, MxSources, FirstNamed;
    var http := HttpSources(net, HttpUrls(domain, email));
    var srv := SrvSources(net, domain);
    FirstNamedConcat(http + srv, MxSources(net, domain));
    FirstNamedConcat(http, srv);

    var askedHttp, askedSrv, askedMx: seq<Query> := [], [], [];
    acc, askedHttp := HttpLadder(net, HttpUrls(domain, email));
    if !acc.IsComplete() {
      var found;
      found, askedSrv := SrvLookup(net, domain);
      acc := acc.MergeFrom(found);
    }
    if !acc.IsComplete() {
      var found;
      found, askedMx := MxAutoconfig(net, domain);
      acc := acc.MergeFrom(found);
    }
    asked := askedHttp + askedSrv + askedMx;
    assert IsWalk(net, domain, email, asked, askedHttp, askedSrv, askedMx);
  }

  // -------------------------------------------------------------------------
  // There is always a walk
  // -------------------------------------------------------------------------

  lemma SomeFetches(net: Network, urls: seq<Url>) returns (asked: seq<Query>)
    ensures AskedAsNeeded(net, urls, asked) && (urls != [] ==> asked != [])
  {
    var all, k := HttpSources(net, urls), 0;
    while k < |urls| && !FirstNamed(all[..k]).IsComplete()
      invariant k <= |urls| && forall j :: 0 <= j < k ==> !FirstNamed(all[..j]).IsComplete()
    {
      k := k + 1;
    }
    if k < |urls| {
      StaysComplete(all, k);
    }
    asked := Fetches(urls)[..k];
  }

  lemma SomeLookups(net: Network, domain: string) returns (asked: seq<Query>)
    ensures SrvAsNeeded(net, domain, asked)
  {
    asked := [Srv(Imaps, domain), Srv(Submissions, domain)]
      + (if net.srv(Imaps, domain) == [] then [Srv(PlainImap, domain)] else [])
      + (if net.srv(Submissions, domain) == [] then [Srv(Submission, domain)] else []);
    assert asked[0] == Srv(Imaps, domain) && asked[1] == Srv(Submissions, domain);
    assert net.srv(Imaps, domain) == [] ==> asked[2] == Srv(PlainImap, domain);
    assert net.srv(Submissions, domain) == [] ==> asked[|asked| - 1] == Srv(Submission, domain);
  }

  /** Every network, domain and address allows a walk. */
  lemma SomeWalk(net: Network, domain: string, email: Option<string>) returns (asked: seq<Query>)
    ensures Walked(net, domain, email, asked)
  {
    hide AskedAsNeeded, SrvAsNeeded, MxDomain, HttpUrls, FirstNamed;
    var http := SomeFetches(net, HttpUrls(domain, email));
    var srv, mx: seq<Query> := [], [];
    if !FirstNamed(HttpSources(net, HttpUrls(domain, email))).IsComplete() {
      srv := SomeLookups(net, domain);
      assert srv != [] by {
        LookupsAreMade(net, domain, srv);
      }
    }
    if !FirstNamed(HttpSources(net, HttpUrls(domain, email)) + SrvSources(net, domain)).IsComplete() {
      mx := [Mx(domain)];
      if MxDomain(net, domain).Some? {
        var d := MxDomain(net, domain).value;
        var more := SomeFetches(net, HttpUrls(d, None));
        ThreeUrls(d);
        mx := mx + more;
        assert mx[1..] == more;
      }
    }
    asked := http + srv + mx;
    assert IsWalk(net, domain, email, asked, http, srv, mx);
  }

  lemma LookupsAreMade(net: Network, domain: string, asked: seq<Query>)
    ensures SrvAsNeeded(net, domain, asked) ==> asked != []
  {
  }

  lemma ThreeUrls(domain: string)
    ensures HttpUrls(domain, None) != []
  {
  }
}
