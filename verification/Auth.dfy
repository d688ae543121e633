/** The mailbox headers: the `Basic` pair, `host:port` targets, and the credential they resolve to. */
module Auth {
  import opened Credentials
  import opened Wrappers
  import opened Text
  import opened Autoconfig
  import opened AutoconfigCache
  import opened Endpoint
  import Base64
  import Utf8

  // -------------------------------------------------------------------------
  // X-Mailbox-Auth
  // -------------------------------------------------------------------------

  predicate IsNewline(c: char) {
    c == '\r' || c == '\n'
  }

  predicate AllNewlines(s: string) {
    forall i :: 0 <= i < |s| ==> IsNewline(s[i])
  }

  /** `trim_end_matches(['\r', '\n'])`. */
  function TrimNewlines(s: string): (r: string)
    ensures r != [] ==> !IsNewline(r[|r| - 1])
    ensures r <= s && AllNewlines(s[|r|..])
  {
    if s != [] && IsNewline(s[|s| - 1]) then TrimNewlines(s[..|s| - 1]) else s
  }

  /** The base64 part of the header. */
  function StripScheme(value: string): Option<string> {
    if "Basic " <= value || "basic " <= value then Some(value[6..]) else None
  }

  /** Every failure is the same `BadRequest`, which names no part of the value. */
  function ParseBasic(value: string): Option<(string, string)> {
    match StripScheme(value)
    case None => None
    case Some(rest) =>
      match Base64.Decode(Utf8.Encode(Trim(rest)))
      case None => None
      case Some(bytes) =>
        match Utf8.Decode(bytes)
        case None => None
        case Some(decoded) =>
          match SplitOnce(TrimNewlines(decoded), ':')
          case None => None
          case Some((user, pass)) => if user == [] then None else Some((user, pass))
  }

  /** ASCII octets as text. */
  function AsText(bytes: seq<Byte>): string {
    seq(|bytes|, i requires 0 <= i < |bytes| => bytes[i] as char)
  }

  /** The text whose base64 decoding is `s`. */
  function Armour(s: string): string {
    AsText(Base64.Encode(Utf8.Encode(s)))
  }

  predicate Graphic(bytes: seq<Byte>) {
    forall i :: 0 <= i < |bytes| ==> 0x21 <= bytes[i] < 0x7f
  }

  lemma QuadIsGraphic(x: Byte, y: Byte, z: Byte)
    ensures Graphic(Base64.EncodeQuad(x, y, z))
  {
  }

  lemma {:induction false} EncodedIsGraphic(bytes: seq<Byte>)
    ensures Graphic(Base64.Encode(bytes))
  {
    hide Base64.EncodeQuad;
    if 1 <= |bytes| <= 2 {
      QuadIsGraphic(bytes[0], if |bytes| == 2 then bytes[1] else 0, 0);
    } else if |bytes| >= 3 {
      QuadIsGraphic(bytes[0], bytes[1], bytes[2]);
      EncodedIsGraphic(bytes[3..]);
    }
  }

  /** Text is an armour exactly when its octets are that encoding. */
  lemma ArmourOctets(text: string, bytes: seq<Byte>)
    ensures Utf8.Encode(text) == Base64.Encode(bytes) <==> text == AsText(Base64.Encode(bytes))
    ensures var t := AsText(Base64.Encode(bytes)); Trimmed(t)
  {
    hide Base64.Encode, Utf8.Encode, Utf8.Decode;
    var e := Base64.Encode(bytes);
    EncodedIsGraphic(bytes);
    Utf8.EncodeAscii(AsText(e));
    assert Utf8.Encode(AsText(e)) == e;
    Utf8.DecodeEncode(text);
    Utf8.DecodeEncode(AsText(e));
  }

  /** A user and password that `Basic` can carry here. */
  predicate Carriable(user: string, pass: string) {
    user != [] && ':' !in user && (pass != [] ==> pass[|pass| - 1] != '\r' && pass[|pass| - 1] != '\n')
  }

  lemma {:induction false} TrimNewlinesCore(core: string, after: string)
    requires AllNewlines(after) && (core != [] ==> !IsNewline(core[|core| - 1]))
    ensures TrimNewlines(core + after) == core
  {
    if after == [] {
      assert core + after == core;
    } else {
      var n := |after| - 1;
      assert (core + after)[..|core| + n] == core + after[..n];
      TrimNewlinesCore(core, after[..n]);
    }
  }

  /** What the decoded text must be. */
  lemma PairReadsBack(decoded: string, user: string, pass: string)
    ensures (SplitOnce(TrimNewlines(decoded), ':') == Some((user, pass)) && user != []) <==>
              Carriable(user, pass) && exists after :: AllNewlines(after) && decoded == user + ":" + pass + after
  {
    var pair := user + ":" + pass;
    assert pass != [] ==> pair[|pair| - 1] == pass[|pass| - 1];
    assert pass == [] ==> pair[|pair| - 1] == ':';
    if SplitOnce(TrimNewlines(decoded), ':') == Some((user, pass)) {
      var trimmed := TrimNewlines(decoded);
      assert decoded == trimmed + decoded[|trimmed|..];
      assert trimmed == pair;
    }
    forall after | Carriable(user, pass) && AllNewlines(after) && decoded == user + ":" + pass + after
      ensures SplitOnce(TrimNewlines(decoded), ':') == Some((user, pass))
    {
      TrimNewlinesCore(pair, after);
      SplitOnceUnique(user, ':', pass);
    }
  }

  /** `value` spells the pair: a scheme, white space, the encoded pair and any newlines, white space. */
  ghost predicate Spells(value: string, user: string, pass: string,
                         scheme: string, before: string, newlines: string, after: string) {
    && scheme in ["Basic ", "basic "]
    && AllWhitespace(before) && AllWhitespace(after)
    && (forall i :: 0 <= i < |newlines| ==> newlines[i] == '\r' || newlines[i] == '\n')
    && value == scheme + (before + Armour(user + ":" + pass + newlines) + after)
  }

  /** The steps from the stripped header to the text it hides. */
  lemma ArmourReadsBack(rest: string, decoded: string)
    requires decoded != []
    ensures (var octets := Base64.Decode(Utf8.Encode(Trim(rest)));
             octets.Some? && Utf8.Decode(octets.value) == Some(decoded)) <==>
              exists before, after ::
                AllWhitespace(before) && AllWhitespace(after) && rest == before + Armour(decoded) + after
  {
    hide Base64.Decode, Base64.Encode, Utf8.Encode, Utf8.Decode, AllWhitespace, Trim;
    var bytes := Utf8.Encode(decoded);
    Utf8.DecodeEncode(decoded);
    Base64.DecodeIff(Utf8.Encode(Trim(rest)), bytes);
    ArmourOctets(Trim(rest), bytes);
    ArmourIsNotEmpty(decoded);
    var before, after := TrimSplits(rest);
    forall b, a | AllWhitespace(b) && AllWhitespace(a) && rest == b + Armour(decoded) + a
      ensures Trim(rest) == Armour(decoded)
    {
      TrimCore(b, Armour(decoded), a);
    }
  }

  lemma ArmourIsNotEmpty(decoded: string)
    ensures decoded != [] ==> Armour(decoded) != []
  {
  }

  /**
   `parse_basic` accepts exactly the spellings of a carriable pair, and reads that pair from each:
   whatever white space surrounds the encoding and whatever newlines end the credential.
   */
  lemma BasicReadsBack(value: string, user: string, pass: string)
    ensures ParseBasic(value) == Some((user, pass)) <==>
              Carriable(user, pass) && exists scheme, before, newlines, after ::
                Spells(value, user, pass, scheme, before, newlines, after)
  {
    hide Base64.Decode, Utf8.Encode, Utf8.Decode, AllWhitespace, Trim, TrimNewlines, Armour;
    if ParseBasic(value) == Some((user, pass)) {
      BasicIsSpelled(value, user, pass);
    }
    forall scheme, before, newlines, after |
      Carriable(user, pass) && Spells(value, user, pass, scheme, before, newlines, after)
      ensures ParseBasic(value) == Some((user, pass))
    {
      SpelledIsBasic(value, user, pass, scheme, before, newlines, after);
    }
  }

  lemma BasicIsSpelled(value: string, user: string, pass: string)
    requires ParseBasic(value) == Some((user, pass))
    ensures Carriable(user, pass)
    ensures exists scheme, before, newlines, after :: Spells(value, user, pass, scheme, before, newlines, after)
  {
    hide Base64.Decode, Utf8.Encode, Utf8.Decode, AllWhitespace, Trim, TrimNewlines, Armour, SplitOnce, Carriable;
    var rest := StripScheme(value).value;
    var decoded := Utf8.Decode(Base64.Decode(Utf8.Encode(Trim(rest))).value).value;
    PairReadsBack(decoded, user, pass);
    var newlines :| AllNewlines(newlines) && decoded == user + ":" + pass + newlines;
    ArmourReadsBack(rest, decoded);
    var before, after :| AllWhitespace(before) && AllWhitespace(after) && rest == before + Armour(decoded) + after;
    var scheme := if "Basic " <= value then "Basic " else "basic ";
    assert value == scheme + rest;
    assert Spells(value, user, pass, scheme, before, newlines, after);
  }

  lemma SpelledIsBasic(value: string, user: string, pass: string,
                       scheme: string, before: string, newlines: string, after: string)
    requires Carriable(user, pass) && Spells(value, user, pass, scheme, before, newlines, after)
    ensures ParseBasic(value) == Some((user, pass))
  {
    hide Base64.Decode, Utf8.Encode, Utf8.Decode, AllWhitespace, Trim, TrimNewlines, Armour;
    var decoded := user + ":" + pass + newlines;
    var rest := before + Armour(decoded) + after;
    assert StripScheme(value) == Some(rest) by {
      assert value[..6] == scheme && value[6..] == rest;
    }
    ArmourReadsBack(rest, decoded);
    PairReadsBack(decoded, user, pass);
  }

  // -------------------------------------------------------------------------
  // X-Mailbox-Imap and X-Mailbox-Smtp
  // -------------------------------------------------------------------------

  const PORT_MAX: nat := 65535

  datatype TargetError = NotHostPort | MissingHost | InvalidPort

  function ParseTarget(raw: string): Result<HostPort, TargetError> {
    match RSplitOnce(Trim(raw), ':')
    case None => Err(NotHostPort)
    case Some((host, port)) =>
      if host == [] then Err(MissingHost)
      else match ParseUint(port, PORT_MAX)
        case None => Err(InvalidPort)
        case Some(n) => Ok(HostPort(host, n))
  }

  function Print(host: string, zeros: string, port: nat): string {
    host + ":" + (zeros + Decimal(port))
  }

  /** A printed target, however its port is padded, and for any number and any host. */
  lemma PrintedTargetReadsBack(host: string, zeros: string, port: nat)
    requires forall i :: 0 <= i < |zeros| ==> zeros[i] == '0'
    ensures ParseTarget(Print(host, zeros, port)) ==
              if TrimStart(host) == [] then Err(MissingHost)
              else if port > 65535 then Err(InvalidPort)
              else Ok(HostPort(TrimStart(host), port))
  {
    hide Decimal, Value, ParseUint;
    var digits := zeros + Decimal(port);
    ParsePadded(zeros, port, PORT_MAX);
    TrimPrinted(host, digits);
    assert ':' !in digits;
    RSplitOnceUnique(TrimStart(host), ':', digits);
  }

  lemma TrimPrinted(host: string, digits: string)
    requires digits != [] && AllDigits(digits)
    ensures Trim(host + ":" + digits) == TrimStart(host) + ":" + digits
  {
    var n := Leading(host);
    var core := host[n..] + ":" + digits;
    assert host + ":" + digits == host[..n] + core + [];
    assert core[0] == if n < |host| then host[n] else ':';
    assert core[|core| - 1] == digits[|digits| - 1];
    TrimCore(host[..n], core, []);
  }

  /** A target is accepted exactly when it is a host, a colon and a port that fits, within white space. */
  lemma TargetsAccepted(raw: string, target: HostPort)
    ensures ParseTarget(raw) == Ok(target) <==>
              && target.host != [] && !IsWhitespace(target.host[0])
              && exists before, digits, after :: SpellsTarget(raw, target, before, digits, after)
  {
    hide Trim, ParseUint;
    var t := Trim(raw);
    if ParseTarget(raw) == Ok(target) {
      var before, after := TrimSplits(raw);
      var digits := RSplitOnce(t, ':').value.1;
      assert t == target.host + ":" + digits && t[0] == target.host[0];
      assert SpellsTarget(raw, target, before, digits, after);
    }
    forall before, digits, after |
      target.host != [] && !IsWhitespace(target.host[0]) && SpellsTarget(raw, target, before, digits, after)
      ensures ParseTarget(raw) == Ok(target)
    {
      SpelledTarget(raw, target, before, digits, after);
    }
  }

  ghost predicate SpellsTarget(raw: string, target: HostPort, before: string, digits: string, after: string) {
    && AllWhitespace(before) && AllWhitespace(after)
    && ParseUint(digits, PORT_MAX) == Some(target.port)
    && raw == before + (target.host + ":" + digits) + after
  }

  lemma SpelledTarget(raw: string, target: HostPort, before: string, digits: string, after: string)
    requires target.host != [] && !IsWhitespace(target.host[0]) && SpellsTarget(raw, target, before, digits, after)
    ensures ParseTarget(raw) == Ok(target)
  {
    hide Value;
    var core := target.host + ":" + digits;
    assert core[|core| - 1] == digits[|digits| - 1] && IsAsciiDigit(digits[|digits| - 1]);
    TrimCore(before, core, after);
    assert ':' !in digits;
    RSplitOnceUnique(target.host, ':', digits);
  }

  // -------------------------------------------------------------------------
  // From headers to a credential
  // -------------------------------------------------------------------------

  const H_IMAP := "X-Mailbox-Imap"
  const H_SMTP := "X-Mailbox-Smtp"
  const DERIVED_IMAP := "autoconfigured IMAP"
  const DERIVED_SMTP := "autoconfigured SMTP"

  /** The headers as text. (One that is not ASCII is refused before any of this.) */
  datatype Headers = Headers(auth: Option<string>, imapTarget: Option<string>, smtpTarget: Option<string>, domain: Option<string>)

  datatype Inline = Inline(username: string, password: string,
                           imapTarget: Option<HostPort>, smtpTarget: Option<HostPort>, domain: Option<string>)

  datatype AuthError =
    | MissingAuth
    | MalformedAuth
    | BadTarget(header: string, error: TargetError)
    | MissingTarget
    | NoDomain
    | AutoconfigFailed(cause: ResolveError)
    | NoImapEndpoint(domain: string)
    | NoSmtpEndpoint(domain: string)
    | Refused(refusal: Refusal)

  /** The resolver as the credential sees it. */
  datatype Resolver = Resolver(enabled: bool, resolve: (string, Option<string>) -> Answer)

  function OptionalTarget(header: string, raw: Option<string>): Result<Option<HostPort>, AuthError> {
    match raw
    case None => Ok(None)
    case Some(text) =>
      match ParseTarget(text)
      case Ok(target) => Ok(Some(target))
      case Err(e) => Err(BadTarget(header, e))
  }

  function ParseHeaders(h: Headers): Result<Inline, AuthError> {
    if h.auth.None? then Err(MissingAuth)
    else match ParseBasic(h.auth.value)
      case None => Err(MalformedAuth)
      case Some((user, pass)) =>
        match OptionalTarget(H_IMAP, h.imapTarget)
        case Err(e) => Err(e)
        case Ok(imapTarget) =>
          match OptionalTarget(H_SMTP, h.smtpTarget)
          case Err(e) => Err(e)
          case Ok(smtpTarget) =>
            var named := if h.domain.Some? then Lower(Trim(h.domain.value)) else [];
            Ok(Inline(user, pass, imapTarget, smtpTarget, if named == [] then None else Some(named)))
  }

  predicate Printable(target: Option<HostPort>) {
    target.Some? ==>
      target.value.host != [] && !IsWhitespace(target.value.host[0]) && target.value.port <= PORT_MAX
  }

  function PrintTarget(target: Option<HostPort>): Option<string> {
    if target.Some? then Some(Print(target.value.host, "", target.value.port)) else None
  }

  /** Headers written out for a login, its targets and its domain are read back as those. */
  lemma HeadersReadBack(h: Inline)
    requires Carriable(h.username, h.password) && Printable(h.imapTarget) && Printable(h.smtpTarget)
    requires h.domain.Some? ==> Trimmed(h.domain.value) && Lower(h.domain.value) == h.domain.value != []
    ensures var basic := "Basic " + Armour(h.username + ":" + h.password);
            ParseHeaders(Headers(Some(basic), PrintTarget(h.imapTarget), PrintTarget(h.smtpTarget), h.domain)) == Ok(h)
  {
    hide ParseBasic, Armour, ParseTarget, Print, Trim, Lower;
    var basic := "Basic " + Armour(h.username + ":" + h.password);
    assert h.username + ":" + h.password + "" == h.username + ":" + h.password;
    assert basic == "Basic " + ("" + Armour(h.username + ":" + h.password + "") + "");
    assert Spells(basic, h.username, h.password, "Basic ", "", "", "");
    BasicReadsBack(basic, h.username, h.password);
    if h.imapTarget.Some? {
      PrintedBack(h.imapTarget.value);
    }
    if h.smtpTarget.Some? {
      PrintedBack(h.smtpTarget.value);
    }
    if h.domain.Some? {
      TrimFixpoint(h.domain.value);
    }
  }

  lemma PrintedBack(target: HostPort)
    requires Printable(Some(target))
    ensures ParseTarget(Print(target.host, "", target.port)) == Ok(target)
  {
    hide ParseTarget, Print;
    assert Leading(target.host) == 0 && TrimStart(target.host) == target.host;
    PrintedTargetReadsBack(target.host, "", target.port);
  }

  /** The header's domain, else what follows the last `@` of the login. */
  function AutoconfigDomain(h: Inline): Option<string> {
    if h.domain.Some? then h.domain
    else match RSplitOnce(h.username, '@')
      case None => None
      case Some((_, d)) => if d == [] then None else Some(Lower(d))
  }

  function EmailFor(h: Inline): Option<string> {
    if '@' in h.username then Some(h.username)
    else if h.domain.Some? then Some(h.username + "@" + h.domain.value)
    else None
  }

  /** Both targets past the guard, the IMAP one first. */
  function Vet(guard: Guard, h: Inline, imapTarget: HostPort, smtpTarget: HostPort): Result<Credential, AuthError> {
    match Check(guard, if h.imapTarget.Some? then H_IMAP else DERIVED_IMAP, imapTarget)
    case Some(refusal) => Err(Refused(refusal))
    case None =>
      match Check(guard, if h.smtpTarget.Some? then H_SMTP else DERIVED_SMTP, smtpTarget)
      case Some(refusal) => Err(Refused(refusal))
      case None => Ok(Credential(h.username, h.password, imapTarget, smtpTarget))
  }

  function IntoCredential(h: Inline, resolver: Resolver, guard: Guard): Result<Credential, AuthError> {
    if h.imapTarget.Some? && h.smtpTarget.Some? then Vet(guard, h, h.imapTarget.value, h.smtpTarget.value)
    else if !resolver.enabled then Err(MissingTarget)
    else match AutoconfigDomain(h)
      case None => Err(NoDomain)
      case Some(domain) =>
        match resolver.resolve(domain, EmailFor(h))
        case Err(e) => Err(AutoconfigFailed(e))
        case Ok(servers) =>
          var imapTarget := if h.imapTarget.Some? then h.imapTarget else servers.imapTarget;
          var smtpTarget := if h.smtpTarget.Some? then h.smtpTarget else servers.smtpTarget;
          if imapTarget.None? then Err(NoImapEndpoint(domain))
          else if smtpTarget.None? then Err(NoSmtpEndpoint(domain))
          else Vet(guard, h, imapTarget.value, smtpTarget.value)
  }

  /** What an enabled guard lets a target stand for: some address, and public ones only. */
  predicate Dialable(guard: Guard, target: HostPort) {
    guard.enabled ==>
      var answers := Answers(guard, Bare(Host(target)));
      answers.Some? && answers.value != [] && AllPublic(answers.value)
  }

  /** The two targets a credential is to have, one side at a time; `None` when one cannot be had. */
  function Wanted(h: Inline, resolver: Resolver): Option<(HostPort, HostPort)> {
    if h.imapTarget.Some? && h.smtpTarget.Some? then Some((h.imapTarget.value, h.smtpTarget.value))
    else if !resolver.enabled || AutoconfigDomain(h).None? then None
    else match resolver.resolve(AutoconfigDomain(h).value, EmailFor(h))
      case Err(_) => None
      case Ok(found) =>
        match MailServers(h.imapTarget, h.smtpTarget).MergeFrom(found)
        case MailServers(Some(imapTarget), Some(smtpTarget)) => Some((imapTarget, smtpTarget))
        case _ => None
  }

  /**
   A credential comes out exactly when both targets can be had, from the headers first and the
   ladder for the rest, and both may be dialled; it then holds those targets and the login as given.
   */
  lemma CredentialExactly(h: Inline, resolver: Resolver, guard: Guard, c: Credential)
    ensures IntoCredential(h, resolver, guard) == Ok(c) <==>
              && c.username == h.username && c.password == h.password
              && Wanted(h, resolver) == Some((c.imapTarget, c.smtpTarget))
              && Dialable(guard, c.imapTarget) && Dialable(guard, c.smtpTarget)
  {
    hide Check, AllPublic, Answers, Bare, Host, AutoconfigDomain, EmailFor;
    VetMeaning(guard, h, c.imapTarget, c.smtpTarget);
  }

  lemma VetMeaning(guard: Guard, h: Inline, imapTarget: HostPort, smtpTarget: HostPort)
    ensures Vet(guard, h, imapTarget, smtpTarget) == Ok(Credential(h.username, h.password, imapTarget, smtpTarget)) <==>
              Dialable(guard, imapTarget) && Dialable(guard, smtpTarget)
  {
    hide Check, AllPublic, Answers, Bare, Host;
    CheckMeaning(guard, if h.imapTarget.Some? then H_IMAP else DERIVED_IMAP, imapTarget);
    CheckMeaning(guard, if h.smtpTarget.Some? then H_SMTP else DERIVED_SMTP, smtpTarget);
  }

  /** An explicit target is kept; when both are, no resolver is consulted. */
  lemma ExplicitTargetsWin(h: Inline, resolver: Resolver, other: Resolver, guard: Guard)
    ensures h.imapTarget.Some? && h.smtpTarget.Some? ==>
              IntoCredential(h, resolver, guard) == IntoCredential(h, other, guard)
    ensures var r := IntoCredential(h, resolver, guard);
            r.Ok? ==>
              && (h.imapTarget.Some? ==> r.value.imapTarget == h.imapTarget.value)
              && (h.smtpTarget.Some? ==> r.value.smtpTarget == h.smtpTarget.value)
              && (h.imapTarget.None? || h.smtpTarget.None? ==>
                    && resolver.enabled && AutoconfigDomain(h).Some?
                    && var found := resolver.resolve(AutoconfigDomain(h).value, EmailFor(h));
                       && found.Ok?
                       && (h.imapTarget.None? ==> found.value.imapTarget == Some(r.value.imapTarget))
                       && (h.smtpTarget.None? ==> found.value.smtpTarget == Some(r.value.smtpTarget)))
  {
    hide Check, AutoconfigDomain, EmailFor;
  }

  /** `low` is `s` with its ASCII letters in lower case. */
  predicate IsLowered(s: string, low: string) {
    && |low| == |s|
    && forall i :: 0 <= i < |s| ==>
         low[i] == if 'A' <= s[i] <= 'Z' then (s[i] as int + ('a' as int - 'A' as int)) as char else s[i]
  }

  /**
   What the resolver is asked: the domain header before the login's own domain, which goes in lower
   case; and the login when it is an address, else the login at the domain header's domain.
   */
  ghost predicate AsksFor(h: Inline, domain: string, email: string) {
    match h.domain
    case Some(named) =>
      domain == named && email == if '@' in h.username then h.username else h.username + "@" + named
    case None =>
      email == h.username && exists local, own :: h.username == local + "@" + own && IsOwnDomain(own, domain)
  }

  predicate IsOwnDomain(own: string, domain: string) {
    own != [] && '@' !in own && IsLowered(own, domain)
  }

  lemma OwnDomainIsLower(own: string, domain: string)
    requires IsOwnDomain(own, domain)
    ensures domain == Lower(own)
  {
    assert forall i :: 0 <= i < |own| ==> domain[i] == Lower(own)[i];
  }

  /** There is a question exactly when there is a domain, and it is the only one. */
  lemma AsksForExactly(h: Inline, domain: string, email: string)
    ensures AsksFor(h, domain, email) <==> AutoconfigDomain(h) == Some(domain) && EmailFor(h) == Some(email)
    ensures AutoconfigDomain(h).Some? ==> EmailFor(h).Some?
  {
    if h.domain.None? {
      forall local, own | h.username == local + "@" + own && IsOwnDomain(own, domain)
        ensures AutoconfigDomain(h) == Some(domain) && EmailFor(h) == Some(h.username)
      {
        DomainOfAddress(h, local, own);
        OwnDomainIsLower(own, domain);
      }
      if AutoconfigDomain(h) == Some(domain) {
        var (local, own) := RSplitOnce(h.username, '@').value;
        assert h.username == local + "@" + own && IsOwnDomain(own, domain);
      }
    }
  }

  /**
   A missing target is refused for want of a resolver, of a domain, of an answer, or of the side that
   is missing, in that order; and of the resolver nothing matters but that one answer.
   */
  lemma RefusedInOrder(h: Inline, resolver: Resolver, guard: Guard, domain: string, email: string)
    requires h.imapTarget.None? || h.smtpTarget.None?
    ensures var r := IntoCredential(h, resolver, guard);
            && (!resolver.enabled ==> r == Err(MissingTarget))
            && (resolver.enabled && (forall d, e :: !AsksFor(h, d, e)) ==> r == Err(NoDomain))
            && (resolver.enabled && AsksFor(h, domain, email) ==>
                  match resolver.resolve(domain, Some(email))
                  case Err(cause) => r == Err(AutoconfigFailed(cause))
                  case Ok(found) =>
                    if h.imapTarget.None? && found.imapTarget.None? then r == Err(NoImapEndpoint(domain))
                    else if h.smtpTarget.None? && found.smtpTarget.None? then r == Err(NoSmtpEndpoint(domain))
                    else r.Ok? || r.error.Refused?)
  {
    hide AsksFor, AutoconfigDomain, EmailFor, Check;
    AsksForExactly(h, domain, email);
    if AutoconfigDomain(h).Some? {
      AsksForExactly(h, AutoconfigDomain(h).value, "");
      AsksForExactly(h, AutoconfigDomain(h).value, EmailFor(h).value);
    }
  }

  lemma OnlyOneAnswerMatters(h: Inline, a: Resolver, b: Resolver, guard: Guard, domain: string, email: string)
    requires a.enabled == b.enabled && AsksFor(h, domain, email) && a.resolve(domain, Some(email)) == b.resolve(domain, Some(email))
    ensures IntoCredential(h, a, guard) == IntoCredential(h, b, guard)
  {
    hide AsksFor, AutoconfigDomain, EmailFor, Vet;
    AsksForExactly(h, domain, email);
  }

  /** The headers are read in order, and the first fault is reported. */
  lemma HeaderFaults(h: Headers)
    ensures var r := ParseHeaders(h);
            var imapBad := h.imapTarget.Some? && ParseTarget(h.imapTarget.value).Err?;
            var smtpBad := h.smtpTarget.Some? && ParseTarget(h.smtpTarget.value).Err?;
            if h.auth.None? then r == Err(MissingAuth)
            else if ParseBasic(h.auth.value).None? then r == Err(MalformedAuth)
            else if imapBad then r == Err(BadTarget("X-Mailbox-Imap", ParseTarget(h.imapTarget.value).error))
            else if smtpBad then r == Err(BadTarget("X-Mailbox-Smtp", ParseTarget(h.smtpTarget.value).error))
            else r.Ok?
  {
    hide ParseBasic, ParseTarget, Trim, Lower;
  }

  /** The domain header counts trimmed and in lower case, and not at all when blank. */
  lemma DomainHeader(h: Headers, before: string, core: string, after: string)
    requires ParseHeaders(h).Ok? && AllWhitespace(before) && AllWhitespace(after) && Trimmed(core)
    ensures h.domain.None? ==> ParseHeaders(h).value.domain == None
    ensures h.domain == Some(before + core + after) && core == [] ==> ParseHeaders(h).value.domain == None
    ensures h.domain == Some(before + core + after) && core != [] ==>
              ParseHeaders(h).value.domain.Some? && IsLowered(core, ParseHeaders(h).value.domain.value)
  {
    hide ParseBasic, ParseTarget, Trim, Lower;
    if h.domain == Some(before + core + after) {
      TrimOfBlank(before, core, after);
      if core != [] {
        TrimCore(before, core, after);
        LoweredIsLower(core);
      }
    }
  }

  lemma LoweredIsLower(s: string)
    ensures IsLowered(s, Lower(s))
  {
  }

  lemma TrimOfBlank(before: string, core: string, after: string)
    requires AllWhitespace(before) && AllWhitespace(after)
    ensures core == [] ==> Lower(Trim(before + core + after)) == []
  {
    if core == [] {
      var s := before + core + after;
      assert AllWhitespace(s);
      var _, _ := TrimSplits(s);
    }
  }

  /** A refused target is named by the header that carried it, or as autoconfigured when none did. */
  lemma RefusalNamesItsSource(h: Inline, resolver: Resolver, guard: Guard)
    ensures match IntoCredential(h, resolver, guard)
            case Err(Refused(refusal)) =>
              && Wanted(h, resolver).Some?
              && var (imapTarget, smtpTarget) := Wanted(h, resolver).value;
                 if !Dialable(guard, imapTarget)
                 then refusal.host == Host(imapTarget)
                      && refusal.source == (if h.imapTarget.Some? then "X-Mailbox-Imap" else "autoconfigured IMAP")
                 else !Dialable(guard, smtpTarget) && refusal.host == Host(smtpTarget)
                      && refusal.source == (if h.smtpTarget.Some? then "X-Mailbox-Smtp" else "autoconfigured SMTP")
            case _ => true
  {
    hide AllPublic, Answers, Bare, Host, AutoconfigDomain, EmailFor, IsForbiddenIp, IsLocalName;
    if Wanted(h, resolver).Some? {
      var (imapTarget, smtpTarget) := Wanted(h, resolver).value;
      CheckMeaning(guard, if h.imapTarget.Some? then H_IMAP else DERIVED_IMAP, imapTarget);
      CheckMeaning(guard, if h.smtpTarget.Some? then H_SMTP else DERIVED_SMTP, smtpTarget);
    }
  }

  /** An address names its own domain: the part after its last `@`, in lower case. */
  lemma DomainOfAddress(h: Inline, local: string, domain: string)
    requires h.domain.None? && h.username == local + "@" + domain && '@' !in domain && domain != []
    ensures AutoconfigDomain(h) == Some(Lower(domain)) && EmailFor(h) == Some(h.username)
  {
    RSplitOnceUnique(local, '@', domain);
  }
}
