# A verified model of overfwd's core logic

overfwd is a stateless HTTP gateway to IMAP and SMTP. This project models the parts of it that hold
state, loop, parse or count, and proves what they promise. One module stands for one component:

- `Credentials`: the targets and the login the other modules share.
- `Pool`, `PoolProtocol`, `PoolHistory`: the deque of idle IMAP sessions, changed in place, and any number of
  requests running `acquire`, an operation and `release` over it. The environment picks the
  interleaving, the clock, the NOOP and login outcomes and how operations end. A request reads the
  clock before it takes the lock, so entries are not assumed sorted by age.
- `SearchRequest`, `ImapGrammar`: the structured-search compiler, against a reader written from
  sections 4.3, 6.4.4 and 9 of RFC 3501, widened to raw non-ASCII text in quoted strings, as the
  compiler's own comment asks (`src/routes.rs:247`).
- `NewestSearch`: the selection before a FETCH, the UID set it prints, the order and the counts of
  what is returned.
- `Attachments`, `AttachmentFields`, `BodyLimit`, `Base64`: the size computed without decoding, the
  strict decoder (section 4 of RFC 4648), the two-phase check, the header fields, and the transport
  limit derived from the decoded cap.
- `Autoconfig`, `AutoconfigCache`, `ResolveProtocol`: the early-exit ladder against an eager merge of
  all its sources, its cache, and any number of calls interleaved over that cache. An expiry is
  computed before the cache is locked, so an entry may be inserted after one stamped later.
- `Mcp`: the JSON-RPC dispatcher, from a parsed value on, and the size gate that looks at that value.
- `Auth`, `Endpoint`: the mailbox headers, the credential they resolve to, and the address policy.
- `Text`, `Utf8`, `Sequences`, `Wrappers`: string primitives shared by the rest. `Text` spells out Unicode's
  White_Space property and Cc category, which is what Rust's `char::is_whitespace` and
  `char::is_control` test.

What is mutable in the program is mutable here (`Pool.Reservoir`, `NewestSearch.UidList`,
`AutoconfigCache.Cache`, and every loop), each method proved equal to a function whose own meaning is
then proved. The shared structures under concurrency are step systems over the same functions. Clocks
are natural numbers; passwords are digested by an injective function; the network, DNS, the clock and
the standard library's address parser are parameters.

## Where the code and its documentation differ

- `src/routes.rs:105-109` promises, for every attachment cap, that the transport limit will not stop a
  request whose attachments the cap allows. That holds exactly when everything in the body beside the
  bare base64 text of the attachments (white space in that text, JSON escapes, and the rest of the JSON)
  comes to at most `BodyLimit.Room(cap)` bytes. The room is the ~2.7 MiB overhead less what 20 separate
  encodings can cost over one: 52 bytes, 48 when the cap leaves 1 modulo 3, and less below a cap of 20
  (`BodyLimit.NeverRefusedFirstExactly`, `BodyLimit.WholeBodiesExactly`). It fails on a single
  file at the default cap beside 3 MiB of HTML (`BodyLimit.HtmlOutgrowsTheLimit`), and at every cap on
  white space alone (`BodyLimit.WhitespaceOutgrowsTheLimit`). A limit that saturates at `usize::MAX` is as
  long as a body can be, and stops none.
- `src/mcp.rs:269-270` lets only messages without an id go unanswered. A well-formed request whose method
  begins with `notifications/` is not answered even with an id, and one whose id is `null` is taken as
  having none, while any other object with a `null` id is answered. `Mcp.AnswersTheAnswerable` has the
  exact rule and `Mcp.WhereIdsDoNotDecide` the three messages.
- A UID set naming UID 0 is printed, but is no sequence set (`NewestSearch.UidSetReadsBack`). No message
  has UID 0, so this takes a server that reports one.

## Model

| member | source | states |
|---|---|---|
| Pool.Reservoir.DrainExpired | src/pool.rs:371-385 | the loop that edits the deque in place leaves the unexpired entries and returns the expired connections, both in order |
| Pool.Reservoir.Take | src/pool.rs:331-337 | the whole new deque, the hit and the swept connections, as functions of the old deque |
| Pool.Reservoir.Put | src/pool.rs:345-367 | the whole new deque and the evicted connections, as functions of the old deque |
| Pool.SweepConcat | src/pool.rs:371-385 | sweeping is an order-preserving filter: it distributes over concatenation |
| Pool.TakeMeaning | src/pool.rs:331-337 | a hit is the last unexpired entry under the key, there is none exactly when all of them expired, and what is left is the live entries without it, in order |
| Pool.TakeConserves | src/pool.rs:331-337 | the connections before a take are those left, those swept and the one handed out, as multisets |
| Pool.PutMeaning | src/pool.rs:345-367 | what is left is the last `max_idle` of the survivors and the new entry; what is given up is the expired and then exactly the rest, oldest first |
| Pool.PutConserves | src/pool.rs:345-367 | the connections before a put and the new one are those left and those given up, as multisets |
| Pool.ExpiredExactly | src/pool.rs:371-376 | an entry expires exactly when the clock reaches its lifetime past the instant it was stored, so one from the future is new; with no lifetime every entry is expired |
| Pool.YoungEntriesSurvive | src/pool.rs:331-385 | an entry whose lifetime has not run out is never swept, and a take under its key hits |
| Pool.KeysAgreeExactly | src/pool.rs:150-160 | two credentials share sessions exactly when server, user and password agree |
| PoolProtocol.StepConserves | src/imap.rs:389-414 | no step of any request loses or copies a session; only a login adds one |
| PoolProtocol.StepKeepsInv | src/pool.rs:219-268 | every step of every request keeps the pool's invariant: places, owners, suspects, cap and clocks |
| PoolProtocol.OnePlaceEach | src/pool.rs:219-268 | in every interleaving each session ever opened is in exactly one place: idle, held by one request, or closed |
| PoolProtocol.HandedToItsOwner | src/pool.rs:150-160 | a request only ever works on a session that logged in to the same server with the same user and password |
| PoolProtocol.SuspectNeverReused | src/imap.rs:404-423 | a session whose NOOP failed or whose operation ended in a transport error is never idle, probed or worked on again |
| PoolProtocol.WorkStartsOnTheProven | src/pool.rs:231-240 | the only steps that start work on a session are its own answered NOOP and a login of this request that opened it |
| PoolProtocol.FailuresAreSuspect | src/imap.rs:418-423 | a session becomes suspect exactly by failing its NOOP, by a lost connection or by a TLS failure |
| PoolProtocol.HitsAreYoung | src/pool.rs:224-229 | a session handed out was stored under an equal key and is younger than the lifetime on the taker's clock |
| PoolProtocol.CapHolds | src/pool.rs:345-367 | the pool never exceeds its cap in any run |
| PoolProtocol.NothingLeaks | src/pool.rs:250-268 | once every request has finished, each session opened is idle or closed, and closed if the pool is disabled |
| PoolProtocol.AlwaysNearer | src/imap.rs:389-414 | no request is ever stuck, each of its steps brings it nearer its end, and no other request's step changes it |
| PoolHistory.EveryPhaseHasItsPast | src/pool.rs:219-268 | in every run: with pooling on the pool is asked first, and a login follows only a miss or a hit that failed its NOOP and was closed; a hit is worked on only once it answered; instants are the clock as read; after a healthy operation the session is put back under the request's key, after a lost connection or with pooling off it is closed; a request finishes as its operation, or its failed login, ended |
| SearchRequest.QuoteImap | src/routes.rs:252-263 | the loop builds the quoted form of the value |
| SearchRequest.QuoteReadsBack | src/routes.rs:252-263 | by RFC 3501's reader the quoted form followed by any tail reads as the value and that tail, exactly for values without CR, LF and NUL |
| SearchRequest.ImapDateIsNormal | src/routes.rs:294-329 | every accepted date normalises to a fixed point that denotes the same date |
| SearchRequest.SpellingsAgree | src/routes.rs:294-329 | the ISO and IMAP spellings of one date, whatever the case and the padding, give one output `d-Mmm-yyyy` |
| SearchRequest.IsoDateExactly | src/routes.rs:240-329 | a `yyyy-m-d` date becomes `d`, the month as the grammar spells it, and `yyyy`, for days 1 to 31 and months 1 to 12, and is refused otherwise |
| SearchRequest.PrintedMonthReads | src/routes.rs:240-242 | the table months are printed from against the one section 9 of RFC 3501 reads them by |
| SearchRequest.ParsedIsSpelled | src/routes.rs:294-329 | nothing but those two spellings is accepted |
| SearchRequest.AcceptedExactly | src/routes.rs:341-389 | which requests compile, if and only if; and what an unstructured one compiles to |
| SearchRequest.RefusalHasItsCause | src/routes.rs:271-389 | each refusal reports the first cause in the order the code looks for them, naming the field, fields, date or query at fault |
| SearchRequest.KeyMeansRequest | src/routes.rs:341-389 | the key emitted for a structured request, read with the grammar's own keywords and months, is exactly the set fields with their trimmed values in declaration order, and a message satisfies it exactly when it satisfies each field |
| SearchRequest.RawQueryAccepted | src/routes.rs:402-423 | a raw query is judged by its first word alone: a search key in any case, a sequence set, or an opening parenthesis; and passed on whole or refused with itself |
| SearchRequest.SearchKeysExactly | src/routes.rs:185-227 | the keys accepted are those of section 6.4.4 of RFC 3501 and the two of RFC 5032 |
| SearchRequest.ReadableQueriesAreAccepted | src/routes.rs:402-423 | every raw query the grammar can read is accepted and sent as it is |
| SearchRequest.CompiledKeyIsARawQuery | src/routes.rs:402-423 | a generated key passes the raw-query check and is passed through unchanged |
| NewestSearch.UidList.SelectNewest | src/imap.rs:326-333 | narrows in place to the newest `limit` and returns the full count |
| NewestSearch.NewestIsTheTop | src/imap.rs:326-333 | what is kept is the largest `limit` UIDs, strictly descending, and every UID left out is smaller than every one kept |
| NewestSearch.NewestIgnoresOrder | src/imap.rs:326-333 | the order the server lists matches in does not matter |
| NewestSearch.EffectiveLimit | src/routes.rs:427-431 | 10 when no limit is given, the limit asked for when it is at most 50, and 50 when it is over |
| NewestSearch.Search | src/imap.rs:291-317 | against any reply: the full count, the reply newest first, and `truncated` exactly when fewer are returned than matched |
| NewestSearch.FaithfulReply | src/routes.rs:456-462 | against a server that answers each requested UID once in any order, exactly the newest min(limit, total), and `truncated` exactly when the limit is below the total |
| NewestSearch.UidSetReadsBack | src/imap.rs:566-570 | the printed set, read by section 9 of RFC 3501, is exactly the UIDs in order; unreadable exactly when it names UID 0 |
| Base64.DecodeIff | src/send.rs:341-352 | the strict decoder and the canonical encoder are inverse both ways |
| Base64.AlphabetExactly | src/send.rs:341-352 | the standard alphabet and its padding, character by character |
| Base64.BitsInOrder | src/send.rs:341-352 | four sextets carry the 24 bits of three octets, most significant first |
| Base64.EncodeGroups | src/send.rs:341-352 | the encoding group by group, with what is left padded |
| Attachments.DecodeBase64Iff | src/send.rs:341-352 | decoding gives `b` exactly when the text without ASCII white space is the canonical encoding of `b` |
| Attachments.DecodeBase64OfWrapped | src/send.rs:338-352 | an encoding with any white space mixed in decodes to what was encoded |
| Attachments.ComputeDecodedLen | src/send.rs:323-336 | the counting loop computes the length function, and its subtraction never underflows |
| Attachments.DecodedLenIsExact | src/send.rs:320-336 | whenever the contents decode, the length computed without decoding was exact |
| Attachments.MeasuredExactly | src/send.rs:320-336 | text is measured exactly when some canonical encoding has its length and padding, as the length that one decodes to |
| Attachments.DecodeAttachments | src/send.rs:266-312 | succeeds exactly when count, types, lengths, total and decodes are all valid; parts align with inputs index by index; the error is the first in two-phase order; nothing is decoded before the total passes |
| Attachments.CauseIsUnique | src/send.rs:266-312 | that cause is unique, and a request with a cause is not accepted |
| Attachments.AcceptedFitsTheCap | src/send.rs:287-298 | the decoded parts weigh what was measured and sum to at most the cap, whatever the cap, for attachment text that fits a `usize` |
| Attachments.IntoMessage | src/send.rs:219-248 | accepted exactly with a recipient, a body and acceptable attachments, in that order of refusal, every field carried over |
| AttachmentFields.EssenceOfSpelling | src/send.rs:363-383 | case, surrounding white space and parameters never matter to a content type |
| AttachmentFields.EssenceNeedsSpelling | src/send.rs:363-383 | nothing but such a spelling of two tokens, not `multipart`, is accepted |
| AttachmentFields.EssenceIsNormal | src/send.rs:363-383 | what is accepted becomes two lowercase tokens, and normalising again changes nothing |
| AttachmentFields.TokenCharsExactly | src/send.rs:369-374 | a token character is printable ASCII other than the fifteen specials |
| AttachmentFields.KeepExactly | src/send.rs:393-403 | stripping drops exactly controls, bidi controls and separators, wherever they stand |
| AttachmentFields.SanitizeIsNormal | src/send.rs:393-411 | every filename becomes a safe one, exactly the safe ones are left alone, and sanitizing is idempotent |
| AttachmentFields.SanitizeKeepsTheFront | src/send.rs:393-411 | a filename becomes the longest start of the cleaned name that fits the clamp and does not end in white space, and the fallback exactly when that is nothing but dots, or nothing |
| BodyLimit.EncodingApartCostsLittle | src/routes.rs:98-100 | up to 20 parts within a cap encode to at most `Slack(cap)`, never over 52, bytes more than the cap encoded at once |
| BodyLimit.RoundingIsTight | src/send.rs:46 | at every cap some parts reach that bound |
| BodyLimit.AcceptedLeaveRoom | src/routes.rs:102-112 | at every cap whose limit does not saturate, the bare base64 text of accepted attachments leaves at least `Room(cap)` bytes of the limit |
| BodyLimit.NeverRefusedFirstExactly | src/routes.rs:102-112 | at every such cap, no accepted attachments with `extra` bytes beside their bare text outgrow the limit, if and only if `extra` is at most `Room(cap)` |
| BodyLimit.WholeBodiesExactly | src/routes.rs:102-112 | the same for whole bodies, white space and all: the budget of extra bytes that is always safe is exactly `Room(cap)` |
| BodyLimit.FullestRequest | src/routes.rs:102-112 | at every such cap, an accepted request without white space that leaves exactly that room |
| BodyLimit.HtmlOutgrowsTheLimit | src/routes.rs:105-109 | at the default cap, one file of 10 MiB without white space beside 3 MiB of HTML is longer than the limit |
| BodyLimit.WhitespaceOutgrowsTheLimit | src/routes.rs:105-109 | at every cap, some accepted request is longer than the body limit because of white space |
| BodyLimit.LimitIsMonotone | src/routes.rs:94-112 | the limit is monotone in the cap, saturation included, and is 16 MiB at the default cap |
| Autoconfig.HttpLadder | src/autoconfig.rs:276-293 | stopping early gives the merge of all URLs, and a URL is fetched, in order, exactly when those before it leave a side open |
| Autoconfig.SrvLookup | src/autoconfig.rs:295-325 | the merge of the implicit-TLS and the plain services, in at most four distinct lookups, a plain one exactly when the implicit-TLS one has no record |
| Autoconfig.MxAutoconfig | src/autoconfig.rs:335-344 | the merge of the exchanger's provider's URLs, which are fetched only when there is such a provider |
| Autoconfig.RunLadder | src/autoconfig.rs:254-272 | for every network, the early-exit ladder returns what eagerly merging every source returns, by a walk that skips a rung exactly when both sides are known, asks the SRV names as `SrvLookup` does, and fetches from the exchanger's provider exactly when there is one |
| Autoconfig.FirstNamedMeaning | src/autoconfig.rs:151-158 | the eager merge is, on each side by itself, the first source to name it |
| Autoconfig.Precedence | src/autoconfig.rs:254-403 | the order of precedence on each side, source by source; the address goes along only when it is one, and never to the exchanger's provider |
| Autoconfig.FoundExactly | src/autoconfig.rs:480-490 | a document gives the pick of its incoming servers for IMAP and of its outgoing ones for SMTP, a side is absent exactly when no server will do, and any other outcome gives nothing |
| Autoconfig.FirstDocumentDecides | src/autoconfig.rs:254-293 | whatever side the first document gives is the ladder's, for every network |
| Autoconfig.WalkIsBounded | src/autoconfig.rs:254-344 | a walk makes at most 6 fetches, 4 SRV lookups and 1 MX lookup, none twice; fetches after the MX lookup are for a public domain other than the original and never carry the address |
| Autoconfig.PublicDomainExactly | src/autoconfig.rs:420-446 | a public domain is exactly two or more labels with dots between and any number after, at most 253 characters, no address and no local name |
| Autoconfig.LabelExactly | src/autoconfig.rs:436-445 | a label is 1 to 63 letters, digits and hyphens without one at either end |
| Autoconfig.LocalNameExactly | src/autoconfig.rs:429-435 | a local name is `localhost` or anything under `.localhost`, `.local` or `.internal` |
| Autoconfig.Ipv4LiteralExactly | src/autoconfig.rs:425-428 | an IPv4 literal is four plain numerals up to 255 with dots between, and nothing else |
| Autoconfig.AddressesAndLocalNamesAreNotPublic | src/autoconfig.rs:425-435 | no dotted quad, and nothing under `.localhost`, `.local` or `.internal` in any case, is a public domain |
| Autoconfig.RegistrableIsLastTwo | src/autoconfig.rs:408-416 | an exchanger's provider is its last two labels in lower case, whatever precedes them and however many dots follow |
| Autoconfig.PickServerMeaning | src/autoconfig.rs:495-527 | a document yields the first usable SSL server of a kind, else the first usable one, and none exactly when none is usable |
| Autoconfig.UsableExactly | src/autoconfig.rs:495-506 | the servers looked at are of the kind in any case, with a host and a port; SSL is spelled in any case |
| AutoconfigCache.GetFindsTheLastPut | src/autoconfig.rs:346-367 | after any history of puts a lookup finds exactly the value last put under its own domain, while less than that value's lifetime has passed since it was stamped, and nothing otherwise |
| AutoconfigCache.Cache.Put | src/autoconfig.rs:356-367 | the whole new cache: the entry with its positive or negative lifetime, and nothing else |
| AutoconfigCache.Cache.Resolve | src/autoconfig.rs:225-249 | answer, queries and new cache in each of the three cases: not public, live entry, ladder |
| AutoconfigCache.CacheKeysAreFixed | src/autoconfig.rs:225-236 | normalising an accepted domain again changes nothing |
| AutoconfigCache.NormaliseExactly | src/autoconfig.rs:225-236 | normalising leaves a domain without outer white space and trailing dots, its ASCII letters in lower case, and all else as it was |
| AutoconfigCache.SpellingsShareAnEntry | src/autoconfig.rs:225-249 | spellings that differ in case, outer white space and trailing dots fill and consult one entry |
| AutoconfigCache.RememberedAsFound | src/autoconfig.rs:238-247 | only a result with neither side is remembered as a failure, for the negative lifetime; any other is remembered as found, for the positive one, and answered |
| ResolveProtocol.StepKeepsInv | src/autoconfig.rs:225-249 | every step of every call keeps the provenance of cache entries, calls and answers |
| ResolveProtocol.AnswersAreLadderResults | src/autoconfig.rs:225-249 | in every interleaving an answer is a ladder result for the same domain, walked in this call, or by a call with that domain and stamped less than its lifetime before this call consulted the cache; only the former asks the network anything |
| ResolveProtocol.CacheIsTidy | src/autoconfig.rs:238-247 | cached domains are public and normalised, no cached value is an empty success, and no entry outlives its lifetime from now |
| ResolveProtocol.LiveEntryAnswers | src/autoconfig.rs:346-354 | while an entry lives, every call that consults the cache is answered from it without the network |
| ResolveProtocol.OnlyLaddersFillTheCache | src/autoconfig.rs:238-247 | only an insertion changes the cache, and only in the call's own entry, to its own ladder's result with the lifetime it was stamped with |
| ResolveProtocol.StampsReadTheClock | src/autoconfig.rs:356-367 | a ladder is stamped once, with the clock as it is then |
| ResolveProtocol.AlwaysNearer | src/autoconfig.rs:225-249 | no call is ever stuck, whatever its network answers, each of its at most four steps brings it nearer its end, and no other event changes it |
| Mcp.Endpoint | src/mcp.rs:159-225 | the reply and the actions for every body: transport limit, parse error, size gate, batch, single message, other; over the ordinary limit nothing but sends is done |
| Mcp.ActsAsAsked | src/mcp.rs:398-439 | a message causes at most one action: the one it asks for, once its mailbox headers resolve and the tool takes its arguments |
| Mcp.CallsCarryTheirArguments | src/mcp.rs:398-439 | a call of a tool, whether its message and params are objects or arrays, acts on exactly the arguments it carries, or an empty object, once its headers resolve and the tool takes them; the answer in each other case |
| Mcp.CallsNeedATool | src/mcp.rs:409-416 | a call whose params are missing or name no tool does nothing and is answered -32602 |
| Mcp.SendCallsOnlySend | src/mcp.rs:258-267 | a message the gate takes for a send can ask for nothing else, and a send the gate does not recognise is written in serde's array form |
| Mcp.GateExactly | src/mcp.rs:258-267 | what the gate lets through, member by member |
| Mcp.GateAgrees | src/mcp.rs:180-184 | a payload the gate accepts over the limit reaches no action but sending |
| Mcp.AnswersTheAnswerable | src/mcp.rs:271-318 | exactly the answerable messages get a response, with their id, exactly one of result and error, and the right error code |
| Mcp.ObjectsAreAnswered | src/mcp.rs:271-318 | on the members of an object alone: the answer to every message that is not a call, with its code or result |
| Mcp.ArraysReadAsObjects | src/mcp.rs:80-88 | an array of members is treated as the object that has them, and any other array is dropped |
| Mcp.WhereIdsDoNotDecide | src/mcp.rs:269-308 | three messages the rule of ids alone gets wrong: a notification with an id and a ping with a `null` id go unanswered, a bare object with a `null` id is answered |
| Mcp.ResultsBelong | src/mcp.rs:298-306 | a call that acts is answered with that action's outcome, and `ping`, `tools/list` and `initialize` each with their own result |
| Mcp.BatchAnswers | src/mcp.rs:187-211 | a batch is answered by an order-preserving image of exactly its answerable messages, one response each; by an empty 202 exactly when none is answerable |
| Mcp.BatchActs | src/mcp.rs:199-205 | a batch carries out the action of each message that has one, one each, in order |
| Mcp.NegotiatesSupported | src/mcp.rs:322-338 | a client asking for a supported revision gets it, and every client gets a supported one |
| Auth.BasicReadsBack | src/auth.rs:331-357 | the accepted values are exactly the spellings of a pair with a non-empty colon-free user and a password not ending in CR or LF, and each gives its pair |
| Auth.PrintedTargetReadsBack | src/auth.rs:85-102 | a printed `host:port`, however padded, reads back for every host and exactly the ports up to 65535, with the error for each other case |
| Auth.TargetsAccepted | src/auth.rs:85-102 | a target is accepted exactly when it is a non-empty host, a colon and a fitting port within white space |
| Auth.HeadersReadBack | src/auth.rs:174-191 | the four headers, written out for a login, its targets and its domain, read back as those |
| Auth.HeaderFaults | src/auth.rs:174-191 | the first fault in header order is reported, and nothing else is a fault |
| Auth.DomainHeader | src/auth.rs:180-182 | the domain header counts trimmed and in lower case, and not at all when blank |
| Auth.DomainOfAddress | src/auth.rs:195-202 | without a domain header, an address gives the part after its last `@` in lower case |
| Auth.AsksForExactly | src/auth.rs:195-256 | what the resolver is asked: the domain header before the login's own domain, and the login as the address, or the login at the header's domain |
| Auth.RefusedInOrder | src/auth.rs:238-270 | a missing target is refused for want of a resolver, a domain, an answer or the missing side, in that order |
| Auth.OnlyOneAnswerMatters | src/auth.rs:238-258 | of the resolver nothing matters but its answer to that one question |
| Auth.CredentialExactly | src/auth.rs:221-281 | a credential comes out exactly when both targets can be had, headers first and autoconfiguration for the rest, and both pass the address policy; it holds those targets and the login as given |
| Auth.ExplicitTargetsWin | src/auth.rs:221-281 | explicit targets are kept, absent ones come from the resolver, and with both explicit no resolver is consulted |
| Auth.RefusalNamesItsSource | src/auth.rs:258-273 | a refused target is named by the header the caller sent, or as autoconfigured when there was none, the IMAP one first |
| Endpoint.ClassifierIsRanges | src/endpoint.rs:57-86 | the octet and mask tests select exactly a union of address ranges, for all 32-bit and 128-bit addresses, IPv4-mapped ones included |
| Endpoint.CheckMeaning | src/endpoint.rs:158-205 | an enabled policy passes exactly the targets that stand for some address and for public ones only; unresolvable names are told apart; disabled, it passes everything |
| Endpoint.DecorationIsIgnored | src/endpoint.rs:163-170 | white space, trailing dots and brackets around a host do not change the verdict: what is judged is the host inside |

## Left out

- Sockets, TLS, and the wire traffic of LOGIN, SELECT, SEARCH, FETCH, SMTP, HTTP and DNS: their outcomes are the environment's choice.
- MIME building and parsing, message summaries, address rendering: the work is in libraries.
- Reading JSON and XML text: `Mcp` starts from a value, `Autoconfig` from a list of servers. Whether a tool takes its arguments is a parameter of `Mcp`.
- The wording of error messages; their kinds, codes and the values they name are kept.
- The `Content-Type` test of `POST /mcp`: whether the type is JSON is a parameter.
- The REST handlers, the gateway's own API key, OpenAPI, logging, redaction and the environment's configuration: one-branch facts.
- `build_envelope`, `de_recipients`, `clamp_preview` and the disclosure: easy members.
- Headers that are not ASCII: refused before anything modelled here.
- SHA-256 is an injective function on passwords.
- Dropped futures: a pooled request or a resolve is never abandoned half way.
- A panic under a lock and the recovery from it.
- DNS answers that change between the address check and the connection.
- ImapGrammar: reads flags, string keys and date keys joined by spaces, which is all the compiler emits; NOT, OR, HEADER, UID, parentheses, literals and the like are not read, so raw queries are not given a meaning.
- Autoconfig.RunLadder: each query has one answer during a walk; as none is asked twice, this loses nothing.
- PoolProtocol.AlwaysNearer: says that a request ends once its steps are taken, not that they are.
- ResolveProtocol.AlwaysNearer: likewise for a resolve.
