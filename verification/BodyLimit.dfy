/** How long a `send` body may be, against how many attachment bytes it may decode to. */
module BodyLimit {
  import opened Text
  import opened Wrappers
  import opened Base64
  import opened AttachmentFields
  import opened Attachments

  const MAX_ATTACHMENTS: nat := 20
  const DEFAULT_MAX_ATTACHMENT_BYTES: nat := 10 * 1024 * 1024
  const DEFAULT_SEND_BODY_LIMIT: nat := 16 * 1024 * 1024
  const SEND_BODY_OVERHEAD: nat := DEFAULT_SEND_BODY_LIMIT - Base64Len(DEFAULT_MAX_ATTACHMENT_BYTES)

  /** Room the rounding of up to 20 separate encodings can take from the overhead. */
  const ROUNDING: nat := 52

  /** Four symbols for every three bytes begun. */
  function EncodedLen(n: nat): nat {
    (n + 2) / 3 * 4
  }

  /** `base64_len`: that length as a saturating `usize`. */
  function Base64Len(n: nat): nat {
    SaturatingAdd(EncodedLen(n), 0)
  }

  function SendBodyLimit(maxAttachmentBytes: nat): nat {
    SaturatingAdd(Base64Len(maxAttachmentBytes), SEND_BODY_OVERHEAD)
  }

  lemma LimitIsMonotone(a: nat, b: nat)
    requires a <= b
    ensures SendBodyLimit(a) <= SendBodyLimit(b)
    ensures SendBodyLimit(10 * 1024 * 1024) == 16 * 1024 * 1024
  {
    assert (a + 2) / 3 <= (b + 2) / 3;
  }

  function Sum(sizes: seq<nat>, k: nat): nat
    requires k <= |sizes|
  {
    if k == 0 then 0 else Sum(sizes, k - 1) + sizes[k - 1]
  }

  function SumEncoded(sizes: seq<nat>, k: nat): nat
    requires k <= |sizes|
  {
    if k == 0 then 0 else SumEncoded(sizes, k - 1) + EncodedLen(sizes[k - 1])
  }

  /** How many of the first `k` parts are not empty. */
  function NonEmpty(sizes: seq<nat>, k: nat): nat
    requires k <= |sizes|
  {
    if k == 0 then 0 else NonEmpty(sizes, k - 1) + if sizes[k - 1] > 0 then 1 else 0
  }

  lemma {:induction false} RoundingPerPart(sizes: seq<nat>, k: nat)
    requires k <= |sizes|
    ensures SumEncoded(sizes, k) % 4 == 0
    ensures 3 * SumEncoded(sizes, k) <= 4 * Sum(sizes, k) + 8 * NonEmpty(sizes, k)
    ensures NonEmpty(sizes, k) <= k && NonEmpty(sizes, k) <= Sum(sizes, k)
  {
    if k > 0 {
      RoundingPerPart(sizes, k - 1);
    }
  }

  /** What encoding up to 20 parts one by one can cost over encoding the cap at once. */
  function Slack(cap: nat): (n: nat)
    ensures n <= ROUNDING
  {
    if cap < MAX_ATTACHMENTS then 4 * cap - EncodedLen(cap)
    else if cap % 3 == 1 then ROUNDING - 4 else ROUNDING
  }

  /** The same, counted in groups of four: two bytes of padding for each part that can be begun. */
  lemma SlackInGroups(cap: nat)
    ensures var parts := if cap < MAX_ATTACHMENTS then cap else MAX_ATTACHMENTS;
            EncodedLen(cap) + Slack(cap) == (cap + 2 * parts) / 3 * 4
  {
  }

  /** No 20 parts within the cap encode to more. */
  lemma EncodingApartCostsLittle(sizes: seq<nat>, cap: nat)
    requires |sizes| <= MAX_ATTACHMENTS && Sum(sizes, |sizes|) <= cap
    ensures SumEncoded(sizes, |sizes|) <= EncodedLen(cap) + Slack(cap) <= EncodedLen(cap) + ROUNDING
  {
    RoundingPerPart(sizes, |sizes|);
    SlackInGroups(cap);
  }

  /** Parts that do: one byte each, and the last all that is left of the cap. */
  function FullestSizes(cap: nat): seq<nat> {
    if cap < MAX_ATTACHMENTS then seq(cap, _ => 1)
    else seq(MAX_ATTACHMENTS, i => if i + 1 < MAX_ATTACHMENTS then 1 else cap - (MAX_ATTACHMENTS - 1))
  }

  lemma RoundingIsTight(cap: nat)
    ensures var sizes := FullestSizes(cap);
            && |sizes| <= MAX_ATTACHMENTS && Sum(sizes, |sizes|) == cap
            && SumEncoded(sizes, |sizes|) == EncodedLen(cap) + Slack(cap)
  {
    var sizes := FullestSizes(cap);
    SlackInGroups(cap);
    if cap < MAX_ATTACHMENTS {
      OneByteParts(sizes, cap);
    } else {
      OneByteParts(sizes, MAX_ATTACHMENTS - 1);
    }
  }

  lemma {:induction false} OneByteParts(sizes: seq<nat>, k: nat)
    requires k <= |sizes| && forall i :: 0 <= i < k ==> sizes[i] == 1
    ensures Sum(sizes, k) == k && SumEncoded(sizes, k) == 4 * k
  {
    if k > 0 {
      OneByteParts(sizes, k - 1);
    }
  }

  // -------------------------------------------------------------------------
  // Requests against the limit
  // -------------------------------------------------------------------------

  /** The bare attachment text of the first `k` attachments: white space aside. */
  function CompactLength(s: seq<Attachment>, k: nat): nat
    requires k <= |s|
  {
    if k == 0 then 0 else CompactLength(s, k - 1) + |Strip(s[k - 1].contentBase64)|
  }

  lemma CompactIsEncodedSize(a: Attachment)
    requires Decodes(a)
    ensures |Strip(a.contentBase64)| == EncodedLen(Size(a))
  {
    DecodeBase64Iff(a.contentBase64, DecodeBase64(a.contentBase64).value);
    DecodedLenIsExact(a.contentBase64);
  }

  lemma {:induction false} CompactIsEncodedSizes(s: seq<Attachment>, sizes: seq<nat>, k: nat)
    requires k <= |s| == |sizes| && DecodeUpTo(s, |s|)
    requires forall i :: 0 <= i < |s| ==> sizes[i] == Size(s[i])
    ensures CompactLength(s, k) == SumEncoded(sizes, k) && TotalSize(s, k) == Sum(sizes, k)
  {
    hide DecodedLen, DecodeBase64, Strip;
    if k > 0 {
      CompactIsEncodedSizes(s, sizes, k - 1);
      CompactIsEncodedSize(s[k - 1]);
    }
  }

  /** What a body may hold beside the bare attachment text, if no attachments are to outgrow the limit. */
  function Room(cap: nat): nat {
    SEND_BODY_OVERHEAD - Slack(cap)
  }

  /** Accepted attachments leave that much, whatever they are. */
  lemma AcceptedLeaveRoom(s: seq<Attachment>, cap: nat)
    ensures Accepts(s, Limits(MAX_ATTACHMENTS, cap)) && SendBodyLimit(cap) < USIZE_MAX ==>
              CompactLength(s, |s|) + Room(cap) <= SendBodyLimit(cap)
  {
    hide Essence, DecodedLen, DecodeBase64, Strip;
    if Accepts(s, Limits(MAX_ATTACHMENTS, cap)) {
      var sizes := seq(|s|, i requires 0 <= i < |s| => Size(s[i]));
      CompactIsEncodedSizes(s, sizes, |s|);
      if cap < USIZE_MAX {
        EncodingApartCostsLittle(sizes, cap);
      }
    }
  }

  /** A file of `n` zero bytes. */
  function Zeros(n: nat): Attachment {
    Attachment("a", "a/b", Encode(seq(n, _ => 0)))
  }

  lemma PlainType()
    ensures Essence("a/b").Some?
  {
    hide Essence, Essential;
    var a, b := "a", "b";
    assert IsToken(a) && IsToken(b) && Lower(a) == a && Lower(b) == b && |a| != |"multipart"|;
    EssentialIsFixed("a", "b");
    assert "a" + "/" + "b" == "a/b";
  }

  lemma ZerosDecode(n: nat)
    ensures var a := Zeros(n);
            && Measurable(a) && Decodes(a) && Size(a) == n
            && |a.contentBase64| == |Strip(a.contentBase64)| == EncodedLen(n)
  {
    hide Essence, DecodeBase64, DecodedLen, Strip, Encode;
    PlainType();
    var a, bytes := Zeros(n), seq(n, _ => 0);
    EncodeHasNoWhitespace(bytes);
    StripFixpoint(a.contentBase64);
    DecodeBase64Iff(a.contentBase64, bytes);
    DecodedLenIsExact(a.contentBase64);
  }

  lemma {:induction false} ZerosAddUp(s: seq<Attachment>, sizes: seq<nat>, k: nat)
    requires k <= |s| == |sizes| && forall i :: 0 <= i < |s| ==> s[i] == Zeros(sizes[i])
    ensures MeasurableUpTo(s, k) && DecodeUpTo(s, k) && TotalSize(s, k) == Sum(sizes, k)
    ensures ContentLength(s, k) == CompactLength(s, k) == SumEncoded(sizes, k)
  {
    hide Measurable, Decodes, Size, Strip, Zeros;
    if k > 0 {
      ZerosAddUp(s, sizes, k - 1);
      ZerosDecode(sizes[k - 1]);
    }
  }

  /** Some accepted request, with no white space in it, leaves no more. */
  lemma FullestRequest(cap: nat) returns (s: seq<Attachment>)
    requires SendBodyLimit(cap) < USIZE_MAX
    ensures Accepts(s, Limits(MAX_ATTACHMENTS, cap))
    ensures ContentLength(s, |s|) == CompactLength(s, |s|)
    ensures CompactLength(s, |s|) + Room(cap) == SendBodyLimit(cap)
  {
    hide Measurable, Decodes, Size, Strip, Zeros, FullestSizes, MeasurableUpTo, DecodeUpTo;
    var sizes := FullestSizes(cap);
    RoundingIsTight(cap);
    s := seq(|sizes|, i requires 0 <= i < |sizes| => Zeros(sizes[i]));
    ZerosAddUp(s, sizes, |s|);
  }

  /** Every request within the cap gets past the transport with `extra` bytes beside its bare attachment text. */
  ghost predicate NeverRefusedFirst(cap: nat, extra: nat) {
    forall s :: Accepts(s, Limits(MAX_ATTACHMENTS, cap)) ==> CompactLength(s, |s|) + extra <= SendBodyLimit(cap)
  }

  /**
   When a request within the cap is never refused by the transport first: exactly when all it sends
   beside the bare attachment text, white space, escapes and the rest of the JSON, fits the room.
   */
  lemma NeverRefusedFirstExactly(cap: nat, extra: nat)
    ensures SendBodyLimit(cap) < USIZE_MAX ==> (NeverRefusedFirst(cap, extra) <==> extra <= Room(cap))
  {
    hide Accepts, SendBodyLimit, Room;
    if SendBodyLimit(cap) < USIZE_MAX {
      var fullest := FullestRequest(cap);
    }
    if SendBodyLimit(cap) < USIZE_MAX && extra <= Room(cap) {
      forall s | Accepts(s, Limits(MAX_ATTACHMENTS, cap)) ensures CompactLength(s, |s|) + extra <= SendBodyLimit(cap) {
        AcceptedLeaveRoom(s, cap);
      }
    }
  }

  /** At the default cap: one file of 10 MiB, with no white space in its text, beside 3 MiB of HTML. */
  lemma HtmlOutgrowsTheLimit() returns (s: seq<Attachment>, html: nat)
    ensures Accepts(s, Limits(MAX_ATTACHMENTS, DEFAULT_MAX_ATTACHMENT_BYTES)) && html == 3 * 1024 * 1024
    ensures ContentLength(s, |s|) == CompactLength(s, |s|)
    ensures BodyLength(s, html) > SendBodyLimit(DEFAULT_MAX_ATTACHMENT_BYTES)
  {
    hide Measurable, Decodes, Size, Strip, Zeros, MeasurableUpTo, DecodeUpTo;
    var sizes := [DEFAULT_MAX_ATTACHMENT_BYTES];
    s, html := [Zeros(sizes[0])], 3 * 1024 * 1024;
    ZerosAddUp(s, sizes, 1);
    assert Sum(sizes, 1) == Sum(sizes, 0) + sizes[0] && SumEncoded(sizes, 1) == SumEncoded(sizes, 0) + EncodedLen(sizes[0]);
  }

  /** The length of a body whose attachment text is `s` and which holds `rest` more bytes. */
  function BodyLength(s: seq<Attachment>, rest: nat): nat {
    ContentLength(s, |s|) + rest
  }

  /** What of that is not bare attachment text. */
  function Extra(s: seq<Attachment>, rest: nat): nat {
    BareIsShorter(s, |s|);
    BodyLength(s, rest) - CompactLength(s, |s|)
  }

  lemma {:induction false} BareIsShorter(s: seq<Attachment>, k: nat)
    requires k <= |s|
    ensures CompactLength(s, k) <= ContentLength(s, k)
  {
    hide Strip;
    if k > 0 {
      BareIsShorter(s, k - 1);
    }
  }

  /** A body with at most `budget` extra bytes and accepted attachments is not refused by the transport. */
  ghost predicate FitsWithin(cap: nat, budget: nat) {
    forall s, rest :: Accepts(s, Limits(MAX_ATTACHMENTS, cap)) && Extra(s, rest) <= budget ==>
      BodyLength(s, rest) <= SendBodyLimit(cap)
  }

  /** The same for whole bodies. A limit that saturates is the longest a body can be, and refuses none. */
  lemma WholeBodiesExactly(cap: nat, budget: nat)
    ensures SendBodyLimit(cap) < USIZE_MAX ==> (FitsWithin(cap, budget) <==> budget <= Room(cap))
    ensures SendBodyLimit(cap) <= USIZE_MAX
  {
    hide Accepts, Room;
    assert SendBodyLimit(cap) <= USIZE_MAX;
    if SendBodyLimit(cap) < USIZE_MAX {
      var fullest := FullestRequest(cap);
      assert Extra(fullest, budget) == budget && BodyLength(fullest, budget) == CompactLength(fullest, |fullest|) + budget;
    }
    if SendBodyLimit(cap) < USIZE_MAX && budget <= Room(cap) {
      forall s, rest | Accepts(s, Limits(MAX_ATTACHMENTS, cap)) && Extra(s, rest) <= budget
        ensures BodyLength(s, rest) <= SendBodyLimit(cap)
      {
        AcceptedLeaveRoom(s, cap);
      }
    }
  }

  lemma {:induction false} SpacesStripToNothing(n: nat)
    ensures Strip(seq(n, _ => 32)) == []
  {
    if n > 0 {
      SpacesStripToNothing(n - 1);
      var s: seq<Byte> := seq(n, _ => 32);
      assert s[..n - 1] == seq(n - 1, _ => 32);
    }
  }

  /**
   White space alone is enough: whatever the cap, and even `0`, some accepted request is nothing but
   white space longer than the limit.
   */
  lemma WhitespaceOutgrowsTheLimit(cap: nat) returns (s: seq<Attachment>)
    ensures Accepts(s, Limits(MAX_ATTACHMENTS, cap))
    ensures ContentLength(s, |s|) > SendBodyLimit(cap)
  {
    hide Essence, DecodedLen, DecodeBase64, SendBodyLimit;
    var n := SendBodyLimit(cap) + 1;
    var a := Attachment("a", "a/b", seq(n, _ => 32));
    BlankAttachment(a, n);
    s := [a];
    assert TotalSize(s, 1) == TotalSize(s, 0) + Size(a);
    assert ContentLength(s, 1) == ContentLength(s, 0) + n;
  }

  lemma BlankAttachment(a: Attachment, n: nat)
    requires a.contentType == "a/b" && a.contentBase64 == seq(n, _ => 32)
    ensures Measurable(a) && Decodes(a) && Size(a) == 0
  {
    hide Essence, DecodeBase64;
    SpacesStripToNothing(n);
    DecodeBase64Iff(a.contentBase64, []);
    PlainType();
  }
}
