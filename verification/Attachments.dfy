/**
 The attachment pipeline of `POST /email/send`: measure every attachment on its encoded form,
 refuse an oversized request, and only then decode.
 */
module Attachments {
  import opened Wrappers
  import opened Base64
  import opened AttachmentFields

  // -------------------------------------------------------------------------
  // One attachment's contents
  // -------------------------------------------------------------------------

  /** Strict base64 that tolerates ASCII white space. */
  function DecodeBase64(encoded: seq<Byte>): Option<seq<Byte>> {
    if exists b :: b in encoded && IsAsciiWhitespace(b) then Decode(Strip(encoded))
    else Decode(encoded)
  }

  /** Decoding succeeds on exactly the canonical encodings, white space aside. */
  lemma DecodeBase64Iff(encoded: seq<Byte>, bytes: seq<Byte>)
    ensures DecodeBase64(encoded) == Some(bytes) <==> Strip(encoded) == Encode(bytes)
  {
    if forall b :: b in encoded ==> !IsAsciiWhitespace(b) {
      StripFixpoint(encoded);
    }
    DecodeIff(Strip(encoded), bytes);
  }

  /** An encoding with no white space in it reads back, whatever white space is then mixed in. */
  lemma DecodeBase64OfWrapped(wrapped: seq<Byte>, bytes: seq<Byte>)
    requires Strip(wrapped) == Strip(Encode(bytes))
    ensures DecodeBase64(wrapped) == Some(bytes)
  {
    EncodeHasNoWhitespace(bytes);
    StripFixpoint(Encode(bytes));
    DecodeBase64Iff(wrapped, bytes);
  }

  /** The decoded length, computed from the length alone. */
  function DecodedLen(encoded: seq<Byte>): Option<nat> {
    var t := Strip(encoded);
    if |t| % 4 != 0 || TrailingPads(t) > 2 then None
    else Some(|t| / 4 * 3 - TrailingPads(t))
  }

  method ComputeDecodedLen(encoded: seq<Byte>) returns (r: Option<nat>)
    ensures r == DecodedLen(encoded)
  {
    var chars: nat, padding: nat := 0, 0;
    for i := 0 to |encoded|
      invariant chars == |Strip(encoded[..i])|
      invariant padding == TrailingPads(Strip(encoded[..i]))
    {
      assert encoded[..i + 1][..i] == encoded[..i];
      ghost var before, after := Strip(encoded[..i]), Strip(encoded[..i + 1]);
      if IsAsciiWhitespace(encoded[i]) {
        assert after == before;
      } else {
        assert after == before + [encoded[i]] && after[..chars] == before;
        chars := chars + 1;
        padding := if encoded[i] == PAD then padding + 1 else 0;
      }
    }
    assert encoded[..|encoded|] == encoded;
    if chars % 4 != 0 || padding > 2 {
      return None;
    }
    assert padding <= chars / 4 * 3;
    return Some(chars / 4 * 3 - padding);
  }

  /** Whenever the contents decode, the length computed up front was exact. */
  lemma DecodedLenIsExact(encoded: seq<Byte>)
    ensures DecodeBase64(encoded).Some? ==> DecodedLen(encoded) == Some(|DecodeBase64(encoded).value|)
  {
    if DecodeBase64(encoded).Some? {
      var bytes := DecodeBase64(encoded).value;
      DecodeBase64Iff(encoded, bytes);
      EncodePads(bytes);
      DecodedLenOfCanonical(Strip(encoded), |bytes|);
    }
  }

  lemma DecodedLenOfCanonical(t: seq<Byte>, n: nat)
    requires |t| == (n + 2) / 3 * 4 && TrailingPads(t) == (3 - n % 3) % 3
    ensures |t| % 4 == 0 && TrailingPads(t) <= 2 && |t| / 4 * 3 - TrailingPads(t) == n
  {
  }

  /**
   Text is measured exactly when some canonical encoding has its length and its padding, white space
   aside, and as what that encoding decodes to.
   */
  lemma MeasuredExactly(encoded: seq<Byte>, n: nat)
    ensures DecodedLen(encoded) == Some(n) <==>
              var t := Strip(encoded);
              exists bytes :: |bytes| == n && |Encode(bytes)| == |t| && TrailingPads(Encode(bytes)) == TrailingPads(t)
  {
    hide Strip, Encode, TrailingPads;
    var t := Strip(encoded);
    if DecodedLen(encoded) == Some(n) {
      var bytes: seq<Byte> := seq(n, _ => 0);
      EncodePads(bytes);
      LengthOfMeasured(|t|, TrailingPads(t), n);
      assert |bytes| == n && |Encode(bytes)| == |t| && TrailingPads(Encode(bytes)) == TrailingPads(t);
    }
    forall bytes: seq<Byte> | |bytes| == n && |Encode(bytes)| == |t| && TrailingPads(Encode(bytes)) == TrailingPads(t)
      ensures DecodedLen(encoded) == Some(n)
    {
      EncodePads(bytes);
      DecodedLenOfCanonical(t, n);
    }
  }

  lemma LengthOfMeasured(length: nat, pads: nat, n: nat)
    requires length % 4 == 0 && pads <= 2 && n == length / 4 * 3 - pads
    ensures (n + 2) / 3 * 4 == length && (3 - n % 3) % 3 == pads
  {
  }

  // -------------------------------------------------------------------------
  // The two-phase check
  // -------------------------------------------------------------------------

  datatype Attachment = Attachment(filename: string, contentType: string, contentBase64: seq<Byte>)

  datatype OutgoingAttachment = OutgoingAttachment(bytes: seq<Byte>, filename: string, contentType: string)

  datatype Limits = Limits(maxCount: nat, maxTotalBytes: nat)

  datatype AttachmentError =
    | TooMany(given: nat, max: nat)
    | BadContentType(index: nat)
    | BadBase64(index: nat)
    | TooLarge(total: nat, max: nat)

  predicate Measurable(a: Attachment) {
    Essence(a.contentType).Some? && DecodedLen(a.contentBase64).Some?
  }

  predicate Decodes(a: Attachment) {
    DecodeBase64(a.contentBase64).Some?
  }

  /** The first `k` attachments pass the first phase. */
  predicate MeasurableUpTo(s: seq<Attachment>, k: nat)
    requires k <= |s|
  {
    forall i :: 0 <= i < k ==> Measurable(s[i])
  }

  /** The first `k` attachments pass the second phase. */
  predicate DecodeUpTo(s: seq<Attachment>, k: nat)
    requires k <= |s|
  {
    forall i :: 0 <= i < k ==> Decodes(s[i])
  }

  /** The measured size of one attachment. */
  function Size(a: Attachment): nat {
    var size := DecodedLen(a.contentBase64);
    if size.Some? then size.value else 0
  }

  /** The measured size of the first `k` attachments together. */
  function TotalSize(s: seq<Attachment>, k: nat): nat
    requires k <= |s|
  {
    if k == 0 then 0 else TotalSize(s, k - 1) + Size(s[k - 1])
  }

  /** That total as a saturating `usize` reports it. */
  function ReportedSize(s: seq<Attachment>, k: nat): nat
    requires k <= |s|
  {
    SaturatingAdd(TotalSize(s, k), 0)
  }

  /** The first phase finds no fault. */
  predicate Measured(s: seq<Attachment>, limits: Limits) {
    && |s| <= limits.maxCount
    && MeasurableUpTo(s, |s|)
    && ReportedSize(s, |s|) <= limits.maxTotalBytes
  }

  predicate Accepts(s: seq<Attachment>, limits: Limits) {
    Measured(s, limits) && DecodeUpTo(s, |s|)
  }

  /** Why a request is refused: the first fault in the order the two phases look for them. */
  predicate IsCause(s: seq<Attachment>, limits: Limits, e: AttachmentError) {
    match e
    case TooMany(given, max) => given == |s| > limits.maxCount == max
    case BadContentType(k) =>
      |s| <= limits.maxCount && k < |s| && MeasurableUpTo(s, k) && Essence(s[k].contentType).None?
    case TooLarge(total, max) =>
      && |s| <= limits.maxCount && MeasurableUpTo(s, |s|)
      && total == ReportedSize(s, |s|) > limits.maxTotalBytes == max
    case BadBase64(k) =>
      && |s| <= limits.maxCount && k < |s|
      && (|| (MeasurableUpTo(s, k) && Essence(s[k].contentType).Some? && !Measurable(s[k]))
          || (Measured(s, limits) && DecodeUpTo(s, k) && !Decodes(s[k])))
  }

  /** `out` is the message part an accepted attachment becomes. */
  predicate BecomesPart(a: Attachment, out: OutgoingAttachment) {
    && DecodeBase64(a.contentBase64) == Some(out.bytes)
    && out.filename == SanitizeFilename(a.filename)
    && Essence(a.contentType) == Some(out.contentType)
  }

  /** `out` answers `s` part by part. */
  predicate BecomeParts(s: seq<Attachment>, out: seq<OutgoingAttachment>) {
    |out| == |s| && forall i :: 0 <= i < |s| ==> BecomesPart(s[i], out[i])
  }

  /** `decodes` counts the base64 decodes performed. */
  method DecodeAttachments(attachments: seq<Attachment>, limits: Limits)
    returns (r: Result<seq<OutgoingAttachment>, AttachmentError>, ghost decodes: nat)
    ensures r.Ok? <==> Accepts(attachments, limits)
    ensures r.Ok? ==> BecomeParts(attachments, r.value)
    ensures r.Err? ==> IsCause(attachments, limits, r.error)
    ensures !Measured(attachments, limits) ==> decodes == 0
  {
    hide Essence, DecodedLen, DecodeBase64, SanitizeFilename;
    decodes := 0;
    if |attachments| > limits.maxCount {
      return Err(TooMany(|attachments|, limits.maxCount)), decodes;
    }

    var contentTypes: seq<string> := [];
    var total: nat := 0;
    for index := 0 to |attachments|
      invariant MeasurableUpTo(attachments, index)
      invariant total == ReportedSize(attachments, index)
      invariant |contentTypes| == index
      invariant forall i :: 0 <= i < index ==> Essence(attachments[i].contentType) == Some(contentTypes[i])
    {
      var essence := Essence(attachments[index].contentType);
      if essence.None? {
        return Err(BadContentType(index)), decodes;
      }
      contentTypes := contentTypes + [essence.value];
      var size := ComputeDecodedLen(attachments[index].contentBase64);
      if size.None? {
        return Err(BadBase64(index)), decodes;
      }
      total := SaturatingAdd(total, size.value);
    }
    if total > limits.maxTotalBytes {
      return Err(TooLarge(total, limits.maxTotalBytes)), decodes;
    }

    var out: seq<OutgoingAttachment> := [];
    for index := 0 to |attachments|
      invariant DecodeUpTo(attachments, index)
      invariant |out| == index
      invariant forall i :: 0 <= i < index ==> BecomesPart(attachments[i], out[i])
    {
      decodes := decodes + 1;
      var bytes := DecodeBase64(attachments[index].contentBase64);
      if bytes.None? {
        return Err(BadBase64(index)), decodes;
      }
      var name := SanitizeFilename(attachments[index].filename);
      out := out + [OutgoingAttachment(bytes.value, name, contentTypes[index])];
    }
    return Ok(out), decodes;
  }

  /** A refusal has one cause, and an accepted request has none. */
  lemma CauseIsUnique(s: seq<Attachment>, limits: Limits, e: AttachmentError, e': AttachmentError)
    requires IsCause(s, limits, e) && IsCause(s, limits, e')
    ensures e == e'
    ensures !Accepts(s, limits)
  {
  }

  function TotalBytes(out: seq<OutgoingAttachment>, k: nat): nat
    requires k <= |out|
  {
    if k == 0 then 0 else TotalBytes(out, k - 1) + |out[k - 1].bytes|
  }

  /** All the attachment text of the first `k` attachments. */
  function ContentLength(s: seq<Attachment>, k: nat): nat
    requires k <= |s|
  {
    if k == 0 then 0 else ContentLength(s, k - 1) + |s[k - 1].contentBase64|
  }

  /**
   The decoded parts of an accepted request weigh what was measured, so they fit the cap: every cap,
   for text that fits a `usize`, and every cap below `USIZE_MAX` in any case.
   */
  lemma AcceptedFitsTheCap(s: seq<Attachment>, out: seq<OutgoingAttachment>, limits: Limits)
    requires BecomeParts(s, out)
    ensures TotalBytes(out, |s|) == TotalSize(s, |s|)
    ensures Accepts(s, limits) && ContentLength(s, |s|) <= USIZE_MAX ==> TotalBytes(out, |s|) <= limits.maxTotalBytes
    ensures Accepts(s, limits) ==> TotalBytes(out, |s|) <= limits.maxTotalBytes || limits.maxTotalBytes >= USIZE_MAX
  {
    hide Essence, DecodedLen, DecodeBase64, SanitizeFilename;
    TotalsAgree(s, out, |s|);
    SizeIsWithinText(s, |s|);
  }

  lemma {:induction false} SizeIsWithinText(s: seq<Attachment>, k: nat)
    requires k <= |s|
    ensures TotalSize(s, k) <= ContentLength(s, k)
  {
    hide Strip;
    if k > 0 {
      SizeIsWithinText(s, k - 1);
    }
  }

  lemma {:induction false} TotalsAgree(s: seq<Attachment>, out: seq<OutgoingAttachment>, k: nat)
    requires BecomeParts(s, out) && k <= |s|
    ensures TotalBytes(out, k) == TotalSize(s, k)
  {
    hide Essence, DecodedLen, DecodeBase64, SanitizeFilename;
    if k > 0 {
      TotalsAgree(s, out, k - 1);
      DecodedLenIsExact(s[k - 1].contentBase64);
    }
  }

  // -------------------------------------------------------------------------
  // The whole message
  // -------------------------------------------------------------------------

  datatype Body = TextBody(text: string) | HtmlBody(html: string) | BothBodies(text: string, html: string)

  datatype SendRequest = SendRequest(
    from: string, to: seq<string>, cc: seq<string>, bcc: seq<string>, subject: string,
    text: Option<string>, html: Option<string>, attachments: seq<Attachment>)

  datatype OutgoingMessage = OutgoingMessage(
    from: string, to: seq<string>, cc: seq<string>, bcc: seq<string>, subject: string,
    body: Body, attachments: seq<OutgoingAttachment>)

  datatype MessageError = NoRecipient | NoBody | BadAttachment(cause: AttachmentError)

  /** A request becomes a message exactly when it has a recipient, a body and acceptable attachments. */
  method IntoMessage(request: SendRequest, limits: Limits) returns (r: Result<OutgoingMessage, MessageError>)
    ensures r.Ok? <==>
              && request.to != []
              && (request.text.Some? || request.html.Some?)
              && Accepts(request.attachments, limits)
    ensures r.Err? ==>
              match r.error
              case NoRecipient => request.to == []
              case NoBody => request.to != [] && request.text.None? && request.html.None?
              case BadAttachment(cause) =>
                && request.to != []
                && (request.text.Some? || request.html.Some?)
                && IsCause(request.attachments, limits, cause)
    ensures r.Ok? ==>
              && r.value.from == request.from && r.value.subject == request.subject
              && r.value.to == request.to && r.value.cc == request.cc && r.value.bcc == request.bcc
              && request.text == (if r.value.body.HtmlBody? then None else Some(r.value.body.text))
              && request.html == (if r.value.body.TextBody? then None else Some(r.value.body.html))
              && BecomeParts(request.attachments, r.value.attachments)
  {
    if request.to == [] {
      return Err(NoRecipient);
    }
    var body: Body;
    match (request.text, request.html) {
      case (Some(text), Some(html)) => body := BothBodies(text, html);
      case (Some(text), None) => body := TextBody(text);
      case (None, Some(html)) => body := HtmlBody(html);
      case (None, None) => return Err(NoBody);
    }
    var attachments, _ := DecodeAttachments(request.attachments, limits);
    if attachments.Err? {
      return Err(BadAttachment(attachments.error));
    }
    return Ok(OutgoingMessage(
      request.from, request.to, request.cc, request.bcc, request.subject, body, attachments.value));
  }
}
