/** The two text fields of an attachment that end up in a MIME header: content type and filename. */
module AttachmentFields {
  import opened Wrappers
  import opened Text

  // -------------------------------------------------------------------------
  // Content type
  // -------------------------------------------------------------------------

  const TSPECIALS := "()<>@,;:\\\"/[]?="

  /** The `token` of section 5.1 of RFC 2045. */
  predicate IsToken(part: string) {
    part != [] && forall c :: c in part ==> 0x21 <= c as int <= 0x7E && c !in TSPECIALS
  }

  /** Printable ASCII without the fifteen specials. */
  lemma TokenCharsExactly(c: char)
    ensures IsToken([c]) <==>
              && '!' <= c <= '~'
              && c != '(' && c != ')' && c != '<' && c != '>' && c != '@' && c != ',' && c != ';' && c != ':'
              && c != '\\' && c != '"' && c != '/' && c != '[' && c != ']' && c != '?' && c != '='
  {
    assert c in [c];
    assert forall d :: d in [c] ==> d == c;
  }

  predicate NoControls(s: string) {
    forall i :: 0 <= i < |s| ==> !IsControl(s[i])
  }

  /** What precedes the first `;`. */
  function BeforeParameters(raw: string): string {
    match SplitOnce(raw, ';')
    case Some(p) => p.0
    case None => raw
  }

  /** Reduce a content type to lowercase `type/subtype`, or nothing if it is not one. */
  function Essence(raw: string): Option<string> {
    if !NoControls(raw) then None
    else match SplitOnce(Trim(BeforeParameters(raw)), '/')
      case None => None
      case Some((kind, subtype)) =>
        if !IsToken(kind) || !IsToken(subtype) || Lower(kind) == "multipart" then None
        else Some(Lower(kind) + "/" + Lower(subtype))
  }

  /** The content types the gateway lets through: two lowercase tokens, not `multipart`. */
  ghost predicate Essential(t: string) {
    exists kind, subtype ::
      && t == kind + "/" + subtype
      && IsToken(kind) && IsToken(subtype)
      && Lower(kind) == kind && Lower(subtype) == subtype
      && kind != "multipart"
  }

  lemma LowerToken(part: string)
    requires IsToken(part)
    ensures IsToken(Lower(part)) && Lower(Lower(part)) == Lower(part)
  {
    var low := Lower(part);
    forall c | c in low ensures 0x21 <= c as int <= 0x7E && c !in TSPECIALS {
      var i :| 0 <= i < |low| && low[i] == c;
      assert part[i] in part;
    }
  }

  lemma TokenHasNone(part: string, c: char)
    requires IsToken(part) && (c == ';' || c == '/' || IsWhitespace(c) || IsControl(c))
    ensures c !in part
  {
  }

  /** A media type of two tokens, white space around it and parameters after it. */
  predicate SpelledOut(raw: string, before: string, kind: string, subtype: string, after: string, parameters: string) {
    && raw == before + (kind + "/" + subtype) + after + parameters
    && AllWhitespace(before) && AllWhitespace(after)
    && IsToken(kind) && IsToken(subtype)
    && (parameters != [] ==> parameters[0] == ';')
  }

  /** Case, surrounding white space and parameters never matter. */
  lemma EssenceOfSpelling(raw: string, before: string, kind: string, subtype: string, after: string, parameters: string)
    requires SpelledOut(raw, before, kind, subtype, after, parameters)
    requires NoControls(raw) && Lower(kind) != "multipart"
    ensures Essence(raw) == Some(Lower(kind) + "/" + Lower(subtype))
  {
    var core := kind + "/" + subtype;
    var head := before + core + after;
    assert ';' !in head by {
      TokenHasNone(kind, ';');
      TokenHasNone(subtype, ';');
      assert !IsWhitespace(';');
    }
    assert BeforeParameters(raw) == head by {
      if parameters == [] {
        assert raw == head;
      } else {
        SplitOnceUnique(head, ';', parameters[1..]);
        assert raw == head + [';'] + parameters[1..];
      }
    }
    assert Trim(head) == core by {
      assert core[0] in kind && core[|core| - 1] in subtype;
      TrimCore(before, core, after);
    }
    TokenHasNone(kind, '/');
    SplitOnceUnique(kind, '/', subtype);
  }

  /** Every accepted content type is normal, and normalising it again changes nothing. */
  lemma EssenceIsNormal(raw: string)
    ensures Essence(raw).Some? ==>
              Essential(Essence(raw).value) && Essence(Essence(raw).value) == Essence(raw)
  {
    if Essence(raw).Some? {
      var (kind, subtype) := SplitOnce(Trim(BeforeParameters(raw)), '/').value;
      LowerToken(kind);
      LowerToken(subtype);
      EssentialIsFixed(Lower(kind), Lower(subtype));
    }
  }

  lemma EssentialIsFixed(kind: string, subtype: string)
    requires IsToken(kind) && IsToken(subtype) && Lower(kind) == kind && Lower(subtype) == subtype
    requires kind != "multipart"
    ensures Essence(kind + "/" + subtype) == Some(kind + "/" + subtype)
    ensures Essential(kind + "/" + subtype)
  {
    var t := kind + "/" + subtype;
    assert NoControls(t) by {
      forall i | 0 <= i < |t| ensures !IsControl(t[i]) {
        assert t[i] in kind || t[i] in subtype || t[i] == '/';
      }
    }
    assert t == [] + (kind + "/" + subtype) + [] + [];
    EssenceOfSpelling(t, [], kind, subtype, [], []);
  }

  /** Nothing else is accepted: an accepted value is spelled as above. */
  lemma EssenceNeedsSpelling(raw: string)
    ensures Essence(raw).Some? ==>
              && NoControls(raw)
              && exists before, kind, subtype, after, parameters ::
                   SpelledOut(raw, before, kind, subtype, after, parameters) && Lower(kind) != "multipart"
  {
    hide IsToken, NoControls, Lower, IsWhitespace, Trim;
    if Essence(raw).Some? {
      var head := BeforeParameters(raw);
      var parameters := raw[|head|..];
      var before, after := TrimSplits(head);
      var (kind, subtype) := SplitOnce(Trim(head), '/').value;
      assert raw == head + parameters;
      assert Trim(head) == kind + "/" + subtype;
      assert SpelledOut(raw, before, kind, subtype, after, parameters);
    }
  }

  // -------------------------------------------------------------------------
  // Filename
  // -------------------------------------------------------------------------

  const MAX_FILENAME_CHARS: nat := 255
  const FALLBACK_FILENAME := "attachment"

  predicate IsBidiControl(c: char) {
    var u := c as int;
    u == 0x200E || u == 0x200F || 0x202A <= u <= 0x202E || 0x2066 <= u <= 0x2069
  }

  predicate IsStripped(c: char) {
    IsControl(c) || IsBidiControl(c) || c == '/' || c == '\\'
  }

  /** The characters that survive, in order. */
  function Keep(s: string): (r: string)
    ensures |r| <= |s|
    ensures forall i :: 0 <= i < |r| ==> !IsStripped(r[i])
  {
    if s == [] then []
    else (if IsStripped(s[0]) then [] else [s[0]]) + Keep(s[1..])
  }

  /** What is stripped is dropped wherever it stands, and nothing else is. */
  lemma {:induction false} KeepExactly(a: string, b: string, c: char)
    ensures Keep(a + b) == Keep(a) + Keep(b)
    ensures var u := c as int;
            Keep([c]) == if u < 0x20 || 0x7F <= u <= 0x9F || u == 0x200E || u == 0x200F
                            || 0x202A <= u <= 0x202E || 0x2066 <= u <= 0x2069 || c == '/' || c == '\\'
                         then [] else [c]
  {
    if a == [] {
      assert a + b == b;
    } else {
      KeepExactly(a[1..], b, c);
      assert (a + b)[1..] == a[1..] + b && (a + b)[0] == a[0];
    }
  }

  /** Clamp a trimmed name, and fall back when nothing meaningful is left. */
  function Clamp(cleaned: string): string {
    var clamped := if |cleaned| > MAX_FILENAME_CHARS then cleaned[..MAX_FILENAME_CHARS] else cleaned;
    var name := TrimEnd(clamped);
    if name == [] || AllDots(name) then FALLBACK_FILENAME else name
  }

  /** Drop what may not appear, then the white space outside, then what is too long. */
  function SanitizeFilename(raw: string): string {
    Clamp(Trim(Keep(raw)))
  }

  /** A filename fit to send. */
  predicate SafeFilename(name: string) {
    && 0 < |name| <= 255
    && (forall i :: 0 <= i < |name| ==> !IsStripped(name[i]))
    && Trimmed(name)
    && !AllDots(name)
  }

  lemma {:induction false} KeepFixpoint(s: string)
    requires forall i :: 0 <= i < |s| ==> !IsStripped(s[i])
    ensures Keep(s) == s
  {
    if s != [] {
      KeepFixpoint(s[1..]);
      assert s == [s[0]] + s[1..];
    }
  }

  /** Sanitizing yields a safe filename, and leaves exactly the safe filenames alone. */
  lemma SanitizeIsNormal(raw: string)
    ensures SafeFilename(SanitizeFilename(raw))
    ensures SanitizeFilename(raw) == raw <==> SafeFilename(raw)
    ensures SanitizeFilename(SanitizeFilename(raw)) == SanitizeFilename(raw)
  {
    SanitizedIsSafe(raw);
    SafeIsFixed(SanitizeFilename(raw));
    if SafeFilename(raw) {
      SafeIsFixed(raw);
    }
  }

  lemma SanitizedIsSafe(raw: string)
    ensures SafeFilename(SanitizeFilename(raw))
  {
    var kept := Keep(raw);
    var before, after := TrimSplits(kept);
    forall i | 0 <= i < |Trim(kept)| ensures !IsStripped(Trim(kept)[i]) {
      assert Trim(kept)[i] == kept[|before| + i];
    }
    ClampedIsSafe(Trim(kept));
  }

  lemma ClampedIsSafe(cleaned: string)
    requires Trimmed(cleaned) && forall i :: 0 <= i < |cleaned| ==> !IsStripped(cleaned[i])
    ensures SafeFilename(Clamp(cleaned))
  {
    var clamped := if |cleaned| > MAX_FILENAME_CHARS then cleaned[..MAX_FILENAME_CHARS] else cleaned;
    var name := TrimEnd(clamped);
    if name == [] || AllDots(name) {
      assert FALLBACK_FILENAME[0] == 'a';
    } else {
      assert forall i :: 0 <= i < |name| ==> name[i] == cleaned[i];
    }
  }

  /** The longest start of `cleaned` that fits the clamp and does not end in white space. */
  predicate IsFront(cleaned: string, front: string) {
    && front <= cleaned && |front| <= 255
    && (front != [] ==> !IsWhitespace(front[|front| - 1]))
    && forall i :: |front| <= i < |cleaned| && i < 255 ==> IsWhitespace(cleaned[i])
  }

  /** A name becomes its front, and the fallback exactly when that is nothing but dots, or nothing. */
  lemma SanitizeKeepsTheFront(raw: string, front: string)
    ensures IsFront(Trim(Keep(raw)), front) ==>
              SanitizeFilename(raw) == if AllDots(front) then "attachment" else front
    ensures exists f :: IsFront(Trim(Keep(raw)), f)
  {
    hide Keep, Trim, IsStripped, IsWhitespace, AllDots;
    var cleaned := Trim(Keep(raw));
    var clamped := if |cleaned| > MAX_FILENAME_CHARS then cleaned[..MAX_FILENAME_CHARS] else cleaned;
    assert forall i :: 0 <= i < |clamped| ==> clamped[i] == cleaned[i];
    var f := TrimEnd(clamped);
    assert IsFront(cleaned, f);
    assert AllDots([]) by {
      EmptyIsAllDots();
    }
    if IsFront(cleaned, front) {
      FrontIsUnique(cleaned, front, f);
    }
  }

  lemma EmptyIsAllDots()
    ensures AllDots([])
  {
  }

  lemma FrontIsUnique(cleaned: string, a: string, b: string)
    requires IsFront(cleaned, a) && IsFront(cleaned, b)
    ensures a == b
  {
    FrontAtMost(cleaned, a, b);
    FrontAtMost(cleaned, b, a);
  }

  lemma FrontAtMost(cleaned: string, a: string, b: string)
    requires IsFront(cleaned, a) && IsFront(cleaned, b)
    ensures |a| <= |b|
  {
    hide IsWhitespace;
    assert a != [] ==> a[|a| - 1] == cleaned[|a| - 1];
  }

  lemma SafeIsFixed(name: string)
    requires SafeFilename(name)
    ensures SanitizeFilename(name) == name
  {
    KeepFixpoint(name);
    TrimFixpoint(name);
  }
}
