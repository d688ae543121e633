/**
 The string primitives the gateway's parsers lean on: the Unicode character classes of Rust's
 `char::is_whitespace` and `char::is_control`, `trim`, `split`, `split_once` and `rsplit_once`.
 A string is a sequence of Unicode scalar values, as a Rust `str` is.
 */
module Text {
  import opened Wrappers

  /** The White_Space property. */
  predicate IsWhitespace(c: char) {
    var u := c as int;
    || 0x09 <= u <= 0x0D
    || u in {0x20, 0x85, 0xA0, 0x1680, 0x2028, 0x2029, 0x202F, 0x205F, 0x3000}
    || 0x2000 <= u <= 0x200A
  }

  /** The general category Cc. */
  predicate IsControl(c: char) {
    var u := c as int;
    u < 0x20 || 0x7F <= u < 0xA0
  }

  predicate IsAsciiDigit(c: char) {
    '0' <= c <= '9'
  }

  function LowerChar(c: char): char {
    if 'A' <= c <= 'Z' then (c as int + 32) as char else c
  }

  /** `str::to_ascii_lowercase`. */
  function Lower(s: string): (r: string)
    ensures |r| == |s| && forall i :: 0 <= i < |s| ==> r[i] == LowerChar(s[i])
  {
    seq(|s|, i requires 0 <= i < |s| => LowerChar(s[i]))
  }

  predicate AllDots(s: string) {
    forall i :: 0 <= i < |s| ==> s[i] == '.'
  }

  // -------------------------------------------------------------------------
  // Trimming
  // -------------------------------------------------------------------------

  /** How many characters of white space `s` starts with. */
  function Leading(s: string): (n: nat)
    ensures n <= |s|
    ensures forall i :: 0 <= i < n ==> IsWhitespace(s[i])
    ensures n < |s| ==> !IsWhitespace(s[n])
  {
    if s != [] && IsWhitespace(s[0]) then 1 + Leading(s[1..]) else 0
  }

  /** The length of `s` without the white space at its end. */
  function Kept(s: string): (n: nat)
    ensures n <= |s|
    ensures forall i :: n <= i < |s| ==> IsWhitespace(s[i])
    ensures n > 0 ==> !IsWhitespace(s[n - 1])
  {
    if s != [] && IsWhitespace(s[|s| - 1]) then Kept(s[..|s| - 1]) else |s|
  }

  function TrimStart(s: string): string {
    s[Leading(s)..]
  }

  function TrimEnd(s: string): string {
    s[..Kept(s)]
  }

  function Trim(s: string): (r: string)
    ensures Trimmed(r)
    ensures |r| <= |s|
  {
    TrimEnd(TrimStart(s))
  }

  /** No white space at either end. */
  predicate Trimmed(s: string) {
    s != [] ==> !IsWhitespace(s[0]) && !IsWhitespace(s[|s| - 1])
  }

  lemma TrimFixpoint(s: string)
    ensures Trim(s) == s <==> Trimmed(s)
  {
  }

  predicate AllWhitespace(s: string) {
    forall i :: 0 <= i < |s| ==> IsWhitespace(s[i])
  }

  lemma {:induction false} TrimStartCore(before: string, core: string)
    requires AllWhitespace(before)
    requires core != [] ==> !IsWhitespace(core[0])
    ensures TrimStart(before + core) == core
  {
    var s := before + core;
    var n := Leading(s);
    assert forall i :: 0 <= i < |before| ==> s[i] == before[i];
    assert core != [] ==> s[|before|] == core[0];
    assert n == |before|;
  }

  lemma {:induction false} TrimEndCore(core: string, after: string)
    requires AllWhitespace(after)
    requires core != [] ==> !IsWhitespace(core[|core| - 1])
    ensures TrimEnd(core + after) == core
  {
    var s := core + after;
    var n := Kept(s);
    assert forall i :: |core| <= i < |s| ==> s[i] == after[i - |core|];
    assert core != [] ==> s[|core| - 1] == core[|core| - 1];
    assert n == |core|;
  }

  /** `Trim` removes exactly the white space around a trimmed core. */
  lemma TrimCore(before: string, core: string, after: string)
    requires Trimmed(core) && core != []
    requires AllWhitespace(before) && AllWhitespace(after)
    ensures Trim(before + core + after) == core
  {
    assert before + core + after == before + (core + after);
    TrimStartCore(before, core + after);
    TrimEndCore(core, after);
  }

  /** What `Trim` removed. */
  lemma TrimSplits(s: string) returns (before: string, after: string)
    ensures s == before + Trim(s) + after
    ensures AllWhitespace(before) && AllWhitespace(after)
  {
    var t := TrimStart(s);
    before, after := s[..Leading(s)], t[Kept(t)..];
    assert t == Trim(s) + after;
    assert s == before + t;
  }

  // -------------------------------------------------------------------------
  // Splitting
  // -------------------------------------------------------------------------

  /** `str::split_once`: cut at the first `sep`. */
  function SplitOnce(s: string, sep: char): (r: Option<(string, string)>)
    ensures r.None? <==> sep !in s
    ensures r.Some? ==> s == r.value.0 + [sep] + r.value.1 && sep !in r.value.0
  {
    if s == [] then None
    else if s[0] == sep then Some(([], s[1..]))
    else match SplitOnce(s[1..], sep)
      case None => None
      case Some(p) => Some(([s[0]] + p.0, p.1))
  }

  /** `str::rsplit_once`: cut at the last `sep`. */
  function RSplitOnce(s: string, sep: char): (r: Option<(string, string)>)
    ensures r.None? <==> sep !in s
    ensures r.Some? ==> s == r.value.0 + [sep] + r.value.1 && sep !in r.value.1
  {
    if s == [] then None
    else
      var n := |s| - 1;
      if s[n] == sep then Some((s[..n], []))
      else match RSplitOnce(s[..n], sep)
        case None => None
        case Some(p) => Some((p.0, p.1 + [s[n]]))
  }

  lemma {:induction false} SplitOnceUnique(a: string, sep: char, b: string)
    requires sep !in a
    ensures SplitOnce(a + [sep] + b, sep) == Some((a, b))
  {
    var s := a + [sep] + b;
    if a == [] {
      assert s[1..] == b;
    } else {
      SplitOnceUnique(a[1..], sep, b);
      assert s[1..] == a[1..] + [sep] + b;
      assert [a[0]] + a[1..] == a && s[0] == a[0];
    }
  }

  lemma {:induction false} RSplitOnceUnique(a: string, sep: char, b: string)
    requires sep !in b
    ensures RSplitOnce(a + [sep] + b, sep) == Some((a, b))
  {
    var s := a + [sep] + b;
    var n := |s| - 1;
    if b == [] {
      assert s[..n] == a;
    } else {
      RSplitOnceUnique(a, sep, b[..|b| - 1]);
      assert s[..n] == a + [sep] + b[..|b| - 1];
      assert b[..|b| - 1] + [b[|b| - 1]] == b && s[n] == b[|b| - 1];
    }
  }

  /** `str::split` on one character. */
  function Split(s: string, sep: char): (parts: seq<string>)
    ensures parts != []
    ensures forall i :: 0 <= i < |parts| ==> sep !in parts[i]
    ensures Join(parts, [sep]) == s
    decreases |s|
  {
    match SplitOnce(s, sep)
    case None => [s]
    case Some(p) => [p.0] + Split(p.1, sep)
  }

  /** `[String]::join`. */
  function Join(parts: seq<string>, sep: string): string {
    if parts == [] then []
    else if |parts| == 1 then parts[0]
    else parts[0] + sep + Join(parts[1..], sep)
  }

  lemma {:induction false} SplitJoin(parts: seq<string>, sep: char)
    requires parts != []
    requires forall i :: 0 <= i < |parts| ==> sep !in parts[i]
    ensures Split(Join(parts, [sep]), sep) == parts
  {
    if |parts| == 1 {
      assert parts == [parts[0]];
    } else {
      SplitOnceUnique(parts[0], sep, Join(parts[1..], [sep]));
      SplitJoin(parts[1..], sep);
      assert parts == [parts[0]] + parts[1..];
    }
  }

  lemma {:induction false} JoinConcat(a: seq<string>, b: seq<string>, sep: string)
    requires a != [] && b != []
    ensures Join(a + b, sep) == Join(a, sep) + sep + Join(b, sep)
  {
    assert (a + b)[1..] == a[1..] + b;
    if |a| > 1 {
      JoinConcat(a[1..], b, sep);
    } else {
      assert a[1..] + b == b;
    }
  }

  lemma SplitConcat(a: string, sep: char, b: string)
    ensures Split(a + [sep] + b, sep) == Split(a, sep) + Split(b, sep)
  {
    var parts := Split(a, sep) + Split(b, sep);
    JoinConcat(Split(a, sep), Split(b, sep), [sep]);
    SplitJoin(parts, sep);
  }

  /** Every character of a joined string is the separator or belongs to a part. */
  lemma {:induction false} JoinedCharacters(parts: seq<string>, sep: char, c: char)
    requires c in Join(parts, [sep])
    ensures c == sep || exists i :: 0 <= i < |parts| && c in parts[i]
  {
    if |parts| > 1 && c !in parts[0] && c != sep {
      JoinedCharacters(parts[1..], sep, c);
      var i :| 0 <= i < |parts| - 1 && c in parts[1..][i];
      assert c in parts[i + 1];
    }
  }

  lemma {:induction false} PartsAreJoined(parts: seq<string>, sep: char, i: nat, c: char)
    requires i < |parts| && c in parts[i]
    ensures c in Join(parts, [sep])
  {
    if i > 0 {
      PartsAreJoined(parts[1..], sep, i - 1, c);
    }
  }

  // -------------------------------------------------------------------------
  // Decimal numerals
  // -------------------------------------------------------------------------

  predicate AllDigits(s: string) {
    forall i :: 0 <= i < |s| ==> IsAsciiDigit(s[i])
  }

  /** The number a digit string denotes. */
  function Value(s: string): nat
    requires AllDigits(s)
  {
    if s == [] then 0
    else 10 * Value(s[..|s| - 1]) + (s[|s| - 1] as int - '0' as int)
  }

  /** `to_string` of an unsigned integer. */
  function Decimal(n: nat): (s: string)
    ensures s != [] && AllDigits(s)
    ensures Value(s) == n
    ensures n != 0 ==> s[0] != '0'
    ensures n < 10 ==> |s| == 1
    ensures 10 <= n < 100 ==> |s| == 2
    ensures 100 <= n < 1000 ==> |s| == 3
  {
    if n < 10 then
      assert [(n + '0' as int) as char][..0] == [];
      [(n + '0' as int) as char]
    else
      var front, last := Decimal(n / 10), (n % 10 + '0' as int) as char;
      assert (front + [last])[..|front|] == front;
      front + [last]
  }

  /** `str::parse` at an unsigned type whose largest value is `max`: one optional `+`, then digits. */
  function ParseUint(s: string, max: nat): Option<nat> {
    var digits := if |s| > 1 && s[0] == '+' then s[1..] else s;
    if digits == [] || !AllDigits(digits) then None
    else if Value(digits) > max then None
    else Some(Value(digits))
  }

  lemma {:induction false} LeadingZeros(zeros: string, s: string)
    requires AllDigits(s) && forall i :: 0 <= i < |zeros| ==> zeros[i] == '0'
    ensures AllDigits(zeros + s) && Value(zeros + s) == Value(s)
  {
    var t := zeros + s;
    assert AllDigits(t);
    if s != [] {
      LeadingZeros(zeros, s[..|s| - 1]);
      assert t[..|t| - 1] == zeros + s[..|s| - 1];
    } else if zeros != [] {
      assert t == zeros && t[..|t| - 1] == zeros[..|zeros| - 1] + s;
      LeadingZeros(zeros[..|zeros| - 1], s);
    }
  }

  /** A numeral parses back whatever zeros pad it, and exactly when it fits the type. */
  lemma ParsePadded(zeros: string, n: nat, max: nat)
    requires forall i :: 0 <= i < |zeros| ==> zeros[i] == '0'
    ensures ParseUint(zeros + Decimal(n), max) == if n <= max then Some(n) else None
  {
    LeadingZeros(zeros, Decimal(n));
    assert (zeros + Decimal(n))[0] != '+';
  }

  lemma ParseDecimal(n: nat, max: nat)
    ensures ParseUint(Decimal(n), max) == if n <= max then Some(n) else None
  {
    assert Decimal(n)[0] != '+';
  }

  predicate AllZeros(s: string) {
    forall i :: 0 <= i < |s| ==> s[i] == '0'
  }

  /** A digit string is the numeral of its value, padded. */
  lemma {:induction false} DigitsAreNumeral(s: string) returns (zeros: string)
    requires s != [] && AllDigits(s)
    ensures AllZeros(zeros) && s == zeros + Decimal(Value(s))
  {
    var n := |s| - 1;
    var last := s[n] as int - '0' as int;
    assert s == s[..n] + [s[n]];
    if n == 0 {
      zeros := [];
      assert Value(s[..0]) == 0;
    } else {
      var front := DigitsAreNumeral(s[..n]);
      var v := Value(s[..n]);
      if v == 0 {
        zeros := front + "0";
        assert Decimal(0) == "0" && Decimal(last) == [s[n]];
      } else {
        zeros := front;
        assert (10 * v + last) / 10 == v && (10 * v + last) % 10 == last;
        assert Decimal(10 * v + last) == Decimal(v) + [s[n]];
      }
    }
  }

  predicate SpellsUint(s: string, n: nat, sign: string, zeros: string) {
    (sign == "" || sign == "+") && AllZeros(zeros) && s == sign + (zeros + Decimal(n))
  }

  /** What parses as `n`: its numeral, with any zeros and one plus sign before it, if it fits. */
  lemma ParseUintExactly(s: string, max: nat, n: nat)
    ensures ParseUint(s, max) == Some(n) <==> n <= max && exists sign, zeros :: SpellsUint(s, n, sign, zeros)
  {
    hide Decimal, Value;
    if ParseUint(s, max) == Some(n) {
      var sign := if |s| > 1 && s[0] == '+' then "+" else "";
      var digits := s[|sign|..];
      var zeros := DigitsAreNumeral(digits);
      assert SpellsUint(s, n, sign, zeros);
    }
    forall sign, zeros | SpellsUint(s, n, sign, zeros) && n <= max ensures ParseUint(s, max) == Some(n) {
      SpelledUintParses(s, max, n, sign, zeros);
    }
  }

  lemma SpelledUintParses(s: string, max: nat, n: nat, sign: string, zeros: string)
    requires SpellsUint(s, n, sign, zeros) && n <= max
    ensures ParseUint(s, max) == Some(n)
  {
    hide Decimal, Value;
    var digits := zeros + Decimal(n);
    LeadingZeros(zeros, Decimal(n));
    assert digits[0] != '+';
    if sign == "+" {
      assert s[1..] == digits;
    } else {
      assert s == digits;
    }
  }

  /** The ASCII letters in lower case, every other character itself. */
  lemma LowerExactly(s: string, i: nat)
    requires i < |s|
    ensures |Lower(s)| == |s|
    ensures Lower(s)[i] == if 'A' <= s[i] <= 'Z' then (s[i] as int + ('a' as int - 'A' as int)) as char else s[i]
  {
  }

  /** Within ASCII, white space is HT, LF, VT, FF, CR and space; a control is what is below space, and DEL. */
  lemma AsciiClasses(c: char)
    requires c as int < 0x80
    ensures IsWhitespace(c) <==> c == '\t' || c == '\n' || c as int == 0x0B || c as int == 0x0C || c == '\r' || c == ' '
    ensures IsControl(c) <==> c < ' ' || c as int == 0x7F
  {
  }
}
