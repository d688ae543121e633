/**
 The part of RFC 3501 a search is written in: quoted strings (section 4.3), dates and search keys
 (sections 6.4.4 and 9), read with raw non-ASCII text allowed inside strings.
 */
module ImapGrammar {
  import opened Wrappers
  import opened Text

  // -------------------------------------------------------------------------
  // Words and strings
  // -------------------------------------------------------------------------

  function UpperChar(c: char): char {
    if 'a' <= c <= 'z' then (c as int - 32) as char else c
  }

  /** `str::to_ascii_uppercase`. */
  function Upper(s: string): (r: string)
    ensures |r| == |s| && forall i :: 0 <= i < |s| ==> r[i] == UpperChar(s[i])
  {
    seq(|s|, i requires 0 <= i < |s| => UpperChar(s[i]))
  }

  /** Cut at the first space, which stays with the rest. */
  function Word(s: string): (r: (string, string))
    ensures s == r.0 + r.1
  {
    if s == [] || s[0] == ' ' then ([], s)
    else
      var (word, rest) := Word(s[1..]);
      ([s[0]] + word, rest)
  }

  lemma {:induction false} WordStops(word: string, rest: string)
    requires ' ' !in word && (rest == [] || rest[0] == ' ')
    ensures Word(word + rest) == (word, rest)
  {
    if word == [] {
      assert word + rest == rest;
    } else {
      assert (word + rest)[1..] == word[1..] + rest;
      WordStops(word[1..], rest);
      assert word == [word[0]] + word[1..];
    }
  }

  /** What may stand for itself inside a quoted string: any text but CR, LF and NUL. */
  predicate IsText(c: char) {
    c != '\r' && c != '\n' && c != '\0'
  }

  /** The inside of a quoted string, up to and past its closing quote. */
  function ReadQuotedRest(s: string): (r: Option<(string, string)>)
    ensures r.Some? ==> |r.value.1| < |s|
  {
    if s == [] || !IsText(s[0]) then None
    else if s[0] == '"' then Some(([], s[1..]))
    else if s[0] != '\\' then Prepend(s[0], ReadQuotedRest(s[1..]))
    else if |s| > 1 && (s[1] == '"' || s[1] == '\\') then Prepend(s[1], ReadQuotedRest(s[2..]))
    else None
  }

  function Prepend(c: char, r: Option<(string, string)>): Option<(string, string)> {
    match r
    case None => None
    case Some((v, rest)) => Some(([c] + v, rest))
  }

  function ReadQuoted(s: string): (r: Option<(string, string)>)
    ensures r.Some? ==> |r.value.1| < |s|
  {
    if s != [] && s[0] == '"' then ReadQuotedRest(s[1..]) else None
  }

  /** A character an unquoted argument may hold. */
  predicate IsAstringChar(c: char) {
    0x20 < c as int < 0x7F && c !in "(){%*\"\\"
  }

  /** An argument: quoted, or an atom. */
  function ReadAstring(s: string): (r: Option<(string, string)>)
    ensures r.Some? ==> |r.value.1| <= |s|
  {
    if s != [] && s[0] == '"' then ReadQuoted(s)
    else
      var (word, rest) := Word(s);
      if word != [] && forall c :: c in word ==> IsAstringChar(c) then Some((word, rest)) else None
  }

  // -------------------------------------------------------------------------
  // Dates
  // -------------------------------------------------------------------------

  datatype Date = Date(year: nat, month: nat, day: nat)

  predicate Before(a: Date, b: Date) {
    || a.year < b.year
    || (a.year == b.year && (a.month < b.month || (a.month == b.month && a.day < b.day)))
  }

  /** Earlier means fewer days from the start of the calendar, with 31 to each month and 12 months to a year. */
  lemma BeforeIsEarlier(a: Date, b: Date)
    requires 1 <= a.month <= 12 && 1 <= a.day <= 31 && 1 <= b.month <= 12 && 1 <= b.day <= 31
    ensures Before(a, b) <==>
              372 * a.year + 31 * (a.month - 1) + (a.day - 1) < 372 * b.year + 31 * (b.month - 1) + (b.day - 1)
  {
  }

  /** `date-month` of section 9, whose strings read in any case. */
  function DateMonth(s: string): Option<nat> {
    var m := Lower(s);
    if |m| != 3 then None
    else match (m[0], m[1], m[2])
      case ('j', 'a', 'n') => Some(1)
      case ('f', 'e', 'b') => Some(2)
      case ('m', 'a', 'r') => Some(3)
      case ('a', 'p', 'r') => Some(4)
      case ('m', 'a', 'y') => Some(5)
      case ('j', 'u', 'n') => Some(6)
      case ('j', 'u', 'l') => Some(7)
      case ('a', 'u', 'g') => Some(8)
      case ('s', 'e', 'p') => Some(9)
      case ('o', 'c', 't') => Some(10)
      case ('n', 'o', 'v') => Some(11)
      case ('d', 'e', 'c') => Some(12)
      case _ => None
  }

  /** The same table the other way. */
  function DateMonthText(m: nat): string
    requires 1 <= m <= 12
  {
    match m
    case 1 => "Jan"
    case 2 => "Feb"
    case 3 => "Mar"
    case 4 => "Apr"
    case 5 => "May"
    case 6 => "Jun"
    case 7 => "Jul"
    case 8 => "Aug"
    case 9 => "Sep"
    case 10 => "Oct"
    case 11 => "Nov"
    case _ => "Dec"
  }

  lemma DateMonthOfText(m: nat)
    requires 1 <= m <= 12
    ensures DateMonth(DateMonthText(m)) == Some(m) && |DateMonthText(m)| == 3
  {
    var t := DateMonthText(m);
    assert Lower(t)[0] == LowerChar(t[0]) && Lower(t)[1] == LowerChar(t[1]) && Lower(t)[2] == LowerChar(t[2]);
  }

  /** `date-text`: one or two digits, a month, four digits. */
  function ReadDateText(s: string): Option<Date> {
    var parts := Split(s, '-');
    if |parts| != 3 then None
    else
      var month := DateMonth(parts[1]);
      if || !(1 <= |parts[0]| <= 2) || !AllDigits(parts[0])
         || month.None?
         || |parts[2]| != 4 || !AllDigits(parts[2]) then None
      else Some(Date(Value(parts[2]), month.value, Value(parts[0])))
  }

  /** A date argument, quoted or not. */
  function ReadDate(s: string): (r: Option<(Date, string)>)
    ensures r.Some? ==> |r.value.1| <= |s|
  {
    var cut := if s != [] && s[0] == '"' then ReadQuoted(s) else Some(Word(s));
    match cut
    case None => None
    case Some((text, rest)) =>
      match ReadDateText(text)
      case None => None
      case Some(date) => Some((date, rest))
  }

  // -------------------------------------------------------------------------
  // Search keys
  // -------------------------------------------------------------------------

  datatype Key =
    | Flag(flag: string)
    | Match(field: string, value: string)
    | When(test: string, date: Date)

  const FLAG_KEYS: set<string> :=
    {"ALL", "ANSWERED", "DELETED", "DRAFT", "FLAGGED", "NEW", "OLD", "RECENT", "SEEN",
     "UNANSWERED", "UNDELETED", "UNDRAFT", "UNFLAGGED", "UNSEEN"}
  const STRING_KEYS: set<string> := {"BCC", "BODY", "CC", "FROM", "SUBJECT", "TEXT", "TO"}
  const DATE_KEYS: set<string> := {"BEFORE", "ON", "SENTBEFORE", "SENTON", "SENTSINCE", "SINCE"}

  /** One key and what follows it. */
  function ReadKey(s: string): (r: Option<(Key, string)>)
    ensures r.Some? ==> |r.value.1| <= |s|
  {
    var (word, rest) := Word(s);
    var name := Upper(word);
    if name in FLAG_KEYS then Some((Flag(name), rest))
    else if rest == [] then None
    else if name in STRING_KEYS then
      match ReadAstring(rest[1..])
      case None => None
      case Some((value, tail)) => Some((Match(name, value), tail))
    else if name in DATE_KEYS then
      match ReadDate(rest[1..])
      case None => None
      case Some((date, tail)) => Some((When(name, date), tail))
    else None
  }

  /** One or more keys, a single space between neighbours. */
  function ReadKeys(s: string): Option<seq<Key>>
    decreases |s|
  {
    match ReadKey(s)
    case None => None
    case Some((key, rest)) =>
      if rest == [] then Some([key])
      else if rest[0] != ' ' then None
      else match ReadKeys(rest[1..])
        case None => None
        case Some(keys) => Some([key] + keys)
  }

  // -------------------------------------------------------------------------
  // What a key asks of a message
  // -------------------------------------------------------------------------

  datatype Message = Message(
    bcc: string, body: string, cc: string, from: string, subject: string, text: string, to: string,
    received: Date, sent: Date, flags: set<string>)

  /** Section 6.4.4. `contains` is the server's substring match. */
  predicate Satisfies(key: Key, m: Message, contains: (string, string) -> bool) {
    match key
    case Flag(flag) =>
      if flag == "ALL" then true
      else if flag == "ANSWERED" then "\\Answered" in m.flags
      else if flag == "DELETED" then "\\Deleted" in m.flags
      else if flag == "DRAFT" then "\\Draft" in m.flags
      else if flag == "FLAGGED" then "\\Flagged" in m.flags
      else if flag == "RECENT" then "\\Recent" in m.flags
      else if flag == "SEEN" then "\\Seen" in m.flags
      else if flag == "UNANSWERED" then "\\Answered" !in m.flags
      else if flag == "UNDELETED" then "\\Deleted" !in m.flags
      else if flag == "UNDRAFT" then "\\Draft" !in m.flags
      else if flag == "UNFLAGGED" then "\\Flagged" !in m.flags
      else if flag == "UNSEEN" then "\\Seen" !in m.flags
      else if flag == "NEW" then "\\Recent" in m.flags && "\\Seen" !in m.flags
      else "\\Recent" !in m.flags
    case Match(field, value) =>
      if field == "BCC" then contains(m.bcc, value)
      else if field == "BODY" then contains(m.body, value)
      else if field == "CC" then contains(m.cc, value)
      else if field == "FROM" then contains(m.from, value)
      else if field == "SUBJECT" then contains(m.subject, value)
      else if field == "TO" then contains(m.to, value)
      else contains(m.text, value)
    case When(test, date) =>
      if test == "BEFORE" then Before(m.received, date)
      else if test == "ON" then m.received == date
      else if test == "SINCE" then !Before(m.received, date)
      else if test == "SENTBEFORE" then Before(m.sent, date)
      else if test == "SENTON" then m.sent == date
      else !Before(m.sent, date)
  }

  /** Adjacent keys are ANDed. */
  predicate SatisfiesAll(keys: seq<Key>, m: Message, contains: (string, string) -> bool) {
    forall i :: 0 <= i < |keys| ==> Satisfies(keys[i], m, contains)
  }
}
