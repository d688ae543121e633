/** The structured search request, compiled into an IMAP SEARCH key. */
module SearchRequest {
  import opened Wrappers
  import opened Text
  import opened ImapGrammar
  import Utf8

  datatype Field = From | Subject | Text | Since

  datatype SearchRequest = SearchRequest(
    from: Option<string>, subject: Option<string>, text: Option<string>, since: Option<string>,
    query: Option<string>, limit: Option<nat>)

  datatype QueryError =
    | ControlCharacter(field: Field)
    | Conflict(fields: seq<Field>)
    | BadSince(value: string)
    | BadCriteria(query: string)

  // -------------------------------------------------------------------------
  // Quoting
  // -------------------------------------------------------------------------

  predicate NeedsEscape(c: char) {
    c == '\\' || c == '"'
  }

  function Escaped(value: string): string {
    if value == [] then []
    else
      var n := |value| - 1;
      Escaped(value[..n]) + (if NeedsEscape(value[n]) then "\\" else "") + [value[n]]
  }

  /** The value between double quotes, its quotes and backslashes escaped. */
  function Quote(value: string): string {
    "\"" + Escaped(value) + "\""
  }

  method QuoteImap(value: string) returns (quoted: string)
    ensures quoted == Quote(value)
  {
    quoted := "\"";
    for i := 0 to |value|
      invariant quoted == "\"" + Escaped(value[..i])
    {
      assert value[..i + 1][..i] == value[..i];
      if NeedsEscape(value[i]) {
        quoted := quoted + "\\";
      }
      quoted := quoted + [value[i]];
    }
    assert value[..|value|] == value;
    quoted := quoted + "\"";
  }

  lemma {:induction false} EscapedFromFront(value: string)
    requires value != []
    ensures Escaped(value) == (if NeedsEscape(value[0]) then "\\" else "") + [value[0]] + Escaped(value[1..])
  {
    var n := |value| - 1;
    if n > 0 {
      EscapedFromFront(value[..n]);
      assert value[..n][1..] == value[1..][..n - 1];
    } else {
      assert value[..0] == [] && value[1..] == [];
    }
  }

  predicate IsAllText(value: string) {
    forall i :: 0 <= i < |value| ==> IsText(value[i])
  }

  /** A quoted value followed by anything reads back as the value and that tail. */
  lemma {:induction false} EscapedReadsBack(value: string, tail: string)
    ensures ReadQuotedRest(Escaped(value) + "\"" + tail) == if IsAllText(value) then Some((value, tail)) else None
  {
    var s := Escaped(value) + "\"" + tail;
    if value == [] {
      assert s[1..] == tail;
    } else {
      EscapedFromFront(value);
      EscapedReadsBack(value[1..], tail);
      var rest := Escaped(value[1..]) + "\"" + tail;
      assert IsAllText(value) <==> IsText(value[0]) && IsAllText(value[1..]) by {
        assert forall i :: 0 < i < |value| ==> value[i] == value[1..][i - 1];
      }
      assert value == [value[0]] + value[1..];
      if NeedsEscape(value[0]) {
        assert s[0] == '\\' && s[1] == value[0] && s[2..] == rest;
      } else {
        assert s[0] == value[0] && s[1..] == rest;
      }
    }
  }

  /**
   Quoting is read back exactly, whatever follows, for the values a quoted string can carry; any
   other value would not read as a string at all.
   */
  lemma QuoteReadsBack(value: string, tail: string)
    ensures ReadQuoted(Quote(value) + tail) == if IsAllText(value) then Some((value, tail)) else None
  {
    EscapedReadsBack(value, tail);
    assert (Quote(value) + tail)[1..] == Escaped(value) + "\"" + tail;
  }

  // -------------------------------------------------------------------------
  // Dates
  // -------------------------------------------------------------------------

  const MONTHS: seq<string> :=
    ["Jan", "Feb", "Mar", "Apr", "May", "Jun", "Jul", "Aug", "Sep", "Oct", "Nov", "Dec"]

  predicate EqIgnoreCase(a: string, b: string) {
    |a| == |b| && forall i :: 0 <= i < |a| ==> LowerChar(a[i]) == LowerChar(b[i])
  }

  /** The number of the month named `s` in any case, from the `k`-th on. */
  function MonthFrom(s: string, k: nat): (r: Option<nat>)
    requires k <= 12
    ensures r.Some? ==> k < r.value <= 12 && EqIgnoreCase(s, MONTHS[r.value - 1])
    ensures r.None? ==> forall j :: k <= j < 12 ==> !EqIgnoreCase(s, MONTHS[j])
    decreases 12 - k
  {
    if k == 12 then None else if EqIgnoreCase(s, MONTHS[k]) then Some(k + 1) else MonthFrom(s, k + 1)
  }

  function MonthNumber(s: string): (r: Option<nat>)
    ensures r.Some? ==> 1 <= r.value <= 12 && EqIgnoreCase(s, MONTHS[r.value - 1])
  {
    MonthFrom(s, 0)
  }

  lemma MonthsDiffer(j: nat, k: nat)
    requires j < k < 12
    ensures !EqIgnoreCase(MONTHS[j], MONTHS[k])
  {
    var a, b := MONTHS[j], MONTHS[k];
    assert LowerChar(a[0]) != LowerChar(b[0]) || LowerChar(a[1]) != LowerChar(b[1]) || LowerChar(a[2]) != LowerChar(b[2]);
  }

  lemma MonthsDistinct(j: nat, k: nat)
    requires j < 12 && k < 12
    ensures EqIgnoreCase(MONTHS[j], MONTHS[k]) ==> j == k
  {
    if j < k {
      MonthsDiffer(j, k);
    } else if k < j {
      MonthsDiffer(k, j);
      assert EqIgnoreCase(MONTHS[j], MONTHS[k]) ==> EqIgnoreCase(MONTHS[k], MONTHS[j]);
    }
  }

  /** Any spelling of a month's name gives its number. */
  lemma MonthNumberOf(s: string, m: nat)
    requires 1 <= m <= 12 && EqIgnoreCase(s, MONTHS[m - 1])
    ensures MonthNumber(s) == Some(m)
  {
    var r := MonthNumber(s);
    if r.Some? {
      var a, b := MONTHS[r.value - 1], MONTHS[m - 1];
      assert EqIgnoreCase(a, b) && EqIgnoreCase(b, a);
      MonthsDistinct(r.value - 1, m - 1);
    }
  }

  const U32_MAX: nat := 0xFFFF_FFFF

  /** `str::len`: octets, not characters. */
  function ByteLen(s: string): nat {
    |Utf8.Encode(s)|
  }

  /** Day, month and the year's digits. */
  datatype Calendar = Calendar(day: nat, month: nat, year: string)

  predicate InCalendar(d: Calendar) {
    && 1 <= d.day <= 31 && 1 <= d.month <= 12
    && |d.year| == 4 && AllDigits(d.year)
  }

  /** The date `value` spells, as `2025-07-01` or as `1-Jul-2025`. */
  function ParseDate(value: string): (r: Option<Calendar>)
    ensures r.Some? ==> InCalendar(r.value)
  {
    var parts := Split(value, '-');
    if |parts| != 3 then None
    else
      var iso := ByteLen(parts[0]) == 4;
      var month := if iso then ParseUint(parts[1], USIZE_MAX) else MonthNumber(parts[1]);
      var year, dayText := if iso then parts[0] else parts[2], if iso then parts[2] else parts[0];
      var day := ParseUint(dayText, U32_MAX);
      if month.None? || day.None? then None
      else if ByteLen(year) != 4 || !AllDigits(year) then None
      else if !(1 <= month.value <= 12) || !(1 <= day.value <= 31) then None
      else
        DigitBytes(year);
        Some(Calendar(day.value, month.value, year))
  }

  lemma DigitBytes(s: string)
    requires AllDigits(s)
    ensures ByteLen(s) == |s|
  {
    Utf8.EncodeAscii(s);
  }

  /** `d-Mmm-yyyy`. */
  function PrintDate(d: Calendar): string
    requires InCalendar(d)
  {
    Join([Decimal(d.day), MONTHS[d.month - 1], d.year], "-")
  }

  /** Normalise a date to its IMAP form. */
  function ImapDate(value: string): Option<string> {
    match ParseDate(value)
    case None => None
    case Some(d) => Some(PrintDate(d))
  }

  lemma NoDashInDigits(s: string)
    requires AllDigits(s)
    ensures '-' !in s
  {
  }

  lemma NoDashInMonths(m: nat)
    requires 1 <= m <= 12
    ensures '-' !in MONTHS[m - 1] && ' ' !in MONTHS[m - 1] && |MONTHS[m - 1]| == 3
  {
  }

  lemma NoDashInNumeral(s: string, max: nat)
    ensures ParseUint(s, max).Some? ==> '-' !in s
  {
  }

  lemma NoDashInMonthName(s: string, m: nat)
    requires 1 <= m <= 12 && EqIgnoreCase(s, MONTHS[m - 1])
    ensures '-' !in s
  {
    NoDashInMonths(m);
    assert forall i :: 0 <= i < |s| ==> LowerChar(s[i]) == LowerChar(MONTHS[m - 1][i]);
  }

  /** `2025-07-01`, with any numerals for month and day. */
  lemma IsoSpelling(year: string, month: string, day: string, d: Calendar)
    requires InCalendar(d) && year == d.year
    requires ParseUint(month, USIZE_MAX) == Some(d.month) && ParseUint(day, U32_MAX) == Some(d.day)
    ensures ParseDate(Join([year, month, day], "-")) == Some(d)
  {
    NoDashInNumeral(month, USIZE_MAX);
    NoDashInNumeral(day, U32_MAX);
    hide Split, Join, ParseUint, ByteLen;
    SplitJoin([year, month, day], '-');
    DigitBytes(year);
  }

  /** `1-Jul-2025`, the month in any case, the day any numeral that is not four octets long. */
  lemma ImapSpelling(day: string, month: string, year: string, d: Calendar)
    requires InCalendar(d) && year == d.year
    requires EqIgnoreCase(month, MONTHS[d.month - 1]) && ParseUint(day, U32_MAX) == Some(d.day)
    requires ByteLen(day) != 4
    ensures ParseDate(Join([day, month, year], "-")) == Some(d)
  {
    NoDashInMonthName(month, d.month);
    NoDashInNumeral(day, U32_MAX);
    hide Split, Join, ParseUint, ByteLen, MonthNumber, EqIgnoreCase;
    ImapParts(day, month, year, d);
    DigitBytes(year);
  }

  lemma ImapParts(day: string, month: string, year: string, d: Calendar)
    requires InCalendar(d) && year == d.year && '-' !in day && '-' !in month
    requires EqIgnoreCase(month, MONTHS[d.month - 1])
    ensures Split(Join([day, month, year], "-"), '-') == [day, month, year]
    ensures MonthNumber(month) == Some(d.month)
  {
    hide Split, Join, MonthNumber, EqIgnoreCase;
    SplitJoin([day, month, year], '-');
    MonthNumberOf(month, d.month);
  }

  /** The printed form is a spelling of the date printed. */
  lemma PrintedParses(d: Calendar)
    requires InCalendar(d)
    ensures ParseDate(PrintDate(d)) == Some(d)
  {
    hide ParseDate, ParseUint, Join, Value, ByteLen;
    ParseDecimal(d.day, U32_MAX);
    DigitBytes(Decimal(d.day));
    ImapSpelling(Decimal(d.day), MONTHS[d.month - 1], d.year, d);
  }

  /** `ImapDate` is a normal form: its outputs are fixed, and denote the date they were made from. */
  lemma ImapDateIsNormal(value: string)
    ensures ImapDate(value).Some? ==>
              && ParseDate(ImapDate(value).value) == ParseDate(value)
              && ImapDate(ImapDate(value).value) == ImapDate(value)
  {
    if ParseDate(value).Some? {
      PrintedParses(ParseDate(value).value);
    }
  }

  /** The ISO and IMAP spellings of one date normalise to one string. */
  lemma SpellingsAgree(d: Calendar, isoMonth: string, isoDay: string, day: string, month: string)
    requires InCalendar(d)
    requires ParseUint(isoMonth, USIZE_MAX) == Some(d.month) && ParseUint(isoDay, U32_MAX) == Some(d.day)
    requires ParseUint(day, U32_MAX) == Some(d.day) && ByteLen(day) != 4
    requires EqIgnoreCase(month, MONTHS[d.month - 1])
    ensures ImapDate(Join([d.year, isoMonth, isoDay], "-")) == ImapDate(Join([day, month, d.year], "-"))
              == Some(PrintDate(d))
  {
    IsoSpelling(d.year, isoMonth, isoDay, d);
    ImapSpelling(day, month, d.year, d);
  }

  /** What an ISO date becomes, month by month; a month or a day out of range makes it none. */
  lemma IsoDateExactly(year: string, month: string, day: string, m: nat, d: nat)
    requires |year| == 4 && AllDigits(year)
    requires ParseUint(month, USIZE_MAX) == Some(m) && ParseUint(day, U32_MAX) == Some(d)
    ensures 1 <= m <= 12 && 1 <= d <= 31 ==>
              ImapDate(year + "-" + month + "-" + day) == Some(Decimal(d) + ("-" + DateMonthText(m) + "-") + year)
    ensures !(1 <= m <= 12 && 1 <= d <= 31) ==> ImapDate(year + "-" + month + "-" + day) == None
  {
    hide Split, ParseUint, ByteLen, PrintDate, DateMonthText, Decimal, MonthNumber;
    IsoParts(year, month, day);
    DigitBytes(year);
    if 1 <= m <= 12 && 1 <= d <= 31 {
      PrintedText(Calendar(d, m, year));
      PrintedMonthReads(m);
    }
  }

  lemma IsoParts(year: string, month: string, day: string)
    requires AllDigits(year) && ParseUint(month, USIZE_MAX).Some? && ParseUint(day, U32_MAX).Some?
    ensures Split(year + "-" + month + "-" + day, '-') == [year, month, day]
  {
    NoDashInDigits(year);
    NoDashInNumeral(month, USIZE_MAX);
    NoDashInNumeral(day, U32_MAX);
    JoinThree(year, month, day);
    SplitJoin([year, month, day], '-');
  }

  lemma JoinThree(a: string, b: string, c: string)
    ensures Join([a, b, c], "-") == a + "-" + b + "-" + c
  {
    var three := [a, b, c];
    assert three[1..] == [b, c] && three[1..][1..] == [c];
    assert Join([b, c], "-") == b + "-" + c;
  }

  lemma PrintedText(d: Calendar)
    requires InCalendar(d)
    ensures PrintDate(d) == Decimal(d.day) + ("-" + MONTHS[d.month - 1] + "-") + d.year
  {
    hide Decimal, Value;
    JoinThree(Decimal(d.day), MONTHS[d.month - 1], d.year);
  }

  /** Nothing else is accepted. */
  lemma ParsedIsSpelled(value: string)
    ensures ParseDate(value).Some? ==>
              var d := ParseDate(value).value;
              || (exists month, day ::
                    && value == Join([d.year, month, day], "-")
                    && ParseUint(month, USIZE_MAX) == Some(d.month) && ParseUint(day, U32_MAX) == Some(d.day))
              || (exists day, month ::
                    && value == Join([day, month, d.year], "-") && ByteLen(day) != 4
                    && EqIgnoreCase(month, MONTHS[d.month - 1]) && ParseUint(day, U32_MAX) == Some(d.day))
  {
    if ParseDate(value).Some? {
      var parts := Split(value, '-');
      assert parts == [parts[0], parts[1], parts[2]];
    }
  }

  // -------------------------------------------------------------------------
  // The compiler
  // -------------------------------------------------------------------------

  /** A structured param's trimmed value; absent and blank both mean unset. */
  function StructuredValue(field: Field, value: Option<string>): Result<Option<string>, QueryError> {
    if value.None? || Trim(value.value) == [] then Ok(None)
    else if exists i :: 0 <= i < |Trim(value.value)| && IsControl(Trim(value.value)[i]) then Err(ControlCharacter(field))
    else Ok(Some(Trim(value.value)))
  }

  /** One set field and its value. */
  type Filter = (Field, string)

  function OptionalFilter(field: Field, value: Option<string>): seq<Filter> {
    if value.Some? then [(field, value.value)] else []
  }

  /** The set fields in declaration order, or the first refused value. */
  function Structured(req: SearchRequest): Result<seq<Filter>, QueryError> {
    match StructuredValue(From, req.from)
    case Err(e) => Err(e)
    case Ok(from) =>
      match StructuredValue(Subject, req.subject)
      case Err(e) => Err(e)
      case Ok(subject) =>
        match StructuredValue(Text, req.text)
        case Err(e) => Err(e)
        case Ok(text) =>
          match StructuredValue(Since, req.since)
          case Err(e) => Err(e)
          case Ok(since) =>
            Ok(OptionalFilter(From, from) + OptionalFilter(Subject, subject) +
               OptionalFilter(Text, text) + OptionalFilter(Since, since))
  }

  function FieldsOf(filters: seq<Filter>): seq<Field> {
    seq(|filters|, i requires 0 <= i < |filters| => filters[i].0)
  }

  /** The search key of one field. */
  function CompileFilter(f: Filter): Result<string, QueryError> {
    match f.0
    case From => Ok("FROM " + Quote(f.1))
    case Subject => Ok("SUBJECT " + Quote(f.1))
    case Text => Ok("TEXT " + Quote(f.1))
    case Since =>
      match ImapDate(f.1)
      case None => Err(BadSince(f.1))
      case Some(date) => Ok("SINCE " + date)
  }

  /** The keys of all fields, or the first that does not compile. */
  function CompileAll(filters: seq<Filter>): Result<seq<string>, QueryError> {
    if filters == [] then Ok([])
    else match CompileFilter(filters[0])
      case Err(e) => Err(e)
      case Ok(key) =>
        match CompileAll(filters[1..])
        case Err(e) => Err(e)
        case Ok(keys) => Ok([key] + keys)
  }

  function RawQuery(req: SearchRequest): Option<string> {
    if req.query.None? || Trim(req.query.value) == [] then None else Some(Trim(req.query.value))
  }

  /** The SEARCH key a request compiles to. */
  function SearchKey(req: SearchRequest): Result<string, QueryError> {
    match Structured(req)
    case Err(e) => Err(e)
    case Ok(filters) =>
      if filters == [] then ValidatedQuery(req)
      else if RawQuery(req).Some? then Err(Conflict(FieldsOf(filters)))
      else match CompileAll(filters)
        case Err(e) => Err(e)
        case Ok(keys) => Ok(Join(keys, " "))
  }

  const SEARCH_KEYS: set<string> :=
    {"ALL", "ANSWERED", "BCC", "BEFORE", "BODY", "CC", "DELETED", "DRAFT", "FLAGGED", "FROM", "HEADER",
     "KEYWORD", "LARGER", "NEW", "NOT", "OLD", "OLDER", "ON", "OR", "RECENT", "SEEN", "SENTBEFORE",
     "SENTON", "SENTSINCE", "SINCE", "SMALLER", "SUBJECT", "TEXT", "TO", "UID", "UNANSWERED",
     "UNDELETED", "UNDRAFT", "UNFLAGGED", "UNKEYWORD", "UNSEEN", "YOUNGER"}

  /** What precedes the first white space. */
  function FirstWord(s: string): string {
    if s == [] || IsWhitespace(s[0]) then [] else [s[0]] + FirstWord(s[1..])
  }

  predicate IsSequenceSetText(s: string) {
    forall i :: 0 <= i < |s| ==> IsAsciiDigit(s[i]) || s[i] in ",:*"
  }

  /** A raw query passes when it begins like a search key; no query means `ALL`. */
  function ValidatedQuery(req: SearchRequest): Result<string, QueryError> {
    match RawQuery(req)
    case None => Ok("ALL")
    case Some(query) =>
      var head := FirstWord(query);
      if Upper(head) in SEARCH_KEYS || IsSequenceSetText(head) || "(" <= head then Ok(query)
      else Err(BadCriteria(query))
  }

  // -------------------------------------------------------------------------
  // What the key means
  // -------------------------------------------------------------------------

  /** The key a field stands for. */
  function KeyOfFilter(f: Filter): Option<Key> {
    match f.0
    case From => Some(Match("FROM", f.1))
    case Subject => Some(Match("SUBJECT", f.1))
    case Text => Some(Match("TEXT", f.1))
    case Since =>
      match ParseDate(f.1)
      case None => None
      case Some(d) => Some(When("SINCE", Date(Value(d.year), d.month, d.day)))
  }

  predicate Readable(f: Filter) {
    IsAllText(f.1)
  }

  lemma ReadStringKey(name: string, value: string, tail: string)
    requires name == "FROM" || name == "SUBJECT" || name == "TEXT"
    requires IsAllText(value) && (tail == [] || tail[0] == ' ')
    ensures ReadKey(name + " " + Quote(value) + tail) == Some((Match(name, value), tail))
  {
    var s := name + " " + Quote(value) + tail;
    var rest := " " + (Quote(value) + tail);
    assert s == name + rest;
    WordStops(name, rest);
    assert Upper(name) == name;
    QuoteReadsBack(value, tail);
    assert rest[1..] == Quote(value) + tail;
    assert (Quote(value) + tail)[0] == '"';
    KeywordKinds(name);
  }

  lemma KeywordKinds(name: string)
    requires name == "FROM" || name == "SUBJECT" || name == "TEXT" || name == "SINCE"
    ensures name !in FLAG_KEYS
    ensures name == "SINCE" <==> name !in STRING_KEYS
    ensures name == "SINCE" ==> name in DATE_KEYS
    ensures name in SEARCH_KEYS
  {
    var f, s, t, n := "FROM", "SUBJECT", "TEXT", "SINCE";
    assert f[0] == 'F' && f[1] == 'R' && s[1] == 'U' && t[0] == 'T' && t[1] == 'E' && n[0] == 'S' && n[1] == 'I';
  }

  /** The table the compiler prints from is the one the grammar reads by. */
  lemma PrintedMonthReads(m: nat)
    requires 1 <= m <= 12
    ensures MONTHS[m - 1] == DateMonthText(m) && DateMonth(MONTHS[m - 1]) == Some(m)
  {
    hide DateMonth;
    DateMonthOfText(m);
  }

  /** A printed date reads back as its year, month and day. */
  lemma ReadPrintedDate(d: Calendar)
    requires InCalendar(d)
    ensures ReadDateText(PrintDate(d)) == Some(Date(Value(d.year), d.month, d.day))
  {
    var day := Decimal(d.day);
    NoDashInMonths(d.month);
    NoDashInDigits(day);
    NoDashInDigits(d.year);
    SplitJoin([day, MONTHS[d.month - 1], d.year], '-');
    PrintedMonthReads(d.month);
  }

  lemma PrintedDateIsAWord(d: Calendar)
    requires InCalendar(d)
    ensures ' ' !in PrintDate(d) && '"' !in PrintDate(d) && PrintDate(d) != []
  {
    hide Value;
    var day, month := Decimal(d.day), MONTHS[d.month - 1];
    NoDashInMonths(d.month);
    assert '"' !in month;
    assert Join([month, d.year], "-") == month + "-" + d.year;
    assert PrintDate(d) == day + "-" + (month + "-" + d.year);
  }

  lemma ReadDateArgument(d: Calendar, tail: string)
    requires InCalendar(d) && (tail == [] || tail[0] == ' ')
    ensures ReadDate(PrintDate(d) + tail) == Some((Date(Value(d.year), d.month, d.day), tail))
  {
    hide PrintDate, Value, ReadDateText, ReadQuoted;
    var text := PrintDate(d);
    ReadPrintedDate(d);
    PrintedDateIsAWord(d);
    assert (text + tail)[0] in text;
    WordStops(text, tail);
  }

  lemma ReadSinceKey(d: Calendar, tail: string)
    requires InCalendar(d) && (tail == [] || tail[0] == ' ')
    ensures ReadKey("SINCE " + PrintDate(d) + tail) ==
              Some((When("SINCE", Date(Value(d.year), d.month, d.day)), tail))
  {
    assert Upper("SINCE") == "SINCE";
    hide Upper, PrintDate, Value, ReadDate, ReadAstring;
    var argument := PrintDate(d) + tail;
    var rest := " " + argument;
    assert "SINCE " + PrintDate(d) + tail == "SINCE" + rest;
    WordStops("SINCE", rest);
    KeywordKinds("SINCE");
    assert rest[1..] == argument;
    ReadDateArgument(d, tail);
  }

  /** Each compiled field reads back as the key it stands for, up to whatever follows. */
  lemma ReadCompiledFilter(f: Filter, tail: string)
    requires Readable(f) && (tail == [] || tail[0] == ' ')
    ensures CompileFilter(f).Ok? <==> KeyOfFilter(f).Some?
    ensures CompileFilter(f).Ok? ==>
              ReadKey(CompileFilter(f).value + tail) == Some((KeyOfFilter(f).value, tail))
  {
    match f.0
    case From =>
      ReadStringKey("FROM", f.1, tail);
      assert "FROM" + " " == "FROM ";
    case Subject =>
      ReadStringKey("SUBJECT", f.1, tail);
      assert "SUBJECT" + " " == "SUBJECT ";
    case Text =>
      ReadStringKey("TEXT", f.1, tail);
      assert "TEXT" + " " == "TEXT ";
    case Since =>
      if ParseDate(f.1).Some? {
        ReadSinceKey(ParseDate(f.1).value, tail);
      }
  }

  /** The key each set field stands for, in order. */
  predicate StandFor(keys: seq<Key>, filters: seq<Filter>) {
    |keys| == |filters| && forall i :: 0 <= i < |keys| ==> KeyOfFilter(filters[i]) == Some(keys[i])
  }

  lemma {:induction false} ReadCompiled(filters: seq<Filter>) returns (keys: seq<Key>)
    requires filters != [] && CompileAll(filters).Ok?
    requires forall i :: 0 <= i < |filters| ==> Readable(filters[i])
    ensures ReadKeys(Join(CompileAll(filters).value, " ")) == Some(keys)
    ensures StandFor(keys, filters)
  {
    hide CompileFilter, KeyOfFilter, ReadKey;
    var texts := CompileAll(filters).value;
    var first := KeyOfFilter(filters[0]);
    if |filters| == 1 {
      assert texts == [texts[0]] && texts[0] + [] == texts[0];
      ReadCompiledFilter(filters[0], []);
      keys := [first.value];
    } else {
      var rest := Join(texts[1..], " ");
      assert texts[1..] == CompileAll(filters[1..]).value;
      ReadCompiledFilter(filters[0], " " + rest);
      assert Join(texts, " ") == texts[0] + (" " + rest);
      var more := ReadCompiled(filters[1..]);
      assert (" " + rest)[1..] == rest;
      keys := [first.value] + more;
    }
  }

  /** A param that is present and not blank, and what it says. */
  predicate IsSet(value: Option<string>) {
    value.Some? && Trim(value.value) != []
  }

  function Given(value: Option<string>): string {
    if value.Some? then Trim(value.value) else []
  }

  predicate FreeOfControls(value: Option<string>) {
    forall i :: 0 <= i < |Given(value)| ==> !IsControl(Given(value)[i])
  }

  predicate AllFreeOfControls(req: SearchRequest) {
    FreeOfControls(req.from) && FreeOfControls(req.subject) && FreeOfControls(req.text) && FreeOfControls(req.since)
  }

  /** The set fields with their trimmed values, in declaration order. */
  function FiltersOf(req: SearchRequest): seq<Filter> {
    (if IsSet(req.from) then [(From, Given(req.from))] else []) +
    (if IsSet(req.subject) then [(Subject, Given(req.subject))] else []) +
    (if IsSet(req.text) then [(Text, Given(req.text))] else []) +
    (if IsSet(req.since) then [(Since, Given(req.since))] else [])
  }

  lemma StructuredIsFilters(req: SearchRequest)
    ensures Structured(req).Ok? <==> AllFreeOfControls(req)
    ensures Structured(req).Ok? ==> Structured(req).value == FiltersOf(req)
    ensures AllFreeOfControls(req) ==> forall i :: 0 <= i < |FiltersOf(req)| ==> Readable(FiltersOf(req)[i])
  {
    hide StructuredValue, FreeOfControls, IsSet, Given;
    ValueIsGiven(From, req.from);
    ValueIsGiven(Subject, req.subject);
    ValueIsGiven(Text, req.text);
    ValueIsGiven(Since, req.since);
  }

  lemma ValueIsGiven(field: Field, value: Option<string>)
    ensures StructuredValue(field, value) ==
              if FreeOfControls(value) then Ok(if IsSet(value) then Some(Given(value)) else None)
              else Err(ControlCharacter(field))
    ensures FreeOfControls(value) ==> Readable((field, Given(value)))
  {
    hide Trim;
  }

  lemma {:induction false} CompileAllIff(filters: seq<Filter>)
    ensures CompileAll(filters).Ok? <==> forall i :: 0 <= i < |filters| ==> CompileFilter(filters[i]).Ok?
    ensures CompileAll(filters).Ok? ==> |CompileAll(filters).value| == |filters|
  {
    hide CompileFilter;
    if filters != [] {
      CompileAllIff(filters[1..]);
      assert forall i :: 1 <= i < |filters| ==> filters[i] == filters[1..][i - 1];
    }
  }

  /** Which requests are accepted. */
  lemma AcceptedExactly(req: SearchRequest)
    ensures SearchKey(req).Ok? <==>
              && AllFreeOfControls(req)
              && (if FiltersOf(req) == [] then ValidatedQuery(req).Ok?
                  else !IsSet(req.query) && (IsSet(req.since) ==> ParseDate(Given(req.since)).Some?))
    ensures FiltersOf(req) == [] && SearchKey(req).Ok? ==>
              SearchKey(req).value == if IsSet(req.query) then Given(req.query) else "ALL"
  {
    hide Trim, ParseDate, Quote, FreeOfControls, StructuredValue, Structured, Upper, FirstWord, IsSequenceSetText;
    StructuredIsFilters(req);
    var filters := FiltersOf(req);
    CompileAllIff(filters);
    if IsSet(req.since) {
      assert filters[|filters| - 1] == (Since, Given(req.since));
    }
  }

  function ParamOf(req: SearchRequest, field: Field): Option<string> {
    match field
    case From => req.from
    case Subject => req.subject
    case Text => req.text
    case Since => req.since
  }

  function Position(field: Field): nat {
    match field case From => 0 case Subject => 1 case Text => 2 case Since => 3
  }

  /**
   Why a request is refused, in the order the causes are looked for: a control character in the first
   field that has one, then a raw query beside set fields, then the date, then the raw query itself.
   */
  lemma RefusalHasItsCause(req: SearchRequest)
    ensures SearchKey(req).Err? ==>
              match SearchKey(req).error
              case ControlCharacter(field) =>
                && !FreeOfControls(ParamOf(req, field))
                && forall f: Field :: Position(f) < Position(field) ==> FreeOfControls(ParamOf(req, f))
              case Conflict(fields) =>
                AllFreeOfControls(req) && IsSet(req.query) && fields == FieldsOf(FiltersOf(req)) != []
              case BadSince(value) =>
                && AllFreeOfControls(req) && !IsSet(req.query)
                && IsSet(req.since) && value == Given(req.since) && ParseDate(value).None?
              case BadCriteria(query) =>
                AllFreeOfControls(req) && FiltersOf(req) == [] && IsSet(req.query) && query == Given(req.query)
  {
    hide Trim, ParseDate, Quote, FreeOfControls, IsSet, Given, StructuredValue, FiltersOf;
    ValueIsGiven(From, req.from);
    ValueIsGiven(Subject, req.subject);
    ValueIsGiven(Text, req.text);
    ValueIsGiven(Since, req.since);
    StructuredIsFilters(req);
    RawIsGiven(req);
    SinceIsLast(req);
    OnlyDatesFail(FiltersOf(req));
  }

  lemma RawIsGiven(req: SearchRequest)
    ensures RawQuery(req) == if IsSet(req.query) then Some(Given(req.query)) else None
  {
    hide Trim;
  }

  /** A raw query is judged by its first word alone, and passed on whole. */
  lemma RawQueryAccepted(req: SearchRequest, head: string, rest: string)
    requires IsSet(req.query) && Given(req.query) == head + rest
    requires (forall i :: 0 <= i < |head| ==> !IsWhitespace(head[i])) && (rest == [] || IsWhitespace(rest[0]))
    ensures ValidatedQuery(req) ==
              if Upper(head) in SEARCH_KEYS || (forall c :: c in head ==> IsAsciiDigit(c) || c in ",:*")
                 || (head != [] && head[0] == '(')
              then Ok(head + rest) else Err(BadCriteria(head + rest))
  {
    hide Trim, Upper;
    if rest == [] {
      FirstWordAll(head);
      assert head + rest == head;
    } else {
      FirstWordStops(head, rest);
    }
    assert "(" <= head <==> head != [] && head[0] == '(';
    assert IsSequenceSetText(head) <==> forall c :: c in head ==> IsAsciiDigit(c) || c in ",:*";
  }

  lemma {:induction false} FirstWordAll(word: string)
    requires forall i :: 0 <= i < |word| ==> !IsWhitespace(word[i])
    ensures FirstWord(word) == word
  {
    if word != [] {
      FirstWordAll(word[1..]);
    }
  }

  /** The keys accepted: those of section 6.4.4 of RFC 3501, and the two of RFC 5032. */
  lemma SearchKeysExactly(name: string)
    ensures name in SEARCH_KEYS <==>
              || name in FLAG_KEYS || name in STRING_KEYS || name in DATE_KEYS
              || name in ["HEADER", "KEYWORD", "LARGER", "NOT", "OR", "SMALLER", "UID", "UNKEYWORD"]
              || name in ["OLDER", "YOUNGER"]
  {
  }

  /** A raw query that the grammar can read is accepted, and sent as it is. */
  lemma ReadableQueriesAreAccepted(req: SearchRequest)
    requires IsSet(req.query) && ReadKeys(Given(req.query)).Some?
    ensures ValidatedQuery(req) == Ok(Given(req.query))
  {
    hide Trim, Upper, ReadAstring, ReadDate, IsSequenceSetText;
    var (word, rest) := Word(Given(req.query));
    assert ReadKey(Given(req.query)).Some?;
    assert Upper(word) in FLAG_KEYS + STRING_KEYS + DATE_KEYS;
    KeysHaveNoWhitespace(word);
    WordEnds(Given(req.query));
    RawQueryAccepted(req, word, rest);
    KeysAreAccepted(Upper(word));
  }

  lemma KeysAreAccepted(name: string)
    ensures name in FLAG_KEYS + STRING_KEYS + DATE_KEYS ==> name in SEARCH_KEYS
  {
  }

  lemma KeysHaveNoWhitespace(word: string)
    requires Upper(word) in FLAG_KEYS + STRING_KEYS + DATE_KEYS
    ensures forall i :: 0 <= i < |word| ==> !IsWhitespace(word[i])
  {
    forall i | 0 <= i < |word| ensures !IsWhitespace(word[i]) {
      KeysAreLetters(Upper(word), i);
      assert Upper(word)[i] == UpperChar(word[i]);
    }
  }

  lemma KeysAreLetters(name: string, i: nat)
    requires name in FLAG_KEYS + STRING_KEYS + DATE_KEYS && i < |name|
    ensures 'A' <= name[i] <= 'Z'
  {
  }

  lemma {:induction false} WordEnds(s: string)
    ensures Word(s).1 == [] || Word(s).1[0] == ' '
  {
    if s != [] && s[0] != ' ' {
      WordEnds(s[1..]);
    }
  }

  lemma SinceIsLast(req: SearchRequest)
    ensures forall i :: 0 <= i < |FiltersOf(req)| && FiltersOf(req)[i].0 == Since ==>
              IsSet(req.since) && FiltersOf(req)[i].1 == Given(req.since)
  {
    hide Trim;
  }

  lemma {:induction false} OnlyDatesFail(filters: seq<Filter>)
    ensures CompileAll(filters).Err? ==> exists i ::
              && 0 <= i < |filters| && filters[i].0 == Since
              && CompileAll(filters).error == BadSince(filters[i].1) && ParseDate(filters[i].1).None?
  {
    hide ParseDate, Quote;
    if filters != [] && CompileFilter(filters[0]).Ok? && CompileAll(filters).Err? {
      OnlyDatesFail(filters[1..]);
      var i :| 0 <= i < |filters| - 1 && filters[1..][i].0 == Since
        && CompileAll(filters[1..]).error == BadSince(filters[1..][i].1) && ParseDate(filters[1..][i].1).None?;
      assert filters[i + 1] == filters[1..][i];
    }
  }

  /** What one field asks of a message. */
  predicate FilterHolds(f: Filter, m: Message, contains: (string, string) -> bool) {
    match f.0
    case From => contains(m.from, f.1)
    case Subject => contains(m.subject, f.1)
    case Text => contains(m.text, f.1)
    case Since =>
      match ParseDate(f.1)
      case None => false
      case Some(d) => !Before(m.received, Date(Value(d.year), d.month, d.day))
  }

  /** What the caller asks of a message: every set field, and nothing else. */
  predicate Wanted(req: SearchRequest, m: Message, contains: (string, string) -> bool) {
    && (IsSet(req.from) ==> FilterHolds((From, Given(req.from)), m, contains))
    && (IsSet(req.subject) ==> FilterHolds((Subject, Given(req.subject)), m, contains))
    && (IsSet(req.text) ==> FilterHolds((Text, Given(req.text)), m, contains))
    && (IsSet(req.since) ==> FilterHolds((Since, Given(req.since)), m, contains))
  }

  lemma FiltersAreWanted(req: SearchRequest, m: Message, contains: (string, string) -> bool)
    ensures Wanted(req, m, contains) <==>
              forall i :: 0 <= i < |FiltersOf(req)| ==> FilterHolds(FiltersOf(req)[i], m, contains)
  {
    hide FilterHolds, Trim;
    var filters := FiltersOf(req);
    assert forall f :: f in filters <==>
        || (IsSet(req.from) && f == (From, Given(req.from)))
        || (IsSet(req.subject) && f == (Subject, Given(req.subject)))
        || (IsSet(req.text) && f == (Text, Given(req.text)))
        || (IsSet(req.since) && f == (Since, Given(req.since)));
    assert (forall f :: f in filters ==> FilterHolds(f, m, contains)) <==>
        forall i :: 0 <= i < |filters| ==> FilterHolds(filters[i], m, contains);
  }

  /**
   Compiling preserves meaning: the key emitted for a structured request reads, by the grammar, as
   exactly the set fields with their trimmed values in order, and a message satisfies it exactly
   when it is what the caller asked for.
   */
  lemma KeyMeansRequest(req: SearchRequest, m: Message, contains: (string, string) -> bool)
    ensures SearchKey(req).Ok? && FiltersOf(req) != [] ==>
              && ReadKeys(SearchKey(req).value).Some?
              && StandFor(ReadKeys(SearchKey(req).value).value, FiltersOf(req))
              && (SatisfiesAll(ReadKeys(SearchKey(req).value).value, m, contains) <==> Wanted(req, m, contains))
  {
    hide Structured, FiltersOf, KeyOfFilter, FilterHolds, ReadKeys, CompileAll, Satisfies;
    StructuredIsFilters(req);
    if SearchKey(req).Ok? && FiltersOf(req) != [] {
      var filters := FiltersOf(req);
      var keys := ReadCompiled(filters);
      FiltersAreWanted(req, m, contains);
      forall i | 0 <= i < |filters| ensures Satisfies(keys[i], m, contains) == FilterHolds(filters[i], m, contains) {
        KeyOfFilterHolds(filters[i], keys[i], m, contains);
      }
    }
  }

  lemma KeyOfFilterHolds(f: Filter, key: Key, m: Message, contains: (string, string) -> bool)
    ensures KeyOfFilter(f) == Some(key) ==> Satisfies(key, m, contains) == FilterHolds(f, m, contains)
  {
    var from, subject, since := "FROM", "SUBJECT", "SINCE";
    assert from[0] == 'F' && subject[1] == 'U' && since[1] == 'I';
  }

  // -------------------------------------------------------------------------
  // The generated key is itself a legal raw query
  // -------------------------------------------------------------------------

  lemma CompiledShape(f: Filter) returns (name: string, argument: string)
    requires CompileFilter(f).Ok?
    ensures CompileFilter(f).value == name + " " + argument
    ensures name == "FROM" || name == "SUBJECT" || name == "TEXT" || name == "SINCE"
    ensures argument != [] && !IsWhitespace(argument[|argument| - 1])
  {
    hide ParseDate, PrintDate, Escaped;
    match f.0
    case From =>
      name, argument := "FROM", Quote(f.1);
      assert "FROM" + " " == "FROM ";
    case Subject =>
      name, argument := "SUBJECT", Quote(f.1);
      assert "SUBJECT" + " " == "SUBJECT ";
    case Text =>
      name, argument := "TEXT", Quote(f.1);
      assert "TEXT" + " " == "TEXT ";
    case Since =>
      var d := ParseDate(f.1).value;
      name, argument := "SINCE", PrintDate(d);
      assert "SINCE" + " " == "SINCE ";
      PrintedDateEnds(d);
  }

  lemma PrintedDateEnds(d: Calendar)
    requires InCalendar(d)
    ensures var text := PrintDate(d); text != [] && !IsWhitespace(text[|text| - 1])
  {
    hide Value;
    assert Join([MONTHS[d.month - 1], d.year], "-") == MONTHS[d.month - 1] + "-" + d.year;
    assert PrintDate(d)[|PrintDate(d)| - 1] == d.year[3];
  }

  lemma {:induction false} JoinEnds(texts: seq<string>) returns (last: string, before: string)
    requires texts != []
    ensures Join(texts, " ") == before + last && last == texts[|texts| - 1]
    ensures texts[0] <= Join(texts, " ")
  {
    if |texts| == 1 {
      last, before := texts[0], [];
    } else {
      last, before := JoinEnds(texts[1..]);
      before := texts[0] + " " + before;
    }
  }

  lemma {:induction false} CompiledAt(filters: seq<Filter>, i: nat)
    requires CompileAll(filters).Ok? && i < |filters|
    ensures |CompileAll(filters).value| == |filters|
    ensures CompileFilter(filters[i]) == Ok(CompileAll(filters).value[i])
  {
    CompileAllIff(filters);
    if i > 0 {
      CompiledAt(filters[1..], i - 1);
    }
  }

  lemma {:induction false} FirstWordStops(word: string, rest: string)
    requires rest != [] && IsWhitespace(rest[0]) && forall i :: 0 <= i < |word| ==> !IsWhitespace(word[i])
    ensures FirstWord(word + rest) == word
  {
    if word == [] {
      assert word + rest == rest;
    } else {
      assert (word + rest)[1..] == word[1..] + rest;
      FirstWordStops(word[1..], rest);
    }
  }

  /** Resubmitting a generated key as a raw query passes the raw check and changes nothing. */
  lemma CompiledKeyIsARawQuery(req: SearchRequest)
    ensures SearchKey(req).Ok? && FiltersOf(req) != [] ==>
              SearchKey(SearchRequest(None, None, None, None, Some(SearchKey(req).value), req.limit)) == SearchKey(req)
  {
    hide Structured, FiltersOf, CompileAll, CompileFilter, Join, FirstWord;
    StructuredIsFilters(req);
    if SearchKey(req).Ok? && FiltersOf(req) != [] {
      var filters, key := FiltersOf(req), SearchKey(req).value;
      var texts := CompileAll(filters).value;
      CompiledAt(filters, 0);
      CompiledAt(filters, |filters| - 1);
      var name, argument := CompiledShape(filters[0]);
      var _, lastArgument := CompiledShape(filters[|filters| - 1]);
      var last, before := JoinEnds(texts);
      assert key[|key| - 1] == lastArgument[|lastArgument| - 1];
      RawCheckPasses(name, key, req.limit);
    }
  }

  lemma RawCheckPasses(name: string, key: string, limit: Option<nat>)
    requires name == "FROM" || name == "SUBJECT" || name == "TEXT" || name == "SINCE"
    requires name + " " <= key && !IsWhitespace(key[|key| - 1])
    ensures SearchKey(SearchRequest(None, None, None, None, Some(key), limit)) == Ok(key)
  {
    var req := SearchRequest(None, None, None, None, Some(key), limit);
    hide Structured, ValidatedQuery, Upper, IsWhitespace;
    NothingStructured(req);
    KeywordKinds(name);
    KeywordIsPlain(name);
    RawKeyPasses(name, req, key);
  }

  lemma NothingStructured(req: SearchRequest)
    requires req.from.None? && req.subject.None? && req.text.None? && req.since.None?
    ensures Structured(req) == Ok([])
  {
    assert Structured(req).Ok? && Structured(req).value == [];
  }

  lemma KeywordIsPlain(name: string)
    requires name == "FROM" || name == "SUBJECT" || name == "TEXT" || name == "SINCE"
    ensures Upper(name) == name && name != [] && name + " " == name + [' ']
    ensures forall i :: 0 <= i < |name| ==> !IsWhitespace(name[i])
  {
  }

  lemma RawKeyPasses(name: string, req: SearchRequest, key: string)
    requires Upper(name) == name && name in SEARCH_KEYS && forall i :: 0 <= i < |name| ==> !IsWhitespace(name[i])
    requires name + [' '] <= key && !IsWhitespace(key[|key| - 1]) && req.query == Some(key)
    requires name != []
    ensures ValidatedQuery(req) == Ok(key)
  {
    hide Trim, Upper, FirstWord, IsSequenceSetText;
    var rest := key[|name|..];
    assert key == name + rest && rest[0] == ' ';
    FirstWordStops(name, rest);
    TrimFixpoint(key);
  }
}
