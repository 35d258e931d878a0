/** Field validators of the registration pipeline: the e-mail and phone
    regular expressions, read as predicates on the stripped string, and date
    parsing as a first-match search over four fixed `strptime` formats. */
module Validators {
  import opened Text
  import opened Frames
  import opened Wrappers

  // ---------------------------------------------------------------------
  // E-mail: ^[^@\s]+@[^@\s]+\.[^@\s]+$

  /** The class `[^@\s]`. */
  predicate EmailChar(c: char) {
    c != '@' && !IsSpace(c)
  }

  predicate EmailChars(s: string) {
    forall i | 0 <= i < |s| :: EmailChar(s[i])
  }

  /** `[^@\s]+\.[^@\s]+` matches all of `d`: the `+` runs may hold dots too,
      so any dot strictly inside `d` can be the literal one. */
  predicate EmailDomain(d: string) {
    EmailChars(d) && exists i | 0 < i < |d| - 1 :: d[i] == '.'
  }

  /** The pattern between `^` and `$` matches all of `s`. */
  predicate EmailBody(s: string) {
    exists k | 0 < k < |s| :: s[k] == '@' && EmailChars(s[..k]) && EmailDomain(s[k + 1..])
  }

  /** `EMAIL_RE.match(s)`: `$` matches at the end or before a final newline. */
  predicate EmailMatch(s: string) {
    EmailBody(s) || (|s| > 0 && s[|s| - 1] == '\n' && EmailBody(s[..|s| - 1]))
  }

  /** `validate_email`: false for a falsy value or a non-string, otherwise
      whether the stripped string matches `EMAIL_RE`. */
  function ValidateEmail(v: Cell): (ok: bool)
    ensures ok ==> v.Str? && Strip(v.s) != []
  {
    Truthy(v) && v.Str? && EmailMatch(Strip(v.s))
  }

  // ---------------------------------------------------------------------
  // Phone: ^\+?\d[\d\-\s()]{4,}\d$

  /** The class `[\d\-\s()]`. */
  predicate PhoneChar(c: char) {
    IsDigit(c) || c == '-' || IsSpace(c) || c == '(' || c == ')'
  }

  /** `\d[\d\-\s()]{4,}\d` matches all of `t`. */
  predicate PhoneDigits(t: string) {
    && |t| >= 6
    && IsDigit(t[0]) && IsDigit(t[|t| - 1])
    && forall i | 1 <= i < |t| - 1 :: PhoneChar(t[i])
  }

  /** The pattern between `^` and `$`: `\+?` either takes a leading plus or not. */
  predicate PhoneBody(s: string) {
    PhoneDigits(s) || (|s| > 0 && s[0] == '+' && PhoneDigits(s[1..]))
  }

  /** `PHONE_RE.match(s)`, with the same reading of `$` as for e-mail. */
  predicate PhoneMatch(s: string) {
    PhoneBody(s) || (|s| > 0 && s[|s| - 1] == '\n' && PhoneBody(s[..|s| - 1]))
  }

  /** `validate_phone`. */
  function ValidatePhone(v: Cell): (ok: bool)
    ensures ok ==> v.Str? && |Strip(v.s)| >= 6
  {
    Truthy(v) && v.Str? && PhoneMatch(Strip(v.s))
  }

  // ---------------------------------------------------------------------
  // Dates

  datatype Date = Date(year: int, month: int, day: int)

  /** The formats `'%Y-%m-%d'`, `'%d.%m.%Y'`, `'%Y/%m/%d'`, `'%d/%m/%Y'`. */
  datatype Format = IsoDash | DottedDmy | SlashYmd | SlashDmy

  /** The order in which `validate_date` and `parse_date` try the formats. */
  const FORMATS: seq<Format> := [IsoDash, DottedDmy, SlashYmd, SlashDmy]

  predicate IsLeap(y: int) {
    y % 4 == 0 && (y % 100 != 0 || y % 400 == 0)
  }

  function DaysInMonth(y: int, m: int): (n: int)
    ensures 28 <= n <= 31
  {
    if m == 2 then (if IsLeap(y) then 29 else 28)
    else if m == 4 || m == 6 || m == 9 || m == 11 then 30
    else 31
  }

  /** A day that Python's `date` constructor accepts. */
  predicate CalendarDate(d: Date) {
    1 <= d.year <= 9999 && 1 <= d.month <= 12 && 1 <= d.day <= DaysInMonth(d.year, d.month)
  }

  /** strptime's `%Y`: `\d\d\d\d`. */
  predicate YearField(s: string) {
    |s| == 4 && AllDigits(s)
  }

  /** strptime's `%m`: `1[0-2]|0[1-9]|[1-9]`. */
  predicate MonthField(s: string) {
    || (|s| == 2 && s[0] == '1' && '0' <= s[1] <= '2')
    || (|s| == 2 && s[0] == '0' && '1' <= s[1] <= '9')
    || (|s| == 1 && '1' <= s[0] <= '9')
  }

  /** strptime's `%d`: `3[01]|[12]\d|0[1-9]|[1-9]| [1-9]`. */
  predicate DayField(s: string) {
    || (|s| == 2 && s[0] == '3' && '0' <= s[1] <= '1')
    || (|s| == 2 && '1' <= s[0] <= '2' && IsDigit(s[1]))
    || (|s| == 2 && s[0] == '0' && '1' <= s[1] <= '9')
    || (|s| == 1 && '1' <= s[0] <= '9')
    || (|s| == 2 && s[0] == ' ' && '1' <= s[1] <= '9')
  }

  /** `int()` of a matched field; for `%d` that drops the space of ` [1-9]`. */
  function FieldValue(s: string): nat
    requires YearField(s) || MonthField(s) || DayField(s)
  {
    if |s| > 0 && s[0] == ' ' then DigitsValue(s[1..]) else DigitsValue(s)
  }

  lemma MonthFieldRange(s: string)
    requires MonthField(s)
    ensures 1 <= FieldValue(s) <= 12
  {
    if |s| == 2 { DigitsValueTwo(s); } else { DigitsValueOne(s); }
  }

  lemma DayFieldRange(s: string)
    requires DayField(s)
    ensures 1 <= FieldValue(s) <= 31
  {
    if s[0] == ' ' {
      DigitsValueOne(s[1..]);
    } else if |s| == 2 {
      DigitsValueTwo(s);
    } else {
      DigitsValueOne(s);
    }
  }

  /** The first position of `c` in `s`. */
  function IndexOf(s: string, c: char): (r: Option<nat>)
    ensures r.None? ==> forall i | 0 <= i < |s| :: s[i] != c
    ensures r.Some? ==> r.value < |s| && s[r.value] == c && forall i | 0 <= i < r.value :: s[i] != c
  {
    if s == [] then None
    else if s[0] == c then Some(0)
    else match IndexOf(s[1..], c)
      case None => None
      case Some(i) => Some(i + 1)
  }

  /** The date the three fields name, if `date(year, month, day)` accepts it. */
  function MakeDate(y: string, m: string, d: string): (r: Option<Date>)
    requires YearField(y) && MonthField(m) && DayField(d)
    ensures r.Some? ==> CalendarDate(r.value)
  {
    var date := Date(FieldValue(y), FieldValue(m), FieldValue(d));
    MonthFieldRange(m);
    DayFieldRange(d);
    DigitsValueBound(y);
    assert Pow10(4) == 10000;
    if 1 <= date.year && date.day <= DaysInMonth(date.year, date.month) then Some(date) else None
  }

  /** `strptime(s, '%Y<sep>%m<sep>%d')`. The year is the first four
      characters. `%m` holds no separator, so the month ends at the first
      separator after the year. The day is the rest: the regular expression
      tries the two-character alternatives of `%d` before `[1-9]`, so a
      match that leaves characters over fails the "unconverted data" check
      exactly when the rest is not a whole `%d`. */
  function YearFirst(s: string, sep: char): Option<Date> {
    if |s| < 5 || !YearField(s[..4]) || s[4] != sep then None
    else
      var rest := s[5..];
      match IndexOf(rest, sep)
      case None => None
      case Some(j) =>
        var m, d := rest[..j], rest[j + 1..];
        if MonthField(m) && DayField(d) then MakeDate(s[..4], m, d) else None
  }

  /** `strptime(s, '%d<sep>%m<sep>%Y')`: neither `%d` nor `%m` holds a
      separator, so the first two separators end them; the year must then be
      exactly four digits with nothing after it. */
  function DayFirst(s: string, sep: char): Option<Date> {
    match IndexOf(s, sep)
    case None => None
    case Some(i) =>
      var d, rest := s[..i], s[i + 1..];
      match IndexOf(rest, sep)
      case None => None
      case Some(j) =>
        var m, y := rest[..j], rest[j + 1..];
        if DayField(d) && MonthField(m) && YearField(y) then MakeDate(y, m, d) else None
  }

  /** `datetime.strptime(s, fmt).date()`, `None` where strptime raises. */
  function Strptime(fmt: Format, s: string): (r: Option<Date>)
    ensures r.Some? ==> CalendarDate(r.value)
  {
    match fmt
    case IsoDash => YearFirst(s, '-')
    case DottedDmy => DayFirst(s, '.')
    case SlashYmd => YearFirst(s, '/')
    case SlashDmy => DayFirst(s, '/')
  }

  /** The loop of `parse_date`: the first format that parses wins. */
  function ParseWith(fmts: seq<Format>, s: string): Option<Date> {
    if fmts == [] then None
    else match Strptime(fmts[0], s)
      case Some(d) => Some(d)
      case None => ParseWith(fmts[1..], s)
  }

  /** The loop of `validate_date`: true as soon as one format parses. */
  function ValidateWith(fmts: seq<Format>, s: string): bool {
    if fmts == [] then false
    else if Strptime(fmts[0], s).Some? then true
    else ValidateWith(fmts[1..], s)
  }

  /** `parse_date`. */
  function ParseDate(v: Cell): Option<Date> {
    if !Truthy(v) || !v.Str? then None else ParseWith(FORMATS, Strip(v.s))
  }

  /** `validate_date`. */
  function ValidateDate(v: Cell): bool {
    Truthy(v) && v.Str? && ValidateWith(FORMATS, Strip(v.s))
  }
  // ---------------------------------------------------------------------
  // Properties of the e-mail and phone checks

  /** On a stripped string the before-newline reading of `$` never applies. */
  lemma AnchorOnStripped(t: string)
    requires Stripped(t)
    ensures EmailMatch(t) == EmailBody(t)
    ensures PhoneMatch(t) == PhoneBody(t)
  {
  }

  /** The shape `EMAIL_RE` accepts, said without the regular expression: no
      whitespace, exactly one '@', not at the front, and after it a '.' with
      something on both sides. */
  predicate EmailShape(t: string) {
    && (forall i | 0 <= i < |t| :: !IsSpace(t[i]))
    && multiset(t)['@'] == 1
    && forall k | 0 <= k < |t| && t[k] == '@' ::
         0 < k && exists i | k + 1 < i < |t| - 1 :: t[i] == '.'
  }

  lemma NoAtCount(a: string)
    requires EmailChars(a)
    ensures multiset(a)['@'] == 0
  {
    assert '@' !in a;
  }

  lemma TwoAtsCount(t: string, j: int, k: int)
    requires 0 <= j < k < |t| && t[j] == '@' && t[k] == '@'
    ensures multiset(t)['@'] >= 2
  {
    assert t == t[..k] + t[k..];
    assert t[..k][j] == '@';
    assert t[k..][0] == '@';
  }

  /** Around a single '@', two runs of `[^@\s]` hold no whitespace and no other '@'. */
  lemma AroundAt(t: string, k: int)
    requires 0 <= k < |t| && t[k] == '@' && EmailChars(t[..k]) && EmailChars(t[k + 1..])
    ensures forall i | 0 <= i < |t| :: !IsSpace(t[i]) && (i != k ==> t[i] != '@')
  {
    var a, b := t[..k], t[k + 1..];
    forall i | 0 <= i < |t| ensures !IsSpace(t[i]) && (i != k ==> t[i] != '@') {
      if i < k { assert t[i] == a[i]; } else if i > k { assert t[i] == b[i - k - 1]; }
    }
  }

  lemma AroundAtCount(t: string, k: int)
    requires 0 <= k < |t| && t[k] == '@' && EmailChars(t[..k]) && EmailChars(t[k + 1..])
    ensures multiset(t)['@'] == 1
  {
    var a, b := t[..k], t[k + 1..];
    assert t == a + [t[k]] + b;
    NoAtCount(a);
    NoAtCount(b);
    assert multiset(t) == multiset(a) + multiset{'@'} + multiset(b);
  }

  lemma EmailBodyToShape(t: string)
    requires EmailBody(t)
    ensures EmailShape(t)
  {
    var k :| 0 < k < |t| && t[k] == '@' && EmailChars(t[..k]) && EmailDomain(t[k + 1..]);
    var b := t[k + 1..];
    AroundAt(t, k);
    AroundAtCount(t, k);
    var dot :| 0 < dot < |b| - 1 && b[dot] == '.';
    assert t[k + 1 + dot] == '.';
    forall j | 0 <= j < |t| && t[j] == '@' ensures 0 < j && exists i | j + 1 < i < |t| - 1 :: t[i] == '.' {
      assert j == k;
    }
  }

  lemma EmailShapeToBody(t: string)
    requires EmailShape(t)
    ensures EmailBody(t)
  {
    assert '@' in multiset(t);
    var k :| 0 <= k < |t| && t[k] == '@';
    forall j | 0 <= j < |t| && j != k ensures t[j] != '@' {
      if j < k && t[j] == '@' { TwoAtsCount(t, j, k); }
      if k < j && t[j] == '@' { TwoAtsCount(t, k, j); }
    }
    var i :| k + 1 < i < |t| - 1 && t[i] == '.';
    var b := t[k + 1..];
    assert b[i - k - 1] == '.';
    assert EmailChars(t[..k]);
    assert EmailDomain(b);
  }

  lemma EmailBodyIffShape(t: string)
    ensures EmailBody(t) <==> EmailShape(t)
  {
    if EmailBody(t) { EmailBodyToShape(t); }
    if EmailShape(t) { EmailShapeToBody(t); }
  }

  /** `validate_email` accepts exactly the strings whose stripped form has the
      e-mail shape. */
  lemma ValidateEmailIff(s: string)
    ensures ValidateEmail(Str(s)) <==> EmailShape(Strip(s)) && Strip(s) != []
  {
    StripShape(s);
    AnchorOnStripped(Strip(s));
    EmailBodyIffShape(Strip(s));
  }

  /** `validate_email` is false for `None`, the empty string, numbers and NaN. */
  lemma ValidateEmailNonStrings(n: int)
    ensures !ValidateEmail(Null) && !ValidateEmail(Str("")) && !ValidateEmail(Missing)
    ensures !ValidateEmail(Int(n))
  {
  }

  lemma EmailRejectsMissingDot()
    ensures !ValidateEmail(Str("a@b"))
  {
    StripOfStripped("a@b");
  }

  /** `[^@\s]+\.[^@\s]+` matches `host.tld`. */
  lemma DomainOfParts(host: string, tld: string)
    requires host != [] && tld != [] && EmailChars(host) && EmailChars(tld)
    ensures EmailDomain(host + "." + tld)
  {
    var dom := host + "." + tld;
    assert dom[|host|] == '.';
    forall i | 0 <= i < |dom| ensures EmailChar(dom[i]) {
      if i < |host| { assert dom[i] == host[i]; }
      else if i > |host| { assert dom[i] == tld[i - |host| - 1]; }
    }
  }

  /** A local part, a host and a top-level label, none holding '@' or
      whitespace, joined as `local@host.tld`, always pass. */
  lemma EmailAcceptsParts(local: string, host: string, tld: string)
    requires local != [] && host != [] && tld != []
    requires EmailChars(local) && EmailChars(host) && EmailChars(tld)
    ensures ValidateEmail(Str(local + "@" + host + "." + tld))
  {
    var dom := host + "." + tld;
    var t := local + "@" + host + "." + tld;
    assert EmailBody(t) by {
      assert t == local + ['@'] + dom;
      var k := |local|;
      assert t[..k] == local && t[k] == '@' && t[k + 1..] == dom;
      DomainOfParts(host, tld);
    }
    assert Stripped(t) by {
      assert t[0] == local[0] && t[|t| - 1] == tld[|tld| - 1];
    }
    StripOfStripped(t);
  }

  lemma EmailAcceptsDottedDomain()
    ensures ValidateEmail(Str("a" + "@" + "b" + "." + "co"))
  {
    EmailAcceptsParts("a", "b", "co");
  }

  lemma EmailRejectsInnerSpace()
    ensures !ValidateEmail(Str("a b@c.de"))
  {
    var s := "a b@c.de";
    StripOfStripped(s);
    forall k | 0 < k < |s| && s[k] == '@' ensures !EmailChars(s[..k]) {
      assert k == 3 && s[..k][1] == ' ';
    }
  }

  lemma EmailRejectsTwoAts()
    ensures !ValidateEmail(Str("a@b@c.de"))
  {
    var s := "a@b@c.de";
    StripOfStripped(s);
    forall k | 0 < k < |s| && s[k] == '@' ensures !(EmailChars(s[..k]) && EmailDomain(s[k + 1..])) {
      if k == 1 { assert s[k + 1..][1] == '@'; } else { assert k == 3 && s[..k][1] == '@'; }
    }
  }

  /** The string with one leading '+' dropped. */
  function DropPlus(t: string): string {
    if |t| > 0 && t[0] == '+' then t[1..] else t
  }

  /** `\+?` is deterministic: `validate_phone` accepts exactly the strings
      whose stripped form, without a leading '+', is a digit, at least four
      characters of digits, '-', whitespace or brackets, and a digit. */
  lemma ValidatePhoneIff(s: string)
    ensures ValidatePhone(Str(s)) <==> PhoneDigits(DropPlus(Strip(s)))
  {
    StripShape(s);
    AnchorOnStripped(Strip(s));
  }

  /** Hence at least six characters besides the '+', two of them digits. */
  lemma ValidatePhoneLength(s: string)
    requires ValidatePhone(Str(s))
    ensures |DropPlus(Strip(s))| >= 6
  {
    ValidatePhoneIff(s);
  }

  /** Six or more digits pass, with or without a leading '+'. */
  lemma PhoneAcceptsDigits(t: string)
    requires |t| >= 6 && AllDigits(t)
    ensures ValidatePhone(Str(t)) && ValidatePhone(Str("+" + t))
  {
    assert PhoneDigits(t);
    assert Stripped(t);
    StripOfStripped(t);
    assert PhoneMatch(t);
    var p := "+" + t;
    assert p[1..] == t;
    assert Stripped(p) by {
      assert p[0] == '+' && p[|p| - 1] == t[|t| - 1];
    }
    StripOfStripped(p);
    assert PhoneMatch(p);
  }

  lemma PhoneRejectsFiveDigits()
    ensures !ValidatePhone(Str("12345")) && !ValidatePhone(Str("+12345"))
  {
    StripOfStripped("12345");
    StripOfStripped("+12345");
  }

  lemma PhoneRejectsLetter()
    ensures !ValidatePhone(Str("12a456"))
  {
    var s := "12a456";
    StripOfStripped(s);
    assert !PhoneChar(s[2]);
  }

  lemma PhoneRejectsTwoPluses()
    ensures !ValidatePhone(Str("++123456"))
  {
    var s := "++123456";
    StripOfStripped(s);
    assert !IsDigit(s[1..][0]);
  }

  /** Surrounding whitespace never changes the verdict of either check. */
  lemma EmailIgnoresSurroundingSpace(s: string)
    ensures ValidateEmail(Str(s)) == ValidateEmail(Str(Strip(s)))
  {
    StripIdempotent(s);
  }

  lemma PhoneIgnoresSurroundingSpace(s: string)
    ensures ValidatePhone(Str(s)) == ValidatePhone(Str(Strip(s)))
  {
    StripIdempotent(s);
  }

  // ---------------------------------------------------------------------
  // Properties of date parsing

  /** `validate_date` and `parse_date` run the same search: the loop of one
      returns true exactly where the loop of the other returns a date. */
  lemma {:induction false} ValidateWithAgrees(fmts: seq<Format>, s: string)
    ensures ValidateWith(fmts, s) == ParseWith(fmts, s).Some?
  {
    if fmts != [] {
      ValidateWithAgrees(fmts[1..], s);
    }
  }

  lemma ValidateDateAgreesWithParse(v: Cell)
    ensures ValidateDate(v) == ParseDate(v).Some?
  {
    if Truthy(v) && v.Str? {
      ValidateWithAgrees(FORMATS, Strip(v.s));
    }
  }

  /** The search returns the parse of the first format that parses. */
  lemma {:induction false} ParseWithFirstMatch(fmts: seq<Format>, s: string)
    ensures ParseWith(fmts, s).None? <==> forall j | 0 <= j < |fmts| :: Strptime(fmts[j], s).None?
    ensures ParseWith(fmts, s).Some? ==>
              exists i | 0 <= i < |fmts| ::
                && Strptime(fmts[i], s) == ParseWith(fmts, s)
                && forall j | 0 <= j < i :: Strptime(fmts[j], s).None?
  {
    if fmts != [] {
      ParseWithFirstMatch(fmts[1..], s);
      if Strptime(fmts[0], s).None? && ParseWith(fmts, s).Some? {
        var i :| 0 <= i < |fmts[1..]| && Strptime(fmts[1..][i], s) == ParseWith(fmts[1..], s)
                 && forall j | 0 <= j < i :: Strptime(fmts[1..][j], s).None?;
        assert Strptime(fmts[i + 1], s) == ParseWith(fmts, s);
      }
    }
  }

  /** Whatever `parse_date` returns is a real calendar day. */
  lemma {:induction false} ParseWithCalendar(fmts: seq<Format>, s: string)
    ensures ParseWith(fmts, s).Some? ==> CalendarDate(ParseWith(fmts, s).value)
  {
    if fmts != [] {
      ParseWithCalendar(fmts[1..], s);
    }
  }

  lemma ParseDateCalendar(v: Cell)
    ensures ParseDate(v).Some? ==> CalendarDate(ParseDate(v).value)
  {
    if Truthy(v) && v.Str? {
      ParseWithCalendar(FORMATS, Strip(v.s));
    }
  }
  /** `strftime`'s zero-padded two-digit field. */
  function Pad2(n: nat): (s: string)
    requires n < 100
    ensures |s| == 2 && AllDigits(s) && DigitsValue(s) == n
  {
    var s := [DigitChar(n / 10), DigitChar(n % 10)];
    DigitsValueTwo(s);
    s
  }

  /** `strftime`'s four-digit `%Y`. */
  function Pad4(n: nat): (s: string)
    requires n < 10000
    ensures |s| == 4 && AllDigits(s) && DigitsValue(s) == n
  {
    var s := Pad2(n / 100) + Pad2(n % 100);
    DigitsValueConcat(Pad2(n / 100), Pad2(n % 100));
    s
  }

  /** `date.strftime(fmt)` for a calendar day. */
  function Render(fmt: Format, d: Date): (s: string)
    requires CalendarDate(d)
    ensures |s| == 10
  {
    var y, m, dd := Pad4(d.year), Pad2(d.month), Pad2(d.day);
    match fmt
    case IsoDash => y + "-" + m + "-" + dd
    case DottedDmy => dd + "." + m + "." + y
    case SlashYmd => y + "/" + m + "/" + dd
    case SlashDmy => dd + "/" + m + "/" + y
  }

  lemma PaddedFields(d: Date)
    requires CalendarDate(d)
    ensures YearField(Pad4(d.year)) && FieldValue(Pad4(d.year)) == d.year
    ensures MonthField(Pad2(d.month)) && FieldValue(Pad2(d.month)) == d.month
    ensures DayField(Pad2(d.day)) && FieldValue(Pad2(d.day)) == d.day
  {
  }

  lemma {:induction false} IndexOfAfter(a: string, c: char, b: string)
    requires forall i | 0 <= i < |a| :: a[i] != c
    ensures IndexOf(a + [c] + b, c) == Some(|a|)
  {
    if a != [] {
      assert (a + [c] + b)[1..] == a[1..] + [c] + b;
      IndexOfAfter(a[1..], c, b);
    }
  }

  /** The first of two outcomes that is a date. */
  function OrElse(a: Option<Date>, b: Option<Date>): Option<Date> {
    if a.Some? then a else b
  }

  /** `parse_date` on a non-empty stripped string tries the four formats in order. */
  lemma ParseDateOfStripped(s: string)
    requires s != [] && Stripped(s)
    ensures ParseDate(Str(s)) ==
              OrElse(Strptime(IsoDash, s), OrElse(Strptime(DottedDmy, s),
                OrElse(Strptime(SlashYmd, s), Strptime(SlashDmy, s))))
  {
    StripOfStripped(s);
    var f1, f2, f3 := FORMATS[1..], FORMATS[2..], FORMATS[3..];
    assert f3[1..] == [];
    assert ParseWith(f3, s) == Strptime(SlashDmy, s);
    assert f2[1..] == f3;
    assert ParseWith(f2, s) == OrElse(Strptime(SlashYmd, s), ParseWith(f3, s));
    assert f1[1..] == f2;
    assert ParseWith(f1, s) == OrElse(Strptime(DottedDmy, s), ParseWith(f2, s));
    assert FORMATS[1..] == f1;
  }

  /** Every character of a matched field is a digit or a space. */
  predicate FieldChars(s: string) {
    forall i | 0 <= i < |s| :: IsDigit(s[i]) || s[i] == ' '
  }

  lemma FieldsAreFieldChars(s: string)
    requires YearField(s) || MonthField(s) || DayField(s)
    ensures FieldChars(s)
  {
  }

  /** A matched field ends in a digit, and a year or month field also starts with one. */
  lemma FieldEnds(s: string)
    requires YearField(s) || MonthField(s) || DayField(s)
    ensures |s| > 0 && IsDigit(s[|s| - 1])
    ensures (YearField(s) || MonthField(s)) ==> IsDigit(s[0])
  {
  }

  /** A string of four fields' characters and two separators holds no other character. */
  lemma NoOtherChar(a: string, sep: char, b: string, c: string, x: char)
    requires FieldChars(a) && FieldChars(b) && FieldChars(c)
    requires x != sep && !IsDigit(x) && x != ' '
    ensures forall i | 0 <= i < |a + [sep] + b + [sep] + c| :: (a + [sep] + b + [sep] + c)[i] != x
  {
    var s := a + [sep] + b + [sep] + c;
    forall i | 0 <= i < |s| ensures s[i] != x {
      if i < |a| { assert s[i] == a[i]; }
      else if i == |a| || i == |a| + |b| + 1 { }
      else if i <= |a| + |b| { assert s[i] == b[i - |a| - 1]; }
      else { assert s[i] == c[i - |a| - |b| - 2]; }
    }
  }

  /** A format whose separator does not occur in `s` does not parse it. */
  lemma AbsentSeparator(s: string, c: char)
    requires forall i | 0 <= i < |s| :: s[i] != c
    ensures YearFirst(s, c).None? && DayFirst(s, c).None?
  {
  }

  /** A string holding none of the three separators parses under no format. */
  lemma NoSeparatorNoDate(s: string)
    requires forall i | 0 <= i < |s| :: s[i] != '-' && s[i] != '.' && s[i] != '/'
    ensures ParseWith(FORMATS, s).None?
  {
    AbsentSeparator(s, '-');
    AbsentSeparator(s, '.');
    AbsentSeparator(s, '/');
    ParseWithFirstMatch(FORMATS, s);
  }

  /** `validate_date(str(x))` for a blank cell `x`: "nan" is no date. */
  lemma NanIsNoDate()
    ensures !ValidateDate(Str("nan"))
  {
    StripOfStripped("nan");
    NoSeparatorNoDate("nan");
    ValidateWithAgrees(FORMATS, "nan");
  }

  /** Fields joined by `sep` hold no other separator. */
  lemma OtherSeparatorsAbsent(a: string, sep: char, b: string, c: string)
    requires (YearField(a) || DayField(a)) && MonthField(b) && (YearField(c) || DayField(c))
    requires sep == '-' || sep == '.' || sep == '/'
    ensures sep != '-' ==> YearFirst(a + [sep] + b + [sep] + c, '-').None?
    ensures sep != '.' ==> DayFirst(a + [sep] + b + [sep] + c, '.').None?
    ensures sep != '/' ==> YearFirst(a + [sep] + b + [sep] + c, '/').None?
    ensures sep != '/' ==> DayFirst(a + [sep] + b + [sep] + c, '/').None?
  {
    FieldsAreFieldChars(a);
    FieldsAreFieldChars(b);
    FieldsAreFieldChars(c);
    var s := a + [sep] + b + [sep] + c;
    if sep != '-' { NoOtherChar(a, sep, b, c, '-'); AbsentSeparator(s, '-'); }
    if sep != '.' { NoOtherChar(a, sep, b, c, '.'); AbsentSeparator(s, '.'); }
    if sep != '/' { NoOtherChar(a, sep, b, c, '/'); AbsentSeparator(s, '/'); }
  }

  /** `parse_date` on a string that reads as '%Y-%m-%d' fields: the first
      format decides, the others find no separator of theirs. */
  lemma ParseIsoFields(y: string, m: string, d: string)
    requires YearField(y) && MonthField(m) && DayField(d)
    ensures ParseDate(Str(y + "-" + m + "-" + d)) == MakeDate(y, m, d)
  {
    var s := y + "-" + m + "-" + d;
    assert s != [] && Stripped(s) by {
      FieldEnds(y);
      FieldEnds(d);
      assert s[0] == y[0] && s[|s| - 1] == d[|d| - 1];
    }
    ParseDateOfStripped(s);
    assert Strptime(IsoDash, s) == MakeDate(y, m, d) by {
      FieldsAreFieldChars(m);
      YearFirstSplit(y, '-', m, d);
    }
    OtherSeparatorsAbsent(y, '-', m, d);
  }

  /** `parse_date` on a string that reads as '%d.%m.%Y' fields. */
  lemma ParseDottedFields(d: string, m: string, y: string)
    requires DayField(d) && IsDigit(d[0]) && MonthField(m) && YearField(y)
    ensures ParseDate(Str(d + "." + m + "." + y)) == MakeDate(y, m, d)
  {
    var s := d + "." + m + "." + y;
    assert s != [] && Stripped(s) by {
      FieldEnds(y);
      assert s[0] == d[0] && s[|s| - 1] == y[|y| - 1];
    }
    ParseDateOfStripped(s);
    assert Strptime(DottedDmy, s) == MakeDate(y, m, d) by {
      FieldsAreFieldChars(d);
      FieldsAreFieldChars(m);
      DayFirstSplit(d, '.', m, y);
    }
    OtherSeparatorsAbsent(d, '.', m, y);
  }

  /** `parse_date` on a string that reads as '%Y/%m/%d' fields. */
  lemma ParseSlashYmdFields(y: string, m: string, d: string)
    requires YearField(y) && MonthField(m) && DayField(d)
    ensures ParseDate(Str(y + "/" + m + "/" + d)) == MakeDate(y, m, d)
  {
    var s := y + "/" + m + "/" + d;
    assert s != [] && Stripped(s) by {
      FieldEnds(y);
      FieldEnds(d);
      assert s[0] == y[0] && s[|s| - 1] == d[|d| - 1];
    }
    ParseDateOfStripped(s);
    assert Strptime(SlashYmd, s) == MakeDate(y, m, d) by {
      FieldsAreFieldChars(m);
      YearFirstSplit(y, '/', m, d);
    }
    YearFirstNotDayFirst(y, '/', m, d);
    OtherSeparatorsAbsent(y, '/', m, d);
  }

  /** A year field followed by a separator: four characters are too many for `%d`. */
  lemma YearFirstNotDayFirst(y: string, sep: char, m: string, d: string)
    requires YearField(y) && !IsDigit(sep)
    ensures DayFirst(y + [sep] + m + [sep] + d, sep).None?
  {
    var s := y + [sep] + m + [sep] + d;
    assert s == y + [sep] + (m + [sep] + d);
    IndexOfAfter(y, sep, m + [sep] + d);
    assert s[..4] == y;
  }

  /** A day field followed by a separator: the first four characters are no `%Y`. */
  lemma DayFirstNotYearFirst(d: string, sep: char, m: string, y: string, other: char)
    requires DayField(d) && !IsDigit(sep)
    ensures YearFirst(d + [sep] + m + [sep] + y, other).None?
  {
    var s := d + [sep] + m + [sep] + y;
    if |s| >= 5 {
      assert s[|d|] == sep;
      assert s[..4][|d|] == sep;
    }
  }

  /** `parse_date` on a string that reads as '%d/%m/%Y' fields: '%Y/%m/%d'
      fails too, as no four digits come before the first '/'. */
  lemma ParseSlashDmyFields(d: string, m: string, y: string)
    requires DayField(d) && IsDigit(d[0]) && MonthField(m) && YearField(y)
    ensures ParseDate(Str(d + "/" + m + "/" + y)) == MakeDate(y, m, d)
  {
    var s := d + "/" + m + "/" + y;
    assert s != [] && Stripped(s) by {
      FieldEnds(y);
      assert s[0] == d[0] && s[|s| - 1] == y[|y| - 1];
    }
    ParseDateOfStripped(s);
    DayFirstNotYearFirst(d, '/', m, y, '/');
    assert Strptime(SlashDmy, s) == MakeDate(y, m, d) by {
      FieldsAreFieldChars(d);
      FieldsAreFieldChars(m);
      DayFirstSplit(d, '/', m, y);
    }
    OtherSeparatorsAbsent(d, '/', m, y);
  }

  /** `strptime` with a year-first format, on a string already cut at its
      separators. */
  lemma YearFirstSplit(y: string, sep: char, m: string, d: string)
    requires |y| == 4 && forall i | 0 <= i < |m| :: m[i] != sep
    ensures YearFirst(y + [sep] + m + [sep] + d, sep) ==
              if YearField(y) && MonthField(m) && DayField(d) then MakeDate(y, m, d) else None
  {
    var s := y + [sep] + m + [sep] + d;
    assert s[..4] == y && s[4] == sep && s[5..] == m + [sep] + d;
    IndexOfAfter(m, sep, d);
    assert (m + [sep] + d)[..|m|] == m && (m + [sep] + d)[|m| + 1..] == d;
  }

  /** `strptime` with a day-first format, on a string already cut at its
      separators. */
  lemma DayFirstSplit(d: string, sep: char, m: string, y: string)
    requires forall i | 0 <= i < |d| :: d[i] != sep
    requires forall i | 0 <= i < |m| :: m[i] != sep
    ensures DayFirst(d + [sep] + m + [sep] + y, sep) ==
              if DayField(d) && MonthField(m) && YearField(y) then MakeDate(y, m, d) else None
  {
    var s := d + [sep] + m + [sep] + y;
    assert s == d + [sep] + (m + [sep] + y);
    IndexOfAfter(d, sep, m + [sep] + y);
    assert s[..|d|] == d && s[|d| + 1..] == m + [sep] + y;
    IndexOfAfter(m, sep, y);
    assert (m + [sep] + y)[..|m|] == m && (m + [sep] + y)[|m| + 1..] == y;
  }

  /** Rendering a day in any of the four formats and parsing it back gives
      the day: no earlier format in the search captures the rendering. */
  lemma DateRoundTrip(fmt: Format, d: Date)
    requires CalendarDate(d)
    ensures ParseDate(Str(Render(fmt, d))) == Some(d)
  {
    var y, m, dd := Pad4(d.year), Pad2(d.month), Pad2(d.day);
    PaddedFields(d);
    match fmt
    case IsoDash => ParseIsoFields(y, m, dd);
    case DottedDmy => ParseDottedFields(dd, m, y);
    case SlashYmd => ParseSlashYmdFields(y, m, dd);
    case SlashDmy => ParseSlashDmyFields(dd, m, y);
  }

  /** The value of a `%Y` field, digit by digit. */
  lemma YearValue(s: string)
    requires YearField(s)
    ensures FieldValue(s) == 1000 * DigitValue(s[0]) + 100 * DigitValue(s[1]) + 10 * DigitValue(s[2]) + DigitValue(s[3])
  {
    assert s == s[..2] + s[2..];
    DigitsValueConcat(s[..2], s[2..]);
    DigitsValueTwo(s[..2]);
    DigitsValueTwo(s[2..]);
  }

  lemma LeapDayAccepted()
    ensures ParseDate(Str("2020-02-29")) == Some(Date(2020, 2, 29))
  {
    assert Render(IsoDash, Date(2020, 2, 29)) == "2020-02-29";
    DateRoundTrip(IsoDash, Date(2020, 2, 29));
  }

  /** The day three `%Y`, `%m` and `%d` fields name. */
  function FieldsDate(y: string, m: string, d: string): Date
    requires YearField(y) && MonthField(m) && DayField(d)
  {
    Date(FieldValue(y), FieldValue(m), FieldValue(d))
  }

  /** The fields name a day `date` accepts exactly when the year is not 0
      and the day exists in that month. */
  lemma MakeDateCalendar(y: string, m: string, d: string)
    requires YearField(y) && MonthField(m) && DayField(d)
    ensures MakeDate(y, m, d) == if CalendarDate(FieldsDate(y, m, d)) then Some(FieldsDate(y, m, d)) else None
  {
    MonthFieldRange(m);
    DayFieldRange(d);
    DigitsValueBound(y);
    assert Pow10(4) == 10000;
  }

  /** A well-formed '%Y-%m-%d' string parses exactly when it names a real
      day: February 29 of a common year, April 31 and year 0 are rejected. */
  lemma IsoParsesIffCalendar(y: string, m: string, d: string)
    requires YearField(y) && MonthField(m) && DayField(d)
    ensures ParseDate(Str(y + "-" + m + "-" + d)) ==
              if CalendarDate(FieldsDate(y, m, d)) then Some(FieldsDate(y, m, d)) else None
  {
    ParseIsoFields(y, m, d);
    MakeDateCalendar(y, m, d);
  }

  /** The same for a well-formed '%d.%m.%Y' string. */
  lemma DottedParsesIffCalendar(d: string, m: string, y: string)
    requires DayField(d) && IsDigit(d[0]) && MonthField(m) && YearField(y)
    ensures ParseDate(Str(d + "." + m + "." + y)) ==
              if CalendarDate(FieldsDate(y, m, d)) then Some(FieldsDate(y, m, d)) else None
  {
    ParseDottedFields(d, m, y);
    MakeDateCalendar(y, m, d);
  }

  /** February 29 is rejected in a common year, in either layout. */
  lemma CommonYearLeapDayRejected(y: string)
    requires YearField(y) && !IsLeap(FieldValue(y))
    ensures ParseDate(Str(y + "-" + "02" + "-" + "29")).None?
    ensures ParseDate(Str("29" + "." + "02" + "." + y)).None?
  {
    DigitsValueTwo("02");
    DigitsValueTwo("29");
    IsoParsesIffCalendar(y, "02", "29");
    DottedParsesIffCalendar("29", "02", y);
  }

  lemma NonLeapDayRejected()
    ensures ParseDate(Str("2021" + "-" + "02" + "-" + "29")).None?
  {
    YearValue("2021");
    CommonYearLeapDayRejected("2021");
  }

  /** April has no 31st day. */
  lemma ThirtyFirstOfAprilRejected(y: string)
    requires YearField(y)
    ensures ParseDate(Str("31" + "." + "04" + "." + y)).None?
  {
    DigitsValueTwo("31");
    DigitsValueTwo("04");
    DottedParsesIffCalendar("31", "04", y);
  }

  /** Year 0 has four digits but `date` rejects it. */
  lemma YearZeroRejected(m: string, d: string)
    requires MonthField(m) && DayField(d)
    ensures ParseDate(Str("0000" + "-" + m + "-" + d)).None?
  {
    YearValue("0000");
    IsoParsesIffCalendar("0000", m, d);
  }

  /** ` 5` and `05` are both `%d` fields worth 5. */
  lemma SpacePaddedDayValue(c: char)
    requires '1' <= c <= '9'
    ensures DayField([' ', c]) && DayField(['0', c])
    ensures FieldValue([' ', c]) == FieldValue(['0', c]) == DigitValue(c)
  {
    DigitsValueOne([' ', c][1..]);
    DigitsValueTwo(['0', c]);
  }

  /** strptime's `%d` also takes a space and one digit: "2020-01- 5" reads
      as "2020-01-05". */
  lemma SpacePaddedDayAccepted(y: string, m: string, c: char)
    requires YearField(y) && MonthField(m) && '1' <= c <= '9'
    ensures ParseDate(Str(y + "-" + m + "-" + [' ', c])) == ParseDate(Str(y + "-" + m + "-" + ['0', c]))
  {
    SpacePaddedDayValue(c);
    assert FieldsDate(y, m, [' ', c]) == FieldsDate(y, m, ['0', c]);
    IsoParsesIffCalendar(y, m, [' ', c]);
    IsoParsesIffCalendar(y, m, ['0', c]);
  }
}
