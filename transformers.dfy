/** The transformer of the registration pipeline: header normalisation
    through a fixed alias table, and the per-row checks that split the rows
    of a player table into a valid and an invalid cohort. */
module Transformers {
  import opened Text
  import opened Frames
  import opened Validators
  import opened Wrappers

  // ---------------------------------------------------------------------
  // Header normalisation

  /** The alias table of `normalize_columns`: trimmed, lower-cased header to
      canonical column name. */
  const ALIASES: map<string, string> := map[
    "first_name" := "first_name", "firstname" := "first_name", "first name" := "first_name",
    "last_name" := "last_name", "lastname" := "last_name", "last name" := "last_name",
    "email" := "email", "e-mail" := "email",
    "rating" := "rating",
    "phone" := "phone_number", "phone_number" := "phone_number", "phone number" := "phone_number",
    "dob" := "date_of_birth", "date_of_birth" := "date_of_birth", "date of birth" := "date_of_birth"
  ]

  /** `mapping.get(key, key)`. */
  function Lookup(key: string): string {
    if key in ALIASES then ALIASES[key] else key
  }

  /** The canonical name of one header: the alias of its trimmed,
      lower-cased text, or that text itself. */
  function Canonical(c: string): string {
    Lookup(ToLower(Strip(c)))
  }

  /** The headers after `normalize_columns`, position by position. */
  function CanonicalColumns(cols: seq<string>): (r: seq<string>)
    ensures |r| == |cols| && forall i | 0 <= i < |cols| :: r[i] == Canonical(cols[i])
  {
    seq(|cols|, i requires 0 <= i < |cols| => Canonical(cols[i]))
  }

  /** The six canonical column names. */
  const TARGETS: set<string> := {"first_name", "last_name", "email", "rating", "phone_number", "date_of_birth"}

  /** Every alias names one of the canonical columns. */
  lemma AliasTargets(key: string)
    requires key in ALIASES
    ensures ALIASES[key] in TARGETS
  {
  }

  /** Every canonical name is its own alias. */
  lemma TargetsAreFixed(name: string)
    requires name in TARGETS
    ensures name in ALIASES && ALIASES[name] == name
  {
  }

  /** Lower-case ASCII letters and underscores. */
  predicate SnakeCase(s: string) {
    forall i | 0 <= i < |s| :: 'a' <= s[i] <= 'z' || s[i] == '_'
  }

  lemma SnakeCaseIsNormal(s: string)
    requires s != [] && SnakeCase(s)
    ensures ToLower(Strip(s)) == s
  {
    StripOfStripped(s);
    LowerOfLower(s);
  }

  /** Every canonical name is already trimmed and lower-case. */
  lemma TargetsAreNormal(name: string)
    requires name in TARGETS
    ensures ToLower(Strip(name)) == name
  {
    assert name != [] && SnakeCase(name);
    SnakeCaseIsNormal(name);
  }

  /** Normalising a normalised header changes nothing. */
  lemma CanonicalIdempotent(c: string)
    ensures Canonical(Canonical(c)) == Canonical(c)
  {
    var key := ToLower(Strip(c));
    if key in ALIASES {
      AliasTargets(key);
      TargetsAreNormal(ALIASES[key]);
      TargetsAreFixed(ALIASES[key]);
    } else {
      StripShape(c);
      LowerOfStripped(Strip(c));
      StripOfStripped(key);
      LowerOfLower(key);
    }
  }

  lemma PaddedHeaderStrips()
    ensures Strip(" E-Mail ") == "E-Mail"
  {
    var e := "E-Mail";
    assert TrimLeft(" E-Mail ") == TrimLeft(e + " ") == e + " ";
    assert TrimRight(e + " ") == TrimRight(e) == e;
  }

  lemma MixedCaseLowers()
    ensures ToLower("E-Mail") == "e-mail" && ToLower("DOB") == "dob"
  {
    var e := "E-Mail";
    ToLowerAt(e, 0); ToLowerAt(e, 1); ToLowerAt(e, 2); ToLowerAt(e, 3); ToLowerAt(e, 4); ToLowerAt(e, 5);
    var d := "DOB";
    ToLowerAt(d, 0); ToLowerAt(d, 1); ToLowerAt(d, 2);
  }

  /** A padded, mixed-case alias and an upper-case abbreviation both reach
      their canonical names. */
  lemma CanonicalExamples()
    ensures Canonical(" E-Mail ") == "email" && Canonical("DOB") == "date_of_birth"
  {
    PaddedHeaderStrips();
    MixedCaseLowers();
    StripOfStripped("DOB");
  }

  /** `normalize_columns`: the loop fills the rename table header by
      header; `rename` then applies it to every label. The rows are untouched. */
  method NormalizeColumns(t: Table) returns (r: Table)
    ensures r.rows == t.rows && r.columns == CanonicalColumns(t.columns)
  {
    var newCols: map<string, string> := map[];
    var i := 0;
    while i < |t.columns|
      invariant 0 <= i <= |t.columns|
      invariant forall c :: c in newCols <==> c in t.columns[..i]
      invariant forall c | c in newCols :: newCols[c] == Canonical(c)
    {
      var c := t.columns[i];
      newCols := newCols[c := Canonical(c)];
      assert t.columns[..i + 1] == t.columns[..i] + [c];
      i := i + 1;
    }
    assert t.columns[..i] == t.columns;
    var cols := [];
    var j := 0;
    while j < |t.columns|
      invariant 0 <= j <= |t.columns| && |cols| == j
      invariant forall k | 0 <= k < j :: t.columns[k] in newCols && cols[k] == newCols[t.columns[k]]
    {
      assert t.columns[j] in t.columns;
      cols := cols + [newCols[t.columns[j]]];
      j := j + 1;
    }
    r := Table(cols, t.rows);
  }

  // ---------------------------------------------------------------------
  // Python's int() on a cell

  /** Decimal digits, single underscores allowed between two digits: the
      literal `int(str)` accepts after the sign. */
  predicate DigitRun(u: string) {
    && |u| > 0 && IsDigit(u[0]) && IsDigit(u[|u| - 1])
    && forall i | 0 < i < |u| - 1 :: IsDigit(u[i]) || (u[i] == '_' && IsDigit(u[i - 1]) && IsDigit(u[i + 1]))
  }

  /** The digits of a run, underscores dropped. */
  function DropUnderscores(u: string): (d: string)
    ensures AllDigits(d) && |d| <= |u|
  {
    if u == [] then []
    else if IsDigit(u[0]) then [u[0]] + DropUnderscores(u[1..])
    else DropUnderscores(u[1..])
  }

  lemma {:induction false} DropUnderscoresOfDigits(u: string)
    requires AllDigits(u)
    ensures DropUnderscores(u) == u
  {
    if u != [] {
      DropUnderscoresOfDigits(u[1..]);
    }
  }

  /** A digit run's value; `None` for anything else. */
  function ParseDigits(u: string): Option<int> {
    if DigitRun(u) then Some(DigitsValue(DropUnderscores(u))) else None
  }

  /** The literal after `strip`: an optional sign and a digit run. */
  function ParseLiteral(t: string): Option<int> {
    if |t| > 0 && t[0] == '-' then
      match ParseDigits(t[1..])
      case Some(n) => Some(-n)
      case None => None
    else if |t| > 0 && t[0] == '+' then ParseDigits(t[1..])
    else ParseDigits(t)
  }

  /** The whitespace `int()` skips around its literal. CPython turns each
      non-ASCII character of `IsSpace` into a space and then skips C's
      `isspace` set, so the separators U+001C to U+001F, which `str.isspace`
      accepts, are not skipped. */
  predicate IntSpace(c: char) {
    IsSpace(c) && !(0x1C <= c as int <= 0x1F)
  }

  function IntTrimLeft(s: string): (r: string)
    ensures |r| <= |s|
  {
    if |s| > 0 && IntSpace(s[0]) then IntTrimLeft(s[1..]) else s
  }

  function IntTrimRight(s: string): (r: string)
    ensures |r| <= |s|
  {
    if |s| > 0 && IntSpace(s[|s| - 1]) then IntTrimRight(s[..|s| - 1]) else s
  }

  /** The part of the text `int()` reads as its literal. */
  function IntStrip(s: string): string {
    IntTrimRight(IntTrimLeft(s))
  }

  /** `int(s)` for a string: surrounding whitespace, an optional sign and a
      digit run; `None` where Python raises `ValueError`. */
  function ParseInt(s: string): Option<int> {
    ParseLiteral(IntStrip(s))
  }

  lemma IntStripOfBare(s: string)
    requires s == [] || (!IntSpace(s[0]) && !IntSpace(s[|s| - 1]))
    ensures IntStrip(s) == s
  {
  }

  lemma {:induction false} IntTrimLeftPad(w: string, t: string)
    requires forall i | 0 <= i < |w| :: IntSpace(w[i])
    requires t != [] && !IntSpace(t[0])
    ensures IntTrimLeft(w + t) == t
  {
    if w == [] {
      assert w + t == t;
    } else {
      assert (w + t)[1..] == w[1..] + t;
      IntTrimLeftPad(w[1..], t);
    }
  }

  lemma {:induction false} IntTrimRightPad(t: string, w: string)
    requires forall i | 0 <= i < |w| :: IntSpace(w[i])
    requires t != [] && !IntSpace(t[|t| - 1])
    ensures IntTrimRight(t + w) == t
  {
    if w == [] {
      assert t + w == t;
    } else {
      var n := |w| - 1;
      assert (t + w)[..|t + w| - 1] == t + w[..n];
      IntTrimRightPad(t, w[..n]);
    }
  }

  /** `int()` ignores whitespace of its own kind around the literal. */
  lemma ParseIntPadded(w1: string, t: string, w2: string)
    requires forall i | 0 <= i < |w1| :: IntSpace(w1[i])
    requires forall i | 0 <= i < |w2| :: IntSpace(w2[i])
    requires t != [] && !IntSpace(t[0]) && !IntSpace(t[|t| - 1])
    ensures ParseInt(w1 + t + w2) == ParseLiteral(t)
  {
    assert w1 + t + w2 == w1 + (t + w2);
    IntTrimLeftPad(w1, t + w2);
    IntTrimRightPad(t, w2);
  }

  /** A leading U+001C is whitespace to `str.strip` but not to `int()`:
      `int("\x1c7")` raises. */
  lemma IntSeparatorRefused()
    ensures ParseInt(['\U{1C}', '7']).None?
  {
    IntStripOfBare(['\U{1C}', '7']);
  }

  /** `int(v)` for a cell: an integer is itself, NaN raises, a string is parsed. */
  function CoerceInt(v: Cell): (r: Option<int>)
    ensures v.Int? ==> r == Some(v.n)
    ensures v.Missing? || v.Null? ==> r.None?
  {
    match v
    case Int(n) => Some(n)
    case Str(s) => ParseInt(s)
    case _ => None
  }

  /** Plain digits are a digit run with their own value. */
  lemma ParseDigitsOfDigits(u: string)
    requires |u| > 0 && AllDigits(u)
    ensures ParseDigits(u) == Some(DigitsValue(u) as int)
  {
    DropUnderscoresOfDigits(u);
  }

  /** Decimal digits parse to their value. */
  lemma ParseIntOfDigits(u: string, k: nat)
    requires |u| > 0 && AllDigits(u) && DigitsValue(u) == k
    ensures ParseInt(u) == Some(k)
  {
    IntStripOfBare(u);
    ParseDigitsOfDigits(u);
  }

  lemma NegativeStripped(u: string)
    requires |u| > 0 && AllDigits(u)
    ensures IntStrip("-" + u) == "-" + u
  {
    IntStripOfBare("-" + u);
  }

  /** A '-' followed by decimal digits parses to the negated value. */
  lemma ParseIntOfNegative(u: string, k: nat)
    requires |u| > 0 && AllDigits(u) && DigitsValue(u) == k
    ensures ParseInt("-" + u) == Some(-(k as int))
  {
    NegativeStripped(u);
    ParseDigitsOfDigits(u);
    NegativeLiteral(u, k);
  }

  /** A '-' in front of a stripped digit run negates its value. */
  lemma NegativeLiteral(u: string, k: int)
    requires ParseDigits(u) == Some(k) && IntStrip("-" + u) == "-" + u
    ensures ParseInt("-" + u) == Some(-k)
  {
    assert ("-" + u)[1..] == u;
  }

  /** `int(str(n)) == n`: the decimal rendering of every integer parses back. */
  lemma ParseIntRoundTrip(n: int)
    ensures ParseInt(IntToString(n)) == Some(n)
  {
    if n < 0 {
      NatToStringRoundTrip(-n);
      ParseIntOfNegative(NatToString(-n), -n);
    } else {
      NatToStringRoundTrip(n);
      ParseIntOfDigits(NatToString(n), n);
    }
  }

  lemma ParseIntExamples()
    ensures ParseInt("abc").None? && ParseInt("").None? && ParseInt("-").None?
  {
    IntStripOfBare("abc");
    IntStripOfBare("-");
  }

  // ---------------------------------------------------------------------
  // The row checks, as a rule table

  /** The columns `transform_players` requires, in the order it checks them. */
  const REQUIRED: seq<string> := ["first_name", "last_name", "email"]

  /** Every message `transform_players` can append, in the order of its checks. */
  const MESSAGES: seq<string> := [
    "first_name is required", "last_name is required", "email is required",
    "invalid email", "invalid phone", "invalid date_of_birth",
    "rating must be non-negative", "rating must be integer"
  ]

  /** The first three messages are those of the required columns. */
  lemma RequiredMessages(k: nat)
    requires k < |REQUIRED|
    ensures MESSAGES[k] == RequiredMessage(REQUIRED[k])
  {
  }

  /** The row after the name fields that hold strings have been stripped. */
  function Prepare(r: Row): (p: Row)
    ensures p.Keys == r.Keys
    ensures forall k | k in r && k != "first_name" && k != "last_name" :: p[k] == r[k]
    ensures forall k | k in r && (k == "first_name" || k == "last_name") ::
              p[k] == if r[k].Str? then Str(Strip(r[k].s)) else r[k]
  {
    var q := if "first_name" in r && r["first_name"].Str? then r["first_name" := Str(Strip(r["first_name"].s))] else r;
    if "last_name" in q && q["last_name"].Str? then q["last_name" := Str(Strip(q["last_name"].s))] else q
  }

  /** `not r.get(col)`. */
  predicate Absent(p: Row, col: string) {
    !Truthy(Get(p, col))
  }

  /** `'email' in r and not validate_email(r.get('email'))`. */
  predicate BadEmail(p: Row) {
    "email" in p && !ValidateEmail(p["email"])
  }

  /** `'phone_number' in r and r.get('phone_number') and not validate_phone(...)`. */
  predicate BadPhone(p: Row) {
    "phone_number" in p && Truthy(p["phone_number"]) && !ValidatePhone(p["phone_number"])
  }

  /** `'date_of_birth' in r and r.get('date_of_birth') and not validate_date(str(...))`. */
  predicate BadDob(p: Row) {
    "date_of_birth" in p && Truthy(p["date_of_birth"]) && !ValidateDate(Str(PyStr(p["date_of_birth"])))
  }

  /** `'rating' in r and r.get('rating') is not None`: the rating is coerced. */
  predicate HasRating(p: Row) {
    "rating" in p && p["rating"] != Null
  }

  /** `int()` accepts the rating and gives a negative number. */
  predicate NegativeRating(p: Row) {
    HasRating(p) && CoerceInt(p["rating"]).Some? && CoerceInt(p["rating"]).value < 0
  }

  /** `int()` raises on the rating. */
  predicate NonIntegerRating(p: Row) {
    HasRating(p) && CoerceInt(p["rating"]).None?
  }

  /** `f'{col} is required'`. */
  function RequiredMessage(col: string): string {
    col + " is required"
  }

  /** The message `msg` when its check fires, nothing otherwise. */
  function Appended(fired: bool, msg: string): seq<string> {
    if fired then [msg] else []
  }

  /** The messages of the loop over the first `n` required columns. */
  function RequiredErrors(p: Row, n: nat): seq<string>
    requires n <= |REQUIRED|
  {
    if n == 0 then []
    else RequiredErrors(p, n - 1) + Appended(Absent(p, REQUIRED[n - 1]), RequiredMessage(REQUIRED[n - 1]))
  }

  /** The messages of the rating check: `int()` raising, or a negative result. */
  function RatingErrors(p: Row): seq<string> {
    if !HasRating(p) then []
    else match CoerceInt(p["rating"])
      case Some(n) => Appended(n < 0, "rating must be non-negative")
      case None => ["rating must be integer"]
  }

  /** The error list the checks build for the prepared row `p`. */
  function ErrorsOf(p: Row): seq<string> {
    ErrorList(RequiredErrors(p, |REQUIRED|), BadEmail(p), BadPhone(p), BadDob(p), RatingErrors(p))
  }

  /** The error list from the parts the checks contribute, in check order. */
  function ErrorList(required: seq<string>, email: bool, phone: bool, dob: bool, rating: seq<string>): seq<string> {
    required + Appended(email, "invalid email") + Appended(phone, "invalid phone")
      + Appended(dob, "invalid date_of_birth") + rating
  }

  /** The error list of a row. */
  function RowErrors(r: Row): seq<string> {
    ErrorsOf(Prepare(r))
  }

  // ---------------------------------------------------------------------
  // The error list as a filter of the message table

  /** `msgs[k]` when `flags[k]`, for the first `n` positions, in order. */
  function Filter(msgs: seq<string>, flags: seq<bool>, n: nat): seq<string>
    requires n <= |msgs| && n <= |flags|
  {
    if n == 0 then [] else Filter(msgs, flags, n - 1) + Appended(flags[n - 1], msgs[n - 1])
  }

  /** The flagged positions among the first `n`, increasing. */
  function Flagged(flags: seq<bool>, n: nat): (ks: seq<nat>)
    requires n <= |flags|
    ensures forall i | 0 <= i < |ks| :: ks[i] < n && flags[ks[i]]
    ensures forall i, j | 0 <= i < j < |ks| :: ks[i] < ks[j]
    ensures forall k | 0 <= k < n && flags[k] :: k in ks
  {
    if n == 0 then [] else Flagged(flags, n - 1) + (if flags[n - 1] then [n - 1] else [])
  }

  /** The filter lists the messages of the flagged positions, one for one. */
  lemma {:induction false} FilterIsFlagged(msgs: seq<string>, flags: seq<bool>, n: nat)
    requires n <= |msgs| && n <= |flags|
    ensures |Filter(msgs, flags, n)| == |Flagged(flags, n)|
    ensures forall i | 0 <= i < |Flagged(flags, n)| :: Filter(msgs, flags, n)[i] == msgs[Flagged(flags, n)[i]]
  {
    if n > 0 {
      FilterIsFlagged(msgs, flags, n - 1);
    }
  }

  /** The filter lists only messages of the table. */
  lemma {:induction false} FilterWithin(msgs: seq<string>, flags: seq<bool>, n: nat)
    requires n <= |msgs| && n <= |flags|
    ensures forall m | m in Filter(msgs, flags, n) :: m in msgs
  {
    if n > 0 {
      FilterWithin(msgs, flags, n - 1);
    }
  }

  predicate Distinct(msgs: seq<string>) {
    forall i, j | 0 <= i < j < |msgs| :: msgs[i] != msgs[j]
  }

  /** With distinct messages, a message is in the filter exactly when its flag is set. */
  lemma FilterMember(msgs: seq<string>, flags: seq<bool>, k: nat)
    requires |msgs| == |flags| && Distinct(msgs) && k < |msgs|
    ensures msgs[k] in Filter(msgs, flags, |msgs|) <==> flags[k]
  {
    var ks := Flagged(flags, |msgs|);
    FilterIsFlagged(msgs, flags, |msgs|);
    if msgs[k] in Filter(msgs, flags, |msgs|) {
      var i :| 0 <= i < |ks| && Filter(msgs, flags, |msgs|)[i] == msgs[k];
      assert msgs[ks[i]] == msgs[k];
      assert ks[i] == k;
    }
  }

  /** With distinct messages, the filter keeps the order of the table. */
  lemma FilterOrder(msgs: seq<string>, flags: seq<bool>, i: nat, j: nat, a: nat, b: nat)
    requires |msgs| == |flags| && Distinct(msgs)
    requires i < j < |Filter(msgs, flags, |msgs|)| && a < |msgs| && b < |msgs|
    requires Filter(msgs, flags, |msgs|)[i] == msgs[a] && Filter(msgs, flags, |msgs|)[j] == msgs[b]
    ensures a < b
  {
    var ks := Flagged(flags, |msgs|);
    FilterIsFlagged(msgs, flags, |msgs|);
    assert msgs[ks[i]] == msgs[a] && msgs[ks[j]] == msgs[b];
    assert ks[i] == a && ks[j] == b;
  }

  /** A number for each message that tells the messages apart. */
  function Tag(m: string): int {
    if |m| < 9 then 0 else |m| * 1000 + m[0] as int + m[8] as int
  }

  /** No two checks share a message. */
  lemma MessagesDistinct()
    ensures Distinct(MESSAGES)
  {
    var tags := [Tag(MESSAGES[0]), Tag(MESSAGES[1]), Tag(MESSAGES[2]), Tag(MESSAGES[3]),
                 Tag(MESSAGES[4]), Tag(MESSAGES[5]), Tag(MESSAGES[6]), Tag(MESSAGES[7])];
    assert forall i, j | 0 <= i < j < 8 :: tags[i] != tags[j];
    forall i, j | 0 <= i < j < |MESSAGES| ensures MESSAGES[i] != MESSAGES[j] {
      assert Tag(MESSAGES[i]) == tags[i] && Tag(MESSAGES[j]) == tags[j];
    }
  }

  /** `Verdicts(p)[k]`: whether the check of `MESSAGES[k]` fires for the prepared row `p`. */
  function Verdicts(p: Row): (v: seq<bool>)
    ensures |v| == |MESSAGES|
  {
    [Absent(p, "first_name"), Absent(p, "last_name"), Absent(p, "email"),
     BadEmail(p), BadPhone(p), BadDob(p), NegativeRating(p), NonIntegerRating(p)]
  }

  lemma {:induction false} RequiredFiltered(p: Row, v: seq<bool>, n: nat)
    requires n <= |REQUIRED| && |v| == |MESSAGES|
    requires v[0] == Absent(p, REQUIRED[0]) && v[1] == Absent(p, REQUIRED[1]) && v[2] == Absent(p, REQUIRED[2])
    ensures RequiredErrors(p, n) == Filter(MESSAGES, v, n)
  {
    if n > 0 {
      RequiredFiltered(p, v, n - 1);
      RequiredMessages(n - 1);
      assert v[n - 1] == Absent(p, REQUIRED[n - 1]);
    }
  }

  lemma RatingFiltered(p: Row)
    ensures RatingErrors(p) == Appended(NegativeRating(p), MESSAGES[6]) + Appended(NonIntegerRating(p), MESSAGES[7])
  {
  }

  lemma AppendAssoc<T>(a: seq<T>, b: seq<T>, c: seq<T>)
    ensures a + (b + c) == a + b + c
  {
  }

  /** One more position of the filter. */
  lemma FilterStep(msgs: seq<string>, flags: seq<bool>, n: nat)
    requires n < |msgs| && n < |flags|
    ensures Filter(msgs, flags, n + 1) == Filter(msgs, flags, n) + Appended(flags[n], msgs[n])
  {
  }

  /** The parts of the error list line up with the positions of the table. */
  lemma {:induction false} ErrorListFiltered(required: seq<string>, email: bool, phone: bool, dob: bool, rating: seq<string>, v: seq<bool>)
    requires |v| == |MESSAGES| && required == Filter(MESSAGES, v, |REQUIRED|)
    requires v[3] == email && v[4] == phone && v[5] == dob
    requires rating == Appended(v[6], MESSAGES[6]) + Appended(v[7], MESSAGES[7])
    ensures ErrorList(required, email, phone, dob, rating) == Filter(MESSAGES, v, |MESSAGES|)
  {
    FilterStep(MESSAGES, v, 3);
    FilterStep(MESSAGES, v, 4);
    FilterStep(MESSAGES, v, 5);
    FilterStep(MESSAGES, v, 6);
    FilterStep(MESSAGES, v, 7);
    AppendAssoc(Filter(MESSAGES, v, 6), Appended(v[6], MESSAGES[6]), Appended(v[7], MESSAGES[7]));
  }

  /** The error list is the messages of the checks that fire, in check order. */
  lemma ErrorsAreFiltered(p: Row, v: seq<bool>)
    requires v == Verdicts(p)
    ensures ErrorsOf(p) == Filter(MESSAGES, v, |MESSAGES|)
  {
    assert v[0] == Absent(p, REQUIRED[0]) && v[1] == Absent(p, REQUIRED[1]) && v[2] == Absent(p, REQUIRED[2]);
    RequiredFiltered(p, v, |REQUIRED|);
    RatingFiltered(p);
    ErrorListFiltered(RequiredErrors(p, |REQUIRED|), v[3], v[4], v[5], RatingErrors(p), v);
  }

  /** A check's message is in the error list exactly when the check fires. */
  lemma MessageIffFires(r: Row, k: nat)
    requires k < |MESSAGES|
    ensures MESSAGES[k] in RowErrors(r) <==> Verdicts(Prepare(r))[k]
  {
    ErrorsAreFiltered(Prepare(r), Verdicts(Prepare(r)));
    MessagesDistinct();
    FilterMember(MESSAGES, Verdicts(Prepare(r)), k);
  }

  /** The errors follow the check order: of two messages, the one of the
      earlier check comes first. */
  lemma ErrorsInCheckOrder(r: Row, i: nat, j: nat, a: nat, b: nat)
    requires i < j < |RowErrors(r)| && a < |MESSAGES| && b < |MESSAGES|
    requires RowErrors(r)[i] == MESSAGES[a] && RowErrors(r)[j] == MESSAGES[b]
    ensures a < b
  {
    ErrorsAreFiltered(Prepare(r), Verdicts(Prepare(r)));
    MessagesDistinct();
    FilterOrder(MESSAGES, Verdicts(Prepare(r)), i, j, a, b);
  }

  /** The row after coercing a rating that `int()` accepts. */
  function Coerced(p: Row): (q: Row)
    ensures q.Keys == p.Keys
    ensures forall k | k in p && k != "rating" :: q[k] == p[k]
  {
    if "rating" in p && p["rating"] != Null && CoerceInt(p["rating"]).Some? then
      p["rating" := Int(CoerceInt(p["rating"]).value)]
    else p
  }

  /** The row `transform_players` emits for an input row: names stripped,
      rating coerced, and `_errors` set to the joined messages when there are any. */
  function Checked(r: Row): Row {
    var q := Coerced(Prepare(r));
    var errors := RowErrors(r);
    if errors != [] then q["_errors" := Str(Join(errors, "; "))] else q
  }

  /** `errors.append(msg)` under the condition of one check. */
  method AppendIf(errors: seq<string>, fired: bool, msg: string) returns (e: seq<string>)
    ensures e == errors + Appended(fired, msg)
  {
    e := errors;
    if fired {
      e := e + [msg];
    }
  }

  /** The rating step of the loop body: `int()` on the rating, which replaces
      it when it succeeds. */
  method CheckRating(r: Row) returns (q: Row, errors: seq<string>)
    ensures q == Coerced(r) && errors == RatingErrors(r)
  {
    q, errors := r, [];
    if "rating" in r && r["rating"] != Null {
      match CoerceInt(r["rating"])
      case Some(n) =>
        q := r["rating" := Int(n)];
        if n < 0 {
          errors := ["rating must be non-negative"];
        }
      case None =>
        errors := ["rating must be integer"];
    }
  }

  /** The body of the row loop of `transform_players`: the checks run in
      order on the dictionary `r`, appending to `errors`. */
  method CheckRow(row: Row) returns (r: Row, errors: seq<string>)
    ensures errors == RowErrors(row)
    ensures r == Checked(row)
  {
    r := Prepare(row);
    ghost var p := r;
    errors := [];
    for j := 0 to |REQUIRED|
      invariant errors == RequiredErrors(p, j)
    {
      errors := AppendIf(errors, Absent(r, REQUIRED[j]), RequiredMessage(REQUIRED[j]));
    }
    errors := AppendIf(errors, BadEmail(r), "invalid email");
    errors := AppendIf(errors, BadPhone(r), "invalid phone");
    errors := AppendIf(errors, BadDob(r), "invalid date_of_birth");
    var ratingErrors;
    r, ratingErrors := CheckRating(r);
    errors := errors + ratingErrors;
    if errors != [] {
      r := r["_errors" := Str(Join(errors, "; "))];
    }
  }

  // ---------------------------------------------------------------------
  // The partition

  /** A row whose checks all pass. */
  predicate RowValid(r: Row) {
    RowErrors(r) == []
  }

  predicate RowInvalid(r: Row) {
    RowErrors(r) != []
  }

  /** The outputs `out(x)` of the inputs that `keep` selects, in input order:
      the cohort a loop appends to. */
  function Cohort<T>(xs: seq<T>, keep: T -> bool, out: T -> T): seq<T> {
    if xs == [] then []
    else Cohort(xs[..|xs| - 1], keep, out) + (if keep(xs[|xs| - 1]) then [out(xs[|xs| - 1])] else [])
  }

  lemma CohortSnoc<T>(xs: seq<T>, x: T, keep: T -> bool, out: T -> T)
    ensures Cohort(xs + [x], keep, out) == Cohort(xs, keep, out) + (if keep(x) then [out(x)] else [])
  {
    assert (xs + [x])[..|xs|] == xs;
  }

  /** The cohort of a concatenation is the concatenation of the cohorts. */
  lemma {:induction false} CohortConcat<T>(a: seq<T>, b: seq<T>, keep: T -> bool, out: T -> T)
    ensures Cohort(a + b, keep, out) == Cohort(a, keep, out) + Cohort(b, keep, out)
  {
    if b == [] {
      assert a + b == a;
    } else {
      var n := |b| - 1;
      assert a + b == (a + b[..n]) + [b[n]];
      assert b == b[..n] + [b[n]];
      CohortConcat(a, b[..n], keep, out);
      CohortSnoc(a + b[..n], b[n], keep, out);
      CohortSnoc(b[..n], b[n], keep, out);
    }
  }

  /** Of two complementary selections, every input lands in exactly one. */
  lemma {:induction false} CohortSizes<T>(xs: seq<T>, keep: T -> bool, drop: T -> bool, out: T -> T)
    requires forall x :: drop(x) == !keep(x)
    ensures |Cohort(xs, keep, out)| + |Cohort(xs, drop, out)| == |xs|
  {
    if xs != [] {
      CohortSizes(xs[..|xs| - 1], keep, drop, out);
    }
  }

  /** Every member of a cohort is the output of a selected input. */
  lemma {:induction false} CohortMembers<T>(xs: seq<T>, keep: T -> bool, out: T -> T, y: T)
    requires y in Cohort(xs, keep, out)
    ensures exists x | x in xs :: keep(x) && y == out(x)
  {
    var n := |xs| - 1;
    if y in Cohort(xs[..n], keep, out) {
      CohortMembers(xs[..n], keep, out, y);
      var x :| x in xs[..n] && keep(x) && y == out(x);
      assert x in xs;
    } else {
      assert keep(xs[n]) && y == out(xs[n]);
    }
  }

  /** The valid cohort of a sequence of rows, in input order. */
  function ValidOf(rows: seq<Row>): seq<Row> {
    Cohort(rows, RowValid, Checked)
  }

  /** The invalid cohort of a sequence of rows, in input order. */
  function InvalidOf(rows: seq<Row>): seq<Row> {
    Cohort(rows, RowInvalid, Checked)
  }

  /** The dictionaries `iterrows` and `to_dict` give for a table whose
      headers have been normalised. */
  function PlayerRows(t: Table): (rows: seq<Row>)
    requires WellFormed(t)
    ensures |rows| == |t.rows|
  {
    var cols := CanonicalColumns(t.columns);
    seq(|t.rows|, i requires 0 <= i < |t.rows| => ToDict(cols, t.rows[i]))
  }

  /** The routing step of the row loop: `valid_rows.append(r)` when there
      are no errors, `invalid_rows.append(r)` otherwise. */
  method Route(valid: seq<Row>, invalid: seq<Row>, out: Row, ok: bool) returns (valid': seq<Row>, invalid': seq<Row>)
    ensures valid' == valid + (if ok then [out] else [])
    ensures invalid' == invalid + (if !ok then [out] else [])
  {
    valid', invalid' := valid, invalid;
    if ok {
      valid' := valid' + [out];
    } else {
      invalid' := invalid' + [out];
    }
  }

  /** One iteration of the row loop: check the row, then append the checked
      row to the cohort its error list chooses. */
  method CheckAndRoute(valid: seq<Row>, invalid: seq<Row>, r: Row) returns (valid': seq<Row>, invalid': seq<Row>)
    ensures valid' == valid + (if RowValid(r) then [Checked(r)] else [])
    ensures invalid' == invalid + (if RowInvalid(r) then [Checked(r)] else [])
  {
    var out, errors := CheckRow(r);
    valid', invalid' := Route(valid, invalid, out, errors == []);
  }

  lemma TakeOneMore<T>(xs: seq<T>, i: nat)
    requires i < |xs|
    ensures xs[..i + 1] == xs[..i] + [xs[i]]
  {
  }

  /** `transform_players`: normalise the headers, then check every row and
      append it to the valid or the invalid cohort. */
  method TransformPlayers(t: Table) returns (valid: seq<Row>, invalid: seq<Row>)
    requires WellFormed(t)
    ensures valid == ValidOf(PlayerRows(t)) && invalid == InvalidOf(PlayerRows(t))
  {
    var df := NormalizeColumns(t);
    ghost var rows := PlayerRows(t);
    valid, invalid := [], [];
    var i := 0;
    while i < |df.rows|
      invariant 0 <= i <= |df.rows| == |rows|
      invariant valid == ValidOf(rows[..i]) && invalid == InvalidOf(rows[..i])
    {
      var r := ToDict(df.columns, df.rows[i]);
      assert r == rows[i];
      TakeOneMore(rows, i);
      CohortSnoc(rows[..i], rows[i], RowValid, Checked);
      CohortSnoc(rows[..i], rows[i], RowInvalid, Checked);
      valid, invalid := CheckAndRoute(valid, invalid, r);
      i := i + 1;
    }
    assert rows[..i] == rows;
  }

  // ---------------------------------------------------------------------
  // Properties of the partition

  /** Every row lands in exactly one cohort. */
  lemma PartitionSizes(rows: seq<Row>)
    ensures |ValidOf(rows)| + |InvalidOf(rows)| == |rows|
  {
    CohortSizes(rows, RowValid, RowInvalid, Checked);
  }

  /** The cohorts of a concatenation are the concatenated cohorts: the split
      keeps the input order within each cohort. */
  lemma PartitionConcat(a: seq<Row>, b: seq<Row>)
    ensures ValidOf(a + b) == ValidOf(a) + ValidOf(b)
    ensures InvalidOf(a + b) == InvalidOf(a) + InvalidOf(b)
  {
    CohortConcat(a, b, RowValid, Checked);
    CohortConcat(a, b, RowInvalid, Checked);
  }

  /** A single row goes to the cohort its error list chooses. */
  lemma PartitionOne(r: Row)
    ensures RowValid(r) ==> ValidOf([r]) == [Checked(r)] && InvalidOf([r]) == []
    ensures !RowValid(r) ==> InvalidOf([r]) == [Checked(r)] && ValidOf([r]) == []
  {
    CohortSnoc([], r, RowValid, Checked);
    CohortSnoc([], r, RowInvalid, Checked);
  }

  /** An invalid row carries its joined, non-empty error list. */
  lemma InvalidRowCarriesErrors(r: Row)
    requires RowInvalid(r)
    ensures "_errors" in Checked(r) && Checked(r)["_errors"] == Str(Join(RowErrors(r), "; "))
    ensures Join(RowErrors(r), "; ") != []
  {
    var e := RowErrors(r);
    assert e[0] in MESSAGES by {
      ErrorsFromTable(r);
    }
    assert forall m | m in MESSAGES :: m != [];
  }

  /** Every error of a row is one of the messages of the table. */
  lemma ErrorsFromTable(r: Row)
    ensures forall m | m in RowErrors(r) :: m in MESSAGES
  {
    var p := Prepare(r);
    ErrorsAreFiltered(p, Verdicts(p));
    FilterWithin(MESSAGES, Verdicts(p), |MESSAGES|);
  }

  /** Every member of the invalid cohort carries a non-empty error list. */
  lemma InvalidRowsCarryErrors(rows: seq<Row>)
    ensures forall x: Row | x in InvalidOf(rows) :: "_errors" in x && x["_errors"].Str? && x["_errors"].s != []
  {
    forall x: Row | x in InvalidOf(rows)
      ensures "_errors" in x && x["_errors"].Str? && x["_errors"].s != []
    {
      CohortMembers(rows, RowInvalid, Checked, x);
      var r :| r in rows && RowInvalid(r) && x == Checked(r);
      InvalidRowCarriesErrors(r);
    }
  }

  /** A valid row gets no `_errors` entry of its own making, and its other
      entries are the prepared, coerced row. */
  lemma ValidRowShape(r: Row)
    requires RowValid(r)
    ensures Checked(r) == Coerced(Prepare(r))
    ensures "_errors" in Checked(r) <==> "_errors" in r
  {
  }

  /** In a valid row the rating is absent, `None`, or a non-negative integer. */
  lemma ValidRowRating(r: Row)
    requires RowValid(r)
    ensures var x := Checked(r);
            "rating" !in x || x["rating"] == Null || (x["rating"].Int? && x["rating"].n >= 0)
  {
    MessageIffFires(r, 6);
    MessageIffFires(r, 7);
  }

  /** In every member of the valid cohort the rating is absent, `None`, or a
      non-negative integer. */
  lemma ValidRatings(rows: seq<Row>)
    ensures forall x: Row | x in ValidOf(rows) ::
              "rating" !in x || x["rating"] == Null || (x["rating"].Int? && x["rating"].n >= 0)
  {
    forall x: Row | x in ValidOf(rows)
      ensures "rating" !in x || x["rating"] == Null || (x["rating"].Int? && x["rating"].n >= 0)
    {
      CohortMembers(rows, RowValid, Checked, x);
      var r :| r in rows && RowValid(r) && x == Checked(r);
      ValidRowRating(r);
    }
  }

  /** Every valid row has truthy first and last names and a valid e-mail. */
  lemma ValidRowHasRequired(r: Row)
    requires RowValid(r)
    ensures Truthy(Get(Prepare(r), "first_name")) && Truthy(Get(Prepare(r), "last_name"))
    ensures "email" in r && ValidateEmail(r["email"])
  {
    MessageIffFires(r, 0);
    MessageIffFires(r, 1);
    MessageIffFires(r, 2);
    MessageIffFires(r, 3);
  }

  // ---------------------------------------------------------------------
  // The e-mail and blank-cell cases

  /** A blank e-mail cell (NaN) is truthy: only "invalid email" is reported. */
  lemma BlankEmailCell(r: Row)
    requires "email" in r && r["email"] == Missing
    ensures "invalid email" in RowErrors(r) && "email is required" !in RowErrors(r)
  {
    MessageIffFires(r, 2);
    MessageIffFires(r, 3);
  }

  /** An empty e-mail string is reported twice, "required" first. */
  lemma EmptyEmailString(r: Row)
    requires "email" in r && r["email"] == Str("")
    ensures "email is required" in RowErrors(r) && "invalid email" in RowErrors(r)
  {
    MessageIffFires(r, 2);
    MessageIffFires(r, 3);
  }

  /** A missing e-mail column is reported once, as required. */
  lemma AbsentEmailColumn(r: Row)
    requires "email" !in r
    ensures "email is required" in RowErrors(r) && "invalid email" !in RowErrors(r)
  {
    MessageIffFires(r, 2);
    MessageIffFires(r, 3);
  }

  /** A name of whitespace only counts as missing. */
  lemma BlankNameRequired(r: Row)
    requires "first_name" in r && r["first_name"].Str? && Strip(r["first_name"].s) == []
    ensures "first_name is required" in RowErrors(r)
  {
    MessageIffFires(r, 0);
  }

  /** Blank phone and date cells (NaN) are truthy and not strings, so they are reported. */
  lemma BlankPhoneAndDateCells(r: Row)
    requires "phone_number" in r && r["phone_number"] == Missing
    requires "date_of_birth" in r && r["date_of_birth"] == Missing
    ensures "invalid phone" in RowErrors(r) && "invalid date_of_birth" in RowErrors(r)
  {
    NanIsNoDate();
    MessageIffFires(r, 4);
    MessageIffFires(r, 5);
  }

  /** An absent or `None` phone or date is never checked. */
  lemma UncheckedWhenFalsy(r: Row)
    requires "phone_number" !in r || !Truthy(r["phone_number"])
    requires "date_of_birth" !in r || !Truthy(r["date_of_birth"])
    ensures "invalid phone" !in RowErrors(r) && "invalid date_of_birth" !in RowErrors(r)
  {
    MessageIffFires(r, 4);
    MessageIffFires(r, 5);
  }

  // ---------------------------------------------------------------------
  // The rating cases

  /** A blank rating cell (NaN) makes `int()` raise. */
  lemma BlankRatingCell(r: Row)
    requires "rating" in r && r["rating"] == Missing
    ensures "rating must be integer" in RowErrors(r) && "rating must be non-negative" !in RowErrors(r)
  {
    MessageIffFires(r, 6);
    MessageIffFires(r, 7);
  }

  /** A rating that is no integer literal is reported as such. */
  lemma NonNumericRating(r: Row)
    requires "rating" in r && r["rating"] == Str("abc")
    ensures "rating must be integer" in RowErrors(r)
  {
    ParseIntExamples();
    MessageIffFires(r, 7);
  }

  /** A negative rating is reported, and the row still carries it as an integer. */
  lemma NegativeRatingReported(r: Row, n: int)
    requires "rating" in r && r["rating"] == Int(n) && n < 0
    ensures "rating must be non-negative" in RowErrors(r) && "rating must be integer" !in RowErrors(r)
    ensures Checked(r)["rating"] == Int(n)
  {
    MessageIffFires(r, 6);
    MessageIffFires(r, 7);
  }

  /** A rating written as a decimal string is replaced by its integer. */
  lemma RatingStringCoerced(r: Row, n: int)
    requires "rating" in r && r["rating"] == Str(IntToString(n))
    ensures Checked(r)["rating"] == Int(n)
    ensures "rating must be integer" !in RowErrors(r)
    ensures n >= 0 <==> "rating must be non-negative" !in RowErrors(r)
  {
    ParseIntRoundTrip(n);
    MessageIffFires(r, 6);
    MessageIffFires(r, 7);
  }

  /** A `None` rating is left alone. */
  lemma NullRatingUnchecked(r: Row)
    requires "rating" in r && r["rating"] == Null
    ensures "rating must be integer" !in RowErrors(r) && "rating must be non-negative" !in RowErrors(r)
    ensures Checked(r)["rating"] == Null
  {
    MessageIffFires(r, 6);
    MessageIffFires(r, 7);
  }
}
