/** Pagination query parsing (src/common/dto/pagination.dto.ts): `page`
    and `limit` arrive as optional query strings, are turned into numbers
    with JavaScript's `parseInt(val, 10)` and defaults, and are then
    checked against their ranges; a failed check is reported by the
    validation pipe (src/common/pipes/zod-validation.pipe.ts) as a bad
    request. */
module Pagination {
  import opened Wrappers
  import opened Text
  import opened Exceptions

  const DEFAULT_PAGE := 1
  const DEFAULT_LIMIT := 10
  const MAX_LIMIT := 100
  const VALIDATION_ERROR := "Error de validación"

  // ---------------------------------------------------------------------------
  // parseInt(val, 10)

  function DigitValue(c: char): int {
    c as int - '0' as int
  }

  predicate AllDigits(s: string) {
    forall k :: 0 <= k < |s| ==> IsDigit(s[k])
  }

  /** The number a run of decimal digits denotes. */
  function DigitsValue(ds: string): (n: nat)
    requires AllDigits(ds)
  {
    if ds == [] then 0 else DigitsValue(ds[..|ds| - 1]) * 10 + DigitValue(ds[|ds| - 1])
  }

  /** What follows the leading white space and an optional sign. */
  function NumeralStart(s: string): string {
    var t := TrimStart(s);
    if t != [] && (t[0] == '-' || t[0] == '+') then t[1..] else t
  }

  /** A minus sign follows the leading white space. */
  predicate Negative(s: string) {
    var t := TrimStart(s);
    t != [] && t[0] == '-'
  }

  /** `parseInt(s, 10)`: leading white space is skipped, a sign may follow,
      and the longest run of decimal digits after it is read; `None` is
      `NaN`, when that run is empty. */
  function ParseInt(s: string): (r: Option<int>)
    ensures r.None? <==> NumeralStart(s) == [] || !IsDigit(NumeralStart(s)[0])
    ensures r.Some? && !Negative(s) ==> r.value >= 0
    ensures r.Some? && Negative(s) ==> r.value <= 0
  {
    var body := NumeralStart(s);
    var n := Run(body, IsDigit);
    if n == 0 then None
    else
      var magnitude: int := DigitsValue(body[..n]);
      Some(if Negative(s) then -magnitude else magnitude)
  }

  /** Nothing to skip in front of a digit or a sign. */
  lemma NoLeadingSpace(s: string)
    requires s != [] && (IsDigit(s[0]) || s[0] == '-')
    ensures TrimStart(s) == s
  {
  }

  /** The decimal numeral of `n`, without sign or leading zeros. */
  function ToDecimal(n: nat): (s: string)
    ensures s != [] && AllDigits(s)
    decreases n
  {
    if n < 10 then ["0123456789"[n]] else ToDecimal(n / 10) + ["0123456789"[n % 10]]
  }

  /** Reading a numeral back gives the number. */
  lemma {:induction false} DigitsOfDecimal(n: nat)
    ensures DigitsValue(ToDecimal(n)) == n
    decreases n
  {
    var s := ToDecimal(n);
    if n >= 10 {
      DigitsOfDecimal(n / 10);
      assert s[..|s| - 1] == ToDecimal(n / 10);
    }
  }

  /** A string that starts with a digit is read from its first character. */
  lemma ParseFromDigit(s: string, n: nat)
    requires s != [] && IsDigit(s[0]) && Run(s, IsDigit) == n
    ensures ParseInt(s) == Some(DigitsValue(s[..n]))
  {
    NoLeadingSpace(s);
    assert NumeralStart(s) == s && !Negative(s);
  }

  /** `parseInt` reads a numeral up to the first character that is not a
      digit: `'3abc'` gives 3 and `'2.9'` gives 2. */
  lemma ParseNumeralPrefix(n: nat, rest: string)
    requires rest == [] || !IsDigit(rest[0])
    ensures ParseInt(ToDecimal(n) + rest) == Some(n)
  {
    var d := ToDecimal(n);
    var s := d + rest;
    RunOfDigitsThenOther(d, rest);
    assert s[0] == d[0];
    ParseFromDigit(s, |d|);
    assert s[..|d|] == d;
    DigitsOfDecimal(n);
  }

  lemma {:induction false} RunOfDigitsThenOther(d: string, rest: string)
    requires AllDigits(d)
    requires rest == [] || !IsDigit(rest[0])
    ensures Run(d + rest, IsDigit) == |d|
    decreases |d|
  {
    if d != [] {
      assert (d + rest)[1..] == d[1..] + rest;
      RunOfDigitsThenOther(d[1..], rest);
    } else {
      assert d + rest == rest;
    }
  }

  /** `parseInt` in general: white space, an optional sign, a run of digits
      (leading zeros included) and anything that does not start with a
      digit give the value of the digits, negated after a minus sign. */
  lemma ParseSignedDigits(ws: string, sign: string, d: string, rest: string)
    requires forall k :: 0 <= k < |ws| ==> IsSpace(ws[k])
    requires sign in {"", "+", "-"}
    requires d != [] && AllDigits(d)
    requires rest == [] || !IsDigit(rest[0])
    ensures ParseInt(ws + sign + d + rest) == Some(if sign == "-" then -(DigitsValue(d) as int) else DigitsValue(d))
  {
    var s := ws + sign + d + rest;
    assert s == ws + sign + (d + rest);
    SignedNumeralStart(ws, sign, d + rest);
    ParseNumeral(s, d, rest);
  }

  /** Once the numeral starts with the digits `d`, they are what is read. */
  lemma ParseNumeral(s: string, d: string, rest: string)
    requires d != [] && AllDigits(d)
    requires rest == [] || !IsDigit(rest[0])
    requires NumeralStart(s) == d + rest
    ensures ParseInt(s) == Some(if Negative(s) then -(DigitsValue(d) as int) else DigitsValue(d))
  {
    RunOfDigitsThenOther(d, rest);
    assert (d + rest)[..|d|] == d;
  }

  /** After white space and a sign, the numeral starts with the digits. */
  lemma SignedNumeralStart(ws: string, sign: string, body: string)
    requires forall k :: 0 <= k < |ws| ==> IsSpace(ws[k])
    requires sign in {"", "+", "-"}
    requires body != [] && IsDigit(body[0])
    ensures NumeralStart(ws + sign + body) == body
    ensures Negative(ws + sign + body) <==> sign == "-"
  {
    var t := sign + body;
    assert ws + sign + body == ws + t;
    assert t[0] == (if sign == "" then body[0] else sign[0]);
    TrimStartSpaces(ws, t);
    if sign != "" {
      assert t[1..] == body;
    }
  }

  /** A numeral is read back as its number. */
  lemma ParseDecimal(n: nat)
    ensures ParseInt(ToDecimal(n)) == Some(n)
  {
    ParseNumeralPrefix(n, []);
    assert ToDecimal(n) + [] == ToDecimal(n);
  }

  /** A minus sign negates. */
  lemma ParseNegative(n: nat)
    ensures ParseInt(['-'] + ToDecimal(n)) == Some(-(n as int))
  {
    var d := ToDecimal(n);
    var s := ['-'] + d;
    NoLeadingSpace(s);
    assert s[1..] == d;
    assert NumeralStart(s) == d && Negative(s);
    RunOfDigitsThenOther(d, []);
    assert d + [] == d;
    assert d[..|d|] == d;
    DigitsOfDecimal(n);
  }

  // ---------------------------------------------------------------------------
  // paginationQuerySchema

  /** The query fields, in the order the schema declares them. */
  datatype QueryField = Page | Limit

  /** `PaginationQueryDto` once the schema accepted it. */
  datatype PaginationQuery = PaginationQuery(page: int, limit: int)

  /** The transform of one field: a missing or empty string, or one that
      `parseInt` reads as `NaN`, gives the default. */
  function Transform(val: Option<string>, default: int): (n: int)
    ensures !Truthy(val) ==> n == default
    ensures Truthy(val) && ParseInt(val.value).None? ==> n == default
    ensures Truthy(val) && ParseInt(val.value).Some? ==> n == ParseInt(val.value).value
  {
    if !Truthy(val) then default
    else
      match ParseInt(val.value)
      case None => default
      case Some(parsed) => parsed
  }

  predicate ValidPage(page: int) {
    page >= 1
  }

  predicate ValidLimit(limit: int) {
    1 <= limit <= MAX_LIMIT
  }

  /** `paginationQuerySchema.parse(query)`: the transformed values when both
      lie in range, otherwise the first field whose check fails. Values
      out of range are rejected, not clamped. */
  function ParsePaginationQuery(page: Option<string>, limit: Option<string>): (r: Result<PaginationQuery, QueryField>)
    ensures r.Ok? ==> ValidPage(r.value.page) && ValidLimit(r.value.limit)
    ensures r.Ok? <==> ValidPage(Transform(page, DEFAULT_PAGE)) && ValidLimit(Transform(limit, DEFAULT_LIMIT))
    ensures r.Ok? ==> r.value == PaginationQuery(Transform(page, DEFAULT_PAGE), Transform(limit, DEFAULT_LIMIT))
    ensures r.Err? ==> (r.error == Page <==> !ValidPage(Transform(page, DEFAULT_PAGE)))
  {
    var p := Transform(page, DEFAULT_PAGE);
    var l := Transform(limit, DEFAULT_LIMIT);
    if !ValidPage(p) then Err(Page)
    else if !ValidLimit(l) then Err(Limit)
    else Ok(PaginationQuery(p, l))
  }

  /** With nothing given, the first page of ten. */
  lemma DefaultsWhenMissing(page: Option<string>, limit: Option<string>)
    requires !Truthy(page) && !Truthy(limit)
    ensures ParsePaginationQuery(page, limit) == Ok(PaginationQuery(DEFAULT_PAGE, DEFAULT_LIMIT))
  {
  }

  /** Numerals are accepted exactly when they lie in range. */
  lemma NumeralsAcceptedIffInRange(page: nat, limit: nat)
    ensures ParsePaginationQuery(Some(ToDecimal(page)), Some(ToDecimal(limit))) == Ok(PaginationQuery(page, limit))
            <==> page >= 1 && 1 <= limit <= MAX_LIMIT
    ensures page == 0 ==> ParsePaginationQuery(Some(ToDecimal(page)), Some(ToDecimal(limit))) == Err(Page)
    ensures page >= 1 && (limit == 0 || limit > MAX_LIMIT) ==> ParsePaginationQuery(Some(ToDecimal(page)), Some(ToDecimal(limit))) == Err(Limit)
  {
    ParseDecimal(page);
    ParseDecimal(limit);
  }

  /** A negative page such as `'-2'` is rejected. */
  lemma NegativePageRejected(n: nat, limit: Option<string>)
    requires n >= 1
    ensures ParsePaginationQuery(Some(['-'] + ToDecimal(n)), limit) == Err(Page)
  {
    var s := ['-'] + ToDecimal(n);
    ParseNegative(n);
    assert s != [];
    var p := Transform(Some(s), DEFAULT_PAGE);
    assert p == -(n as int);
    assert !ValidPage(p);
  }

  /** Text that is not a number falls back to the default. */
  lemma NotANumberGivesDefault(val: string, default: int)
    requires val != [] && ParseInt(val).None?
    ensures Transform(Some(val), default) == default
  {
  }

  // The literal examples below take their text as a parameter fixed by
  // `requires`, which keeps the verifier from unfolding it where it need not.

  /** `'3abc'` is read as 3. */
  lemma PageThreeAbc(page: string)
    requires page == "3abc"
    ensures Transform(Some(page), DEFAULT_PAGE) == 3
  {
    assert ToDecimal(3) == "3";
    ParseNumeralPrefix(3, "abc");
    assert "3" + "abc" == page;
  }

  /** `'2.9'` is read as 2. */
  lemma LimitTwoPointNine(limit: string)
    requires limit == "2.9"
    ensures Transform(Some(limit), DEFAULT_LIMIT) == 2
  {
    assert ToDecimal(2) == "2";
    ParseNumeralPrefix(2, ".9");
    assert "2" + ".9" == limit;
  }

  /** `'3abc'` is page 3 and `'2.9'` is a limit of 2. */
  lemma TrailingTextIgnored(page: string, limit: string)
    requires page == "3abc" && limit == "2.9"
    ensures ParsePaginationQuery(Some(page), Some(limit)) == Ok(PaginationQuery(3, 2))
  {
    PageThreeAbc(page);
    LimitTwoPointNine(limit);
  }

  /** `'0'` as page is rejected, not clamped. */
  lemma PageZeroRejected()
    ensures ParsePaginationQuery(Some("0"), None) == Err(Page)
  {
    assert ToDecimal(0) == "0";
    ParseDecimal(0);
  }

  lemma ParseFiveHundred()
    ensures ParseInt("500") == Some(500)
  {
    assert ToDecimal(5) == "5";
    assert ToDecimal(50) == "50";
    assert ToDecimal(500) == "500";
    ParseDecimal(500);
  }

  /** `'500'` as limit is rejected, not clamped. */
  lemma LimitFiveHundredRejected()
    ensures ParsePaginationQuery(None, Some("500")) == Err(Limit)
  {
    ParseFiveHundred();
  }

  /** `ZodValidationPipe.transform`: a failed parse becomes a bad request
      carrying the first issue's message, or the generic one when that is
      empty; `issueMessage` stands for the translated issue texts. */
  function ValidatePaginationQuery(page: Option<string>, limit: Option<string>, issueMessage: QueryField -> string)
    : (r: Outcome<PaginationQuery>)
    ensures r.Returned? <==> ParsePaginationQuery(page, limit).Ok?
    ensures r.Returned? ==> r.value == ParsePaginationQuery(page, limit).value
    ensures r.Threw? ==> r.exception.Http? && r.exception.cls == BadRequest && r.exception.message != ""
  {
    match ParsePaginationQuery(page, limit)
    case Ok(query) => Returned(query)
    case Err(field) =>
      var message := if issueMessage(field) != "" then issueMessage(field) else VALIDATION_ERROR;
      Threw(NewHttpException(BadRequest, message))
  }
}
