/** `UsersController.findAll` (src/modules/users/users.controller.ts): reads
    the validated pagination query and the `activeOnly` flag and turns the
    page number into the offset of its first row. */
module UsersController {
  import opened Wrappers
  import opened Exceptions
  import opened Pagination

  /** `PaginationQueryDto` as the handler receives it; either field may be
      `undefined`. */
  datatype PaginationQueryDto = PaginationQueryDto(page: Option<int>, limit: Option<int>)

  /** The arguments `findAll` passes on to the users service. */
  datatype FindAllCall = FindAllCall(offset: int, limit: int, activeOnly: bool)

  /** `query.page ?? 1` and `query.limit ?? 10`. */
  function PageOf(query: PaginationQueryDto): (page: int)
    ensures query.page.Some? ==> page == query.page.value
    ensures query.page.None? ==> page == DEFAULT_PAGE
  {
    if query.page.Some? then query.page.value else DEFAULT_PAGE
  }

  function LimitOf(query: PaginationQueryDto): (limit: int)
    ensures query.limit.Some? ==> limit == query.limit.value
    ensures query.limit.None? ==> limit == DEFAULT_LIMIT
  {
    if query.limit.Some? then query.limit.value else DEFAULT_LIMIT
  }

  /** `findAll(query, activeOnly)`: the flag is set only by the exact text
      `'true'`, and the offset skips every row of the earlier pages. */
  function FindAll(query: PaginationQueryDto, activeOnly: Option<string>): (call: FindAllCall)
    ensures call.activeOnly <==> activeOnly == Some("true")
    ensures call.limit == LimitOf(query)
    ensures ValidPage(PageOf(query)) && ValidLimit(LimitOf(query)) ==>
              0 <= call.offset && call.offset % call.limit == 0 && call.offset / call.limit == PageOf(query) - 1
  {
    var activeOnlyBool := activeOnly == Some("true");
    var page := PageOf(query);
    var limit := LimitOf(query);
    var offset := (page - 1) * limit;
    OffsetIsWholePages(page, limit);
    FindAllCall(offset, limit, activeOnlyBool)
  }

  /** A product whose absolute value is below one factor has a zero other factor. */
  lemma MulSmall(a: int, d: int)
    requires d > 0 && -d < a * d < d
    ensures a == 0
  {
  }

  /** Quotient and remainder are the only pair that rebuilds `y`. */
  lemma DivModUnique(y: int, d: int, q: int, r: int)
    requires d > 0 && 0 <= r < d && y == d * q + r
    ensures y / d == q && y % d == r
  {
    var q0 := y / d;
    var r0 := y % d;
    assert d * q0 + r0 == d * q + r;
    assert (q0 - q) * d == r - r0;
    MulSmall(q0 - q, d);
  }

  /** `k * limit` rows lie before page `k + 1`: the offset is a whole number
      of pages. */
  lemma PageWindow(k: nat, limit: int)
    requires limit >= 1
    ensures 0 <= k * limit && (k * limit) % limit == 0 && (k * limit) / limit == k
  {
    DivModUnique(k * limit, limit, k, 0);
  }

  lemma OffsetIsWholePages(page: int, limit: int)
    ensures ValidPage(page) && ValidLimit(limit) ==>
              0 <= (page - 1) * limit && ((page - 1) * limit) % limit == 0 && ((page - 1) * limit) / limit == page - 1
  {
    if ValidPage(page) && ValidLimit(limit) {
      PageWindow(page - 1, limit);
    }
  }

  /** Consecutive pages are adjacent windows: page `p + 1` starts where page
      `p` ends. */
  lemma ConsecutivePagesAdjacent(p: int, limit: int, activeOnly: Option<string>)
    ensures FindAll(PaginationQueryDto(Some(p + 1), Some(limit)), activeOnly).offset ==
            FindAll(PaginationQueryDto(Some(p), Some(limit)), activeOnly).offset + limit
  {
    assert p * limit == (p - 1) * limit + limit;
  }

  /** Without page and limit, the first ten rows. */
  lemma DefaultWindow(activeOnly: Option<string>)
    ensures FindAll(PaginationQueryDto(None, None), activeOnly) == FindAllCall(0, DEFAULT_LIMIT, activeOnly == Some("true"))
  {
  }

  /** Page 2 of 5 starts at row 5. */
  lemma SecondPageOfFive()
    ensures FindAll(PaginationQueryDto(Some(2), Some(5)), None) == FindAllCall(5, 5, false)
  {
  }

  /** A query the schema accepted gives a window of 1 to 100 rows starting
      at a whole number of pages. */
  lemma ValidatedQueryGivesWindow(page: Option<string>, limit: Option<string>, activeOnly: Option<string>)
    requires ParsePaginationQuery(page, limit).Ok?
    ensures var q := ParsePaginationQuery(page, limit).value;
      var call := FindAll(PaginationQueryDto(Some(q.page), Some(q.limit)), activeOnly);
      1 <= call.limit <= MAX_LIMIT && call.offset >= 0 && call.offset % call.limit == 0
  {
  }

  // ---------------------------------------------------------------------------
  // The endpoint `GET /v1/users`

  /** What the route hands a parameter: the whole query object (the
      `page` and `limit` strings in it) or the value of one query key. */
  datatype RouteArgument = QueryObject(page: Option<string>, limit: Option<string>) | QueryValue(value: Option<string>)

  /** `new ZodValidationPipe(paginationQuerySchema).transform(value)`: an
      object is checked field by field, and `z.object` rejects anything
      that is not an object, with the issue message `typeIssue`. */
  function PaginationPipe(arg: RouteArgument, issueMessage: QueryField -> string, typeIssue: string): (r: Outcome<PaginationQuery>)
    ensures arg.QueryObject? ==> r == ValidatePaginationQuery(arg.page, arg.limit, issueMessage)
    ensures arg.QueryValue? ==> r.Threw? && r.exception.Http? && r.exception.cls == BadRequest
  {
    match arg
    case QueryObject(page, limit) => ValidatePaginationQuery(page, limit, issueMessage)
    case QueryValue(_) => Threw(NewHttpException(BadRequest, if typeIssue != "" then typeIssue else VALIDATION_ERROR))
  }

  /** The endpoint as written (users.controller.ts, lines 45-57): the
      method-level `@UsePipes` runs the pipe on every parameter, on `query`
      and then on `activeOnly`, before the handler body. */
  function FindAllEndpoint(page: Option<string>, limit: Option<string>, activeOnly: Option<string>,
                           issueMessage: QueryField -> string, typeIssue: string): Outcome<FindAllCall>
  {
    match PaginationPipe(QueryObject(page, limit), issueMessage, typeIssue)
    case Threw(e) => Threw(e)
    case Returned(q) =>
      match PaginationPipe(QueryValue(activeOnly), issueMessage, typeIssue)
      case Threw(e) => Threw(e)
      case Returned(_) =>
        // The flag would be the parsed object here, which is never `'true'`.
        Returned(FindAll(PaginationQueryDto(Some(q.page), Some(q.limit)), None))
  }

  /** As written, every request is refused as a bad request, the one
      without any query string among them: the handler body is never
      reached. */
  lemma EndpointAlwaysRejects(page: Option<string>, limit: Option<string>, activeOnly: Option<string>,
                              issueMessage: QueryField -> string, typeIssue: string)
    ensures var r := FindAllEndpoint(page, limit, activeOnly, issueMessage, typeIssue);
      r.Threw? && r.exception.Http? && r.exception.cls == BadRequest
  {
  }

  /** The endpoint with the pipe on the `query` parameter alone
      (`@Query(new ZodValidationPipe(paginationQuerySchema))`): a query the
      schema accepts reaches the handler body and gives a window of 1 to
      100 rows at a whole number of pages; any other is a bad request. */
  function FindAllEndpointQueryPipe(page: Option<string>, limit: Option<string>, activeOnly: Option<string>,
                                    issueMessage: QueryField -> string): (r: Outcome<FindAllCall>)
    ensures r.Returned? <==> ParsePaginationQuery(page, limit).Ok?
    ensures r.Returned? ==>
              var q := ParsePaginationQuery(page, limit).value;
              r.value == FindAll(PaginationQueryDto(Some(q.page), Some(q.limit)), activeOnly)
    ensures r.Returned? ==>
              1 <= r.value.limit <= MAX_LIMIT && 0 <= r.value.offset && r.value.offset % r.value.limit == 0 &&
              (r.value.activeOnly <==> activeOnly == Some("true"))
    ensures r.Threw? ==> r.exception.Http? && r.exception.cls == BadRequest
  {
    match PaginationPipe(QueryObject(page, limit), issueMessage, "")
    case Threw(e) => Threw(e)
    case Returned(q) =>
      ValidatedQueryGivesWindow(page, limit, activeOnly);
      Returned(FindAll(PaginationQueryDto(Some(q.page), Some(q.limit)), activeOnly))
  }

  /** With the pipe on `query` alone, a request without a query string gets
      the first ten rows. */
  lemma QueryPipeServesDefaults(activeOnly: Option<string>, issueMessage: QueryField -> string)
    ensures FindAllEndpointQueryPipe(None, None, activeOnly, issueMessage) ==
              Returned(FindAllCall(0, DEFAULT_LIMIT, activeOnly == Some("true")))
  {
    DefaultsWhenMissing(None, None);
  }
}
