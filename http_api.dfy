/**
 * The shape every REST handler shares: reading the page number and page
 * size from the request, and turning a use-case result into a status code
 * and a JSON body. Request binding (JSON decoding) is an input of type
 * `Result`: `Err` carries the binder's message. The use case a handler
 * calls is a function parameter, so "the use case is not called" is stated
 * as "the response does not depend on it".
 */
module HttpApi {
  import opened Wrappers
  import opened GoStrings
  import Jwt

  const StatusOK := 200
  const StatusCreated := 201
  const StatusBadRequest := 400
  const StatusUnauthorized := 401
  const StatusInternalServerError := 500

  const InvalidPageNumber := "Invalid page number"
  /** Page size used when `rows` is missing, malformed or below one. */
  const DefaultRows := 50

  datatype Body<T> =
    | ErrorBody(error: string)
    | Entity(value: T)
    | Entities(items: seq<T>)
    | PageBody(items: seq<T>, total: int)
    | TokenBody(code: int, token: Jwt.Token)

  datatype Response<T> = Response(status: int, body: Body<T>)

  /** The `page` path parameter: a decimal integer of at least one. */
  function PageNumber(param: string): (r: Result<int>)
    ensures r.Ok? <==> Atoi(param).Ok? && Atoi(param).value >= 1
    ensures r.Ok? ==> r.value == Atoi(param).value && 1 <= r.value <= MaxInt64
    ensures r.Err? ==> r.error == InvalidPageNumber
  {
    match Atoi(param)
    case Ok(page) => if page < 1 then Err(InvalidPageNumber) else Ok(page)
    case Err(_) => Err(InvalidPageNumber)
  }

  /** The `rows` query parameter: a decimal integer of at least one, else the default. */
  function RowsPerPage(param: string): (rows: int)
    ensures 1 <= rows <= MaxInt64
    ensures Atoi(param).Ok? && Atoi(param).value >= 1 ==> rows == Atoi(param).value
    ensures !(Atoi(param).Ok? && Atoi(param).value >= 1) ==> rows == DefaultRows
  {
    match Atoi(param)
    case Ok(rows) => if rows < 1 then DefaultRows else rows
    case Err(_) => DefaultRows
  }

  /**
   * `Paginate…`: a bad page number is a 400 before the use case runs; a
   * use-case error is a 500; otherwise 200 with the items and the total.
   */
  function Paginate<T>(pageParam: string, rowsParam: string, paginate: (int, int) -> Result<(seq<T>, int)>)
    : (resp: Response<T>)
    ensures PageNumber(pageParam).Err? ==> resp == Response(StatusBadRequest, ErrorBody(InvalidPageNumber))
    ensures PageNumber(pageParam).Ok? ==>
      var out := paginate(PageNumber(pageParam).value, RowsPerPage(rowsParam));
      && (out.Ok? <==> resp.status == StatusOK)
      && (out.Ok? ==> resp.body == PageBody(out.value.0, out.value.1))
      && (out.Err? ==> resp == Response(StatusInternalServerError, ErrorBody(out.error)))
  {
    match PageNumber(pageParam)
    case Err(e) => Response(StatusBadRequest, ErrorBody(e))
    case Ok(page) =>
      match paginate(page, RowsPerPage(rowsParam))
      case Err(e) => Response(StatusInternalServerError, ErrorBody(e))
      case Ok((items, total)) => Response(StatusOK, PageBody(items, total))
  }

  /** `GetAll…`: 200 with every entity, or 500 with the use case's error. */
  function List<T>(all: Result<seq<T>>): (resp: Response<T>)
    ensures all.Ok? <==> resp.status == StatusOK
    ensures all.Ok? ==> resp.body == Entities(all.value)
    ensures all.Err? ==> resp == Response(StatusInternalServerError, ErrorBody(all.error))
  {
    match all
    case Err(e) => Response(StatusInternalServerError, ErrorBody(e))
    case Ok(items) => Response(StatusOK, Entities(items))
  }

  /**
   * `CreateOrUpdate…`: a body that does not bind is a 400; otherwise the
   * use case saves the entity and the response is 201 with the entity as
   * the use case left it, or 500 with its error.
   */
  function CreateOrUpdate<T>(bound: Result<T>, save: T -> Result<T>): (resp: Response<T>)
    ensures bound.Err? ==> resp == Response(StatusBadRequest, ErrorBody(bound.error))
    ensures bound.Ok? ==> (save(bound.value).Ok? <==> resp.status == StatusCreated)
    ensures bound.Ok? && save(bound.value).Ok? ==> resp.body == Entity(save(bound.value).value)
    ensures bound.Ok? && save(bound.value).Err? ==>
      resp == Response(StatusInternalServerError, ErrorBody(save(bound.value).error))
  {
    match bound
    case Err(e) => Response(StatusBadRequest, ErrorBody(e))
    case Ok(entity) =>
      match save(entity)
      case Err(e) => Response(StatusInternalServerError, ErrorBody(e))
      case Ok(saved) => Response(StatusCreated, Entity(saved))
  }

  /** `Delete…`: 400 when the body does not bind, 500 on a use-case error, else 200 echoing the request entity. */
  function Delete<T>(bound: Result<T>, delete: T -> Outcome): (resp: Response<T>)
    ensures bound.Err? ==> resp == Response(StatusBadRequest, ErrorBody(bound.error))
    ensures bound.Ok? ==> (delete(bound.value).Pass? <==> resp.status == StatusOK)
    ensures bound.Ok? && delete(bound.value).Pass? ==> resp.body == Entity(bound.value)
    ensures bound.Ok? && delete(bound.value).Fail? ==>
      resp == Response(StatusInternalServerError, ErrorBody(delete(bound.value).error))
  {
    match bound
    case Err(e) => Response(StatusBadRequest, ErrorBody(e))
    case Ok(entity) =>
      match delete(entity)
      case Fail(e) => Response(StatusInternalServerError, ErrorBody(e))
      case Pass => Response(StatusOK, Entity(entity))
  }

  // ---------------------------------------------------------------------
  // Properties
  // ---------------------------------------------------------------------

  /** Every page number a client can write in decimal, from one up, is read back as that number. */
  lemma PageNumberRoundTrip(n: int)
    requires 1 <= n <= MaxInt64
    ensures PageNumber(Itoa(n)) == Ok(n)
  {
    AtoiItoa(n);
  }

  /** Zero and negative page numbers are refused. */
  lemma NonPositivePageRefused(n: int)
    requires MinInt64 <= n <= 0
    ensures PageNumber(Itoa(n)) == Err(InvalidPageNumber)
  {
    AtoiItoa(n);
  }

  /** Every page size a client can write in decimal is used as sent; zero and negative sizes fall back to 50. */
  lemma RowsRoundTrip(n: int)
    requires MinInt64 <= n <= MaxInt64
    ensures RowsPerPage(Itoa(n)) == if n >= 1 then n else DefaultRows
  {
    AtoiItoa(n);
  }

  /** An empty `rows=` falls back to 50 rows per page. */
  lemma EmptyRowsDefault()
    ensures RowsPerPage("") == DefaultRows
  {
    assert Atoi("") == Err(SyntaxError);
  }

  /** With a bad page number the use case is not consulted: any two use cases give the same response. */
  lemma BadPageSkipsUseCase<T>(pageParam: string, rowsParam: string,
                              p: (int, int) -> Result<(seq<T>, int)>, q: (int, int) -> Result<(seq<T>, int)>)
    requires PageNumber(pageParam).Err?
    ensures Paginate(pageParam, rowsParam, p) == Paginate(pageParam, rowsParam, q)
    ensures Paginate(pageParam, rowsParam, p).status == StatusBadRequest
  {
  }

  /** A page request reaches the use case with the page and size the client wrote. */
  lemma PageRequestReachesUseCase<T>(page: int, rows: int, paginate: (int, int) -> Result<(seq<T>, int)>)
    requires 1 <= page <= MaxInt64 && 1 <= rows <= MaxInt64
    requires paginate(page, rows).Ok?
    ensures Paginate(Itoa(page), Itoa(rows), paginate) ==
      Response(StatusOK, PageBody(paginate(page, rows).value.0, paginate(page, rows).value.1))
  {
    PageNumberRoundTrip(page);
    RowsRoundTrip(rows);
  }

  /** A body that does not bind is refused before the use case runs. */
  lemma UnboundBodySkipsUseCase<T>(error: string, save: T -> Result<T>, delete: T -> Outcome)
    ensures CreateOrUpdate(Err(error), save) == Response(StatusBadRequest, ErrorBody(error))
    ensures Delete(Err(error), delete) == Response(StatusBadRequest, ErrorBody(error))
  {
  }

  /** `GET /forms/1?rows=2` asks the use case for page 1 of 2 rows and answers with what it returns. */
  lemma PageOneOfTwoRows<T>(paginate: (int, int) -> Result<(seq<T>, int)>)
    requires paginate(1, 2).Ok?
    ensures Paginate("1", "2", paginate) == Response(StatusOK, PageBody(paginate(1, 2).value.0, paginate(1, 2).value.1))
  {
    assert Itoa(1) == "1" && Itoa(2) == "2";
    PageRequestReachesUseCase(1, 2, paginate);
  }

  /** `GET /expanses-menus/1?rows=` asks the use case for page 1 of 50 rows. */
  lemma PageOneDefaultRows<T>(paginate: (int, int) -> Result<(seq<T>, int)>)
    requires paginate(1, DefaultRows).Ok?
    ensures Paginate("1", "", paginate) ==
      Response(StatusOK, PageBody(paginate(1, DefaultRows).value.0, paginate(1, DefaultRows).value.1))
  {
    assert Itoa(1) == "1";
    PageNumberRoundTrip(1);
    EmptyRowsDefault();
  }
}
