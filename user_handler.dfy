/**
 * The user endpoints beyond the shared shapes of `HttpApi`: creating or
 * updating a user (chosen by the id in the body), reading the signed-in
 * user, and logging in.
 */
module UserHandler {
  import opened Wrappers
  import opened Domain
  import opened HttpApi
  import opened UserStore
  import opened UserAccounts
  import Jwt

  /**
   * `POST /user`: a body with a non-zero id updates that user, a zero id
   * creates one; either way 201 with the user as stored, or 500.
   */
  function CreateOrUpdateUser(bound: Result<User>, update: User -> Result<User>, create: User -> Result<User>)
    : (resp: Response<User>)
    ensures bound.Err? ==> resp == Response(StatusBadRequest, ErrorBody(bound.error))
    ensures bound.Ok? && bound.value.id != 0 ==> resp == CreateOrUpdate(bound, update)
    ensures bound.Ok? && bound.value.id == 0 ==> resp == CreateOrUpdate(bound, create)
  {
    match bound
    case Err(e) => Response(StatusBadRequest, ErrorBody(e))
    case Ok(user) => if user.id != 0 then CreateOrUpdate(bound, update) else CreateOrUpdate(bound, create)
  }

  /** `GET /user`: the user whose id the verified token carries, or 500 when it cannot be read. */
  function GetUserData(token: Jwt.Token, getUserByID: nat -> Result<User>): (resp: Response<User>)
    ensures getUserByID(Jwt.GetCurrentUser(token)).Ok? <==> resp.status == StatusOK
    ensures resp.status == StatusOK ==> resp.body == Entity(getUserByID(token.claims.userID).value)
    ensures resp.status != StatusOK ==>
      resp == Response(StatusInternalServerError, ErrorBody(getUserByID(token.claims.userID).error))
  {
    match getUserByID(Jwt.GetCurrentUser(token))
    case Err(e) => Response(StatusInternalServerError, ErrorBody(e))
    case Ok(user) => Response(StatusOK, Entity(user))
  }

  /**
   * `POST /login`: the body's email and password go to the use case; an
   * error is a 401 with its message, a token a 200 whose body repeats the
   * status next to the token.
   */
  function Login(bound: Result<User>, login: (string, string) -> Result<Jwt.Token>): (resp: Response<User>)
    ensures bound.Err? ==> resp == Response(StatusBadRequest, ErrorBody(bound.error))
    ensures bound.Ok? ==>
      var r := login(bound.value.email, bound.value.password);
      && (r.Ok? <==> resp.status == StatusOK)
      && (r.Ok? ==> resp.body == TokenBody(StatusOK, r.value))
      && (r.Err? ==> resp == Response(StatusUnauthorized, ErrorBody(r.error)))
  {
    match bound
    case Err(e) => Response(StatusBadRequest, ErrorBody(e))
    case Ok(credentials) =>
      match login(credentials.email, credentials.password)
      case Err(e) => Response(StatusUnauthorized, ErrorBody(e))
      case Ok(token) => Response(StatusOK, TokenBody(StatusOK, token))
  }

  // ---------------------------------------------------------------------
  // Properties
  // ---------------------------------------------------------------------

  /** The id in the body alone decides which use case runs: the other one cannot affect the response. */
  lemma IdSelectsUseCase(user: User, update: User -> Result<User>, update': User -> Result<User>,
                         create: User -> Result<User>, create': User -> Result<User>)
    ensures user.id != 0 ==> CreateOrUpdateUser(Ok(user), update, create) == CreateOrUpdateUser(Ok(user), update, create')
    ensures user.id == 0 ==> CreateOrUpdateUser(Ok(user), update, create) == CreateOrUpdateUser(Ok(user), update', create)
  {
  }

  /**
   * A new user posted to an empty table comes back with 201, the first
   * id, its username and email, and the hash in place of its password.
   */
  lemma CreateIntoEmptyTable(user: User, bcrypt: string -> Result<string>, sha256Hex: string -> string)
    requires user.id == 0 && bcrypt(user.password).Ok?
    ensures CreateOrUpdateUser(Ok(user),
              (u: User) => Update([], 1, u, sha256Hex).2,
              (u: User) => CreateWithBcrypt([], 1, u, bcrypt).2)
      == Response(StatusCreated, Entity(user.(id := 1, password := bcrypt(user.password).value)))
  {
    assert !Clashes([], user.(id := 1, password := bcrypt(user.password).value));
  }

  /** A signed-in user who is still live reads back their own record. */
  lemma SignedInUserGetsOwnData(rows: seq<Row>, nextID: nat, user: User, now: int, secret: string, hs256: Jwt.Mac)
    requires WellFormed(rows, nextID) && Row(user, false) in rows
    requires Jwt.GenerateJWT(user, now, secret, hs256).Ok?
    ensures GetUserData(Jwt.GenerateJWT(user, now, secret, hs256).value, (id: nat) => FindByID(rows, id))
      == Response(StatusOK, Entity(user))
  {
    Jwt.CurrentUserOfIssuedToken(user, now, secret, hs256);
    FindByIDFindsLiveUser(rows, nextID, user);
  }

  /** A signed-in user who has been deleted since gets a 500 "record not found". */
  lemma DeletedUserGetsNoData(rows: seq<Row>, user: User, now: int, secret: string, hs256: Jwt.Mac)
    requires user.id != 0 && Jwt.GenerateJWT(user, now, secret, hs256).Ok?
    ensures var rows' := Remove(rows, user).0;
      GetUserData(Jwt.GenerateJWT(user, now, secret, hs256).value, (id: nat) => FindByID(rows', id))
        == Response(StatusInternalServerError, ErrorBody(RecordNotFound))
  {
    Jwt.CurrentUserOfIssuedToken(user, now, secret, hs256);
    DeleteThenGetByID(rows, user);
  }

  /**
   * Against the user table, login answers 200 exactly when a live user has
   * that email, the password's hash is the stored one and the token can be
   * signed; every other bound request is a 401.
   */
  lemma LoginAnswer(rows: seq<Row>, nextID: nat, credentials: User, now: int, secret: string,
                    sha256Hex: string -> string, hs256: Jwt.Mac)
    requires WellFormed(rows, nextID)
    ensures var resp := Login(Ok(credentials),
                              (e: string, p: string) => Authenticate(rows, e, p, now, secret, sha256Hex, hs256));
      && (resp.status == StatusOK <==>
            exists u :: u in Live(rows) && u.email == credentials.email && sha256Hex(credentials.password) == u.password
              && Jwt.GenerateJWT(u, now, secret, hs256).Ok?)
      && (resp.status == StatusOK || resp.status == StatusUnauthorized)
  {
    LoginSucceedsIff(rows, nextID, credentials.email, credentials.password, now, secret, sha256Hex, hs256);
  }

  /** `POST /user/delete` with a user's id answers 200 echoing the request, after which the user cannot be read. */
  lemma DeleteEchoesUser(rows: seq<Row>, user: User)
    requires user.id != 0
    ensures Delete(Ok(user), (u: User) => Remove(rows, u).1) == Response(StatusOK, Entity(user))
    ensures FindByID(Remove(rows, user).0, user.id) == Err(RecordNotFound)
  {
    DeleteThenGetByID(rows, user);
  }

  /** An unknown email and a wrong password get the same 401 answer. */
  lemma LoginDoesNotRevealEmails(rows: seq<Row>, nextID: nat, credentials: User, now: int, secret: string,
                                 sha256Hex: string -> string, hs256: Jwt.Mac)
    requires WellFormed(rows, nextID)
    requires forall u :: u in Live(rows) && u.email == credentials.email ==> u.password != sha256Hex(credentials.password)
    ensures Login(Ok(credentials), (e: string, p: string) => Authenticate(rows, e, p, now, secret, sha256Hex, hs256))
      == Response(StatusUnauthorized, ErrorBody(InvalidCredentials))
  {
    var r := FindByEmail(rows, credentials.email);
    if r.Ok? {
      assert r.value in Live(rows);
    }
  }
}
