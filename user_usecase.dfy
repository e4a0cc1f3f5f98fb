/**
 * The user use case: it hashes passwords before handing users to the
 * repository and otherwise passes calls through. Hash functions are
 * parameters: `bcrypt` (which may fail) and `sha256Hex`, the lower-case hex
 * text of a SHA-256 digest.
 */
module UserAccounts {
  import opened Wrappers
  import opened Domain
  import opened UserStore
  import Jwt

  /** The password that `UpdateUser` stores whenever the request carries one. */
  const DefaultPassword := "1234admin"

  /** `CreateUser` as written: the bcrypt hash of the password is stored. */
  function CreateWithBcrypt(rows: seq<Row>, nextID: nat, user: User, bcrypt: string -> Result<string>)
    : (seq<Row>, nat, Result<User>)
  {
    match bcrypt(user.password)
    case Err(e) => (rows, nextID, Err(e))
    case Ok(hashed) => Insert(rows, nextID, user.(password := hashed))
  }

  /** `CreateUser` storing the hash that `Login` compares with: the hex SHA-256 of the password. */
  function CreateWithLoginHash(rows: seq<Row>, nextID: nat, user: User, sha256Hex: string -> string)
    : (seq<Row>, nat, Result<User>)
  {
    Insert(rows, nextID, user.(password := sha256Hex(user.password)))
  }

  /**
   * `UpdateUser`: a non-empty password is replaced by the hash of the
   * default password; an empty one keeps the stored password, and fails when
   * the user cannot be read. Then every column is saved.
   */
  function Update(rows: seq<Row>, nextID: nat, user: User, sha256Hex: string -> string)
    : (seq<Row>, nat, Result<User>)
  {
    if user.password != "" then Save(rows, nextID, user.(password := sha256Hex(DefaultPassword)))
    else match FindByID(rows, user.id)
      case Err(e) => (rows, nextID, Err(e))
      case Ok(existing) => Save(rows, nextID, user.(password := existing.password))
  }

  class UserUseCase {
    const repository: UserRepository

    constructor (repository: UserRepository)
      ensures this.repository == repository
    {
      this.repository := repository;
    }

    method CreateUser(user: User, bcrypt: string -> Result<string>) returns (r: Result<User>)
      requires repository.Valid()
      modifies repository
      ensures repository.Valid()
      ensures (repository.rows, repository.nextID, r) ==
        CreateWithBcrypt(old(repository.rows), old(repository.nextID), user, bcrypt)
    {
      var hashed := bcrypt(user.password);
      if hashed.Err? {
        return Err(hashed.error);
      }
      r := repository.Create(user.(password := hashed.value));
    }

    method UpdateUser(user: User, sha256Hex: string -> string) returns (r: Result<User>)
      requires repository.Valid()
      modifies repository
      ensures repository.Valid()
      ensures (repository.rows, repository.nextID, r) ==
        Update(old(repository.rows), old(repository.nextID), user, sha256Hex)
    {
      var toSave := user;
      if user.password != "" {
        toSave := user.(password := sha256Hex(DefaultPassword));
      } else {
        var existing := repository.GetByID(user.id);
        if existing.Err? {
          return Err(existing.error);
        }
        toSave := user.(password := existing.value.password);
      }
      r := repository.Update(toSave);
    }

    method GetUserByID(id: nat) returns (r: Result<User>)
      ensures r == FindByID(repository.rows, id)
      ensures r.Ok? ==> r.value.id == id && r.value in Live(repository.rows)
    {
      r := repository.GetByID(id);
    }

    method GetUserByEmail(email: string) returns (r: Result<User>)
      ensures r == FindByEmail(repository.rows, email)
      ensures r.Ok? ==> r.value.email == email && r.value in Live(repository.rows)
    {
      r := repository.GetByEmail(email);
    }

    method GetAllUsers() returns (users: seq<User>)
      ensures users == Live(repository.rows)
    {
      users := repository.GetAll();
    }

    method PaginateUsers(page: int, pageSize: int) returns (users: seq<User>, total: int)
      ensures (users, total) == Page(repository.rows, page, pageSize)
    {
      users, total := repository.Paginate(page, pageSize);
    }

    method DeleteUser(user: User) returns (err: Outcome)
      requires repository.Valid()
      modifies repository
      ensures (repository.rows, err) == Remove(old(repository.rows), user)
      ensures repository.nextID == old(repository.nextID)
      ensures repository.Valid()
    {
      err := repository.Delete(user);
    }

    method Login(email: string, password: string, now: int, secret: string,
                 sha256Hex: string -> string, hs256: Jwt.Mac) returns (r: Result<Jwt.Token>)
      ensures r == Authenticate(repository.rows, email, password, now, secret, sha256Hex, hs256)
    {
      r := repository.Login(email, password, now, secret, sha256Hex, hs256);
    }
  }

  // ---------------------------------------------------------------------
  // Passwords and login
  // ---------------------------------------------------------------------

  /** With unique emails, looking up the email of a live user finds exactly that user. */
  lemma FindByEmailFindsLiveUser(rows: seq<Row>, nextID: nat, u: User)
    requires WellFormed(rows, nextID) && Row(u, false) in rows
    ensures FindByEmail(rows, u.email) == Ok(u)
  {
    var r := FindByEmail(rows, u.email);
    if r.Ok? {
      var i :| 0 <= i < |rows| && rows[i] == Row(r.value, false);
      var j :| 0 <= j < |rows| && rows[j] == Row(u, false);
      assert rows[i].user.email == rows[j].user.email;
    }
  }

  /** After a successful `Create`, the stored user is the one found under its email. */
  lemma CreatedUserFoundByEmail(rows: seq<Row>, nextID: nat, user: User)
    requires WellFormed(rows, nextID)
    requires Insert(rows, nextID, user).2.Ok?
    ensures var (rows', _, r) := Insert(rows, nextID, user);
      r.value.password == user.password && FindByEmail(rows', user.email) == Ok(r.value)
  {
    var (rows', nextID', r) := Insert(rows, nextID, user);
    InsertKeepsValid(rows, nextID, user);
    assert rows'[|rows|] == Row(r.value, false);
    FindByEmailFindsLiveUser(rows', nextID', r.value);
  }

  /**
   * As written, a user created with password `p` cannot log in with `p`:
   * bcrypt hashes contain '$' and hex SHA-256 text never does, so the
   * comparison in `Login` always fails.
   */
  lemma BcryptCreatedUserCannotLogIn(rows: seq<Row>, nextID: nat, user: User, bcrypt: string -> Result<string>,
                                     sha256Hex: string -> string, now: int, secret: string, hs256: Jwt.Mac)
    requires WellFormed(rows, nextID)
    requires CreateWithBcrypt(rows, nextID, user, bcrypt).2.Ok?
    requires forall s :: bcrypt(s).Ok? ==> '$' in bcrypt(s).value
    requires forall s :: '$' !in sha256Hex(s)
    ensures var (rows', _, _) := CreateWithBcrypt(rows, nextID, user, bcrypt);
      Authenticate(rows', user.email, user.password, now, secret, sha256Hex, hs256) == Err(InvalidCredentials)
  {
    var hashed := bcrypt(user.password).value;
    CreatedUserFoundByEmail(rows, nextID, user.(password := hashed));
    assert '$' in hashed && '$' !in sha256Hex(user.password);
  }

  /** Storing the login hash instead, the new user logs in with the password it was created with. */
  lemma LoginHashCreatedUserCanLogIn(rows: seq<Row>, nextID: nat, user: User, sha256Hex: string -> string,
                                     now: int, secret: string, hs256: Jwt.Mac)
    requires WellFormed(rows, nextID)
    requires CreateWithLoginHash(rows, nextID, user, sha256Hex).2.Ok?
    ensures var (rows', _, r) := CreateWithLoginHash(rows, nextID, user, sha256Hex);
      Authenticate(rows', user.email, user.password, now, secret, sha256Hex, hs256) ==
        Jwt.GenerateJWT(r.value, now, secret, hs256)
  {
    CreatedUserFoundByEmail(rows, nextID, user.(password := sha256Hex(user.password)));
  }

  /** A saved row is found by its id afterwards, with the saved columns. */
  lemma SavedUserFoundByID(rows: seq<Row>, nextID: nat, user: User)
    requires WellFormed(rows, nextID)
    requires user.id != 0 && Save(rows, nextID, user).2.Ok?
    ensures var (rows', _, r) := Save(rows, nextID, user);
      r == Ok(user) && FindByID(rows', user.id) == Ok(user)
  {
    var (rows', nextID', r) := Save(rows, nextID, user);
    SaveKeepsValid(rows, nextID, user);
    var k := IndexOfID(rows, user.id);
    if k < 0 {
      assert rows'[|rows|] == Row(user, false);
    } else {
      assert rows'[k] == Row(user, false);
    }
    FindByIDFindsLiveUser(rows', nextID', user);
  }

  /**
   * `UpdateUser` with a non-empty password resets it: afterwards the user
   * logs in with the default password, whatever password was sent.
   */
  lemma UpdateWithPasswordResetsToDefault(rows: seq<Row>, nextID: nat, user: User, sha256Hex: string -> string,
                                          now: int, secret: string, hs256: Jwt.Mac)
    requires WellFormed(rows, nextID)
    requires user.id != 0 && user.password != ""
    requires Update(rows, nextID, user, sha256Hex).2.Ok?
    ensures var (rows', _, r) := Update(rows, nextID, user, sha256Hex);
      && r.value.password == sha256Hex(DefaultPassword)
      && Authenticate(rows', user.email, DefaultPassword, now, secret, sha256Hex, hs256) ==
           Jwt.GenerateJWT(r.value, now, secret, hs256)
  {
    var saved := user.(password := sha256Hex(DefaultPassword));
    SavedUserFoundByID(rows, nextID, saved);
    SaveKeepsValid(rows, nextID, saved);
    var (rows', nextID', _) := Save(rows, nextID, saved);
    FindByIDFindsLiveUser(rows', nextID', saved) ;
    assert Row(saved, false) in rows' by {
      var k := IndexOfID(rows, saved.id);
      if k < 0 { assert rows'[|rows|] == Row(saved, false); } else { assert rows'[k] == Row(saved, false); }
    }
    FindByEmailFindsLiveUser(rows', nextID', saved);
  }

  /** `UpdateUser` with an empty password keeps the stored password of the live user. */
  lemma UpdateWithoutPasswordKeepsIt(rows: seq<Row>, nextID: nat, user: User, existing: User,
                                     sha256Hex: string -> string)
    requires WellFormed(rows, nextID)
    requires user.id != 0 && user.password == ""
    requires Row(existing, false) in rows && existing.id == user.id
    requires Update(rows, nextID, user, sha256Hex).2.Ok?
    ensures var (rows', _, r) := Update(rows, nextID, user, sha256Hex);
      && r == Ok(user.(password := existing.password))
      && FindByID(rows', user.id) == Ok(user.(password := existing.password))
  {
    FindByIDFindsLiveUser(rows, nextID, existing);
    SavedUserFoundByID(rows, nextID, user.(password := existing.password));
  }

  /** `UpdateUser` with an empty password for an id no live user has changes nothing and fails. */
  lemma UpdateUnknownUserFails(rows: seq<Row>, nextID: nat, user: User, sha256Hex: string -> string)
    requires user.password == ""
    requires forall u :: u in Live(rows) ==> u.id != user.id
    ensures Update(rows, nextID, user, sha256Hex) == (rows, nextID, Err(RecordNotFound))
  {
  }
}
