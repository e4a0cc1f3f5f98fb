/**
 * The GORM-backed user repository, over an in-memory model of the `users`
 * table. What the ORM does is modelled explicitly: rows are soft-deleted
 * (they stay in the table and keep their unique email and username),
 * `First` finds a live row, `Save` is an upsert by primary key, `Delete`
 * refuses a zero primary key, `Limit` < 0 means no limit and an `Offset`
 * that is not positive is left out of the query.
 */
module UserStore {
  import opened Wrappers
  import opened Domain
  import Jwt

  const RecordNotFound := "record not found"
  const MissingWhereClause := "WHERE conditions required"
  const DuplicatedKey := "duplicated key not allowed"
  const InvalidCredentials := "invalid email or password"

  /** A stored row: the user and its soft-delete mark. */
  datatype Row = Row(user: User, deleted: bool)

  /**
   * The table's integrity: primary keys are positive and below the next
   * auto-increment value, and id, email and username are unique over all
   * rows, soft-deleted ones included (the unique indexes cover them).
   */
  ghost predicate WellFormed(rows: seq<Row>, nextID: nat)
  {
    && nextID >= 1
    && (forall i :: 0 <= i < |rows| ==> 0 < rows[i].user.id < nextID)
    && (forall i, j :: 0 <= i < j < |rows| ==>
          && rows[i].user.id != rows[j].user.id
          && rows[i].user.email != rows[j].user.email
          && rows[i].user.username != rows[j].user.username)
  }

  /** The live (not soft-deleted) users, in table order. */
  function Live(rows: seq<Row>): (users: seq<User>)
    ensures |users| <= |rows|
    ensures forall u :: u in users <==> Row(u, false) in rows
    decreases |rows|
  {
    if rows == [] then []
    else (if rows[0].deleted then [] else [rows[0].user]) + Live(rows[1..])
  }

  /** `First`: the first live user that satisfies `p`, or "record not found". */
  function FirstLive(rows: seq<Row>, p: User -> bool): (r: Result<User>)
    ensures r.Ok? ==> Row(r.value, false) in rows && p(r.value)
    ensures r.Err? ==> r.error == RecordNotFound
    ensures r.Err? <==> forall i :: 0 <= i < |rows| && !rows[i].deleted ==> !p(rows[i].user)
    decreases |rows|
  {
    if rows == [] then Err(RecordNotFound)
    else if !rows[0].deleted && p(rows[0].user) then Ok(rows[0].user)
    else
      var r := FirstLive(rows[1..], p);
      assert forall i :: 1 <= i < |rows| ==> rows[i] == rows[1..][i - 1];
      r
  }

  function FindByID(rows: seq<Row>, id: nat): Result<User>
  {
    FirstLive(rows, (u: User) => u.id == id)
  }

  function FindByEmail(rows: seq<Row>, email: string): Result<User>
  {
    FirstLive(rows, (u: User) => u.email == email)
  }

  /** Some row (soft-deleted or not) already holds the user's id, email or username. */
  predicate Clashes(rows: seq<Row>, u: User)
  {
    exists i :: 0 <= i < |rows| &&
      (rows[i].user.id == u.id || rows[i].user.email == u.email || rows[i].user.username == u.username)
  }

  /** Some row other than the one at `k` holds the user's email or username. */
  predicate ClashesExcept(rows: seq<Row>, u: User, k: int)
  {
    exists i :: 0 <= i < |rows| && i != k &&
      (rows[i].user.email == u.email || rows[i].user.username == u.username)
  }

  /** The position of the row with primary key `id`, soft-deleted or not, or -1. */
  function IndexOfID(rows: seq<Row>, id: nat): (k: int)
    ensures -1 <= k < |rows|
    ensures k >= 0 ==> rows[k].user.id == id
    ensures k == -1 <==> forall i :: 0 <= i < |rows| ==> rows[i].user.id != id
    decreases |rows|
  {
    if rows == [] then -1
    else if rows[|rows| - 1].user.id == id then |rows| - 1
    else IndexOfID(rows[..|rows| - 1], id)
  }

  /**
   * `Create`: insert the user; a zero id takes the next auto-increment value.
   * The result is the stored user (GORM writes the id back into the struct).
   */
  function Insert(rows: seq<Row>, nextID: nat, user: User): (seq<Row>, nat, Result<User>)
  {
    var stored := if user.id == 0 then user.(id := nextID) else user;
    if Clashes(rows, stored) then (rows, nextID, Err(DuplicatedKey))
    else (rows + [Row(stored, false)], if stored.id >= nextID then stored.id + 1 else nextID, Ok(stored))
  }

  /**
   * `Save`: a zero id inserts; otherwise every column of the row with that
   * primary key is overwritten (a soft-deleted row comes back to life), and
   * when there is no such row the user is inserted with its id.
   */
  function Save(rows: seq<Row>, nextID: nat, user: User): (seq<Row>, nat, Result<User>)
  {
    if user.id == 0 then Insert(rows, nextID, user)
    else
      var k := IndexOfID(rows, user.id);
      if k < 0 then Insert(rows, nextID, user)
      else if ClashesExcept(rows, user, k) then (rows, nextID, Err(DuplicatedKey))
      else (rows[k := Row(user, false)], nextID, Ok(user))
  }

  /** Soft-delete every live row with primary key `id`. */
  function MarkDeleted(rows: seq<Row>, id: nat): (rows': seq<Row>)
    ensures |rows'| == |rows|
    ensures forall i :: 0 <= i < |rows| ==>
      rows'[i].user == rows[i].user && rows'[i].deleted == (rows[i].deleted || rows[i].user.id == id)
  {
    seq(|rows|, i requires 0 <= i < |rows| =>
      if rows[i].user.id == id then Row(rows[i].user, true) else rows[i])
  }

  /** `Delete`: a zero primary key is refused; otherwise the matching live row (if any) is soft-deleted. */
  function Remove(rows: seq<Row>, user: User): (seq<Row>, Outcome)
  {
    if user.id == 0 then (rows, Fail(MissingWhereClause))
    else (MarkDeleted(rows, user.id), Pass)
  }

  /**
   * The rows that `Limit(pageSize).Offset((page-1)*pageSize)` returns from
   * `items`, with the offset computed exactly.
   */
  function Window<T>(items: seq<T>, page: int, pageSize: int): (w: seq<T>)
    ensures pageSize >= 0 ==> |w| <= pageSize
    ensures page >= 1 && pageSize >= 0 ==>
      var offset := (page - 1) * pageSize;
      && |w| == (if offset >= |items| then 0 else if |items| - offset < pageSize then |items| - offset else pageSize)
      && forall k :: 0 <= k < |w| ==> offset + k < |items| && w[k] == items[offset + k]
  {
    var offset := (page - 1) * pageSize;
    assert page >= 1 && pageSize >= 0 ==> offset >= 0 by {
      if page >= 1 && pageSize >= 0 {
        assert (page - 1) * pageSize >= 0 * pageSize;
      }
    }
    var start := if offset <= 0 then 0 else if offset < |items| then offset else |items|;
    var end := if pageSize < 0 || start + pageSize > |items| then |items| else start + pageSize;
    items[start..end]
  }

  /** `Paginate`: one page of the live users and the number of live users. */
  function Page(rows: seq<Row>, page: int, pageSize: int): (seq<User>, int)
  {
    (Window(Live(rows), page, pageSize), |Live(rows)|)
  }

  /**
   * `Login`: an unknown email and a wrong password give the same error;
   * when the hex SHA-256 of the password equals the stored one, the result
   * is `GenerateJWT`'s, signing error included.
   */
  function Authenticate(rows: seq<Row>, email: string, password: string, now: int, secret: string,
                        sha256Hex: string -> string, hs256: Jwt.Mac): (r: Result<Jwt.Token>)
  {
    match FindByEmail(rows, email)
    case Err(_) => Err(InvalidCredentials)
    case Ok(user) =>
      if sha256Hex(password) == user.password then Jwt.GenerateJWT(user, now, secret, hs256)
      else Err(InvalidCredentials)
  }

  /** The repository object; its `db` handle is the table it owns. */
  class UserRepository {
    var rows: seq<Row>
    var nextID: nat

    ghost predicate Valid()
      reads this
    {
      WellFormed(rows, nextID)
    }

    constructor ()
      ensures Valid() && rows == [] && nextID == 1
    {
      rows := [];
      nextID := 1;
    }

    method Create(user: User) returns (r: Result<User>)
      requires Valid()
      modifies this
      ensures Valid()
      ensures (rows, nextID, r) == Insert(old(rows), old(nextID), user)
    {
      var (rows', nextID', result) := Insert(rows, nextID, user);
      InsertKeepsValid(rows, nextID, user);
      rows, nextID, r := rows', nextID', result;
    }

    method Update(user: User) returns (r: Result<User>)
      requires Valid()
      modifies this
      ensures Valid()
      ensures (rows, nextID, r) == Save(old(rows), old(nextID), user)
    {
      var (rows', nextID', result) := Save(rows, nextID, user);
      SaveKeepsValid(rows, nextID, user);
      rows, nextID, r := rows', nextID', result;
    }

    method GetByID(id: nat) returns (r: Result<User>)
      ensures r == FindByID(rows, id)
      ensures r.Ok? ==> r.value.id == id && r.value in Live(rows)
      ensures r.Err? <==> forall u :: u in Live(rows) ==> u.id != id
      ensures r.Err? ==> r.error == RecordNotFound
    {
      r := FindByID(rows, id);
    }

    method GetByEmail(email: string) returns (r: Result<User>)
      ensures r == FindByEmail(rows, email)
      ensures r.Ok? ==> r.value.email == email && r.value in Live(rows)
      ensures r.Err? <==> forall u :: u in Live(rows) ==> u.email != email
      ensures r.Err? ==> r.error == RecordNotFound
    {
      r := FindByEmail(rows, email);
    }

    method GetAll() returns (users: seq<User>)
      ensures forall u :: u in users <==> Row(u, false) in rows
      ensures users == Live(rows)
    {
      users := Live(rows);
    }

    method Paginate(page: int, pageSize: int) returns (users: seq<User>, total: int)
      ensures (users, total) == Page(rows, page, pageSize)
      ensures total == |Live(rows)|
      ensures pageSize >= 0 ==> |users| <= pageSize
    {
      var live := Live(rows);
      total := |live|;
      users := Window(live, page, pageSize);
    }

    method Delete(user: User) returns (err: Outcome)
      requires Valid()
      modifies this
      ensures (rows, err) == Remove(old(rows), user) && nextID == old(nextID)
      ensures Valid()
    {
      RemoveKeepsValid(rows, nextID, user);
      var (rows', outcome) := Remove(rows, user);
      rows, err := rows', outcome;
    }

    method Login(email: string, password: string, now: int, secret: string,
                 sha256Hex: string -> string, hs256: Jwt.Mac) returns (r: Result<Jwt.Token>)
      ensures (forall u :: u in Live(rows) ==> u.email != email) ==> r == Err(InvalidCredentials)
      ensures r.Ok? ==> exists u :: u in Live(rows) && u.email == email && sha256Hex(password) == u.password
      ensures r.Err? && r.error != InvalidCredentials ==>
        exists u :: u in Live(rows) && u.email == email && Jwt.GenerateJWT(u, now, secret, hs256) == r
      ensures r == Authenticate(rows, email, password, now, secret, sha256Hex, hs256)
    {
      var user := FindByEmail(rows, email);
      if user.Err? {
        return Err(InvalidCredentials);
      }
      var pwd := sha256Hex(password);
      if pwd == user.value.password {
        var token := Jwt.GenerateJWT(user.value, now, secret, hs256);
        if token.Err? {
          return Err(token.error);
        }
        return Ok(token.value);
      }
      return Err(InvalidCredentials);
    }
  }

  // ---------------------------------------------------------------------
  // Table integrity
  // ---------------------------------------------------------------------

  lemma InsertKeepsValid(rows: seq<Row>, nextID: nat, user: User)
    requires WellFormed(rows, nextID)
    ensures var (rows', nextID', _) := Insert(rows, nextID, user); WellFormed(rows', nextID')
  {
    var stored := if user.id == 0 then user.(id := nextID) else user;
    if !Clashes(rows, stored) {
      var (rows', nextID', _) := Insert(rows, nextID, user);
      forall i, j | 0 <= i < j < |rows'|
        ensures rows'[i].user.id != rows'[j].user.id
        ensures rows'[i].user.email != rows'[j].user.email
        ensures rows'[i].user.username != rows'[j].user.username
      {
        if j == |rows| {
          assert rows'[j].user == stored && rows'[i] == rows[i];
        }
      }
    }
  }

  lemma SaveKeepsValid(rows: seq<Row>, nextID: nat, user: User)
    requires WellFormed(rows, nextID)
    ensures var (rows', nextID', _) := Save(rows, nextID, user); WellFormed(rows', nextID')
  {
    if user.id == 0 || IndexOfID(rows, user.id) < 0 {
      InsertKeepsValid(rows, nextID, user);
    } else {
      var k := IndexOfID(rows, user.id);
      if !ClashesExcept(rows, user, k) {
        var rows' := rows[k := Row(user, false)];
        forall i, j | 0 <= i < j < |rows'|
          ensures rows'[i].user.id != rows'[j].user.id
          ensures rows'[i].user.email != rows'[j].user.email
          ensures rows'[i].user.username != rows'[j].user.username
        {
          if i == k || j == k {
            assert rows'[k].user == user && rows[k].user.id == user.id;
          }
        }
      }
    }
  }

  lemma RemoveKeepsValid(rows: seq<Row>, nextID: nat, user: User)
    requires WellFormed(rows, nextID)
    ensures WellFormed(Remove(rows, user).0, nextID)
  {
  }

  // ---------------------------------------------------------------------
  // Repository behaviour
  // ---------------------------------------------------------------------

  /** With unique primary keys, looking up the id of a live user finds exactly that user. */
  lemma {:induction false} FindByIDFindsLiveUser(rows: seq<Row>, nextID: nat, u: User)
    requires WellFormed(rows, nextID) && Row(u, false) in rows
    ensures FindByID(rows, u.id) == Ok(u)
  {
    var r := FindByID(rows, u.id);
    if r.Ok? {
      var i :| 0 <= i < |rows| && rows[i] == Row(r.value, false);
      var j :| 0 <= j < |rows| && rows[j] == Row(u, false);
      assert rows[i].user.id == rows[j].user.id;
    }
  }

  /** `Create` of a new user assigns a nonzero id, and `GetByID` on it returns the stored user. */
  lemma CreateThenGetByID(rows: seq<Row>, nextID: nat, user: User)
    requires WellFormed(rows, nextID)
    requires Insert(rows, nextID, user).2.Ok?
    ensures var (rows', nextID', r) := Insert(rows, nextID, user);
      && r.value.id != 0
      && (user.id != 0 ==> r.value.id == user.id)
      && r.value.username == user.username && r.value.email == user.email
      && FindByID(rows', r.value.id) == Ok(r.value)
  {
    var (rows', nextID', r) := Insert(rows, nextID, user);
    InsertKeepsValid(rows, nextID, user);
    assert rows'[|rows|] == Row(r.value, false);
    FindByIDFindsLiveUser(rows', nextID', r.value);
  }

  /** After `Delete`, `GetByID` on that id fails, although the row is still stored. */
  lemma DeleteThenGetByID(rows: seq<Row>, user: User)
    requires user.id != 0
    ensures var (rows', err) := Remove(rows, user);
      && err == Pass
      && FindByID(rows', user.id) == Err(RecordNotFound)
      && |rows'| == |rows|
  {
  }

  /** A deleted user's email stays taken: creating another user with it fails. */
  lemma DeletedEmailStaysTaken(rows: seq<Row>, nextID: nat, user: User, other: User)
    requires user.id != 0 && exists i :: 0 <= i < |rows| && rows[i].user == user
    requires other.email == user.email
    ensures Insert(Remove(rows, user).0, nextID, other).2 == Err(DuplicatedKey)
  {
    var i :| 0 <= i < |rows| && rows[i].user == user;
    var rows' := Remove(rows, user).0;
    assert rows'[i].user == user;
  }

  // ---------------------------------------------------------------------
  // Pagination
  // ---------------------------------------------------------------------

  /** Pages 1..n of size `pageSize`, concatenated. */
  function Pages<T>(items: seq<T>, pageSize: int, n: nat): seq<T>
  {
    if n == 0 then [] else Pages(items, pageSize, n - 1) + Window(items, n, pageSize)
  }

  /** For positive sizes, page `page` is the slice between rows (page-1)*pageSize and page*pageSize, clipped to the table. */
  lemma WindowSlice<T>(items: seq<T>, page: int, pageSize: int)
    requires page >= 1 && pageSize >= 1
    ensures var lo := if (page - 1) * pageSize < |items| then (page - 1) * pageSize else |items|;
      var hi := if page * pageSize < |items| then page * pageSize else |items|;
      0 <= lo <= hi && Window(items, page, pageSize) == items[lo..hi]
  {
    var offset := (page - 1) * pageSize;
    OffsetOfPage(page, pageSize);
    var w := Window(items, page, pageSize);
    if offset < |items| {
      var end := if offset + pageSize > |items| then |items| else offset + pageSize;
      assert w == items[offset..end];
    } else {
      assert w == items[|items|..|items|];
    }
  }

  lemma OffsetOfPage(page: int, pageSize: int)
    requires page >= 1 && pageSize >= 1
    ensures 0 <= (page - 1) * pageSize < page * pageSize
    ensures (page - 1) * pageSize + pageSize == page * pageSize
  {
    assert (page - 1) * pageSize >= 0 * pageSize;
  }

  /** Consecutive pages read the table in order, without gaps or repeats. */
  lemma {:induction false} PagesReadInOrder<T>(items: seq<T>, pageSize: int, n: nat)
    requires pageSize >= 1
    ensures Pages(items, pageSize, n) == items[..if n * pageSize < |items| then n * pageSize else |items|]
  {
    if n > 0 {
      PagesReadInOrder(items, pageSize, n - 1);
      WindowSlice(items, n, pageSize);
      var prev := if (n - 1) * pageSize < |items| then (n - 1) * pageSize else |items|;
      var upto := if n * pageSize < |items| then n * pageSize else |items|;
      ConcatSlices(items, prev, upto);
    }
  }

  lemma ConcatSlices<T>(items: seq<T>, i: int, j: int)
    requires 0 <= i <= j <= |items|
    ensures items[..i] + items[i..j] == items[..j]
  {
  }

  /** Enough pages cover every live user. */
  lemma PagesCoverTable<T>(items: seq<T>, pageSize: int, n: nat)
    requires pageSize >= 1 && n * pageSize >= |items|
    ensures Pages(items, pageSize, n) == items
  {
    PagesReadInOrder(items, pageSize, n);
  }

  /** Twenty-five live users read ten at a time: the first page has ten users and the total is 25. */
  lemma FirstPageOfTwentyFive(rows: seq<Row>)
    requires |rows| == 25 && forall i :: 0 <= i < |rows| ==> !rows[i].deleted
    ensures var (users, total) := Page(rows, 1, 10);
      |users| == 10 && total == 25 && users == Live(rows)[..10]
  {
    AllLive(rows);
  }

  lemma {:induction false} AllLive(rows: seq<Row>)
    requires forall i :: 0 <= i < |rows| ==> !rows[i].deleted
    ensures |Live(rows)| == |rows|
    decreases |rows|
  {
    if rows != [] {
      AllLive(rows[1..]);
    }
  }

  /** A page that starts past the last live user is empty. */
  lemma PageBeyondEndIsEmpty<T>(items: seq<T>, page: int, pageSize: int)
    requires page >= 1 && pageSize >= 0 && (page - 1) * pageSize >= |items|
    ensures Window(items, page, pageSize) == []
  {
  }

  // ---------------------------------------------------------------------
  // Login
  // ---------------------------------------------------------------------

  /** With unique emails, login succeeds exactly for a live user whose stored hash is the password's and whose token can be signed. */
  lemma LoginSucceedsIff(rows: seq<Row>, nextID: nat, email: string, password: string, now: int,
                         secret: string, sha256Hex: string -> string, hs256: Jwt.Mac)
    requires WellFormed(rows, nextID)
    ensures Authenticate(rows, email, password, now, secret, sha256Hex, hs256).Ok? <==>
      exists u :: u in Live(rows) && u.email == email && sha256Hex(password) == u.password
        && Jwt.GenerateJWT(u, now, secret, hs256).Ok?
  {
    var r := FindByEmail(rows, email);
    if exists u :: u in Live(rows) && u.email == email && sha256Hex(password) == u.password
        && Jwt.GenerateJWT(u, now, secret, hs256).Ok? {
      var u :| u in Live(rows) && u.email == email && sha256Hex(password) == u.password
        && Jwt.GenerateJWT(u, now, secret, hs256).Ok?;
      assert Row(u, false) in rows;
      assert r.Ok?;
      assert Row(r.value, false) in rows;
      var i :| 0 <= i < |rows| && rows[i] == Row(u, false);
      var j :| 0 <= j < |rows| && rows[j] == Row(r.value, false);
      assert rows[i].user.email == rows[j].user.email;
    }
  }

  // ---------------------------------------------------------------------
  // The offset as the Go code computes it
  // ---------------------------------------------------------------------

  const TwoTo63: int := 0x8000_0000_0000_0000
  const TwoTo64: int := 0x1_0000_0000_0000_0000

  /** Two's-complement wrap-around of a product of Go `int`s on a 64-bit platform. */
  function Wrap64(x: int): (w: int)
    ensures -TwoTo63 <= w < TwoTo63
    ensures -TwoTo63 <= x < TwoTo63 ==> w == x
    ensures (w - x) % TwoTo64 == 0
  {
    (x + TwoTo63) % TwoTo64 - TwoTo63
  }

  /** The page that the code as written fetches: the offset product wraps around. */
  function WindowAsWritten<T>(items: seq<T>, page: int, pageSize: int): (w: seq<T>)
    ensures -TwoTo63 <= (page - 1) * pageSize < TwoTo63 ==> w == Window(items, page, pageSize)
  {
    var offset := Wrap64((page - 1) * pageSize);
    var start := if offset <= 0 then 0 else if offset < |items| then offset else |items|;
    var end := if pageSize < 0 || start + pageSize > |items| then |items| else start + pageSize;
    items[start..end]
  }

  /**
   * Page 2^58 + 1 of size 50 starts at row 2^58 * 50, past any table; the
   * wrapped offset is negative, the ORM leaves it out and the first fifty
   * users come back instead of an empty page.
   */
  lemma HugePageWrapsToFirstPage<T>(items: seq<T>)
    requires 50 <= |items| < TwoTo63
    ensures Window(items, 288230376151711745, 50) == []
    ensures WindowAsWritten(items, 288230376151711745, 50) == items[..50]
  {
    assert (288230376151711745 - 1) * 50 == 14411518807585587200;
    assert Wrap64(14411518807585587200) == -4035225266123964416;
  }
}
