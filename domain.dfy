/**
 * The persisted entities of the intranet backend: users, access levels,
 * forms (protected resources) and the Read/Write grants between levels and
 * forms, plus the claim carried by a session token.
 * GORM bookkeeping columns other than the primary key (CreatedAt,
 * UpdatedAt, DeletedAt) are not carried; soft deletion is modelled by the
 * user table itself.
 */
module Domain {

  /** A protected screen or API surface; `pathAPI` holds its route aliases joined by '|'. */
  datatype Form = Form(
    id: nat,
    title: string,
    icon: string,
    link: string,
    order: int,
    pathAPI: string)

  /** The grant edge between a level and a form. */
  datatype LevelPrivilege = LevelPrivilege(
    id: nat,
    levelID: nat,
    formID: nat,
    form: Form,
    read: bool,
    write: bool)

  /** A named role with its ordered list of grants. */
  datatype Level = Level(
    id: nat,
    name: string,
    description: string,
    privileges: seq<LevelPrivilege>)

  /** An entry of the expandable menu tree. */
  datatype MenuTree = MenuTree(id: nat, title: string, icon: string, color: string, order: int)

  /** A user account; `password` holds whatever hash the use case stored. */
  datatype User = User(
    id: nat,
    username: string,
    email: string,
    fullName: string,
    password: string,
    picture: string,
    levelID: nat,
    token: string,
    failure: int)

  /** The token payload: the session's identity and the registered claims that are set. */
  datatype Claim = Claim(
    userID: nat,
    email: string,
    levelID: nat,
    token: string,
    admin: nat,
    expiresAt: int,
    issuer: string)
}
