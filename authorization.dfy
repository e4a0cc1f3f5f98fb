/**
 * The authorization middleware: from the route of a request, its HTTP
 * verb and the caller's access level, decide whether the request reaches
 * its handler or is refused with 403 and a reason code
 * ("01": the level could not be loaded, "02": no grant covers the request).
 */
module Authorization {
  import opened Wrappers
  import opened Domain
  import opened GoStrings

  const MethodGet := "GET"
  const MethodPost := "POST"
  const MethodPut := "PUT"
  const MethodDelete := "DELETE"

  const LevelNotFound := "01"
  const NoGrant := "02"
  const StatusForbidden := 403

  datatype Decision = Allow | Deny(code: string)

  /** What the middleware hands back: a 403 JSON error, or whatever `next` returned. */
  datatype Reply<R> = Forbidden(status: int, error: string) | Delegated(result: R)

  /**
   * The resource key of a route: the first '/'-separated segment left after
   * removing "/" + prefix + "/" from the front of the route (nothing is
   * removed when the route does not start with it).
   */
  function ResourceKey(route: string, prefix: string): (key: string)
    ensures var rest := TrimPrefix(route, "/" + prefix + "/");
      && key <= rest && '/' !in key
      && (|key| == |rest| || rest[|key|] == '/')
  {
    var rest := TrimPrefix(route, "/" + prefix + "/");
    FirstPiece(rest, '/');
    Split(rest, '/')[0]
  }

  /**
   * A form's PathAPI matches a key when it has at least two aliases and the
   * key is the first or the second; so a match needs a '|' in the PathAPI
   * and a key free of '|'.
   */
  predicate Matches(pathAPI: string, key: string): (m: bool)
    ensures m ==> '|' in pathAPI && '|' !in key
  {
    var aliases := Split(pathAPI, '|');
    SplitPiecesAvoidSeparator(pathAPI, '|');
    SeveralPiecesNeedSeparator(pathAPI, '|');
    |aliases| > 1 && (aliases[0] == key || aliases[1] == key)
  }

  /** GET needs the Read flag; POST, PUT and DELETE need the Write flag; no other verb is ever granted. */
  predicate Grants(verb: string, privilege: LevelPrivilege)
  {
    || (verb == MethodGet && privilege.read)
    || ((verb == MethodPost || verb == MethodPut || verb == MethodDelete) && privilege.write)
  }

  predicate Qualifies(privilege: LevelPrivilege, key: string, verb: string)
  {
    Matches(privilege.form.pathAPI, key) && Grants(verb, privilege)
  }

  /**
   * The privilege scan: walk the level's grants in order and stop at the
   * first one whose form matches the key and whose flag covers the verb.
   */
  method HasAccess(privileges: seq<LevelPrivilege>, key: string, verb: string) returns (hasAccess: bool)
    ensures hasAccess <==> exists i :: 0 <= i < |privileges| && Qualifies(privileges[i], key, verb)
  {
    hasAccess := false;
    var i := 0;
    while i < |privileges|
      invariant 0 <= i <= |privileges|
      invariant forall j :: 0 <= j < i ==> !Qualifies(privileges[j], key, verb)
    {
      var privilege := privileges[i];
      var pathAPI := Split(privilege.form.pathAPI, '|');
      if |pathAPI| > 1 && (pathAPI[0] == key || pathAPI[1] == key) {
        if verb == MethodGet && privilege.read {
          hasAccess := true;
          break;
        } else if (verb == MethodPost || verb == MethodPut || verb == MethodDelete) && privilege.write {
          hasAccess := true;
          break;
        }
      }
      i := i + 1;
    }
  }

  /** Some grant of the list covers `verb` on `key`. */
  predicate Granted(privileges: seq<LevelPrivilege>, key: string, verb: string)
  {
    exists i :: 0 <= i < |privileges| && Qualifies(privileges[i], key, verb)
  }

  /** The decision the middleware takes for a caller whose level is looked up with `getLevel`. */
  function Decide(claim: Claim, route: string, prefix: string, verb: string,
                  getLevel: nat -> Result<Level>): (d: Decision)
    ensures getLevel(claim.levelID).Err? ==> d == Deny(LevelNotFound)
    ensures getLevel(claim.levelID).Ok? ==>
      (d == Allow <==> Granted(getLevel(claim.levelID).value.privileges, ResourceKey(route, prefix), verb))
    ensures d != Allow ==> d == Deny(LevelNotFound) || d == Deny(NoGrant)
  {
    var key := ResourceKey(route, prefix);
    match getLevel(claim.levelID)
    case Err(_) => Deny(LevelNotFound)
    case Ok(level) => if Granted(level.privileges, key, verb) then Allow else Deny(NoGrant)
  }

  /**
   * The middleware itself. `next` stands for the result the wrapped handler
   * would return; `nextCalls` counts how often the handler is invoked.
   */
  method Authorize<R>(claim: Claim, route: string, prefix: string, verb: string,
                      getLevel: nat -> Result<Level>, next: R)
    returns (reply: Reply<R>, nextCalls: nat)
    ensures Decide(claim, route, prefix, verb, getLevel) == Allow ==>
      reply == Delegated(next) && nextCalls == 1
    ensures Decide(claim, route, prefix, verb, getLevel).Deny? ==>
      reply == Forbidden(StatusForbidden, Decide(claim, route, prefix, verb, getLevel).code + " - Access denied")
      && nextCalls == 0
  {
    var path := ResourceKey(route, prefix);
    var level := getLevel(claim.levelID);
    if level.Err? {
      return Forbidden(StatusForbidden, LevelNotFound + " - Access denied"), 0;
    }
    var hasAccess := HasAccess(level.value.privileges, path, verb);
    if !hasAccess {
      return Forbidden(StatusForbidden, NoGrant + " - Access denied"), 0;
    }
    return Delegated(next), 1;
  }

  // ---------------------------------------------------------------------
  // Properties of the decision
  // ---------------------------------------------------------------------

  /** A route outside the prefix has the empty key: the text before its leading '/'. */
  lemma KeyOutsidePrefix(route: string, prefix: string)
    requires !("/" + prefix + "/" <= route) && |route| > 0 && route[0] == '/'
    ensures ResourceKey(route, prefix) == ""
  {
  }

  /** Under the prefix, the key is the segment that follows it. */
  lemma KeyUnderPrefix(prefix: string, segment: string, tail: string)
    requires '/' !in segment
    ensures ResourceKey("/" + prefix + "/" + segment + "/" + tail, prefix) == segment
    ensures ResourceKey("/" + prefix + "/" + segment, prefix) == segment
  {
    var p := "/" + prefix + "/";
    var r1 := p + segment + "/" + tail;
    assert p <= r1 && r1[|p|..] == segment + ['/'] + tail;
    SplitAtFirst(segment, '/', tail);
    var r2 := p + segment;
    assert p <= r2 && r2[|p|..] == segment;
    SplitWithoutSeparator(segment, '/');
  }

  /** A PathAPI without '|' has a single alias and never matches any key. */
  lemma {:induction false} SingleAliasNeverMatches(pathAPI: string, key: string)
    requires '|' !in pathAPI
    ensures !Matches(pathAPI, key)
  {
    SplitWithoutSeparator(pathAPI, '|');
  }

  /**
   * With aliases `a` and `b` (neither containing '|'), a key matches exactly
   * when it equals one of them; whatever follows a second '|' is ignored.
   */
  lemma {:induction false} TwoAliasesMatch(pathAPI: string, a: string, b: string, more: string, key: string)
    requires '|' !in a && '|' !in b
    requires pathAPI == a + "|" + b || pathAPI == a + "|" + b + "|" + more
    ensures Matches(pathAPI, key) <==> key == a || key == b
  {
    if pathAPI == a + "|" + b {
      assert pathAPI == a + ['|'] + b;
      SplitAtFirst(a, '|', b);
      SplitWithoutSeparator(b, '|');
    } else {
      assert pathAPI == a + ['|'] + (b + ['|'] + more);
      SplitAtFirst(a, '|', b + "|" + more);
      SplitAtFirst(b, '|', more);
    }
  }

  /** A caller whose level cannot be loaded is refused with "01", whatever the route and verb. */
  lemma UnknownLevelDenied(claim: Claim, route: string, prefix: string, verb: string,
                           getLevel: nat -> Result<Level>)
    requires getLevel(claim.levelID).Err?
    ensures Decide(claim, route, prefix, verb, getLevel) == Deny(LevelNotFound)
  {
  }

  /** A GET is allowed exactly when some matching grant has Read set. */
  lemma GetNeedsRead(claim: Claim, route: string, prefix: string, getLevel: nat -> Result<Level>, level: Level)
    requires getLevel(claim.levelID) == Ok(level)
    ensures var key := ResourceKey(route, prefix);
      Decide(claim, route, prefix, MethodGet, getLevel) == Allow <==>
        exists i :: 0 <= i < |level.privileges| && Matches(level.privileges[i].form.pathAPI, key) && level.privileges[i].read
  {
  }

  /** POST, PUT and DELETE are allowed exactly when some matching grant has Write set. */
  lemma WriteMethodsNeedWrite(claim: Claim, route: string, prefix: string, verb: string,
                              getLevel: nat -> Result<Level>, level: Level)
    requires verb == MethodPost || verb == MethodPut || verb == MethodDelete
    requires getLevel(claim.levelID) == Ok(level)
    ensures var key := ResourceKey(route, prefix);
      Decide(claim, route, prefix, verb, getLevel) == Allow <==>
        exists i :: 0 <= i < |level.privileges| && Matches(level.privileges[i].form.pathAPI, key) && level.privileges[i].write
  {
  }

  /** Any other verb (PATCH, HEAD, OPTIONS, ...) is refused with "02" once the level is loaded. */
  lemma OtherMethodsDenied(claim: Claim, route: string, prefix: string, verb: string,
                           getLevel: nat -> Result<Level>)
    requires verb !in {MethodGet, MethodPost, MethodPut, MethodDelete}
    requires getLevel(claim.levelID).Ok?
    ensures Decide(claim, route, prefix, verb, getLevel) == Deny(NoGrant)
  {
  }

  /** The decision depends only on which grants the level holds, not on their order or repetition. */
  lemma DecisionIgnoresOrder(privileges1: seq<LevelPrivilege>, privileges2: seq<LevelPrivilege>,
                             key: string, verb: string)
    requires forall p :: p in privileges1 <==> p in privileges2
    ensures Granted(privileges1, key, verb) <==> Granted(privileges2, key, verb)
  {
    if Granted(privileges1, key, verb) {
      var i :| 0 <= i < |privileges1| && Qualifies(privileges1[i], key, verb);
      assert privileges1[i] in privileges2;
    }
    if Granted(privileges2, key, verb) {
      var i :| 0 <= i < |privileges2| && Qualifies(privileges2[i], key, verb);
      assert privileges2[i] in privileges1;
    }
  }

  /** Adding grants before or after a level's list never turns an allowed request into a denied one. */
  lemma MoreGrantsKeepAllow(privileges: seq<LevelPrivilege>, before: seq<LevelPrivilege>,
                            after: seq<LevelPrivilege>, key: string, verb: string)
    requires Granted(privileges, key, verb)
    ensures Granted(before + privileges + after, key, verb)
  {
    var i :| 0 <= i < |privileges| && Qualifies(privileges[i], key, verb);
    assert (before + privileges + after)[|before| + i] == privileges[i];
  }

  // ---------------------------------------------------------------------
  // The seeded access levels
  // ---------------------------------------------------------------------

  const ApiPrefix := "api/v1"

  const UsersForm := Form(1, "Usuarios", "mdi-account-check-outline", "usuarios", 1, "user|users")
  const LevelsForm := Form(2, "Identidades", "mdi-account-check-outline", "roles", 2, "level|levels")

  /** Level 3 of the seed data: read-only on forms 1 and 2. */
  const GuestLevel := Level(3, "Invitado", "Rol para visualizar datos", [
    LevelPrivilege(11, 3, 1, UsersForm, true, false),
    LevelPrivilege(12, 3, 2, LevelsForm, true, false)])

  /** A grant that matches the key and covers the verb lets the request through. */
  lemma QualifyingGrantAllows(claim: Claim, route: string, prefix: string, verb: string,
                              getLevel: nat -> Result<Level>, level: Level, i: int)
    requires getLevel(claim.levelID) == Ok(level) && 0 <= i < |level.privileges|
    requires Qualifies(level.privileges[i], ResourceKey(route, prefix), verb)
    ensures Decide(claim, route, prefix, verb, getLevel) == Allow
  {
  }

  /** A level without any Write flag is refused every POST, PUT and DELETE with "02". */
  lemma ReadOnlyLevelRefusesWrites(claim: Claim, route: string, prefix: string, verb: string,
                                   getLevel: nat -> Result<Level>, level: Level)
    requires getLevel(claim.levelID) == Ok(level)
    requires verb == MethodPost || verb == MethodPut || verb == MethodDelete
    requires forall i :: 0 <= i < |level.privileges| ==> !level.privileges[i].write
    ensures Decide(claim, route, prefix, verb, getLevel) == Deny(NoGrant)
  {
  }

  /** The seeded read-only level may list users (`GET /api/v1/users/:page`, any tail) ... */
  lemma GuestMayListUsers(claim: Claim, getLevel: nat -> Result<Level>, tail: string)
    requires getLevel(claim.levelID) == Ok(GuestLevel)
    ensures Decide(claim, "/" + ApiPrefix + "/" + "users" + "/" + tail, ApiPrefix, MethodGet, getLevel) == Allow
  {
    var segment := "users";
    KeyUnderPrefix(ApiPrefix, segment, tail);
    UsersFormMatches(GuestLevel.privileges[0].form.pathAPI);
    QualifyingGrantAllows(claim, "/" + ApiPrefix + "/" + segment + "/" + tail, ApiPrefix, MethodGet, getLevel, GuestLevel, 0);
  }

  lemma UsersFormMatches(pathAPI: string)
    requires pathAPI == UsersForm.pathAPI
    ensures Matches(pathAPI, "users")
  {
    TwoAliasesMatch(pathAPI, "user", "users", "", "users");
  }

  /** ... but may not create or update them (`POST /api/v1/user`), nor write anything else: "02". */
  lemma GuestMayNotWriteUsers(claim: Claim, getLevel: nat -> Result<Level>, route: string)
    requires getLevel(claim.levelID) == Ok(GuestLevel)
    ensures Decide(claim, route, ApiPrefix, MethodPost, getLevel) == Deny(NoGrant)
  {
    ReadOnlyLevelRefusesWrites(claim, route, ApiPrefix, MethodPost, getLevel, GuestLevel);
  }

  /**
   * Grants on single-alias forms (the seeded "smtp-config",
   * "email-notifications" and "push-notification" forms) are dead: a level
   * holding only such grants, with every flag set, is refused every request.
   */
  lemma SingleAliasGrantsUseless(claim: Claim, route: string, prefix: string, verb: string,
                                 getLevel: nat -> Result<Level>, level: Level)
    requires getLevel(claim.levelID) == Ok(level)
    requires forall i :: 0 <= i < |level.privileges| ==> '|' !in level.privileges[i].form.pathAPI
    ensures Decide(claim, route, prefix, verb, getLevel) == Deny(NoGrant)
  {
    var key := ResourceKey(route, prefix);
    forall i | 0 <= i < |level.privileges|
      ensures !Qualifies(level.privileges[i], key, verb)
    {
      SingleAliasNeverMatches(level.privileges[i].form.pathAPI, key);
    }
  }
}
