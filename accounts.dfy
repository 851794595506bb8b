/**
 * The security service's account store: sign-up (`AuthController.registerUser`)
 * and the start-up seeding of the two roles (`DataInitializer.run`).
 */
module Accounts {
  import opened Wrappers
  import opened Text
  import opened Reactive

  datatype ERole = ROLE_USER | ROLE_ADMIN

  /** A role document; its id is null until the repository assigns one. */
  datatype Role = Role(id: Option<string>, name: ERole)

  /** A user document; `password` holds the encoded password. */
  datatype User = User(id: Option<string>, username: string, email: string, password: string, roles: set<Role>)

  /** The sign-up payload; `roles` is null when the client sends none. */
  datatype SignupRequest = SignupRequest(username: string, email: string, password: string, roles: Option<set<string>>)

  /** A `ResponseEntity` carrying a `MessageResponse`. */
  datatype MessageReply = MessageReply(status: int, message: string)

  const UsernameInUse: string := "Error: Username is already taken!"
  const EmailInUse: string := "Error: Email is already in use!"

  /** The error raised when the role to grant is not stored. */
  function MissingRole(name: ERole): string {
    match name
    case ROLE_ADMIN => "Error: Role ADMIN is not found."
    case ROLE_USER => "Error: Role USER is not found."
  }

  /** The success message for the role granted. */
  function Welcome(name: ERole): string {
    match name
    case ROLE_ADMIN => "Admin registered successfully!"
    case ROLE_USER => "User registered successfully!"
  }

  /** The request asks for the admin role: some entry is "admin" or "ROLE_ADMIN", ignoring case. */
  predicate IsAdminRequest(roles: Option<set<string>>) {
    roles.Some? && exists r :: r in roles.value && (EqualsIgnoreCase(r, "admin") || EqualsIgnoreCase(r, "ROLE_ADMIN"))
  }

  /** The one role a sign-up grants: admin when asked for, user otherwise (other names are ignored). */
  function RequestedRole(request: SignupRequest): (name: ERole)
    ensures name == ROLE_ADMIN <==> IsAdminRequest(request.roles)
  {
    if IsAdminRequest(request.roles) then ROLE_ADMIN else ROLE_USER
  }

  /** Asking for "admin" in any letter case is enough to be granted the admin role. */
  lemma AdminIsSelfService(request: SignupRequest, r: string)
    requires request.roles.Some? && r in request.roles.value && EqualsIgnoreCase(r, "admin")
    ensures RequestedRole(request) == ROLE_ADMIN
  {
  }

  /** `existsByUsername` */
  predicate UsernameTaken(users: map<string, User>, username: string) {
    exists k :: k in users && users[k].username == username
  }

  /** `existsByEmail` */
  predicate EmailTaken(users: map<string, User>, email: string) {
    exists k :: k in users && users[k].email == email
  }

  ghost predicate UniqueUsernames(users: map<string, User>) {
    forall a, b :: a in users && b in users && users[a].username == users[b].username ==> a == b
  }

  ghost predicate UniqueRoleNames(roles: map<string, Role>) {
    forall a, b :: a in roles && b in roles && roles[a].name == roles[b].name ==> a == b
  }

  predicate HasRole(roles: map<string, Role>, name: ERole) {
    exists k :: k in roles && roles[k].name == name
  }

  /** `findByName`: the stored role with that name, if any. */
  function FindRole(roles: map<string, Role>, name: ERole): (r: Option<Role>)
    requires UniqueRoleNames(roles)
    ensures r.Some? <==> HasRole(roles, name)
    ensures r.Some? ==> r.value.name == name && r.value in roles.Values
  {
    if HasRole(roles, name) then
      var k :| k in roles && roles[k].name == name;
      Some(roles[k])
    else None
  }

  /**
   * What registerUser answers: 400 for a taken username, then 400 for a
   * taken email, then an error when the role to grant is missing, else 200
   * with the welcome message for that role.
   */
  function RegisterOutcome(users: map<string, User>, roles: map<string, Role>, request: SignupRequest): (r: Mono<MessageReply>)
    requires UniqueRoleNames(roles)
    ensures !r.Empty?
    ensures r.Error? <==> !UsernameTaken(users, request.username) && !EmailTaken(users, request.email) &&
                          !HasRole(roles, RequestedRole(request))
    ensures r.Error? ==> r.error == Runtime(MissingRole(RequestedRole(request)))
    ensures r.Value? && r.value.status == 400 <==> UsernameTaken(users, request.username) || EmailTaken(users, request.email)
    ensures r.Value? && r.value.status == 400 ==>
      r.value.message == (if UsernameTaken(users, request.username) then UsernameInUse else EmailInUse)
    ensures r.Value? && r.value.status != 400 ==> r.value == MessageReply(200, Welcome(RequestedRole(request)))
  {
    if UsernameTaken(users, request.username) then Value(MessageReply(400, UsernameInUse))
    else if EmailTaken(users, request.email) then Value(MessageReply(400, EmailInUse))
    else if !HasRole(roles, RequestedRole(request)) then Error(Runtime(MissingRole(RequestedRole(request))))
    else Value(MessageReply(200, Welcome(RequestedRole(request))))
  }

  /** The user document a successful sign-up saves. */
  function NewUser(request: SignupRequest, encode: string -> string, id: string, role: Role): (u: User)
    ensures u.id == Some(id) && u.username == request.username && u.email == request.email
    ensures u.password == encode(request.password) && u.roles == {role}
  {
    User(Some(id), request.username, request.email, encode(request.password), {role})
  }

  /** Sign-up succeeds exactly when username and email are free and the role to grant is stored. */
  lemma RegisterSucceedsIff(users: map<string, User>, roles: map<string, Role>, request: SignupRequest)
    requires UniqueRoleNames(roles)
    ensures RegisterOutcome(users, roles, request).Value? && RegisterOutcome(users, roles, request).value.status == 200
      <==> !UsernameTaken(users, request.username) && !EmailTaken(users, request.email) &&
           HasRole(roles, RequestedRole(request))
    ensures RegisterOutcome(users, roles, request).Value? ==>
      RegisterOutcome(users, roles, request).value.status in {200, 400}
  {
  }

  /** The uniqueness checks come before the role lookup: a taken username or email is refused whatever roles exist. */
  lemma ChecksPrecedeRoleLookup(users: map<string, User>, roles1: map<string, Role>, roles2: map<string, Role>,
                                request: SignupRequest)
    requires UniqueRoleNames(roles1) && UniqueRoleNames(roles2)
    requires UsernameTaken(users, request.username) || EmailTaken(users, request.email)
    ensures RegisterOutcome(users, roles1, request) == RegisterOutcome(users, roles2, request)
    ensures RegisterOutcome(users, roles1, request).Value? && RegisterOutcome(users, roles1, request).value.status == 400
  {
  }

  /** Once a sign-up has succeeded, any later sign-up with the same username is refused. */
  lemma SecondSignupRefused(users: map<string, User>, roles: map<string, Role>, request: SignupRequest,
                            encode: string -> string, id: string, later: SignupRequest)
    requires UniqueRoleNames(roles)
    requires RegisterOutcome(users, roles, request).Value? && RegisterOutcome(users, roles, request).value.status == 200
    requires later.username == request.username
    ensures var after := users[id := NewUser(request, encode, id, FindRole(roles, RequestedRole(request)).value)];
      RegisterOutcome(after, roles, later) == Value(MessageReply(400, UsernameInUse))
  {
    var after := users[id := NewUser(request, encode, id, FindRole(roles, RequestedRole(request)).value)];
    assert after[id].username == later.username;
  }

  /** A successful sign-up keeps usernames unique. */
  lemma SignupKeepsUsernamesUnique(users: map<string, User>, roles: map<string, Role>, request: SignupRequest,
                                   encode: string -> string, id: string)
    requires UniqueRoleNames(roles) && UniqueUsernames(users) && id !in users
    requires RegisterOutcome(users, roles, request).Value? && RegisterOutcome(users, roles, request).value.status == 200
    ensures UniqueUsernames(users[id := NewUser(request, encode, id, FindRole(roles, RequestedRole(request)).value)])
  {
    assert !UsernameTaken(users, request.username);
  }

  /** `run` for one role: saves a new role document unless one with that name is stored. */
  function SeedRole(roles: map<string, Role>, name: ERole, id: string): (r: map<string, Role>)
    requires UniqueRoleNames(roles) && id !in roles
    ensures HasRole(r, name) && UniqueRoleNames(r)
    ensures forall k :: k in roles ==> k in r && r[k] == roles[k]
    ensures r.Keys <= roles.Keys + {id}
    ensures HasRole(roles, name) ==> r == roles
    ensures !HasRole(roles, name) ==> r == roles[id := Role(Some(id), name)]
  {
    if HasRole(roles, name) then roles
    else
      var r := roles[id := Role(Some(id), name)];
      assert r[id].name == name;
      r
  }

  /** `run`: both roles are seeded. */
  function SeedAll(roles: map<string, Role>, userRoleId: string, adminRoleId: string): (r: map<string, Role>)
    requires UniqueRoleNames(roles) && userRoleId !in roles && adminRoleId !in roles && userRoleId != adminRoleId
    ensures HasRole(r, ROLE_USER) && HasRole(r, ROLE_ADMIN) && UniqueRoleNames(r)
    ensures forall k :: k in roles ==> k in r && r[k] == roles[k]
    ensures r.Keys <= roles.Keys + {userRoleId, adminRoleId}
  {
    var withUser := SeedRole(roles, ROLE_USER, userRoleId);
    SeedRole(withUser, ROLE_ADMIN, adminRoleId)
  }

  /** Running the seeding again (on a later start) changes nothing. */
  lemma SeedingIsIdempotent(roles: map<string, Role>, userRoleId: string, adminRoleId: string,
                            userRoleId2: string, adminRoleId2: string)
    requires UniqueRoleNames(roles) && userRoleId !in roles && adminRoleId !in roles && userRoleId != adminRoleId
    requires var seeded := SeedAll(roles, userRoleId, adminRoleId);
      userRoleId2 !in seeded && adminRoleId2 !in seeded && userRoleId2 != adminRoleId2
    ensures var seeded := SeedAll(roles, userRoleId, adminRoleId);
      SeedAll(seeded, userRoleId2, adminRoleId2) == seeded
  {
  }

  /** Once the roles are seeded, a sign-up with a fresh username and email succeeds. */
  lemma SeededStoreAcceptsFreshSignup(users: map<string, User>, roles: map<string, Role>, request: SignupRequest,
                                      userRoleId: string, adminRoleId: string)
    requires UniqueRoleNames(roles) && userRoleId !in roles && adminRoleId !in roles && userRoleId != adminRoleId
    requires !UsernameTaken(users, request.username) && !EmailTaken(users, request.email)
    ensures RegisterOutcome(users, SeedAll(roles, userRoleId, adminRoleId), request)
      == Value(MessageReply(200, Welcome(RequestedRole(request))))
  {
  }

  /** The users and roles collections. */
  class SecurityDb {
    var users: map<string, User>
    var roles: map<string, Role>

    /** Documents carry their own keys as ids, and no two roles share a name. */
    ghost predicate Valid()
      reads this
    {
      UniqueRoleNames(roles) &&
      (forall k :: k in users ==> users[k].id == Some(k)) &&
      (forall k :: k in roles ==> roles[k].id == Some(k))
    }

    constructor ()
      ensures Valid() && users == map[] && roles == map[]
    {
      users := map[];
      roles := map[];
    }
  }

  class AuthController {
    const db: SecurityDb

    constructor (db: SecurityDb)
      ensures this.db == db
    {
      this.db := db;
    }

    /**
     * registerUser: checks username, then email, then looks up the role to
     * grant and saves the new user with that one role and the encoded
     * password.  `encode` is the password encoder; `freshId` the id the store
     * assigns.
     */
    method RegisterUser(request: SignupRequest, encode: string -> string, freshId: string)
      returns (r: Mono<MessageReply>)
      requires db.Valid() && freshId !in db.users
      modifies db
      ensures db.Valid()
      ensures r == RegisterOutcome(old(db.users), old(db.roles), request)
      ensures db.roles == old(db.roles)
      ensures db.users == if r.Value? && r.value.status == 200
        then old(db.users)[freshId := NewUser(request, encode, freshId, FindRole(old(db.roles), RequestedRole(request)).value)]
        else old(db.users)
    {
      var wanted := RequestedRole(request);
      var finalMessage := Welcome(wanted);
      if UsernameTaken(db.users, request.username) {
        return Value(MessageReply(400, UsernameInUse));
      }
      if EmailTaken(db.users, request.email) {
        return Value(MessageReply(400, EmailInUse));
      }
      var user := User(None, request.username, request.email, encode(request.password), {});
      var role := FindRole(db.roles, wanted);
      if role.None? {
        return Error(Runtime(MissingRole(wanted)));
      }
      user := user.(id := Some(freshId), roles := {role.value});
      db.users := db.users[freshId := user];
      r := Value(MessageReply(200, finalMessage));
    }
  }

  class DataInitializer {
    const db: SecurityDb

    constructor (db: SecurityDb)
      ensures this.db == db
    {
      this.db := db;
    }

    /** run: saves ROLE_USER and then ROLE_ADMIN, each only if no role of that name is stored. */
    method Run(userRoleId: string, adminRoleId: string)
      requires db.Valid() && userRoleId !in db.roles && adminRoleId !in db.roles && userRoleId != adminRoleId
      modifies db
      ensures db.Valid()
      ensures db.roles == SeedAll(old(db.roles), userRoleId, adminRoleId)
      ensures db.users == old(db.users)
    {
      if !HasRole(db.roles, ROLE_USER) {
        db.roles := db.roles[userRoleId := Role(Some(userRoleId), ROLE_USER)];
      }
      if !HasRole(db.roles, ROLE_ADMIN) {
        db.roles := db.roles[adminRoleId := Role(Some(adminRoleId), ROLE_ADMIN)];
      }
    }
  }
}
