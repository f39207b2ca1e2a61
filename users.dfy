/** The user, invite and company administration of `backend/src/routes/user.ts`,
    and the caller's own settings. Every administrative route first refuses a
    caller whose role is not ADMIN with 403 and changes nothing; a Prisma call
    that throws (a missing row) becomes a 400. */
module Users {
  import opened Common
  import opened Schema
  import opened Store

  // ------------------------------------------------------------------ users

  /** `POST /users`: email and role are required and the email must be
      unused; the user gets the placeholder password, stored unhashed. */
  method AddUser(db: Db, caller: Caller, email: string, name: Option<string>, role: Option<Role>) returns (reply: Reply<User>)
    requires db.Valid()
    modifies db`users, db`nextId, db`clock
    ensures db.Valid()
    ensures !IsAdmin(caller) ==> reply == Fail(Forbidden)
    ensures IsAdmin(caller) && (email == "" || role.None?) ==> reply == Fail(BadRequest)
    ensures IsAdmin(caller) && email != "" && role.Some? && UserWithEmail(old(db.users), email).Some? ==> reply == Fail(BadRequest)
    ensures reply.Fail? ==> db.users == old(db.users)
    ensures reply.Ok? <==> IsAdmin(caller) && email != "" && role.Some? && UserWithEmail(old(db.users), email).None?
    ensures reply.Ok? ==>
      reply.value == User(old(db.nextId), email, name, role.value, DefaultInvited, Some(Plain(PlaceholderPassword)),
                          DefaultNotificationsEnabled, [], None, old(db.clock))
      && db.users == old(db.users)[reply.value.id := reply.value]
  {
    if !IsAdmin(caller) {
      return Fail(Forbidden);
    }
    if email == "" || role.None? {
      return Fail(BadRequest);
    }
    if UserWithEmail(db.users, email).Some? {
      return Fail(BadRequest);
    }
    var u := db.CreateUser(email, name, role.value, DefaultInvited, Some(Plain(PlaceholderPassword)));
    reply := Ok(u);
  }

  /** `PUT /users/:id/role`: only that user's role changes. */
  method ChangeRole(db: Db, caller: Caller, id: nat, role: Option<Role>) returns (reply: Reply<User>)
    requires db.Valid()
    modifies db`users
    ensures db.Valid()
    ensures !IsAdmin(caller) ==> reply == Fail(Forbidden)
    ensures IsAdmin(caller) && (role.None? || id !in old(db.users)) ==> reply == Fail(BadRequest)
    ensures reply.Fail? ==> db.users == old(db.users)
    ensures reply.Ok? <==> IsAdmin(caller) && role.Some? && id in old(db.users)
    ensures reply.Ok? ==> reply.value == old(db.users)[id].(role := role.value) && db.users == old(db.users)[id := reply.value]
  {
    if !IsAdmin(caller) {
      return Fail(Forbidden);
    }
    if role.None? || id !in db.users {
      return Fail(BadRequest);
    }
    var u := db.users[id].(role := role.value);
    db.UpdateUser(u);
    reply := Ok(u);
  }

  /** `DELETE /users/:id`. */
  method DeleteUser(db: Db, caller: Caller, id: nat) returns (reply: Reply<bool>)
    requires db.Valid()
    modifies db`users
    ensures db.Valid()
    ensures !IsAdmin(caller) ==> reply == Fail(Forbidden)
    ensures IsAdmin(caller) && id !in old(db.users) ==> reply == Fail(BadRequest)
    ensures reply.Fail? ==> db.users == old(db.users)
    ensures reply.Ok? <==> IsAdmin(caller) && id in old(db.users)
    ensures reply.Ok? ==> db.users == old(db.users) - {id}
  {
    if !IsAdmin(caller) {
      return Fail(Forbidden);
    }
    if id !in db.users {
      return Fail(BadRequest);
    }
    db.RemoveUser(id);
    reply := Ok(true);
  }

  // --------------------------------------------------------------- settings

  /** `GET /users/me/settings`: the caller's whole record, or `null` when it
      is gone. */
  function GetSettings(users: map<nat, User>, caller: Caller): (r: Reply<Option<User>>)
    ensures AuthenticatedId(caller).None? <==> r == Fail(Unauthorized)
    ensures r.Ok? ==> r.value == UserWithId(users, AuthenticatedId(caller).value)
  {
    var id := AuthenticatedId(caller);
    if id.None? then Fail(Unauthorized) else Ok(UserWithId(users, id.value))
  }

  /** The `extraEmails` field of the settings body: an array, or anything
      else (absent included). */
  datatype ExtraEmailsField = NoArray | EmailArray(emails: seq<string>)

  /** `PUT /users/me/settings`: only `extraEmails` can change, and only when
      an array is given; the notification flag in the body is ignored. */
  method UpdateSettings(db: Db, caller: Caller, extra: ExtraEmailsField) returns (reply: Reply<User>)
    requires db.Valid()
    modifies db`users
    ensures db.Valid()
    ensures AuthenticatedId(caller).None? ==> reply == Fail(Unauthorized) && db.users == old(db.users)
    ensures AuthenticatedId(caller).Some? && AuthenticatedId(caller).value !in old(db.users) ==>
      reply == Fail(BadRequest) && db.users == old(db.users)
    ensures reply.Ok? ==>
      var id := AuthenticatedId(caller).value;
      var u := old(db.users)[id];
      reply.value == (if extra.EmailArray? then u.(extraEmails := extra.emails) else u)
      && db.users == old(db.users)[id := reply.value]
    ensures reply.Ok? <==> AuthenticatedId(caller).Some? && AuthenticatedId(caller).value in old(db.users)
  {
    var id := AuthenticatedId(caller);
    if id.None? {
      return Fail(Unauthorized);
    }
    if id.value !in db.users {
      return Fail(BadRequest);
    }
    var u := db.users[id.value];
    if extra.EmailArray? {
      u := u.(extraEmails := extra.emails);
    }
    db.UpdateUser(u);
    reply := Ok(u);
  }

  /** What `GET /users/me` shows. */
  datatype Me = Me(id: nat, email: string, name: Option<string>, role: Role)

  /** `GET /users/me`: 401 without an id, 404 when the caller's record is gone. */
  function GetMe(users: map<nat, User>, caller: Caller): (r: Reply<Me>)
    ensures AuthenticatedId(caller).None? ==> r == Fail(Unauthorized)
    ensures AuthenticatedId(caller).Some? && AuthenticatedId(caller).value !in users ==> r == Fail(NotFound)
    ensures r.Ok? <==> AuthenticatedId(caller).Some? && AuthenticatedId(caller).value in users
    ensures r.Ok? ==> var u := users[AuthenticatedId(caller).value]; r.value == Me(u.id, u.email, u.name, u.role)
  {
    var id := AuthenticatedId(caller);
    if id.None? then Fail(Unauthorized)
    else if id.value !in users then Fail(NotFound)
    else var u := users[id.value]; Ok(Me(u.id, u.email, u.name, u.role))
  }

  // ---------------------------------------------------------------- invites

  /** `DELETE /users/invites/:id`: exactly the invite with that id goes. */
  method DeleteInvite(db: Db, caller: Caller, id: nat) returns (reply: Reply<bool>)
    requires db.Valid()
    modifies db`invites
    ensures db.Valid()
    ensures !IsAdmin(caller) ==> reply == Fail(Forbidden)
    ensures IsAdmin(caller) && !HasInviteId(old(db.invites), id) ==> reply == Fail(BadRequest)
    ensures reply.Fail? ==> db.invites == old(db.invites)
    ensures reply.Ok? <==> IsAdmin(caller) && HasInviteId(old(db.invites), id)
    ensures reply.Ok? ==> db.invites == InvitesWithout(old(db.invites), id)
  {
    if !IsAdmin(caller) {
      return Fail(Forbidden);
    }
    if !HasInviteId(db.invites, id) {
      return Fail(BadRequest);
    }
    db.RemoveInvite(id);
    reply := Ok(true);
  }

  /** Invite ids being unique, the delete removes one email's invite. */
  lemma DeleteInviteRemovesOne(invites: map<string, Invite>, nextId: nat, e: string)
    requires InvitesValid(invites, nextId) && e in invites
    ensures InvitesWithout(invites, invites[e].id) == invites - {e}
  {
  }

  // -------------------------------------------------------------- companies

  /** `POST /users/companies`: a name is required. */
  method CreateCompany(db: Db, caller: Caller, name: string, domain: Option<string>) returns (reply: Reply<Company>)
    requires db.Valid()
    modifies db`companies, db`nextId
    ensures db.Valid()
    ensures !IsAdmin(caller) ==> reply == Fail(Forbidden)
    ensures IsAdmin(caller) && name == "" ==> reply == Fail(BadRequest)
    ensures reply.Fail? ==> db.companies == old(db.companies)
    ensures reply.Ok? <==> IsAdmin(caller) && name != ""
    ensures reply.Ok? ==> reply.value == Company(old(db.nextId), name, domain) && reply.value.id !in old(db.companies)
    ensures reply.Ok? ==> db.companies == old(db.companies)[reply.value.id := reply.value]
  {
    if !IsAdmin(caller) {
      return Fail(Forbidden);
    }
    if name == "" {
      return Fail(BadRequest);
    }
    var c := db.CreateCompany(name, domain);
    reply := Ok(c);
  }

  /** A field of a JSON request body: left out, `null`, or a value. Prisma
      skips a field that is left out and writes NULL for `null`. */
  datatype BodyField<T> = Absent | Null | Given(value: T)

  /** `PUT /users/companies/:id`: a field left out of the body stays, a
      `null` domain clears the domain, and a `null` name, which the required
      name column refuses, is a 400. */
  method UpdateCompany(db: Db, caller: Caller, id: nat, name: BodyField<string>, domain: BodyField<string>) returns (reply: Reply<Company>)
    requires db.Valid()
    modifies db`companies
    ensures db.Valid()
    ensures !IsAdmin(caller) ==> reply == Fail(Forbidden)
    ensures IsAdmin(caller) && (id !in old(db.companies) || name.Null?) ==> reply == Fail(BadRequest)
    ensures reply.Fail? ==> db.companies == old(db.companies)
    ensures reply.Ok? <==> IsAdmin(caller) && id in old(db.companies) && !name.Null?
    ensures reply.Ok? ==>
      var c := old(db.companies)[id];
      && reply.value.id == id
      && reply.value.name == (if name.Given? then name.value else c.name)
      && (domain.Absent? ==> reply.value.domain == c.domain)
      && (domain.Null? ==> reply.value.domain == None)
      && (domain.Given? ==> reply.value.domain == Some(domain.value))
      && db.companies == old(db.companies)[id := reply.value]
  {
    if !IsAdmin(caller) {
      return Fail(Forbidden);
    }
    if id !in db.companies || name.Null? {
      return Fail(BadRequest);
    }
    var c := db.companies[id];
    var newName := if name.Given? then name.value else c.name;
    var newDomain := match domain
      case Absent => c.domain
      case Null => None
      case Given(d) => Some(d);
    var updated := Company(id, newName, newDomain);
    db.UpdateCompany(updated);
    reply := Ok(updated);
  }

  /** `DELETE /users/companies/:id`. */
  method DeleteCompany(db: Db, caller: Caller, id: nat) returns (reply: Reply<bool>)
    requires db.Valid()
    modifies db`companies
    ensures db.Valid()
    ensures !IsAdmin(caller) ==> reply == Fail(Forbidden)
    ensures IsAdmin(caller) && id !in old(db.companies) ==> reply == Fail(BadRequest)
    ensures reply.Fail? ==> db.companies == old(db.companies)
    ensures reply.Ok? <==> IsAdmin(caller) && id in old(db.companies)
    ensures reply.Ok? ==> db.companies == old(db.companies) - {id}
  {
    if !IsAdmin(caller) {
      return Fail(Forbidden);
    }
    if id !in db.companies {
      return Fail(BadRequest);
    }
    db.RemoveCompany(id);
    reply := Ok(true);
  }

  /** `POST /users/companies/:id/users`: the named user (the body's `userId`,
      None when absent) joins the company; nothing else about them changes. */
  method AssignToCompany(db: Db, caller: Caller, companyId: nat, userId: Option<nat>) returns (reply: Reply<User>)
    requires db.Valid()
    modifies db`users
    ensures db.Valid()
    ensures !IsAdmin(caller) ==> reply == Fail(Forbidden)
    ensures IsAdmin(caller) && (userId.None? || userId.value == 0 || userId.value !in old(db.users)) ==> reply == Fail(BadRequest)
    ensures reply.Fail? ==> db.users == old(db.users)
    ensures reply.Ok? <==> IsAdmin(caller) && userId.Some? && userId.value != 0 && userId.value in old(db.users)
    ensures reply.Ok? ==> reply.value == old(db.users)[userId.value].(companyId := Some(companyId))
    ensures reply.Ok? ==> db.users == old(db.users)[userId.value := reply.value]
  {
    if !IsAdmin(caller) {
      return Fail(Forbidden);
    }
    if userId.None? || userId.value == 0 || userId.value !in db.users {
      return Fail(BadRequest);
    }
    var u := db.users[userId.value].(companyId := Some(companyId));
    db.UpdateUser(u);
    reply := Ok(u);
  }

  /** `DELETE /users/companies/:id/users/:userId`: the user leaves whatever
      company they were in. */
  method UnassignFromCompany(db: Db, caller: Caller, userId: nat) returns (reply: Reply<User>)
    requires db.Valid()
    modifies db`users
    ensures db.Valid()
    ensures !IsAdmin(caller) ==> reply == Fail(Forbidden)
    ensures IsAdmin(caller) && userId !in old(db.users) ==> reply == Fail(BadRequest)
    ensures reply.Fail? ==> db.users == old(db.users)
    ensures reply.Ok? <==> IsAdmin(caller) && userId in old(db.users)
    ensures reply.Ok? ==> reply.value == old(db.users)[userId].(companyId := None)
    ensures reply.Ok? ==> db.users == old(db.users)[userId := reply.value]
  {
    if !IsAdmin(caller) {
      return Fail(Forbidden);
    }
    if userId !in db.users {
      return Fail(BadRequest);
    }
    var u := db.users[userId].(companyId := None);
    db.UpdateUser(u);
    reply := Ok(u);
  }
}
