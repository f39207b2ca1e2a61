/** The invite and account service of `backend/src/services/authService.ts`:
    invite, accept, the password check, the invite-mail template, login,
    the reset request and the reset itself. Every failure the service throws
    becomes a 400 in `backend/src/routes/auth.ts`. */
module AuthService {
  import opened Common
  import opened Text
  import opened Schema
  import opened Foreign
  import opened Notify
  import opened Store
  import opened Passwords

  /** Why a service call throws. */
  datatype AuthError =
    | AlreadyRegistered
    | AlreadyInvited
    | BadToken
    | NoPendingInvite
    | WeakPassword
    | UnknownUser
    | NoPassword
    | WrongPassword
    | MailFailed

  datatype AuthResult<+T> = Done(value: T) | Rejected(error: AuthError)

  const DefaultFrontendUrl := "http://localhost:3000"

  /** `process.env.FRONTEND_URL || 'http://localhost:3000'`. */
  function FrontendUrl(env: Option<string>): (url: string)
    ensures env.Some? && env.value != "" ==> url == env.value
    ensures env.None? || env.value == "" ==> url == DefaultFrontendUrl
  {
    if env.Some? && env.value != "" then env.value else DefaultFrontendUrl
  }

  // --------------------------------------------------------------- password

  /** `isValidPassword`: the length test on code units, then one bump of
      `types` per class that occurs. */
  method IsValidPassword(pw: string) returns (ok: bool)
    ensures ok == PasswordRule(pw)
  {
    if Utf16Length(pw) < 8 {
      return false;
    }
    var types := 0;
    if HasLetter(pw) {
      types := types + 1;
    }
    if HasDigit(pw) {
      types := types + 1;
    }
    if HasOther(pw) {
      types := types + 1;
    }
    ok := types >= 2;
  }

  // --------------------------------------------------------------- template

  const InviteUrlPlaceholder := "${inviteUrl}"
  const EmailPlaceholder := "${email}"

  /** The template body with every `${inviteUrl}` replaced, then every
      `${email}`. */
  function Substitute(body: string, inviteUrl: string, email: string): (s: string)
    ensures '$' !in body ==> s == body
    ensures body == InviteUrlPlaceholder && '$' !in inviteUrl ==> s == inviteUrl
    ensures body == EmailPlaceholder ==> s == email
  {
    ReplaceAll(ReplaceAll(body, InviteUrlPlaceholder, inviteUrl), EmailPlaceholder, email)
  }

  /** The invite mail: the built-in text around the link, or the stored
      template's subject and substituted body. */
  function InviteMailBody(template: Option<Template>, inviteUrl: string, email: string): (b: MailBody)
    ensures template.None? ==> b == DefaultInvite(inviteUrl)
    ensures template.Some? ==> b == TemplatedInvite(template.value.subject, Substitute(template.value.body, inviteUrl, email))
  {
    if template.None? then DefaultInvite(inviteUrl)
    else TemplatedInvite(template.value.subject, Substitute(template.value.body, inviteUrl, email))
  }

  /** A template writing each placeholder once, around texts free of `$`,
      with a link and an address free of `$`, reads as the texts with the link
      and the address in place. */
  lemma SubstituteBothPlaceholders(a: string, b: string, c: string, inviteUrl: string, email: string)
    requires '$' !in a && '$' !in b && '$' !in c && '$' !in inviteUrl && '$' !in email
    ensures Substitute(a + InviteUrlPlaceholder + b + EmailPlaceholder + c, inviteUrl, email)
      == a + inviteUrl + b + email + c
  {
    FirstPass(a, b, c, inviteUrl);
    var x := a + inviteUrl + b;
    assert '$' !in x;
    SecondPass(x, c, email);
    assert a + inviteUrl + b + EmailPlaceholder + c == x + EmailPlaceholder + c;
    assert x + email + c == a + inviteUrl + b + email + c;
  }

  /** The `${inviteUrl}` pass replaces the one link placeholder only. */
  lemma FirstPass(a: string, b: string, c: string, inviteUrl: string)
    requires '$' !in a && '$' !in b && '$' !in c
    ensures ReplaceAll(a + InviteUrlPlaceholder + b + EmailPlaceholder + c, InviteUrlPlaceholder, inviteUrl)
      == a + inviteUrl + b + EmailPlaceholder + c
  {
    var p1, p2 := InviteUrlPlaceholder, EmailPlaceholder;
    var tail := p2 + c;
    EmailPlaceholderSurvives(c, inviteUrl);
    NoLeadCharSkips(b, tail, p1, inviteUrl);
    ReplaceAllMatch(b + tail, p1, inviteUrl);
    NoLeadCharSkips(a, p1 + (b + tail), p1, inviteUrl);
    Regroup(a, p1, b, p2, c);
    Regroup(a, inviteUrl, b, p2, c);
  }

  /** Five strings joined from the left or from the right. */
  lemma Regroup(a: string, b: string, c: string, d: string, e: string)
    ensures a + b + c + d + e == a + (b + (c + (d + e)))
  {
  }

  /** The `${email}` pass, on a `$`-free text, replaces the one address
      placeholder only. */
  lemma SecondPass(x: string, c: string, email: string)
    requires '$' !in x && '$' !in c
    ensures ReplaceAll(x + EmailPlaceholder + c, EmailPlaceholder, email) == x + email + c
  {
    var p2 := EmailPlaceholder;
    NoDollarUnchanged(c, p2, email);
    ReplaceAllMatch(c, p2, email);
    NoLeadCharSkips(x, p2 + c, p2, email);
    assert x + p2 + c == x + (p2 + c);
    assert x + (email + c) == x + email + c;
  }

  /** The first pass leaves a `${email}` (and a `$`-free rest) alone. */
  lemma EmailPlaceholderSurvives(c: string, inviteUrl: string)
    requires '$' !in c
    ensures ReplaceAll(EmailPlaceholder + c, InviteUrlPlaceholder, inviteUrl) == EmailPlaceholder + c
  {
    var p1, p2 := InviteUrlPlaceholder, EmailPlaceholder;
    var s := p2 + c;
    if |s| >= |p1| {
      assert s[..|p1|] != p1 by {
        assert s[..|p1|][2] == 'e' && p1[2] == 'i';
      }
      assert s[1..] == p2[1..] + c;
      assert '$' !in p2[1..];
      NoLeadCharSkips(p2[1..], c, p1, inviteUrl);
      NoDollarUnchanged(c, p1, inviteUrl);
      assert [s[0]] + (p2[1..] + c) == s;
    }
  }

  /** A text without `$` holds no placeholder. */
  lemma NoDollarUnchanged(t: string, p: string, r: string)
    requires |p| > 0 && p[0] == '$' && '$' !in t
    ensures ReplaceAll(t, p, r) == t
  {
    NoLeadCharSkips(t, [], p, r);
    assert t + [] == t;
  }

  // ----------------------------------------------------------------- invite

  /** The checks of `inviteUser`, in order: no user with that email, no
      pending invite for it. */
  function InviteCheck(users: map<nat, User>, invites: map<string, Invite>, email: string): (e: Option<AuthError>)
    requires UsersKeyed(users) && EmailsUnique(users)
    ensures e == Some(AlreadyRegistered) <==> UserWithEmail(users, email).Some?
    ensures e == Some(AlreadyInvited) <==> UserWithEmail(users, email).None? && email in invites && !invites[email].accepted
    ensures e.None? <==> UserWithEmail(users, email).None? && (email !in invites || invites[email].accepted)
  {
    if UserWithEmail(users, email).Some? then Some(AlreadyRegistered)
    else if email in invites && !invites[email].accepted then Some(AlreadyInvited)
    else None
  }

  /** The link of the invite mail. */
  function InviteUrl(codecs: Codecs, env: Option<string>, email: string, role: Role): (url: string)
    ensures var page := FrontendUrl(env) + "/accept-invite?token=";
      |page| <= |url| && url[..|page|] == page
      && url[|page|..] == codecs.signToken(TokenPayload(None, email, Some(role), InviteToken))
  {
    FrontendUrl(env) + "/accept-invite?token=" + codecs.signToken(TokenPayload(None, email, Some(role), InviteToken))
  }

  /** `inviteUser`. `mailFails` says whether `sendMail` throws; the invite is
      stored by then. The second result is the mail handed to `sendMail`. */
  method InviteUser(db: Db, codecs: Codecs, env: Option<string>, email: string, role: Role, mailFails: bool)
    returns (r: AuthResult<string>, mail: Option<Mail>)
    requires db.Valid()
    modifies db`invites, db`nextId, db`clock
    ensures db.Valid()
    ensures var e := InviteCheck(old(db.users), old(db.invites), email);
      e.Some? ==> r == Rejected(e.value) && db.invites == old(db.invites) && mail == None
    ensures InviteCheck(old(db.users), old(db.invites), email).None? ==>
      var token := codecs.signToken(TokenPayload(None, email, Some(role), InviteToken));
      var id := if email in old(db.invites) then old(db.invites)[email].id else old(db.nextId);
      db.invites == old(db.invites)[email := Invite(id, email, role, old(db.clock), false, None)]
      && mail == Some(Mail([email], None, InviteMailBody(TemplateOfKind(db.templates, "invite"), InviteUrl(codecs, env, email, role), email)))
      && r == (if mailFails then Rejected(MailFailed) else Done(token))
  {
    var e := InviteCheck(db.users, db.invites, email);
    if e.Some? {
      return Rejected(e.value), None;
    }
    if email in db.invites {
      var at := db.Now();
      db.UpdateInvite(db.invites[email].(role := role, invitedAt := at, accepted := false, acceptedAt := None));
    } else {
      var inv := db.CreateInvite(email, role);
    }
    var token := codecs.signToken(TokenPayload(None, email, Some(role), InviteToken));
    var url := FrontendUrl(env) + "/accept-invite?token=" + token;
    var body := InviteMailBody(TemplateOfKind(db.templates, "invite"), url, email);
    mail := Some(Mail([email], None, body));
    r := if mailFails then Rejected(MailFailed) else Done(token);
  }

  /** An accepted invite whose user is gone can be sent again, and that
      makes it pending once more. */
  lemma ReinviteAfterUserRemoved(users: map<nat, User>, invites: map<string, Invite>, email: string)
    requires UsersKeyed(users) && EmailsUnique(users)
    requires email in invites && invites[email].accepted
    requires forall id :: id in users ==> users[id].email != email
    ensures InviteCheck(users, invites, email).None?
  {
  }

  // ----------------------------------------------------------------- accept

  /** The checks of `acceptInvite`, in order; `payload` is None when
      `verifyToken` throws. */
  function AcceptCheck(users: map<nat, User>, invites: map<string, Invite>, payload: Option<TokenPayload>, password: string)
    : (e: Option<AuthError>)
    requires UsersKeyed(users) && EmailsUnique(users)
    ensures e.None? <==> (payload.Some? && payload.value.kind == InviteToken
                         && UserWithEmail(users, payload.value.email).None?
                         && payload.value.email in invites && !invites[payload.value.email].accepted
                         && PasswordRule(password))
    ensures (payload.None? || payload.value.kind != InviteToken) ==> e == Some(BadToken)
    ensures payload.Some? && payload.value.kind == InviteToken && UserWithEmail(users, payload.value.email).Some? ==>
      e == Some(AlreadyRegistered)
  {
    if payload.None? || payload.value.kind != InviteToken then Some(BadToken)
    else if UserWithEmail(users, payload.value.email).Some? then Some(AlreadyRegistered)
    else if payload.value.email !in invites || invites[payload.value.email].accepted then Some(NoPendingInvite)
    else if !PasswordRule(password) then Some(WeakPassword)
    else None
  }

  /** `payload.role as Role`; an invite token always carries one, and the
      column default `CUSTOMER` is assumed otherwise. */
  function InvitedRole(p: TokenPayload): (r: Role)
    ensures p.role.Some? ==> r == p.role.value
    ensures p.role.None? ==> r == Customer
  {
    p.role.GetOr(Customer)
  }

  /** `acceptInvite`: on success exactly one user is created, with the
      token's email and role, not flagged invited and with the hashed
      password, and the invite is marked accepted; a failed check changes
      nothing. */
  method AcceptInvite(db: Db, payload: Option<TokenPayload>, password: string) returns (r: AuthResult<User>)
    requires db.Valid()
    modifies db`users, db`invites, db`nextId, db`clock
    ensures db.Valid()
    ensures var e := AcceptCheck(old(db.users), old(db.invites), payload, password);
      if e.Some? then r == Rejected(e.value) && db.users == old(db.users) && db.invites == old(db.invites)
      else
        var email := payload.value.email;
        r.Done? && r.value == User(old(db.nextId), email, None, InvitedRole(payload.value), false, Some(Hashed(password)),
                                   DefaultNotificationsEnabled, [], None, old(db.clock))
        && db.users == old(db.users)[r.value.id := r.value] && r.value.id !in old(db.users)
        && db.invites == old(db.invites)[email := old(db.invites)[email].(accepted := true, acceptedAt := Some(old(db.clock) + 1))]
  {
    var e := AcceptCheck(db.users, db.invites, payload, password);
    if e.Some? {
      return Rejected(e.value);
    }
    var ok := IsValidPassword(password);
    assert ok;
    var u := CreateInvitedUser(db, payload.value.email, InvitedRole(payload.value), password);
    r := Done(u);
  }

  /** The writes of a passed `acceptInvite`: the user row, then the invite
      marked accepted one clock tick later. */
  method CreateInvitedUser(db: Db, email: string, role: Role, password: string) returns (u: User)
    requires db.Valid() && UserWithEmail(db.users, email).None? && email in db.invites
    modifies db`users, db`invites, db`nextId, db`clock
    ensures db.Valid()
    ensures u == User(old(db.nextId), email, None, role, false, Some(Hashed(password)),
                      DefaultNotificationsEnabled, [], None, old(db.clock))
    ensures db.users == old(db.users)[u.id := u] && u.id !in old(db.users)
    ensures db.invites == old(db.invites)[email := old(db.invites)[email].(accepted := true, acceptedAt := Some(old(db.clock) + 1))]
  {
    u := db.CreateUser(email, None, role, false, Some(Hashed(password)));
    var at := db.Now();
    db.UpdateInvite(db.invites[email].(accepted := true, acceptedAt := Some(at)));
  }

  /** Once a user with the token's email exists (as the first acceptance
      leaves it), the same token is refused. */
  lemma SecondAcceptRefused(users: map<nat, User>, invites: map<string, Invite>, p: TokenPayload, password: string, u: User)
    requires UsersKeyed(users) && EmailsUnique(users)
    requires p.kind == InviteToken && u.id in users && users[u.id] == u && u.email == p.email
    ensures AcceptCheck(users, invites, Some(p), password) == Some(AlreadyRegistered)
  {
    assert UserWithEmail(users, p.email).Some?;
  }

  // ------------------------------------------------------------------ login

  /** `comparePassword`: a bcrypt hash matches the password it was made
      from; an unhashed value (the `changeme` placeholder) matches nothing. */
  predicate CredentialMatches(c: Credential, password: string)
    ensures CredentialMatches(c, password) <==> c == Hashed(password)
    ensures c.Plain? ==> !CredentialMatches(c, password)
  {
    c.Hashed? && c.secret == password
  }

  /** `!user.password`, negated: the column holds a non-empty string. A
      bcrypt hash is never empty, even the hash of the empty password, so
      only an unhashed empty value counts as no password. */
  predicate HasPassword(c: Option<Credential>) {
    c.Some? && !(c.value.Plain? && c.value.text == "")
  }

  datatype LoginResult = LoginResult(token: string, id: nat, email: string, role: Role)

  /** `login`: unknown or still-invited users, users without a password and
      wrong passwords are refused, in that order; otherwise the session token
      and the stored id, email and role. */
  function Login(users: map<nat, User>, codecs: Codecs, email: string, password: string): (r: AuthResult<LoginResult>)
    requires UsersKeyed(users) && EmailsUnique(users)
    ensures var u := UserWithEmail(users, email);
      (u.None? || u.value.invited ==> r == Rejected(UnknownUser))
      && (u.Some? && !u.value.invited && !HasPassword(u.value.password) ==> r == Rejected(NoPassword))
      && (u.Some? && !u.value.invited && HasPassword(u.value.password) && !CredentialMatches(u.value.password.value, password)
          ==> r == Rejected(WrongPassword))
    ensures r.Done? <==> var u := UserWithEmail(users, email);
      u.Some? && !u.value.invited && HasPassword(u.value.password) && CredentialMatches(u.value.password.value, password)
    ensures r.Done? ==> exists id :: (id in users && users[id].email == email
      && r.value == LoginResult(codecs.signToken(TokenPayload(Some(id), email, Some(users[id].role), SessionToken)), id, email, users[id].role))
  {
    var u := UserWithEmail(users, email);
    if u.None? || u.value.invited then Rejected(UnknownUser)
    else if !HasPassword(u.value.password) then Rejected(NoPassword)
    else if !CredentialMatches(u.value.password.value, password) then Rejected(WrongPassword)
    else
      var v := u.value;
      Done(LoginResult(codecs.signToken(TokenPayload(Some(v.id), v.email, Some(v.role), SessionToken)), v.id, v.email, v.role))
  }

  /** A user created with the placeholder password cannot log in, whatever
      they type. */
  lemma PlaceholderNeverLogsIn(users: map<nat, User>, codecs: Codecs, u: User, password: string)
    requires UsersValid(users, u.id + 1) && u.id in users && users[u.id] == u
    requires u.password == Some(Plain(PlaceholderPassword))
    ensures Login(users, codecs, u.email, password).Rejected?
  {
    UserWithEmailUnique(users, u.id + 1, u);
  }

  /** A user who is no longer flagged invited and holds a hashed password
      logs in with exactly that password. */
  lemma HashedUserLogsIn(users: map<nat, User>, codecs: Codecs, u: User, password: string, nextId: nat)
    requires UsersValid(users, nextId) && u.id in users && users[u.id] == u
    requires !u.invited && u.password == Some(Hashed(password))
    ensures Login(users, codecs, u.email, password).Done?
    ensures forall other :: other != password ==> Login(users, codecs, u.email, other) == Rejected(WrongPassword)
  {
    UserWithEmailUnique(users, nextId, u);
  }

  /** The caller the JWT middleware builds from the session token `login`
      issues is authenticated as the stored user with that email, and passes
      the ADMIN gate exactly when that user's stored role is ADMIN. The
      caller built from an invite token carries no id, whatever its role. */
  lemma SessionCallerIsStoredUser(users: map<nat, User>, codecs: Codecs, email: string, password: string, nextId: nat, inviteRole: Role)
    requires UsersValid(users, nextId)
    requires Login(users, codecs, email, password).Done?
    ensures var r := Login(users, codecs, email, password).value;
      var c := CallerOf(TokenPayload(Some(r.id), r.email, Some(r.role), SessionToken));
      && r.token == codecs.signToken(TokenPayload(Some(r.id), r.email, Some(r.role), SessionToken))
      && r.id in users && users[r.id].email == email
      && AuthenticatedId(c) == Some(r.id)
      && (IsAdmin(c) <==> users[r.id].role == Admin)
    ensures AuthenticatedId(CallerOf(TokenPayload(None, email, Some(inviteRole), InviteToken))).None?
  {
    var r := Login(users, codecs, email, password).value;
    var id :| id in users && users[id].email == email
      && r == LoginResult(codecs.signToken(TokenPayload(Some(id), email, Some(users[id].role), SessionToken)), id, email, users[id].role);
  }

  // ------------------------------------------------------------------ reset

  /** `requestReset`: the mail with the reset link for a known email.
      `mailFails` stands for `sendMail` rejecting; the service awaits it
      without a catch, so that failure is the result. */
  function RequestReset(users: map<nat, User>, codecs: Codecs, env: Option<string>, email: string, mailFails: bool): (r: AuthResult<Mail>)
    requires UsersKeyed(users) && EmailsUnique(users)
    ensures UserWithEmail(users, email).None? ==> r == Rejected(UnknownUser)
    ensures UserWithEmail(users, email).Some? && mailFails ==> r == Rejected(MailFailed)
    ensures r.Done? <==> UserWithEmail(users, email).Some? && !mailFails
    ensures r.Done? ==> var u := UserWithEmail(users, email).value;
      r.value == Mail([email], None, ResetMail(FrontendUrl(env) + "/reset-password?token="
        + codecs.signToken(TokenPayload(Some(u.id), email, None, ResetToken))))
  {
    var u := UserWithEmail(users, email);
    if u.None? then Rejected(UnknownUser)
    else if mailFails then Rejected(MailFailed)
    else
      var token := codecs.signToken(TokenPayload(Some(u.value.id), u.value.email, None, ResetToken));
      Done(Mail([u.value.email], None, ResetMail(FrontendUrl(env) + "/reset-password?token=" + token)))
  }

  /** The checks of `resetPassword`: a reset token naming an existing user. */
  function ResetCheck(users: map<nat, User>, payload: Option<TokenPayload>): (e: Option<AuthError>)
    ensures e.None? <==> payload.Some? && payload.value.kind == ResetToken && payload.value.id.Some? && payload.value.id.value in users
  {
    if payload.None? || payload.value.kind != ResetToken then Some(BadToken)
    else if payload.value.id.None? || payload.value.id.value !in users then Some(UnknownUser)
    else None
  }

  /** `resetPassword`: only the password and the invited flag of that user
      change; the new password is not checked against the rule. */
  method ResetPassword(db: Db, payload: Option<TokenPayload>, password: string) returns (r: AuthResult<bool>)
    requires db.Valid()
    modifies db`users
    ensures db.Valid()
    ensures var e := ResetCheck(old(db.users), payload);
      if e.Some? then r == Rejected(e.value) && db.users == old(db.users)
      else
        var id := payload.value.id.value;
        r == Done(true)
        && db.users == old(db.users)[id := old(db.users)[id].(password := Some(Hashed(password)), invited := false)]
  {
    var e := ResetCheck(db.users, payload);
    if e.Some? {
      return Rejected(e.value);
    }
    var id := payload.value.id.value;
    db.UpdateUser(db.users[id].(password := Some(Hashed(password)), invited := false));
    r := Done(true);
  }

  /** After a reset the user can log in with the new password, even one the
      acceptance rule would refuse, the empty one included. */
  lemma ResetUserLogsIn(users: map<nat, User>, codecs: Codecs, id: nat, password: string, nextId: nat)
    requires UsersValid(users, nextId) && id in users
    ensures var u := users[id].(password := Some(Hashed(password)), invited := false);
      var after := users[id := u];
      UsersValid(after, nextId) && Login(after, codecs, u.email, password).Done?
  {
    var u := users[id].(password := Some(Hashed(password)), invited := false);
    UsersUpdate(users, u, nextId);
    UserWithEmailUnique(users[id := u], nextId, u);
  }
}
