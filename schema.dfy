/** The records of the relational store (the Prisma models the backend reads and
    writes), the payload of a signed token, and the authenticated caller that
    the JWT middleware attaches to a request. */
module Schema {
  import opened Common

  datatype Role = Customer | Agent | Admin

  datatype Status = New | Open | Pending | OnHold

  /** The `password` column: either a bcrypt hash (modelled by the secret it
      was computed from) or a plain string written without hashing, such as
      the placeholder `changeme`, which no bcrypt comparison accepts. */
  datatype Credential = Hashed(secret: string) | Plain(text: string)

  datatype User = User(
    id: nat,
    email: string,
    name: Option<string>,
    role: Role,
    invited: bool,
    password: Option<Credential>,
    notificationsEnabled: bool,
    extraEmails: seq<string>,
    companyId: Option<nat>,
    createdAt: nat)

  datatype Ticket = Ticket(
    id: nat,
    title: string,
    content: string,
    status: Status,
    userId: nat,
    cc: seq<string>,
    companyName: Option<string>,
    createdAt: nat)

  datatype Message = Message(id: nat, ticketId: nat, userId: nat, content: string, createdAt: nat)

  /** An attachment row; chat attachments reference their message, ticket
      attachments their ticket and uploader. */
  datatype FileRecord = FileRecord(
    id: nat,
    filename: string,
    url: string,
    size: nat,
    messageId: Option<nat>,
    ticketId: Option<nat>,
    uploadedById: Option<nat>)

  datatype Comment = Comment(id: nat, ticketId: nat, userId: nat, content: string, createdAt: nat)

  datatype Invite = Invite(
    id: nat,
    email: string,
    role: Role,
    invitedAt: nat,
    accepted: bool,
    acceptedAt: Option<nat>)

  datatype Company = Company(id: nat, name: string, domain: Option<string>)

  /** A row of the mail-template table; `kind` is its `type` column. */
  datatype Template = Template(id: nat, kind: string, subject: string, body: string)

  /** Column defaults of the user table for rows created without them. */
  const DefaultInvited: bool := true
  const DefaultNotificationsEnabled: bool := true

  /** The placeholder password written for users created without one. */
  const PlaceholderPassword: string := "changeme"

  /** The `type` claim of a signed token; session tokens carry none. */
  datatype TokenKind = SessionToken | InviteToken | ResetToken

  /** The claims of a signed token, as `jwt.verify` returns them. */
  datatype TokenPayload = TokenPayload(id: Option<nat>, email: string, role: Option<Role>, kind: TokenKind)

  /** `req.user` as the JWT middleware sets it from a verified token. */
  datatype Caller = Caller(id: Option<nat>, role: Option<Role>, email: string)

  function CallerOf(p: TokenPayload): (c: Caller)
    ensures c.id == p.id && c.role == p.role && c.email == p.email
    ensures AuthenticatedId(c).Some? <==> p.id.Some? && p.id.value != 0
  {
    Caller(p.id, p.role, p.email)
  }

  /** `req.user?.id`, when it is truthy (an id of 0 counts as absent). */
  function AuthenticatedId(c: Caller): (r: Option<nat>)
    ensures r.Some? ==> r.value != 0 && c.id == r
    ensures r.None? <==> c.id.None? || c.id.value == 0
  {
    if c.id.Some? && c.id.value != 0 then c.id else None
  }

  /** `req.user?.role === 'ADMIN'`. */
  predicate IsAdmin(c: Caller)
    ensures IsAdmin(c) <==> c.role.Some? && c.role.value.Admin?
  {
    c.role == Some(Admin)
  }
}
