/** The relational store the handlers read and write, as in-memory tables: users,
    invites and companies keyed by id or email, tickets, messages, files,
    comments and mail templates as rows in insertion order. One counter hands
    out row ids and one clock hands out creation times, so ids are unique and
    rows stay in `createdAt` order. */
module Store {
  import opened Common
  import opened Seqs
  import opened Schema

  /** Ids grow along the rows and lie in `1 .. nextId - 1`. */
  predicate IdsValid<T>(rows: seq<T>, id: T -> int, nextId: nat) {
    IncreasingBy(rows, id) && forall i :: 0 <= i < |rows| ==> 0 < id(rows[i]) < nextId
  }

  /** Ids as above, and creation times grow along the rows and lie before `clock`. */
  predicate RowsValid<T>(rows: seq<T>, id: T -> int, at: T -> int, nextId: nat, clock: nat) {
    IdsValid(rows, id, nextId) && IncreasingBy(rows, at)
    && forall i :: 0 <= i < |rows| ==> 0 <= at(rows[i]) < clock
  }

  function TicketKey(t: Ticket): int { t.id }
  function TicketStamp(t: Ticket): int { t.createdAt }
  function MessageKey(m: Message): int { m.id }
  function MessageStamp(m: Message): int { m.createdAt }
  function CommentKey(c: Comment): int { c.id }
  function CommentStamp(c: Comment): int { c.createdAt }
  function FileKey(f: FileRecord): int { f.id }
  function TemplateKey(t: Template): int { t.id }

  /** The unique index on `User.email`. */
  predicate EmailsUnique(users: map<nat, User>) {
    forall a, b :: a in users && b in users && users[a].email == users[b].email ==> a == b
  }

  /** Every user is stored under its own id. */
  predicate UsersKeyed(users: map<nat, User>) {
    forall id :: id in users ==> users[id].id == id
  }

  predicate UsersValid(users: map<nat, User>, nextId: nat) {
    UsersKeyed(users) && EmailsUnique(users) && forall id :: id in users ==> 0 < id < nextId
  }

  /** Invites are keyed by their (unique) email and have unique ids. */
  predicate InvitesValid(invites: map<string, Invite>, nextId: nat) {
    (forall e :: e in invites ==> invites[e].email == e && 0 < invites[e].id < nextId)
    && (forall a, b :: a in invites && b in invites && invites[a].id == invites[b].id ==> a == b)
  }

  predicate CompaniesValid(companies: map<nat, Company>, nextId: nat) {
    forall id :: id in companies ==> companies[id].id == id && 0 < id < nextId
  }

  /** A row appended with the next id and the current time keeps the table valid. */
  lemma RowsAppend<T>(rows: seq<T>, x: T, id: T -> int, at: T -> int, nextId: nat, clock: nat)
    requires RowsValid(rows, id, at, nextId, clock)
    requires id(x) == nextId as int && at(x) == clock as int && nextId > 0
    ensures RowsValid(rows + [x], id, at, nextId + 1, clock + 1)
  {
    var r := rows + [x];
    forall i, j | 0 <= i < j < |r| ensures id(r[i]) < id(r[j]) && at(r[i]) < at(r[j]) {
      if j < |rows| {
        assert r[i] == rows[i] && r[j] == rows[j];
      } else {
        assert r[i] == rows[i];
      }
    }
  }

  lemma IdsAppend<T>(rows: seq<T>, x: T, id: T -> int, nextId: nat)
    requires IdsValid(rows, id, nextId)
    requires id(x) == nextId as int && nextId > 0
    ensures IdsValid(rows + [x], id, nextId + 1)
  {
    var r := rows + [x];
    forall i, j | 0 <= i < j < |r| ensures id(r[i]) < id(r[j]) {
      if j < |rows| {
        assert r[i] == rows[i] && r[j] == rows[j];
      } else {
        assert r[i] == rows[i];
      }
    }
  }

  /** Dropping rows keeps the table valid. */
  lemma RowsFilter<T(!new)>(rows: seq<T>, keep: T -> bool, id: T -> int, at: T -> int, nextId: nat, clock: nat)
    requires RowsValid(rows, id, at, nextId, clock)
    ensures RowsValid(Filter(rows, keep), id, at, nextId, clock)
  {
    FilterIncreasing(rows, keep, id);
    FilterIncreasing(rows, keep, at);
    var r := Filter(rows, keep);
    forall i | 0 <= i < |r| ensures 0 < id(r[i]) < nextId && 0 <= at(r[i]) < clock {
      assert r[i] in rows;
    }
  }

  lemma IdsFilter<T(!new)>(rows: seq<T>, keep: T -> bool, id: T -> int, nextId: nat)
    requires IdsValid(rows, id, nextId)
    ensures IdsValid(Filter(rows, keep), id, nextId)
  {
    FilterIncreasing(rows, keep, id);
    var r := Filter(rows, keep);
    forall i | 0 <= i < |r| ensures 0 < id(r[i]) < nextId {
      assert r[i] in rows;
    }
  }

  /** Replacing a row by one with the same id and time keeps the table valid. */
  lemma RowsReplace<T>(rows: seq<T>, k: nat, x: T, id: T -> int, at: T -> int, nextId: nat, clock: nat)
    requires RowsValid(rows, id, at, nextId, clock) && k < |rows|
    requires id(x) == id(rows[k]) && at(x) == at(rows[k])
    ensures RowsValid(rows[k := x], id, at, nextId, clock)
  {
    var r := rows[k := x];
    forall i, j | 0 <= i < j < |r| ensures id(r[i]) < id(r[j]) && at(r[i]) < at(r[j]) {
      assert id(rows[i]) < id(rows[j]) && at(rows[i]) < at(rows[j]);
    }
  }

  lemma IdsReplace<T>(rows: seq<T>, k: nat, x: T, id: T -> int, nextId: nat)
    requires IdsValid(rows, id, nextId) && k < |rows| && id(x) == id(rows[k])
    ensures IdsValid(rows[k := x], id, nextId)
  {
    var r := rows[k := x];
    forall i, j | 0 <= i < j < |r| ensures id(r[i]) < id(r[j]) {
      assert id(rows[i]) < id(rows[j]);
    }
  }

  /** With increasing ids, the row with a given id is the only one. */
  lemma UniqueId<T>(rows: seq<T>, id: T -> int, i: nat, j: nat)
    requires IncreasingBy(rows, id) && i < |rows| && j < |rows| && id(rows[i]) == id(rows[j])
    ensures i == j
  {
  }

  /** The index of the row with id `id`, or -1: `findUnique({ where: { id } })`. */
  function IndexOfId<T>(rows: seq<T>, id: T -> int, key: int): (i: int)
    ensures -1 <= i < |rows|
    ensures i >= 0 ==> id(rows[i]) == key
    ensures i < 0 <==> forall j :: 0 <= j < |rows| ==> id(rows[j]) != key
  {
    FirstIndex(rows, (x: T) => id(x) == key)
  }

  /** `findUnique({ where: { email } })` on the user table. */
  function UserWithEmail(users: map<nat, User>, email: string): (r: Option<User>)
    requires UsersKeyed(users) && EmailsUnique(users)
    ensures r.None? <==> forall id :: id in users ==> users[id].email != email
    ensures r.Some? ==> r.value.id in users && users[r.value.id] == r.value && r.value.email == email
  {
    if exists id :: id in users && users[id].email == email then
      var id :| id in users && users[id].email == email;
      Some(users[id])
    else None
  }

  /** `findUnique({ where: { id } })` on the user table. */
  function UserWithId(users: map<nat, User>, id: nat): (r: Option<User>)
    ensures r.Some? <==> id in users
    ensures r.Some? ==> r.value == users[id]
  {
    if id in users then Some(users[id]) else None
  }

  /** The two user lookups agree: the user found by id is stored under that
      id, and looking up its email finds that same user again. */
  lemma UserLookupsAgree(users: map<nat, User>, nextId: nat, id: nat)
    requires UsersValid(users, nextId)
    ensures var u := UserWithId(users, id);
      u.Some? ==> u.value.id == id && UserWithEmail(users, u.value.email) == u
  {
    if id in users {
      UserWithEmailUnique(users, nextId, users[id]);
    }
  }

  /** A user with a fresh id and an unused email keeps the user table valid. */
  lemma UsersInsert(users: map<nat, User>, u: User, nextId: nat)
    requires UsersValid(users, nextId) && u.id == nextId > 0
    requires forall id :: id in users ==> users[id].email != u.email
    ensures UsersValid(users[u.id := u], nextId + 1)
  {
    var us := users[u.id := u];
    forall a, b | a in us && b in us && us[a].email == us[b].email ensures a == b {
      if a != u.id && b != u.id {
        assert us[a] == users[a] && us[b] == users[b];
      }
    }
  }

  lemma UserWithEmailUnique(users: map<nat, User>, nextId: nat, u: User)
    requires UsersValid(users, nextId) && u.id in users && users[u.id] == u
    ensures UserWithEmail(users, u.email) == Some(u)
  {
  }

  /** Rewriting a user under its id, email unchanged, keeps the table valid. */
  lemma UsersUpdate(users: map<nat, User>, u: User, nextId: nat)
    requires UsersValid(users, nextId) && u.id in users && u.email == users[u.id].email
    ensures UsersValid(users[u.id := u], nextId)
  {
    var us := users[u.id := u];
    forall a, b | a in us && b in us && us[a].email == us[b].email ensures a == b {
      assert us[a].email == users[a].email && us[b].email == users[b].email;
    }
  }

  /** A new invite with a fresh id and an email not yet invited keeps the
      invite table valid. */
  lemma InvitesInsert(invites: map<string, Invite>, inv: Invite, nextId: nat)
    requires InvitesValid(invites, nextId) && inv.email !in invites && inv.id == nextId > 0
    ensures InvitesValid(invites[inv.email := inv], nextId + 1)
  {
  }

  /** Rewriting an invite under its email, id unchanged, keeps the table valid. */
  lemma InvitesUpdate(invites: map<string, Invite>, inv: Invite, nextId: nat)
    requires InvitesValid(invites, nextId) && inv.email in invites && inv.id == invites[inv.email].id
    ensures InvitesValid(invites[inv.email := inv], nextId)
  {
    var vs := invites[inv.email := inv];
    forall a, b | a in vs && b in vs && vs[a].id == vs[b].id ensures a == b {
      assert vs[a].id == invites[a].id && vs[b].id == invites[b].id;
    }
  }

  /** The invites whose id is not `id`. */
  function InvitesWithout(invites: map<string, Invite>, id: nat): (r: map<string, Invite>)
    ensures forall e :: e in r <==> e in invites && invites[e].id != id
    ensures forall e :: e in r ==> r[e] == invites[e]
  {
    map e | e in invites && invites[e].id != id :: invites[e]
  }

  /** The invite with id `id`, if any. */
  predicate HasInviteId(invites: map<string, Invite>, id: nat) {
    exists e :: e in invites && invites[e].id == id
  }

  /** `findFirst({ where: { type } })` on the template table. */
  function TemplateOfKind(templates: seq<Template>, kind: string): (r: Option<Template>)
    ensures r.None? <==> forall i :: 0 <= i < |templates| ==> templates[i].kind != kind
    ensures r.Some? ==> r.value in templates && r.value.kind == kind
  {
    var k := TemplateIndex(templates, kind);
    if k < 0 then None else Some(templates[k])
  }

  /** The position of the first template of a kind, or -1. */
  function TemplateIndex(templates: seq<Template>, kind: string): (k: int)
    ensures -1 <= k < |templates|
    ensures k >= 0 ==> templates[k].kind == kind
    ensures forall j :: 0 <= j < |templates| && (k < 0 || j < k) ==> templates[j].kind != kind
  {
    FirstIndex(templates, (t: Template) => t.kind == kind)
  }

  /** The messages of one ticket. */
  function OfTicket(ticketId: nat): Message -> bool {
    (m: Message) => m.ticketId == ticketId
  }

  /** `message.findMany({ where: { ticketId }, orderBy: { createdAt: 'asc' } })`
      on a valid table: the ticket's messages in table order (see
      `MessagesOfAscending`). */
  function MessagesOf(messages: seq<Message>, ticketId: nat): (ms: seq<Message>)
    ensures forall m :: m in ms <==> m in messages && m.ticketId == ticketId
  {
    Filter(messages, OfTicket(ticketId))
  }

  /** The ticket's messages come oldest first. */
  lemma MessagesOfAscending(messages: seq<Message>, ticketId: nat, nextId: nat, clock: nat)
    requires RowsValid(messages, MessageKey, MessageStamp, nextId, clock)
    ensures var ms := MessagesOf(messages, ticketId);
      forall i, j :: 0 <= i < j < |ms| ==> ms[i].createdAt < ms[j].createdAt
  {
    FilterIncreasing(messages, OfTicket(ticketId), MessageStamp);
    var ms := MessagesOf(messages, ticketId);
    forall i, j | 0 <= i < j < |ms| ensures ms[i].createdAt < ms[j].createdAt {
      assert MessageStamp(ms[i]) < MessageStamp(ms[j]);
    }
  }

  class Db {
    var users: map<nat, User>
    var invites: map<string, Invite>
    var companies: map<nat, Company>
    var tickets: seq<Ticket>
    var messages: seq<Message>
    var files: seq<FileRecord>
    var comments: seq<Comment>
    var templates: seq<Template>
    var nextId: nat
    var clock: nat

    ghost predicate Valid()
      reads this
    {
      nextId > 0
      && UsersValid(users, nextId) && InvitesValid(invites, nextId) && CompaniesValid(companies, nextId)
      && RowsValid(tickets, TicketKey, TicketStamp, nextId, clock)
      && RowsValid(messages, MessageKey, MessageStamp, nextId, clock)
      && RowsValid(comments, CommentKey, CommentStamp, nextId, clock)
      && IdsValid(files, FileKey, nextId)
      && IdsValid(templates, TemplateKey, nextId)
    }

    /** An empty database. */
    constructor ()
      ensures Valid()
      ensures users == map[] && invites == map[] && companies == map[]
      ensures tickets == [] && messages == [] && files == [] && comments == [] && templates == []
    {
      users, invites, companies := map[], map[], map[];
      tickets, messages, files, comments, templates := [], [], [], [], [];
      nextId, clock := 1, 0;
    }

    /** The id the database assigns to the next row. */
    method NewId() returns (id: nat)
      requires Valid()
      modifies this`nextId
      ensures Valid() && id == old(nextId) && nextId == id + 1 && id > 0
    {
      id := nextId;
      nextId := nextId + 1;
    }

    /** `new Date()` at the next insert. */
    method Now() returns (t: nat)
      requires Valid()
      modifies this`clock
      ensures Valid() && t == old(clock) && clock == t + 1
    {
      t := clock;
      clock := clock + 1;
    }
  
    /** `prisma.user.create`: a fresh id, the current time, no extra emails, no
        company, notifications at their column default. */
    method CreateUser(email: string, name: Option<string>, role: Role, invited: bool, password: Option<Credential>)
      returns (u: User)
      requires Valid() && UserWithEmail(users, email).None?
      modifies this`users, this`nextId, this`clock
      ensures Valid()
      ensures u == User(old(nextId), email, name, role, invited, password, DefaultNotificationsEnabled, [], None, old(clock))
      ensures u.id !in old(users) && users == old(users)[u.id := u]
      ensures nextId == old(nextId) + 1 && clock == old(clock) + 1
    {
      var id := NewId();
      var at := Now();
      u := User(id, email, name, role, invited, password, DefaultNotificationsEnabled, [], None, at);
      UsersInsert(users, u, id);
      users := users[id := u];
    }

    /** `prisma.ticket.create`. */
    method CreateTicket(title: string, content: string, userId: nat, status: Status, cc: seq<string>, companyName: Option<string>)
      returns (t: Ticket)
      requires Valid()
      modifies this`tickets, this`nextId, this`clock
      ensures Valid()
      ensures t == Ticket(old(nextId), title, content, status, userId, cc, companyName, old(clock))
      ensures tickets == old(tickets) + [t]
      ensures nextId == old(nextId) + 1 && clock == old(clock) + 1
    {
      var id := NewId();
      var at := Now();
      t := Ticket(id, title, content, status, userId, cc, companyName, at);
      RowsAppend(tickets, t, TicketKey, TicketStamp, id, at);
      tickets := tickets + [t];
    }

    /** `prisma.message.create`. */
    method CreateMessage(ticketId: nat, userId: nat, content: string) returns (m: Message)
      requires Valid()
      modifies this`messages, this`nextId, this`clock
      ensures Valid()
      ensures m == Message(old(nextId), ticketId, userId, content, old(clock))
      ensures messages == old(messages) + [m]
      ensures nextId == old(nextId) + 1 && clock == old(clock) + 1
    {
      var id := NewId();
      var at := Now();
      m := Message(id, ticketId, userId, content, at);
      RowsAppend(messages, m, MessageKey, MessageStamp, id, at);
      messages := messages + [m];
    }

    /** `prisma.comment.create`. */
    method CreateComment(ticketId: nat, userId: nat, content: string) returns (c: Comment)
      requires Valid()
      modifies this`comments, this`nextId, this`clock
      ensures Valid()
      ensures c == Comment(old(nextId), ticketId, userId, content, old(clock))
      ensures comments == old(comments) + [c]
      ensures nextId == old(nextId) + 1 && clock == old(clock) + 1
    {
      var id := NewId();
      var at := Now();
      c := Comment(id, ticketId, userId, content, at);
      RowsAppend(comments, c, CommentKey, CommentStamp, id, at);
      comments := comments + [c];
    }

    /** `prisma.file.create`. */
    method CreateFile(filename: string, url: string, size: nat, messageId: Option<nat>, ticketId: Option<nat>, uploadedById: Option<nat>)
      returns (f: FileRecord)
      requires Valid()
      modifies this`files, this`nextId
      ensures Valid()
      ensures f == FileRecord(old(nextId), filename, url, size, messageId, ticketId, uploadedById)
      ensures files == old(files) + [f]
      ensures nextId == old(nextId) + 1
    {
      var id := NewId();
      f := FileRecord(id, filename, url, size, messageId, ticketId, uploadedById);
      IdsAppend(files, f, FileKey, id);
      files := files + [f];
    }
    /** `prisma.ticket.delete` / `deleteMany`: the rows `keep` rejects go. */
    method DeleteTickets(keep: Ticket -> bool)
      requires Valid()
      modifies this`tickets
      ensures Valid() && tickets == Filter(old(tickets), keep)
    {
      RowsFilter(tickets, keep, TicketKey, TicketStamp, nextId, clock);
      tickets := Filter(tickets, keep);
    }

    /** `prisma.message.deleteMany`. */
    method DeleteMessages(keep: Message -> bool)
      requires Valid()
      modifies this`messages
      ensures Valid() && messages == Filter(old(messages), keep)
    {
      RowsFilter(messages, keep, MessageKey, MessageStamp, nextId, clock);
      messages := Filter(messages, keep);
    }

    /** `prisma.comment.delete` / `deleteMany`. */
    method DeleteComments(keep: Comment -> bool)
      requires Valid()
      modifies this`comments
      ensures Valid() && comments == Filter(old(comments), keep)
    {
      RowsFilter(comments, keep, CommentKey, CommentStamp, nextId, clock);
      comments := Filter(comments, keep);
    }

    /** `prisma.file.deleteMany`. */
    method DeleteFiles(keep: FileRecord -> bool)
      requires Valid()
      modifies this`files
      ensures Valid() && files == Filter(old(files), keep)
    {
      IdsFilter(files, keep, FileKey, nextId);
      files := Filter(files, keep);
    }
    /** `prisma.user.update` of an existing user, email unchanged. */
    method UpdateUser(u: User)
      requires Valid() && u.id in users && u.email == users[u.id].email
      modifies this`users
      ensures Valid() && users == old(users)[u.id := u]
    {
      UsersUpdate(users, u, nextId);
      users := users[u.id := u];
    }

    /** `prisma.user.delete`. */
    method RemoveUser(id: nat)
      requires Valid()
      modifies this`users
      ensures Valid() && users == old(users) - {id}
    {
      users := users - {id};
    }

    /** `prisma.invite.create`: a fresh id, invited now, not accepted. */
    method CreateInvite(email: string, role: Role) returns (inv: Invite)
      requires Valid() && email !in invites
      modifies this`invites, this`nextId, this`clock
      ensures Valid()
      ensures inv == Invite(old(nextId), email, role, old(clock), false, None)
      ensures invites == old(invites)[email := inv]
      ensures nextId == old(nextId) + 1 && clock == old(clock) + 1
    {
      var id := NewId();
      var at := Now();
      inv := Invite(id, email, role, at, false, None);
      InvitesInsert(invites, inv, id);
      invites := invites[email := inv];
    }

    /** `prisma.invite.update` of an existing invite, id unchanged. */
    method UpdateInvite(inv: Invite)
      requires Valid() && inv.email in invites && inv.id == invites[inv.email].id
      modifies this`invites
      ensures Valid() && invites == old(invites)[inv.email := inv]
    {
      InvitesUpdate(invites, inv, nextId);
      invites := invites[inv.email := inv];
    }

    /** `prisma.invite.delete({ where: { id } })`. */
    method RemoveInvite(id: nat)
      requires Valid()
      modifies this`invites
      ensures Valid() && invites == InvitesWithout(old(invites), id)
    {
      invites := InvitesWithout(invites, id);
    }

    /** `prisma.company.create`. */
    method CreateCompany(name: string, domain: Option<string>) returns (c: Company)
      requires Valid()
      modifies this`companies, this`nextId
      ensures Valid()
      ensures c == Company(old(nextId), name, domain) && c.id !in old(companies)
      ensures companies == old(companies)[c.id := c] && nextId == old(nextId) + 1
    {
      var id := NewId();
      c := Company(id, name, domain);
      companies := companies[id := c];
    }

    /** `prisma.company.update` of an existing company. */
    method UpdateCompany(c: Company)
      requires Valid() && c.id in companies
      modifies this`companies
      ensures Valid() && companies == old(companies)[c.id := c]
    {
      companies := companies[c.id := c];
    }

    /** `prisma.company.delete`. */
    method RemoveCompany(id: nat)
      requires Valid()
      modifies this`companies
      ensures Valid() && companies == old(companies) - {id}
    {
      companies := companies - {id};
    }

    /** `prisma.inviteEmailTemplate.create`. */
    method CreateTemplate(kind: string, subject: string, body: string) returns (t: Template)
      requires Valid()
      modifies this`templates, this`nextId
      ensures Valid()
      ensures t == Template(old(nextId), kind, subject, body)
      ensures templates == old(templates) + [t] && nextId == old(nextId) + 1
    {
      var id := NewId();
      t := Template(id, kind, subject, body);
      IdsAppend(templates, t, TemplateKey, id);
      templates := templates + [t];
    }

    /** `prisma.inviteEmailTemplate.update` of the row at `k`, id unchanged. */
    method UpdateTemplate(k: nat, t: Template)
      requires Valid() && k < |templates| && t.id == templates[k].id
      modifies this`templates
      ensures Valid() && templates == old(templates)[k := t]
    {
      IdsReplace(templates, k, t, TemplateKey, nextId);
      templates := templates[k := t];
    }
}
}
