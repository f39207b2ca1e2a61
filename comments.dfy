/** The comment routes of `backend/src/routes/comment.ts`: the per-ticket list,
    create with its owner notification, update and delete. */
module Comments {
  import opened Common
  import opened Seqs
  import opened Schema
  import opened Notify
  import opened Store

  // ------------------------------------------------------------------- list

  function OfTicketComment(ticketId: nat): Comment -> bool {
    (c: Comment) => c.ticketId == ticketId
  }

  /** A comment of the list, with its author (`include: { user: true }`). */
  datatype CommentView = CommentView(comment: Comment, user: Option<User>)

  /** `GET /comments/ticket/:ticketId`: the ticket's comments in table order,
      each with its author. */
  function ListComments(comments: seq<Comment>, users: map<nat, User>, ticketId: nat): (r: seq<CommentView>)
    ensures var cs := Filter(comments, OfTicketComment(ticketId));
      |r| == |cs| && forall i :: 0 <= i < |r| ==> r[i] == CommentView(cs[i], UserWithId(users, cs[i].userId))
  {
    var cs := Filter(comments, OfTicketComment(ticketId));
    seq(|cs|, i requires 0 <= i < |cs| => CommentView(cs[i], UserWithId(users, cs[i].userId)))
  }

  /** On a valid comment table the list holds exactly the ticket's comments,
      oldest first. */
  lemma ListCommentsIsTicketComments(comments: seq<Comment>, users: map<nat, User>, ticketId: nat, nextId: nat, clock: nat)
    requires RowsValid(comments, CommentKey, CommentStamp, nextId, clock)
    ensures var r := ListComments(comments, users, ticketId);
      (forall i :: 0 <= i < |r| ==> r[i].comment in comments && r[i].comment.ticketId == ticketId)
      && (forall c :: c in comments && c.ticketId == ticketId ==> exists i :: 0 <= i < |r| && r[i].comment == c)
      && (forall i, j :: 0 <= i < j < |r| ==> r[i].comment.createdAt < r[j].comment.createdAt)
  {
    var cs := Filter(comments, OfTicketComment(ticketId));
    var r := ListComments(comments, users, ticketId);
    FilterIncreasing(comments, OfTicketComment(ticketId), CommentStamp);
    forall i | 0 <= i < |r| ensures r[i].comment in comments && r[i].comment.ticketId == ticketId {
      assert r[i].comment == cs[i] && cs[i] in cs;
    }
    forall c | c in comments && c.ticketId == ticketId ensures exists i :: 0 <= i < |r| && r[i].comment == c {
      var k :| 0 <= k < |cs| && cs[k] == c;
      assert r[k].comment == c;
    }
    forall i, j | 0 <= i < j < |r| ensures r[i].comment.createdAt < r[j].comment.createdAt {
      assert CommentStamp(cs[i]) < CommentStamp(cs[j]);
    }
  }

  // ----------------------------------------------------------------- create

  /** `comment.user.name || comment.user.email`. */
  function AuthorName(u: User): (name: string)
    ensures u.name.Some? && u.name.value != "" ==> name == u.name.value
    ensures u.name.None? || u.name.value == "" ==> name == u.email
  {
    if u.name.Some? && u.name.value != "" then u.name.value else u.email
  }

  /** The comment mail as written: it is sent when the ticket exists, the
      owner's list is not empty and the author can be read, but its cc comes
      from `ticket.ccEmails`, a column the ticket does not have, so it never
      carries a cc. */
  function CommentMailAsWritten(ticket: Option<Ticket>, owner: Option<User>, author: Option<User>, content: string): (m: Option<Mail>)
    ensures m.Some? <==> ticket.Some? && author.Some? && NotificationEmails(owner) != []
    ensures m.Some? ==> m.value.to == NotificationEmails(owner) && m.value.cc == None
    ensures m.Some? ==> m.value.body == CommentAdded(ticket.value.id, AuthorName(author.value), content)
  {
    if ticket.Some? && author.Some? && NotificationEmails(owner) != [] then
      Some(Mail(NotificationEmails(owner), None, CommentAdded(ticket.value.id, AuthorName(author.value), content)))
    else None
  }

  /** The comment mail with the ticket's cc list, as the ticket-create and
      status-change mails carry it. */
  function CommentMail(ticket: Option<Ticket>, owner: Option<User>, author: Option<User>, content: string): (m: Option<Mail>)
    ensures m.Some? <==> ticket.Some? && author.Some? && NotificationEmails(owner) != []
    ensures m.Some? ==> m.value.to == NotificationEmails(owner) && m.value.cc == CcOf(ticket.value.cc)
    ensures m.Some? ==> m.value.body == CommentAdded(ticket.value.id, AuthorName(author.value), content)
  {
    if ticket.Some? && author.Some? then
      OwnerMail(owner, ticket.value.cc, CommentAdded(ticket.value.id, AuthorName(author.value), content))
    else None
  }

  /** A ticket with cc recipients and an owner who gets mail: the route as
      written mails the owner alone, the cc list is lost. */
  lemma AsWrittenCommentMailLosesCc(ticket: Ticket, owner: User, author: User, content: string)
    requires ticket.cc != [] && owner.notificationsEnabled && owner.email != ""
    ensures var written := CommentMailAsWritten(Some(ticket), Some(owner), Some(author), content);
      var intended := CommentMail(Some(ticket), Some(owner), Some(author), content);
      written.Some? && intended.Some? && written.value.cc == None && intended.value.cc == Some(ticket.cc)
      && written.value.to == intended.value.to && written.value.body == intended.value.body
  {
  }

  /** The two agree exactly when no cc would have been sent anyway. */
  lemma CommentMailsAgreeWithoutCc(ticket: Ticket, owner: Option<User>, author: Option<User>, content: string)
    ensures CommentMailAsWritten(Some(ticket), owner, author, content) == CommentMail(Some(ticket), owner, author, content)
      <==> ticket.cc == [] || author.None? || NotificationEmails(owner) == []
  {
  }

  /** `POST /comments`; `ticketId` is None when the body has none. */
  method CreateComment(db: Db, caller: Caller, ticketId: Option<nat>, content: string) returns (reply: Reply<Comment>, mail: Option<Mail>)
    requires db.Valid()
    modifies db`comments, db`nextId, db`clock
    ensures db.Valid()
    ensures AuthenticatedId(caller).None? ==> reply == Fail(Unauthorized)
    ensures AuthenticatedId(caller).Some? && (ticketId.None? || ticketId.value == 0 || content == "") ==> reply == Fail(BadRequest)
    ensures reply.Fail? ==> db.comments == old(db.comments) && mail == None
    ensures reply.Ok? <==> AuthenticatedId(caller).Some? && ticketId.Some? && ticketId.value != 0 && content != ""
    ensures reply.Ok? ==>
      var c := reply.value;
      db.comments == old(db.comments) + [c] && c.ticketId == ticketId.value && c.userId == AuthenticatedId(caller).value
      && c.content == content && c.id == old(db.nextId)
      && var k := IndexOfId(db.tickets, TicketKey, c.ticketId);
      var ticket := if k < 0 then None else Some(db.tickets[k]);
      var owner := if k < 0 then None else UserWithId(db.users, db.tickets[k].userId);
      mail == CommentMailAsWritten(ticket, owner, UserWithId(db.users, c.userId), content)
  {
    var userId := AuthenticatedId(caller);
    if userId.None? {
      return Fail(Unauthorized), None;
    }
    if ticketId.None? || ticketId.value == 0 || content == "" {
      return Fail(BadRequest), None;
    }
    var c := db.CreateComment(ticketId.value, userId.value, content);
    var k := IndexOfId(db.tickets, TicketKey, c.ticketId);
    var ticket := if k < 0 then None else Some(db.tickets[k]);
    var owner := if k < 0 then None else UserWithId(db.users, db.tickets[k].userId);
    mail := CommentMailAsWritten(ticket, owner, UserWithId(db.users, userId.value), content);
    reply := Ok(c);
  }

  // ---------------------------------------------------------- update/delete

  /** `PUT /comments/:id`: only the content changes; an empty content or a
      missing comment is a 400. */
  method UpdateComment(db: Db, id: nat, content: string) returns (reply: Reply<Comment>)
    requires db.Valid()
    modifies db`comments
    ensures db.Valid()
    ensures var k := IndexOfId(old(db.comments), CommentKey, id);
      if content == "" || k < 0 then reply == Fail(BadRequest) && db.comments == old(db.comments)
      else reply == Ok(old(db.comments)[k].(content := content)) && db.comments == old(db.comments)[k := reply.value]
  {
    if content == "" {
      return Fail(BadRequest);
    }
    var k := IndexOfId(db.comments, CommentKey, id);
    if k < 0 {
      return Fail(BadRequest);
    }
    var c := db.comments[k].(content := content);
    RowsReplace(db.comments, k, c, CommentKey, CommentStamp, db.nextId, db.clock);
    db.comments := db.comments[k := c];
    reply := Ok(c);
  }

  /** An update touches one comment, and that one only in its content: the
      new list is the old one with the comment at `k` swapped for its edited
      copy, which still has the same id, ticket, author and creation time. */
  lemma UpdateCommentKeepsOthers(comments: seq<Comment>, k: nat, content: string)
    requires k < |comments|
    ensures var c := comments[k].(content := content); var r := comments[k := c];
      r == comments[..k] + [c] + comments[k + 1..]
      && r[k].content == content && r[k].id == comments[k].id && r[k].ticketId == comments[k].ticketId
      && r[k].userId == comments[k].userId && r[k].createdAt == comments[k].createdAt
      && forall i :: 0 <= i < |r| && i != k ==> r[i] == comments[i]
  {
    var c := comments[k].(content := content);
    assert comments[k := c] == comments[..k] + [c] + comments[k + 1..];
  }

  function NotComment(id: nat): Comment -> bool {
    (c: Comment) => c.id != id
  }

  /** `DELETE /comments/:id`: a missing comment is a 400. */
  method DeleteComment(db: Db, id: nat) returns (reply: Reply<bool>)
    requires db.Valid()
    modifies db`comments
    ensures db.Valid()
    ensures reply.Ok? <==> IndexOfId(old(db.comments), CommentKey, id) >= 0
    ensures reply.Fail? ==> reply.code == BadRequest && db.comments == old(db.comments)
    ensures reply.Ok? ==> db.comments == Filter(old(db.comments), NotComment(id))
  {
    if IndexOfId(db.comments, CommentKey, id) < 0 {
      return Fail(BadRequest);
    }
    db.DeleteComments(NotComment(id));
    reply := Ok(true);
  }

  /** The delete removes exactly that comment's row; ids being unique, every
      other row stays, in order. */
  lemma DeleteCommentRemovesOne(comments: seq<Comment>, id: nat, nextId: nat, clock: nat)
    requires RowsValid(comments, CommentKey, CommentStamp, nextId, clock)
    requires IndexOfId(comments, CommentKey, id) >= 0
    ensures forall c :: c in Filter(comments, NotComment(id)) <==> c in comments && c.id != id
    ensures var k := IndexOfId(comments, CommentKey, id);
      Filter(comments, NotComment(id)) == comments[..k] + comments[k + 1..]
  {
    var k := IndexOfId(comments, CommentKey, id);
    forall i | 0 <= i < |comments| && i != k ensures NotComment(id)(comments[i]) {
      if i < k {
        assert CommentKey(comments[i]) < CommentKey(comments[k]);
      } else {
        assert CommentKey(comments[k]) < CommentKey(comments[i]);
      }
    }
    FilterDropsOne(comments, k, NotComment(id));
  }
}
