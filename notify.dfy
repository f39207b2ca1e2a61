/** Who gets mail: `getUserNotificationEmails` of `backend/src/utils/email.ts`,
    the mails the handlers hand to `sendMail`, and the owner-plus-cc rule the
    ticket and comment routes share. The nodemailer transport is not modelled;
    a mail is the value a handler produces. */
module Notify {
  import opened Common
  import opened Seqs
  import opened Schema

  /** `getUserNotificationEmails` on the record `findUnique` returned: nobody
      for a missing user or one who opted out; otherwise the primary address
      and the extra addresses, empty strings dropped, each address once, in
      order of first occurrence. */
  function NotificationEmails(u: Option<User>): (r: seq<string>)
    ensures u.None? ==> r == []
    ensures u.Some? && !u.value.notificationsEnabled ==> r == []
    ensures NoDup(r) && "" !in r
    ensures u.Some? && u.value.notificationsEnabled ==>
      forall e :: e in r <==> e != "" && (e == u.value.email || e in u.value.extraEmails)
    ensures u.Some? && u.value.notificationsEnabled && u.value.email != "" ==>
      r != [] && r[0] == u.value.email
  {
    if u.None? || !u.value.notificationsEnabled then []
    else Dedup(Filter([u.value.email] + u.value.extraEmails, (e: string) => e != ""))
  }

  /** A link to an uploaded file, as a chat broadcast or mail carries it. */
  datatype FileLink = FileLink(filename: string, url: string)

  /** What a mail is about; subject lines and HTML are not modelled. */
  datatype MailBody =
    | TicketCreated(ticketId: nat, title: string, content: string, companyName: Option<string>)
    | StatusChanged(ticketId: nat, previous: Status, current: Status)
    | CommentAdded(ticketId: nat, author: string, content: string)
    | ChatReceived(ticketId: nat, sender: string, content: string, file: Option<FileLink>)
    | DefaultInvite(inviteUrl: string)
    | TemplatedInvite(subject: string, html: string)
    | ResetMail(resetUrl: string)

  /** The argument of `sendMail`: `to`, the optional `cc`, and the body. */
  datatype Mail = Mail(to: seq<string>, cc: Option<seq<string>>, body: MailBody)

  /** `xs.length > 0 ? xs : undefined`. */
  function CcOf(xs: seq<string>): Option<seq<string>> {
    if |xs| > 0 then Some(xs) else None
  }

  /** The rule of the ticket-create, status-change and comment notifications:
      mail the owner's notification list, with the cc list only when it is
      non-empty, and send nothing at all when the owner's list is empty. */
  function OwnerMail(owner: Option<User>, cc: seq<string>, body: MailBody): (m: Option<Mail>)
    ensures m.Some? <==> NotificationEmails(owner) != []
    ensures m.Some? ==> m.value.to == NotificationEmails(owner) && m.value.body == body
    ensures m.Some? ==> (m.value.cc.Some? <==> cc != []) && (m.value.cc.Some? ==> m.value.cc.value == cc)
  {
    var to := NotificationEmails(owner);
    if |to| > 0 then Some(Mail(to, CcOf(cc), body)) else None
  }

  /** An owner who opted out silences the mail, cc recipients included. */
  lemma OptedOutOwnerSilencesCc(owner: User, cc: seq<string>, body: MailBody)
    requires !owner.notificationsEnabled
    ensures OwnerMail(Some(owner), cc, body) == None
  {
  }
}
