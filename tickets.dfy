/** The ticket routes of `backend/src/routes/ticket.ts`: the `TKT-YYYYMMDD-NNNN`
    number, the owner-filtered list, create with its compensating delete,
    the partial update with its status-change mail, the cascading delete,
    and the detail and message-history queries. */
module Tickets {
  import opened Common
  import opened Seqs
  import opened Text
  import opened Schema
  import opened Foreign
  import opened FileNames
  import opened Notify
  import opened Store

  // ---------------------------------------------------------------- numbers

  /** `getFullYear()`, the 1-based month and the day, the last two padded to
      two digits. */
  function DatePart(d: CalendarDate): string {
    Decimal(d.year) + PadStart(Decimal(d.month0 + 1), 2, '0') + PadStart(Decimal(d.day), 2, '0')
  }

  /** The id padded to at least four digits. */
  function IdPart(id: nat): string {
    PadStart(Decimal(id), 4, '0')
  }

  /** `TKT-${year}${month}${day}-${String(id).padStart(4, '0')}`: the
      prefix, the date part and a dash, then the id part. */
  function TicketNo(d: CalendarDate, id: nat): (no: string)
    ensures |no| == 5 + |DatePart(d)| + |IdPart(id)|
    ensures no[..4] == "TKT-" && no[4 + |DatePart(d)|] == '-'
  {
    "TKT-" + DatePart(d) + "-" + IdPart(id)
  }

  /** The id part is a digit string of at least four digits that reads back as
      the id; from 1000 on it is the id's own digits, so no id is cut. */
  lemma IdPartParses(id: nat)
    ensures AllDigits(IdPart(id)) && ParseDecimal(IdPart(id)) == id
    ensures |IdPart(id)| == Max(4, |Decimal(id)|)
    ensures id >= 1000 ==> IdPart(id) == Decimal(id)
  {
    var d := Decimal(id);
    ParseDecimalOfDecimal(id);
    if |d| < 4 {
      assert IdPart(id) == Repeat('0', 4 - |d|) + d;
      ParseDecimalLeadingZeros(4 - |d|, d);
    } else {
      assert IdPart(id) == d;
    }
    if id >= 1000 {
      DecimalLength(id);
    }
  }

  /** Numbers from 1000 on have at least four digits. */
  lemma {:induction false} DecimalLength(n: nat)
    requires n >= 1000
    ensures |Decimal(n)| >= 4
  {
    assert Decimal(n) == Decimal(n / 10) + [DigitChar(n % 10)];
    if n / 10 >= 1000 {
      DecimalLength(n / 10);
    } else {
      assert n / 10 >= 100;
      assert Decimal(n / 10) == Decimal(n / 100) + [DigitChar((n / 10) % 10)];
      assert Decimal(n / 100) == Decimal(n / 1000) + [DigitChar((n / 100) % 10)];
    }
  }

  /** The number starts with `TKT-`, the date, a dash, and ends with the id
      part, which reads back as the id. */
  lemma TicketNoShape(d: CalendarDate, id: nat)
    ensures var no := TicketNo(d, id); var k := |IdPart(id)|;
      StartsWith(no, "TKT-") && no[4..4 + |DatePart(d)|] == DatePart(d)
      && no[|no| - k - 1] == '-' && no[|no| - k..] == IdPart(id)
      && ParseDecimal(no[|no| - k..]) == id
    ensures 1000 <= d.year <= 9999 && d.month0 <= 11 && 1 <= d.day <= 31 ==>
      |TicketNo(d, id)| == 13 + |IdPart(id)| && AllDigits(TicketNo(d, id)[4..12])
  {
    if 1000 <= d.year <= 9999 && d.month0 <= 11 && 1 <= d.day <= 31 {
      DatePartShape(d);
    }
    IdPartParses(id);
    var date := DatePart(d);
    var tail := "-" + IdPart(id);
    assert TicketNo(d, id) == "TKT-" + date + tail;
    ConcatSlices("TKT-", date, tail);
  }

  /** A number below 100 padded to two digits is two digits that read back as
      the number. */
  lemma TwoDigitPart(n: nat)
    requires n <= 99
    ensures var p := PadStart(Decimal(n), 2, '0');
      |p| == 2 && AllDigits(p) && ParseDecimal(p) == n
  {
    ParseDecimalOfDecimal(n);
    var s := Decimal(n);
    if n < 10 {
      assert |s| == 1;
      assert PadStart(s, 2, '0') == Repeat('0', 1) + s;
      ParseDecimalLeadingZeros(1, s);
    } else {
      assert s == Decimal(n / 10) + [DigitChar(n % 10)];
      assert |Decimal(n / 10)| == 1;
      assert PadStart(s, 2, '0') == s;
    }
  }

  /** A four-digit year renders as four digits. */
  lemma YearDigits(n: nat)
    requires 1000 <= n <= 9999
    ensures |Decimal(n)| == 4
  {
    assert Decimal(n) == Decimal(n / 10) + [DigitChar(n % 10)];
    assert Decimal(n / 10) == Decimal(n / 100) + [DigitChar((n / 10) % 10)];
    assert Decimal(n / 100) == Decimal(n / 1000) + [DigitChar((n / 100) % 10)];
  }

  /** For a calendar date with a four-digit year, the date part is eight
      digits: the year, then the 1-based month and the day, each two digits,
      and each reads back as its field. */
  lemma DatePartShape(d: CalendarDate)
    requires 1000 <= d.year <= 9999 && d.month0 <= 11 && 1 <= d.day <= 31
    ensures var s := DatePart(d);
      |s| == 8 && AllDigits(s)
      && ParseDecimal(s[..4]) == d.year
      && ParseDecimal(s[4..6]) == d.month0 + 1
      && ParseDecimal(s[6..]) == d.day
  {
    var y := Decimal(d.year);
    var m := PadStart(Decimal(d.month0 + 1), 2, '0');
    var dd := PadStart(Decimal(d.day), 2, '0');
    YearDigits(d.year);
    ParseDecimalOfDecimal(d.year);
    TwoDigitPart(d.month0 + 1);
    TwoDigitPart(d.day);
    assert DatePart(d) == y + m + dd;
    ConcatSlices(y, m, dd);
  }

  /** The three parts of `a + b + c` can be read back by slicing. */
  lemma ConcatSlices(a: string, b: string, c: string)
    ensures var s := a + b + c;
      s[..|a|] == a && s[|a|..|a| + |b|] == b && s[|a| + |b|..] == c
  {
  }

  /** Tickets created on the same day get different numbers. */
  lemma TicketNoInjective(d: CalendarDate, a: nat, b: nat)
    requires TicketNo(d, a) == TicketNo(d, b)
    ensures a == b
  {
    var p := "TKT-" + DatePart(d) + "-";
    assert TicketNo(d, a) == p + IdPart(a) && TicketNo(d, b) == p + IdPart(b);
    assert IdPart(a) == TicketNo(d, a)[|p|..];
    assert IdPart(b) == TicketNo(d, b)[|p|..];
    IdPartParses(a);
    IdPartParses(b);
  }

  // ------------------------------------------------------------------- list

  /** A row of `GET /tickets`: `userId` is stripped, `ticketNo` added. */
  datatype TicketSummary = TicketSummary(id: nat, title: string, status: Status, createdAt: nat, ticketNo: string)

  function SummaryOf(codecs: Codecs, t: Ticket): TicketSummary {
    TicketSummary(t.id, t.title, t.status, t.createdAt, TicketNo(codecs.localDate(t.createdAt), t.id))
  }

  function Summaries(codecs: Codecs, ts: seq<Ticket>): (r: seq<TicketSummary>)
    ensures |r| == |ts| && forall i :: 0 <= i < |ts| ==> r[i] == SummaryOf(codecs, ts[i])
  {
    seq(|ts|, i requires 0 <= i < |ts| => SummaryOf(codecs, ts[i]))
  }

  /** Within one calendar day, the rows of a list of distinct tickets carry
      distinct ticket numbers, and each row keeps its ticket's id, title,
      status and creation time. */
  lemma SummaryNumbersDistinct(codecs: Codecs, ts: seq<Ticket>)
    requires forall i, j :: 0 <= i < j < |ts| ==> ts[i].id != ts[j].id
    ensures var r := Summaries(codecs, ts);
      && (forall i :: 0 <= i < |r| ==>
            r[i].id == ts[i].id && r[i].title == ts[i].title && r[i].status == ts[i].status && r[i].createdAt == ts[i].createdAt)
      && (forall i, j :: 0 <= i < j < |r| && codecs.localDate(ts[i].createdAt) == codecs.localDate(ts[j].createdAt) ==>
            r[i].ticketNo != r[j].ticketNo)
  {
    var r := Summaries(codecs, ts);
    forall i, j | 0 <= i < j < |r| && codecs.localDate(ts[i].createdAt) == codecs.localDate(ts[j].createdAt)
      ensures r[i].ticketNo != r[j].ticketNo
    {
      if r[i].ticketNo == r[j].ticketNo {
        TicketNoInjective(codecs.localDate(ts[i].createdAt), ts[i].id, ts[j].id);
      }
    }
  }

  function OwnedBy(userId: nat): Ticket -> bool {
    (t: Ticket) => t.userId == userId
  }

  /** The tickets `GET /tickets` shows, newest first, as written: the owner
      filter applies only when the caller is not an admin AND has an id. */
  function VisibleAsWritten(tickets: seq<Ticket>, caller: Caller): (v: seq<Ticket>)
    ensures |v| <= |tickets|
    ensures IsAdmin(caller) || AuthenticatedId(caller).None? ==> v == Reverse(tickets)
    ensures forall t :: t in v <==>
      t in tickets && (IsAdmin(caller) || AuthenticatedId(caller).None? || t.userId == AuthenticatedId(caller).value)
  {
    var newestFirst := Reverse(tickets);
    if !IsAdmin(caller) && AuthenticatedId(caller).Some? then Filter(newestFirst, OwnedBy(AuthenticatedId(caller).value))
    else newestFirst
  }

  /** `GET /tickets` as written. */
  function ListAsWritten(codecs: Codecs, tickets: seq<Ticket>, caller: Caller): (r: seq<TicketSummary>)
    ensures !IsAdmin(caller) && AuthenticatedId(caller).None? ==> |r| == |tickets|
    ensures |r| == |VisibleAsWritten(tickets, caller)|
    ensures forall i :: 0 <= i < |r| ==> r[i] == SummaryOf(codecs, VisibleAsWritten(tickets, caller)[i])
  {
    Summaries(codecs, VisibleAsWritten(tickets, caller))
  }

  /** A non-admin caller whose token carries no id (an invite token passes the
      JWT check) gets every ticket of every owner from the route as written. */
  lemma AsWrittenListShowsOthersTickets(codecs: Codecs, t: Ticket, email: string)
    requires t.userId != 0
    ensures var caller := Caller(None, Some(Customer), email);
      !IsAdmin(caller) && AuthenticatedId(caller).None?
      && ListAsWritten(codecs, [t], caller) == [SummaryOf(codecs, t)]
  {
    assert Reverse([t]) == [t];
  }

  /** `GET /tickets` as intended: an admin sees every ticket, any other caller
      only their own, and a non-admin caller without an id is refused like the
      create route refuses it. */
  function ListTickets(codecs: Codecs, tickets: seq<Ticket>, caller: Caller): (r: Reply<seq<TicketSummary>>)
    ensures r.Fail? <==> !IsAdmin(caller) && AuthenticatedId(caller).None?
    ensures r.Fail? ==> r.code == Unauthorized
    ensures r.Ok? ==> r.value == ListAsWritten(codecs, tickets, caller)
  {
    if !IsAdmin(caller) && AuthenticatedId(caller).None? then Fail(Unauthorized)
    else Ok(ListAsWritten(codecs, tickets, caller))
  }

  /** What the list shows, on a valid ticket table: an admin sees every ticket,
      another caller with id `u` exactly the tickets owned by `u`; either way
      newest first. */
  lemma ListShowsOwnTicketsNewestFirst(tickets: seq<Ticket>, caller: Caller, nextId: nat, clock: nat)
    requires RowsValid(tickets, TicketKey, TicketStamp, nextId, clock)
    requires IsAdmin(caller) || AuthenticatedId(caller).Some?
    ensures var v := VisibleAsWritten(tickets, caller);
      (IsAdmin(caller) ==> forall t :: t in v <==> t in tickets)
      && (!IsAdmin(caller) ==> forall t :: t in v <==> t in tickets && t.userId == AuthenticatedId(caller).value)
      && forall i, j :: 0 <= i < j < |v| ==> v[i].createdAt > v[j].createdAt
  {
    var r := Reverse(tickets);
    assert IncreasingBy(r, (t: Ticket) => -TicketStamp(t)) by {
      forall i, j | 0 <= i < j < |r| ensures -TicketStamp(r[i]) < -TicketStamp(r[j]) {
        assert r[i] == tickets[|tickets| - 1 - i] && r[j] == tickets[|tickets| - 1 - j];
      }
    }
    forall t ensures t in r <==> t in tickets {
      if t in tickets {
        var k :| 0 <= k < |tickets| && tickets[k] == t;
        assert r[|tickets| - 1 - k] == t;
      }
    }
    if !IsAdmin(caller) {
      FilterIncreasing(r, OwnedBy(AuthenticatedId(caller).value), (t: Ticket) => -TicketStamp(t));
    }
    var v := VisibleAsWritten(tickets, caller);
    forall i, j | 0 <= i < j < |v| ensures v[i].createdAt > v[j].createdAt {
      assert -TicketStamp(v[i]) < -TicketStamp(v[j]);
    }
  }

  // ----------------------------------------------------------------- create

  /** A `cc` field as the request body carries it: absent, a string (JSON
      text from a form), an array, or another JSON value (`null`, a number, a
      boolean or an object), only its truthiness mattering. */
  datatype CcField = CcMissing | CcText(text: string) | CcList(list: seq<string>) | CcOther(truthy: bool)

  /** The cc list of `POST /tickets`, or None for the 400 reply: a falsy
      value gives `[]`, a string must parse to an array, an array is taken as
      it is. */
  function CreateCc(codecs: Codecs, cc: CcField): (r: Option<seq<string>>)
    ensures r.None? <==> cc == CcOther(true) || (cc.CcText? && cc.text != "" && codecs.parseCcJson(cc.text).None?)
    ensures cc.CcList? ==> r == Some(cc.list)
    ensures cc.CcMissing? || cc == CcText("") || cc == CcOther(false) ==> r == Some([])
  {
    match cc
    case CcMissing => Some([])
    case CcText(s) => if s == "" then Some([]) else codecs.parseCcJson(s)
    case CcList(xs) => Some(xs)
    case CcOther(truthy) => if truthy then None else Some([])
  }

  /** `companyName || null`. */
  function StoredCompanyName(companyName: Option<string>): Option<string> {
    if companyName.Some? && companyName.value != "" then companyName else None
  }

  /** The body of `POST /tickets`; a missing title or content is "". */
  datatype CreateBody = CreateBody(title: string, content: string, cc: CcField, companyName: Option<string>)

  /** The multipart file of `POST /tickets`. */
  datatype Attachment = Attachment(originalName: string, size: nat)

  /** Whether `POST /tickets` stores a ticket. */
  predicate CreateAccepted(codecs: Codecs, caller: Caller, body: CreateBody, file: Option<Attachment>, attachmentFails: bool) {
    AuthenticatedId(caller).Some? && body.title != "" && body.content != ""
    && CreateCc(codecs, body.cc).Some? && !(file.Some? && attachmentFails)
  }

  function NotTicket(id: nat): Ticket -> bool {
    (t: Ticket) => t.id != id
  }

  /** Deleting a row that was just appended, with an id above every other,
      gives the table back as it was. */
  lemma RollbackRestores(tickets: seq<Ticket>, t: Ticket, nextId: nat, clock: nat)
    requires RowsValid(tickets, TicketKey, TicketStamp, nextId, clock) && t.id == nextId
    ensures Filter(tickets + [t], NotTicket(t.id)) == tickets
  {
    FilterAppend(tickets, [t], NotTicket(t.id));
    forall i | 0 <= i < |tickets| ensures NotTicket(t.id)(tickets[i]) {
      assert TicketKey(tickets[i]) < nextId;
    }
    FilterAll(tickets, NotTicket(t.id));
    assert Filter([t], NotTicket(t.id)) == [];
  }

  /** `POST /tickets`. `attachmentFails` says whether the upload or the file
      insert throws; then the new ticket is deleted again. The second result
      is the mail handed to `sendMail`. */
  method CreateTicket(db: Db, codecs: Codecs, caller: Caller, body: CreateBody, file: Option<Attachment>, attachmentFails: bool)
    returns (reply: Reply<Ticket>, mail: Option<Mail>)
    requires db.Valid() && NfcKeepsSafeNames(codecs.nfc)
    modifies db`tickets, db`files, db`nextId, db`clock
    ensures db.Valid()
    ensures reply.Ok? <==> CreateAccepted(codecs, caller, body, file, attachmentFails)
    ensures AuthenticatedId(caller).None? ==> reply == Fail(Unauthorized)
    ensures AuthenticatedId(caller).Some? ==> reply.Fail? ==> reply.code == BadRequest
    ensures reply.Fail? ==> db.tickets == old(db.tickets) && db.files == old(db.files) && mail == None
    ensures reply.Ok? ==>
      var t := reply.value;
      db.tickets == old(db.tickets) + [t] && t.id !in Ids(old(db.tickets))
      && t.title == body.title && t.content == body.content && t.status == Open
      && t.userId == AuthenticatedId(caller).value && t.cc == CreateCc(codecs, body.cc).value
      && t.companyName == StoredCompanyName(body.companyName)
      && (file.None? ==> db.files == old(db.files))
      && (file.Some? ==>
            |db.files| == |old(db.files)| + 1 && db.files[..|old(db.files)|] == old(db.files)
            && var f := db.files[|old(db.files)|];
            f.filename == codecs.nfc(file.value.originalName) && f.url == UploadFile(codecs, file.value.originalName).url
            && f.size == file.value.size && f.ticketId == Some(t.id) && f.uploadedById == Some(t.userId) && f.messageId == None)
      && mail == OwnerMail(UserWithId(db.users, t.userId), t.cc, TicketCreated(t.id, t.title, t.content, t.companyName))
  {
    mail := None;
    var userId := AuthenticatedId(caller);
    if userId.None? {
      return Fail(Unauthorized), None;
    }
    if body.title == "" || body.content == "" {
      return Fail(BadRequest), None;
    }
    var cc := CreateCc(codecs, body.cc);
    if cc.None? {
      return Fail(BadRequest), None;
    }
    ghost var before := db.tickets;
    var t := db.CreateTicket(body.title, body.content, userId.value, Open, cc.value, StoredCompanyName(body.companyName));
    if file.Some? {
      if attachmentFails {
        RollbackRestores(before, t, t.id, t.createdAt);
        db.DeleteTickets(NotTicket(t.id));
        return Fail(BadRequest), None;
      }
      var up := UploadFile(codecs, file.value.originalName);
      var f := db.CreateFile(codecs.nfc(up.originalFileName), up.url, file.value.size, None, Some(t.id), Some(userId.value));
      assert db.files[|old(db.files)|] == f;
    }
    mail := OwnerMail(UserWithId(db.users, t.userId), t.cc, TicketCreated(t.id, t.title, t.content, t.companyName));
    reply := Ok(t);
    assert t.id !in Ids(old(db.tickets)) by {
      forall i | 0 <= i < |before| ensures before[i].id != t.id {
        assert TicketKey(before[i]) < t.id;
      }
    }
  }

  /** The ids of a ticket table. */
  function Ids(tickets: seq<Ticket>): set<nat> {
    set t | t in tickets :: t.id
  }

  // ----------------------------------------------------------------- update

  /** What the `cc` field of `PUT /tickets/:id` does: nothing when absent,
      otherwise it must be an array or a string that parses to one. */
  datatype CcPatch = KeepCc | SetCc(list: seq<string>) | BadCc

  function UpdateCc(codecs: Codecs, cc: CcField): (p: CcPatch)
    ensures p.KeepCc? <==> cc.CcMissing?
    ensures p.BadCc? <==> cc.CcOther? || cc == CcText("") || (cc.CcText? && codecs.parseCcJson(cc.text).None?)
    ensures cc.CcList? ==> p == SetCc(cc.list)
    ensures cc.CcText? && cc.text != "" && codecs.parseCcJson(cc.text).Some? ==> p == SetCc(codecs.parseCcJson(cc.text).value)
  {
    match cc
    case CcMissing => KeepCc
    // `JSON.parse('')` throws: the empty text is no JSON value.
    case CcText(s) => if s == "" then BadCc else (match codecs.parseCcJson(s) case Some(xs) => SetCc(xs) case None => BadCc)
    case CcList(xs) => SetCc(xs)
    case CcOther(_) => BadCc
  }

  /** The `companyName` field of `PUT /tickets/:id`: absent, `null`, or a string. */
  datatype CompanyField = CompanyUndefined | CompanyNull | CompanyValue(name: string)

  /** The body of `PUT /tickets/:id`; `status` is already one of the four. */
  datatype UpdateBody = UpdateBody(
    title: Option<string>,
    content: Option<string>,
    status: Option<Status>,
    cc: CcField,
    companyName: CompanyField)

  /** The patched ticket: title, content and status change only for a truthy
      value, cc and companyName only when present; id, owner and creation time
      never change. */
  function Patched(t: Ticket, body: UpdateBody, cc: CcPatch): (r: Ticket)
    requires !cc.BadCc?
    ensures r.id == t.id && r.userId == t.userId && r.createdAt == t.createdAt
    ensures r.title == (if body.title.Some? && body.title.value != "" then body.title.value else t.title)
    ensures r.content == (if body.content.Some? && body.content.value != "" then body.content.value else t.content)
    ensures r.status == (if body.status.Some? then body.status.value else t.status)
    ensures r.cc == (if cc.SetCc? then cc.list else t.cc)
    ensures body.companyName.CompanyUndefined? ==> r.companyName == t.companyName
    ensures body.companyName.CompanyNull? ==> r.companyName == None
    ensures body.companyName.CompanyValue? ==> r.companyName == Some(body.companyName.name)
  {
    var title := if body.title.Some? && body.title.value != "" then body.title.value else t.title;
    var content := if body.content.Some? && body.content.value != "" then body.content.value else t.content;
    var status := if body.status.Some? then body.status.value else t.status;
    var ccs := if cc.SetCc? then cc.list else t.cc;
    var company := match body.companyName
      case CompanyUndefined => t.companyName
      case CompanyNull => None
      case CompanyValue(s) => Some(s);
    t.(title := title, content := content, status := status, cc := ccs, companyName := company)
  }

  /** The status-change mail: sent exactly when a status is given, it differs
      from the stored one and the previous owner's notification list is not
      empty; cc is the updated ticket's cc list when that is not empty. */
  function StatusMail(prev: Ticket, updated: Ticket, status: Option<Status>, owner: Option<User>): (m: Option<Mail>)
    ensures m.Some? <==> status.Some? && status.value != prev.status && NotificationEmails(owner) != []
    ensures m.Some? ==> m.value == Mail(NotificationEmails(owner), CcOf(updated.cc), StatusChanged(prev.id, prev.status, status.value))
  {
    if status.Some? && status.value != prev.status then
      OwnerMail(owner, updated.cc, StatusChanged(prev.id, prev.status, status.value))
    else None
  }

  /** A patch that leaves the status alone never mails. */
  lemma NoStatusNoMail(prev: Ticket, updated: Ticket, body: UpdateBody, owner: Option<User>)
    requires body.status.None? || body.status == Some(prev.status)
    ensures StatusMail(prev, updated, body.status, owner) == None
  {
  }

  /** `PUT /tickets/:id`. */
  method UpdateTicket(db: Db, codecs: Codecs, id: nat, body: UpdateBody) returns (reply: Reply<Ticket>, mail: Option<Mail>)
    requires db.Valid()
    modifies db`tickets
    ensures db.Valid()
    ensures var k := IndexOfId(old(db.tickets), TicketKey, id);
      if UpdateCc(codecs, body.cc).BadCc? || k < 0 then
        reply == Fail(BadRequest) && db.tickets == old(db.tickets) && mail == None
      else
        var t := Patched(old(db.tickets)[k], body, UpdateCc(codecs, body.cc));
        reply == Ok(t) && db.tickets == old(db.tickets)[k := t]
        && mail == StatusMail(old(db.tickets)[k], t, body.status, UserWithId(db.users, old(db.tickets)[k].userId))
  {
    var cc := UpdateCc(codecs, body.cc);
    if cc.BadCc? {
      return Fail(BadRequest), None;
    }
    var k := IndexOfId(db.tickets, TicketKey, id);
    if k < 0 {
      return Fail(BadRequest), None;
    }
    var prev := db.tickets[k];
    var t := Patched(prev, body, cc);
    RowsReplace(db.tickets, k, t, TicketKey, TicketStamp, db.nextId, db.clock);
    db.tickets := db.tickets[k := t];
    mail := StatusMail(prev, t, body.status, UserWithId(db.users, prev.userId));
    reply := Ok(t);
  }

  // ----------------------------------------------------------------- delete

  function NotFileOfTicket(id: nat): FileRecord -> bool {
    (f: FileRecord) => f.ticketId != Some(id)
  }

  function NotCommentOfTicket(id: nat): Comment -> bool {
    (c: Comment) => c.ticketId != id
  }

  function NotMessageOfTicket(id: nat): Message -> bool {
    (m: Message) => m.ticketId != id
  }

  /** `DELETE /tickets/:id`: the ticket's files, comments and messages go
      first, then the ticket; when there is no such ticket the last step throws
      and the reply is 400, the three cascades having run. Chat attachments,
      which reference a message and no ticket, stay. */
  method DeleteTicket(db: Db, id: nat) returns (reply: Reply<bool>)
    requires db.Valid()
    modifies db`files, db`comments, db`messages, db`tickets
    ensures db.Valid()
    ensures db.files == Filter(old(db.files), NotFileOfTicket(id))
    ensures db.comments == Filter(old(db.comments), NotCommentOfTicket(id))
    ensures db.messages == Filter(old(db.messages), NotMessageOfTicket(id))
    ensures reply.Ok? <==> IndexOfId(old(db.tickets), TicketKey, id) >= 0
    ensures reply.Ok? ==> db.tickets == Filter(old(db.tickets), NotTicket(id))
    ensures reply.Fail? ==> reply.code == BadRequest && db.tickets == old(db.tickets)
  {
    db.DeleteFiles(NotFileOfTicket(id));
    db.DeleteComments(NotCommentOfTicket(id));
    db.DeleteMessages(NotMessageOfTicket(id));
    if IndexOfId(db.tickets, TicketKey, id) < 0 {
      reply := Fail(BadRequest);
    } else {
      db.DeleteTickets(NotTicket(id));
      reply := Ok(true);
    }
  }

  /** What the delete leaves: every row of the ticket is gone from the four
      tables and every other row stays, in its order; with ids increasing, the
      ticket table loses exactly the row at the ticket's index, and a missing
      ticket leaves it as it was. */
  lemma DeleteLeavesOthers(tickets: seq<Ticket>, files: seq<FileRecord>, comments: seq<Comment>, messages: seq<Message>, id: nat)
    ensures forall f :: f in Filter(files, NotFileOfTicket(id)) <==> f in files && f.ticketId != Some(id)
    ensures forall c :: c in Filter(comments, NotCommentOfTicket(id)) <==> c in comments && c.ticketId != id
    ensures forall m :: m in Filter(messages, NotMessageOfTicket(id)) <==> m in messages && m.ticketId != id
    ensures forall t :: t in Filter(tickets, NotTicket(id)) <==> t in tickets && t.id != id
    ensures IncreasingBy(files, FileKey) ==> IncreasingBy(Filter(files, NotFileOfTicket(id)), FileKey)
    ensures IncreasingBy(comments, CommentKey) ==> IncreasingBy(Filter(comments, NotCommentOfTicket(id)), CommentKey)
    ensures IncreasingBy(messages, MessageKey) ==> IncreasingBy(Filter(messages, NotMessageOfTicket(id)), MessageKey)
    ensures IndexOfId(tickets, TicketKey, id) < 0 ==> Filter(tickets, NotTicket(id)) == tickets
    ensures IncreasingBy(tickets, TicketKey) && IndexOfId(tickets, TicketKey, id) >= 0 ==>
      var k := IndexOfId(tickets, TicketKey, id);
      Filter(tickets, NotTicket(id)) == tickets[..k] + tickets[k + 1..]
  {
    var k := IndexOfId(tickets, TicketKey, id);
    if k < 0 {
      FilterAll(tickets, NotTicket(id));
    } else if IncreasingBy(tickets, TicketKey) {
      forall i | 0 <= i < |tickets| && i != k ensures NotTicket(id)(tickets[i]) {
        assert TicketKey(tickets[i]) != TicketKey(tickets[k]);
      }
      FilterDropsOne(tickets, k, NotTicket(id));
    }
    if IncreasingBy(files, FileKey) {
      FilterIncreasing(files, NotFileOfTicket(id), FileKey);
    }
    if IncreasingBy(comments, CommentKey) {
      FilterIncreasing(comments, NotCommentOfTicket(id), CommentKey);
    }
    if IncreasingBy(messages, MessageKey) {
      FilterIncreasing(messages, NotMessageOfTicket(id), MessageKey);
    }
  }

  // ---------------------------------------------------------------- queries

  function OfTicketFile(id: nat): FileRecord -> bool {
    (f: FileRecord) => f.ticketId == Some(id)
  }

  /** `GET /tickets/:id`: the ticket with its attachments, or 404. */
  function TicketDetail(tickets: seq<Ticket>, files: seq<FileRecord>, id: nat): (r: Reply<(Ticket, seq<FileRecord>)>)
    ensures r.Fail? <==> forall i :: 0 <= i < |tickets| ==> tickets[i].id != id
    ensures r.Fail? ==> r.code == NotFound
    ensures r.Ok? ==> r.value.0 in tickets && r.value.0.id == id
    ensures r.Ok? ==> forall f :: f in r.value.1 <==> f in files && f.ticketId == Some(id)
  {
    var k := IndexOfId(tickets, TicketKey, id);
    if k < 0 then Fail(NotFound) else Ok((tickets[k], Filter(files, OfTicketFile(id))))
  }

  /** A message of `GET /tickets/:id/messages`, with its sender and files. */
  datatype MessageView = MessageView(message: Message, user: Option<User>, files: seq<FileRecord>)

  function OfMessageFile(id: nat): FileRecord -> bool {
    (f: FileRecord) => f.messageId == Some(id)
  }

  function ViewOf(m: Message, users: map<nat, User>, files: seq<FileRecord>): (v: MessageView)
    ensures v.message == m && v.user == UserWithId(users, m.userId)
    ensures forall f :: f in v.files <==> f in files && f.messageId == Some(m.id)
  {
    MessageView(m, UserWithId(users, m.userId), Filter(files, OfMessageFile(m.id)))
  }

  /** `GET /tickets/:id/messages`: the ticket's messages oldest first (see
      `MessagesOfAscending`), each with its sender and its attachments. */
  function TicketMessages(messages: seq<Message>, users: map<nat, User>, files: seq<FileRecord>, id: nat): (r: seq<MessageView>)
    ensures |r| == |MessagesOf(messages, id)|
    ensures forall i :: 0 <= i < |r| ==> r[i].message == MessagesOf(messages, id)[i]
    ensures forall i :: 0 <= i < |r| ==> r[i].message in messages && r[i].message.ticketId == id
    ensures forall m :: m in messages && m.ticketId == id ==> ViewOf(m, users, files) in r
  {
    ViewsCover(messages, users, files, id);
    Views(MessagesOf(messages, id), users, files)
  }

  /** On a valid message table the views come oldest first, each message
      once. */
  lemma TicketMessagesAscending(messages: seq<Message>, users: map<nat, User>, files: seq<FileRecord>, id: nat, nextId: nat, clock: nat)
    requires RowsValid(messages, MessageKey, MessageStamp, nextId, clock)
    ensures var r := TicketMessages(messages, users, files, id);
      forall i, j :: 0 <= i < j < |r| ==> r[i].message.createdAt < r[j].message.createdAt
  {
    MessagesOfAscending(messages, id, nextId, clock);
    var r := TicketMessages(messages, users, files, id);
    var ms := MessagesOf(messages, id);
    forall i, j | 0 <= i < j < |r| ensures r[i].message.createdAt < r[j].message.createdAt {
      assert r[i].message == ms[i] && r[j].message == ms[j];
    }
  }

  /** Each message with its sender and files. */
  function Views(ms: seq<Message>, users: map<nat, User>, files: seq<FileRecord>): (r: seq<MessageView>)
    ensures |r| == |ms| && forall i :: 0 <= i < |ms| ==> r[i] == ViewOf(ms[i], users, files)
  {
    seq(|ms|, i requires 0 <= i < |ms| => ViewOf(ms[i], users, files))
  }

  /** The views are exactly those of the ticket's messages. */
  lemma ViewsCover(messages: seq<Message>, users: map<nat, User>, files: seq<FileRecord>, id: nat)
    ensures var r := Views(MessagesOf(messages, id), users, files);
      (forall i :: 0 <= i < |r| ==> r[i].message in messages && r[i].message.ticketId == id)
      && (forall m :: m in messages && m.ticketId == id ==> ViewOf(m, users, files) in r)
  {
    var ms := MessagesOf(messages, id);
    var r := Views(ms, users, files);
    forall i | 0 <= i < |r| ensures r[i].message in messages && r[i].message.ticketId == id {
      assert r[i].message == ms[i] && ms[i] in ms;
    }
    forall m | m in messages && m.ticketId == id ensures ViewOf(m, users, files) in r {
      var k :| 0 <= k < |ms| && ms[k] == m;
      assert r[k] == ViewOf(m, users, files);
    }
  }
}
