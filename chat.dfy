/** The socket handlers of `backend/src/app.ts`: `join` registers a session in
    its ticket's room and sends it the ticket's history; `chat` stores a
    message (creating a guest user for an unknown sender, and a file row for
    an attachment), mails the ticket owner and the sender, and broadcasts the
    message to the room. Rooms are a map from the raw `ticketId` string to the
    sessions that joined it; what the server emits is appended to a log. */
module Chat {
  import opened Common
  import opened Seqs
  import opened Text
  import opened Schema
  import opened Foreign
  import opened FileNames
  import opened Notify
  import opened Store

  type SessionId = nat

  /** One entry of the `history` event; `user` is undefined when the sender's
      row is gone. */
  datatype HistoryEntry = HistoryEntry(id: nat, user: Option<string>, content: string, createdAt: nat)

  /** The `chat` event broadcast to a room. */
  datatype ChatEvent = ChatEvent(id: nat, user: string, content: string, createdAt: nat, file: Option<FileLink>)

  datatype Emission =
    | History(to: SessionId, entries: seq<HistoryEntry>)
    | Broadcast(room: string, audience: set<SessionId>, event: ChatEvent)

  /** The `file` of a chat payload: its name and its base64 data. */
  datatype ChatFile = ChatFile(name: string, data: string)

  /** The `chat` payload `{ ticketId, user, content, file }`. */
  datatype ChatPayload = ChatPayload(ticketId: string, user: string, content: string, file: Option<ChatFile>)

  function EntryOf(m: Message, users: map<nat, User>): (e: HistoryEntry)
    ensures e.id == m.id && e.content == m.content && e.createdAt == m.createdAt
    ensures e.user.Some? <==> m.userId in users
    ensures e.user.Some? ==> e.user.value == users[m.userId].email
  {
    HistoryEntry(m.id, if m.userId in users then Some(users[m.userId].email) else None, m.content, m.createdAt)
  }

  /** The email a history entry shows identifies its sender: looked up
      again, it finds the very user who sent the message. */
  lemma EntryNamesSender(m: Message, users: map<nat, User>, nextId: nat)
    requires UsersValid(users, nextId) && m.userId in users
    ensures var e := EntryOf(m, users);
      e.user.Some? && UserWithEmail(users, e.user.value) == Some(users[m.userId])
  {
    UserWithEmailUnique(users, nextId, users[m.userId]);
  }

  /** The `history` a valid `join` sends: the ticket's messages, oldest first,
      each with its sender's email and no file data. */
  function HistoryOf(messages: seq<Message>, users: map<nat, User>, ticketId: nat): (h: seq<HistoryEntry>)
    ensures |h| == |MessagesOf(messages, ticketId)|
    ensures forall i :: 0 <= i < |h| ==> h[i] == EntryOf(MessagesOf(messages, ticketId)[i], users)
  {
    var ms := MessagesOf(messages, ticketId);
    seq(|ms|, i requires 0 <= i < |ms| => EntryOf(ms[i], users))
  }

  /** The history holds an entry for every message of the ticket and only for
      those, oldest first, each naming the stored sender's email. */
  lemma HistoryIsTicketMessages(messages: seq<Message>, users: map<nat, User>, ticketId: nat, nextId: nat, clock: nat)
    requires RowsValid(messages, MessageKey, MessageStamp, nextId, clock)
    ensures var h := HistoryOf(messages, users, ticketId);
      (forall m :: m in messages && m.ticketId == ticketId ==> EntryOf(m, users) in h)
      && (forall i :: 0 <= i < |h| ==>
            var m := MessagesOf(messages, ticketId)[i]; m in messages && m.ticketId == ticketId && h[i] == EntryOf(m, users))
      && (forall i, j :: 0 <= i < j < |h| ==> h[i].createdAt < h[j].createdAt)
      && (forall i :: 0 <= i < |h| && MessagesOf(messages, ticketId)[i].userId in users ==>
            h[i].user == Some(users[MessagesOf(messages, ticketId)[i].userId].email))
  {
    var ms := MessagesOf(messages, ticketId);
    var h := HistoryOf(messages, users, ticketId);
    MessagesOfAscending(messages, ticketId, nextId, clock);
    forall m | m in messages && m.ticketId == ticketId ensures EntryOf(m, users) in h {
      var k :| 0 <= k < |ms| && ms[k] == m;
      assert h[k] == EntryOf(m, users);
    }
    forall i | 0 <= i < |h| ensures ms[i] in messages && ms[i].ticketId == ticketId {
      assert ms[i] in ms;
    }
  }

  /** The chat mail's recipients: the owner, then the sender when the sender is
      somebody else. */
  function ChatRecipients(owner: string, sender: string): (to: seq<string>)
    ensures 1 <= |to| <= 2 && to[0] == owner && sender in to && NoDup(to)
    ensures |to| == 2 <==> sender != owner
  {
    if sender != owner then [owner, sender] else [owner]
  }

  /** The user row `chat` creates for an unknown sender. */
  function GuestUser(id: nat, email: string, at: nat): User {
    User(id, email, None, Customer, false, Some(Plain(PlaceholderPassword)), DefaultNotificationsEnabled, [], None, at)
  }

  /** The database view of the ticket the chat mail is about: the ticket and
      its owner, when the lookup succeeds and both exist. */
  function ChatTicket(tickets: seq<Ticket>, users: map<nat, User>, ticketId: nat, lookupThrows: bool): (r: Option<(Ticket, User)>)
    ensures r.Some? ==>
      !lookupThrows && r.value.0 in tickets && r.value.0.id == ticketId
      && r.value.0.userId in users && r.value.1 == users[r.value.0.userId]
    ensures lookupThrows || (forall i :: 0 <= i < |tickets| ==> tickets[i].id != ticketId) ==> r.None?
  {
    var k := IndexOfId(tickets, TicketKey, ticketId);
    if lookupThrows || k < 0 || tickets[k].userId !in users then None
    else Some((tickets[k], users[tickets[k].userId]))
  }

  class ChatServer {
    const db: Db
    var rooms: map<string, set<SessionId>>
    var emitted: seq<Emission>

    constructor (db: Db)
      ensures this.db == db && rooms == map[] && emitted == []
    {
      this.db := db;
      rooms := map[];
      emitted := [];
    }

    /** The sessions in a room. */
    function Audience(room: string): (a: set<SessionId>)
      reads this
      ensures room !in rooms ==> a == {}
      ensures room in rooms ==> a == rooms[room]
    {
      if room in rooms then rooms[room] else {}
    }

    /** `socket.on('join', { ticketId })`. */
    method Join(session: SessionId, ticketId: string)
      modifies this`rooms, this`emitted
      ensures !IsNumeric(ticketId) ==> rooms == old(rooms) && emitted == old(emitted) + [History(session, [])]
      ensures IsNumeric(ticketId) ==>
        rooms == old(rooms)[ticketId := old(Audience(ticketId)) + {session}]
        && emitted == old(emitted) + [History(session, HistoryOf(db.messages, db.users, ParseDecimal(ticketId)))]
    {
      if !IsNumeric(ticketId) {
        emitted := emitted + [History(session, [])];
        return;
      }
      rooms := rooms[ticketId := Audience(ticketId) + {session}];
      emitted := emitted + [History(session, HistoryOf(db.messages, db.users, ParseDecimal(ticketId)))];
    }

    /** The find-or-create step of `chat`: the stored user with the sender's
        email, or a new guest user for it. */
    method SenderOf(email: string) returns (u: User)
      requires db.Valid()
      modifies db`users, db`nextId, db`clock
      ensures db.Valid()
      ensures UserWithEmail(old(db.users), email).Some? ==>
        u == UserWithEmail(old(db.users), email).value && db.users == old(db.users)
        && db.nextId == old(db.nextId) && db.clock == old(db.clock)
      ensures UserWithEmail(old(db.users), email).None? ==>
        u == GuestUser(old(db.nextId), email, old(db.clock)) && u.id !in old(db.users)
        && db.users == old(db.users)[u.id := u]
        && db.nextId == old(db.nextId) + 1 && db.clock == old(db.clock) + 1
      ensures u.email == email && u.id in db.users && db.users[u.id] == u
    {
      var found := UserWithEmail(db.users, email);
      if found.Some? {
        u := found.value;
      } else {
        u := db.CreateUser(email, None, Customer, false, Some(Plain(PlaceholderPassword)));
      }
    }

    /** The message insert of `chat`, after its sender was found or created. */
    method StoreMessage(sender: string, content: string, ticketId: nat) returns (m: Message)
      requires db.Valid()
      modifies db`users, db`messages, db`nextId, db`clock
      ensures db.Valid()
      ensures UserWithEmail(old(db.users), sender).Some? ==> db.users == old(db.users)
      ensures UserWithEmail(old(db.users), sender).None? ==>
        db.users == old(db.users)[old(db.nextId) := GuestUser(old(db.nextId), sender, old(db.clock))]
      ensures db.messages == old(db.messages) + [m]
      ensures m.ticketId == ticketId && m.content == content
      ensures m.userId in db.users && db.users[m.userId].email == sender
    {
      var u := SenderOf(sender);
      m := db.CreateMessage(ticketId, u.id, content);
    }

    /** The file insert of `chat`: the NFC form of the original name, the URL
        of the upload, the decoded size, and a reference to the message. */
    method StoreFile(codecs: Codecs, file: ChatFile, m: Message) returns (f: FileRecord)
      requires db.Valid() && NfcKeepsSafeNames(codecs.nfc)
      modifies db`files, db`nextId
      ensures db.Valid()
      ensures db.files == old(db.files) + [f]
      ensures f.filename == codecs.nfc(file.name) && f.url == UploadFile(codecs, file.name).url
      ensures f.size == |codecs.base64Decode(file.data)| && f.messageId == Some(m.id) && f.ticketId == None
    {
      var up := UploadFile(codecs, file.name);
      f := db.CreateFile(codecs.nfc(up.originalFileName), up.url, |codecs.base64Decode(file.data)|, Some(m.id), None, None);
    }

    /** `socket.on('chat', msg)`. `uploadFails` says whether the attachment
        upload throws (it is not caught: the message stays stored and nothing
        is broadcast); `lookupThrows` whether the ticket lookup of the mail step
        throws (it is caught). The result is the mail handed to `sendMail`. */
    method Chat(codecs: Codecs, msg: ChatPayload, uploadFails: bool, lookupThrows: bool) returns (mail: Option<Mail>)
      requires db.Valid() && NfcKeepsSafeNames(codecs.nfc)
      modifies db`users, db`messages, db`files, db`nextId, db`clock, this`emitted
      ensures db.Valid()
      ensures !IsNumeric(msg.ticketId) ==>
        db.users == old(db.users) && db.messages == old(db.messages) && db.files == old(db.files)
        && emitted == old(emitted) && mail == None
      ensures IsNumeric(msg.ticketId) ==>
        var known := UserWithEmail(old(db.users), msg.user);
        (known.Some? ==> db.users == old(db.users))
        && (known.None? ==> db.users == old(db.users)[old(db.nextId) := GuestUser(old(db.nextId), msg.user, old(db.clock))])
      ensures IsNumeric(msg.ticketId) ==>
        |db.messages| == |old(db.messages)| + 1 && db.messages[..|old(db.messages)|] == old(db.messages)
        && var m := db.messages[|old(db.messages)|];
        m.ticketId == ParseDecimal(msg.ticketId) && m.content == msg.content
        && m.userId in db.users && db.users[m.userId].email == msg.user
      ensures IsNumeric(msg.ticketId) && (msg.file.None? || uploadFails) ==> db.files == old(db.files)
      ensures IsNumeric(msg.ticketId) && msg.file.Some? && !uploadFails ==>
        |db.files| == |old(db.files)| + 1 && db.files[..|old(db.files)|] == old(db.files)
        && var f := db.files[|old(db.files)|];
        f.filename == codecs.nfc(msg.file.value.name)
        && f.url == UploadFile(codecs, msg.file.value.name).url
        && f.size == |codecs.base64Decode(msg.file.value.data)|
        && f.messageId == Some(db.messages[|old(db.messages)|].id) && f.ticketId == None
      ensures IsNumeric(msg.ticketId) && msg.file.Some? && uploadFails ==> emitted == old(emitted) && mail == None
      ensures IsNumeric(msg.ticketId) && (msg.file.None? || !uploadFails) ==>
        var m := db.messages[|old(db.messages)|];
        var link := if msg.file.Some? then Some(FileLink(db.files[|old(db.files)|].filename, db.files[|old(db.files)|].url)) else None;
        emitted == old(emitted) + [Broadcast(msg.ticketId, Audience(msg.ticketId), ChatEvent(m.id, msg.user, m.content, m.createdAt, link))]
        && var t := ChatTicket(db.tickets, db.users, ParseDecimal(msg.ticketId), lookupThrows);
        mail == if t.None? then None
          else Some(Mail(ChatRecipients(t.value.1.email, msg.user), None, ChatReceived(t.value.0.id, msg.user, msg.content, link)))
    {
      mail := None;
      if !IsNumeric(msg.ticketId) {
        return;
      }
      var m := StoreMessage(msg.user, msg.content, ParseDecimal(msg.ticketId));
      assert db.messages[|old(db.messages)|] == m;
      mail := Deliver(codecs, msg, m, uploadFails, lookupThrows);
    }

    /** The steps of `chat` after the message insert: the optional file
        insert, the mail and the broadcast. */
    method Deliver(codecs: Codecs, msg: ChatPayload, m: Message, uploadFails: bool, lookupThrows: bool) returns (mail: Option<Mail>)
      requires db.Valid() && NfcKeepsSafeNames(codecs.nfc) && IsNumeric(msg.ticketId)
      modifies db`files, db`nextId, this`emitted
      ensures db.Valid()
      ensures msg.file.None? || uploadFails ==> db.files == old(db.files)
      ensures msg.file.Some? && !uploadFails ==>
        |db.files| == |old(db.files)| + 1 && db.files[..|old(db.files)|] == old(db.files)
        && var f := db.files[|old(db.files)|];
        f.filename == codecs.nfc(msg.file.value.name)
        && f.url == UploadFile(codecs, msg.file.value.name).url
        && f.size == |codecs.base64Decode(msg.file.value.data)|
        && f.messageId == Some(m.id) && f.ticketId == None
      ensures msg.file.Some? && uploadFails ==> emitted == old(emitted) && mail == None
      ensures msg.file.None? || !uploadFails ==>
        var link := if msg.file.Some? then Some(FileLink(db.files[|old(db.files)|].filename, db.files[|old(db.files)|].url)) else None;
        emitted == old(emitted) + [Broadcast(msg.ticketId, Audience(msg.ticketId), ChatEvent(m.id, msg.user, m.content, m.createdAt, link))]
        && var t := ChatTicket(db.tickets, db.users, ParseDecimal(msg.ticketId), lookupThrows);
        mail == if t.None? then None
          else Some(Mail(ChatRecipients(t.value.1.email, msg.user), None, ChatReceived(t.value.0.id, msg.user, msg.content, link)))
    {
      mail := None;
      var link: Option<FileLink> := None;
      if msg.file.Some? {
        if uploadFails {
          return;
        }
        var f := StoreFile(codecs, msg.file.value, m);
        assert db.files[|old(db.files)|] == f;
        link := Some(FileLink(f.filename, f.url));
      }
      var t := ChatTicket(db.tickets, db.users, ParseDecimal(msg.ticketId), lookupThrows);
      if t.Some? {
        mail := Some(Mail(ChatRecipients(t.value.1.email, msg.user), None, ChatReceived(t.value.0.id, msg.user, msg.content, link)));
      }
      emitted := emitted + [Broadcast(msg.ticketId, Audience(msg.ticketId), ChatEvent(m.id, msg.user, m.content, m.createdAt, link))];
    }
  }

  /** A known sender leaves the user table as it was, so emails stay unique
      however many chats arrive; an unknown one is added exactly once: after
      its first chat it is known. */
  lemma GuestCreatedOnce(users: map<nat, User>, nextId: nat, email: string, at: nat)
    requires UsersValid(users, nextId) && nextId > 0 && UserWithEmail(users, email).None?
    ensures UsersValid(users[nextId := GuestUser(nextId, email, at)], nextId + 1)
    ensures UserWithEmail(users[nextId := GuestUser(nextId, email, at)], email) == Some(GuestUser(nextId, email, at))
  {
    var g := GuestUser(nextId, email, at);
    UsersInsert(users, g, nextId);
    UserWithEmailUnique(users[nextId := g], nextId + 1, g);
  }
}
