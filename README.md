# Ticket system core, modelled in Dafny

This project models the core of a small customer-support ticket system. The
backend is Express and socket.io over a relational store; the frontend is a
set of Next.js pages. The model covers:

- the attachment filename sanitiser and the object key and URL derived from it;
- who receives notification mail;
- the chat socket handlers, `join` and `chat`;
- the ticket routes: number format, list, create with rollback, patch with the
  status-change mail, and cascading delete;
- the comment routes and their mail;
- the invite and account service: invite, accept, password rule, template
  substitution, login, password reset;
- the administration routes for users, invites and companies, and the
  mail-template routes;
- the pure list and validation helpers of four frontend pages.

The store is the class `Store.Db`. Its tickets, messages, files, comments and
templates are sequences in insertion order. Users are a map keyed by id,
invites a map keyed by email, companies a map keyed by id. One id counter and
one clock give every inserted row a fresh id and a later time. `Db.Valid()`
is the invariant every handler keeps:

- ids and times increase along each table;
- every user is stored under its own id;
- emails are unique among users, and ids are unique among invites.

Handlers that change the store are methods on a `Db`. Their `ensures` state
the reply, the whole new state of every table they may modify, and the mail
they send. The mail is returned as a value and never sent. The chat handlers
live in the class `Chat.ChatServer`, which holds a `Db`, a room map and the
log of emitted events. The stateful frontend pages are classes with the
page's state fields.

Foreign code is the datatype `Foreign.Codecs` of total functions:

- NFC normalisation and `encodeURIComponent`;
- base64 decoding and `jwt.sign`;
- the calendar date of a time;
- `JSON.parse` of a cc string.

The model requires only what it needs of these functions:

- NFC leaves names made only of whitelisted characters unchanged;
- percent-encoding is injective.

Token payloads are given already verified and decoded, and bcrypt is modelled
by the password a hash was made from.

## Model

| member | source | states |
|---|---|---|
| FileNames.ReplaceDisallowed | backend/src/utils/minio.ts:21-23 | the rewrite keeps the length, keeps every whitelisted character (ASCII letters and digits, Hangul syllables U+AC00–U+D7A3, `.`, `_`, `-`) and turns every other one into `_` |
| FileNames.CollapseKeepsOtherCharacters | backend/src/utils/minio.ts:24-25 | collapsing removes underscores only: without their underscores, the input and the result are the same string |
| FileNames.CollapseByRuns | backend/src/utils/minio.ts:24-25 | the collapse works run by run: a name cut where no run of underscores is split collapses as its two parts do, so every other character stays in place between the collapsed runs |
| FileNames.CollapseRun | backend/src/utils/minio.ts:24-25 | a run of one or more underscores becomes a single `_` |
| FileNames.CollapseKeepsClean | backend/src/utils/minio.ts:25 | a name without an underscore run is left unchanged by the collapse |
| FileNames.LastIndexOf | backend/src/utils/minio.ts:28 | `lastIndexOf` returns -1 or the position of the character, with no occurrence after it |
| FileNames.ExtensionShape | backend/src/utils/minio.ts:28 | the extension is empty or a proper suffix starting at the last dot, at an index above 0; a leading dot alone is no extension |
| FileNames.SliceTo | backend/src/utils/minio.ts:29 | `slice(0, end)` is the prefix whose length is `end`, clamped to the string, or the length plus `end` when `end` is negative |
| FileNames.Prepare | backend/src/utils/minio.ts:20-25 | the normalised, rewritten and collapsed name is whitelisted, has no underscore run and is no longer than the normal form |
| FileNames.TruncateAsWritten | backend/src/utils/minio.ts:26-30 | step 4 as written keeps a name of at most 100 characters, ends a longer one with its whole extension, and returns more than 100 characters exactly when the extension alone is longer than 100 |
| FileNames.SanitizeAsWritten | backend/src/utils/minio.ts:18-32 | the sanitiser as written breaks the 100-character limit exactly when the prepared name's extension is longer than 100 characters |
| FileNames.TruncateMakesSafe | backend/src/utils/minio.ts:26-30 | the intended truncation of a prepared name yields a safe name of at most 100 characters, and leaves a name of at most 100 characters alone |
| FileNames.Sanitize | backend/src/utils/minio.ts:18-32 | the intended sanitiser always returns a safe name: whitelisted characters, no double underscore, at most 100 characters |
| FileNames.SanitizeAgreesWithAsWritten | backend/src/utils/minio.ts:27-30 | when the extension fits in 100 characters the intended sanitiser equals the one as written |
| FileNames.AsWrittenCharacters | backend/src/utils/minio.ts:23-30 | the sanitiser as written returns only whitelisted characters and never two consecutive underscores, whatever the name |
| FileNames.AsWrittenLength | backend/src/utils/minio.ts:27-30 | with an extension of at most 100 characters, the result as written has at most 100 characters, keeps the extension exactly, and its stem is a prefix of the prepared name |
| FileNames.LeadingDotIsNoExtension | backend/src/utils/minio.ts:28-29 | a too-long name whose only dot is in front is cut to its first 100 characters |
| FileNames.PrepareOfSafe | backend/src/utils/minio.ts:20-25 | a whitelisted name without underscore runs is its own normalised, rewritten and collapsed form |
| FileNames.SanitizeIdempotent | backend/src/utils/minio.ts:43-56 | sanitising a sanitised name changes nothing, for every name |
| FileNames.AsWrittenIdempotent | backend/src/utils/minio.ts:43-56 | the sanitiser as written is idempotent when the extension fits in 100 characters |
| FileNames.LastDotAt | backend/src/utils/minio.ts:28 | `lastIndexOf('.')` finds a dot that no other dot follows |
| FileNames.AsWrittenGrowsOnce | backend/src/utils/minio.ts:27-30 | as written, a too-long name whose extension exceeds 100 characters grows by exactly 100 characters |
| FileNames.AsWrittenLongExtensionGrows | backend/src/utils/minio.ts:27-30 | the counterexample: `a.` followed by k ≥ 100 letters `b` grows to k + 102 characters and changes again when sanitised a second time |
| FileNames.AsWrittenWhenFitting | backend/src/utils/minio.ts:27-30 | when the extension fits in 100 characters, the name as written is safe and a second pass leaves it alone |
| FileNames.FileUrl | backend/src/utils/minio.ts:55-57 | `getFileUrl` is the fixed prefix followed by the encoded name after one more pass of the sanitiser as written, and both parts can be read back |
| FileNames.UploadFile | backend/src/utils/minio.ts:41-57 | the upload returns the original name unchanged; its stored name is the sanitiser's result as written, whitelisted and free of underscore runs; the object key encodes that name and the URL encodes it sanitised once more; when the extension fits in 100 characters the name is safe and the URL is the prefix followed by the key |
| FileNames.UrlIdentifiesObject | backend/src/utils/minio.ts:43-57 | when both extensions fit in 100 characters, two uploads get the same URL exactly when they store under the same name |
| FileNames.UploadUrlMissesObject | backend/src/utils/minio.ts:43-56 | the counterexample: for `a.` followed by k ≥ 100 letters `b`, the stored name exceeds 100 characters and the returned URL is not the prefix followed by the key the object was stored under |
| FileNames.UploadFileIntended | backend/src/utils/minio.ts:41-57 | with the intended sanitiser the upload returns the original name, a safe name, and a URL that is the prefix followed by the key |
| FileNames.UploadAgreesWithIntended | backend/src/utils/minio.ts:41-57 | when the extension fits in 100 characters, the upload as written is the intended one |
| FileNames.IntendedUrlIdentifiesObject | backend/src/utils/minio.ts:43-57 | with the intended sanitiser, two uploads get the same URL exactly when they store under the same name, whatever the names |
| Notify.NotificationEmails | backend/src/utils/email.ts:38-48 | no user or an opted-out user gives `[]`; the list has no duplicates and no empty string; as a set it is the non-empty members of the email and the extra emails; a non-empty primary email comes first |
| Notify.OwnerMail | backend/src/routes/ticket.ts:97-107 | a mail goes out exactly when the owner's list is non-empty, to that list, with a cc exactly when the cc list is non-empty |
| Notify.OptedOutOwnerSilencesCc | backend/src/utils/email.ts:44 | an owner who opted out gets no mail, and neither do the cc recipients |
| Chat.HistoryOf | backend/src/app.ts:44-54 | the history has one entry per message of the ticket, in order, each carrying the sender's email and no file data |
| Chat.EntryNamesSender | backend/src/app.ts:49-54 | the email a history entry shows identifies its sender: looking that email up finds the user who sent the message |
| Chat.HistoryIsTicketMessages | backend/src/app.ts:44-54 | on a valid message table the history holds exactly the ticket's messages, in ascending creation time |
| Chat.ChatRecipients | backend/src/app.ts:98-99 | the recipients are the owner, then the sender when different: one or two entries, no duplicates |
| Chat.ChatTicket | backend/src/app.ts:92-97 | the mail's ticket, when found, is a stored ticket with that id together with its stored owner; a throwing lookup or a missing ticket gives none |
| Chat.ChatServer.constructor | backend/src/app.ts:36-114 | the server starts with no rooms and no emitted events |
| Chat.ChatServer.Join | backend/src/app.ts:36-55 | a missing or non-numeric ticket id emits an empty history and leaves the rooms alone; otherwise the session is added to the room's audience, every other room unchanged, and gets the ticket's history |
| Chat.ChatServer.SenderOf | backend/src/app.ts:63-66 | a known sender is returned with the user table unchanged; an unknown one gets exactly one new CUSTOMER user, not invited, with the placeholder password |
| Chat.ChatServer.StoreMessage | backend/src/app.ts:63-74 | exactly one message is appended, with the sender's id, the content and the ticket id |
| Chat.ChatServer.StoreFile | backend/src/app.ts:77-89 | the file row references the new message, has the decoded size and the NFC form of the original name, and the URL the upload as written returns |
| Chat.ChatServer.Chat | backend/src/app.ts:57-114 | a bad ticket id changes and emits nothing; otherwise one message, a file row exactly when a file is attached and the upload succeeds, the mail to owner and sender, and the broadcast, which an upload failure suppresses and a failed lookup does not |
| Chat.ChatServer.Deliver | backend/src/app.ts:75-113 | after the insert: the optional file row, the mail when the ticket is found, and the broadcast of the stored message with the sender's email and the file data |
| Chat.GuestCreatedOnce | backend/src/app.ts:63-66 | creating a guest for an unknown email keeps emails unique, and the email then finds that guest |
| Tickets.IdPartParses | backend/src/routes/ticket.ts:32 | the id part is a digit string of `max(4, digits)` characters that reads back as the id; ids from 1000 up are not padded or cut |
| Tickets.TicketNo | backend/src/routes/ticket.ts:32 | the number is the four-character prefix `TKT-`, the date part, a dash, then the id part, and nothing else |
| Tickets.TwoDigitPart | backend/src/routes/ticket.ts:32 | a month or day below 100 padded to two places is two digits that read back as the number |
| Tickets.YearDigits | backend/src/routes/ticket.ts:32 | a year from 1000 to 9999 renders as four digits |
| Tickets.DatePartShape | backend/src/routes/ticket.ts:32 | for a date with a four-digit year, month 0 to 11 and day 1 to 31, the date part is eight digits whose slices read back as the year, the 1-based month and the day |
| Tickets.DecimalLength | backend/src/routes/ticket.ts:32 | numbers from 1000 up have at least four digits |
| Tickets.TicketNoShape | backend/src/routes/ticket.ts:32 | the number starts with `TKT-` and the date part, then `-` and the id part, which reads back as the id; for a four-digit year, a month and a day in range, it is `TKT-`, eight digits, `-` and the id part |
| Tickets.TicketNoInjective | backend/src/routes/ticket.ts:32 | two tickets of the same day get different numbers |
| Tickets.SummaryNumbersDistinct | backend/src/routes/ticket.ts:30-35 | each list row keeps its ticket's id, title, status and creation time, without `userId`; distinct tickets created on the same calendar day get distinct ticket numbers |
| Tickets.VisibleAsWritten | backend/src/routes/ticket.ts:16-29 | as written, an admin or a caller without an id gets every ticket newest first; any other caller exactly the tickets they own |
| Tickets.ListAsWritten | backend/src/routes/ticket.ts:13-35 | as written, a non-admin caller without an id gets one row per ticket of the table; every row is the summary of the visible ticket at that position |
| Tickets.AsWrittenListShowsOthersTickets | backend/src/routes/ticket.ts:17-29 | as written, a non-admin caller whose token has no id is shown another user's ticket |
| Tickets.ListTickets | backend/src/routes/ticket.ts:13-39 | the intended list replies 401 to a non-admin without an id and otherwise returns the filtered list |
| Tickets.ListShowsOwnTicketsNewestFirst | backend/src/routes/ticket.ts:17-29 | an admin sees every ticket, another caller exactly their own, and the list is in strictly descending creation time |
| Tickets.RollbackRestores | backend/src/routes/ticket.ts:92 | deleting the ticket just appended gives back the ticket table as it was |
| Tickets.CreateTicket | backend/src/routes/ticket.ts:42-113 | 401 without a user, 400 for a missing title or content, a bad cc or a failed attachment, and nothing stored then; on success one ticket is appended, status OPEN, with the caller as owner, cc defaulting to `[]`, a falsy company name stored as null, a file row exactly when a file was sent, and the owner mail |
| Tickets.CreateCc | backend/src/routes/ticket.ts:49-57 | a 400 exactly for a truthy non-array value or a non-empty string that does not parse to an array; an array is taken as given; a falsy value gives `[]` |
| Tickets.Patched | backend/src/routes/ticket.ts:136-148 | title, content and status change only for a given truthy value, cc and company only when defined; id, owner and creation time never change |
| Tickets.UpdateCc | backend/src/routes/ticket.ts:140-147 | an absent cc keeps the list; an array, or a non-empty string that parses to an array, replaces it; any other value is a 400, `null` and the empty string (which `JSON.parse` refuses) included |
| Tickets.StatusMail | backend/src/routes/ticket.ts:165-177 | a mail goes out exactly when a status is given, differs from the old one and the owner's list is non-empty; it carries the updated cc |
| Tickets.NoStatusNoMail | backend/src/routes/ticket.ts:165-173 | a patch without a status never mails |
| Tickets.UpdateTicket | backend/src/routes/ticket.ts:132-183 | a bad cc or a missing ticket is a 400 with nothing changed; otherwise only that ticket is replaced by its patch, and the mail is the status mail |
| Tickets.DeleteTicket | backend/src/routes/ticket.ts:186-198 | the ticket's files, comments and messages go, then the ticket; a missing ticket is a 400 that leaves the ticket table alone |
| Tickets.DeleteLeavesOthers | backend/src/routes/ticket.ts:190-193 | the delete removes exactly the rows of that ticket from the four tables and keeps the others in id order; with increasing ids the ticket table loses exactly the ticket's row and a missing ticket leaves it as it was |
| Tickets.TicketDetail | backend/src/routes/ticket.ts:116-129 | 404 exactly when no ticket has the id; otherwise that ticket and exactly its files |
| Tickets.ViewOf | backend/src/routes/ticket.ts:204-208 | a message view carries the message, its sender and exactly its files |
| Tickets.TicketMessages | backend/src/routes/ticket.ts:201-213 | one view per message of the ticket, the i-th carrying the ticket's i-th message in table order; the views are those of exactly the ticket's messages |
| Tickets.TicketMessagesAscending | backend/src/routes/ticket.ts:204-206 | on a valid message table the views come in strictly ascending creation time |
| Comments.ListComments | backend/src/routes/comment.ts:10-22 | the list is the ticket's comments in table order, each with its author |
| Comments.ListCommentsIsTicketComments | backend/src/routes/comment.ts:13-17 | on a valid comment table the list holds exactly the ticket's comments, in ascending creation time |
| Comments.CommentMailAsWritten | backend/src/routes/comment.ts:40-53 | as written: a mail exactly when the ticket and the author exist and the owner's list is non-empty, to that list, showing the author's name or, when it is empty or absent, the author's email, and never with a cc |
| Comments.CommentMail | backend/src/routes/comment.ts:40-53 | as intended: the same mail, with the ticket's cc list when non-empty |
| Comments.AsWrittenCommentMailLosesCc | backend/src/routes/comment.ts:44 | for a ticket with cc recipients and an owner who gets mail, the route as written drops the cc that the intended mail carries |
| Comments.CommentMailsAgreeWithoutCc | backend/src/routes/comment.ts:44 | the two mails agree when the ticket has no cc |
| Comments.CreateComment | backend/src/routes/comment.ts:25-59 | 401 without a user, 400 without a ticket id or content, and nothing stored then; otherwise exactly one comment with the content, the ticket and the caller, and the comment mail as written, which never carries a cc |
| Comments.UpdateComment | backend/src/routes/comment.ts:62-76 | an empty content or a missing comment is a 400 with nothing changed; otherwise only that comment's content changes |
| Comments.UpdateCommentKeepsOthers | backend/src/routes/comment.ts:66-71 | the new list is the old one with only the comment at the index swapped for its edited copy, which keeps its id, ticket, author and creation time and has the new content |
| Comments.DeleteComment | backend/src/routes/comment.ts:79-87 | a missing comment is a 400 with nothing changed; otherwise the comment with that id goes |
| Comments.DeleteCommentRemovesOne | backend/src/routes/comment.ts:82 | ids being unique, the delete removes exactly one row and keeps the rest in order |
| Passwords.PasswordRule | backend/src/services/authService.ts:80-87 | a password that passes the rule has at least four characters and an ASCII letter or digit |
| Passwords.AstralCharactersCountTwice | backend/src/services/authService.ts:81 | a letter, a digit and three characters outside the Basic Multilingual Plane are five characters but eight code units, and pass the rule |
| Passwords.SingleClassRefused | backend/src/services/authService.ts:80-87 | a password of a single character class fails the rule, whatever its length |
| Passwords.TwoClassesSuffice | backend/src/services/authService.ts:80-87 | eight or more UTF-16 code units with characters of two classes pass the rule |
| AuthService.IsValidPassword | backend/src/services/authService.ts:80-87 | the counting check holds exactly when the password has at least 8 UTF-16 code units and two of letter, digit and other character occur |
| AuthService.InviteMailBody | backend/src/services/authService.ts:25-33 | without a template the built-in mail; with one, the template with `${inviteUrl}` replaced first and then `${email}` |
| AuthService.Substitute | backend/src/services/authService.ts:30-32 | a body without `$` is unchanged; a body that is only the link placeholder becomes the link, and one that is only the address placeholder becomes the address |
| AuthService.InviteUrl | backend/src/services/authService.ts:22-23 | the link is the frontend URL (the configured one when set and non-empty, otherwise `http://localhost:3000`) and `/accept-invite?token=`, followed by the signed invite token naming the email and the role |
| AuthService.SubstituteBothPlaceholders | backend/src/services/authService.ts:30-32 | a template with each placeholder once, around `$`-free text, gets the link and the address in their places |
| AuthService.FirstPass | backend/src/services/authService.ts:31 | the link pass replaces only the link placeholder |
| AuthService.SecondPass | backend/src/services/authService.ts:32 | the address pass replaces the one address placeholder |
| AuthService.EmailPlaceholderSurvives | backend/src/services/authService.ts:31 | the link pass leaves an address placeholder alone |
| AuthService.NoDollarUnchanged | backend/src/services/authService.ts:30-32 | a text without `$` holds no placeholder and is copied unchanged |
| AuthService.InviteCheck | backend/src/services/authService.ts:10-14 | refused exactly when a user has the email, or else when a pending invite exists; otherwise passed |
| AuthService.InviteUser | backend/src/services/authService.ts:8-41 | a refused invite changes nothing and sends nothing; otherwise the email's invite becomes pending with the role, keeping its id when it existed, and the invite mail is built with the token link |
| AuthService.ReinviteAfterUserRemoved | backend/src/services/authService.ts:14-19 | an accepted invite whose user is gone can be sent again |
| AuthService.AcceptCheck | backend/src/services/authService.ts:46-57 | passed exactly for an invite token with no user, a pending invite and a valid password; a bad token and an existing user are refused first |
| AuthService.AcceptInvite | backend/src/services/authService.ts:43-78 | a failed check changes nothing; otherwise exactly one user with the token's email and role (CUSTOMER when the token names none), not invited, with the hashed password, and the invite marked accepted |
| AuthService.CreateInvitedUser | backend/src/services/authService.ts:58-72 | the user row and the invite update of a passed acceptance, and nothing else |
| AuthService.SecondAcceptRefused | backend/src/services/authService.ts:49-50 | once the user exists, accepting the same token is refused as already registered |
| AuthService.Login | backend/src/services/authService.ts:89-97 | unknown or invited users, users without a password (none stored, or an empty unhashed value; any hash, even of the empty password, counts as one) and wrong passwords are refused, in that order; success returns the stored id, email and role with the signed token |
| AuthService.CredentialMatches | backend/src/services/authService.ts:93 | a stored password matches exactly when it is the hash of the given password; a plain value never matches |
| AuthService.PlaceholderNeverLogsIn | backend/src/services/authService.ts:92-94 | a user created with the placeholder password never logs in |
| AuthService.HashedUserLogsIn | backend/src/services/authService.ts:89-96 | a user who is not invited and holds a hash logs in with that password and with no other |
| AuthService.RequestReset | backend/src/services/authService.ts:99-110 | an unknown email is refused; for a known one, a `sendMail` failure is the result; otherwise the result is the mail with the reset link for its id |
| AuthService.ResetCheck | backend/src/services/authService.ts:113-116 | passed exactly for a reset token naming an existing user |
| AuthService.ResetPassword | backend/src/services/authService.ts:112-120 | a failed check changes nothing; otherwise only that user's password and invited flag change |
| AuthService.ResetUserLogsIn | backend/src/services/authService.ts:112-120 | after a reset the user logs in with the new password, whatever it is, the empty one included |
| Users.AddUser | backend/src/routes/user.ts:22-36 | 403 for a non-admin, 400 without email or role or for a taken email, and no change then; otherwise one new user with the placeholder password |
| Users.ChangeRole | backend/src/routes/user.ts:39-50 | 403, or 400 without a role or for a missing user; otherwise only that user's role changes |
| Users.DeleteUser | backend/src/routes/user.ts:53-62 | 403, or 400 for a missing user; otherwise exactly that user goes |
| Users.GetSettings | backend/src/routes/user.ts:65-76 | 401 without an id; otherwise the caller's record, or none |
| Users.UpdateSettings | backend/src/routes/user.ts:79-94 | 401 without an id, 400 for a missing user; otherwise only `extraEmails` changes, and only when an array is given |
| Users.GetMe | backend/src/routes/user.ts:97-109 | 401 without an id, 404 for a missing user, otherwise the caller's id, email, name and role |
| Users.DeleteInvite | backend/src/routes/user.ts:123-132 | 403, or 400 when no invite has the id; otherwise exactly the invites with that id go |
| Users.DeleteInviteRemovesOne | backend/src/routes/user.ts:127 | invite ids being unique, the delete removes one email's invite |
| Users.CreateCompany | backend/src/routes/user.ts:149-159 | 403, or 400 without a name; otherwise one new company with a fresh id |
| Users.UpdateCompany | backend/src/routes/user.ts:162-171 | 403; 400 for a missing company or a `null` name; otherwise a field left out of the body stays, a given name or domain is written, and a `null` domain clears the domain |
| Users.DeleteCompany | backend/src/routes/user.ts:174-182 | 403, or 400 for a missing company; otherwise exactly that company goes |
| Users.AssignToCompany | backend/src/routes/user.ts:185-195 | 403, or 400 without a user id or for a missing user; otherwise only that user's company is set |
| Users.UnassignFromCompany | backend/src/routes/user.ts:198-206 | 403, or 400 for a missing user; otherwise only that user's company is cleared |
| Templates.GetTemplate | backend/src/routes/emailTemplate.ts:9-15 | 403 for a non-admin, 404 when no template has the type; otherwise the first template of that type |
| Templates.Saved | backend/src/routes/emailTemplate.ts:23-28 | the first template of the type gets the new subject and body in place and the others stay, or one row is appended when there is none |
| Templates.PutTemplate | backend/src/routes/emailTemplate.ts:18-30 | 403, or 400 for an empty subject or body, with no change; otherwise the table is the saved table |
| Templates.GetAfterPut | backend/src/routes/emailTemplate.ts:12-29 | reading a type right after saving it gives the saved subject and body |
| Templates.CountOfKind | backend/src/routes/emailTemplate.ts:23 | the count of a type is zero exactly when no template has it |
| Templates.SaveKeepsOnePerKind | backend/src/routes/emailTemplate.ts:23-28 | a save never adds a second template for a type that has one, and makes the count one otherwise |
| Admin.PendingEmails | frontend/pages/admin.tsx:158 | exactly the emails of the invites not yet accepted |
| Admin.AllEmails | frontend/pages/admin.tsx:156-159 | no duplicates, and exactly the user emails and the pending-invite emails |
| Admin.FindUser | frontend/pages/admin.tsx:161 | a user with that email, present exactly when one exists |
| Admin.FindPendingInvite | frontend/pages/admin.tsx:162 | a pending invite with that email, present exactly when one exists |
| Admin.RowOf | frontend/pages/admin.tsx:160-172 | name is the user's or `-`; role is the user's, else the invite's, else CUSTOMER; id is the user's, else the invite's; the date is the user's creation date, else the invite's date, else empty; `isUser` and the registered status hold exactly when a user has the email |
| Admin.MergedList | frontend/pages/admin.tsx:160-172 | one row per email of the merged emails, in that order |
| Admin.MergedListRows | frontend/pages/admin.tsx:156-172 | exactly one row per distinct email of a user or a pending invite, and `isUser` exactly for users' emails |
| Admin.DedupFromAppend | frontend/pages/admin.tsx:156-159 | deduplicating two concatenated lists is deduplicating the first, then what of the second is new |
| Admin.MergedListOrder | frontend/pages/admin.tsx:156-160 | the rows are the users in order, then the pending-invite emails not already listed |
| Admin.WithoutUser | frontend/pages/admin.tsx:133 | exactly the users with another id remain |
| Admin.WithRole | frontend/pages/admin.tsx:142 | the user with the id gets the role; every other entry stays |
| Admin.DeleteRemovesOne | frontend/pages/admin.tsx:133 | with distinct ids, the delete removes one entry and keeps the others in order |
| Admin.RoleChangeKeepsRows | frontend/pages/admin.tsx:142 | a role change alters no other field of any user, and no email of the merged list |
| Admin.AdminPage.constructor | frontend/pages/admin.tsx:128-172 | the page holds the fetched users and invites and no message |
| Admin.AdminPage.HandleDelete | frontend/pages/admin.tsx:128-138 | nothing happens unless confirmed; a failed request only reports it; otherwise the user is removed locally |
| Admin.AdminPage.HandleRoleChange | frontend/pages/admin.tsx:140-143 | the list changes only after a successful request, to the role-changed list |
| EmailLists.AddEmail | frontend/pages/tickets/new.tsx:25-31 | the trimmed input is appended, and the input cleared, only when non-empty and not yet listed; otherwise both stay |
| EmailLists.AddKeepsClean | frontend/pages/tickets/new.tsx:27-28 | adding keeps a list free of duplicates and empty strings |
| EmailLists.AddThenRemoveRestores | frontend/pages/tickets/new.tsx:28-33 | adding a fresh email and then removing it gives back the list |
| EmailLists.RemoveDropsEntry | frontend/pages/tickets/new.tsx:33 | removing from a clean list drops the one entry and keeps the rest in order |
| EmailLists.RemoveAbsentNoChange | frontend/pages/tickets/new.tsx:33 | removing an email that is not listed changes nothing |
| EmailLists.NewTicketPage.constructor | frontend/pages/tickets/new.tsx:16-17 | the input and the list start empty |
| EmailLists.NewTicketPage.HandleAddCc | frontend/pages/tickets/new.tsx:25-31 | the new state is the add of the old one, and the list stays clean |
| EmailLists.NewTicketPage.HandleRemoveCc | frontend/pages/tickets/new.tsx:32-34 | the list loses every copy of the email, and stays clean |
| EmailLists.MyPage.constructor | frontend/pages/mypage.tsx:8-11 | notifications on, nothing listed, loading |
| EmailLists.MyPage.Load | frontend/pages/mypage.tsx:16-25 | loading ends; on success the flag defaults to true and the list to `[]` when the server omits them |
| EmailLists.MyPage.HandleAddEmail | frontend/pages/mypage.tsx:27-33 | the new state is the add of the old one, and a clean list stays clean |
| EmailLists.MyPage.HandleRemoveEmail | frontend/pages/mypage.tsx:34-36 | the list loses every copy of the email, and a clean list stays clean |
| AcceptInvitePage.ClientPasswordValid | frontend/pages/accept-invite.tsx:27-34 | the page's rule, length counted in UTF-16 code units, is the same predicate as the backend's |
| AcceptInvitePage.SubmitGuard | frontend/pages/accept-invite.tsx:42-44 | the token is checked first, then the rule, then the confirmation, and the request goes out only when all pass |
| AcceptInvitePage.CanSubmitProceeds | frontend/pages/accept-invite.tsx:36-44 | an enabled submit button always leads to the request |
| AcceptInvitePage.WeakPasswordNeverSubmitted | frontend/pages/accept-invite.tsx:28-36 | a password shorter than 8 code units or of one class never enables the button or reaches the request |
| Store.UserWithEmail | backend/src/services/authService.ts:49 | `findUnique` by email: none exactly when no user has the email, otherwise that stored user |
| Store.UserLookupsAgree | backend/src/routes/user.ts:100 | on a valid user table the lookup by id and the lookup by email agree: the user found by id carries that id, and its email finds it again |
| Store.IndexOfId | backend/src/routes/ticket.ts:118-121 | the position of the row with the id, or -1 exactly when none has it |
| Store.TemplateOfKind | backend/src/routes/emailTemplate.ts:12 | `findFirst` by type: none exactly when no template has the type |
| Store.TemplateIndex | backend/src/routes/emailTemplate.ts:23 | the position of the first template of the type, or -1 |
| Store.MessagesOf | backend/src/app.ts:44-48 | exactly the ticket's messages |
| Store.MessagesOfAscending | backend/src/app.ts:46 | on a valid table the ticket's messages come in strictly ascending creation time |
| Store.InvitesWithout | backend/src/routes/user.ts:127 | exactly the invites with another id remain, unchanged |
| AuthService.SessionCallerIsStoredUser | backend/src/middlewares/auth.ts:14-15 | the caller built from the session token `login` signs is authenticated as the stored user with that email and passes the ADMIN gate exactly when that user's stored role is ADMIN; the caller built from an invite token has no id |
| Store.Db.constructor | backend/src/app.ts:17 | an empty, valid database |
| Store.Db.CreateUser | backend/src/app.ts:65 | a fresh id, the current time, the column defaults; only the user table, the counter and the clock change |
| Store.Db.CreateTicket | backend/src/routes/ticket.ts:58-75 | one ticket row appended with a fresh id and the current time |
| Store.Db.CreateMessage | backend/src/app.ts:68-74 | one message row appended with a fresh id and the current time |
| Store.Db.CreateComment | backend/src/routes/comment.ts:31-38 | one comment row appended with a fresh id and the current time |
| Store.Db.CreateFile | backend/src/app.ts:81-88 | one file row appended with a fresh id |
| Store.Db.DeleteTickets | backend/src/routes/ticket.ts:193 | the ticket rows the filter rejects go, and the table stays valid |
| Store.Db.DeleteMessages | backend/src/routes/ticket.ts:192 | the message rows the filter rejects go |
| Store.Db.DeleteComments | backend/src/routes/ticket.ts:191 | the comment rows the filter rejects go |
| Store.Db.DeleteFiles | backend/src/routes/ticket.ts:190 | the file rows the filter rejects go |
| Store.Db.UpdateUser | backend/src/services/authService.ts:118 | the user is rewritten under its id |
| Store.Db.RemoveUser | backend/src/routes/user.ts:57 | the user with the id goes |
| Store.Db.CreateInvite | backend/src/services/authService.ts:16-20 | a fresh pending invite, invited now |
| Store.Db.UpdateInvite | backend/src/services/authService.ts:69-72 | the invite is rewritten under its email |
| Store.Db.RemoveInvite | backend/src/routes/user.ts:127 | the invites with the id go |
| Store.Db.CreateCompany | backend/src/routes/user.ts:154 | one company with a fresh id |
| Store.Db.UpdateCompany | backend/src/routes/user.ts:166 | the company is rewritten under its id |
| Store.Db.RemoveCompany | backend/src/routes/user.ts:177 | the company with the id goes |
| Store.Db.CreateTemplate | backend/src/routes/emailTemplate.ts:27 | one template row appended with a fresh id |
| Store.Db.UpdateTemplate | backend/src/routes/emailTemplate.ts:25 | the template at the position is rewritten |
| Text.Decimal | backend/src/routes/ticket.ts:32 | `String(n)` is a non-empty digit string |
| Text.ParseDecimalOfDecimal | backend/src/routes/ticket.ts:32 | rendering a number and parsing it back gives the number |
| Text.PadStart | backend/src/routes/ticket.ts:32 | `padStart` keeps the string as a suffix and fills up to the width with the pad character |
| Text.ParseDecimal | backend/src/app.ts:45 | `Number` of a digit string: 0 for the empty string, and the last digit is the units digit |
| Text.IdStringsAccepted | backend/src/app.ts:37 | an id rendered as a decimal string passes the ticket-id test and reads back as the id; `"main"` and the empty string fail it |
| Text.Utf16Length | backend/src/services/authService.ts:81 | `length` counts two code units for a character outside the Basic Multilingual Plane and one for any other: between the number of characters and twice it, and equal to it without such characters |
| Text.ReplaceAll | backend/src/services/authService.ts:31-32 | a global replace leaves a text without the pattern's first character unchanged |
| Text.Trim | frontend/pages/tickets/new.tsx:26 | `trim()` gives the input with whitespace cut from both ends: a slice of the input, only whitespace outside it, and neither starting nor ending with whitespace, so the cut is maximal |
| Seqs.Filter | backend/src/routes/ticket.ts:28 | `filter` keeps exactly the elements that pass, and never lengthens the list |
| Seqs.Dedup | frontend/pages/admin.tsx:156-159 | `Array.from(new Set(...))` has no duplicates and exactly the elements of the list |
| Seqs.FirstIndex | frontend/pages/admin.tsx:161-162 | `find` gives -1 or the first position that passes, with none before it |

## Left out

- Transport and I/O: Express routing, the socket.io connection, the Prisma client, the MinIO bucket calls, and the nodemailer transport. Mail is returned as a value; an upload or lookup failure is a boolean parameter (`attachmentFails`, `uploadFails`, `lookupThrows`, `mailFails`).
- Foreign code: JWT signing and verification, bcrypt, NFC, percent-encoding, base64, `JSON.parse` and the calendar of a time are abstract functions. Token payloads arrive decoded; a token that fails to verify is `None`.
- Dates and times: the clock is a counter, and each row gets a fresh, larger time. The ticket number takes the calendar date from a foreign function.
- Row ids: one counter numbers the rows of every table, where the store numbers each table on its own. Ids stay unique within each table, and no stated property depends on the difference.
- Number parsing: `Number` and `isNaN` on ticket ids are simplified to "a non-empty string of ASCII digits". Ids in REST paths are taken as numbers, although comment.ts and user.ts pass the raw strings to the store.
- Comments.CreateComment: the body's `ticketId` is modelled as an optional number, but backend/src/routes/comment.ts:29-34 stores it as sent, and frontend/pages/tickets/[id].tsx:28 and frontend/pages/tickets/[id].tsx:67 send the route's string id. What the store does with a string id is not modelled.
- The chat mail's ticket lookup at backend/src/app.ts:93-94 passes the raw string id. The model leaves open whether it throws, through `lookupThrows`.
- Integrity constraints: foreign keys of the relational schema are not modelled. The schema is not part of this model. The column defaults are taken as: `invited` true, `emailNotificationsEnabled` true, extra emails empty, `role` CUSTOMER (used when an invite token carries no role), an invite created pending.
- Enum-typed body fields (role, status) arrive already parsed. A string outside the enum is not modelled.
- `$` replacement patterns in `String.prototype.replace` are not modelled: template substitution is literal replacement of the placeholder.
- JavaScript strings are sequences of UTF-16 code units; the model uses characters. Where a length decides something it is counted in code units. AuthService.IsValidPassword and AcceptInvitePage.ClientPasswordValid use `Text.Utf16Length`. In the sanitiser the length test runs after the rewrite, which leaves only whitelisted characters, all inside the Basic Multilingual Plane. The rewrite itself matches each surrogate of a character outside that plane, so such a character becomes `__` in the source and `_` in the model; after the collapse of underscore runs both are one `_`.
- HTML mail bodies and subject lines are modelled only by the data they carry (a `MailBody` datatype).
- Concurrency: interleaved requests and socket events, including the find-then-create race of the chat sender, are not modelled. Every operation is sequential.
- The compiled `backend/dist` files are not modelled. Two of them differ from the sources: the settings update also stores the notification flag, and the comment mail reads `cc`.
- The list routes `GET /users`, `GET /users/invites` and `GET /users/companies` are left out: they are admin-gated reads.
- The presigned-URL helper and `ensureBucketExists` are left out.
- The frontend's HTTP requests, confirmation dialogs, error messages and rendering are left out. Their outcomes are parameters (`confirmed`, `requestFails`). The template administration page is left out too.
- The new-ticket page's submission, which JSON-encodes the cc list, is left out. An array-valued `token` query parameter is treated as absent.
- AuthService.ResetPassword: the source does not check the new password against the rule, and the model keeps that.
- EmailLists.MyPage.Load: the early return without a session token (the page stays loading) is not modelled.

## Findings

| source | as written | input that shows it | evidently intended | confidence | as-written member | corrected member |
|---|---|---|---|---|---|---|
| backend/src/utils/minio.ts:27-30 | when the extension is longer than 100 characters, `slice(0, 100 - ext.length)` gets a negative end and keeps almost the whole name, so the result grows past 100 characters and changes again on a second pass; `getFileUrl` runs that second pass, so the returned URL names another object than the one stored (FileNames.UploadUrlMissesObject) | `a.` followed by 150 letters `b` (152 characters) becomes 252 characters | at most 100 characters, and sanitising a sanitised name changes nothing | not executed | FileNames.AsWrittenLongExtensionGrows | FileNames.Sanitize |
| backend/src/routes/comment.ts:44 | the comment mail reads `ticket.ccEmails`, a field the ticket never has (tickets store `cc`), so comment mail is never copied to the cc list | a ticket with `cc = ["c@x"]` whose owner has notifications on; a comment on it mails the owner only | cc the ticket's cc list when non-empty, as the ticket create and status routes do | not executed | Comments.AsWrittenCommentMailLosesCc | Comments.CommentMail |
| backend/src/routes/ticket.ts:27-29 | the owner filter runs only when `req.user.id` is truthy, so a non-admin caller whose token carries no id gets the unfiltered list | an invite token (role CUSTOMER, no id) listing tickets that are all owned by others | refuse, or show that caller nothing of others' | not executed | Tickets.AsWrittenListShowsOthersTickets | Tickets.ListTickets |
