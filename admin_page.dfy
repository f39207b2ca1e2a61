/** The user-management page `frontend/pages/admin.tsx`: the rows it shows,
    merged from the user list and the pending invites, and the local updates
    of its user list after a delete or a role change. Rows are what the page
    holds as JSON, so roles and dates stay strings here. */
module Admin {
  import opened Common
  import opened Seqs

  /** A user as the `GET /users` response gives it. */
  datatype UserRow = UserRow(id: nat, email: string, name: Option<string>, role: string, invited: bool, createdAt: string)

  /** An invite as the `GET /users/invites` response gives it. */
  datatype InviteRow = InviteRow(id: nat, email: string, role: string, invitedAt: string, accepted: bool, acceptedAt: Option<string>)

  /** The status column: registered, or invite mail sent. */
  datatype Status = Registered | InviteSent

  /** One row of the merged table. */
  datatype Row = Row(email: string, name: string, role: string, createdAt: string, status: Status, id: Option<nat>, isUser: bool)

  /** JavaScript's `a || b` on strings. */
  function OrElse(a: string, b: string): string { if a != "" then a else b }

  function UserEmails(users: seq<UserRow>): (r: seq<string>)
    ensures |r| == |users| && forall i :: 0 <= i < |users| ==> r[i] == users[i].email
  {
    seq(|users|, i requires 0 <= i < |users| => users[i].email)
  }

  /** The emails of the invites not yet accepted. */
  function PendingEmails(invites: seq<InviteRow>): (r: seq<string>)
    ensures forall e :: e in r <==> exists i :: 0 <= i < |invites| && !invites[i].accepted && invites[i].email == e
  {
    if invites == [] then []
    else (if invites[0].accepted then [] else [invites[0].email]) + PendingEmails(invites[1..])
  }

  predicate HasUserEmail(users: seq<UserRow>, email: string) {
    exists i :: 0 <= i < |users| && users[i].email == email
  }

  predicate HasPendingEmail(invites: seq<InviteRow>, email: string) {
    exists i :: 0 <= i < |invites| && !invites[i].accepted && invites[i].email == email
  }

  /** `new Set([...user emails, ...pending invite emails])`, in insertion order. */
  function AllEmails(users: seq<UserRow>, invites: seq<InviteRow>): (r: seq<string>)
    ensures NoDup(r)
    ensures forall e :: e in r <==> HasUserEmail(users, e) || HasPendingEmail(invites, e)
  {
    Dedup(UserEmails(users) + PendingEmails(invites))
  }

  /** `users.find(u => u.email === email)`. */
  function FindUser(users: seq<UserRow>, email: string): (r: Option<UserRow>)
    ensures r.None? <==> !HasUserEmail(users, email)
    ensures r.Some? ==> r.value in users && r.value.email == email
  {
    var k := FirstIndex(users, (u: UserRow) => u.email == email);
    if k < 0 then None else Some(users[k])
  }

  /** `invites.find(i => i.email === email && !i.accepted)`. */
  function FindPendingInvite(invites: seq<InviteRow>, email: string): (r: Option<InviteRow>)
    ensures r.None? <==> !HasPendingEmail(invites, email)
    ensures r.Some? ==> r.value in invites && r.value.email == email && !r.value.accepted
  {
    var k := FirstIndex(invites, (i: InviteRow) => i.email == email && !i.accepted);
    if k < 0 then None else Some(invites[k])
  }

  /** The row of one email: the user's fields win over the invite's, and the
      constants fill what neither gives. */
  function RowOf(users: seq<UserRow>, invites: seq<InviteRow>, email: string): (r: Row)
    ensures r.email == email
    ensures r.isUser <==> HasUserEmail(users, email)
    ensures r.status == Registered <==> r.isUser
    ensures var u := FindUser(users, email);
      r.name == if u.Some? && u.value.name.Some? && u.value.name.value != "" then u.value.name.value else "-"
    ensures var u := FindUser(users, email); var i := FindPendingInvite(invites, email);
      r.role == if u.Some? && u.value.role != "" then u.value.role
                else if i.Some? && i.value.role != "" then i.value.role
                else "CUSTOMER"
    ensures var u := FindUser(users, email); var i := FindPendingInvite(invites, email);
      r.id == if u.Some? && u.value.id != 0 then Some(u.value.id)
              else if i.Some? then Some(i.value.id)
              else None
    ensures var u := FindUser(users, email); var i := FindPendingInvite(invites, email);
      r.createdAt == if u.Some? && u.value.createdAt != "" then u.value.createdAt
                     else if i.Some? then i.value.invitedAt
                     else ""
  {
    var u := FindUser(users, email);
    var i := FindPendingInvite(invites, email);
    Row(email,
        if u.Some? && u.value.name.Some? then OrElse(u.value.name.value, "-") else "-",
        OrElse(if u.Some? then u.value.role else "", OrElse(if i.Some? then i.value.role else "", "CUSTOMER")),
        OrElse(if u.Some? then u.value.createdAt else "", if i.Some? then i.value.invitedAt else ""),
        if u.Some? then Registered else InviteSent,
        if u.Some? && u.value.id != 0 then Some(u.value.id) else if i.Some? then Some(i.value.id) else None,
        u.Some?)
  }

  /** `mergedList`: one row per email of `AllEmails`, in that order. */
  function MergedList(users: seq<UserRow>, invites: seq<InviteRow>): (r: seq<Row>)
    ensures var emails := AllEmails(users, invites);
      |r| == |emails| && forall i :: 0 <= i < |r| ==> r[i] == RowOf(users, invites, emails[i])
  {
    var emails := AllEmails(users, invites);
    seq(|emails|, i requires 0 <= i < |emails| => RowOf(users, invites, emails[i]))
  }

  /** Exactly one row per email that is a user's or a pending invite's; an
      accepted invite shows only through a user; a row is a user's row
      exactly when a user has its email. */
  lemma MergedListRows(users: seq<UserRow>, invites: seq<InviteRow>)
    ensures var r := MergedList(users, invites);
      forall i, j :: 0 <= i < j < |r| ==> r[i].email != r[j].email
    ensures var r := MergedList(users, invites);
      forall e :: (exists i :: 0 <= i < |r| && r[i].email == e) <==> HasUserEmail(users, e) || HasPendingEmail(invites, e)
    ensures var r := MergedList(users, invites);
      forall i :: 0 <= i < |r| ==> (r[i].isUser <==> HasUserEmail(users, r[i].email))
  {
    var r := MergedList(users, invites);
    var emails := AllEmails(users, invites);
    forall e ensures (exists i :: 0 <= i < |r| && r[i].email == e) <==> HasUserEmail(users, e) || HasPendingEmail(invites, e) {
      if e in emails {
        var i :| 0 <= i < |emails| && emails[i] == e;
        assert r[i].email == e;
      }
    }
  }

  /** The members of a list, as a set. */
  function Elems(xs: seq<string>): set<string> { set x | x in xs }

  /** `Array.from(new Set(a ++ b))` is the set of `a` followed by what `b`
      adds, which is what keeps the users first. */
  lemma {:induction false} DedupFromAppend(a: seq<string>, b: seq<string>, seen: set<string>)
    ensures DedupFrom(a + b, seen) == DedupFrom(a, seen) + DedupFrom(b, seen + Elems(a))
  {
    if a == [] {
      assert a + b == b;
      assert seen + Elems(a) == seen;
    } else {
      assert (a + b)[1..] == a[1..] + b;
      if a[0] in seen {
        DedupFromAppend(a[1..], b, seen);
        assert seen + Elems(a[1..]) == seen + Elems(a);
      } else {
        DedupFromAppend(a[1..], b, seen + {a[0]});
        assert seen + {a[0]} + Elems(a[1..]) == seen + Elems(a);
      }
    }
  }

  /** Row order: the users' emails first (duplicates dropped), then the
      pending-invite emails that no user has, each once. When user emails
      are distinct, the first rows are the users, in order. */
  lemma MergedListOrder(users: seq<UserRow>, invites: seq<InviteRow>)
    ensures AllEmails(users, invites)
      == Dedup(UserEmails(users)) + DedupFrom(PendingEmails(invites), Elems(UserEmails(users)))
    ensures NoDup(UserEmails(users)) ==>
      var r := MergedList(users, invites);
      |users| <= |r| && forall i :: 0 <= i < |users| ==> r[i].email == users[i].email && r[i].isUser
  {
    DedupFromAppend(UserEmails(users), PendingEmails(invites), {});
    assert {} + Elems(UserEmails(users)) == Elems(UserEmails(users));
    if NoDup(UserEmails(users)) {
      DedupOfNoDup(UserEmails(users));
    }
  }

  // ------------------------------------------------------- local updates

  /** `prev.filter(u => u.id !== id)`. */
  function WithoutUser(users: seq<UserRow>, id: nat): (r: seq<UserRow>)
    ensures forall u :: u in r <==> u in users && u.id != id
  {
    Filter(users, (u: UserRow) => u.id != id)
  }

  /** `prev.map(u => u.id === id ? { ...u, role } : u)`. */
  function WithRole(users: seq<UserRow>, id: nat, role: string): (r: seq<UserRow>)
    ensures |r| == |users|
    ensures forall i :: 0 <= i < |r| ==> r[i] == if users[i].id == id then users[i].(role := role) else users[i]
  {
    seq(|users|, i requires 0 <= i < |users| => if users[i].id == id then users[i].(role := role) else users[i])
  }

  predicate DistinctIds(users: seq<UserRow>) {
    forall i, j :: 0 <= i < j < |users| ==> users[i].id != users[j].id
  }

  /** Deleting the user at position `k`, ids being distinct, leaves the others
      in order. */
  lemma DeleteRemovesOne(users: seq<UserRow>, k: nat)
    requires DistinctIds(users) && k < |users|
    ensures WithoutUser(users, users[k].id) == users[..k] + users[k + 1..]
  {
    var keep := (u: UserRow) => u.id != users[k].id;
    forall i | 0 <= i < |users| && i != k ensures keep(users[i]) {
      if i < k { assert users[i].id != users[k].id; } else { assert users[k].id != users[i].id; }
    }
    FilterDropsOne(users, k, keep);
  }

  /** A role change leaves every other field and every other user as they
      were, and the merged table keeps its emails and order. */
  lemma RoleChangeKeepsRows(users: seq<UserRow>, invites: seq<InviteRow>, id: nat, role: string)
    ensures var r := WithRole(users, id, role);
      forall i :: 0 <= i < |r| ==>
        (r[i].id == users[i].id && r[i].email == users[i].email && r[i].name == users[i].name
         && r[i].invited == users[i].invited && r[i].createdAt == users[i].createdAt)
    ensures AllEmails(WithRole(users, id, role), invites) == AllEmails(users, invites)
  {
    assert UserEmails(WithRole(users, id, role)) == UserEmails(users);
  }

  /** What the delete handler reports. */
  datatype DeleteNotice = Deleted | DeleteFailed

  /** The page state the two handlers change. */
  class AdminPage {
    var users: seq<UserRow>
    var invites: seq<InviteRow>
    var deleteMessage: Option<DeleteNotice>

    constructor (users: seq<UserRow>, invites: seq<InviteRow>)
      ensures this.users == users && this.invites == invites && deleteMessage == None
    {
      this.users := users;
      this.invites := invites;
      deleteMessage := None;
    }

    /** The rows the page renders. */
    function Rows(): seq<Row>
      reads this
    {
      MergedList(users, invites)
    }

    /** `handleDelete`: nothing happens unless the dialog is confirmed; a
        failed request only reports the failure. */
    method HandleDelete(id: nat, confirmed: bool, requestFails: bool)
      modifies this`users, this`deleteMessage
      ensures !confirmed ==> users == old(users) && deleteMessage == old(deleteMessage)
      ensures confirmed && requestFails ==> users == old(users) && deleteMessage == Some(DeleteFailed)
      ensures confirmed && !requestFails ==> users == WithoutUser(old(users), id) && deleteMessage == Some(Deleted)
    {
      if !confirmed {
        return;
      }
      deleteMessage := None;
      if requestFails {
        deleteMessage := Some(DeleteFailed);
      } else {
        users := WithoutUser(users, id);
        deleteMessage := Some(Deleted);
      }
    }

    /** `handleRoleChange`: the list changes only after the request succeeds. */
    method HandleRoleChange(id: nat, newRole: string, requestFails: bool)
      modifies this`users
      ensures requestFails ==> users == old(users)
      ensures !requestFails ==> users == WithRole(old(users), id, newRole)
    {
      if !requestFails {
        users := WithRole(users, id, newRole);
      }
    }
  }
}
