/** The two duplicate-free email lists of the frontend: the cc list of the
    new-ticket page `frontend/pages/tickets/new.tsx` and the extra addresses
    of the settings page `frontend/pages/mypage.tsx`. Both add a trimmed input
    the same way and remove by value; the settings page also loads its state
    from the server and sends it back. */
module EmailLists {
  import opened Common
  import opened Seqs
  import opened Text

  /** Neither duplicates nor empty strings. */
  predicate Clean(list: seq<string>) {
    NoDup(list) && "" !in list
  }

  /** The add handler on a list and its input field: the trimmed input is
      appended, and the field cleared, only when it is non-empty and not yet
      listed; otherwise both stay as they were. */
  function AddEmail(list: seq<string>, input: string): (r: (seq<string>, string))
    ensures var e := Trim(input);
      (e != "" && e !in list ==> r == (list + [e], ""))
      && (e == "" || e in list ==> r == (list, input))
  {
    var e := Trim(input);
    if e != "" && e !in list then (list + [e], "") else (list, input)
  }

  /** Adding keeps a list clean. */
  lemma AddKeepsClean(list: seq<string>, input: string)
    requires Clean(list)
    ensures Clean(AddEmail(list, input).0)
  {
    var e := Trim(input);
    if e != "" && e !in list {
      var r := list + [e];
      forall i, j | 0 <= i < j < |r| ensures r[i] != r[j] {
        if j == |list| {
          assert r[i] == list[i] && list[i] in list;
        } else {
          assert r[i] == list[i] && r[j] == list[j];
        }
      }
    }
  }

  /** Adding a fresh email, then removing it, gives back the list. */
  lemma AddThenRemoveRestores(list: seq<string>, input: string)
    requires Trim(input) != "" && Trim(input) !in list
    ensures RemoveAll(AddEmail(list, input).0, Trim(input)) == list
  {
    AppendThenRemove(list, Trim(input));
  }

  /** Removing drops every copy of the email and keeps the rest in order: on
      a clean list, the one entry at its position. */
  lemma RemoveDropsEntry(list: seq<string>, k: nat)
    requires Clean(list) && k < |list|
    ensures RemoveAll(list, list[k]) == list[..k] + list[k + 1..]
    ensures Clean(RemoveAll(list, list[k]))
  {
    var keep := NotEqual(list[k]);
    forall i | 0 <= i < |list| && i != k ensures keep(list[i]) {
      if i < k { assert list[i] != list[k]; } else { assert list[k] != list[i]; }
    }
    FilterDropsOne(list, k, keep);
    FilterNoDup(list, keep);
  }

  /** Removing an email that is not listed changes nothing. */
  lemma RemoveAbsentNoChange(list: seq<string>, email: string)
    requires email !in list
    ensures RemoveAll(list, email) == list
  {
    var keep := NotEqual(email);
    forall i | 0 <= i < |list| ensures keep(list[i]) {
      assert list[i] in list;
    }
    FilterAll(list, keep);
  }

  /** The cc state of the new-ticket page. */
  class NewTicketPage {
    var ccInput: string
    var ccList: seq<string>

    predicate Valid()
      reads this
    {
      Clean(ccList)
    }

    constructor ()
      ensures Valid() && ccInput == "" && ccList == []
    {
      ccInput := "";
      ccList := [];
    }

    /** `handleAddCc`. */
    method HandleAddCc()
      requires Valid()
      modifies this
      ensures Valid()
      ensures (ccList, ccInput) == AddEmail(old(ccList), old(ccInput))
    {
      AddKeepsClean(ccList, ccInput);
      var email := Trim(ccInput);
      if email != "" && email !in ccList {
        ccList := ccList + [email];
        ccInput := "";
      }
    }

    /** `handleRemoveCc`. */
    method HandleRemoveCc(email: string)
      requires Valid()
      modifies this`ccList
      ensures Valid()
      ensures ccList == RemoveAll(old(ccList), email)
    {
      FilterNoDup(ccList, NotEqual(email));
      ccList := RemoveAll(ccList, email);
    }
  }

  /** The settings request body the page sends. */
  datatype SettingsPayload = SettingsPayload(emailNotificationsEnabled: bool, extraEmails: seq<string>)

  /** The state of the settings page. */
  class MyPage {
    var emailNotificationsEnabled: bool
    var extraEmailInput: string
    var extraEmails: seq<string>
    var loading: bool

    constructor ()
      ensures emailNotificationsEnabled && extraEmailInput == "" && extraEmails == [] && loading
    {
      emailNotificationsEnabled := true;
      extraEmailInput := "";
      extraEmails := [];
      loading := true;
    }

    /** The settings fetch: `enabled` and `extras` are the response's fields,
        None when absent or null; a failed fetch only ends the loading. */
    method Load(enabled: Option<bool>, extras: Option<seq<string>>, requestFails: bool)
      modifies this`emailNotificationsEnabled, this`extraEmails, this`loading
      ensures !loading
      ensures requestFails ==> emailNotificationsEnabled == old(emailNotificationsEnabled) && extraEmails == old(extraEmails)
      ensures !requestFails ==> emailNotificationsEnabled == enabled.GetOr(true) && extraEmails == extras.GetOr([])
    {
      if !requestFails {
        emailNotificationsEnabled := enabled.GetOr(true);
        extraEmails := extras.GetOr([]);
      }
      loading := false;
    }

    /** `handleAddEmail`: keeps the list clean when it is. */
    method HandleAddEmail()
      modifies this`extraEmails, this`extraEmailInput
      ensures (extraEmails, extraEmailInput) == AddEmail(old(extraEmails), old(extraEmailInput))
      ensures old(Clean(extraEmails)) ==> Clean(extraEmails)
    {
      if Clean(extraEmails) {
        AddKeepsClean(extraEmails, extraEmailInput);
      }
      var email := Trim(extraEmailInput);
      if email != "" && email !in extraEmails {
        extraEmails := extraEmails + [email];
        extraEmailInput := "";
      }
    }

    /** `handleRemoveEmail`. */
    method HandleRemoveEmail(email: string)
      modifies this`extraEmails
      ensures extraEmails == RemoveAll(old(extraEmails), email)
      ensures old(Clean(extraEmails)) ==> Clean(extraEmails)
    {
      if Clean(extraEmails) {
        FilterNoDup(extraEmails, NotEqual(email));
      }
      extraEmails := RemoveAll(extraEmails, email);
    }

    /** The body of the save request: the current flag and list, nothing else. */
    method SavePayload() returns (p: SettingsPayload)
      ensures p.emailNotificationsEnabled == emailNotificationsEnabled && p.extraEmails == extraEmails
    {
      p := SettingsPayload(emailNotificationsEnabled, extraEmails);
    }
  }
}
