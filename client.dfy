/**
 * The page's session: the admin credential, the current mailbox, the two page
 * cursors and the saved-account cache, with their copies in the browser's
 * local storage, and the operations of the page that read and update them.
 * A server answer is an input status code (and, where the page reads it, the
 * decoded answer); the DOM is reduced to which panel is shown.
 */
module Client {
  import opened Wrappers
  import opened Strings
  import opened BatchImport
  import MailView

  // ---------------------------------------------------------------------------
  // Requests
  // ---------------------------------------------------------------------------

  type Headers = map<string, string>

  /** The headers `makeRequest` always sends. */
  const DefaultHeaders: Headers := map[
    "Content-Type" := "application/json",
    "Access-Control-Allow-Origin" := "*",
    "Access-Control-Allow-Methods" := "GET, POST, PUT, DELETE, OPTIONS, PATCH",
    "Access-Control-Allow-Headers" := "Content-Type, Authorization"
  ]

  const AuthConfigPath: string := "/auth/config"

  /** The JSON bodies the page sends. */
  datatype Payload =
    | NewAccount(email: string, refreshToken: string, clientId: string)
    | VerifyAccounts(accounts: seq<Candidate>)
    | ImportAccounts(accounts: seq<Candidate>)
    | DeleteEmails(emails: seq<string>)

  /** One call of `fetch`. */
  datatype Request = Request(url: string, httpMethod: string, body: Option<Payload>, headers: Headers)

  /** What `makeRequest` gives back: the response, or the error thrown for a 401. */
  datatype Outcome = Answered(status: int) | Unauthorized

  /** `response.ok`. */
  predicate Ok(o: Outcome)
  {
    o.Answered? && 200 <= o.status <= 299
  }

  /** `isPasswordSet`: the credential is present and not empty. */
  predicate IsPasswordSet(adminPassword: Option<string>)
  {
    adminPassword.Some? && |adminPassword.value| > 0
  }

  /**
   * The headers `makeRequest` sends. Without headers from the caller: the default
   * headers, plus `Authorization: Bearer <password>` exactly when a credential is
   * set and the URL is not the credential check. Because the caller's options are
   * spread after the merged headers, headers from the caller replace them all.
   */
  function RequestHeaders(url: string, adminPassword: Option<string>, supplied: Option<Headers>): (h: Headers)
    ensures supplied.Some? ==> h == supplied.value
    ensures supplied.None? ==>
      && ("Authorization" in h <==> IsPasswordSet(adminPassword) && !Contains(url, AuthConfigPath))
      && ("Authorization" in h ==> h["Authorization"] == "Bearer " + adminPassword.value)
      && (forall k :: k in DefaultHeaders ==> k in h && h[k] == DefaultHeaders[k])
      && (forall k :: k in h ==> k in DefaultHeaders || k == "Authorization")
  {
    var merged := if IsPasswordSet(adminPassword) && !Contains(url, AuthConfigPath)
      then DefaultHeaders["Authorization" := "Bearer " + adminPassword.value]
      else DefaultHeaders;
    match supplied
    case Some(headers) => headers
    case None => merged
  }

  /** The decimal digits of `n`. */
  function NatToString(n: nat): string
    decreases n
  {
    var digit := ['0' + ((n % 10) as char)];
    if n < 10 then digit else NatToString(n / 10) + digit
  }

  /** A template literal's rendering of an integer. */
  function IntToString(i: int): string
  {
    if i < 0 then "-" + NatToString(-i) else NatToString(i)
  }

  /** The URL `loadDualEmails` asks for; a missing current user renders as `null`. */
  function DualViewUrl(user: Option<string>, inboxPage: int, junkPage: int, forceRefresh: bool): string
  {
    "/emails/" + (if user.Some? then user.value else "null")
      + "/dual-view?inbox_page=" + IntToString(inboxPage)
      + "&junk_page=" + IntToString(junkPage)
      + "&page_size=" + NatToString(MailView.PageSize)
      + "&force_refresh=" + (if forceRefresh then "true" else "false")
  }

  // ---------------------------------------------------------------------------
  // The saved-account cache
  // ---------------------------------------------------------------------------

  type Cache = map<string, Credentials>

  /** The cache after import: each account in turn is stored under its email. */
  function WithImported(cache: Cache, accounts: seq<Candidate>): Cache
    decreases |accounts|
  {
    if accounts == [] then cache
    else
      var last := accounts[|accounts| - 1];
      WithImported(cache, accounts[..|accounts| - 1])[last.email := Credentials(last.refreshToken, last.clientId)]
  }

  function ImportedEmails(accounts: seq<Candidate>): set<string>
  {
    set i | 0 <= i < |accounts| :: accounts[i].email
  }

  /** Import adds exactly the imported emails to the cache. */
  lemma {:induction false} ImportedKeys(cache: Cache, accounts: seq<Candidate>)
    ensures WithImported(cache, accounts).Keys == cache.Keys + ImportedEmails(accounts)
    decreases |accounts|
  {
    if accounts != [] {
      var init := accounts[..|accounts| - 1];
      ImportedKeys(cache, init);
      assert ImportedEmails(accounts) == ImportedEmails(init) + {accounts[|accounts| - 1].email} by {
        forall e | e in ImportedEmails(accounts) ensures e in ImportedEmails(init) + {accounts[|accounts| - 1].email} {
          var i :| 0 <= i < |accounts| && accounts[i].email == e;
          if i < |init| {
            assert init[i] == accounts[i];
          }
        }
        forall e | e in ImportedEmails(init) ensures e in ImportedEmails(accounts) {
          var i :| 0 <= i < |init| && init[i].email == e;
          assert accounts[i] == init[i];
        }
      }
    }
  }

  /** Entries for emails that were not imported keep their credentials. */
  lemma {:induction false} ImportedUntouched(cache: Cache, accounts: seq<Candidate>, email: string)
    requires email in cache
    requires forall i :: 0 <= i < |accounts| ==> accounts[i].email != email
    ensures email in WithImported(cache, accounts) && WithImported(cache, accounts)[email] == cache[email]
    decreases |accounts|
  {
    if accounts != [] {
      var init := accounts[..|accounts| - 1];
      assert forall i :: 0 <= i < |init| ==> init[i] == accounts[i];
      ImportedUntouched(cache, init, email);
    }
  }

  /**
   * Every imported account is stored, whatever the server answered for it, and
   * when an email appears more than once the last occurrence wins.
   */
  lemma {:induction false} ImportedLastWins(cache: Cache, accounts: seq<Candidate>, i: nat)
    requires i < |accounts|
    requires forall j :: i < j < |accounts| ==> accounts[j].email != accounts[i].email
    ensures accounts[i].email in WithImported(cache, accounts)
    ensures WithImported(cache, accounts)[accounts[i].email] == Credentials(accounts[i].refreshToken, accounts[i].clientId)
    decreases |accounts|
  {
    var init := accounts[..|accounts| - 1];
    if i < |accounts| - 1 {
      assert forall j :: i < j < |init| ==> init[j] == accounts[j];
      ImportedLastWins(cache, init, i);
    }
  }

  function ElementsOf(emails: seq<string>): set<string>
  {
    set i | 0 <= i < |emails| :: emails[i]
  }

  // ---------------------------------------------------------------------------
  // The session
  // ---------------------------------------------------------------------------

  /** The card the page shows. */
  datatype Panel = AdminLoginPanel | ManagementPanel | MailboxPanel

  /** The session's fields, as one value. */
  datatype View = View(
    adminPassword: Option<string>,
    storedPassword: Option<string>,
    currentUser: Option<string>,
    currentInboxPage: int,
    currentJunkPage: int,
    savedAccounts: Cache,
    storedAccounts: Cache,
    panel: Panel)

  class Session {
    var adminPassword: Option<string>
    /** Local storage's `adminPassword`. */
    var storedPassword: Option<string>
    var currentUser: Option<string>
    var currentInboxPage: int
    var currentJunkPage: int
    var savedAccounts: Cache
    /** Local storage's `savedAccounts`. */
    var storedAccounts: Cache
    var panel: Panel

    function Snapshot(): View
      reads this
    {
      View(adminPassword, storedPassword, currentUser, currentInboxPage, currentJunkPage, savedAccounts, storedAccounts, panel)
    }

    /** Every write to the credential and the cache is written through to local storage. */
    ghost predicate Valid()
      reads this
    {
      storedPassword == adminPassword && storedAccounts == savedAccounts
    }

    /**
     * Page load: the credential and the cache are read back from local storage,
     * and `window.onload` shows the management panel when a credential is set.
     */
    constructor (stored: Option<string>, cached: Cache)
      ensures Valid()
      ensures Snapshot() == View(stored, stored, None, 1, 1, cached, cached,
        if IsPasswordSet(stored) then ManagementPanel else AdminLoginPanel)
    {
      adminPassword := stored;
      storedPassword := stored;
      currentUser := None;
      currentInboxPage := 1;
      currentJunkPage := 1;
      savedAccounts := cached;
      storedAccounts := cached;
      panel := if IsPasswordSet(stored) then ManagementPanel else AdminLoginPanel;
    }

    /** `setAdminPassword`: afterwards a credential is set whenever `password` is not empty. */
    method SetAdminPassword(password: string)
      requires Valid()
      modifies this
      ensures Valid()
      ensures Snapshot() == old(Snapshot()).(adminPassword := Some(password), storedPassword := Some(password))
      ensures password != "" ==> IsPasswordSet(adminPassword)
    {
      adminPassword := Some(password);
      storedPassword := Some(password);
    }

    /** `clearAdminPassword`: afterwards no credential is set. */
    method ClearAdminPassword()
      requires Valid()
      modifies this
      ensures Valid()
      ensures Snapshot() == old(Snapshot()).(adminPassword := None, storedPassword := None)
      ensures !IsPasswordSet(adminPassword)
    {
      adminPassword := None;
      storedPassword := None;
    }

    /**
     * `makeRequest`: sends the request with `RequestHeaders`. A 401 answer clears
     * the credential, shows the admin login and throws; any other answer is
     * returned and changes nothing.
     */
    method MakeRequest(url: string, httpMethod: string, body: Option<Payload>, supplied: Option<Headers>, status: int)
      returns (request: Request, outcome: Outcome)
      requires Valid()
      modifies this
      ensures Valid()
      ensures request == Request(url, httpMethod, body, RequestHeaders(url, old(adminPassword), supplied))
      ensures status == 401 ==>
        && outcome == Unauthorized
        && !IsPasswordSet(adminPassword)
        && Snapshot() == old(Snapshot()).(adminPassword := None, storedPassword := None, panel := AdminLoginPanel)
      ensures status != 401 ==> outcome == Answered(status) && Snapshot() == old(Snapshot())
    {
      request := Request(url, httpMethod, body, RequestHeaders(url, adminPassword, supplied));
      if status == 401 {
        ClearAdminPassword();
        panel := AdminLoginPanel;
        outcome := Unauthorized;
        return;
      }
      outcome := Answered(status);
    }

    /**
     * `adminLogin`: checks the typed password against the credential check with a
     * direct `fetch` (so a 401 clears nothing), and stores it when accepted.
     */
    method AdminLogin(password: string, status: int) returns (request: Option<Request>)
      requires Valid()
      modifies this
      ensures Valid()
      ensures password == "" ==> request.None? && Snapshot() == old(Snapshot())
      ensures password != "" ==>
        request == Some(Request(AuthConfigPath, "GET", None, map["Authorization" := "Bearer " + password]))
      ensures password != "" && 200 <= status <= 299 ==>
        && IsPasswordSet(adminPassword)
        && Snapshot() == old(Snapshot()).(adminPassword := Some(password), storedPassword := Some(password), panel := ManagementPanel)
      ensures !(200 <= status <= 299) ==> Snapshot() == old(Snapshot())
    {
      if password == "" {
        return None;
      }
      request := Some(Request(AuthConfigPath, "GET", None, map["Authorization" := "Bearer " + password]));
      if !(200 <= status <= 299) {
        return;
      }
      SetAdminPassword(password);
      panel := ManagementPanel;
    }

    /** `showLoginSuccess`: the mailbox when a credential is set, otherwise the admin login. */
    method ShowLoginSuccess()
      requires Valid()
      modifies this
      ensures Valid()
      ensures Snapshot() == old(Snapshot()).(panel := if IsPasswordSet(adminPassword) then MailboxPanel else AdminLoginPanel)
    {
      if !IsPasswordSet(adminPassword) {
        panel := AdminLoginPanel;
        return;
      }
      panel := MailboxPanel;
    }

    /**
     * `login`: adds one account. All three fields are required; when the server
     * accepts it the account is cached and becomes the current mailbox.
     */
    method Login(email: string, refreshToken: string, clientId: string, status: int) returns (request: Option<Request>)
      requires Valid()
      modifies this
      ensures Valid()
      ensures email == "" || refreshToken == "" || clientId == "" ==> request.None? && Snapshot() == old(Snapshot())
      ensures email != "" && refreshToken != "" && clientId != "" ==>
        request == Some(Request("/accounts", "POST", Some(NewAccount(email, refreshToken, clientId)), RequestHeaders("/accounts", old(adminPassword), None)))
      ensures request.Some? && status == 401 ==>
        Snapshot() == old(Snapshot()).(adminPassword := None, storedPassword := None, panel := AdminLoginPanel)
      ensures request.Some? && status != 401 && !(200 <= status <= 299) ==> Snapshot() == old(Snapshot())
      ensures request.Some? && 200 <= status <= 299 ==>
        Snapshot() == old(Snapshot()).(
          savedAccounts := old(savedAccounts)[email := Credentials(refreshToken, clientId)],
          storedAccounts := old(savedAccounts)[email := Credentials(refreshToken, clientId)],
          currentUser := Some(email),
          panel := if IsPasswordSet(old(adminPassword)) then MailboxPanel else AdminLoginPanel)
    {
      if email == "" || refreshToken == "" || clientId == "" {
        return None;
      }
      var sent, outcome := MakeRequest("/accounts", "POST", Some(NewAccount(email, refreshToken, clientId)), None, status);
      request := Some(sent);
      if !Ok(outcome) {
        return;
      }
      savedAccounts := savedAccounts[email := Credentials(refreshToken, clientId)];
      storedAccounts := savedAccounts;
      currentUser := Some(email);
      ShowLoginSuccess();
    }

    /**
     * `verifyBatchAccounts`: parses the pasted text and, only when some line
     * parsed, asks the server to verify the candidates; an accepted answer is
     * summarised for the result panel.
     */
    method VerifyBatch(text: string, status: int, results: seq<VerifyResult>)
      returns (request: Option<Request>, shown: Option<Verification>)
      requires Valid()
      modifies this
      ensures Valid()
      ensures request.None? <==> Parsed(BatchLines(text)) == []
      ensures request.Some? ==>
        request.value == Request("/accounts/verify", "POST", Some(VerifyAccounts(Parsed(BatchLines(text)))),
                                 RequestHeaders("/accounts/verify", old(adminPassword), None))
      ensures shown.Some? <==> request.Some? && 200 <= status <= 299
      ensures shown.Some? ==> shown.value == Summarize(results)
      ensures request.Some? && status == 401 ==>
        Snapshot() == old(Snapshot()).(adminPassword := None, storedPassword := None, panel := AdminLoginPanel)
      ensures request.None? || status != 401 ==> Snapshot() == old(Snapshot())
    {
      var candidates := ParseBatch(text);
      request, shown := SendVerify(candidates, status, results);
    }

    /** The part of `verifyBatchAccounts` after parsing: nothing is sent for no candidates. */
    method SendVerify(candidates: seq<Candidate>, status: int, results: seq<VerifyResult>)
      returns (request: Option<Request>, shown: Option<Verification>)
      requires Valid()
      modifies this
      ensures Valid()
      ensures request.None? <==> candidates == []
      ensures request.Some? ==>
        request.value == Request("/accounts/verify", "POST", Some(VerifyAccounts(candidates)),
                                 RequestHeaders("/accounts/verify", old(adminPassword), None))
      ensures shown.Some? <==> request.Some? && 200 <= status <= 299
      ensures shown.Some? ==> shown.value == Summarize(results)
      ensures request.Some? && status == 401 ==>
        Snapshot() == old(Snapshot()).(adminPassword := None, storedPassword := None, panel := AdminLoginPanel)
      ensures request.None? || status != 401 ==> Snapshot() == old(Snapshot())
    {
      request, shown := None, None;
      if candidates != [] {
        var sent, outcome := MakeRequest("/accounts/verify", "POST", Some(VerifyAccounts(candidates)), None, status);
        request := Some(sent);
        if Ok(outcome) {
          shown := Some(Summarize(results));
        }
      }
    }

    /**
     * `importSelectedAccounts`: sends the checked accounts and, once the answer has
     * been counted, stores every one of them in the cache whatever the server said
     * about it. An answer whose `message` is missing throws before the cache is touched.
     */
    method ImportSelected(accounts: seq<Candidate>, status: int, response: ImportResponse)
      returns (request: Option<Request>, successCount: Option<nat>)
      requires Valid()
      modifies this
      ensures Valid()
      ensures request.None? <==> accounts == []
      ensures request.Some? ==>
        request.value == Request("/accounts/import", "POST", Some(ImportAccounts(accounts)),
                                 RequestHeaders("/accounts/import", old(adminPassword), None))
      ensures successCount.Some? <==> request.Some? && 200 <= status <= 299 && ImportSuccessCount(response).Some?
      ensures successCount.Some? ==>
        && successCount == ImportSuccessCount(response)
        && Snapshot() == old(Snapshot()).(
             savedAccounts := WithImported(old(savedAccounts), accounts),
             storedAccounts := WithImported(old(savedAccounts), accounts))
      ensures request.Some? && status == 401 ==>
        Snapshot() == old(Snapshot()).(adminPassword := None, storedPassword := None, panel := AdminLoginPanel)
      ensures successCount.None? && (request.None? || status != 401) ==> Snapshot() == old(Snapshot())
    {
      successCount := None;
      if |accounts| == 0 {
        return None, None;
      }
      var sent, outcome := MakeRequest("/accounts/import", "POST", Some(ImportAccounts(accounts)), None, status);
      request := Some(sent);
      if !Ok(outcome) {
        return;
      }
      var count := ImportSuccessCount(response);
      if count.None? {
        return;
      }
      var cache := savedAccounts;
      for j := 0 to |accounts|
        invariant cache == WithImported(old(savedAccounts), accounts[..j])
      {
        assert accounts[..j + 1][..j] == accounts[..j];
        cache := cache[accounts[j].email := Credentials(accounts[j].refreshToken, accounts[j].clientId)];
      }
      assert accounts[..|accounts|] == accounts;
      savedAccounts := cache;
      storedAccounts := cache;
      successCount := count;
    }

    /**
     * `deleteSelectedAccounts`: after confirmation, asks the server to delete the
     * checked emails and, when it accepts, removes exactly those emails from the cache.
     */
    method DeleteSelected(emails: seq<string>, confirmed: bool, status: int) returns (request: Option<Request>)
      requires Valid()
      modifies this
      ensures Valid()
      ensures request.None? <==> emails == [] || !confirmed
      ensures request.Some? ==>
        request.value == Request("/accounts", "DELETE", Some(DeleteEmails(emails)),
                                 RequestHeaders("/accounts", old(adminPassword), None))
      ensures request.Some? && 200 <= status <= 299 ==>
        && (forall e :: e in savedAccounts <==> e in old(savedAccounts) && e !in emails)
        && (forall e :: e in savedAccounts ==> savedAccounts[e] == old(savedAccounts)[e])
        && Snapshot() == old(Snapshot()).(
             savedAccounts := old(savedAccounts) - ElementsOf(emails),
             storedAccounts := old(savedAccounts) - ElementsOf(emails))
      ensures request.Some? && status == 401 ==>
        Snapshot() == old(Snapshot()).(adminPassword := None, storedPassword := None, panel := AdminLoginPanel)
      ensures request.None? || (status != 401 && !(200 <= status <= 299)) ==> Snapshot() == old(Snapshot())
    {
      if |emails| == 0 || !confirmed {
        return None;
      }
      var sent, outcome := MakeRequest("/accounts", "DELETE", Some(DeleteEmails(emails)), None, status);
      request := Some(sent);
      if !Ok(outcome) {
        return;
      }
      var cache := savedAccounts;
      for j := 0 to |emails|
        invariant cache == old(savedAccounts) - ElementsOf(emails[..j])
      {
        assert ElementsOf(emails[..j + 1]) == ElementsOf(emails[..j]) + {emails[j]} by {
          assert forall k :: 0 <= k < j ==> emails[..j + 1][k] == emails[..j][k];
        }
        cache := cache - {emails[j]};
      }
      assert emails[..|emails|] == emails;
      savedAccounts := cache;
      storedAccounts := cache;
      assert forall e :: e in emails ==> e in ElementsOf(emails) by {
        forall e | e in emails ensures e in ElementsOf(emails) {
          var k :| 0 <= k < |emails| && emails[k] == e;
        }
      }
    }

    /**
     * `loadDualEmails`: asks for the current pages of the current mailbox; when the
     * answer is accepted, the pagination controls are drawn from its totals.
     */
    method LoadDualEmails(forceRefresh: bool, status: int, inboxTotal: nat, junkTotal: nat)
      returns (request: Request, pagers: Option<(MailView.Pager, MailView.Pager)>)
      requires Valid()
      modifies this
      ensures Valid()
      ensures request == Request(DualViewUrl(old(currentUser), old(currentInboxPage), old(currentJunkPage), forceRefresh), "GET", None,
                                 RequestHeaders(DualViewUrl(old(currentUser), old(currentInboxPage), old(currentJunkPage), forceRefresh), old(adminPassword), None))
      ensures pagers.Some? <==> 200 <= status <= 299
      ensures pagers.Some? ==> pagers.value == MailView.DualPagination(inboxTotal, junkTotal, currentInboxPage, currentJunkPage)
      ensures status == 401 ==>
        Snapshot() == old(Snapshot()).(adminPassword := None, storedPassword := None, panel := AdminLoginPanel)
      ensures status != 401 ==> Snapshot() == old(Snapshot())
    {
      pagers := None;
      var url := DualViewUrl(currentUser, currentInboxPage, currentJunkPage, forceRefresh);
      var outcome;
      request, outcome := MakeRequest(url, "GET", None, None, status);
      if !Ok(outcome) {
        return;
      }
      pagers := Some(MailView.DualPagination(inboxTotal, junkTotal, currentInboxPage, currentJunkPage));
    }

    /** `loadInboxPage`: moves the inbox cursor and reloads both lists. */
    method LoadInboxPage(page: int, status: int, inboxTotal: nat, junkTotal: nat)
      returns (request: Request, pagers: Option<(MailView.Pager, MailView.Pager)>)
      requires Valid()
      modifies this
      ensures Valid()
      ensures request == Request(DualViewUrl(old(currentUser), page, old(currentJunkPage), false), "GET", None,
                                 RequestHeaders(DualViewUrl(old(currentUser), page, old(currentJunkPage), false), old(adminPassword), None))
      ensures pagers.Some? <==> 200 <= status <= 299
      ensures pagers.Some? ==> pagers.value == MailView.DualPagination(inboxTotal, junkTotal, page, old(currentJunkPage))
      ensures status == 401 ==>
        Snapshot() == old(Snapshot()).(currentInboxPage := page, adminPassword := None, storedPassword := None, panel := AdminLoginPanel)
      ensures status != 401 ==> Snapshot() == old(Snapshot()).(currentInboxPage := page)
    {
      currentInboxPage := page;
      request, pagers := LoadDualEmails(false, status, inboxTotal, junkTotal);
    }

    /** `loadJunkPage`: moves the junk cursor and reloads both lists. */
    method LoadJunkPage(page: int, status: int, inboxTotal: nat, junkTotal: nat)
      returns (request: Request, pagers: Option<(MailView.Pager, MailView.Pager)>)
      requires Valid()
      modifies this
      ensures Valid()
      ensures request == Request(DualViewUrl(old(currentUser), old(currentInboxPage), page, false), "GET", None,
                                 RequestHeaders(DualViewUrl(old(currentUser), old(currentInboxPage), page, false), old(adminPassword), None))
      ensures pagers.Some? <==> 200 <= status <= 299
      ensures pagers.Some? ==> pagers.value == MailView.DualPagination(inboxTotal, junkTotal, old(currentInboxPage), page)
      ensures status == 401 ==>
        Snapshot() == old(Snapshot()).(currentJunkPage := page, adminPassword := None, storedPassword := None, panel := AdminLoginPanel)
      ensures status != 401 ==> Snapshot() == old(Snapshot()).(currentJunkPage := page)
    {
      currentJunkPage := page;
      request, pagers := LoadDualEmails(false, status, inboxTotal, junkTotal);
    }

    /**
     * `switchAccount`: ignored for an empty choice or the current mailbox, and
     * rejected for an email that is not in the cache. Otherwise the choice becomes
     * the current mailbox, the switcher is reloaded, both cursors go back to page 1
     * and the first pages of the new mailbox are requested. Both loaders catch
     * their own failures, so the second request is sent whatever the first one
     * answered; a 401 to the first has already cleared the credential it carries.
     */
    method SwitchAccount(selected: string, switcherStatus: int, dualStatus: int, inboxTotal: nat, junkTotal: nat)
      returns (requests: seq<Request>, pagers: Option<(MailView.Pager, MailView.Pager)>)
      requires Valid()
      modifies this
      ensures Valid()
      ensures selected == "" || old(currentUser) == Some(selected) || selected !in old(savedAccounts) ==>
        requests == [] && pagers.None? && Snapshot() == old(Snapshot())
      ensures selected != "" && old(currentUser) != Some(selected) && selected in old(savedAccounts) ==>
        var dualUrl := DualViewUrl(Some(selected), 1, 1, false);
        var unauthorized := switcherStatus == 401 || dualStatus == 401;
        && requests == [
             Request("/accounts", "GET", None, RequestHeaders("/accounts", old(adminPassword), None)),
             Request(dualUrl, "GET", None,
                     RequestHeaders(dualUrl, if switcherStatus == 401 then None else old(adminPassword), None))]
        && (pagers.Some? <==> 200 <= dualStatus <= 299)
        && (pagers.Some? ==> pagers.value == MailView.DualPagination(inboxTotal, junkTotal, 1, 1))
        && Snapshot() == old(Snapshot()).(
             currentUser := Some(selected), currentInboxPage := 1, currentJunkPage := 1,
             adminPassword := if unauthorized then None else old(adminPassword),
             storedPassword := if unauthorized then None else old(storedPassword),
             panel := if unauthorized then AdminLoginPanel else old(panel))
    {
      pagers := None;
      if selected == "" || currentUser == Some(selected) {
        return [], None;
      }
      if selected !in savedAccounts {
        return [], None;
      }
      currentUser := Some(selected);
      var switcher, _ := MakeRequest("/accounts", "GET", None, None, switcherStatus);
      currentInboxPage := 1;
      currentJunkPage := 1;
      var dual;
      dual, pagers := LoadDualEmails(false, dualStatus, inboxTotal, junkTotal);
      requests := [switcher, dual];
    }

    /** `loginWithAccount`: opens a mailbox from the account table, cached or not. */
    method LoginWithAccount(email: string)
      requires Valid()
      modifies this
      ensures Valid()
      ensures Snapshot() == old(Snapshot()).(
        currentUser := Some(email),
        panel := if IsPasswordSet(old(adminPassword)) then MailboxPanel else AdminLoginPanel)
    {
      currentUser := Some(email);
      ShowLoginSuccess();
    }

    /** `logout`: forgets the mailbox and the credential and shows the admin login. */
    method Logout()
      requires Valid()
      modifies this
      ensures Valid()
      ensures !IsPasswordSet(adminPassword)
      ensures Snapshot() == old(Snapshot()).(currentUser := None, adminPassword := None, storedPassword := None, panel := AdminLoginPanel)
    {
      currentUser := None;
      ClearAdminPassword();
      panel := AdminLoginPanel;
    }
  }
}
