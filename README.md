# Mail-account manager: the account store and the page's session logic

This project models the two parts of the mail-account manager that hold its logic. The model is written in Dafny and its properties are proved.

- **The account store** (`database.py`) is the SQLite `accounts` table. It is modelled as the class `AccountStore.Store`, which holds a map from the primary key `email` to the rest of the row (password, refresh token, client id, `is_sold`, remark) and the table's column list. The operations are methods on that class: upsert, batch save, the metadata update, bulk delete, the filtered and full listings, the JSON migration loop and the column check. Each method's new state (or result) is tied to a function of the old state, and the promised properties are proved about those functions.
- **The page script** (`static/js/script.js`) is modelled without its DOM and network.
  - `Client.Session` holds the page's globals: `adminPassword`, `currentUser`, the two page cursors and the `savedAccounts` cache. It also holds their local-storage copies and the panel the page shows. Its methods are the page's operations.
  - A server answer is a status-code parameter. Where the page reads the body, the decoded body is a parameter too.
  - Each method returns the `fetch` request it issues.
  - `BatchImport` holds the batch-text parser, the verification summary and the import success-count heuristic.
  - `AccountTable` holds the row filters and select-all. Their `forEach` loops run over an in-place `array<Row>`.
  - `MailView` holds pagination, the choice of content tabs, raw-view escaping and `sanitizeHTML`. The sanitiser works on the parsed element tree.

The files are:
- `wrappers.dfy`: `Option`.
- `strings.dfy`: JavaScript's `trim`, `includes`, `split` and `startsWith`, ASCII lower-casing, and the code-point order `ORDER BY` uses.

Two behaviours of the code are easy to misread; the model follows the code:
- `makeRequest` spreads the caller's `options` after the merged header object. A caller that passes `headers` therefore replaces every default header, including `Authorization`; nothing is merged. No caller in the page passes headers.
- `sanitizeHTML` removes attributes by name only: names starting with `on`, or exactly `javascript:`. It does not look at attribute values, so an `href="javascript:…"` survives. `MailView.ScriptUriSurvives` states this.

## Model

| member | source | states |
|---|---|---|
| AccountStore.Upserted | database.py:160-175 | a new email gets exactly one row with `is_sold` 0 and remark '' (the column defaults, database.py:31-32); an existing email gets the new password, refresh token and client id but keeps `is_sold` and remark; every other row is unchanged |
| AccountStore.Store.Upsert | database.py:160-175 | the table after `_upsert_account_sync` is `Upserted` of the old table; `is_sold` stays 0/1 |
| AccountStore.BatchSavedKeys | database.py:237-254 | a batch adds exactly the emails it names and removes none |
| AccountStore.BatchSavedUntouched | database.py:237-254 | a row whose email the batch does not name is unchanged |
| AccountStore.BatchSavedLastWins | database.py:240-251 | for a repeated email the last entry's credentials win; a missing password becomes ''; `is_sold` and remark are the row's old values, or the defaults for a new row |
| AccountStore.BatchSavedKeepsMetadata | database.py:243-251 | upserts in a batch never change `is_sold` or remark, and rows the batch creates carry the defaults |
| AccountStore.Store.SaveBatch | database.py:237-254 | a batch of complete entries commits and equals sequential upserts in list order; an entry missing `email`, `refresh_token` or `client_id` raises before the commit, so the table is unchanged |
| AccountStore.MetadataUpdated | database.py:177-200 | only the given fields of the named row change (`is_sold` stored as 1/0); no row is created or removed; with both arguments None nothing changes |
| AccountStore.Store.UpdateMetadata | database.py:177-200 | the SET list built by appending, with the early return, yields `MetadataUpdated` |
| AccountStore.DeletedCount | database.py:202-213 | the delete count is at most the number of emails listed, and it is 0 exactly when no listed email has a row |
| AccountStore.Store.DeleteAccounts | database.py:202-213 | the listed emails that exist are removed and all other rows are unchanged; the return value is the number of rows removed, 0 for an empty list |
| AccountStore.QueryConditionsMeanSelected | database.py:130-147 | the AND of the built conditions holds exactly for the rows `Selected` describes: a non-empty search matches email or remark; 'sold' means `is_sold = 1` and 'unsold' means 0; any other filter adds no condition |
| AccountStore.SoldAndUnsoldSplit | database.py:139-143 | with 0/1 flags, the unfiltered selection is exactly the union of the 'sold' and 'unsold' selections, and no row is in both |
| AccountStore.Store.GetAccountsFiltered | database.py:126-154 | returns exactly the rows `Selected` admits, each with its stored values, strictly ascending by email |
| AccountStore.Store.OrderByEmail | database.py:149-152 | lists exactly the chosen rows, each once, in ascending email order |
| AccountStore.Store.GetAllAccounts | database.py:156-158 | the full listing is every row, ascending by email |
| AccountStore.MigratedCount | database.py:86-97 | `count` is at most the number of entries; it equals that number exactly when no entry raised and is 0 exactly when every entry raised; ignored entries count |
| AccountStore.MigratedCountAppend | database.py:86-97 | the count over a concatenation of entry lists is the sum of the counts |
| AccountStore.MigrationKeepsExisting | database.py:91-94 | INSERT OR IGNORE never modifies or removes an existing row |
| AccountStore.MigrationNewRows | database.py:91-94 | every row the migration adds comes from a file entry with string values and has password '', `is_sold` 0 and remark '' |
| AccountStore.Store.MigrateFromJson | database.py:86-97 | the loop leaves the table at `MigratedTable` and returns `MigratedCount` |
| AccountStore.MissingColumns | database.py:48-60 | the schema check adds exactly those of password, is_sold and remark that are missing, each once |
| AccountStore.SchemaCheckIdempotent | database.py:43-66 | a second schema check adds nothing |
| AccountStore.Store.CheckAndMigrateSchema | database.py:43-66 | the column list grows by the missing columns in order; afterwards all three are present |
| AccountStore.Store.constructor | database.py:25-36 | a freshly created table is empty |
| Strings.Trim | static/js/script.js:228-241 | `trim` gives '' exactly for all-whitespace input; otherwise it neither starts nor ends with whitespace; in every case the result is a slice of the input with only whitespace cut from either side |
| Strings.SplitCutsAtSeparators | static/js/script.js:240 | `split` cuts at every leftmost occurrence of the separator: no piece contains it, and each piece but the last is followed by it |
| Strings.JoinSplit | static/js/script.js:240 | splitting on a separator loses nothing: joining the pieces gives back the line |
| Strings.LeastExists | database.py:149 | every non-empty set of emails has a least one under `ORDER BY` |
| BatchImport.NonBlankMembers | static/js/script.js:234 | the kept lines are exactly the non-blank ones |
| BatchImport.NonBlankSingle | static/js/script.js:234 | a single line is kept exactly when its trim is non-empty |
| BatchImport.NonBlankAppend | static/js/script.js:234 | filtering a concatenation filters each half, keeping the line order |
| BatchImport.BlankBatchHasNoLines | static/js/script.js:228-234 | a blank paste yields no line and so no candidate |
| BatchImport.LineFieldsOf | static/js/script.js:240 | a line's fields are its trimmed `----` pieces, and the pieces rebuild the line |
| BatchImport.ParsedFields | static/js/script.js:239-251 | never more candidates than lines |
| BatchImport.ParsedKeepsAll | static/js/script.js:239-251 | no line is dropped exactly when every line has four fields |
| BatchImport.ParsedFromRows | static/js/script.js:243-249 | every candidate is a four-field line read as email = field 1, client id = field 3, refresh token = field 4 |
| BatchImport.WellFormedBatch | static/js/script.js:239-251 | a paste whose every line has four `----` fields gives one candidate per line |
| BatchImport.ParseRows | static/js/script.js:239-251 | the push loop yields `ParsedFields` of the field lists |
| BatchImport.ParseBatch | static/js/script.js:228-251 | the candidates are those of the trimmed, non-blank lines, and there are no more of them than lines |
| BatchImport.SuccessCount | static/js/script.js:339 | the success count is at most the number of results; it is 0 exactly when none succeeded and full exactly when all succeeded |
| BatchImport.Checkboxes | static/js/script.js:364-387 | one checkbox per result; checked exactly for successes, carrying that result's credentials; a success without `credentials` makes rendering throw |
| BatchImport.CheckedMatchesSuccess | static/js/script.js:364-387 | the rendered rows select for import exactly one account per success |
| BatchImport.Summarize | static/js/script.js:331-402 | 'not found' exactly for no results; success + fail = number of results; the import button and select-all are enabled exactly when some result succeeded |
| BatchImport.NonErrorCountMeaning | static/js/script.js:302-303 | the count is missing (the filter throws) exactly when some item has no message; otherwise it equals the number of items exactly when none starts with 'Error', and it is 0 exactly when every one does |
| BatchImport.NonErrorCountAppend | static/js/script.js:302-303 | counting a concatenation adds the counts of the halves, and a missing message in either half makes the whole throw |
| BatchImport.ImportSuccessCount | static/js/script.js:302-304 | an array answer gives `NonErrorCount` of its items, missing exactly when some message is missing, at most the number of items and 0 exactly when all are errors; otherwise the count is 1 exactly when the message contains 'success' |
| AccountTable.SearchVisible | static/js/script.js:545-561 | a row is shown exactly when the lower-cased term occurs in the lower-cased email or remark; an empty term shows every row |
| AccountTable.StatusVisible | static/js/script.js:563-595 | 'all' shows every row; 'active' and 'inactive' show exactly the rows with that status; 'sold' and 'unsold' read the sold flag; any other value hides the row |
| AccountTable.WithSearch | static/js/script.js:549-560 | the search filter changes only each row's `filtered` class |
| AccountTable.WithStatus | static/js/script.js:573-594 | the status filter changes only each row's `filtered` class |
| AccountTable.LastStatusFilterWins | static/js/script.js:549-594 | a status filter applied after a search forgets the search |
| AccountTable.LastSearchWins | static/js/script.js:549-594 | a search applied after a status filter forgets the status filter |
| AccountTable.FiltersIdempotent | static/js/script.js:549-594 | repeating a filter changes nothing |
| AccountTable.SelectAllTouchesOnlyVisible | static/js/script.js:597-605 | select-all changes only the checkboxes of visible rows |
| AccountTable.SelectAllSelectsVisible | static/js/script.js:597-605 | with nothing checked, ticking select-all selects for deletion exactly the visible rows, in table order |
| AccountTable.SelectAllKeepsManualChecks | static/js/script.js:597-605 | after ticking select-all, the checked emails are, in table order, those of the rows that are visible or were already checked |
| AccountTable.SelectNoneKeepsHidden | static/js/script.js:597-605 | clearing select-all leaves checked only the hidden rows that were checked |
| AccountTable.FilterAccounts | static/js/script.js:545-561 | the table after the loop is `WithSearch` of the old table |
| AccountTable.FilterByStatus | static/js/script.js:563-595 | when the status's button exists, the table after the loop is `WithStatus` of the old table; when it is missing, the lookup throws at line 568 before any row changes |
| AccountTable.ToggleSelectAll | static/js/script.js:597-605 | the table after the loop is `WithSelectAll` of the old table |
| AccountTable.SelectedEmails | static/js/script.js:623-634 | the emails to delete are those of the checked rows, in order, hidden rows included |
| MailView.PageCount | static/js/script.js:1065 | `ceil(total / 20)`: the fewest pages of 20 that hold the total; 0 only for an empty list |
| MailView.Pagination | static/js/script.js:1060-1089 | controls are hidden exactly when total ≤ 20; otherwise prev is disabled exactly on page 1 and next exactly on the last page, and their targets are current − 1 and current + 1 |
| MailView.EnabledButtonsStayInRange | static/js/script.js:1072-1074 | on a real page, every enabled button leads to a real page |
| MailView.SomeButtonEnabled | static/js/script.js:1072-1074 | on a real page of a multi-page list, at least one button is enabled |
| MailView.DualPagination | static/js/script.js:1060-1089 | each list's controls come from that list's own total and cursor: hidden exactly when its total is ≤ 20, otherwise labelled with its own page and page count |
| MailView.SafeAttrs | static/js/script.js:788-795 | the kept attributes are exactly the non-dangerous ones, and clean lists are unchanged |
| MailView.Sanitize | static/js/script.js:776-798 | the result has no `script` element and no `on…` or `javascript:` attribute anywhere |
| MailView.SanitizeAppend | static/js/script.js:776-798 | siblings are sanitised one by one, in order |
| MailView.SanitizeNode | static/js/script.js:776-798 | a `script` element disappears with its subtree; any other element keeps its tag, its safe attributes and its sanitised children; text is kept |
| MailView.SanitizeKeepsClean | static/js/script.js:776-798 | a tree with nothing to remove is unchanged |
| MailView.SanitizeIdempotent | static/js/script.js:776-798 | sanitising twice is sanitising once |
| MailView.ScriptUriSurvives | static/js/script.js:791 | a `javascript:` URI in an attribute value is kept |
| MailView.ReplaceChar | static/js/script.js:858 | a global single-character replace removes that character when the replacement lacks it, changes nothing when it is absent, and keeps the other characters |
| MailView.ReplaceCharAppend | static/js/script.js:858 | a global replace of a concatenation is the concatenation of the replaced halves |
| MailView.ReplaceCharSingle | static/js/script.js:858 | the searched character becomes the replacement and any other character stays |
| MailView.EscapeAnglesAppend | static/js/script.js:858 | escaping a concatenation escapes each half |
| MailView.EscapeAnglesChar | static/js/script.js:858 | `<` becomes `&lt;`, `>` becomes `&gt;`, and every other character is kept |
| MailView.EscapeAnglesMeaning | static/js/script.js:858 | the raw view holds no `<` or `>`, and text without them is shown unchanged |
| MailView.RenderContent | static/js/script.js:800-871 | 'no content' exactly when neither body has text; the HTML view (HTML tab active; a plain tab exactly when the plain body has text; a raw tab; the plain body exactly when it has text; the document is `Sanitize` of the HTML tree; the raw text is `EscapeAngles` of the HTML source) exactly when the HTML body has text; otherwise the plain body alone |
| Client.RequestHeaders | static/js/script.js:161-180 | without caller headers: the four defaults, plus `Authorization: Bearer <password>` exactly when a credential is set and the URL does not contain `/auth/config`; caller headers replace everything |
| Client.ImportedKeys | static/js/script.js:307-312 | import adds exactly the imported emails to the cache |
| Client.ImportedUntouched | static/js/script.js:307-312 | cache entries of emails not imported keep their credentials |
| Client.ImportedLastWins | static/js/script.js:307-312 | every imported account is stored whatever the server said, and for a repeated email the last one wins |
| Client.Session.constructor | static/js/script.js:2-6 | the credential and cache come from local storage; no current user; both cursors at 1; the management panel is shown exactly when a credential is set (static/js/script.js:1091-1098) |
| Client.Session.SetAdminPassword | static/js/script.js:75-78 | the credential and its stored copy become the password; if it is non-empty, `isPasswordSet` holds afterwards |
| Client.Session.ClearAdminPassword | static/js/script.js:80-83 | the credential and its stored copy are removed; `isPasswordSet` is false |
| Client.Session.MakeRequest | static/js/script.js:161-192 | sends `RequestHeaders`; a 401 clears the credential, shows the admin login and throws; any other status is returned with nothing changed |
| Client.Session.AdminLogin | static/js/script.js:89-115 | an empty password sends nothing; otherwise the password is probed by a direct fetch to `/auth/config`, so a 401 clears nothing; an ok answer stores the password and shows management |
| Client.Session.ShowLoginSuccess | static/js/script.js:661-677 | shows the mailbox when a credential is set, otherwise the admin login |
| Client.Session.Login | static/js/script.js:194-225 | a blank field sends nothing; an ok answer caches the account (`savedAccounts[email]`), makes it the current user and shows the mailbox; a 401 clears the credential; other errors change nothing |
| Client.Session.VerifyBatch | static/js/script.js:227-272 | no request exactly when no line parses; otherwise the parsed candidates are posted, and an ok answer is summarised |
| Client.Session.ImportSelected | static/js/script.js:274-329 | an empty selection sends nothing; after an ok answer with a countable body, the cache becomes `WithImported` of the selection, whatever the per-item results; a missing message leaves the cache untouched |
| Client.Session.DeleteSelected | static/js/script.js:622-659 | nothing is sent without a selection or without confirmation; after an ok answer, exactly the listed emails leave the cache and all other entries are unchanged |
| Client.Session.LoadDualEmails | static/js/script.js:696-735 | requests the current user's current inbox and junk pages; an ok answer draws the pagination from the totals |
| Client.Session.LoadInboxPage | static/js/script.js:766-769 | moves the inbox cursor to the page and sends `GET` for that inbox page and the old junk page with the current credential; pagination exactly on an ok answer; a 401 clears the credential and shows the admin login |
| Client.Session.LoadJunkPage | static/js/script.js:771-774 | moves the junk cursor to the page and sends `GET` for the old inbox page and that junk page with the current credential; pagination exactly on an ok answer; a 401 clears the credential and shows the admin login |
| Client.Session.SwitchAccount | static/js/script.js:1014-1058 | an empty choice or the current user is ignored; an email not in the cache is rejected with nothing changed; otherwise it becomes the current user and both cursors reset to 1; `GET /accounts` is sent with the current credential, then page 1 of both lists, without a credential when the first answer was 401; pagination exactly on an ok second answer; a 401 to either clears the credential and shows the admin login |
| Client.Session.LoginWithAccount | static/js/script.js:607-620 | any email from the table becomes the current user, cached or not, then `showLoginSuccess` runs |
| Client.Session.Logout | static/js/script.js:679-691 | the current user and the credential are cleared and the admin login is shown |

## Left out

- `formatEmailDate` (static/js/script.js:8-47) depends on `Date` parsing, the wall clock, floating-point day arithmetic and locale formatting.
- HTML templating and other presentation are not modelled: CSS classes (among them the filter buttons' `active` highlight), spinners, messages, the switcher's option labels, `switchTab`'s label matching, the `showHtmlContent` / `showPlainContent` / `showRawContent` tab switching, `copyToClipboard`, the `"` → `&quot;` escaping for `srcdoc`, and the `setTimeout` delays.
- Client.Session.ShowLoginSuccess: the switcher and mailbox loads it starts are not modelled. Neither are the list reloads that `showEmailManagement`, import and delete start after a delay. `LoadDualEmails` models one such load.
- `toggleSoldStatus`, `updateRemark`, `loadAccountList`, `renderAccountList`, `loadAccountSwitcher`'s rendering, `showEmailDetail`, `toggleSelectAllVerified` and the `visibilitychange` handler are outside the modelled core.
- `fetch`, `response.json()`, `localStorage` and `confirm` are platform calls. Their results are parameters, and local storage is two mirror fields. A body that fails to parse as JSON is not modelled.
- The `originalText` scoping error in the catch block of `importSelectedAccounts` (static/js/script.js:290 and 326) only affects error-path button restoration.
- Interleavings of the page's asynchronous calls are not modelled. Each operation runs to completion.
- AccountTable.SearchVisible: `toLowerCase` is modelled only for ASCII letters, not full Unicode lower-casing.
- AccountStore.Like: SQLite `LIKE` is modelled as an ASCII case-insensitive substring test. `%` and `_` inside the search text are unescaped in the source and act as wildcards there; the model treats them as literal characters.
- AccountStore.Store.GetAccountsFiltered: `ORDER BY email` is modelled as code-point order, not a collation.
- `created_at` / `updated_at` and `CURRENT_TIMESTAMP` are not modelled.
- Connection handling, `asyncio.to_thread` wrappers (database.py:219-259), logging, and other platform plumbing are not modelled.
- `migrate_from_json`'s file reading, its empty-file checks and the `.bak` rename are not modelled.
- `check_and_migrate_schema`'s catch-all exception handler is not modelled.
- AccountStore.Store.MigrateFromJson: a JSON value that is neither a string nor null is not modelled.
- MailView.Sanitize: the browser's HTML parsing and serialisation are not modelled. The sanitiser works on a tree with lower-case tag and attribute names.
