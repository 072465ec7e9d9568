/**
 * The SQLite `accounts` table of the mail-account backend and the synchronous
 * operations that read and write it. The table is a map from the primary key
 * `email` to the rest of the row; `created_at` / `updated_at` are not modelled.
 */
module AccountStore {
  import opened Wrappers
  import opened Strings

  /** One row of `accounts` without its key. `is_sold` is an SQLite INTEGER. */
  datatype Account = Account(password: string, refreshToken: string, clientId: string, isSold: int, remark: string)

  type Table = map<string, Account>

  /** A row as a listing returns it: the key together with the other columns. */
  datatype Record = Record(email: string, account: Account)

  /** The columns `init_db` creates. */
  const CreatedColumns: seq<string> :=
    ["email", "password", "refresh_token", "client_id", "is_sold", "remark", "created_at", "updated_at"]

  /** The columns a database from an older version may lack, in the order they are added. */
  const MigratedColumns: seq<string> := ["password", "is_sold", "remark"]

  /** The row an INSERT creates: `is_sold` and `remark` take their column defaults 0 and ''. */
  function Inserted(password: string, refreshToken: string, clientId: string): Account
  {
    Account(password, refreshToken, clientId, 0, "")
  }

  /**
   * The table after `INSERT ... ON CONFLICT(email) DO UPDATE SET password, refresh_token, client_id`.
   */
  function Upserted(t: Table, email: string, refreshToken: string, clientId: string, password: string): (r: Table)
    ensures r.Keys == t.Keys + {email}
    ensures r[email].password == password && r[email].refreshToken == refreshToken && r[email].clientId == clientId
    ensures email in t ==> r[email].isSold == t[email].isSold && r[email].remark == t[email].remark
    ensures email !in t ==> r[email].isSold == 0 && r[email].remark == ""
    ensures forall e :: e in t && e != email ==> r[e] == t[e]
  {
    if email in t then
      t[email := t[email].(password := password, refreshToken := refreshToken, clientId := clientId)]
    else
      t[email := Inserted(password, refreshToken, clientId)]
  }

  // ---------------------------------------------------------------------------
  // save_accounts_batch
  // ---------------------------------------------------------------------------

  /** One dictionary of the list given to `save_accounts_batch`; `None` is a missing key. */
  datatype BatchEntry = BatchEntry(email: Option<string>, password: Option<string>, refreshToken: Option<string>, clientId: Option<string>)

  /** The entry has the keys `acc['email']`, `acc['refresh_token']` and `acc['client_id']` read without a default. */
  predicate Complete(e: BatchEntry)
  {
    e.email.Some? && e.refreshToken.Some? && e.clientId.Some?
  }

  predicate AllComplete(b: seq<BatchEntry>)
  {
    forall i :: 0 <= i < |b| ==> Complete(b[i])
  }

  /** The upsert one complete entry performs; a missing `password` becomes ''. */
  function UpsertedEntry(t: Table, e: BatchEntry): Table
    requires Complete(e)
  {
    Upserted(t, e.email.value, e.refreshToken.value, e.clientId.value, e.password.GetOr(""))
  }

  /** The table after upserting the entries of `b` one after another, in list order. */
  function BatchSaved(t: Table, b: seq<BatchEntry>): Table
    requires AllComplete(b)
    decreases |b|
  {
    if b == [] then t else UpsertedEntry(BatchSaved(t, b[..|b| - 1]), b[|b| - 1])
  }

  function BatchEmails(b: seq<BatchEntry>): set<string>
    requires AllComplete(b)
  {
    set i | 0 <= i < |b| :: b[i].email.value
  }

  /** A batch adds exactly the emails it names and removes none. */
  lemma {:induction false} BatchSavedKeys(t: Table, b: seq<BatchEntry>)
    requires AllComplete(b)
    ensures BatchSaved(t, b).Keys == t.Keys + BatchEmails(b)
    decreases |b|
  {
    if b != [] {
      var init := b[..|b| - 1];
      BatchSavedKeys(t, init);
      assert BatchEmails(b) == BatchEmails(init) + {b[|b| - 1].email.value} by {
        forall x | x in BatchEmails(b) ensures x in BatchEmails(init) + {b[|b| - 1].email.value} {
          var i :| 0 <= i < |b| && b[i].email.value == x;
          if i < |b| - 1 {
            assert init[i] == b[i];
          }
        }
        forall x | x in BatchEmails(init) ensures x in BatchEmails(b) {
          var i :| 0 <= i < |init| && init[i].email.value == x;
          assert b[i] == init[i];
        }
      }
    }
  }

  /** A row whose email the batch does not name comes out unchanged. */
  lemma {:induction false} BatchSavedUntouched(t: Table, b: seq<BatchEntry>, e: string)
    requires AllComplete(b)
    requires e in t
    requires forall i :: 0 <= i < |b| ==> b[i].email != Some(e)
    ensures e in BatchSaved(t, b) && BatchSaved(t, b)[e] == t[e]
    decreases |b|
  {
    if b != [] {
      BatchSavedUntouched(t, b[..|b| - 1], e);
    }
  }

  /**
   * For an email the batch names, the credentials of its LAST entry win, while
   * `is_sold` and `remark` are those the row had before (or the defaults for a new row).
   */
  lemma {:induction false} BatchSavedLastWins(t: Table, b: seq<BatchEntry>, k: nat)
    requires AllComplete(b)
    requires k < |b|
    requires forall j :: k < j < |b| ==> b[j].email != b[k].email
    ensures var r, e := BatchSaved(t, b), b[k].email.value;
      && e in r
      && r[e].password == b[k].password.GetOr("")
      && r[e].refreshToken == b[k].refreshToken.value
      && r[e].clientId == b[k].clientId.value
      && (e in t ==> r[e].isSold == t[e].isSold && r[e].remark == t[e].remark)
      && (e !in t ==> r[e].isSold == 0 && r[e].remark == "")
    decreases |b|
  {
    var e := b[k].email.value;
    var init := b[..|b| - 1];
    if k == |b| - 1 {
      BatchSavedKeepsMetadata(t, init, e);
    } else {
      BatchSavedLastWins(t, init, k);
    }
  }

  /** Upserts never change `is_sold` or `remark`; a row first created by the batch has the defaults. */
  lemma {:induction false} BatchSavedKeepsMetadata(t: Table, b: seq<BatchEntry>, e: string)
    requires AllComplete(b)
    ensures var r := BatchSaved(t, b);
      && (e in t ==> e in r && r[e].isSold == t[e].isSold && r[e].remark == t[e].remark)
      && (e !in t && e in r ==> r[e].isSold == 0 && r[e].remark == "")
    decreases |b|
  {
    if b != [] {
      BatchSavedKeepsMetadata(t, b[..|b| - 1], e);
    }
  }

  // ---------------------------------------------------------------------------
  // _update_account_metadata_sync
  // ---------------------------------------------------------------------------

  /** One `column = ?` item of the SET list. */
  datatype Assignment = SetSold(flag: int) | SetRemark(text: string)

  /** An account after the SET list is applied from left to right. */
  function Assigned(a: Account, updates: seq<Assignment>): Account
    decreases |updates|
  {
    if updates == [] then a
    else
      var next := match updates[0]
        case SetSold(f) => a.(isSold := f)
        case SetRemark(s) => a.(remark := s);
      Assigned(next, updates[1..])
  }

  /**
   * The table after a metadata update: only the given fields of the named row
   * change, `is_sold` is stored as 1 or 0, and an unknown email changes nothing.
   */
  function MetadataUpdated(t: Table, email: string, isSold: Option<bool>, remark: Option<string>): (r: Table)
    ensures r.Keys == t.Keys
    ensures forall e :: e in t && e != email ==> r[e] == t[e]
    ensures email in t ==>
      && r[email].password == t[email].password
      && r[email].refreshToken == t[email].refreshToken
      && r[email].clientId == t[email].clientId
      && r[email].isSold == (if isSold == Some(true) then 1 else if isSold == Some(false) then 0 else t[email].isSold)
      && r[email].remark == remark.GetOr(t[email].remark)
    ensures isSold.None? && remark.None? ==> r == t
  {
    if email !in t then t
    else
      var a := t[email];
      var sold := if isSold.Some? then (if isSold.value then 1 else 0) else a.isSold;
      t[email := a.(isSold := sold, remark := remark.GetOr(a.remark))]
  }

  // ---------------------------------------------------------------------------
  // _delete_accounts_sync
  // ---------------------------------------------------------------------------

  function ElementsOf(s: seq<string>): set<string>
  {
    set i | 0 <= i < |s| :: s[i]
  }

  lemma {:induction false} ElementsOfSize(s: seq<string>)
    ensures |ElementsOf(s)| <= |s|
    decreases |s|
  {
    if s != [] {
      var init := s[..|s| - 1];
      ElementsOfSize(init);
      assert ElementsOf(s) == ElementsOf(init) + {s[|s| - 1]} by {
        forall x | x in ElementsOf(s) ensures x in ElementsOf(init) + {s[|s| - 1]} {
          var i :| 0 <= i < |s| && s[i] == x;
          if i < |s| - 1 {
            assert init[i] == s[i];
          }
        }
        forall x | x in ElementsOf(init) ensures x in ElementsOf(s) {
          var i :| 0 <= i < |init| && init[i] == x;
          assert s[i] == init[i];
        }
      }
    }
  }

  lemma {:induction false} SubsetSize(a: set<string>, b: set<string>)
    requires a <= b
    ensures |a| <= |b|
    decreases |b|
  {
    if b != {} {
      var x :| x in b;
      SubsetSize(a - {x}, b - {x});
    }
  }

  /** Removing keys shrinks a table by exactly the number of those keys it had. */
  lemma RemovedSize(t: Table, listed: set<string>)
    ensures |t - listed| + |t.Keys * listed| == |t|
  {
    var kept := (t - listed).Keys;
    var hit := t.Keys * listed;
    assert kept == t.Keys - listed;
    assert kept !! hit && kept + hit == t.Keys;
    assert |t - listed| == |kept| && |t| == |t.Keys|;
  }

  /** The `rowcount` of `DELETE ... WHERE email IN (...)`: how many listed emails have a row. */
  function DeletedCount(t: Table, emails: seq<string>): (n: nat)
    ensures n <= |emails|
    ensures n == 0 <==> forall i :: 0 <= i < |emails| ==> emails[i] !in t
  {
    var hit := t.Keys * ElementsOf(emails);
    ElementsOfSize(emails);
    SubsetSize(hit, ElementsOf(emails));
    assert hit == {} <==> forall i :: 0 <= i < |emails| ==> emails[i] !in t by {
      if hit == {} {
        forall i | 0 <= i < |emails| ensures emails[i] !in t {
          var x := emails[i];
          assert x in ElementsOf(emails);
          assert x in t.Keys ==> x in hit;
        }
      } else {
        var x :| x in hit;
        var i :| 0 <= i < |emails| && emails[i] == x;
        assert emails[i] in t;
      }
    }
    |hit|
  }

  // ---------------------------------------------------------------------------
  // _get_accounts_filtered_sync
  // ---------------------------------------------------------------------------

  /** `column LIKE '%q%'`: an ASCII case-insensitive substring test. */
  predicate Like(value: string, query: string)
  {
    Contains(Lower(value), Lower(query))
  }

  /** One entry of the `conditions` list the query builds. */
  datatype Condition = MatchesText(query: string) | SoldIs(flag: int)

  predicate Holds(c: Condition, email: string, a: Account)
  {
    match c
    case MatchesText(q) => Like(email, q) || Like(a.remark, q)
    case SoldIs(f) => a.isSold == f
  }

  /** The conditions joined with AND. */
  predicate AllHold(conditions: seq<Condition>, email: string, a: Account)
  {
    forall i :: 0 <= i < |conditions| ==> Holds(conditions[i], email, a)
  }

  /** The `conditions` list `_get_accounts_filtered_sync` builds, in the order it appends them. */
  function QueryConditions(search: Option<string>, filterType: Option<string>): seq<Condition>
  {
    (if search.Some? && search.value != "" then [MatchesText(search.value)] else [])
    + (if filterType == Some("sold") then [SoldIs(1)]
       else if filterType == Some("unsold") then [SoldIs(0)]
       else [])
  }

  /**
   * Which rows a listing returns, stated directly: an empty or missing search adds
   * no condition, `'sold'` / `'unsold'` select on `is_sold`, any other filter adds none.
   */
  predicate Selected(search: Option<string>, filterType: Option<string>, email: string, a: Account)
  {
    && (search.None? || search.value == "" || Like(email, search.value) || Like(a.remark, search.value))
    && (filterType == Some("sold") ==> a.isSold == 1)
    && (filterType == Some("unsold") ==> a.isSold == 0)
  }

  /** Joining the built conditions with AND selects exactly the rows `Selected` describes. */
  lemma QueryConditionsMeanSelected(search: Option<string>, filterType: Option<string>, email: string, a: Account)
    ensures AllHold(QueryConditions(search, filterType), email, a) <==> Selected(search, filterType, email, a)
  {
    var conditions := QueryConditions(search, filterType);
    var textual := search.Some? && search.value != "";
    var flag := if filterType == Some("sold") then 1 else 0;
    assert forall i :: 0 <= i < |conditions| ==>
      conditions[i] == (if textual && i == 0 then MatchesText(search.value) else SoldIs(flag));
    if textual {
      assert conditions[0] == MatchesText(search.value);
    }
    if filterType == Some("sold") || filterType == Some("unsold") {
      assert conditions[|conditions| - 1] == SoldIs(flag);
    }
  }

  /**
   * Appending the least remaining email keeps the listing strictly sorted and
   * every listed email below every email still to come.
   */
  lemma AppendLeast(rows: seq<Record>, remaining: set<string>, r: Record)
    requires StrictlySorted(rows)
    requires RecordEmails(rows) !! remaining
    requires AllBelow(rows, remaining)
    requires r.email in remaining && IsLeast(r.email, remaining)
    ensures StrictlySorted(rows + [r])
    ensures RecordEmails(rows + [r]) !! (remaining - {r.email})
    ensures RecordEmails(rows + [r]) + (remaining - {r.email}) == RecordEmails(rows) + remaining
    ensures AllBelow(rows + [r], remaining - {r.email})
  {
    RecordEmailsAppend(rows, r);
    forall i | 0 <= i < |rows| ensures rows[i].email != r.email {
      assert rows[i].email in RecordEmails(rows);
    }
  }

  /** Every listed email sorts before every email in `rest`. */
  predicate AllBelow(rows: seq<Record>, rest: set<string>)
  {
    forall i, x :: 0 <= i < |rows| && x in rest ==> Below(rows[i].email, x)
  }

  /** The loop state of `ORDER BY`: `rows` is a sorted listing of `keys` minus `remaining`. */
  predicate SortingProgress(t: Table, keys: set<string>, rows: seq<Record>, remaining: set<string>)
  {
    && remaining <= keys
    && (forall i :: 0 <= i < |rows| ==> rows[i].email in t && rows[i].account == t[rows[i].email])
    && RecordEmails(rows) + remaining == keys
    && RecordEmails(rows) !! remaining
    && StrictlySorted(rows)
    && AllBelow(rows, remaining)
  }

  lemma SortingStep(t: Table, keys: set<string>, rows: seq<Record>, remaining: set<string>, m: string)
    requires keys <= t.Keys
    requires SortingProgress(t, keys, rows, remaining)
    requires m in remaining && IsLeast(m, remaining)
    ensures m in t
    ensures SortingProgress(t, keys, rows + [Record(m, t[m])], remaining - {m})
  {
    AppendLeast(rows, remaining, Record(m, t[m]));
  }

  function RecordEmails(rows: seq<Record>): set<string>
  {
    set i | 0 <= i < |rows| :: rows[i].email
  }

  lemma RecordEmailsAppend(rows: seq<Record>, r: Record)
    ensures RecordEmails(rows + [r]) == RecordEmails(rows) + {r.email}
  {
    var next := rows + [r];
    forall x | x in RecordEmails(next) ensures x in RecordEmails(rows) + {r.email} {
      var i :| 0 <= i < |next| && next[i].email == x;
      if i < |rows| {
        assert next[i] == rows[i];
      }
    }
    forall x | x in RecordEmails(rows) ensures x in RecordEmails(next) {
      var i :| 0 <= i < |rows| && rows[i].email == x;
      assert next[i] == rows[i];
    }
    assert next[|rows|] == r;
  }

  /** Ascending by email, each email once. */
  predicate StrictlySorted(rows: seq<Record>)
  {
    forall i, j :: 0 <= i < j < |rows| ==> rows[i].email != rows[j].email && Below(rows[i].email, rows[j].email)
  }

  // ---------------------------------------------------------------------------
  // migrate_from_json
  // ---------------------------------------------------------------------------

  /** A value read from the JSON file: the key is missing, the value is `null`, or it is a string. */
  datatype JsonField = Absent | Null | Text(value: string)

  /** One `email: info` item of `accounts.json`. */
  datatype JsonEntry = JsonEntry(email: string, refreshToken: JsonField, clientId: JsonField)

  /** Reading `info['refresh_token']` or `info['client_id']` raises; the entry is logged and skipped. */
  predicate Raises(e: JsonEntry)
  {
    e.refreshToken.Absent? || e.clientId.Absent?
  }

  /**
   * The table after `INSERT OR IGNORE` of each entry in turn: a row is added only
   * for an email that has none yet and only when both values are strings (a NULL
   * violates NOT NULL, which OR IGNORE also skips).
   */
  function MigratedTable(t: Table, data: seq<JsonEntry>): Table
    decreases |data|
  {
    if data == [] then t
    else
      var prev := MigratedTable(t, data[..|data| - 1]);
      var e := data[|data| - 1];
      if e.email in prev || !e.refreshToken.Text? || !e.clientId.Text? then prev
      else prev[e.email := Inserted("", e.refreshToken.value, e.clientId.value)]
  }

  /** The `count` of the migration loop: every entry that did not raise, inserted or ignored. */
  function MigratedCount(data: seq<JsonEntry>): (n: nat)
    ensures n <= |data|
    ensures n == |data| <==> forall i :: 0 <= i < |data| ==> !Raises(data[i])
    ensures n == 0 <==> forall i :: 0 <= i < |data| ==> Raises(data[i])
    decreases |data|
  {
    if data == [] then 0
    else
      var init := data[..|data| - 1];
      assert forall i :: 0 <= i < |init| ==> init[i] == data[i];
      MigratedCount(init) + (if Raises(data[|data| - 1]) then 0 else 1)
  }

  /** The count of a concatenation is the sum of the counts: each entry counts 1 unless it raises. */
  lemma {:induction false} MigratedCountAppend(a: seq<JsonEntry>, b: seq<JsonEntry>)
    ensures MigratedCount(a + b) == MigratedCount(a) + MigratedCount(b)
    decreases |b|
  {
    if b == [] {
      assert a + b == a;
    } else {
      var init := b[..|b| - 1];
      MigratedCountAppend(a, init);
      assert (a + b)[..|a + b| - 1] == a + init;
      assert (a + b)[|a + b| - 1] == b[|b| - 1];
    }
  }

  /** The migration never modifies or removes a row that already exists. */
  lemma {:induction false} MigrationKeepsExisting(t: Table, data: seq<JsonEntry>, e: string)
    requires e in t
    ensures e in MigratedTable(t, data) && MigratedTable(t, data)[e] == t[e]
    decreases |data|
  {
    if data != [] {
      MigrationKeepsExisting(t, data[..|data| - 1], e);
    }
  }

  /** A row the migration adds comes from an entry of the file and has the column defaults. */
  lemma {:induction false} MigrationNewRows(t: Table, data: seq<JsonEntry>, e: string)
    requires e !in t && e in MigratedTable(t, data)
    ensures var a := MigratedTable(t, data)[e];
      && a.password == "" && a.isSold == 0 && a.remark == ""
      && exists i :: 0 <= i < |data| && data[i].email == e && data[i].refreshToken == Text(a.refreshToken) && data[i].clientId == Text(a.clientId)
    decreases |data|
  {
    var init := data[..|data| - 1];
    if e in MigratedTable(t, init) {
      MigrationNewRows(t, init, e);
      var i :| 0 <= i < |init| && init[i].email == e && init[i].refreshToken == Text(MigratedTable(t, init)[e].refreshToken)
        && init[i].clientId == Text(MigratedTable(t, init)[e].clientId);
      assert data[i] == init[i];
    } else {
      assert data[|data| - 1].email == e;
    }
  }

  // ---------------------------------------------------------------------------
  // check_and_migrate_schema
  // ---------------------------------------------------------------------------

  /** The ALTER TABLE statements the schema check issues, as the columns they add, in order. */
  function MissingColumns(columns: seq<string>): (r: seq<string>)
    ensures forall c :: c in r <==> c in MigratedColumns && c !in columns
    ensures forall i, j :: 0 <= i < j < |r| ==> r[i] != r[j]
  {
    (if "password" in columns then [] else ["password"])
    + (if "is_sold" in columns then [] else ["is_sold"])
    + (if "remark" in columns then [] else ["remark"])
  }

  /** Running the schema check a second time adds nothing. */
  lemma SchemaCheckIdempotent(columns: seq<string>)
    ensures MissingColumns(columns + MissingColumns(columns)) == []
  {
    var after := columns + MissingColumns(columns);
    assert "password" in after && "is_sold" in after && "remark" in after;
  }

  // ---------------------------------------------------------------------------
  // The store
  // ---------------------------------------------------------------------------

  /** Every `is_sold` is 0 or 1: the only values the store ever writes. */
  predicate SoldFlags(t: Table)
  {
    forall e :: e in t ==> t[e].isSold == 0 || t[e].isSold == 1
  }

  /**
   * With the flags the store keeps, the 'sold' and 'unsold' listings split the
   * unfiltered one: every row a search selects is in exactly one of them.
   */
  lemma SoldAndUnsoldSplit(t: Table, search: Option<string>, e: string)
    requires SoldFlags(t) && e in t
    ensures Selected(search, None, e, t[e]) <==>
      Selected(search, Some("sold"), e, t[e]) || Selected(search, Some("unsold"), e, t[e])
    ensures !(Selected(search, Some("sold"), e, t[e]) && Selected(search, Some("unsold"), e, t[e]))
  {
  }

  class Store {
    /** The rows of `accounts`, keyed by the primary key `email`. */
    var accounts: Table
    /** The column names `PRAGMA table_info(accounts)` lists. */
    var columns: seq<string>

    /** `is_sold` only ever holds 0 or 1. */
    ghost predicate Valid()
      reads this
    {
      SoldFlags(accounts)
    }

    /** An empty `accounts` table with the given columns (`init_db` creates `CreatedColumns`). */
    constructor (columns: seq<string>)
      ensures Valid()
      ensures this.accounts == map[] && this.columns == columns
    {
      this.accounts := map[];
      this.columns := columns;
    }

    /** `check_and_migrate_schema`: add each of password, is_sold, remark that is missing. */
    method CheckAndMigrateSchema()
      modifies this`columns
      ensures columns == old(columns) + MissingColumns(old(columns))
      ensures forall c :: c in MigratedColumns ==> c in columns
    {
      if "password" !in columns {
        columns := columns + ["password"];
      }
      if "is_sold" !in columns {
        columns := columns + ["is_sold"];
      }
      if "remark" !in columns {
        columns := columns + ["remark"];
      }
    }

    /** `_upsert_account_sync`. */
    method Upsert(email: string, refreshToken: string, clientId: string, password: string)
      requires Valid()
      modifies this`accounts
      ensures Valid()
      ensures accounts == Upserted(old(accounts), email, refreshToken, clientId, password)
    {
      if email in accounts {
        var a := accounts[email];
        accounts := accounts[email := a.(password := password, refreshToken := refreshToken, clientId := clientId)];
      } else {
        accounts := accounts[email := Account(password, refreshToken, clientId, 0, "")];
      }
    }

    /**
     * `save_accounts_batch`: one transaction of upserts in list order. An entry that
     * lacks a required key raises before the commit, so nothing of the batch is kept.
     */
    method SaveBatch(batch: seq<BatchEntry>) returns (committed: bool)
      requires Valid()
      modifies this`accounts
      ensures Valid()
      ensures committed == AllComplete(batch)
      ensures committed ==> accounts == BatchSaved(old(accounts), batch)
      ensures !committed ==> accounts == old(accounts)
    {
      var staged := accounts;
      var i := 0;
      while i < |batch|
        invariant 0 <= i <= |batch|
        invariant AllComplete(batch[..i])
        invariant staged == BatchSaved(accounts, batch[..i])
        invariant forall e :: e in staged ==> staged[e].isSold == 0 || staged[e].isSold == 1
      {
        var acc := batch[i];
        if acc.email.None? || acc.refreshToken.None? || acc.clientId.None? {
          return false;
        }
        var password := acc.password.GetOr("");
        assert batch[..i + 1][..i] == batch[..i];
        staged := Upserted(staged, acc.email.value, acc.refreshToken.value, acc.clientId.value, password);
        i := i + 1;
      }
      assert batch[..i] == batch;
      accounts := staged;
      committed := true;
    }

    /** `_update_account_metadata_sync`: build the SET list, return early when it is empty. */
    method UpdateMetadata(email: string, isSold: Option<bool>, remark: Option<string>)
      requires Valid()
      modifies this`accounts
      ensures Valid()
      ensures accounts == MetadataUpdated(old(accounts), email, isSold, remark)
    {
      var updates: seq<Assignment> := [];
      if isSold.Some? {
        updates := updates + [SetSold(if isSold.value then 1 else 0)];
      }
      if remark.Some? {
        updates := updates + [SetRemark(remark.value)];
      }
      if updates == [] {
        return;
      }
      if email in accounts {
        var a := accounts[email];
        var sold := if isSold.Some? then (if isSold.value then 1 else 0) else a.isSold;
        if isSold.Some? && remark.Some? {
          assert updates == [SetSold(sold), SetRemark(remark.value)];
          assert Assigned(a, updates) == Assigned(a.(isSold := sold), [SetRemark(remark.value)]);
          assert Assigned(a.(isSold := sold), [SetRemark(remark.value)]) == Assigned(a.(isSold := sold, remark := remark.value), []);
        } else if isSold.Some? {
          assert updates == [SetSold(sold)];
          assert Assigned(a, updates) == Assigned(a.(isSold := sold), []);
        } else {
          assert updates == [SetRemark(remark.value)];
          assert Assigned(a, updates) == Assigned(a.(remark := remark.value), []);
        }
        accounts := accounts[email := Assigned(a, updates)];
      }
    }

    /** `_delete_accounts_sync`: remove the listed rows and report how many there were. */
    method DeleteAccounts(emails: seq<string>) returns (deleted: nat)
      requires Valid()
      modifies this`accounts
      ensures Valid()
      ensures accounts == old(accounts) - ElementsOf(emails)
      ensures deleted == DeletedCount(old(accounts), emails)
      ensures |accounts| + deleted == |old(accounts)|
    {
      if emails == [] {
        return 0;
      }
      var listed := ElementsOf(emails);
      deleted := |accounts.Keys * listed|;
      RemovedSize(accounts, listed);
      accounts := accounts - listed;
    }

    /** `_get_accounts_filtered_sync`: the rows meeting every condition, in `ORDER BY email` order. */
    method GetAccountsFiltered(search: Option<string>, filterType: Option<string>) returns (rows: seq<Record>)
      ensures forall i :: 0 <= i < |rows| ==>
        rows[i].email in accounts && rows[i].account == accounts[rows[i].email]
      ensures RecordEmails(rows) == set e | e in accounts && Selected(search, filterType, e, accounts[e])
      ensures StrictlySorted(rows)
    {
      var conditions: seq<Condition> := [];
      if search.Some? && search.value != "" {
        conditions := conditions + [MatchesText(search.value)];
      }
      if filterType == Some("sold") {
        conditions := conditions + [SoldIs(1)];
      } else if filterType == Some("unsold") {
        conditions := conditions + [SoldIs(0)];
      }
      assert conditions == QueryConditions(search, filterType);
      var matching := set e | e in accounts && AllHold(conditions, e, accounts[e]);
      assert matching == set e | e in accounts && Selected(search, filterType, e, accounts[e]) by {
        forall e | e in accounts
          ensures AllHold(conditions, e, accounts[e]) <==> Selected(search, filterType, e, accounts[e])
        {
          QueryConditionsMeanSelected(search, filterType, e, accounts[e]);
        }
      }
      rows := OrderByEmail(matching);
    }

    /** `ORDER BY email` over the chosen rows: each step takes the least remaining email. */
    method OrderByEmail(keys: set<string>) returns (rows: seq<Record>)
      requires keys <= accounts.Keys
      ensures forall i :: 0 <= i < |rows| ==> rows[i].email in accounts && rows[i].account == accounts[rows[i].email]
      ensures RecordEmails(rows) == keys
      ensures StrictlySorted(rows)
    {
      var remaining := keys;
      rows := [];
      while remaining != {}
        invariant SortingProgress(accounts, keys, rows, remaining)
        decreases |remaining|
      {
        LeastExists(remaining);
        var m :| m in remaining && IsLeast(m, remaining);
        SortingStep(accounts, keys, rows, remaining, m);
        rows := rows + [Record(m, accounts[m])];
        remaining := remaining - {m};
      }
    }

    /** `_get_all_accounts_sync`: the filtered listing with neither search nor filter. */
    method GetAllAccounts() returns (rows: seq<Record>)
      ensures forall i :: 0 <= i < |rows| ==>
        rows[i].email in accounts && rows[i].account == accounts[rows[i].email]
      ensures RecordEmails(rows) == accounts.Keys
      ensures StrictlySorted(rows)
    {
      rows := GetAccountsFiltered(None, None);
    }

    /**
     * The entry loop of `migrate_from_json`: `INSERT OR IGNORE` each entry, counting
     * every entry that did not raise.
     */
    method MigrateFromJson(data: seq<JsonEntry>) returns (count: nat)
      requires Valid()
      modifies this`accounts
      ensures Valid()
      ensures accounts == MigratedTable(old(accounts), data)
      ensures count == MigratedCount(data)
    {
      count := 0;
      var i := 0;
      while i < |data|
        invariant 0 <= i <= |data|
        invariant accounts == MigratedTable(old(accounts), data[..i])
        invariant count == MigratedCount(data[..i])
        invariant Valid()
      {
        var entry := data[i];
        assert data[..i + 1][..i] == data[..i];
        if !Raises(entry) {
          if entry.email !in accounts && entry.refreshToken.Text? && entry.clientId.Text? {
            accounts := accounts[entry.email := Account("", entry.refreshToken.value, entry.clientId.value, 0, "")];
          }
          count := count + 1;
        }
        i := i + 1;
      }
      assert data[..i] == data;
    }
  }
}
