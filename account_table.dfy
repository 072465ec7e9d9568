/**
 * The account table of the management page: the search and status filters that
 * set each row's `filtered` class, and the select-all box that checks the rows
 * still visible. The rows are the table's `tr.account-row` elements, updated in
 * place one after the other as the page's `forEach` loops do.
 */
module AccountTable {
  import opened Strings

  /**
   * One `tr.account-row`: its `data-email`, `data-status` and `data-sold`
   * attributes, the text of its remark input, whether it carries the `filtered`
   * class and whether its checkbox is checked.
   */
  datatype Row = Row(email: string, status: string, sold: bool, remark: string, filtered: bool, checked: bool)

  /** `a` and `b` are the same row except, perhaps, for the `filtered` class. */
  predicate SameButFiltered(a: Row, b: Row)
  {
    a.(filtered := b.filtered) == b
  }

  // ---------------------------------------------------------------------------
  // The visibility predicates
  // ---------------------------------------------------------------------------

  /**
   * `filterAccounts`' test: the lower-cased term occurs in the lower-cased email or
   * in the lower-cased remark. An empty term occurs in every string.
   */
  function SearchVisible(term: string, r: Row): (visible: bool)
    ensures term == [] ==> visible
    ensures visible <==>
      (exists i :: OccursAt(Lower(r.email), Lower(term), i)) || (exists i :: OccursAt(Lower(r.remark), Lower(term), i))
  {
    ContainsIff(Lower(r.email), Lower(term));
    ContainsIff(Lower(r.remark), Lower(term));
    Contains(Lower(r.email), Lower(term)) || Contains(Lower(r.remark), Lower(term))
  }

  /**
   * `filterByStatus`' test: "all" shows every row, "active" and "inactive" compare
   * with the row's status, "sold" and "unsold" read the sold flag, and any other
   * filter value hides the row.
   */
  function StatusVisible(status: string, r: Row): (visible: bool)
    ensures status == "all" ==> visible
    ensures status == "active" || status == "inactive" ==> (visible <==> r.status == status)
    ensures status == "sold" || status == "unsold" ==> (visible <==> (r.sold <==> status == "sold"))
    ensures status !in {"all", "active", "inactive", "sold", "unsold"} ==> !visible
  {
    if status == "all" then true
    else if status == "active" || status == "inactive" then r.status == status
    else if status == "sold" then r.sold
    else if status == "unsold" then !r.sold
    else false
  }

  // ---------------------------------------------------------------------------
  // The table after each operation
  // ---------------------------------------------------------------------------

  /** The rows after the search filter: every row's class is rewritten from the search test alone. */
  function WithSearch(rows: seq<Row>, term: string): (r: seq<Row>)
    ensures |r| == |rows|
    ensures forall i :: 0 <= i < |rows| ==> SameButFiltered(rows[i], r[i])
  {
    seq(|rows|, i requires 0 <= i < |rows| => rows[i].(filtered := !SearchVisible(term, rows[i])))
  }

  /** The rows after the status filter: every row's class is rewritten from the status test alone. */
  function WithStatus(rows: seq<Row>, status: string): (r: seq<Row>)
    ensures |r| == |rows|
    ensures forall i :: 0 <= i < |rows| ==> SameButFiltered(rows[i], r[i])
  {
    seq(|rows|, i requires 0 <= i < |rows| => rows[i].(filtered := !StatusVisible(status, rows[i])))
  }

  /** The rows after the select-all box is set to `on`: visible rows take its state, hidden rows keep theirs. */
  function WithSelectAll(rows: seq<Row>, on: bool): (r: seq<Row>)
    ensures |r| == |rows|
  {
    seq(|rows|, i requires 0 <= i < |rows| => if rows[i].filtered then rows[i] else rows[i].(checked := on))
  }

  /** Each filter overwrites every row's visibility, so applying the status filter after a search forgets the search. */
  lemma LastStatusFilterWins(rows: seq<Row>, term: string, status: string)
    ensures WithStatus(WithSearch(rows, term), status) == WithStatus(rows, status)
  {
    var a := WithStatus(WithSearch(rows, term), status);
    var b := WithStatus(rows, status);
    forall i | 0 <= i < |rows| ensures a[i] == b[i] {
      assert WithSearch(rows, term)[i].(filtered := rows[i].filtered) == rows[i];
    }
  }

  /** Applying the search after a status filter forgets the status filter. */
  lemma LastSearchWins(rows: seq<Row>, status: string, term: string)
    ensures WithSearch(WithStatus(rows, status), term) == WithSearch(rows, term)
  {
    var a := WithSearch(WithStatus(rows, status), term);
    var b := WithSearch(rows, term);
    forall i | 0 <= i < |rows| ensures a[i] == b[i] {
      assert WithStatus(rows, status)[i].(filtered := rows[i].filtered) == rows[i];
    }
  }

  /** Filtering twice with the same value is filtering once. */
  lemma FiltersIdempotent(rows: seq<Row>, term: string, status: string)
    ensures WithSearch(WithSearch(rows, term), term) == WithSearch(rows, term)
    ensures WithStatus(WithStatus(rows, status), status) == WithStatus(rows, status)
  {
    LastSearchWins(rows, status, term);
    var s := WithSearch(rows, term);
    forall i | 0 <= i < |rows| ensures WithSearch(s, term)[i] == s[i] {
      assert s[i].(filtered := rows[i].filtered) == rows[i];
    }
    var t := WithStatus(rows, status);
    forall i | 0 <= i < |rows| ensures WithStatus(t, status)[i] == t[i] {
      assert t[i].(filtered := rows[i].filtered) == rows[i];
    }
  }

  /** Select-all checks or clears exactly the visible rows and changes nothing else. */
  lemma SelectAllTouchesOnlyVisible(rows: seq<Row>, on: bool)
    ensures forall i :: 0 <= i < |rows| ==>
      && WithSelectAll(rows, on)[i].(checked := rows[i].checked) == rows[i]
      && WithSelectAll(rows, on)[i].checked == (if rows[i].filtered then rows[i].checked else on)
  {
  }

  // ---------------------------------------------------------------------------
  // The emails the delete button collects
  // ---------------------------------------------------------------------------

  /** `#accountTableBody .account-checkbox:checked` mapped to emails, in row order (hidden rows included). */
  function CheckedEmails(rows: seq<Row>): seq<string>
    decreases |rows|
  {
    if rows == [] then []
    else
      var last := rows[|rows| - 1];
      CheckedEmails(rows[..|rows| - 1]) + (if last.checked then [last.email] else [])
  }

  /** The emails of the visible rows, in row order. */
  function VisibleEmails(rows: seq<Row>): seq<string>
    decreases |rows|
  {
    if rows == [] then []
    else
      var last := rows[|rows| - 1];
      VisibleEmails(rows[..|rows| - 1]) + (if last.filtered then [] else [last.email])
  }

  /**
   * When no row is checked, ticking select-all selects for deletion exactly the
   * visible rows, in table order.
   */
  lemma {:induction false} SelectAllSelectsVisible(rows: seq<Row>)
    requires forall i :: 0 <= i < |rows| ==> !rows[i].checked
    ensures CheckedEmails(WithSelectAll(rows, true)) == VisibleEmails(rows)
    decreases |rows|
  {
    if rows != [] {
      var init := rows[..|rows| - 1];
      SelectAllSelectsVisible(init);
      assert WithSelectAll(rows, true)[..|rows| - 1] == WithSelectAll(init, true);
    }
  }

  /** Clearing select-all leaves checked only the hidden rows that were checked. */
  lemma {:induction false} SelectNoneKeepsHidden(rows: seq<Row>)
    ensures CheckedEmails(WithSelectAll(rows, false)) == CheckedEmails(HiddenRows(rows))
    decreases |rows|
  {
    if rows != [] {
      var init := rows[..|rows| - 1];
      SelectNoneKeepsHidden(init);
      assert WithSelectAll(rows, false)[..|rows| - 1] == WithSelectAll(init, false);
      HiddenRowsSnoc(init, rows[|rows| - 1]);
      assert rows == init + [rows[|rows| - 1]];
      CheckedEmailsAppend(HiddenRows(init), if rows[|rows| - 1].filtered then [rows[|rows| - 1]] else []);
    }
  }

  /** The emails of the rows that are visible or already checked, in row order. */
  function VisibleOrCheckedEmails(rows: seq<Row>): seq<string>
    decreases |rows|
  {
    if rows == [] then []
    else
      var last := rows[|rows| - 1];
      VisibleOrCheckedEmails(rows[..|rows| - 1]) + (if !last.filtered || last.checked then [last.email] else [])
  }

  /**
   * Ticking select-all after a manual selection: the delete button then collects
   * the visible rows and the hidden rows that were checked by hand, in table order.
   */
  lemma {:induction false} SelectAllKeepsManualChecks(rows: seq<Row>)
    ensures CheckedEmails(WithSelectAll(rows, true)) == VisibleOrCheckedEmails(rows)
    decreases |rows|
  {
    if rows != [] {
      var init := rows[..|rows| - 1];
      SelectAllKeepsManualChecks(init);
      assert WithSelectAll(rows, true)[..|rows| - 1] == WithSelectAll(init, true);
    }
  }

  /** The rows that carry the `filtered` class, in order. */
  function HiddenRows(rows: seq<Row>): (r: seq<Row>)
    ensures forall i :: 0 <= i < |r| ==> r[i].filtered
    decreases |rows|
  {
    if rows == [] then []
    else
      var last := rows[|rows| - 1];
      HiddenRows(rows[..|rows| - 1]) + (if last.filtered then [last] else [])
  }

  lemma HiddenRowsSnoc(rows: seq<Row>, r: Row)
    ensures HiddenRows(rows + [r]) == HiddenRows(rows) + (if r.filtered then [r] else [])
  {
    assert (rows + [r])[..|rows|] == rows;
  }

  lemma {:induction false} CheckedEmailsAppend(a: seq<Row>, b: seq<Row>)
    ensures CheckedEmails(a + b) == CheckedEmails(a) + CheckedEmails(b)
    decreases |b|
  {
    if b == [] {
      assert a + b == a;
    } else {
      var init := b[..|b| - 1];
      CheckedEmailsAppend(a, init);
      assert (a + b)[..|a + b| - 1] == a + init;
    }
  }

  // ---------------------------------------------------------------------------
  // The page's loops over the table rows
  // ---------------------------------------------------------------------------

  /** `filterAccounts`: rewrite every row's `filtered` class from the search term. */
  method FilterAccounts(rows: array<Row>, term: string)
    modifies rows
    ensures rows[..] == WithSearch(old(rows[..]), term)
  {
    for i := 0 to rows.Length
      invariant forall k :: 0 <= k < i ==> rows[k] == old(rows[k]).(filtered := !SearchVisible(term, old(rows[k])))
      invariant forall k :: i <= k < rows.Length ==> rows[k] == old(rows[k])
    {
      var row := rows[i];
      if SearchVisible(term, row) {
        rows[i] := row.(filtered := false);
      } else {
        rows[i] := row.(filtered := true);
      }
    }
  }

  /**
   * `filterByStatus`: first marks the filter button `.filter-btn[data-filter=status]`
   * as active, then rewrites every row's `filtered` class from the status filter.
   * `buttonFound` says whether that button exists; when it does not, marking it
   * throws and no row is touched.
   */
  method FilterByStatus(rows: array<Row>, status: string, buttonFound: bool)
    modifies rows
    ensures buttonFound ==> rows[..] == WithStatus(old(rows[..]), status)
    ensures !buttonFound ==> rows[..] == old(rows[..])
  {
    if !buttonFound {
      return;
    }
    for i := 0 to rows.Length
      invariant forall k :: 0 <= k < i ==> rows[k] == old(rows[k]).(filtered := !StatusVisible(status, old(rows[k])))
      invariant forall k :: i <= k < rows.Length ==> rows[k] == old(rows[k])
    {
      var row := rows[i];
      var visible := false;
      if status == "all" {
        visible := true;
      } else if status == "active" || status == "inactive" {
        visible := row.status == status;
      } else if status == "sold" {
        visible := row.sold;
      } else if status == "unsold" {
        visible := !row.sold;
      }
      if visible {
        rows[i] := row.(filtered := false);
      } else {
        rows[i] := row.(filtered := true);
      }
    }
  }

  /** `toggleSelectAll`: give the checkboxes of the visible rows the select-all box's state. */
  method ToggleSelectAll(rows: array<Row>, on: bool)
    modifies rows
    ensures rows[..] == WithSelectAll(old(rows[..]), on)
  {
    for i := 0 to rows.Length
      invariant forall k :: 0 <= k < i ==> rows[k] == (if old(rows[k]).filtered then old(rows[k]) else old(rows[k]).(checked := on))
      invariant forall k :: i <= k < rows.Length ==> rows[k] == old(rows[k])
    {
      if !rows[i].filtered {
        rows[i] := rows[i].(checked := on);
      }
    }
  }

  /** The emails of the checked rows, as `deleteSelectedAccounts` collects them. */
  method SelectedEmails(rows: array<Row>) returns (emails: seq<string>)
    ensures emails == CheckedEmails(rows[..])
  {
    emails := [];
    for i := 0 to rows.Length
      invariant emails == CheckedEmails(rows[..i])
    {
      assert rows[..i + 1][..i] == rows[..i];
      if rows[i].checked {
        emails := emails + [rows[i].email];
      }
    }
    assert rows[..rows.Length] == rows[..];
  }
}
