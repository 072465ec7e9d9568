/**
 * The batch flow of the account manager's page: parsing the pasted
 * `email----<ignored>----client_id----refresh_token` lines, summarising the
 * verify endpoint's per-account results, and the success count shown after import.
 */
module BatchImport {
  import opened Wrappers
  import opened Strings

  /** An account to verify or import, as the page sends it. */
  datatype Candidate = Candidate(email: string, refreshToken: string, clientId: string)

  /** The credentials part of a verified account. */
  datatype Credentials = Credentials(refreshToken: string, clientId: string)

  const FieldSeparator: string := "----"
  const LineSeparator: string := "\n"

  // ---------------------------------------------------------------------------
  // Parsing the pasted text
  // ---------------------------------------------------------------------------

  /** `xs.filter(keep)`: the elements that pass the test, in order, repeats included. */
  function Filter<T>(xs: seq<T>, keep: T -> bool): (r: seq<T>)
    ensures |r| <= |xs|
    decreases |xs|
  {
    if xs == [] then []
    else
      var last := xs[|xs| - 1];
      Filter(xs[..|xs| - 1], keep) + (if keep(last) then [last] else [])
  }

  /** Filtering a concatenation filters each half. */
  lemma {:induction false} FilterAppend<T>(a: seq<T>, b: seq<T>, keep: T -> bool)
    ensures Filter(a + b, keep) == Filter(a, keep) + Filter(b, keep)
    decreases |b|
  {
    if b == [] {
      assert a + b == a;
    } else {
      var init := b[..|b| - 1];
      var last := b[|b| - 1];
      FilterAppend(a, init, keep);
      assert (a + b)[..|a + b| - 1] == a + init;
      assert (a + b)[|a + b| - 1] == last;
    }
  }

  /** The kept elements are exactly those that pass the test. */
  lemma {:induction false} FilterMembers<T>(xs: seq<T>, keep: T -> bool)
    ensures forall i :: 0 <= i < |Filter(xs, keep)| ==> keep(Filter(xs, keep)[i]) && Filter(xs, keep)[i] in xs
    ensures forall i :: 0 <= i < |xs| && keep(xs[i]) ==> xs[i] in Filter(xs, keep)
    decreases |xs|
  {
    if xs != [] {
      var init := xs[..|xs| - 1];
      FilterMembers(init, keep);
      assert xs == init + [xs[|xs| - 1]];
      assert forall i :: 0 <= i < |init| ==> init[i] == xs[i];
    }
  }

  /** `line => line.trim()` as a test: the trimmed line is a non-empty, truthy string. */
  predicate LineHasText(line: string)
  {
    Trim(line) != ""
  }

  /** `lines.filter(line => line.trim())`: the lines that are not blank, in order. */
  function NonBlank(lines: seq<string>): (r: seq<string>)
    ensures |r| <= |lines|
  {
    Filter(lines, LineHasText)
  }

  /** A single line is kept exactly when it is not blank. */
  lemma NonBlankSingle(x: string)
    ensures NonBlank([x]) == if IsBlank(x) then [] else [x]
  {
    assert [x][..0] == [];
  }

  /** Filtering a concatenation filters each half: the kept lines keep their order and their repeats. */
  lemma NonBlankAppend(a: seq<string>, b: seq<string>)
    ensures NonBlank(a + b) == NonBlank(a) + NonBlank(b)
  {
    FilterAppend(a, b, LineHasText);
  }

  /** The kept lines are exactly the non-blank ones. */
  lemma NonBlankMembers(lines: seq<string>)
    ensures forall i :: 0 <= i < |NonBlank(lines)| ==> !IsBlank(NonBlank(lines)[i]) && NonBlank(lines)[i] in lines
    ensures forall i :: 0 <= i < |lines| && !IsBlank(lines[i]) ==> lines[i] in NonBlank(lines)
  {
    FilterMembers(lines, LineHasText);
  }

  /** `batchText.trim().split('\n').filter(line => line.trim())`. */
  function BatchLines(text: string): seq<string>
  {
    NonBlank(Split(Trim(text), LineSeparator))
  }

  /** `parts.map(p => p.trim())`. */
  function TrimAll(parts: seq<string>): (r: seq<string>)
    ensures |r| == |parts|
  {
    seq(|parts|, i requires 0 <= i < |parts| => Trim(parts[i]))
  }

  /** `line.split('----').map(p => p.trim())`. */
  function LineFields(line: string): seq<string>
  {
    TrimAll(Split(line, FieldSeparator))
  }

  /**
   * The fields of a line are its trimmed `----`-separated pieces: the pieces
   * rebuild the line, and the line is cut at each leftmost `----`.
   */
  lemma LineFieldsOf(line: string)
    ensures var raw := Split(line, FieldSeparator);
      && |LineFields(line)| == |raw|
      && Join(raw, FieldSeparator) == line
      && CutAtSeparators(raw, FieldSeparator)
      && forall k :: 0 <= k < |raw| ==> LineFields(line)[k] == Trim(raw[k])
  {
    JoinSplit(line, FieldSeparator);
    SplitCutsAtSeparators(line, FieldSeparator);
  }

  /**
   * One line's candidate: exactly four fields are required; field 1 is the email,
   * field 3 the client id and field 4 the refresh token (field 2 is ignored).
   */
  function FromFields(parts: seq<string>): Option<Candidate>
  {
    if |parts| != 4 then None else Some(Candidate(parts[0], parts[3], parts[2]))
  }

  /** The candidates of the field lists that have four fields, in order. */
  function ParsedFields(rows: seq<seq<string>>): (r: seq<Candidate>)
    ensures |r| <= |rows|
    decreases |rows|
  {
    if rows == [] then []
    else
      var before := ParsedFields(rows[..|rows| - 1]);
      match FromFields(rows[|rows| - 1])
      case Some(c) => before + [c]
      case None => before
  }

  /** The fields of every line. */
  function FieldRows(lines: seq<string>): (rows: seq<seq<string>>)
    ensures |rows| == |lines|
  {
    seq(|lines|, i requires 0 <= i < |lines| => LineFields(lines[i]))
  }

  /** The candidates of the non-blank lines of a batch. */
  function Parsed(lines: seq<string>): seq<Candidate>
  {
    ParsedFields(FieldRows(lines))
  }

  /** No line is dropped exactly when every line has four fields. */
  lemma {:induction false} ParsedKeepsAll(rows: seq<seq<string>>)
    ensures |ParsedFields(rows)| == |rows| <==> forall i :: 0 <= i < |rows| ==> |rows[i]| == 4
    decreases |rows|
  {
    if rows != [] {
      var init := rows[..|rows| - 1];
      ParsedKeepsAll(init);
      assert forall i :: 0 <= i < |init| ==> init[i] == rows[i];
    }
  }

  /** Every candidate has the swapped field order of one four-field line. */
  lemma {:induction false} ParsedFromRows(rows: seq<seq<string>>, j: nat)
    requires j < |ParsedFields(rows)|
    ensures exists i :: (0 <= i < |rows| && |rows[i]| == 4 &&
      ParsedFields(rows)[j] == Candidate(rows[i][0], rows[i][3], rows[i][2]))
    decreases |rows|
  {
    var init := rows[..|rows| - 1];
    if j < |ParsedFields(init)| {
      ParsedFromRows(init, j);
      var i :| 0 <= i < |init| && |init[i]| == 4 && ParsedFields(init)[j] == Candidate(init[i][0], init[i][3], init[i][2]);
      assert rows[i] == init[i];
    } else {
      assert |rows[|rows| - 1]| == 4;
    }
  }

  /** A batch whose every line has four `----`-separated fields yields one candidate per line. */
  lemma WellFormedBatch(lines: seq<string>)
    requires forall i :: 0 <= i < |lines| ==> |Split(lines[i], FieldSeparator)| == 4
    ensures |Parsed(lines)| == |lines|
  {
    var rows := FieldRows(lines);
    forall i | 0 <= i < |lines| ensures |rows[i]| == 4 {
      LineFieldsOf(lines[i]);
    }
    ParsedKeepsAll(rows);
  }

  /** One more field list adds its candidate, if it has one. */
  lemma ParsedFieldsStep(rows: seq<seq<string>>, i: nat)
    requires i < |rows|
    ensures ParsedFields(rows[..i + 1]) ==
      ParsedFields(rows[..i]) + (if |rows[i]| == 4 then [Candidate(rows[i][0], rows[i][3], rows[i][2])] else [])
  {
    assert rows[..i + 1][..i] == rows[..i];
  }

  /** The parse loop of `verifyBatchAccounts`, over the split and trimmed lines. */
  method ParseRows(rows: seq<seq<string>>) returns (candidates: seq<Candidate>)
    ensures candidates == ParsedFields(rows)
  {
    candidates := [];
    for i := 0 to |rows|
      invariant candidates == ParsedFields(rows[..i])
    {
      ParsedFieldsStep(rows, i);
      var parts := rows[i];
      if |parts| != 4 {
        continue;
      }
      candidates := candidates + [Candidate(parts[0], parts[3], parts[2])];
    }
    assert rows[..|rows|] == rows;
  }

  /** A blank paste has no non-blank line, so it yields no candidate. */
  lemma BlankBatchHasNoLines(text: string)
    requires Trim(text) == ""
    ensures Parsed(BatchLines(text)) == []
  {
    var lines: seq<string> := [""];
    assert Split("", LineSeparator) == lines;
    assert IsBlank("");
    assert NonBlank(lines) == [];
    assert FieldRows([]) == [];
  }

  /**
   * `verifyBatchAccounts` up to the request: the candidates of the pasted text; a
   * blank paste stops before the lines are split.
   */
  method ParseBatch(text: string) returns (candidates: seq<Candidate>)
    ensures candidates == Parsed(BatchLines(text))
    ensures |candidates| <= |BatchLines(text)|
  {
    if Trim(text) == "" {
      BlankBatchHasNoLines(text);
      return [];
    }
    var lines := BatchLines(text);
    var rows := FieldRows(lines);
    candidates := ParseRows(rows);
  }

  // ---------------------------------------------------------------------------
  // renderVerificationResult
  // ---------------------------------------------------------------------------

  /** One item of the verify endpoint's answer. */
  datatype VerifyResult = VerifyResult(email: string, status: string, credentials: Option<Credentials>, message: string)

  predicate Succeeded(r: VerifyResult)
  {
    r.status == "success"
  }

  /** `results.filter(r => r.status === 'success').length`. */
  function SuccessCount(results: seq<VerifyResult>): (n: nat)
    ensures n <= |results|
    ensures n == 0 <==> forall i :: 0 <= i < |results| ==> !Succeeded(results[i])
    ensures n == |results| <==> forall i :: 0 <= i < |results| ==> Succeeded(results[i])
    decreases |results|
  {
    if results == [] then 0
    else
      var init := results[..|results| - 1];
      assert forall i :: 0 <= i < |init| ==> init[i] == results[i];
      SuccessCount(init) + (if Succeeded(results[|results| - 1]) then 1 else 0)
  }

  /** A result row's checkbox: checked and carrying the account, or disabled. */
  datatype Checkbox = Checked(account: Candidate) | Disabled(email: string)

  /**
   * The checkboxes of the result rows, or `None` when a successful result has no
   * `credentials` (reading `result.credentials.refresh_token` throws).
   */
  function Checkboxes(results: seq<VerifyResult>): (r: Option<seq<Checkbox>>)
    ensures r.None? <==> exists i :: 0 <= i < |results| && Succeeded(results[i]) && results[i].credentials.None?
    ensures r.Some? ==> |r.value| == |results|
    ensures r.Some? ==> forall i :: 0 <= i < |results| ==>
      && (r.value[i].Checked? <==> Succeeded(results[i]))
      && (r.value[i].Checked? ==>
            r.value[i].account == Candidate(results[i].email, results[i].credentials.value.refreshToken, results[i].credentials.value.clientId))
    decreases |results|
  {
    if results == [] then Some([])
    else
      var init := results[..|results| - 1];
      var last := results[|results| - 1];
      assert forall i :: 0 <= i < |init| ==> init[i] == results[i];
      match Checkboxes(init)
      case None => None
      case Some(boxes) =>
        if !Succeeded(last) then Some(boxes + [Disabled(last.email)])
        else if last.credentials.None? then None
        else Some(boxes + [Checked(Candidate(last.email, last.credentials.value.refreshToken, last.credentials.value.clientId))])
  }

  /** The accounts of the checked boxes, in row order: what the import button sends. */
  function CheckedAccounts(boxes: seq<Checkbox>): seq<Candidate>
    decreases |boxes|
  {
    if boxes == [] then []
    else
      var init := CheckedAccounts(boxes[..|boxes| - 1]);
      match boxes[|boxes| - 1]
      case Checked(a) => init + [a]
      case Disabled(_) => init
  }

  /** As rendered, one account is selected for import per successful result. */
  lemma {:induction false} CheckedMatchesSuccess(results: seq<VerifyResult>)
    requires Checkboxes(results).Some?
    ensures |CheckedAccounts(Checkboxes(results).value)| == SuccessCount(results)
    decreases |results|
  {
    if results != [] {
      var init := results[..|results| - 1];
      CheckedMatchesSuccess(init);
      var boxes := Checkboxes(results).value;
      assert boxes[..|boxes| - 1] == Checkboxes(init).value;
    }
  }

  /** What the result panel shows. */
  datatype Verification =
    | NoAccountsFound
    | Unrendered
    | Summary(successCount: nat, failCount: nat, importEnabled: bool, selectAllEnabled: bool, boxes: seq<Checkbox>)

  /**
   * `renderVerificationResult`: counts that add up to the number of results, and an
   * import button and select-all box that are enabled only when something succeeded.
   */
  function Summarize(results: seq<VerifyResult>): (v: Verification)
    ensures v.NoAccountsFound? <==> results == []
    ensures v.Unrendered? <==> results != [] && Checkboxes(results).None?
    ensures v.Summary? ==>
      && v.successCount + v.failCount == |results|
      && (v.importEnabled <==> v.successCount > 0)
      && (v.selectAllEnabled <==> v.successCount > 0)
      && (v.importEnabled <==> exists i :: 0 <= i < |results| && Succeeded(results[i]))
      && v.boxes == Checkboxes(results).value
      && |CheckedAccounts(v.boxes)| == v.successCount
  {
    if results == [] then NoAccountsFound
    else
      var successCount := SuccessCount(results);
      var failCount := |results| - successCount;
      match Checkboxes(results)
      case None => Unrendered
      case Some(boxes) =>
        CheckedMatchesSuccess(results);
        Summary(successCount, failCount, successCount > 0, successCount > 0, boxes)
  }

  // ---------------------------------------------------------------------------
  // The success count of importSelectedAccounts
  // ---------------------------------------------------------------------------

  /** One item of the import endpoint's answer; `None` is a missing `message`. */
  datatype ImportItem = ImportItem(message: Option<string>)

  /** The import endpoint answers with an array or with a single object. */
  datatype ImportResponse = ItemList(items: seq<ImportItem>) | Single(message: Option<string>)

  predicate IsErrorItem(item: ImportItem)
    requires item.message.Some?
  {
    StartsWith(item.message.value, "Error")
  }

  /** `items.filter(r => !r.message.startsWith('Error')).length`; `None` when a message is missing. */
  function NonErrorCount(items: seq<ImportItem>): (n: Option<nat>)
    ensures n.Some? ==> n.value <= |items|
    decreases |items|
  {
    if items == [] then Some(0)
    else NonErrorCountStep(NonErrorCount(items[..|items| - 1]), items[|items| - 1])
  }

  /**
   * The count is missing exactly when some message is; otherwise it is every item
   * exactly when no message starts with "Error", and none exactly when all do.
   */
  lemma {:induction false} NonErrorCountMeaning(items: seq<ImportItem>)
    ensures NonErrorCount(items).None? <==> exists i :: 0 <= i < |items| && items[i].message.None?
    ensures NonErrorCount(items).Some? ==>
      (NonErrorCount(items).value == |items| <==> forall i :: 0 <= i < |items| ==> !IsErrorItem(items[i]))
    ensures NonErrorCount(items).Some? ==>
      (NonErrorCount(items).value == 0 <==> forall i :: 0 <= i < |items| ==> IsErrorItem(items[i]))
    decreases |items|
  {
    if items != [] {
      var init := items[..|items| - 1];
      NonErrorCountMeaning(init);
      assert forall i :: 0 <= i < |init| ==> init[i] == items[i];
    }
  }

  /** Counting a concatenation adds the counts of the halves; a missing message anywhere leaves no count. */
  lemma {:induction false} NonErrorCountAppend(a: seq<ImportItem>, b: seq<ImportItem>)
    ensures NonErrorCount(a + b) ==
      if NonErrorCount(a).Some? && NonErrorCount(b).Some? then Some(NonErrorCount(a).value + NonErrorCount(b).value) else None
    decreases |b|
  {
    if b == [] {
      assert a + b == a;
    } else {
      var init := b[..|b| - 1];
      var last := b[|b| - 1];
      NonErrorCountAppend(a, init);
      assert (a + b)[..|a + b| - 1] == a + init;
      assert (a + b)[|a + b| - 1] == last;
      assert NonErrorCount(a + b) == NonErrorCountStep(NonErrorCount(a + init), last);
      assert NonErrorCount(b) == NonErrorCountStep(NonErrorCount(init), last);
    }
  }

  /** The count after one more item. */
  function NonErrorCountStep(before: Option<nat>, last: ImportItem): Option<nat>
  {
    if before.None? || last.message.None? then None
    else Some(before.value + (if IsErrorItem(last) then 0 else 1))
  }

  /** One item counts 1 when its message does not start with "Error", 0 when it does. */
  lemma NonErrorCountSingle(item: ImportItem)
    ensures NonErrorCount([item]) == if item.message.None? then None else Some(if IsErrorItem(item) then 0 else 1)
  {
    assert [item][..0] == [];
  }

  /**
   * The count the import message reports: items whose message does not start with
   * "Error" for an array answer, otherwise 1 exactly when the message contains
   * "success". `None` when the property read throws.
   */
  function ImportSuccessCount(response: ImportResponse): (n: Option<nat>)
    ensures response.ItemList? ==>
      && n == NonErrorCount(response.items)
      && (n.None? <==> exists i :: 0 <= i < |response.items| && response.items[i].message.None?)
      && (n.Some? ==> n.value <= |response.items|)
      && (n.Some? ==> (n.value == 0 <==> forall i :: 0 <= i < |response.items| ==> IsErrorItem(response.items[i])))
    ensures response.Single? ==>
      && (n.None? <==> response.message.None?)
      && (n.Some? ==> n.value <= 1 && (n.value == 1 <==> Contains(response.message.value, "success")))
  {
    match response
    case ItemList(items) => NonErrorCountMeaning(items); NonErrorCount(items)
    case Single(message) =>
      if message.None? then None
      else Some(if Contains(message.value, "success") then 1 else 0)
  }
}
