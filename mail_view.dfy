/**
 * The mail view of the page: the pagination controls under the inbox and junk
 * lists, the choice of content tabs for one message, the escaping of its raw
 * source and the sanitising of its HTML body. The HTML body is taken as the
 * element tree the browser parses it into; parsing and serialising are not
 * part of this model.
 */
module MailView {
  import opened Wrappers
  import opened Strings

  // ---------------------------------------------------------------------------
  // updateDualPagination
  // ---------------------------------------------------------------------------

  /** The page size the page asks the server for. */
  const PageSize: nat := 20

  /** `Math.ceil(total / 20)`: the fewest pages of twenty that hold `total` messages. */
  function PageCount(total: nat): (pages: nat)
    ensures pages * PageSize >= total
    ensures pages > 0 ==> (pages - 1) * PageSize < total
    ensures pages == 0 <==> total == 0
  {
    (total + PageSize - 1) / PageSize
  }

  /** One list's pagination controls: hidden, or the two buttons with their targets and the page label. */
  datatype Pager =
    | Hidden
    | Shown(current: int, pages: nat, prevTarget: int, nextTarget: int, prevDisabled: bool, nextDisabled: bool)

  /**
   * The controls for a list of `total` messages showing page `current`: hidden when
   * everything fits on one page, otherwise a previous button disabled on the first
   * page and a next button disabled on the last one.
   */
  function Pagination(total: nat, current: int): (p: Pager)
    ensures p.Hidden? <==> total <= PageSize
    ensures p.Shown? ==>
      && p.pages == PageCount(total) && p.pages >= 2
      && p.current == current
      && (p.prevDisabled <==> current == 1)
      && (p.nextDisabled <==> current == p.pages)
      && p.prevTarget == current - 1
      && p.nextTarget == current + 1
  {
    var pages := PageCount(total);
    if pages <= 1 then Hidden
    else Shown(current, pages, current - 1, current + 1, current == 1, current == pages)
  }

  /** While the cursor is on a real page, every enabled button leads to a real page. */
  lemma EnabledButtonsStayInRange(total: nat, current: int)
    requires 1 <= current <= PageCount(total)
    ensures var p := Pagination(total, current);
      p.Shown? ==>
        && (!p.prevDisabled ==> 1 <= p.prevTarget <= p.pages)
        && (!p.nextDisabled ==> 1 <= p.nextTarget <= p.pages)
  {
  }

  /**
   * The page controls never hide a page: on a real page of a list with more than
   * one page, at least one button is enabled.
   */
  lemma SomeButtonEnabled(total: nat, current: int)
    requires 1 <= current <= PageCount(total)
    ensures var p := Pagination(total, current);
      p.Shown? ==> !p.prevDisabled || !p.nextDisabled
  {
  }

  /** `updateDualPagination`: the inbox and junk controls, each from its own total and cursor. */
  function DualPagination(inboxTotal: nat, junkTotal: nat, inboxPage: int, junkPage: int): (r: (Pager, Pager))
    ensures r.0.Hidden? <==> inboxTotal <= PageSize
    ensures r.1.Hidden? <==> junkTotal <= PageSize
    ensures r.0.Shown? ==> r.0.current == inboxPage && r.0.pages == PageCount(inboxTotal)
    ensures r.1.Shown? ==> r.1.current == junkPage && r.1.pages == PageCount(junkTotal)
  {
    (Pagination(inboxTotal, inboxPage), Pagination(junkTotal, junkPage))
  }

  // ---------------------------------------------------------------------------
  // sanitizeHTML, on the parsed tree
  // ---------------------------------------------------------------------------

  /** An attribute with its (lower-case) name. */
  datatype Attr = Attr(name: string, value: string)

  /** A node of the parsed HTML body. */
  datatype Node = Element(tag: string, attrs: seq<Attr>, children: seq<Node>) | Text(text: string)

  /** The attributes the sanitiser removes: event handlers (`on…`) and one named `javascript:`. Values are not examined. */
  predicate Dangerous(a: Attr)
  {
    StartsWith(a.name, "on") || a.name == "javascript:"
  }

  /** No `script` element anywhere in the subtree. */
  predicate ScriptFree(n: Node)
    decreases n
  {
    match n
    case Text(_) => true
    case Element(tag, _, children) => tag != "script" && forall c :: c in children ==> ScriptFree(c)
  }

  /** No dangerous attribute on any element of the subtree. */
  predicate HandlerFree(n: Node)
    decreases n
  {
    match n
    case Text(_) => true
    case Element(_, attrs, children) =>
      (forall a :: a in attrs ==> !Dangerous(a)) && forall c :: c in children ==> HandlerFree(c)
  }

  predicate Clean(nodes: seq<Node>)
  {
    forall n :: n in nodes ==> ScriptFree(n) && HandlerFree(n)
  }

  /** An element's attributes without the dangerous ones, in order. */
  function SafeAttrs(attrs: seq<Attr>): (r: seq<Attr>)
    ensures forall a :: a in r ==> a in attrs && !Dangerous(a)
    ensures forall a :: a in attrs && !Dangerous(a) ==> a in r
    ensures (forall a :: a in attrs ==> !Dangerous(a)) ==> r == attrs
  {
    if attrs == [] then []
    else
      var rest := SafeAttrs(attrs[1..]);
      assert attrs == [attrs[0]] + attrs[1..];
      if Dangerous(attrs[0]) then rest else [attrs[0]] + rest
  }

  /**
   * `sanitizeHTML`: every `script` element is removed with its subtree, and the
   * dangerous attributes are removed from every remaining element.
   */
  function Sanitize(nodes: seq<Node>): (r: seq<Node>)
    ensures Clean(r)
    ensures |r| <= |nodes|
    decreases nodes
  {
    if nodes == [] then []
    else
      var rest := Sanitize(nodes[1..]);
      match nodes[0]
      case Text(t) => [Text(t)] + rest
      case Element(tag, attrs, children) =>
        if tag == "script" then rest
        else
          var kept := Sanitize(children);
          assert ScriptFree(Element(tag, SafeAttrs(attrs), kept));
          assert HandlerFree(Element(tag, SafeAttrs(attrs), kept));
          [Element(tag, SafeAttrs(attrs), kept)] + rest
  }

  /** Sanitising a list of siblings sanitises each of them in turn, in order. */
  lemma {:induction false} SanitizeAppend(a: seq<Node>, b: seq<Node>)
    ensures Sanitize(a + b) == Sanitize(a) + Sanitize(b)
    decreases a
  {
    if a == [] {
      assert a + b == b;
    } else {
      var ab := a + b;
      assert ab[0] == a[0] && ab[1..] == a[1..] + b;
      SanitizeAppend(a[1..], b);
      calc {
        Sanitize(ab);
        SanitizeHead(a[0]) + Sanitize(ab[1..]);
        SanitizeHead(a[0]) + (Sanitize(a[1..]) + Sanitize(b));
        (SanitizeHead(a[0]) + Sanitize(a[1..])) + Sanitize(b);
        Sanitize(a) + Sanitize(b);
      }
    }
  }

  /** What the first of a list of siblings contributes to the sanitised list. */
  function SanitizeHead(n: Node): seq<Node>
  {
    match n
    case Text(_) => [n]
    case Element(tag, attrs, children) =>
      if tag == "script" then [] else [Element(tag, SafeAttrs(attrs), Sanitize(children))]
  }

  /**
   * What one node becomes: a `script` element disappears with its subtree, any
   * other element keeps its tag, its safe attributes and its sanitised children,
   * and text is kept as it is.
   */
  lemma SanitizeNode(n: Node)
    ensures Sanitize([n]) ==
      match n
      case Text(_) => [n]
      case Element(tag, attrs, children) =>
        if tag == "script" then [] else [Element(tag, SafeAttrs(attrs), Sanitize(children))]
  {
    assert [n][1..] == [];
    assert Sanitize([n]) == SanitizeHead(n) + Sanitize([]);
  }

  /** A tree with nothing to remove comes back unchanged. */
  lemma {:induction false} SanitizeKeepsClean(nodes: seq<Node>)
    requires Clean(nodes)
    ensures Sanitize(nodes) == nodes
    decreases nodes
  {
    if nodes != [] {
      assert nodes[0] in nodes;
      assert forall n :: n in nodes[1..] ==> n in nodes;
      SanitizeKeepsClean(nodes[1..]);
      match nodes[0]
      case Text(_) =>
      case Element(tag, attrs, children) =>
        assert Clean(children);
        SanitizeKeepsClean(children);
    }
  }

  /** Sanitising twice is sanitising once. */
  lemma SanitizeIdempotent(nodes: seq<Node>)
    ensures Sanitize(Sanitize(nodes)) == Sanitize(nodes)
  {
    SanitizeKeepsClean(Sanitize(nodes));
  }

  /** Only attribute names are examined: a `javascript:` URI in a link survives. */
  lemma ScriptUriSurvives()
    ensures var link := Element("a", [Attr("href", "javascript:void(0)")], [Text("x")]);
      Sanitize([link]) == [link]
  {
    var link := Element("a", [Attr("href", "javascript:void(0)")], [Text("x")]);
    assert "href"[..2][0] == 'h';
    assert Clean([link]);
    SanitizeKeepsClean([link]);
  }

  // ---------------------------------------------------------------------------
  // The raw view
  // ---------------------------------------------------------------------------

  /** `s.replace(/c/g, replacement)` for a single character `c`. */
  function ReplaceChar(s: string, c: char, replacement: string): (r: string)
    ensures c !in replacement ==> c !in r
    ensures c !in s ==> r == s
    ensures forall d :: d in r ==> d in s || d in replacement
    ensures forall d :: d in s && d != c ==> d in r
  {
    if s == [] then []
    else
      var rest := ReplaceChar(s[1..], c, replacement);
      assert s == [s[0]] + s[1..];
      (if s[0] == c then replacement else [s[0]]) + rest
  }

  /** Replacing in a concatenation replaces in each half. */
  lemma {:induction false} ReplaceCharAppend(a: string, b: string, c: char, replacement: string)
    ensures ReplaceChar(a + b, c, replacement) == ReplaceChar(a, c, replacement) + ReplaceChar(b, c, replacement)
    decreases |a|
  {
    if a == [] {
      assert a + b == b;
    } else {
      var ab := a + b;
      var head := if a[0] == c then replacement else [a[0]];
      assert ab[0] == a[0] && ab[1..] == a[1..] + b;
      ReplaceCharAppend(a[1..], b, c, replacement);
      calc {
        ReplaceChar(ab, c, replacement);
        head + ReplaceChar(ab[1..], c, replacement);
        head + (ReplaceChar(a[1..], c, replacement) + ReplaceChar(b, c, replacement));
        (head + ReplaceChar(a[1..], c, replacement)) + ReplaceChar(b, c, replacement);
        ReplaceChar(a, c, replacement) + ReplaceChar(b, c, replacement);
      }
    }
  }

  /** Each occurrence of `c` becomes `replacement`; any other character stays. */
  lemma ReplaceCharSingle(d: char, c: char, replacement: string)
    ensures ReplaceChar([d], c, replacement) == if d == c then replacement else [d]
  {
    assert [d][1..] == [];
  }

  /** `body_html.replace(/</g, '&lt;').replace(/>/g, '&gt;')`. */
  function EscapeAngles(s: string): string
  {
    ReplaceChar(ReplaceChar(s, '<', "&lt;"), '>', "&gt;")
  }

  /** Escaping a concatenation escapes each half. */
  lemma EscapeAnglesAppend(a: string, b: string)
    ensures EscapeAngles(a + b) == EscapeAngles(a) + EscapeAngles(b)
  {
    ReplaceCharAppend(a, b, '<', "&lt;");
    ReplaceCharAppend(ReplaceChar(a, '<', "&lt;"), ReplaceChar(b, '<', "&lt;"), '>', "&gt;");
  }

  /** `<` becomes `&lt;`, `>` becomes `&gt;`, and every other character is shown as it is. */
  lemma EscapeAnglesChar(d: char)
    ensures EscapeAngles([d]) == if d == '<' then "&lt;" else if d == '>' then "&gt;" else [d]
  {
    ReplaceCharSingle(d, '<', "&lt;");
    assert '>' !in "&lt;";
    ReplaceCharSingle(d, '>', "&gt;");
  }

  /** The raw view holds no tag delimiter, and text without them is shown as it is. */
  lemma EscapeAnglesMeaning(s: string)
    ensures '<' !in EscapeAngles(s) && '>' !in EscapeAngles(s)
    ensures '<' !in s && '>' !in s ==> EscapeAngles(s) == s
    ensures forall d :: d in s && d != '<' && d != '>' ==> d in EscapeAngles(s)
  {
    var inner := ReplaceChar(s, '<', "&lt;");
    assert '<' !in "&gt;";
    assert '>' !in "&lt;";
    assert '<' !in inner;
  }

  // ---------------------------------------------------------------------------
  // renderEmailContent
  // ---------------------------------------------------------------------------

  /**
   * A message as the detail view receives it: `body_html` and `body_plain`, which
   * may be missing, and the tree the browser parses `body_html` into.
   */
  datatype Email = Email(bodyHtml: Option<string>, bodyPlain: Option<string>, htmlTree: seq<Node>)

  /** JavaScript truthiness of `body && body.trim()`. */
  predicate HasText(body: Option<string>)
  {
    body.Some? && Trim(body.value) != ""
  }

  datatype Tab = HtmlTab | PlainTab | RawTab

  /** What the detail view shows for a message. */
  datatype Content =
    | NoContent
    | HtmlView(tabs: seq<Tab>, active: Tab, document: seq<Node>, plain: Option<string>, raw: string)
    | PlainOnly(text: string)

  /** The tabs of the HTML view: HTML first, plain text when there is some, raw source last. */
  function ContentTabs(hasPlain: bool): (tabs: seq<Tab>)
    ensures |tabs| >= 2 && tabs[0] == HtmlTab && tabs[|tabs| - 1] == RawTab
    ensures PlainTab in tabs <==> hasPlain
  {
    if hasPlain then [HtmlTab, PlainTab, RawTab] else [HtmlTab, RawTab]
  }

  /** The HTML view of a message whose HTML body has text. */
  function HtmlContent(e: Email): (c: Content)
    requires e.bodyHtml.Some?
    ensures c.HtmlView?
    ensures c.active == HtmlTab && c.active in c.tabs && RawTab in c.tabs
    ensures PlainTab in c.tabs <==> HasText(e.bodyPlain)
    ensures c.plain == if HasText(e.bodyPlain) then e.bodyPlain else None
    ensures c.document == Sanitize(e.htmlTree) && Clean(c.document)
    ensures c.raw == EscapeAngles(e.bodyHtml.value) && '<' !in c.raw && '>' !in c.raw
  {
    EscapeAnglesMeaning(e.bodyHtml.value);
    var hasPlain := HasText(e.bodyPlain);
    var tabs := ContentTabs(hasPlain);
    assert tabs[0] in tabs && tabs[|tabs| - 1] in tabs;
    HtmlView(tabs, HtmlTab, Sanitize(e.htmlTree), if hasPlain then e.bodyPlain else None, EscapeAngles(e.bodyHtml.value))
  }

  /**
   * `renderEmailContent`: "no content" when neither body has text; the HTML view
   * (HTML tab active, a plain tab exactly when the plain body has text, and a raw
   * tab) when the HTML body has text; otherwise the plain body on its own.
   */
  function RenderContent(e: Email): (c: Content)
    ensures c.NoContent? <==> !HasText(e.bodyHtml) && !HasText(e.bodyPlain)
    ensures c.HtmlView? <==> HasText(e.bodyHtml)
    ensures c.PlainOnly? <==> !HasText(e.bodyHtml) && HasText(e.bodyPlain)
    ensures c.HtmlView? ==>
      && c.active == HtmlTab && c.active in c.tabs && RawTab in c.tabs
      && (PlainTab in c.tabs <==> HasText(e.bodyPlain))
      && c.plain == (if HasText(e.bodyPlain) then e.bodyPlain else None)
      && c.document == Sanitize(e.htmlTree) && Clean(c.document)
      && c.raw == EscapeAngles(e.bodyHtml.value) && '<' !in c.raw && '>' !in c.raw
    ensures c.PlainOnly? ==> c.text == e.bodyPlain.value
  {
    var hasHtml := HasText(e.bodyHtml);
    var hasPlain := HasText(e.bodyPlain);
    if !hasHtml && !hasPlain then NoContent
    else if hasHtml then HtmlContent(e)
    else PlainOnly(e.bodyPlain.value)
  }
}
