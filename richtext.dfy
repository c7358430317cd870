/**
 * Flattening a rich-text document to plain text, and the one-line label a
 * collapsed rich-text pod shows.
 */
module RichText {
  import opened Wrappers

  /**
   * A document node: its type, the text of a text node ("" for the others),
   * and its content.
   */
  datatype Node = Node(kind: string, text: string, content: Content)

  /** A node's `content`: absent where the serialised node has none (an empty paragraph or heading is serialised that way). */
  datatype Content = NoContent | Children(nodes: seq<Node>)

  /** The concatenated text of the `"text"` nodes among `children`, in order; other children are skipped. */
  function TextOf(children: seq<Node>): string
  {
    if children == [] then ""
    else
      var n := |children| - 1;
      TextOf(children[..n]) + (if children[n].kind == "text" then children[n].text else "")
  }

  // ---------------------------------------------------------------------------
  // As written: a heading without content throws
  // ---------------------------------------------------------------------------

  /**
   * What one node adds to the text: a paragraph with content adds its text
   * and one newline, one without adds nothing; a heading adds its text and
   * two newlines, and one without content makes the source throw (`None`);
   * any other node with content adds its own flattening.
   */
  function Contribution(node: Node): Option<string>
  {
    match node.content
    case NoContent =>
      if node.kind == "heading" then None else Some("")
    case Children(cs) =>
      if node.kind == "paragraph" then Some(TextOf(cs) + "\n")
      else if node.kind == "heading" then Some(TextOf(cs) + "\n\n")
      else Flatten(cs)
  }

  /** The contributions of `nodes` concatenated in order; `None` once one of them throws. */
  function Flatten(nodes: seq<Node>): Option<string>
  {
    if nodes == [] then Some("")
    else
      var n := |nodes| - 1;
      match Flatten(nodes[..n])
      case None => None
      case Some(front) =>
        match Contribution(nodes[n])
        case None => None
        case Some(last) => Some(front + last)
  }

  /** `prosemirrorToPlainText` as written: a document without content throws too. */
  function PlainText(doc: Node): Option<string> {
    match doc.content
    case NoContent => None
    case Children(cs) => Flatten(cs)
  }

  // ---------------------------------------------------------------------------
  // Corrected: a heading without content adds nothing, like a paragraph
  // ---------------------------------------------------------------------------

  function ContributionGuarded(node: Node): string
  {
    match node.content
    case NoContent => ""
    case Children(cs) =>
      if node.kind == "paragraph" then TextOf(cs) + "\n"
      else if node.kind == "heading" then TextOf(cs) + "\n\n"
      else FlattenGuarded(cs)
  }

  function FlattenGuarded(nodes: seq<Node>): string
  {
    if nodes == [] then ""
    else
      var n := |nodes| - 1;
      FlattenGuarded(nodes[..n]) + ContributionGuarded(nodes[n])
  }

  /** The plain text of a document, with contentless headings and documents contributing nothing. */
  function PlainTextGuarded(doc: Node): string {
    match doc.content
    case NoContent => ""
    case Children(cs) => FlattenGuarded(cs)
  }

  // ---------------------------------------------------------------------------
  // Where the source throws
  // ---------------------------------------------------------------------------

  /** A heading without content is reached: directly, or inside a node of another type that the flattening descends into. */
  predicate ThrowsIn(node: Node) {
    match node.content
    case NoContent => node.kind == "heading"
    case Children(cs) =>
      node.kind != "paragraph" && node.kind != "heading" && exists i | 0 <= i < |cs| :: ThrowsIn(cs[i])
  }

  predicate AnyThrows(nodes: seq<Node>) {
    exists i | 0 <= i < |nodes| :: ThrowsIn(nodes[i])
  }

  /**
   * The flattening as written throws exactly when it reaches a heading
   * without content, and otherwise yields the corrected text.
   */
  lemma {:induction false} ContributionAgrees(node: Node)
    ensures Contribution(node) == if ThrowsIn(node) then None else Some(ContributionGuarded(node))
  {
    match node.content
    case NoContent =>
    case Children(cs) =>
      if node.kind != "paragraph" && node.kind != "heading" {
        FlattenAgrees(cs);
      }
  }

  lemma {:induction false} FlattenAgrees(nodes: seq<Node>)
    ensures Flatten(nodes) == if AnyThrows(nodes) then None else Some(FlattenGuarded(nodes))
  {
    if nodes != [] {
      var n := |nodes| - 1;
      FlattenAgrees(nodes[..n]);
      ContributionAgrees(nodes[n]);
      assert forall i | 0 <= i < n :: nodes[..n][i] == nodes[i];
      assert AnyThrows(nodes) <==> AnyThrows(nodes[..n]) || ThrowsIn(nodes[n]);
    }
  }

  /** The document-level statement: as written, the plain text is the corrected one unless a contentless document or heading is reached. */
  lemma PlainTextAgrees(doc: Node)
    ensures PlainText(doc) == if doc.content.NoContent? || AnyThrows(doc.content.nodes) then None
                              else Some(PlainTextGuarded(doc))
  {
    if doc.content.Children? { FlattenAgrees(doc.content.nodes); }
  }

  /** A document whose only block is an empty heading: the source throws, the corrected text is empty. */
  lemma EmptyHeadingThrows()
    ensures var doc := Node("doc", "", Children([Node("heading", "", NoContent)]));
      PlainText(doc) == None && PlainTextGuarded(doc) == ""
  {
    var h := Node("heading", "", NoContent);
    assert [h][..0] == [];
  }

  // ---------------------------------------------------------------------------
  // Properties of the text
  // ---------------------------------------------------------------------------

  /** The text is the concatenation of the nodes' contributions in document order. */
  lemma {:induction false} FlattenGuardedAppend(a: seq<Node>, b: seq<Node>)
    ensures FlattenGuarded(a + b) == FlattenGuarded(a) + FlattenGuarded(b)
    decreases |b|
  {
    if b == [] {
      assert a + b == a;
    } else {
      var n := |b| - 1;
      FlattenGuardedAppend(a, b[..n]);
      assert (a + b)[..|a + b| - 1] == a + b[..n];
    }
  }

  lemma FlattenGuardedSingle(node: Node)
    ensures FlattenGuarded([node]) == ContributionGuarded(node)
  {
    assert [node][..0] == [];
  }

  /** The characters of every text node in and below `node`. */
  function Chars(node: Node): set<char> {
    (if node.kind == "text" then set c | c in node.text else {})
      + match node.content
        case NoContent => {}
        case Children(cs) => CharsList(cs)
  }

  function CharsList(nodes: seq<Node>): set<char> {
    if nodes == [] then {} else
      var n := |nodes| - 1;
      CharsList(nodes[..n]) + Chars(nodes[n])
  }

  lemma {:induction false} TextOfChars(cs: seq<Node>)
    ensures forall c | c in TextOf(cs) :: c in CharsList(cs)
  {
    if cs != [] {
      var n := |cs| - 1;
      TextOfChars(cs[..n]);
    }
  }

  /** Every character of a node's contribution is an inserted newline or comes from a text node. */
  lemma {:induction false} ContributionChars(node: Node)
    ensures forall c | c in ContributionGuarded(node) :: c == '\n' || c in Chars(node)
  {
    match node.content
    case NoContent =>
    case Children(cs) =>
      TextOfChars(cs);
      if node.kind != "paragraph" && node.kind != "heading" {
        FlattenChars(cs);
      }
  }

  lemma {:induction false} FlattenChars(nodes: seq<Node>)
    ensures forall c | c in FlattenGuarded(nodes) :: c == '\n' || c in CharsList(nodes)
  {
    if nodes != [] {
      var n := |nodes| - 1;
      FlattenChars(nodes[..n]);
      ContributionChars(nodes[n]);
    }
  }

  /** Every character of the plain text is an inserted newline or one from a text node of the document. */
  lemma PlainTextChars(doc: Node)
    ensures forall c | c in PlainTextGuarded(doc) :: c == '\n' || c in Chars(doc)
  {
    if doc.content.Children? { FlattenChars(doc.content.nodes); }
  }

  // ---------------------------------------------------------------------------
  // The collapsed label
  // ---------------------------------------------------------------------------

  /** `s.split("\n")[0]`: the text before the first newline, or all of it. */
  function FirstLine(s: string): (r: string)
    ensures '\n' !in r
    ensures |r| <= |s| && r == s[..|r|]
    ensures |r| < |s| ==> s[|r|] == '\n'
  {
    if s == [] then ""
    else if s[0] == '\n' then ""
    else
      var rest := FirstLine(s[1..]);
      assert s[..|rest| + 1] == [s[0]] + s[1..][..|rest|];
      [s[0]] + rest
  }

  /** The first line is the longest newline-free prefix: a newline-free text followed by a newline yields that text. */
  lemma {:induction false} FirstLineOfLine(t: string, rest: string)
    requires '\n' !in t
    ensures FirstLine(t + "\n" + rest) == t
  {
    if t != [] {
      assert (t + "\n" + rest)[1..] == t[1..] + "\n" + rest;
      FirstLineOfLine(t[1..], rest);
      assert [t[0]] + t[1..] == t;
    }
  }

  /**
   * The label of a collapsed rich-text pod: the first line of its plain
   * text, or "Empty" when that line is empty or the pod has no content.
   */
  function CollapsedLabel(content: Option<Node>): (r: string)
    ensures r != "" && '\n' !in r
    ensures content.None? ==> r == "Empty"
    ensures content.Some? && FirstLine(PlainTextGuarded(content.value)) != "" ==>
      r == FirstLine(PlainTextGuarded(content.value))
    ensures content.Some? && FirstLine(PlainTextGuarded(content.value)) == "" ==> r == "Empty"
  {
    var text := if content.Some? then FirstLine(PlainTextGuarded(content.value)) else "";
    if text == "" then "Empty" else text
  }

  /** A document that opens with a paragraph of non-empty, single-line text is labelled with that text. */
  lemma LabelOfLeadingParagraph(cs: seq<Node>, rest: seq<Node>)
    requires TextOf(cs) != "" && '\n' !in TextOf(cs)
    ensures CollapsedLabel(Some(Node("doc", "", Children([Node("paragraph", "", Children(cs))] + rest))))
      == TextOf(cs)
  {
    var p := Node("paragraph", "", Children(cs));
    FlattenGuardedAppend([p], rest);
    FlattenGuardedSingle(p);
    FirstLineOfLine(TextOf(cs), FlattenGuarded(rest));
  }

  /**
   * A document that opens with a paragraph whose text is empty is labelled
   * "Empty", whatever follows: the paragraph's newline ends the first line.
   */
  lemma LabelOfLeadingEmptyParagraph(cs: seq<Node>, rest: seq<Node>)
    requires TextOf(cs) == ""
    ensures CollapsedLabel(Some(Node("doc", "", Children([Node("paragraph", "", Children(cs))] + rest))))
      == "Empty"
  {
    var p := Node("paragraph", "", Children(cs));
    FlattenGuardedAppend([p], rest);
    FlattenGuardedSingle(p);
    FirstLineOfLine("", FlattenGuarded(rest));
  }

  /**
   * A paragraph serialised without content adds nothing, so a document
   * that opens with one is labelled as the rest of the document is.
   */
  lemma LabelSkipsContentlessParagraph(rest: seq<Node>)
    ensures CollapsedLabel(Some(Node("doc", "", Children([Node("paragraph", "", NoContent)] + rest))))
      == CollapsedLabel(Some(Node("doc", "", Children(rest))))
  {
    var p := Node("paragraph", "", NoContent);
    FlattenGuardedAppend([p], rest);
    FlattenGuardedSingle(p);
    assert FlattenGuarded([p]) == "";
    assert FlattenGuarded([p] + rest) == FlattenGuarded(rest);
    assert PlainTextGuarded(Node("doc", "", Children([p] + rest))) == PlainTextGuarded(Node("doc", "", Children(rest)));
  }

  // ---------------------------------------------------------------------------
  // The source's loop form
  // ---------------------------------------------------------------------------

  /** The inner loop: append the text of each `"text"` child of `children` to `acc`. */
  method AppendTexts(acc: string, children: seq<Node>) returns (r: string)
    ensures r == acc + TextOf(children)
  {
    r := acc;
    var j := 0;
    while j < |children|
      invariant 0 <= j <= |children|
      invariant r == acc + TextOf(children[..j])
    {
      assert children[..j + 1][..j] == children[..j];
      if children[j].kind == "text" {
        r := r + children[j].text;
      }
      j := j + 1;
    }
    assert children[..j] == children;
  }

  /**
   * `prosemirrorToPlainText`: one pass over the top-level nodes appending
   * to an accumulator, recursing into nodes of other types; `None` where
   * the source throws.
   */
  method ProsemirrorToPlainText(doc: Node) returns (r: Option<string>)
    ensures r == PlainText(doc)
    decreases doc
  {
    if doc.content.NoContent? { return None; }
    var nodes := doc.content.nodes;
    var plainText := "";
    var i := 0;
    while i < |nodes|
      invariant 0 <= i <= |nodes|
      invariant Flatten(nodes[..i]) == Some(plainText)
    {
      assert nodes[..i + 1][..i] == nodes[..i];
      var node := nodes[i];
      assert nodes[..i + 1][i] == node;
      ghost var before := plainText;
      var added := "";
      if node.kind == "paragraph" {
        if node.content.Children? {
          var t := AppendTexts("", node.content.nodes);
          assert t == TextOf(node.content.nodes);
          added := t + "\n";
          plainText := plainText + added;
        }
      } else if node.kind == "heading" {
        if node.content.NoContent? {
          FlattenPrefixThrows(nodes, i + 1);
          return None;
        }
        var t := AppendTexts("", node.content.nodes);
        assert t == TextOf(node.content.nodes);
        added := t + "\n\n";
        plainText := plainText + added;
      } else if node.content.Children? {
        var sub := ProsemirrorToPlainText(node);
        if sub.None? {
          FlattenPrefixThrows(nodes, i + 1);
          return None;
        }
        added := sub.value;
        plainText := plainText + added;
      }
      assert Contribution(node) == Some(added);
      assert plainText == before + added;
      assert Flatten(nodes[..i + 1]) == Some(before + added);
      i := i + 1;
    }
    assert nodes[..i] == nodes;
    return Some(plainText);
  }

  /** Once a prefix throws, the whole list does. */
  lemma {:induction false} FlattenPrefixThrows(nodes: seq<Node>, k: nat)
    requires k <= |nodes| && Flatten(nodes[..k]) == None
    ensures Flatten(nodes) == None
    decreases |nodes| - k
  {
    if k < |nodes| {
      assert nodes[..k + 1][..k] == nodes[..k];
      FlattenPrefixThrows(nodes, k + 1);
    } else {
      assert nodes[..k] == nodes;
    }
  }
}
