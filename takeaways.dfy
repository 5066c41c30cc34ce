/**
 * The key-takeaways pass: build the styled takeaways box from the generated
 * snippet, then put it where the article's own "key takeaways" block was (the
 * whole block when it is a compact section, else the heading and the list or
 * paragraph that follows it), or before the first `h2` when there is none.
 */
module TakeawaysPass {
  import opened Wrappers
  import opened Strings
  import opened Dom

  const BoxClass: string := "key-takeaways-box"
  const BoxCss: string := "background: #f8fafc; border-left: 5px solid #3b82f6; padding: 2rem; margin: 2.5rem 0; border-radius: 0 12px 12px 0; font-family: system-ui, sans-serif; box-shadow: 0 4px 6px -1px rgba(0, 0, 0, 0.1);"
  const HeadingCss: string := "margin-top: 0; color: #1e293b; font-weight: 800; display: flex; align-items: center; gap: 0.8rem; font-size: 1.25rem;"
  const MarkerCss: string := "color: #3b82f6; font-size: 1.5rem;"

  /** The lightning marker as the source file spells it: the UTF-8 bytes of U+26A1 read as Windows-1252. */
  const Marker: string := "\U{00E2}\U{0161}\U{00A1}"

  /** The elements searched for an existing takeaways heading, and the text that marks one. */
  const HeadingTags: set<string> := {"H2", "H3", "H4", "H5", "H6", "STRONG", "B"}
  const TakeawaysHeading: Selector := TagMentioning(HeadingTags, ["key takeaways"])

  // ---------------------------------------------------------------------------
  // The box

  function MarkerSpan(): Node {
    Element("SPAN", "", MarkerCss, [Text(Marker)])
  }

  /**
   * `innerHTML = span + ' ' + innerHTML`, parsed again: the span comes first and
   * the space joins a leading text node, or stands alone.
   */
  function PrependMarker(ks: seq<Node>): (r: seq<Node>)
    ensures ForestText(r) == Marker + " " + ForestText(ks)
    ensures |r| == |ks| + (if ks != [] && ks[0].Text? then 1 else 2)
    ensures r[0] == MarkerSpan() && r[2..] == if ks != [] && ks[0].Text? then ks[1..] else ks
  {
    if ks != [] && ks[0].Text? then
      var r := [MarkerSpan(), Text(" " + ks[0].data)] + ks[1..];
      MarkerText(" " + ks[0].data);
      ForestTextAppend([MarkerSpan(), Text(" " + ks[0].data)], ks[1..]);
      ForestTextAppend([ks[0]], ks[1..]);
      assert [ks[0]] + ks[1..] == ks;
      assert ForestText([ks[0]]) == ForestText([]) + ks[0].data;
      r
    else
      var r := [MarkerSpan(), Text(" ")] + ks;
      MarkerText(" ");
      ForestTextAppend([MarkerSpan(), Text(" ")], ks);
      r
  }

  /** The text of the marker span followed by a text node. */
  lemma MarkerText(x: string)
    ensures ForestText([MarkerSpan(), Text(x)]) == Marker + x
  {
    var pair := [MarkerSpan(), Text(x)];
    assert pair[..1] == [MarkerSpan()] && [MarkerSpan()][..0] == [];
    assert TextContent(MarkerSpan()) == ForestText([Text(Marker)]);
    assert [Text(Marker)][..0] == [];
  }

  /** The heading style, and the marker in front of the heading text unless it already shows it. */
  function MarkHeading(h: Node): (r: Node)
    requires h.Element?
    ensures r.Element? && r.tag == h.tag && r.cls == h.cls && r.style == HeadingCss
    ensures Contains(TextContent(r), Marker)
    ensures Contains(TextContent(h), Marker) ==> r.kids == h.kids
    ensures !Contains(TextContent(h), Marker) ==> TextContent(r) == Marker + " " + TextContent(h)
  {
    if Contains(TextContent(h), Marker) then h.(style := HeadingCss)
    else
      var r := h.(style := HeadingCss, kids := PrependMarker(h.kids));
      assert TextContent(r) == Marker + " " + TextContent(h);
      MarkerInFront(TextContent(h));
      r
  }

  lemma MarkerInFront(x: string)
    ensures Contains(Marker + " " + x, Marker)
  {
    ContainsPrefix(Marker, " " + x);
    assert Marker + " " + x == Marker + (" " + x);
  }

  /** Marking a heading twice puts one marker in it: the second marking changes nothing. */
  lemma MarkHeadingOnce(h: Node)
    requires h.Element?
    ensures MarkHeading(MarkHeading(h)) == MarkHeading(h)
  {
  }

  /**
   * What goes inside the box: the children of the first `.key-takeaways-box`
   * inside the snippet when it brings its own box, else the whole snippet.
   */
  function BoxContent(snippet: seq<Node>): seq<Node> {
    var temp := Element("DIV", "", "", snippet);
    match QueryFirst(temp, HasClass(BoxClass))
    case Some(q) => At(temp, q).kids
    case None => snippet
  }

  /** The box before its heading is styled. */
  function RawBox(snippet: seq<Node>): Node {
    Element("DIV", BoxClass, BoxCss, BoxContent(snippet))
  }

  /**
   * The takeaways box: its own class and style, holding the box content, with
   * its first `h3` styled and marked and every other node as it was.
   */
  function BuildBox(snippet: seq<Node>): (box: Node)
    ensures box.Element? && box.tag == "DIV" && box.cls == BoxClass && box.style == BoxCss
    ensures |box.kids| == |BoxContent(snippet)|
    ensures match QueryFirst(RawBox(snippet), TagIn({"H3"}))
      case Some(q) =>
        var raw := RawBox(snippet);
        ValidPath(box, q) && At(box, q) == MarkHeading(At(raw, q))
        && At(box, q).tag == "H3" && Contains(TextContent(At(box, q)), Marker)
        && (forall p :: ValidPath(raw, p) && Apart(q, p) ==> ValidPath(box, p) && At(box, p) == At(raw, p))
        && (forall p :: p < q ==> SameFields(raw, box, p))
      case None => box == RawBox(snippet)
  {
    var raw := RawBox(snippet);
    match QueryFirst(raw, TagIn({"H3"}))
    case Some(q) =>
      SetAtFrame(raw, q, MarkHeading(At(raw, q)));
      SetAt(raw, q, MarkHeading(At(raw, q)))
    case None => raw
  }

  // ---------------------------------------------------------------------------
  // Placement

  /** `parent.nodeName` is `DIV` or `SECTION`, its text is non-empty and shorter than 1500 UTF-16 units, and it has fewer than ten child nodes. */
  predicate IsCompactSection(n: Node) {
    (IsTag(n, "DIV") || IsTag(n, "SECTION")) && TextContent(n) != []
    && Utf16Length(TextContent(n)) < 1500 && |n.kids| < 10
  }

  predicate IsListOrParagraph(n: Node) {
    IsTag(n, "UL") || IsTag(n, "OL") || IsTag(n, "P")
  }

  /** `nextElementSibling` of the child at `i`: the index of the next element child, if any. */
  function NextElementIndex(ks: seq<Node>, i: nat): (r: Option<nat>)
    requires i < |ks|
    ensures r.Some? ==> i < r.value < |ks| && ks[r.value].Element?
    ensures forall j :: i < j < (if r.Some? then r.value else |ks|) ==> !ks[j].Element?
    decreases |ks| - i
  {
    if i + 1 == |ks| then None
    else if ks[i + 1].Element? then Some(i + 1)
    else NextElementIndex(ks, i + 1)
  }

  /** The heading at `i` replaced by the box, after its next element sibling went if that is a list or a paragraph. */
  function ReplaceHeadingKids(ks: seq<Node>, i: nat, box: Node): seq<Node>
    requires i < |ks|
  {
    match NextElementIndex(ks, i)
    case Some(j) => if IsListOrParagraph(ks[j]) then RemoveAt(ks, j)[i := box] else ks[i := box]
    case None => ks[i := box]
  }

  /** The body after an existing takeaways heading at `p` made way for the box. */
  function ReplaceExisting(body: Node, p: Path, box: Node): Node
    requires IsTag(body, "BODY") && ValidPath(body, p) && p != []
  {
    ParentStep(body, p);
    var parent := At(body, Parent(p));
    if IsCompactSection(parent) then SetAt(body, Parent(p), box)
    else WithKids(body, Parent(p), ReplaceHeadingKids(parent.kids, Last(p), box))
  }

  /**
   * The body after the pass; `anchor` is where the intro pass left the first
   * `h2`, if there is one.
   */
  function TakeawaysSpec(body: Node, anchor: Option<Path>, box: Node): Node
    requires IsTag(body, "BODY")
    requires anchor.Some? ==> ValidPath(body, anchor.value) && anchor.value != []
  {
    match QueryFirst(body, TakeawaysHeading)
    case Some(p) => ReplaceExisting(body, p, box)
    case None =>
      match anchor
      case Some(a) => InsertBeforePath(body, a, box)
      case None => body.(kids := body.kids + [box])
  }

  /** The pass on the document. */
  method ReplaceTakeaways(doc: Document, anchor: Option<Path>, snippet: seq<Node>)
    requires doc.Valid()
    requires anchor.Some? ==> ValidPath(doc.body, anchor.value) && anchor.value != []
    modifies doc
    ensures doc.Valid()
    ensures doc.body == TakeawaysSpec(old(doc.body), anchor, BuildBox(snippet))
  {
    var box := BuildBox(snippet);
    var found := QueryFirst(doc.body, TakeawaysHeading);
    if found.Some? {
      PlaceAtExisting(doc, found.value, box);
    } else if anchor.Some? {
      ParentStep(doc.body, anchor.value);
      doc.InsertBefore(Parent(anchor.value), box, Last(anchor.value));
    } else {
      doc.AppendChild([], box);
    }
  }

  method PlaceAtExisting(doc: Document, p: Path, box: Node)
    requires doc.Valid() && ValidPath(doc.body, p) && p != []
    modifies doc
    ensures doc.Valid()
    ensures doc.body == ReplaceExisting(old(doc.body), p, box)
  {
    ghost var b0 := doc.body;
    ParentStep(doc.body, p);
    var parent, i := Parent(p), Last(p);
    if IsCompactSection(At(doc.body, parent)) {
      doc.ReplaceWith(parent, box);
    } else {
      var ks := At(doc.body, parent).kids;
      var sibling := NextElementIndex(ks, i);
      if sibling.Some? && IsListOrParagraph(ks[sibling.value]) {
        doc.RemoveChild(parent, sibling.value);
      }
      ghost var b1 := doc.body;
      ghost var rest := At(doc.body, parent).kids;
      ChildAt(doc.body, parent, i);
      assert parent + [i] == p;
      doc.ReplaceWith(p, box);
      SetAtChild(b1, p, box);
      WithKidsTwice(b0, parent, rest, rest[i := box]);
    }
  }

  // ---------------------------------------------------------------------------
  // Properties

  /**
   * A compact section holding the heading is replaced as a whole, and it is
   * never the body itself; everything outside it stays as it was.
   */
  lemma CompactSectionReplaced(body: Node, anchor: Option<Path>, box: Node, p: Path, q: Path)
    requires IsTag(body, "BODY") && (anchor.Some? ==> ValidPath(body, anchor.value) && anchor.value != [])
    requires QueryFirst(body, TakeawaysHeading) == Some(p)
    requires p != [] && ValidPath(body, Parent(p)) && IsCompactSection(At(body, Parent(p)))
    requires ValidPath(body, q) && Apart(Parent(p), q)
    ensures Parent(p) != []
    ensures var r := TakeawaysSpec(body, anchor, box);
      ValidPath(r, Parent(p)) && At(r, Parent(p)) == box && ValidPath(r, q) && At(r, q) == At(body, q)
  {
    SetAtApart(body, Parent(p), box, q);
  }

  /**
   * The box stands at `i` in `nk`, the siblings before it are unchanged, and
   * after it at most one sibling is gone: the next element after the heading,
   * when it is a `ul`, `ol` or `p`, with only non-elements between the two.
   */
  predicate BoxAtHeading(ks: seq<Node>, i: nat, box: Node, nk: seq<Node>)
    requires i < |ks|
  {
    i < |nk| && nk[i] == box && nk[..i] == ks[..i] &&
    (nk[i + 1..] == ks[i + 1..] ||
     exists j :: i < j < |ks| && IsListOrParagraph(ks[j]) && nk[i + 1..] == ks[i + 1..j] + ks[j + 1..]
       && forall m :: i < m < j ==> !ks[m].Element?)
  }

  lemma ReplaceHeadingKidsShape(ks: seq<Node>, i: nat, box: Node)
    requires i < |ks|
    ensures BoxAtHeading(ks, i, box, ReplaceHeadingKids(ks, i, box))
  {
    var nk := ReplaceHeadingKids(ks, i, box);
    match NextElementIndex(ks, i)
    case Some(j) =>
      if IsListOrParagraph(ks[j]) {
        assert nk[i + 1..] == ks[i + 1..j] + ks[j + 1..];
      } else {
        assert nk[i + 1..] == ks[i + 1..];
      }
    case None =>
      assert nk[i + 1..] == ks[i + 1..];
  }

  /** Otherwise the box takes the heading's place among its siblings, and at most one other sibling goes. */
  lemma HeadingReplaced(body: Node, anchor: Option<Path>, box: Node, p: Path)
    requires IsTag(body, "BODY") && (anchor.Some? ==> ValidPath(body, anchor.value) && anchor.value != [])
    requires QueryFirst(body, TakeawaysHeading) == Some(p)
    requires p != [] && ValidPath(body, Parent(p)) && !IsCompactSection(At(body, Parent(p)))
    ensures At(body, Parent(p)).Element? && Last(p) < |At(body, Parent(p)).kids|
    ensures var r := TakeawaysSpec(body, anchor, box);
      ValidPath(r, Parent(p)) && At(r, Parent(p)).Element?
      && BoxAtHeading(At(body, Parent(p)).kids, Last(p), box, At(r, Parent(p)).kids)
  {
    ParentStep(body, p);
    var ks, i := At(body, Parent(p)).kids, Last(p);
    var r := TakeawaysSpec(body, anchor, box);
    assert r == WithKids(body, Parent(p), ReplaceHeadingKids(ks, i, box));
    ReplaceHeadingKidsShape(ks, i, box);
  }

  /** With no takeaways heading in the article, the box goes in just before the first `h2`. */
  lemma BoxBeforeAnchor(body: Node, a: Path, box: Node)
    requires IsTag(body, "BODY") && ValidPath(body, a) && a != []
    requires QueryFirst(body, TakeawaysHeading).None?
    ensures var r := TakeawaysSpec(body, Some(a), box);
      var next := Parent(a) + [Last(a) + 1];
      ValidPath(r, a) && At(r, a) == box && ValidPath(r, next) && At(r, next) == At(body, a)
      && |At(r, Parent(a)).kids| == |At(body, Parent(a)).kids| + 1
  {
    InsertedBefore(body, a, box);
  }

  /** With neither a takeaways heading nor an `h2`, the box becomes the body's last child. */
  lemma BoxAppended(body: Node, box: Node)
    requires IsTag(body, "BODY") && QueryFirst(body, TakeawaysHeading).None?
    ensures TakeawaysSpec(body, None, box).kids == body.kids + [box]
  {
  }
}
