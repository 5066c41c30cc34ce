/**
 * The FAQ pass of the surgical update: parse the generated FAQ snippet, find
 * the article's own FAQ heading (an `h2`, `h3` or `h4` whose text mentions
 * "frequently asked" or "faq"), and either replace the heading's parent as a
 * whole, when it looks like a dedicated FAQ container, or replace the heading
 * and the siblings that follow it up to the next `h1`-`h3`. Without an FAQ
 * heading the new FAQ is appended to the body.
 */
module FaqPass {
  import opened Wrappers
  import opened Strings
  import opened Dom
  import opened FaqCleanup

  const FaqHeading: Selector := TagMentioning({"H2", "H3", "H4"}, ["frequently asked", "faq"])

  /** A parent with more children than this, if its class does not mention "faq", is not dedicated. */
  const DedicatedKidsLimit: nat := 20

  /** Index of the first element among `ks`. */
  function FirstElementIndex(ks: seq<Node>): (r: Option<nat>)
    ensures r.Some? ==> r.value < |ks| && ks[r.value].Element?
    ensures forall j :: 0 <= j < (if r.Some? then r.value else |ks|) ==> !ks[j].Element?
  {
    if ks == [] then None
    else if ks[0].Element? then Some(0)
    else match FirstElementIndex(ks[1..])
      case Some(i) => Some(i + 1)
      case None => None
  }

  /**
   * The node that goes in: the snippet's first element, or, when the snippet
   * holds no element at all, the temporary `div` it was parsed into.
   */
  function NewFaqNode(snippet: seq<Node>): (r: Node)
    ensures r.Element?
    ensures match FirstElementIndex(snippet)
      case Some(i) => r == snippet[i]
      case None => r == Element("DIV", "", "", snippet) && forall j :: 0 <= j < |snippet| ==> !snippet[j].Element?
  {
    match FirstElementIndex(snippet)
    case Some(i) => snippet[i]
    case None => Element("DIV", "", "", snippet)
  }

  /**
   * The heading's parent is taken for a dedicated FAQ container when its
   * class mentions "faq", or when it has fewer than twenty child nodes and is
   * neither the `body` nor a `main`.
   */
  predicate IsDedicatedContainer(parent: Node) {
    parent.Element? &&
    (Contains(ToLower(parent.cls), "faq") ||
     (|parent.kids| < DedicatedKidsLimit && parent.tag != "BODY" && parent.tag != "MAIN"))
  }

  /**
   * The body after the pass, `faq` being the new node. Replacing the body
   * itself detaches it from the document, so the body's content stays as it was.
   */
  function FaqSpec(body: Node, faq: Node): (r: Node)
    requires body.Element?
    ensures r.Element? && r.tag == body.tag
  {
    match QueryFirst(body, FaqHeading)
    case Some(h) =>
      ParentStep(body, h);
      var parent := At(body, Parent(h));
      if IsDedicatedContainer(parent) then
        (if Parent(h) == [] then body else SetAt(body, Parent(h), faq))
      else WithKids(body, Parent(h), CleanedKids(parent.kids, Last(h), faq, '3'))
    case None => body.(kids := body.kids + [faq])
  }

  /** The pass; `snippet` is `None` when no FAQ was generated. */
  method ReplaceFaq(doc: Document, snippet: Option<seq<Node>>)
    requires doc.Valid()
    modifies doc
    ensures doc.Valid()
    ensures doc.body == match snippet
      case Some(s) => FaqSpec(old(doc.body), NewFaqNode(s))
      case None => old(doc.body)
  {
    if snippet.None? {
      return;
    }
    var faq := NewFaqNode(snippet.value);
    var found := QueryFirst(doc.body, FaqHeading);
    if found.Some? {
      var h := found.value;
      ParentStep(doc.body, h);
      var parent := Parent(h);
      if IsDedicatedContainer(At(doc.body, parent)) {
        if parent != [] {
          doc.ReplaceWith(parent, faq);
        }
      } else {
        RemoveRun(doc, parent, Last(h), faq, '3');
      }
    } else {
      doc.AppendChild([], faq);
    }
  }

  // ---------------------------------------------------------------------------
  // Properties

  /** Without an FAQ heading anywhere in the body, the new FAQ becomes the body's last child. */
  lemma FaqAppended(body: Node, faq: Node)
    requires body.Element?
    requires forall p :: p in Descendants(body) ==> !Matches(body, p, FaqHeading)
    ensures var r := FaqSpec(body, faq);
      r.Element? && r.tag == body.tag && r.kids == body.kids + [faq]
  {
    match QueryFirst(body, FaqHeading)
    case Some(h) =>
      assert false;
    case None =>
  }

  /**
   * When the first FAQ heading's parent is a dedicated container below the
   * body, the new FAQ takes the container's place and every node apart from
   * the container is kept.
   */
  lemma ContainerReplaced(body: Node, faq: Node, h: Path, q: Path)
    requires body.Element? && QueryFirst(body, FaqHeading) == Some(h)
    requires h != [] && ValidPath(body, Parent(h)) && IsDedicatedContainer(At(body, Parent(h))) && Parent(h) != []
    requires ValidPath(body, q) && Apart(Parent(h), q)
    ensures var r := FaqSpec(body, faq);
      ValidPath(r, Parent(h)) && At(r, Parent(h)) == faq && ValidPath(r, q) && At(r, q) == At(body, q)
  {
    SetAtApart(body, Parent(h), faq, q);
  }

  /** A dedicated container that is the body itself leaves the body unchanged. */
  lemma BodyContainerKept(body: Node, faq: Node, h: Path)
    requires body.Element? && QueryFirst(body, FaqHeading) == Some(h)
    requires h != [] && Parent(h) == [] && Contains(ToLower(body.cls), "faq")
    ensures FaqSpec(body, faq) == body
  {
  }

  /**
   * When the heading's parent is not dedicated, the new FAQ stands where the
   * heading stood, the siblings before it are kept, and the siblings removed
   * after it are at most fifty, none of them an `h1`-`h3`; the first sibling
   * kept after it is an `h1`-`h3` unless the list ended or fifty were removed.
   */
  lemma SiblingsReplaced(body: Node, faq: Node, h: Path)
    requires body.Element? && QueryFirst(body, FaqHeading) == Some(h)
    requires h != [] && ValidPath(body, Parent(h)) && !IsDedicatedContainer(At(body, Parent(h)))
    ensures var ks := Kids(At(body, Parent(h)));
      var i := Last(h);
      i < |ks| &&
      var r := FaqSpec(body, faq);
      var n := RunLength(ks, i, '3');
      ValidPath(r, Parent(h)) && At(r, Parent(h)).Element? &&
      At(r, Parent(h)).kids == ks[..i] + [faq] + ks[i + 1 + n..] &&
      n <= LookAheadLimit &&
      (forall m :: i < m <= i + n ==> !IsHeadingUpTo(ks[m], '3')) &&
      (n < LookAheadLimit && i + 1 + n < |ks| ==> IsHeadingUpTo(ks[i + 1 + n], '3'))
  {
    ParentStep(body, h);
  }
}
