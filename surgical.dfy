/**
 * The surgical update: the four passes run one after the other on the parsed
 * article body. The intro pass reports where the first `h2` went, and the
 * takeaways pass uses that place when the article has no takeaways block.
 */
module SurgicalUpdate {
  import opened Wrappers
  import opened Dom
  import opened IntroPass
  import opened TakeawaysPass
  import opened TablePass
  import opened FaqPass

  /**
   * The generated snippets, each already parsed into nodes; `faq` is `None`
   * when no FAQ was generated, the one snippet the update may go without.
   */
  datatype Snippets = Snippets(intro: seq<Node>, keyTakeaways: seq<Node>, comparisonTable: seq<Node>, faq: Option<seq<Node>>)

  /** The intro pass leaves a `body`, and an anchor, if any, that is a path below it. */
  lemma IntroKeepsBody(body: Node, intro: seq<Node>)
    requires IsTag(body, "BODY")
    ensures var (b, anchor) := IntroSpec(body, intro);
      IsTag(b, "BODY") && (anchor.Some? ==> ValidPath(b, anchor.value) && anchor.value != [])
  {
    match QueryFirst(body, TagIn({"H2"}))
    case Some(p) => IntroBeforeFirstH2(body, intro, p);
    case None =>
  }

  /** The takeaways pass leaves a `body`: a compact section it replaces is never the body itself. */
  lemma TakeawaysKeepsBody(body: Node, anchor: Option<Path>, box: Node)
    requires IsTag(body, "BODY") && (anchor.Some? ==> ValidPath(body, anchor.value) && anchor.value != [])
    ensures IsTag(TakeawaysSpec(body, anchor, box), "BODY")
  {
    match QueryFirst(body, TakeawaysHeading)
    case Some(p) =>
      ParentStep(body, p);
      if IsCompactSection(At(body, Parent(p))) {
        assert Parent(p) != [];
      }
    case None =>
  }

  /** The body after the intro and takeaways passes. */
  function FrontSpec(body: Node, s: Snippets): (r: Node)
    requires IsTag(body, "BODY")
    ensures IsTag(r, "BODY")
  {
    IntroKeepsBody(body, s.intro);
    var after := IntroSpec(body, s.intro);
    TakeawaysKeepsBody(after.0, after.1, BuildBox(s.keyTakeaways));
    TakeawaysSpec(after.0, after.1, BuildBox(s.keyTakeaways))
  }

  /** The body after the four passes. */
  function SurgicalSpec(body: Node, s: Snippets): (r: Node)
    requires IsTag(body, "BODY")
    ensures IsTag(r, "BODY")
  {
    var b := TableSpec(FrontSpec(body, s), TableWrapper(s.comparisonTable));
    match s.faq
    case Some(f) => FaqSpec(b, NewFaqNode(f))
    case None => b
  }

  /** `performSurgicalUpdate` on the parsed document; serialising `body.innerHTML` is not modelled. */
  method PerformSurgicalUpdate(doc: Document, s: Snippets)
    requires doc.Valid()
    modifies doc
    ensures doc.Valid() && doc.body == SurgicalSpec(old(doc.body), s)
  {
    ghost var b0 := doc.body;
    var firstH2 := ReplaceIntro(doc, s.intro);
    IntroKeepsBody(b0, s.intro);
    ReplaceTakeaways(doc, firstH2, s.keyTakeaways);
    assert doc.body == FrontSpec(b0, s);
    var wrapper := BuildTableWrapper(s.comparisonTable);
    InsertTable(doc, wrapper);
    ReplaceFaq(doc, s.faq);
  }
}
