/**
 * The FAQ sibling clean-up: drop an old FAQ heading together with the run of
 * siblings that follows it, up to the next heading and at most fifty of them,
 * and put the new FAQ container where the heading was. The main update engine
 * stops the run at `H1`-`H3`; the standalone fragment stops it at `H1`-`H6`.
 */
module FaqCleanup {
  import opened Dom

  /** How many siblings after the heading the scan may look at. */
  const LookAheadLimit: nat := 50

  /** `nodeType === 1 && /^H[1-top]$/.test(tagName)`. */
  predicate IsHeadingUpTo(n: Node, top: char) {
    n.Element? && |n.tag| == 2 && n.tag[0] == 'H' && '1' <= n.tag[1] <= top
  }

  /**
   * Length of the run of siblings starting at index `j` that the scan collects
   * with `budget` look-ahead steps left: it ends at the end of the list, at the
   * first stopping heading, or when the budget is spent.
   */
  function RunFrom(ks: seq<Node>, j: nat, budget: nat, top: char): (n: nat)
    requires j <= |ks|
    ensures n <= budget && j + n <= |ks|
    ensures forall m :: j <= m < j + n ==> !IsHeadingUpTo(ks[m], top)
    ensures n < budget && j + n < |ks| ==> IsHeadingUpTo(ks[j + n], top)
    decreases budget
  {
    if j == |ks| || budget == 0 || IsHeadingUpTo(ks[j], top) then 0
    else 1 + RunFrom(ks, j + 1, budget - 1, top)
  }

  /** Number of siblings after the heading at `h` that are removed with it. */
  function RunLength(ks: seq<Node>, h: nat, top: char): (n: nat)
    requires h < |ks|
    ensures n <= LookAheadLimit && h + 1 + n <= |ks|
  {
    RunFrom(ks, h + 1, LookAheadLimit, top)
  }

  /** The parent's child list after the clean-up: the container stands where the heading stood. */
  function CleanedKids(ks: seq<Node>, h: nat, container: Node, top: char): seq<Node>
    requires h < |ks|
  {
    ks[..h] + [container] + ks[h + 1 + RunLength(ks, h, top)..]
  }

  /**
   * The scan loop: collects the heading and the indices of the siblings that
   * follow it, stopping at the list's end, at a heading of level 1 to `top`,
   * or after fifty siblings.
   */
  method CollectRun(ks: seq<Node>, h: nat, top: char) returns (nodesToRemove: seq<nat>)
    requires h < |ks|
    ensures 1 <= |nodesToRemove| <= 1 + LookAheadLimit && nodesToRemove[0] == h
    ensures |nodesToRemove| == 1 + RunLength(ks, h, top)
    ensures forall j :: 0 <= j < |nodesToRemove| ==> nodesToRemove[j] == h + j
  {
    nodesToRemove := [h];
    var sibling: nat := h + 1;
    var lookAhead: nat := 0;
    while sibling < |ks| && lookAhead < LookAheadLimit
      invariant lookAhead <= LookAheadLimit && sibling == h + 1 + lookAhead <= |ks|
      invariant |nodesToRemove| == 1 + lookAhead
      invariant forall j :: 0 <= j < |nodesToRemove| ==> nodesToRemove[j] == h + j
      invariant RunLength(ks, h, top) == lookAhead + RunFrom(ks, sibling, LookAheadLimit - lookAhead, top)
    {
      if IsHeadingUpTo(ks[sibling], top) {
        assert RunFrom(ks, sibling, LookAheadLimit - lookAhead, top) == 0;
        break;
      }
      RunStep(ks, sibling, LookAheadLimit - lookAhead, top);
      nodesToRemove := nodesToRemove + [sibling];
      sibling := sibling + 1;
      lookAhead := lookAhead + 1;
    }
  }

  /** A sibling that is not a stopping heading, within the budget, belongs to the run. */
  lemma RunStep(ks: seq<Node>, j: nat, budget: nat, top: char)
    requires j < |ks| && budget > 0 && !IsHeadingUpTo(ks[j], top)
    ensures RunFrom(ks, j, budget, top) == 1 + RunFrom(ks, j + 1, budget - 1, top)
  {
  }

  /**
   * The clean-up branch: insert the container before the heading, then remove
   * the heading and every collected sibling, one `remove()` at a time.
   */
  method RemoveRun(doc: Document, parent: Path, h: nat, container: Node, top: char)
    requires doc.Valid() && ValidPath(doc.body, parent) && At(doc.body, parent).Element?
    requires h < |At(doc.body, parent).kids|
    modifies doc
    ensures doc.Valid()
    ensures doc.body == WithKids(old(doc.body), parent, CleanedKids(old(At(doc.body, parent)).kids, h, container, top))
  {
    ghost var b0 := doc.body;
    var ks := At(doc.body, parent).kids;
    var nodesToRemove := CollectRun(ks, h, top);
    doc.InsertBefore(parent, container, h);
    ghost var ins := InsertAt(ks, h, container);
    RemoveFollowing(doc, b0, parent, ins, h + 1, |nodesToRemove|);
    CleanedShape(ks, h, container, top, |nodesToRemove| - 1);
  }

  lemma CleanedShape(ks: seq<Node>, h: nat, container: Node, top: char, n: nat)
    requires h < |ks| && n == RunLength(ks, h, top)
    ensures var ins := InsertAt(ks, h, container);
      ins[..h + 1] + ins[h + 1 + (n + 1)..] == CleanedKids(ks, h, container, top)
  {
    var ins := InsertAt(ks, h, container);
    assert ins[..h + 1] == ks[..h] + [container];
    assert ins[h + 1 + (n + 1)..] == ks[h + 1 + n..];
  }

  /** Removes `count` children of `parent` starting at index `i`, one at a time. */
  method RemoveFollowing(doc: Document, ghost b0: Node, parent: Path, ghost ks: seq<Node>, i: nat, count: nat)
    requires doc.Valid() && ValidPath(b0, parent) && At(b0, parent).Element?
    requires doc.body == WithKids(b0, parent, ks) && i + count <= |ks|
    modifies doc
    ensures doc.Valid()
    ensures doc.body == WithKids(b0, parent, ks[..i] + ks[i + count..])
  {
    assert ks[..i] + ks[i..] == ks;
    var k := 0;
    while k < count
      invariant 0 <= k <= count
      invariant doc.Valid() && ValidPath(doc.body, parent) && At(doc.body, parent).Element?
      invariant doc.body == WithKids(b0, parent, ks[..i] + ks[i + k..])
    {
      RemoveStep(b0, parent, ks, i, k);
      doc.RemoveChild(parent, i);
      k := k + 1;
    }
  }

  /** One turn of the removal loop: the child at `i` is the next one of the run. */
  lemma RemoveStep(b0: Node, parent: Path, ks: seq<Node>, i: nat, k: nat)
    requires ValidPath(b0, parent) && At(b0, parent).Element? && i + k < |ks|
    ensures var cur := ks[..i] + ks[i + k..];
      i < |cur| &&
      WithKids(WithKids(b0, parent, cur), parent, RemoveAt(cur, i)) == WithKids(b0, parent, ks[..i] + ks[i + k + 1..])
  {
    RemoveAfter(b0, parent, ks[..i], ks[i + k..]);
    assert ks[i + k..][1..] == ks[i + k + 1..];
  }

  /**
   * The standalone fragment: either replace the FAQ heading's parent as a whole
   * by the new container, or clean up the siblings, stopping at any `H1`-`H6`.
   * Replacing the body itself detaches it from the document, so the body's own
   * content is left as it was.
   */
  method ReplaceFaqSection(doc: Document, parent: Path, h: nat, faqContainer: Node, replaceParent: bool)
    requires doc.Valid() && ValidPath(doc.body, parent) && At(doc.body, parent).Element?
    requires h < |At(doc.body, parent).kids|
    modifies doc
    ensures doc.Valid()
    ensures replaceParent && parent != [] ==> doc.body == SetAt(old(doc.body), parent, faqContainer)
    ensures replaceParent && parent == [] ==> doc.body == old(doc.body)
    ensures !replaceParent ==>
      doc.body == WithKids(old(doc.body), parent, CleanedKids(old(At(doc.body, parent)).kids, h, faqContainer, '6'))
  {
    if replaceParent {
      if parent != [] {
        doc.ReplaceWith(parent, faqContainer);
      }
    } else {
      RemoveRun(doc, parent, h, faqContainer, '6');
    }
  }

  /**
   * The two stopping rules compared: the `H1`-`H6` scan never collects more than
   * the `H1`-`H3` scan, and when it collects fewer it stopped at an `H4`-`H6`.
   */
  lemma {:induction false} NarrowerStopCollectsLess(ks: seq<Node>, j: nat, budget: nat)
    requires j <= |ks|
    ensures RunFrom(ks, j, budget, '6') <= RunFrom(ks, j, budget, '3')
    ensures RunFrom(ks, j, budget, '6') < RunFrom(ks, j, budget, '3') ==>
      IsHeadingUpTo(ks[j + RunFrom(ks, j, budget, '6')], '6') && !IsHeadingUpTo(ks[j + RunFrom(ks, j, budget, '6')], '3')
    decreases budget
  {
    if j < |ks| && budget > 0 && !IsHeadingUpTo(ks[j], '6') {
      NarrowerStopCollectsLess(ks, j + 1, budget - 1);
    }
  }
}
