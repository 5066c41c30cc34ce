/**
 * The comparison-table pass: wrap the generated table snippet in the styled
 * wrapper, style its title, its table (class, header, header cells, data
 * cells, every second body row) and its source and explainer notes, then put
 * the wrapper before the FAQ `h2`, else the conclusion `h2`, else the first
 * `footer`, else at the end of the body.
 */
module TablePass {
  import opened Wrappers
  import opened Dom
  import opened StyleWrites

  const WrapperClass: string := "sota-table-wrapper"
  const WrapperCss: string := "margin: 3rem 0; overflow-x: auto; border-radius: 12px; box-shadow: 0 20px 40px rgba(0,0,0,0.08); background: white; padding: 1rem;"
  const TitleCss: string := "font-family: \"Montserrat\", sans-serif; font-weight: 800; color: #1e293b; margin-bottom: 1rem; border-left: 5px solid #3b82f6; padding-left: 1rem;"
  const TableClass: string := "sota-comparison-table"
  const TableCss: string := "width: 100%; border-collapse: collapse; font-family: system-ui, sans-serif; background: white; margin-bottom: 1rem;"
  const TheadCss: string := "background: linear-gradient(135deg, #1e293b 0%, #334155 100%); color: white;"
  const ThCss: string := "padding: 1.2rem; text-align: left; font-weight: 700; letter-spacing: 0.05em; text-transform: uppercase; font-size: 0.85rem; border-bottom: 3px solid #3b82f6; color: white;"
  const TdCss: string := "padding: 1rem; color: #475569; font-size: 0.95rem; vertical-align: middle; border-bottom: 1px solid #e2e8f0;"
  const SourceCss: string := "font-size: 0.8rem; color: #64748B; font-style: italic; margin-top: 0.5rem; text-align: right;"
  const ExplainerCss: string := "font-size: 1rem; color: #334155; line-height: 1.6; margin-top: 1rem; background: #f1f5f9; padding: 1rem; border-radius: 8px;"

  const HeaderCell: Selector := TagIn({"TH"})
  const DataCell: Selector := TagIn({"TD"})

  // ---------------------------------------------------------------------------
  // The table

  /** `querySelector(sel)?.setAttribute('style', css)`. */
  function StyleFirst(t: Node, sel: Selector, css: string): Node {
    match QueryFirst(t, sel)
    case Some(q) => SetStyle(t, q, css)
    case None => t
  }

  /** The table with its class, its own style and its `thead` style set. */
  function TableHead(tbl: Node): Node
    requires tbl.Element?
  {
    StyleFirst(tbl.(cls := TableClass, style := TableCss), TagIn({"THEAD"}), TheadCss)
  }

  function StyledCells(t: Node, sel: Selector, css: string): Node {
    QueryAllElements(t, sel);
    WriteAll(t, QueryAll(t, sel), SetTo(css))
  }

  function ShadedRows(t: Node): Node {
    QueryAllElements(t, BodyRow);
    EvenIndexedElements(t, QueryAll(t, BodyRow));
    WriteAll(t, EvenIndexed(QueryAll(t, BodyRow)), ShadeBackground)
  }

  /** The table after the pass, each step querying the table as the previous step left it. */
  function StyledTable(tbl: Node): Node
    requires tbl.Element?
  {
    ShadedRows(StyledCells(StyledCells(TableHead(tbl), HeaderCell, ThCss), DataCell, TdCss))
  }

  /** The table styling, with its `forEach` loops. */
  method StyleTable(tbl: Node) returns (r: Node)
    requires tbl.Element?
    ensures r == StyledTable(tbl)
  {
    var t := tbl.(cls := TableClass, style := TableCss);
    var thead := QueryFirst(t, TagIn({"THEAD"}));
    if thead.Some? {
      t := SetStyle(t, thead.value, TheadCss);
    }
    var ths := QueryAll(t, HeaderCell);
    QueryAllElements(t, HeaderCell);
    t := WriteEach(t, ths, SetTo(ThCss));
    var tds := QueryAll(t, DataCell);
    QueryAllElements(t, DataCell);
    t := WriteEach(t, tds, SetTo(TdCss));
    var rows := QueryAll(t, BodyRow);
    QueryAllElements(t, BodyRow);
    r := ShadeEven(t, rows);
  }

  // ---------------------------------------------------------------------------
  // The wrapper

  /** The wrapper `div` with the snippet parsed into it. */
  function BareWrapper(nodes: seq<Node>): Node {
    Element("DIV", WrapperClass, WrapperCss, nodes)
  }

  /** The wrapper once its first `h2` is styled. */
  function TitledWrapper(nodes: seq<Node>): Node {
    StyleFirst(BareWrapper(nodes), TagIn({"H2"}), TitleCss)
  }

  /** The titled wrapper once its first table is styled. */
  function WrapperWithTable(nodes: seq<Node>): Node {
    var w1 := TitledWrapper(nodes);
    match QueryFirst(w1, TagIn({"TABLE"}))
    case Some(q) => SetAt(w1, q, StyledTable(At(w1, q)))
    case None => w1
  }

  /** The wrapper after the pass, before it is placed. */
  function TableWrapper(nodes: seq<Node>): Node {
    var w3 := StyleFirst(WrapperWithTable(nodes), HasClass("table-source"), SourceCss);
    StyleFirst(w3, HasClass("table-explainer"), ExplainerCss)
  }

  method BuildTableWrapper(nodes: seq<Node>) returns (w: Node)
    ensures w == TableWrapper(nodes)
  {
    w := Element("DIV", WrapperClass, WrapperCss, nodes);
    w := StyleFirst(w, TagIn({"H2"}), TitleCss);
    var table := QueryFirst(w, TagIn({"TABLE"}));
    if table.Some? {
      var styled := StyleTable(At(w, table.value));
      w := SetAt(w, table.value, styled);
    }
    w := StyleFirst(w, HasClass("table-source"), SourceCss);
    w := StyleFirst(w, HasClass("table-explainer"), ExplainerCss);
  }

  // ---------------------------------------------------------------------------
  // Placement

  const FaqHeading: Selector := TagMentioning({"H2"}, ["faq", "frequently asked"])
  const ConclusionHeading: Selector := TagMentioning({"H2"}, ["conclusion"])

  /** The node the wrapper goes before: the FAQ `h2`, else the conclusion `h2`, else the first `footer`. */
  function TableTarget(body: Node): (r: Option<Path>)
    ensures r.Some? ==> r.value != [] && ValidPath(body, r.value) && (IsTag(At(body, r.value), "H2") || IsTag(At(body, r.value), "FOOTER"))
  {
    var faq := QueryFirst(body, FaqHeading);
    if faq.Some? then faq
    else
      var conclusion := QueryFirst(body, ConclusionHeading);
      if conclusion.Some? then conclusion
      else QueryFirst(body, TagIn({"FOOTER"}))
  }

  function TableSpec(body: Node, wrapper: Node): (r: Node)
    requires body.Element?
    ensures r.Element? && r.tag == body.tag
  {
    match TableTarget(body)
    case Some(a) => InsertBeforePath(body, a, wrapper)
    case None => body.(kids := body.kids + [wrapper])
  }

  method InsertTable(doc: Document, wrapper: Node)
    requires doc.Valid()
    modifies doc
    ensures doc.Valid()
    ensures doc.body == TableSpec(old(doc.body), wrapper)
  {
    var target := TableTarget(doc.body);
    if target.Some? {
      ParentStep(doc.body, target.value);
      doc.InsertBefore(Parent(target.value), wrapper, Last(target.value));
    } else {
      doc.AppendChild([], wrapper);
    }
  }

  // ---------------------------------------------------------------------------
  // Properties

  /** Each styling step after the first changes styles only. */
  lemma TableSteps(tbl: Node)
    requires tbl.Element?
    ensures var t2 := TableHead(tbl);
      var t3 := StyledCells(t2, HeaderCell, ThCss);
      var t4 := StyledCells(t3, DataCell, TdCss);
      Unstyled(t3) == Unstyled(t2) && Unstyled(t4) == Unstyled(t2) && Unstyled(ShadedRows(t4)) == Unstyled(t2)
  {
    var t2 := TableHead(tbl);
    var t3 := StyledCells(t2, HeaderCell, ThCss);
    var t4 := StyledCells(t3, DataCell, TdCss);
    QueryAllElements(t2, HeaderCell);
    WriteAllShape(t2, QueryAll(t2, HeaderCell), SetTo(ThCss));
    QueryAllElements(t3, DataCell);
    WriteAllShape(t3, QueryAll(t3, DataCell), SetTo(TdCss));
    QueryAllElements(t4, BodyRow);
    EvenIndexedElements(t4, QueryAll(t4, BodyRow));
    WriteAllShape(t4, EvenIndexed(QueryAll(t4, BodyRow)), ShadeBackground);
  }

  /** The rows the shading loop visits are `TR` elements, so no cell is among them. */
  lemma ShadedAreRows(t4: Node)
    ensures var ev := EvenIndexed(QueryAll(t4, BodyRow));
      ElementPaths(t4, ev) && Distinct(ev) &&
      forall j :: 0 <= j < |ev| ==> ev[j] != [] && ValidPath(t4, ev[j]) && At(t4, ev[j]).Element? && At(t4, ev[j]).tag == "TR"
  {
    var rows := QueryAll(t4, BodyRow);
    var ev := EvenIndexed(rows);
    QueryAllElements(t4, BodyRow);
    EvenIndexedElements(t4, rows);
    EvenIndexedFrom(rows);
    forall j | 0 <= j < |ev| ensures ev[j] != [] && ValidPath(t4, ev[j]) && At(t4, ev[j]).Element? && At(t4, ev[j]).tag == "TR" {
      var i :| 0 <= i < |rows| && rows[i] == ev[j];
    }
  }

  /** The body rows found are `TR` elements below the table's root. */
  lemma RowsFound(t: Node, k: nat)
    requires k < |QueryAll(t, BodyRow)|
    ensures var q := QueryAll(t, BodyRow)[k];
      q != [] && ValidPath(t, q) && At(t, q).Element? && At(t, q).tag == "TR"
  {
  }

  /** Every header cell of the styled table carries the header-cell style. */
  lemma HeaderCellStyled(tbl: Node, k: nat)
    requires tbl.Element? && k < |QueryAll(StyledTable(tbl), HeaderCell)|
    ensures var r := StyledTable(tbl);
      var q := QueryAll(r, HeaderCell)[k];
      ValidPath(r, q) && StyleOf(At(r, q)) == ThCss
  {
    TableSteps(tbl);
    var t2 := TableHead(tbl);
    var t3 := StyledCells(t2, HeaderCell, ThCss);
    var t4 := StyledCells(t3, DataCell, TdCss);
    var r := StyledTable(tbl);
    SameQueries(r, t2, HeaderCell);
    var ths := QueryAll(t2, HeaderCell);
    var q := ths[k];
    QueriedTags(t2, "TH");
    WriteAllEffect(t2, ths, SetTo(ThCss), q);
    StillElement(t2, t3, q);
    QueriedTags(t3, "TD");
    SkipsOtherTags(t3, QueryAll(t3, DataCell), SetTo(TdCss), q, "TH", "TD");
    ShadedAreRows(t4);
    SkipsOtherTags(t4, EvenIndexed(QueryAll(t4, BodyRow)), ShadeBackground, q, "TH", "TR");
  }

  /** Every data cell of the styled table carries the data-cell style. */
  lemma DataCellStyled(tbl: Node, k: nat)
    requires tbl.Element? && k < |QueryAll(StyledTable(tbl), DataCell)|
    ensures var r := StyledTable(tbl);
      var q := QueryAll(r, DataCell)[k];
      ValidPath(r, q) && StyleOf(At(r, q)) == TdCss
  {
    TableSteps(tbl);
    var t2 := TableHead(tbl);
    var t3 := StyledCells(t2, HeaderCell, ThCss);
    var t4 := StyledCells(t3, DataCell, TdCss);
    var r := StyledTable(tbl);
    SameQueries(r, t3, DataCell);
    var tds := QueryAll(t3, DataCell);
    var q := tds[k];
    QueriedTags(t3, "TD");
    WriteAllEffect(t3, tds, SetTo(TdCss), q);
    StillElement(t3, t4, q);
    ShadedAreRows(t4);
    SkipsOtherTags(t4, EvenIndexed(QueryAll(t4, BodyRow)), ShadeBackground, q, "TD", "TR");
  }

  /** Below the root, the table with its new class and style is the table it was. */
  lemma BelowRoot(t: Node, n: Node, q: Path)
    requires t.Element? && n.Element? && n.kids == t.kids && ValidPath(t, q) && q != []
    ensures ValidPath(n, q) && At(n, q) == At(t, q)
  {
  }

  /** A body row keeps, through the `thead` write, the style it had in the table as given. */
  lemma RowBeforeCells(tbl: Node, q: Path)
    requires tbl.Element? && ValidPath(TableHead(tbl), q) && q != []
    requires At(TableHead(tbl), q).Element? && At(TableHead(tbl), q).tag == "TR"
    ensures ValidPath(tbl, q) && StyleOf(At(TableHead(tbl), q)) == StyleOf(At(tbl, q))
  {
    var t1 := tbl.(cls := TableClass, style := TableCss);
    var t2 := TableHead(tbl);
    match QueryFirst(t1, TagIn({"THEAD"}))
    case Some(h) =>
      SetStyleUnstyled(t1, h, TheadCss);
      StillElement(t2, t1, q);
      SetStyleElsewhere(t1, h, TheadCss, q);
      BelowRoot(t1, tbl, q);
    case None =>
      BelowRoot(t1, tbl, q);
  }

  /** The row `q` of `t4` keeps through the cell writes the style it had after the `thead` write. */
  lemma RowThroughCells(t2: Node, q: Path)
    requires ValidPath(t2, q) && At(t2, q).Element? && At(t2, q).tag == "TR"
    ensures var t3 := StyledCells(t2, HeaderCell, ThCss);
      var t4 := StyledCells(t3, DataCell, TdCss);
      ValidPath(t4, q) && StyleOf(At(t4, q)) == StyleOf(At(t2, q))
  {
    var t3 := StyledCells(t2, HeaderCell, ThCss);
    QueriedTags(t2, "TH");
    SkipsOtherTags(t2, QueryAll(t2, HeaderCell), SetTo(ThCss), q, "TR", "TH");
    QueriedTags(t3, "TD");
    SkipsOtherTags(t3, QueryAll(t3, DataCell), SetTo(TdCss), q, "TR", "TD");
  }

  /**
   * The body rows of the styled table at even positions (the first, the
   * third, ...) get the highlight on top of the style they had; the others
   * keep the style they had.
   */
  lemma BodyRowShaded(tbl: Node, k: nat)
    requires tbl.Element? && k < |QueryAll(StyledTable(tbl), BodyRow)|
    ensures var r := StyledTable(tbl);
      var q := QueryAll(r, BodyRow)[k];
      ValidPath(r, q) && ValidPath(tbl, q) &&
      StyleOf(At(r, q)) == if k % 2 == 0 then StyleOf(At(tbl, q)) + RowShade else StyleOf(At(tbl, q))
  {
    TableSteps(tbl);
    var t2 := TableHead(tbl);
    var t4 := StyledCells(StyledCells(t2, HeaderCell, ThCss), DataCell, TdCss);
    var r := StyledTable(tbl);
    SameQueries(r, t4, BodyRow);
    var rows := QueryAll(t4, BodyRow);
    var q := rows[k];
    RowsFound(t4, k);
    StillElement(t4, t2, q);
    RowBeforeCells(tbl, q);
    RowThroughCells(t2, q);
    RowShadedAt(t4, k);
  }

  /** The shading step highlights the body rows at even positions and no others. */
  lemma RowShadedAt(t4: Node, k: nat)
    requires k < |QueryAll(t4, BodyRow)|
    ensures var q := QueryAll(t4, BodyRow)[k];
      ValidPath(t4, q) && ValidPath(ShadedRows(t4), q) &&
      StyleOf(At(ShadedRows(t4), q)) == if k % 2 == 0 then StyleOf(At(t4, q)) + RowShade else StyleOf(At(t4, q))
  {
    var rows := QueryAll(t4, BodyRow);
    ShadedAreRows(t4);
    QueryAllElements(t4, BodyRow);
    EvenIndexedMember(rows, k);
    WriteAllEffect(t4, EvenIndexed(rows), ShadeBackground, rows[k]);
  }

  /** The table element itself ends with the comparison-table class and the table style, and keeps its tag. */
  lemma TableRootStyled(tbl: Node)
    requires tbl.Element?
    ensures var r := StyledTable(tbl);
      r.Element? && r.tag == tbl.tag && r.cls == TableClass && r.style == TableCss
  {
    var t2 := TableHead(tbl);
    HeadRoot(tbl);
    QueriedTags(t2, "TH");
    RootKept(t2, QueryAll(t2, HeaderCell), SetTo(ThCss));
    var t3 := StyledCells(t2, HeaderCell, ThCss);
    QueriedTags(t3, "TD");
    RootKept(t3, QueryAll(t3, DataCell), SetTo(TdCss));
    var t4 := StyledCells(t3, DataCell, TdCss);
    ShadedAreRows(t4);
    RootKept(t4, EvenIndexed(QueryAll(t4, BodyRow)), ShadeBackground);
  }

  /** The `thead` write happens below the table's root. */
  lemma HeadRoot(tbl: Node)
    requires tbl.Element?
    ensures var t2 := TableHead(tbl);
      t2.Element? && t2.tag == tbl.tag && t2.cls == TableClass && t2.style == TableCss
  {
    var t1 := tbl.(cls := TableClass, style := TableCss);
    match QueryFirst(t1, TagIn({"THEAD"}))
    case Some(h) =>
      SetStyleUnstyled(t1, h, TheadCss);
      UnstyledParts(t1, TableHead(tbl));
      SetStyleElsewhere(t1, h, TheadCss, []);
    case None =>
  }

  /**
   * The wrapper is inserted exactly once: just before the FAQ `h2`, the
   * conclusion `h2` or the first `footer`, which now follows it, or as the
   * body's last child when there is none of these.
   */
  lemma WrapperPlaced(body: Node, wrapper: Node)
    requires body.Element?
    ensures var r := TableSpec(body, wrapper);
      match TableTarget(body)
      case Some(a) =>
        a != [] && (IsTag(At(body, a), "H2") || IsTag(At(body, a), "FOOTER")) &&
        var next := Parent(a) + [Last(a) + 1];
        ValidPath(r, a) && At(r, a) == wrapper && ValidPath(r, next) && At(r, next) == At(body, a)
        && |At(r, Parent(a)).kids| == |At(body, Parent(a)).kids| + 1
      case None => r.kids == body.kids + [wrapper]
  {
    var target := TableTarget(body);
    if target.Some? {
      InsertedBefore(body, target.value, wrapper);
    }
  }

  /** The FAQ heading wins over the conclusion heading, which wins over the footer. */
  lemma TargetPreference(body: Node)
    ensures QueryFirst(body, FaqHeading).Some? ==> TableTarget(body) == QueryFirst(body, FaqHeading)
    ensures QueryFirst(body, FaqHeading).None? && QueryFirst(body, ConclusionHeading).Some? ==>
      TableTarget(body) == QueryFirst(body, ConclusionHeading)
    ensures TableTarget(body).None? <==>
      QueryFirst(body, FaqHeading).None? && QueryFirst(body, ConclusionHeading).None? && QueryFirst(body, TagIn({"FOOTER"})).None?
  {
  }

  // ---------------------------------------------------------------------------
  // The wrapper's properties

  /** A `querySelector` style write changes styles only, and never the root's. */
  lemma StyleFirstUnstyled(t: Node, sel: Selector, css: string)
    ensures Unstyled(StyleFirst(t, sel, css)) == Unstyled(t)
    ensures t.Element? ==> var r := StyleFirst(t, sel, css);
      r.Element? && r.tag == t.tag && r.cls == t.cls && r.style == t.style
  {
    match QueryFirst(t, sel)
    case Some(q) => SetStyleUnstyled(t, q, css);
    case None =>
  }

  /** The styled table differs from the table as given in its class and its styles only. */
  lemma StyledTableUnstyled(tbl: Node)
    requires tbl.Element?
    ensures Unstyled(StyledTable(tbl)) == Unstyled(tbl.(cls := TableClass))
  {
    TableSteps(tbl);
    var t1 := tbl.(cls := TableClass, style := TableCss);
    StyleFirstUnstyled(t1, TagIn({"THEAD"}), TheadCss);
    assert Unstyled(t1) == Unstyled(tbl.(cls := TableClass));
  }

  /** The first table is the same in the wrapper as parsed and in the titled wrapper. */
  lemma WrapperTable(nodes: seq<Node>)
    ensures var q := QueryFirst(BareWrapper(nodes), TagIn({"TABLE"}));
      q == QueryFirst(TitledWrapper(nodes), TagIn({"TABLE"})) &&
      (q.Some? ==>
        ValidPath(TitledWrapper(nodes), q.value) && At(TitledWrapper(nodes), q.value).Element? &&
        At(TitledWrapper(nodes), q.value).tag == "TABLE")
  {
    StyleFirstUnstyled(BareWrapper(nodes), TagIn({"H2"}), TitleCss);
    SameQueries(BareWrapper(nodes), TitledWrapper(nodes), TagIn({"TABLE"}));
  }

  /**
   * The wrapper is the `sota-table-wrapper` `div` holding the snippet: the
   * pass changes styles, and the class of the snippet's first table, and
   * nothing else.
   */
  lemma TableWrapperShape(nodes: seq<Node>)
    ensures var w := TableWrapper(nodes);
      w.Element? && w.tag == "DIV" && w.cls == WrapperClass && w.style == WrapperCss && |w.kids| == |nodes|
    ensures var w0 := BareWrapper(nodes);
      match QueryFirst(w0, TagIn({"TABLE"}))
      case Some(q) => ValidPath(w0, q) && At(w0, q).Element? &&
        Unstyled(TableWrapper(nodes)) == Unstyled(SetAt(w0, q, At(w0, q).(cls := TableClass)))
      case None => Unstyled(TableWrapper(nodes)) == Unstyled(w0)
  {
    var w0, w1, w2 := BareWrapper(nodes), TitledWrapper(nodes), WrapperWithTable(nodes);
    var w3 := StyleFirst(w2, HasClass("table-source"), SourceCss);
    var w := TableWrapper(nodes);
    StyleFirstUnstyled(w0, TagIn({"H2"}), TitleCss);
    StyleFirstUnstyled(w2, HasClass("table-source"), SourceCss);
    StyleFirstUnstyled(w3, HasClass("table-explainer"), ExplainerCss);
    WrapperTable(nodes);
    match QueryFirst(w0, TagIn({"TABLE"}))
    case Some(q) =>
      UnstyledPaths(w1, w0, q);
      StyledTableUnstyled(At(w1, q));
      UnstyledClass(At(w1, q), At(w0, q), TableClass);
      UnstyledSetAt(w1, w0, q, StyledTable(At(w1, q)), At(w0, q).(cls := TableClass));
      UnstyledParts(w, SetAt(w0, q, At(w0, q).(cls := TableClass)));
    case None =>
      UnstyledParts(w, w0);
  }

  /** Whether the note found, if any, lies outside the element at `q`. */
  predicate Outside(q: Path, found: Option<Path>) {
    found.None? || !(q <= found.value)
  }

  /** The table's new class is one class name, and neither note's. */
  lemma TableClassNotNote()
    ensures "table-source" !in ClassTokens(TableClass) && "table-explainer" !in ClassTokens(TableClass)
  {
    OneToken(TableClass);
  }

  /**
   * Styling the first `.name` keeps an element of the table class, which is
   * not a `.name`, and keeps it whole when the note lies outside it.
   */
  lemma NoteKeepsTable(t: Node, name: string, css: string, q: Path)
    requires ValidPath(t, q) && At(t, q).Element? && At(t, q).cls == TableClass && name !in ClassTokens(TableClass)
    ensures var r := StyleFirst(t, HasClass(name), css);
      ValidPath(r, q) && At(r, q).Element? && At(r, q).tag == At(t, q).tag
      && At(r, q).cls == TableClass && At(r, q).style == At(t, q).style
      && (Outside(q, QueryFirst(t, HasClass(name))) ==> At(r, q) == At(t, q))
  {
    match QueryFirst(t, HasClass(name))
    case Some(s) =>
      assert s != q;
      SetStyleKeeps(t, s, css, q);
    case None =>
  }

  /**
   * The snippet's first table ends with the comparison-table class and the
   * table style and, unless a source or explainer note lies inside it, is
   * exactly the styled table.
   */
  lemma WrapperTableStyled(nodes: seq<Node>)
    ensures var w := TableWrapper(nodes);
      match QueryFirst(BareWrapper(nodes), TagIn({"TABLE"}))
      case Some(q) =>
        ValidPath(w, q) && At(w, q).Element? && At(w, q).tag == "TABLE" && At(w, q).cls == TableClass && At(w, q).style == TableCss
        && (Outside(q, QueryFirst(w, HasClass("table-source"))) && Outside(q, QueryFirst(w, HasClass("table-explainer"))) ==>
          ValidPath(TitledWrapper(nodes), q) && At(TitledWrapper(nodes), q).Element? &&
          At(w, q) == StyledTable(At(TitledWrapper(nodes), q)))
      case None => true
  {
    var w1, w2 := TitledWrapper(nodes), WrapperWithTable(nodes);
    var w3 := StyleFirst(w2, HasClass("table-source"), SourceCss);
    var w := TableWrapper(nodes);
    StyleFirstUnstyled(w2, HasClass("table-source"), SourceCss);
    StyleFirstUnstyled(w3, HasClass("table-explainer"), ExplainerCss);
    SameQueries(w, w2, HasClass("table-source"));
    SameQueries(w, w3, HasClass("table-explainer"));
    WrapperTable(nodes);
    match QueryFirst(BareWrapper(nodes), TagIn({"TABLE"}))
    case Some(q) =>
      TableRootStyled(At(w1, q));
      TableClassNotNote();
      assert At(w2, q) == StyledTable(At(w1, q));
      NoteKeepsTable(w2, "table-source", SourceCss, q);
      NoteKeepsTable(w3, "table-explainer", ExplainerCss, q);
    case None =>
  }

  /** The `.table-explainer` ends with the explainer style, and the `.table-source`, unless it is also the explainer, with the source style. */
  lemma WrapperNotesStyled(nodes: seq<Node>)
    ensures var w := TableWrapper(nodes);
      var src, exp := QueryFirst(w, HasClass("table-source")), QueryFirst(w, HasClass("table-explainer"));
      (exp.Some? ==> ValidPath(w, exp.value) && StyleOf(At(w, exp.value)) == ExplainerCss) &&
      (src.Some? && src != exp ==> ValidPath(w, src.value) && StyleOf(At(w, src.value)) == SourceCss)
  {
    var w2 := WrapperWithTable(nodes);
    var w3 := StyleFirst(w2, HasClass("table-source"), SourceCss);
    var w := TableWrapper(nodes);
    StyleFirstUnstyled(w2, HasClass("table-source"), SourceCss);
    StyleFirstUnstyled(w3, HasClass("table-explainer"), ExplainerCss);
    SameQueries(w, w2, HasClass("table-source"));
    SameQueries(w, w3, HasClass("table-explainer"));
    match QueryFirst(w3, HasClass("table-explainer"))
    case Some(e) =>
      match QueryFirst(w2, HasClass("table-source")) {
        case Some(s) =>
          if s != e {
            SetStyleElsewhere(w3, e, ExplainerCss, s);
          }
        case None =>
      }
    case None =>
  }

  /** Below the table's root, an element that is not a `thead`, `th`, `td` or `tr` keeps its style through the table styling. */
  lemma OtherElementKept(tbl: Node, r: Path)
    requires tbl.Element? && r != [] && ValidPath(tbl, r) && At(tbl, r).Element?
    requires At(tbl, r).tag !in {"THEAD", "TH", "TD", "TR"}
    ensures ValidPath(StyledTable(tbl), r) && StyleOf(At(StyledTable(tbl), r)) == StyleOf(At(tbl, r))
  {
    var tag := At(tbl, r).tag;
    var t1 := tbl.(cls := TableClass, style := TableCss);
    var t2 := TableHead(tbl);
    BelowRoot(tbl, t1, r);
    match QueryFirst(t1, TagIn({"THEAD"})) {
      case Some(h) =>
        SetStyleElsewhere(t1, h, TheadCss, r);
        SetStyleUnstyled(t1, h, TheadCss);
      case None =>
    }
    StillElement(t1, t2, r);
    TableSteps(tbl);
    var t3 := StyledCells(t2, HeaderCell, ThCss);
    var t4 := StyledCells(t3, DataCell, TdCss);
    QueriedTags(t2, "TH");
    SkipsOtherTags(t2, QueryAll(t2, HeaderCell), SetTo(ThCss), r, tag, "TH");
    QueriedTags(t3, "TD");
    SkipsOtherTags(t3, QueryAll(t3, DataCell), SetTo(TdCss), r, tag, "TD");
    ShadedAreRows(t4);
    SkipsOtherTags(t4, EvenIndexed(QueryAll(t4, BodyRow)), ShadeBackground, r, tag, "TR");
  }

  /** The first `h2`, styled before the table, keeps its title style through the table styling. */
  lemma TitleThroughTable(nodes: seq<Node>, h: Path)
    requires ValidPath(TitledWrapper(nodes), h) && At(TitledWrapper(nodes), h).Element? && At(TitledWrapper(nodes), h).tag == "H2"
    ensures ValidPath(WrapperWithTable(nodes), h)
    ensures StyleOf(At(WrapperWithTable(nodes), h)) == StyleOf(At(TitledWrapper(nodes), h))
  {
    var w1, w2 := TitledWrapper(nodes), WrapperWithTable(nodes);
    WrapperTable(nodes);
    match QueryFirst(w1, TagIn({"TABLE"}))
    case Some(q) =>
      var n := StyledTable(At(w1, q));
      assert q != h;
      PathCases(q, h);
      if Apart(q, h) {
        SetAtApart(w1, q, n, h);
      } else if h <= q {
        var r := q[|h|..];
        assert q == h + r && r != [];
        SetAtAbove(w1, r, n, h);
      } else {
        var r := h[|q|..];
        assert h == q + r && r != [];
        PathJoin(w1, q, r);
        PathJoin(w2, q, r);
        OtherElementKept(At(w1, q), r);
      }
    case None =>
  }

  /** The snippet's first `h2` ends with the title style, unless it is also the source or explainer note. */
  lemma WrapperTitleStyled(nodes: seq<Node>)
    ensures var w := TableWrapper(nodes);
      var h := QueryFirst(BareWrapper(nodes), TagIn({"H2"}));
      h.Some? && h != QueryFirst(w, HasClass("table-source")) && h != QueryFirst(w, HasClass("table-explainer")) ==>
        ValidPath(w, h.value) && StyleOf(At(w, h.value)) == TitleCss
  {
    var w0, w1, w2 := BareWrapper(nodes), TitledWrapper(nodes), WrapperWithTable(nodes);
    var w3 := StyleFirst(w2, HasClass("table-source"), SourceCss);
    var w := TableWrapper(nodes);
    StyleFirstUnstyled(w2, HasClass("table-source"), SourceCss);
    StyleFirstUnstyled(w3, HasClass("table-explainer"), ExplainerCss);
    SameQueries(w, w2, HasClass("table-source"));
    SameQueries(w, w3, HasClass("table-explainer"));
    match QueryFirst(w0, TagIn({"H2"}))
    case Some(h) =>
      TitleThroughTable(nodes, h);
      match QueryFirst(w2, HasClass("table-source")) {
        case Some(s) =>
          if s != h {
            SetStyleElsewhere(w2, s, SourceCss, h);
          }
        case None =>
      }
      match QueryFirst(w3, HasClass("table-explainer")) {
        case Some(e) =>
          if e != h {
            SetStyleElsewhere(w3, e, ExplainerCss, h);
          }
        case None =>
      }
    case None =>
  }
}
