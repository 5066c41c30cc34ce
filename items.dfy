/**
 * The list of content items the app works through, and `itemsReducer`, the
 * pure transition function that every change to that list goes through.
 * Apart from `SetItems`, which starts a fresh list, each action names an
 * item by id and rewrites one or two fields of every item with that id.
 */
module Items {
  import opened Wrappers
  import opened Content

  datatype ItemType = Pillar | Cluster | Standard | LinkOptimizer | Refresh
  datatype Status = Idle | Generating | Done | Error
  datatype Analysis = Analysis(critique: string, contentGaps: seq<string>, seoIssues: seq<string>, improvementPlan: string)

  datatype ContentItem = ContentItem(
    id: string,
    title: string,
    itemType: ItemType,
    status: Status,
    statusText: string,
    generatedContent: Option<GeneratedContent>,
    crawledContent: Option<string>,
    originalUrl: Option<string>,
    analysis: Option<Analysis>)

  /**
   * An entry of the `SetItems` payload: the fields that survive into the new
   * item (status, status text and generated content are always overwritten).
   */
  datatype ItemSeed = ItemSeed(id: string, title: string, itemType: ItemType, crawledContent: Option<string>, originalUrl: Option<string>, analysis: Option<Analysis>)

  datatype ItemsAction =
    | SetItems(payload: seq<ItemSeed>)
    | UpdateStatus(id: string, status: Status, statusText: string)
    | SetContent(id: string, content: GeneratedContent)
    | SetCrawledContent(id: string, crawled: string)
    /** Any other action object, which the reducer ignores. */
    | Unrecognised

  const NotStarted: string := "Not Started"

  /** A new item from a payload entry: idle, with no content, and an empty crawl read as none. */
  function FreshItem(seed: ItemSeed): ContentItem {
    ContentItem(seed.id, seed.title, seed.itemType, Idle, NotStarted, None,
      if seed.crawledContent == Some("") then None else seed.crawledContent,
      seed.originalUrl, seed.analysis)
  }

  /** What an action does to one item of the list. */
  function Touch(item: ContentItem, action: ItemsAction): ContentItem {
    match action
    case UpdateStatus(id, status, text) => if item.id == id then item.(status := status, statusText := text) else item
    case SetContent(id, content) => if item.id == id then item.(generatedContent := Some(content)) else item
    case SetCrawledContent(id, crawled) => if item.id == id then item.(crawledContent := Some(crawled)) else item
    case _ => item
  }

  function ItemsReducer(state: seq<ContentItem>, action: ItemsAction): (r: seq<ContentItem>)
    ensures action.SetItems? ==> |r| == |action.payload|
    ensures !action.SetItems? ==> |r| == |state| && forall i :: 0 <= i < |r| ==> r[i].id == state[i].id
  {
    match action
    case SetItems(payload) => seq(|payload|, i requires 0 <= i < |payload| => FreshItem(payload[i]))
    case Unrecognised => state
    case _ => seq(|state|, i requires 0 <= i < |state| => Touch(state[i], action))
  }

  // ---------------------------------------------------------------------------
  // Properties

  /**
   * `SetItems` makes one item per payload entry, in order, whatever the list
   * held before: each idle, "Not Started", without generated content, its
   * crawl and analysis kept when given and none otherwise.
   */
  lemma SetItemsFresh(state: seq<ContentItem>, payload: seq<ItemSeed>, other: seq<ContentItem>)
    ensures var r := ItemsReducer(state, SetItems(payload));
      r == ItemsReducer(other, SetItems(payload)) &&
      |r| == |payload| &&
      forall i :: 0 <= i < |payload| ==>
        r[i].id == payload[i].id && r[i].title == payload[i].title && r[i].itemType == payload[i].itemType &&
        r[i].originalUrl == payload[i].originalUrl &&
        r[i].status == Idle && r[i].statusText == "Not Started" && r[i].generatedContent.None? &&
        (r[i].crawledContent.Some? <==> payload[i].crawledContent.Some? && payload[i].crawledContent.value != "") &&
        (r[i].crawledContent.Some? ==> r[i].crawledContent == payload[i].crawledContent) &&
        r[i].analysis == payload[i].analysis
  {
  }

  /**
   * `UpdateStatus` keeps the list's length and order and rewrites the status
   * and status text of the items with the given id, and nothing else.
   */
  lemma UpdateStatusLocal(state: seq<ContentItem>, id: string, status: Status, text: string)
    ensures var r := ItemsReducer(state, UpdateStatus(id, status, text));
      |r| == |state| &&
      forall i :: 0 <= i < |state| ==>
        if state[i].id == id then r[i].status == status && r[i].statusText == text && r[i] == state[i].(status := r[i].status, statusText := r[i].statusText)
        else r[i] == state[i]
  {
  }

  /** `SetContent` rewrites only the generated content of the items with the given id. */
  lemma SetContentLocal(state: seq<ContentItem>, id: string, content: GeneratedContent)
    ensures var r := ItemsReducer(state, SetContent(id, content));
      |r| == |state| &&
      forall i :: 0 <= i < |state| ==>
        if state[i].id == id then r[i].generatedContent == Some(content) && r[i] == state[i].(generatedContent := r[i].generatedContent)
        else r[i] == state[i]
  {
  }

  /** `SetCrawledContent` rewrites only the crawled text of the items with the given id. */
  lemma SetCrawledContentLocal(state: seq<ContentItem>, id: string, crawled: string)
    ensures var r := ItemsReducer(state, SetCrawledContent(id, crawled));
      |r| == |state| &&
      forall i :: 0 <= i < |state| ==>
        if state[i].id == id then r[i].crawledContent == Some(crawled) && r[i] == state[i].(crawledContent := r[i].crawledContent)
        else r[i] == state[i]
  {
  }

  /** An action the reducer does not know leaves the list as it is. */
  lemma UnrecognisedKeeps(state: seq<ContentItem>)
    ensures ItemsReducer(state, Unrecognised) == state
  {
  }

  /** Replaying an action changes nothing more: every action is idempotent. */
  lemma ReducerIdempotent(state: seq<ContentItem>, action: ItemsAction)
    ensures ItemsReducer(ItemsReducer(state, action), action) == ItemsReducer(state, action)
  {
    if action.SetItems? {
      SetItemsFresh(state, action.payload, ItemsReducer(state, action));
    }
  }

  /** Per-id actions on different fields commute, e.g. a status update and the arrival of the content. */
  lemma ReducerCommutes(state: seq<ContentItem>, a: ItemsAction, b: ItemsAction)
    requires a.UpdateStatus? || a.SetContent? || a.SetCrawledContent?
    requires b.UpdateStatus? || b.SetContent? || b.SetCrawledContent?
    requires a.UpdateStatus? ==> !b.UpdateStatus?
    requires a.SetContent? ==> !b.SetContent?
    requires a.SetCrawledContent? ==> !b.SetCrawledContent?
    ensures ItemsReducer(ItemsReducer(state, a), b) == ItemsReducer(ItemsReducer(state, b), a)
  {
    var ab := ItemsReducer(ItemsReducer(state, a), b);
    var ba := ItemsReducer(ItemsReducer(state, b), a);
    forall i | 0 <= i < |state| ensures ab[i] == ba[i] {
      assert ab[i] == Touch(Touch(state[i], a), b);
      assert ba[i] == Touch(Touch(state[i], b), a);
    }
  }
}
