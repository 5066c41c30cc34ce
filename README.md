# seo-rank-pro content core, modelled in Dafny

This project models the content-processing core of seo-rank-pro, a browser tool that generates SEO articles and publishes them to WordPress.

**The surgical update (`performSurgicalUpdate`).** It splices four freshly generated snippets into an article that is already published:
- an introduction;
- a "key takeaways" box;
- a comparison table;
- an FAQ block.

The update changes the parsed document in place, in four passes, and leaves everything else as it was.

**The FAQ clean-up fragment.** This is a standalone variant of the last pass. It stops its sibling scan at any `H1`–`H6` heading.

**Smaller helpers in the same file:**
- `enforceWordCount`, the word-count gate;
- `processInternalLinks`, which resolves `[INTERNAL_LINK slug="…" text="…"]` placeholders through a case-insensitive slug map;
- `normalizeGeneratedContent`, which fills the gaps in the model's JSON answer;
- `getReadabilityVerdict`;
- `escapeRegExp`.

**The items reducer (`itemsReducer`).** Every change to the app's list of content items goes through it.

**The JSON-LD builders.** These produce the schema.org `@graph` for an article, and `generateSchemaMarkup` wraps that graph in a WordPress custom-HTML block.

How the model is organised:

- **Document tree.** The parsed document is a value tree (`Dom.Node`: elements with a tag, a class, a style and an ordered child list; text nodes; comments). A node is addressed by its path of child indices from `body`.
- **The document object.** `Dom.Document` is a class whose `body` field the DOM primitives reassign: `insertBefore`, `appendChild`, `removeChild`/`remove` and `replaceWith`.
- **The passes.** Each pass is a method with the source's loops. Each is proved equal to a specification function on the body (`IntroSpec`, `TakeawaysSpec`, `TableSpec`, `FaqSpec`), and the promised properties are proved about those functions as lemmas.
- **The pure parts.** The regex-driven string helpers, the reducer and the schema builders are functions over strings, sequences and a `Json` datatype. Each is paired with lemmas about its meaning: round trips, membership, order, bounds and idempotence.
- **The accumulating loops.** `createVideoObjectSchemas` and `generateFullSchema` build their result by pushing onto a list. They are methods with those loops, and each is proved equal to the function that lists the nodes.

Points to note about the code:
- The intro pass anchors on the first `h2` only, not on the first heading of any level.
- The sibling removed with an embedded takeaways heading is the next *element* sibling (`nextElementSibling`), so text nodes in between are skipped and kept.
- The FAQ pass looks for `h2`, `h3` and `h4` headings.
- The FAQ pass treats a parent with fewer than twenty children as a dedicated container unless it is the `BODY` or a `MAIN`. Such a parent is replaced as a whole.

## Model

| member | source | states |
|---|---|---|
| Dom.Document.constructor | contentUtils.tsx:357-359 | The update works on the `body` of the parsed document. |
| Dom.Document.InsertBefore | contentUtils.tsx:387 | `insertBefore` puts the node at the reference child's index in that parent's child list; nothing else changes. |
| Dom.Document.AppendChild | contentUtils.tsx:440 | `appendChild` adds the node as the parent's last child; nothing else changes. |
| Dom.Document.RemoveChild | contentUtils.tsx:379 | `removeChild` (and `remove()`) drops exactly that child from the parent's list; nothing else changes. |
| Dom.Document.ReplaceWith | contentUtils.tsx:428 | `replaceWith` puts the new node at the old node's place in the tree; nothing else changes. |
| Dom.QueryAll | contentUtils.tsx:405 | `querySelectorAll` yields distinct nodes, each matching the selector. |
| Dom.QueryAllSpec | contentUtils.tsx:405 | `querySelectorAll` yields exactly the nodes below the root that match: each one it yields is below the root, and each matching node below the root is yielded. It lists them in document order. |
| Dom.FilterMatchesInOrder | contentUtils.tsx:405-406 | Filtering keeps the order of what it keeps. |
| Dom.QueryFirst | contentUtils.tsx:362 | `querySelector` (and `Array.from(...).find`) yields a matching node that no earlier node in document order matches, or none when no node matches. |
| Dom.FilterMatches | contentUtils.tsx:405-406 | The filtered list holds exactly the listed paths that match, without duplicates when the input has none. |
| Dom.DescendantsValid | contentUtils.tsx:405 | Every path the document-order walk lists leads to a node below the root, and no path is listed twice. |
| Dom.InsertedBefore | contentUtils.tsx:438 | After `insertBefore(n, ref)` the new node stands where `ref` stood, `ref` follows right after it, and the parent has one child more. |
| Dom.SetAtApart | contentUtils.tsx:428 | Replacing one node leaves every node outside it unchanged. |
| Dom.SetAtFrame | contentUtils.tsx:428 | Replacing one node leaves every node apart from it unchanged, and every node above it with its tag, class, style and number of children. |
| Dom.SetStyleKeeps | contentUtils.tsx:486 | A style write to another element keeps a node's tag, class and style. It keeps the whole node when the write is not inside it. |
| Dom.SetStyleElsewhere | contentUtils.tsx:470-472 | A style write changes the style of its own element and of no other node. |
| Dom.SetAtTwice | contentUtils.tsx:428 | Replacing the same node twice is replacing it once with the second node. |
| Dom.SetAtSame | contentUtils.tsx:428 | Replacing a node by itself changes nothing. |
| Dom.ForestTextAppend | contentUtils.tsx:406 | The `textContent` of a child list is the texts of its parts, in order. |
| IntroPass.KeepIntroMembers | contentUtils.tsx:369-378 | Exactly the siblings that are not bare text or a `P` without `img`/`iframe`/`figure` survive before the `h2`. |
| IntroPass.KeepIntroIdempotent | contentUtils.tsx:369-379 | Clearing the intro prose a second time removes nothing more. |
| IntroPass.ProseIndicesExact | contentUtils.tsx:369-378 | The scan collects exactly the prose siblings before the `h2`, in ascending order. |
| IntroPass.CollectIntroProse | contentUtils.tsx:366-378 | The `while (sibling !== firstH2)` loop collects the indices of the prose siblings before the `h2`, in order. |
| IntroPass.RemoveIntroProse | contentUtils.tsx:366-379 | Scanning and then removing leaves the parent holding the surviving siblings, then the `h2` and everything after it. The number removed equals the number of prose siblings. |
| IntroPass.InsertIntro | contentUtils.tsx:385-388 | Inserting each intro node before the `h2` leaves the intro nodes in their original order, immediately before it. |
| IntroPass.PrependIntro | contentUtils.tsx:394-401 | Reversing and then inserting each node before the first child places the intro, in its original order, ahead of everything the body held. |
| IntroPass.ReplaceIntro | contentUtils.tsx:361-402 | The intro pass produces the body its specification describes, and reports where the first `h2` now stands. |
| IntroPass.ReplaceBeforeH2 | contentUtils.tsx:364-393 | With an `h2` present, the pass clears the prose before it and then inserts the intro before it. |
| IntroPass.KeptSiblings | contentUtils.tsx:371-375 | Every sibling before the `h2` that is not intro prose (media paragraphs, other elements, comments) is kept, and only such siblings are kept. |
| IntroPass.IntroBeforeFirstH2 | contentUtils.tsx:362-393 | The `h2`'s parent holds the kept siblings, then the intro, then the `h2` and what followed it. The reported anchor is the `h2`. |
| IntroPass.IntroLeavesOthers | contentUtils.tsx:364-393 | Every node outside the `h2`'s parent is unchanged. |
| IntroPass.IntroWithoutH2 | contentUtils.tsx:394-401 | Without an `h2`, the body is the intro followed by its old children, and there is no anchor. |
| TakeawaysPass.PrependMarker | contentUtils.tsx:420-421 | Prepending the marker span puts the marker and a space in front of the heading's text. |
| TakeawaysPass.MarkHeading | contentUtils.tsx:418-423 | The box heading gets its style and shows the marker. Its children are untouched when its text already contains the marker. Otherwise its text is the marker, a space, then the old text. |
| TakeawaysPass.MarkHeadingOnce | contentUtils.tsx:420 | Marking twice equals marking once: the marker is never duplicated. |
| TakeawaysPass.BuildBox | contentUtils.tsx:408-423 | The box is a `DIV` with the `key-takeaways-box` class and style, with one child per node of the box content (the snippet, or the children of its own box). Its first `h3` is styled and marked. Every node apart from that `h3` is as in the content, and the nodes above it keep their tag, class, style and number of children. Without an `h3` the box holds the content as given. |
| TakeawaysPass.NextElementIndex | contentUtils.tsx:430 | `nextElementSibling` is the first element after the node, and only non-elements lie between the two. |
| TakeawaysPass.ReplaceTakeaways | contentUtils.tsx:404-442 | The takeaways pass produces the body its specification describes. |
| TakeawaysPass.PlaceAtExisting | contentUtils.tsx:425-435 | Where a takeaways heading exists, the pass either replaces its compact parent or removes the list or paragraph after it and replaces the heading. |
| TakeawaysPass.CompactSectionReplaced | contentUtils.tsx:426-428 | A compact `DIV`/`SECTION` parent (text under 1500 units, fewer than 10 children) is replaced by the box; it is never the body, and every node outside it is unchanged. |
| TakeawaysPass.ReplaceHeadingKidsShape | contentUtils.tsx:429-435 | The box stands at the heading's index, the earlier siblings are unchanged, and at most one later sibling is gone: the next element, and only when it is a `UL`, `OL` or `P`. |
| TakeawaysPass.HeadingReplaced | contentUtils.tsx:429-435 | When the parent is not compact, the box takes the heading's place and at most one following sibling is removed. |
| TakeawaysPass.BoxBeforeAnchor | contentUtils.tsx:437-438 | Without a takeaways heading, exactly one box is inserted, immediately before the first `h2`. |
| TakeawaysPass.BoxAppended | contentUtils.tsx:439-441 | Without a takeaways heading or an `h2`, the box is appended as the body's last child. |
| StyleWrites.SameQueries | contentUtils.tsx:470-481 | Style writes never change what a selector finds. |
| StyleWrites.WriteAllShape | contentUtils.tsx:470-476 | A `forEach` of style writes changes styles and nothing else. |
| StyleWrites.WriteAllEffect | contentUtils.tsx:470-476 | After the writes, each listed element carries the written style and every other node keeps its own. |
| StyleWrites.WriteEach | contentUtils.tsx:470-476 | The `forEach` loop performs the list's style writes in order. |
| StyleWrites.EvenIndexedAt | contentUtils.tsx:479-480 | The shaded rows are the rows at positions 0, 2, 4, …, and there are ceil(n/2) of them. |
| StyleWrites.EvenIndexedMember | contentUtils.tsx:480 | With distinct rows, a row is shaded exactly when its position is even. |
| StyleWrites.ShadeEven | contentUtils.tsx:478-481 | The `rows.forEach((row, i) => …)` loop shades exactly the rows at even positions. |
| StyleWrites.SkipsOtherTags | contentUtils.tsx:470-476 | Writes to elements of another tag leave a node's style and tag unchanged. |
| TablePass.StyleTable | contentUtils.tsx:462-482 | Styling the table gives the table, its `thead`, its cells and its rows the styles their specification describes. |
| TablePass.BuildTableWrapper | contentUtils.tsx:450-492 | The step-by-step build equals `TableWrapper`. The four rows that follow state what that wrapper is. |
| TablePass.TableWrapperShape | contentUtils.tsx:450-492 | The wrapper is a `DIV` with the `sota-table-wrapper` class and style and one child per snippet node. The pass changes only styles and the class of the snippet's first table. |
| TablePass.WrapperTableStyled | contentUtils.tsx:462-482 | The snippet's first table ends with the `sota-comparison-table` class and the table style. When no source or explainer note lies inside it, it is exactly the styled table. |
| TablePass.WrapperNotesStyled | contentUtils.tsx:484-492 | The first `.table-explainer` ends with the explainer style. The first `.table-source` ends with the source style unless it is also the explainer. |
| TablePass.WrapperTitleStyled | contentUtils.tsx:457-460 | The snippet's first `h2` ends with the title style unless it is also the source or the explainer note. |
| TablePass.TitleThroughTable | contentUtils.tsx:462-482 | Styling the table, wherever the `h2` lies relative to it, leaves the `h2`'s style as it was. |
| TablePass.OtherElementKept | contentUtils.tsx:468-481 | Inside the table, an element that is not a `thead`, `th`, `td` or `tr` keeps its style. |
| TablePass.TableTarget | contentUtils.tsx:445-448 | The node the table wrapper goes before, when there is one, is an `H2` or a `FOOTER` below the body. |
| TablePass.InsertTable | contentUtils.tsx:494-503 | Placing the wrapper produces the body its specification describes. |
| TablePass.TableRootStyled | contentUtils.tsx:464-465 | The table gets the `sota-comparison-table` class and its style, and keeps its tag. |
| TablePass.TableSteps | contentUtils.tsx:468-481 | The `thead`, cell and row writes change styles only. |
| TablePass.HeaderCellStyled | contentUtils.tsx:470-472 | Every `th` ends up with the header-cell style. |
| TablePass.DataCellStyled | contentUtils.tsx:474-476 | Every `td` ends up with the data-cell style. |
| TablePass.BodyRowShaded | contentUtils.tsx:478-481 | A `tbody` row gets the background appended to its original style exactly when its position is even; rows at odd positions keep their original style. |
| TablePass.RowShadedAt | contentUtils.tsx:478-481 | The shading step highlights even positions and leaves odd ones unchanged. |
| TablePass.WrapperPlaced | contentUtils.tsx:494-503 | The wrapper is inserted exactly once. It goes immediately before the target (FAQ `h2`, conclusion `h2` or `footer`), which now follows it; with no target it is the body's last child. |
| TablePass.TargetPreference | contentUtils.tsx:445-499 | The FAQ/"frequently asked" `h2` wins, then the "conclusion" `h2`, then the first `footer`; there is no target only when none of them exists. |
| FaqCleanup.RunFrom | src/contentUtils.tsx:10-18 | The scan takes at most the budget, takes no stopping heading, and stops early only at a stopping heading or at the list's end. |
| FaqCleanup.RunLength | src/contentUtils.tsx:9-18 | At most 50 siblings after the header are collected, and they stay within the parent's list. |
| FaqCleanup.CollectRun | src/contentUtils.tsx:5-18 | The removal list starts with the header. It continues with the consecutive following siblings, in order, and has at most 51 entries. |
| FaqCleanup.RemoveFollowing | src/contentUtils.tsx:23 | Removing the collected siblings one at a time removes exactly that run. |
| FaqCleanup.RemoveRun | src/contentUtils.tsx:20-24 | The container goes in right before the header, and the header and its collected run are removed. |
| FaqCleanup.ReplaceFaqSection | src/contentUtils.tsx:1-25 | Either the parent is replaced as a whole by the container, or the header's run up to the next `H1`–`H6` gives way to the container. Replacing the body itself leaves the body's content as it was. |
| FaqCleanup.NarrowerStopCollectsLess | src/contentUtils.tsx:12 | The `H1`–`H6` scan never collects more than the `H1`–`H3` scan of contentUtils.tsx:532. When it collects fewer, it stopped at an `H4`–`H6`. |
| FaqPass.FirstElementIndex | contentUtils.tsx:509 | `firstElementChild` is the first element of the list, and none comes before it. |
| FaqPass.NewFaqNode | contentUtils.tsx:507-509 | The node inserted is the snippet's first element, or, when it has none, the temporary `div` holding the snippet. |
| FaqPass.ReplaceFaq | contentUtils.tsx:505-548 | With no FAQ snippet the body is unchanged; otherwise the FAQ pass produces the body its specification describes. |
| FaqPass.FaqAppended | contentUtils.tsx:545-546 | Without an FAQ heading, the new FAQ becomes the body's last child. |
| FaqPass.ContainerReplaced | contentUtils.tsx:516-524 | A dedicated container below the body is replaced by the new FAQ, and every node outside it is unchanged. |
| FaqPass.BodyContainerKept | contentUtils.tsx:520-524 | When the dedicated container is the body itself, `replaceWith` detaches it and the body is left unchanged. |
| FaqPass.SiblingsReplaced | contentUtils.tsx:526-543 | The new FAQ stands where the heading stood and earlier siblings are kept. At most 50 following siblings are removed, none of them an `H1`–`H3`. The scan stops early only at an `H1`–`H3` or at the list's end. |
| SurgicalUpdate.IntroKeepsBody | contentUtils.tsx:361-402 | After the intro pass the root is still `body`, and the anchor, if any, is a path below it. |
| SurgicalUpdate.TakeawaysKeepsBody | contentUtils.tsx:425-442 | The takeaways pass never replaces the body itself. |
| SurgicalUpdate.SurgicalSpec | contentUtils.tsx:356-551 | The four passes, in order, leave a `body`. |
| SurgicalUpdate.PerformSurgicalUpdate | contentUtils.tsx:356-551 | The intro, takeaways, table and FAQ passes, run one after the other on the document, leave exactly the body their specifications compose to. |
| ContentUtils.GetReadabilityVerdict | contentUtils.tsx:32-40 | The verdict for a score, by the chain of `>=` tests. Its meaning is stated by `ContentUtils.VerdictMatchesTable` and `ContentUtils.VerdictMonotone`. |
| ContentUtils.VerdictMatchesTable | contentUtils.tsx:32-40 | The chain of `>=` tests gives the verdict of the band the score falls in. |
| ContentUtils.VerdictMonotone | contentUtils.tsx:32-40 | A higher score never gets a harder verdict. |
| ContentUtils.BandIndex | contentUtils.tsx:32-39 | The band found is the first whose floor the score reaches. |
| ContentUtils.EscapeRegExp | contentUtils.tsx:5-7 | Escaping never shortens the string. Its meaning is stated by `ContentUtils.EscapeRoundTrip` and `ContentUtils.EscapedIsEscaped`. |
| ContentUtils.EscapeRoundTrip | contentUtils.tsx:5-7 | Escaping loses nothing: reading the escaped string back gives the original. |
| ContentUtils.EscapedIsEscaped | contentUtils.tsx:5-7 | In the escaped string every special character is preceded by a backslash. |
| ContentUtils.EnforceWordCount | contentUtils.tsx:227-243 | The count is returned exactly when it lies within the bounds. Too-short is reported exactly below the minimum, and too-long exactly above the maximum when not too short. Each error carries the content and the count. |
| ContentUtils.WordCount | contentUtils.tsx:228-230 | The words left once tags become spaces. Its additivity is stated by `ContentUtils.WordCountJoin`. |
| ContentUtils.WordCountJoin | contentUtils.tsx:228-230 | Tag-free texts joined by a space count the words of both. |
| ContentUtils.SlugMap | contentUtils.tsx:639-644 | The lower-cased slug to page id map. Its keys and values are stated by `ContentUtils.SlugMapKeys` and `ContentUtils.SlugMapLast`. |
| ContentUtils.SlugMapKeys | contentUtils.tsx:639-644 | A lower-cased slug is a key of the map exactly when some page with a non-empty slug has it. |
| ContentUtils.SlugMapLast | contentUtils.tsx:639-644 | A key maps to the id of the last page with that slug. |
| ContentUtils.MatchPlaceholder | contentUtils.tsx:638 | A placeholder match consumes at least one character. |
| ContentUtils.PlaceholderRecognised | contentUtils.tsx:638 | A canonical placeholder is recognised with its own slug, text and continuation. |
| ContentUtils.ExpandAtMatch | contentUtils.tsx:646-652 | Where a placeholder matches, its replacement comes first and scanning resumes after it. |
| ContentUtils.PlaceholderExpanded | contentUtils.tsx:638-652 | A canonical placeholder becomes its link (or text) and the rest is processed in turn. |
| ContentUtils.ProcessInternalLinks | contentUtils.tsx:637-653 | Each placeholder is replaced through the slug map. Its behaviour is stated by the `ContentUtils.Link*`, `ContentUtils.Placeholder*` and `ContentUtils.NoBracketUnchanged` lemmas. |
| ContentUtils.NoBracketUnchanged | contentUtils.tsx:646-652 | Text without `[` comes out unchanged. |
| ContentUtils.LinkResolved | contentUtils.tsx:646-650 | A slug that resolves (case-insensitively) becomes a link to the last page with it. |
| ContentUtils.LinkUnresolved | contentUtils.tsx:651 | A slug no page has becomes its bare text. |
| Text.StripTags | contentUtils.tsx:228 | Replacing tags by a space never lengthens the text. Its result on every string is fixed by the four lemmas that follow. |
| Text.StripLeadingTag | contentUtils.tsx:228 | A leading `<…>` with no `>` inside becomes one space when it is long enough for the pattern. Otherwise its `<` stays as text and scanning goes on from the next character. |
| Text.NoTagUnchanged | contentUtils.tsx:228 | Text without `<` has no tag to strip. |
| Text.StripKeepsChar | contentUtils.tsx:228 | A leading character other than `<` is kept, and the scan goes on after it. |
| Text.StripUnclosed | contentUtils.tsx:228 | A leading `<` that no later `>` closes is kept as text, and the scan goes on after it. |
| Text.Words | contentUtils.tsx:229 | The split yields non-empty runs free of `\s`. |
| Text.WordsAppend | contentUtils.tsx:229 | The words of `a + " " + b` are the words of `a` followed by those of `b`. |
| Text.SingleWord | contentUtils.tsx:229 | A non-empty run without `\s` is one word. |
| Text.KeepSlugChars | contentUtils.tsx:283 | Dropping non-slug characters keeps only slug characters, and keeps a string made of them unchanged. |
| Text.SlugifyIsSlug | contentUtils.tsx:283 | A derived slug has no upper-case letters, whitespace or other characters besides `\w` and `-`, and slugging it again changes nothing. |
| Text.SlugStable | contentUtils.tsx:283 | A slug is its own slug. |
| Text.Slugify | contentUtils.tsx:283 | The slug of a title: lower-cased, `\s` runs turned into `-`, then everything but `\w` and `-` dropped. Its properties are stated by `Text.SlugifyIsSlug`. |
| Strings.ReplaceSpaceRuns | contentUtils.tsx:283 | With a replacement free of `\s`, the result is free of `\s`. Text without `\s` is unchanged. |
| Strings.ReplaceSpaceRunsStep | contentUtils.tsx:283 | One maximal `\s` run at a time: the text before it is kept, the whole run becomes one replacement, and the rest is treated alike. Together with the unchanged case this fixes the result on every string. |
| Content.ExpandImages | contentUtils.tsx:287-299 | One image record per answer entry, in order, each built from its own position. |
| Content.NormalizeGeneratedContent | contentUtils.tsx:280-332 | The record always has images and a meta description. It has a title and a primary keyword whenever the item title is non-empty. |
| Content.GivenFieldsKept | contentUtils.tsx:281-331 | Every field the answer supplied is kept as given. |
| Content.DefaultsFilled | contentUtils.tsx:282-324 | A missing title or keyword becomes the item title and a missing slug becomes the slugged item title. A missing description mentions the final title. |
| Content.ImagesNormalized | contentUtils.tsx:285-316 | Bare prompts are numbered from 1 by position. Without any entry there are exactly two default images, and the body carries both placeholders. |
| Content.NormalizeIdempotent | contentUtils.tsx:280-332 | Normalizing a normalized record again changes nothing. |
| Items.ItemsReducer | state.ts:10-35 | `SET_ITEMS` gives one item per payload entry. Every other action keeps the list's length and each position's id. |
| Items.SetItemsFresh | state.ts:12-13 | Items follow the payload in order, whatever the state was. Each is idle, "Not Started" and without content; crawl and analysis are kept when given and none otherwise. |
| Items.UpdateStatusLocal | state.ts:14-19 | Only the status and status text of the items with that id change. |
| Items.SetContentLocal | state.ts:20-25 | Only the generated content of the items with that id changes. |
| Items.SetCrawledContentLocal | state.ts:26-31 | Only the crawled content of the items with that id changes. |
| Items.UnrecognisedKeeps | state.ts:32-33 | An unknown action returns the state unchanged. |
| Items.ReducerIdempotent | state.ts:10-35 | Dispatching the same action twice equals dispatching it once. |
| Items.ReducerCommutes | state.ts:14-31 | Per-id actions on different fields commute. |
| Json.Stringify | src/schema-generator.tsx:423 | `JSON.stringify(v, null, 2)` never yields an empty text. |
| Json.LookupSpec | src/schema-generator.tsx:418 | A key is found exactly when some member has it, and the value found is the first such member's. |
| Json.LookupAppend | src/schema-generator.tsx:367-381 | Adding members after existing ones never hides an existing member. |
| Json.TypesOfAppend | src/schema-generator.tsx:348-406 | The `@type`s of a concatenation are the concatenation of the `@type`s. |
| Schema.Tagged | src/schema-generator.tsx:18 | Each builder's object carries the `@type` it was given. |
| Schema.WikiUrl | src/schema-generator.tsx:21 | The address is the Wikipedia prefix followed by the keyword with no whitespace; a keyword without whitespace is kept as is. |
| Schema.WikiUrlRun | src/schema-generator.tsx:21 | Each maximal `\s` run of the keyword becomes exactly one `_`, and the text around it is kept in order. |
| Schema.CreateEntityMentions | src/schema-generator.tsx:16-23 | One mention per keyword. |
| Schema.EntityMentionsShape | src/schema-generator.tsx:16-23 | One `Thing` per keyword, in order, named after it, with `sameAs` its Wikipedia address. |
| Schema.CreatePersonSchema | src/schema-generator.tsx:28-38 | The author node is a `Person`. |
| Schema.CreateOrganizationSchema | src/schema-generator.tsx:43-58 | The publisher node is an `Organization`. |
| Schema.CreateWebSiteSchema | src/schema-generator.tsx:199-218 | The site node is a `WebSite`. |
| Schema.CreateLocalBusinessSchema | src/schema-generator.tsx:63-105 | There is a `LocalBusiness` exactly when geo-targeting is enabled, and null otherwise. |
| Schema.ReadingTimeMinutes | src/schema-generator.tsx:121 | The reading time is the least whole number of minutes covering the words at 200 a minute. |
| Schema.CreateArticleSchema | src/schema-generator.tsx:110-194 | The article is a `NewsArticle` for a news-like title and a `BlogPosting` otherwise. |
| Schema.ArticleReadingTime | src/schema-generator.tsx:119-162 | The article states the body's word count and, as `PT<n>M`, its reading time. |
| Schema.CategoryPathShape | src/schema-generator.tsx:240 | The category path is lower-case and free of whitespace, and a path already of that form is unchanged. |
| Schema.CategoryPathRun | src/schema-generator.tsx:240 | Each maximal `\s` run of the keyword becomes exactly one `-`, and the text before it is lower-cased. |
| Schema.CrumbShape | src/schema-generator.tsx:230-247 | A crumb is a `ListItem` with its position, name and address. |
| Schema.CreateBreadcrumbSchema | src/schema-generator.tsx:223-250 | The trail is a `BreadcrumbList`. |
| Schema.BreadcrumbTrail | src/schema-generator.tsx:223-250 | Exactly three items, at positions 1, 2 and 3: home, the keyword's category page, and the article. |
| Schema.Answered | src/schema-generator.tsx:258-259 | The kept entries are exactly those with both a question and an answer, and all entries are kept when all are answered. |
| Schema.AnsweredAppend | src/schema-generator.tsx:258-259 | Filtering keeps the entries' order. |
| Schema.Questions | src/schema-generator.tsx:260-267 | One question per entry, in order. |
| Schema.QuestionShape | src/schema-generator.tsx:260-267 | A `Question` with the entry's question as name and an `Answer` with its answer as text. |
| Schema.CreateFaqSchema | src/schema-generator.tsx:255-275 | An `FAQPage` exists exactly when the list is present and has an answered entry. |
| Schema.FaqPageShape | src/schema-generator.tsx:255-275 | Null for a missing list or one without an answered entry; otherwise one question per answered entry, in order. |
| Schema.HowToStepShape | src/schema-generator.tsx:301-307 | A `HowToStep` at position index + 1, named after its heading, pointing at its section. |
| Schema.HowToSteps | src/schema-generator.tsx:301 | One step per heading given. |
| Schema.CreateHowToSchema | src/schema-generator.tsx:280-309 | A `HowTo` exists exactly when the body is instructional and has at least three `h2` headings. |
| Schema.HowToShape | src/schema-generator.tsx:280-309 | Null unless instructional with at least 3 headings. The steps are min(headings, 8), numbered from 1, and the total time is the reading time. |
| Schema.HowToFrom | src/schema-generator.tsx:284-309 | Given the `h2` texts, a `HowTo` exists exactly when the body is instructional and there are at least three of them. |
| Schema.HowToFromShape | src/schema-generator.tsx:284-309 | For any list of `h2` texts: null unless instructional with at least 3 of them. The steps are the first min(n, 8) texts in order, and the total time is the reading time. |
| Captures.ToH2Close | src/schema-generator.tsx:124 | The lazy capture, followed by its closing `</h2>`, lies within the text. |
| Captures.ToH2CloseSome | src/schema-generator.tsx:124 | The capture is the shortest one: `</h2>` follows it and no earlier position, and it holds no line break. |
| Captures.ToH2CloseNone | src/schema-generator.tsx:124 | When nothing is captured, every `</h2>` comes after a line break. |
| Captures.H2Headings | src/schema-generator.tsx:124 | The captured `h2` texts, in order. Their shape is stated by `Captures.H2HeadingsOneLine`. |
| Captures.H2HeadingsOneLine | src/schema-generator.tsx:124 | No captured heading spans a line break. |
| Captures.VideoIds | src/schema-generator.tsx:317 | The captured video ids, in order. Their shape is stated by `Captures.VideoIdsShape`. |
| Captures.VideoIdsShape | src/schema-generator.tsx:317 | Each captured id is non-empty and holds neither `"` nor `?`. |
| Schema.VideoSchemas | src/schema-generator.tsx:314-335 | One `VideoObject` per embedded video, or null when there is none. |
| Schema.VideoSchemasObjects | src/schema-generator.tsx:317-332 | The k-th object is a `VideoObject` whose `@id` ends in `#video-` and k + 1, and whose `contentUrl` and `embedUrl` point at the k-th captured id. |
| Schema.VideoObjectShape | src/schema-generator.tsx:320-331 | The k-th object's `@id` ends in `#video-` and k + 1. Its `contentUrl` and `embedUrl` point at the video's id. |
| Schema.CreateVideoObjectSchemas | src/schema-generator.tsx:314-335 | The push loop yields exactly the video objects, or null when there is none. |
| Schema.TrimSlashes | src/schema-generator.tsx:347 | The trimmed address is a prefix of the original, and what is cut off is all `/`. What is left does not end with `/`, so the whole trailing run is removed. |
| Schema.ArticleNode | src/schema-generator.tsx:366-381 | Adding the place members to a geo-targeted article keeps its `@type`. |
| Schema.PushPresent | src/schema-generator.tsx:385-402 | `if (node) schemas.push(node)` appends the node exactly when it is present. |
| Schema.PushAllPresent | src/schema-generator.tsx:406 | `if (nodes) schemas.push(...nodes)` appends the nodes exactly when the list is present. |
| Schema.GenerateFullSchema | src/schema-generator.tsx:340-412 | The pushes produce the graph of the nodes in push order. |
| Schema.AssembleTypes | src/schema-generator.tsx:348-406 | The graph's `@type`s are the nodes' types in push order. |
| Schema.AssembleInOrder | src/schema-generator.tsx:348-406 | Nodes of the right types, present as the flags say, are listed in the intended order. |
| Schema.GraphOrder | src/schema-generator.tsx:348-406 | The order is Organization, Person, WebSite, the optional LocalBusiness, the article, BreadcrumbList, then the optional FAQPage, the optional HowTo and the videos. |
| Schema.LocalBusinessListed | src/schema-generator.tsx:366-386 | `LocalBusiness` is listed exactly when its flag is set. |
| Schema.LocalBusinessInGraph | src/schema-generator.tsx:366-386 | The graph has a `LocalBusiness` exactly when geo-targeting is enabled with a non-empty location. |
| Schema.MarkupCases | src/schema-generator.tsx:417-431 | `''` when `@graph` is missing or empty; a failure on a `null` graph; otherwise one JSON-LD script wrapped in `<!-- wp:html -->` … `<!-- /wp:html -->`. |
| Schema.GraphMarkup | src/schema-generator.tsx:417-431 | A non-empty graph always gets its block. |
| Schema.FullSchemaMarkup | src/schema-generator.tsx:340-431 | The full graph always gets its block, since it has at least five nodes. |

## Left out

- HTML parsing and serialisation (`DOMParser`, the `innerHTML` getters and setters, `body.innerHTML` as the result). Each snippet is given already parsed, as a list of nodes. Re-parsing the takeaways heading after the marker is prepended is modelled only by its effect on the child list.
- Inline CSS values are opaque constants. `style.background = …` is modelled as appending a declaration to the row's style string, not as CSS property merging.
- DOM node identity and aliasing: nodes are values reached by paths, so moving one node object between two parents is not modelled. In this code every inserted node is fresh.
- `textContent` is the concatenation of descendant text. `textContent.length` counts UTF-16 units. `toLowerCase` folds ASCII letters only.
- The intro pass's `appendChild` fallback (when the parent no longer contains the `h2`) is not modelled: removing other siblings never detaches the `h2`.
- `calculateFleschReadability` is floating-point arithmetic; the verdict takes the score as a `real`. A NaN score, which reaches the last branch, is not modelled.
- `fetchWithProxies`, `smartCrawl` and `getGuaranteedYoutubeVideos` do network I/O. `postProcessGeneratedHtml`, `extractYouTubeID` and `generateVerificationFooterHtml` are regex scrubbing and date-dependent code outside this core.
- `new Date()` values (dates in the article and the video objects) are a parameter `today`.
- The `console.log` in `enforceWordCount` is not modelled. The errors carry the source's messages, the content and the count.
- TakeawaysPass.MarkHeading: the marker test reads the heading's text content, where the source tests its serialised `innerHTML`. The two differ when the marker sits in a comment or an attribute, or is split across elements, and there the model takes the other branch.
- `escapeRegExp` is modelled as a string transform; its use inside a regular expression is not.
- `normalizeGeneratedContent`: keys of the answer beyond the record's fields are not modelled. Non-string truthy values in text fields are not modelled either. An image entry that is neither a string nor an object is not modelled.
- Items.ItemsReducer: payload entries are taken to carry an id, a title and a type, as every caller supplies. Extra spread fields of a `Partial<ContentItem>` are not modelled. A non-string truthy `crawledContent` is not modelled.
- Json.Stringify: only non-emptiness is stated; the layout (indentation, separators, escapes) is given by its definition and not restated as a contract.
- `JSON.stringify` is modelled for the values the builders produce. Integers stand for JavaScript numbers. A duplicate key keeps the first binding (the builders produce none).
- Schema.ArticleReadingTime: the word count and reading time are stated at their positions among the article's members (15th and 16th), not by key lookup.
- `generateSchemaMarkup`: a graph value's `length` is read as JavaScript would for arrays, strings and objects; any other value has none, so its block is produced. A `</script>` inside a serialised string is not escaped by the source, and the model keeps it as is.
