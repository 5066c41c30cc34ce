/**
 * The schema.org JSON-LD graph published with each article: one builder per
 * node (organization, author, site, local business, article, breadcrumb
 * trail, FAQ page, how-to, videos), the graph that collects them in a fixed
 * order, and the WordPress block that wraps the serialised graph. The
 * current date is the parameter `today`.
 */
module Schema {
  import opened Wrappers
  import opened Strings
  import opened Text
  import opened Json
  import opened Content
  import opened Captures

  const OrganizationName: string := "Your Company Name"
  const DefaultAuthorName: string := "Expert Author"
  const WikiPrefix: string := "https://en.wikipedia.org/wiki/"
  /** Words read per minute, for the reading time. */
  const WordsPerMinute: nat := 200
  /** A how-to lists at most this many steps. */
  const MaxSteps: nat := 8
  /** A how-to needs at least this many `h2` sections. */
  const MinSteps: nat := 3

  datatype SiteInfo = SiteInfo(orgName: string, orgUrl: string, logoUrl: string, orgSameAs: seq<string>,
                               authorName: string, authorUrl: string, authorSameAs: seq<string>)
  datatype GeoTargeting = GeoTargeting(enabled: bool, location: string, region: string, country: string, postalCode: string)
  datatype WpConfig = WpConfig(url: string)

  /** `a || b` on strings. */
  function OrElse(a: string, b: string): string {
    if a != [] then a else b
  }

  /** An object whose first member is its `@type`. */
  function Tagged(t: string, rest: seq<(string, Json)>): (r: Json)
    ensures r.JObj? && TypeOf(r) == t
  {
    assert ([("@type", JStr(t))] + rest)[0] == ("@type", JStr(t));
    JObj([("@type", JStr(t))] + rest)
  }

  /** A member other than `@type` is looked up among the members that follow it. */
  lemma TaggedGet(t: string, rest: seq<(string, Json)>, key: string)
    requires key != "@type"
    ensures Get(Tagged(t, rest), key) == Lookup(rest, key)
  {
    assert Tagged(t, rest).fields[1..] == rest;
  }

  /** The members given to `Tagged` follow the `@type`, in order. */
  lemma TaggedAt(t: string, rest: seq<(string, Json)>, i: nat)
    requires i < |rest|
    ensures |Tagged(t, rest).fields| == |rest| + 1 && Tagged(t, rest).fields[i + 1] == rest[i]
  {
  }

  /** A member whose value may be `undefined`, which `JSON.stringify` leaves out. */
  function Member(name: string, v: Option<Json>): seq<(string, Json)> {
    if v.Some? then [(name, v.value)] else []
  }

  function Strs(ss: seq<string>): (r: seq<Json>)
    ensures |r| == |ss|
  {
    seq(|ss|, i requires 0 <= i < |ss| => JStr(ss[i]))
  }

  /** A non-empty `sameAs` list, or `undefined`. */
  function SameAs(urls: seq<string>): Option<Json> {
    if |urls| > 0 then Some(JArr(Strs(urls))) else None
  }

  // ---------------------------------------------------------------------------
  // Entity mentions

  /** The Wikipedia address guessed for a keyword: `\s` runs become `_`. */
  function WikiUrl(keyword: string): (r: string)
    ensures |WikiPrefix| <= |r| && r[..|WikiPrefix|] == WikiPrefix
    ensures NoJsSpace(r[|WikiPrefix|..])
    ensures NoJsSpace(keyword) ==> r == WikiPrefix + keyword
  {
    var r := WikiPrefix + ReplaceSpaceRuns(keyword, "_");
    assert r[|WikiPrefix|..] == ReplaceSpaceRuns(keyword, "_");
    r
  }

  /** Each `\s` run of the keyword becomes one `_` of the address, and the text around it is kept. */
  lemma WikiUrlRun(a: string, run: string, b: string)
    requires NoJsSpace(a) && IsSpaceRun(run) && (b == [] || !IsJsSpace(b[0]))
    ensures WikiUrl(a + run + b) == WikiUrl(a) + "_" + ReplaceSpaceRuns(b, "_")
  {
    ReplaceSpaceRunsStep(a, run, b, "_");
    Assoc(WikiPrefix, a, "_" + ReplaceSpaceRuns(b, "_"));
    Assoc(a, "_", ReplaceSpaceRuns(b, "_"));
    Assoc(WikiPrefix + a, "_", ReplaceSpaceRuns(b, "_"));
  }

  function Mention(keyword: string): Json {
    Tagged("Thing", [("name", JStr(keyword)), ("sameAs", JStr(WikiUrl(keyword)))])
  }

  function CreateEntityMentions(keywords: seq<string>): (r: seq<Json>)
    ensures |r| == |keywords|
  {
    seq(|keywords|, i requires 0 <= i < |keywords| => Mention(keywords[i]))
  }

  // ---------------------------------------------------------------------------
  // Organization, author, site

  function CreatePersonSchema(site: SiteInfo, primaryKeyword: string): (r: Json)
    ensures TypeOf(r) == "Person"
  {
    Tagged("Person",
      [("@id", JStr(site.authorUrl + "#person")),
       ("name", JStr(OrElse(site.authorName, DefaultAuthorName)))]
      + Member("url", if site.authorUrl != [] then Some(JStr(site.authorUrl)) else None)
      + Member("sameAs", SameAs(site.authorSameAs))
      + [("description", JStr("Expert content creator specializing in " + primaryKeyword)),
         ("knowsAbout", JArr([JStr(primaryKeyword)]))])
  }

  function CreateOrganizationSchema(site: SiteInfo, wp: WpConfig): (r: Json)
    ensures TypeOf(r) == "Organization"
  {
    Tagged("Organization",
      [("@id", JStr(wp.url + "#organization")),
       ("name", JStr(OrElse(site.orgName, OrganizationName))),
       ("url", JStr(OrElse(site.orgUrl, wp.url)))]
      + Member("logo", if site.logoUrl != [] then
          Some(Tagged("ImageObject", [("@id", JStr(wp.url + "#logo")), ("url", JStr(site.logoUrl)),
                                      ("width", JNum(600)), ("height", JNum(60))]))
        else None)
      + Member("sameAs", SameAs(site.orgSameAs)))
  }

  function CreateWebSiteSchema(wp: WpConfig, org: Json): (r: Json)
    ensures TypeOf(r) == "WebSite"
  {
    Tagged("WebSite",
      [("@id", JStr(wp.url + "#website")), ("url", JStr(wp.url))]
      + Member("name", if org.JObj? then Lookup(org.fields, "name") else None)
      + [("publisher", JObj([("@id", JStr(wp.url + "#organization"))])),
         ("potentialAction", Tagged("SearchAction",
            [("target", Tagged("EntryPoint", [("urlTemplate", JStr(wp.url + "/?s={search_term_string}"))])),
             ("query-input", JStr("required name=search_term_string"))]))])
  }

  // ---------------------------------------------------------------------------
  // Local business

  function PostalAddress(geo: GeoTargeting): Json {
    Tagged("PostalAddress",
      [("addressLocality", JStr(geo.location)), ("addressRegion", JStr(geo.region)),
       ("postalCode", JStr(geo.postalCode)), ("addressCountry", JStr(geo.country))])
  }

  /** `None` stands for the `null` returned when geo-targeting is off. */
  function CreateLocalBusinessSchema(site: SiteInfo, geo: GeoTargeting, wp: WpConfig): (r: Option<Json>)
    ensures r.Some? <==> geo.enabled
    ensures r.Some? ==> TypeOf(r.value) == "LocalBusiness"
  {
    if !geo.enabled then None
    else Some(Tagged("LocalBusiness",
      [("@id", JStr(wp.url + "#localbusiness")),
       ("name", JStr(OrElse(site.orgName, OrganizationName))),
       ("url", JStr(OrElse(site.orgUrl, wp.url))),
       ("image", JStr(site.logoUrl)),
       ("address", PostalAddress(geo)),
       ("geo", Tagged("GeoCoordinates", [("addressCountry", JStr(geo.country))])),
       ("areaServed", JArr([Tagged("City", [("name", JStr(geo.location))]),
                            Tagged("AdministrativeArea", [("name", JStr(geo.region))])])),
       ("priceRange", JStr("$$")),
       ("openingHoursSpecification", Tagged("OpeningHoursSpecification",
          [("dayOfWeek", JArr(Strs(["Monday", "Tuesday", "Wednesday", "Thursday", "Friday"]))),
           ("opens", JStr("09:00")), ("closes", JStr("17:00"))]))]))
  }

  // ---------------------------------------------------------------------------
  // What the builders read from the article body

  /** `/<ol>[\s\S]*?<\/ol>/`: an `<ol>` that a later `</ol>` closes. */
  predicate HasOrderedList(html: string)
    decreases |html|
  {
    html != [] && ((HasPrefix(html, "<ol>") && Contains(html[4..], "</ol>")) || HasOrderedList(html[1..]))
  }

  predicate IsStepHeading(h: string) {
    Contains(ToLower(h), "step") || Contains(ToLower(h), "how to")
  }

  /** Whether the article reads as instructions: a numbered list, or a heading about steps. */
  predicate HasSteps(html: string, headings: seq<string>) {
    HasOrderedList(html) || exists k :: 0 <= k < |headings| && IsStepHeading(headings[k])
  }

  /** Words of the body once its tags are replaced by spaces. */
  function BodyWordCount(html: string): nat {
    |Words(StripTags(html, 1))|
  }

  /** `Math.ceil(words / 200)`. */
  function ReadingTimeMinutes(words: nat): (m: nat)
    ensures words <= m * WordsPerMinute < words + WordsPerMinute
  {
    (words + WordsPerMinute - 1) / WordsPerMinute
  }

  /** The ISO 8601 duration of a whole number of minutes. */
  function Duration(minutes: nat): string {
    "PT" + NatToString(minutes) + "M"
  }

  // ---------------------------------------------------------------------------
  // Article

  /** `/news|update|launch|report|alert|review|202\d/i` on the title. */
  predicate IsNewsTitle(title: string) {
    var t := ToLower(title);
    Contains(t, "news") || Contains(t, "update") || Contains(t, "launch") || Contains(t, "report") ||
    Contains(t, "alert") || Contains(t, "review") || HasYear202x(t)
  }

  predicate HasYear202x(t: string)
    decreases |t|
  {
    t != [] && ((HasPrefix(t, "202") && |t| > 3 && '0' <= t[3] <= '9') || HasYear202x(t[1..]))
  }

  function ImageObjects(images: seq<ImageDetail>): seq<Json> {
    if images == [] then []
    else
      var img := images[0];
      (if img.generatedImageSrc.Some? && img.generatedImageSrc.value != [] then
         [Tagged("ImageObject", [("url", JStr(img.generatedImageSrc.value)), ("caption", JStr(img.altText))])]
       else [])
      + ImageObjects(images[1..])
  }

  function NonEmpty(ss: seq<string>): seq<string> {
    if ss == [] then [] else (if ss[0] != [] then [ss[0]] else []) + NonEmpty(ss[1..])
  }

  function SectionUrl(articleUrl: string, index: nat): string {
    articleUrl + "#section-" + NatToString(index + 1)
  }

  function Sections(articleUrl: string, headings: seq<string>): seq<Json> {
    seq(|headings|, i requires 0 <= i < |headings| =>
      Tagged("WebPageElement", [("@id", JStr(SectionUrl(articleUrl, i))), ("name", JStr(headings[i]))]))
  }

  function Citation(ref: Reference): Json {
    Tagged("CreativeWork", [("name", JStr(ref.title)), ("url", JStr(ref.url)),
      ("author", Tagged("Organization", [("name", JStr(ref.source))]))])
  }

  /** The article's first thirteen members: what it is, what it is about, when and by whom it was published. */
  function ArticleDescription(c: GeneratedContent, org: Json, person: Json, articleUrl: string, today: string): (r: seq<(string, Json)>)
    ensures |r| == 13
  {
    [("@id", JStr(articleUrl + "#article")),
     ("mainEntityOfPage", Tagged("WebPage", [("@id", JStr(articleUrl))])),
     ("headline", JStr(c.title)),
     ("description", JStr(c.metaDescription)),
     ("about", Tagged("Thing", [("name", JStr(c.primaryKeyword)), ("sameAs", JStr(WikiUrl(c.primaryKeyword)))])),
     ("mentions", JArr(CreateEntityMentions(c.semanticKeywords))),
     ("image", JArr(ImageObjects(c.imageDetails))),
     ("datePublished", JStr(today)),
     ("dateModified", JStr(today)),
     ("author", person),
     ("publisher", org),
     ("keywords", JStr(JoinWith(", ", NonEmpty([c.primaryKeyword] + c.semanticKeywords)))),
     ("articleSection", JStr(c.primaryKeyword))]
  }

  /** All members of the article but its `@type`. */
  function ArticleMembers(c: GeneratedContent, org: Json, person: Json, articleUrl: string, today: string,
                          words: nat, headings: seq<string>): (r: seq<(string, Json)>)
    ensures |r| >= 18 && r[13] == ("wordCount", JNum(words)) && r[14] == ("timeRequired", JStr(Duration(ReadingTimeMinutes(words))))
  {
    ArticleDescription(c, org, person, articleUrl, today)
    + [("wordCount", JNum(words)),
       ("timeRequired", JStr(Duration(ReadingTimeMinutes(words)))),
       ("inLanguage", JStr("en-US")),
       ("isAccessibleForFree", JBool(true)),
       ("speakable", Tagged("SpeakableSpecification", [("cssSelector", JArr(Strs(["h1", "h2", "h3"])))]))]
    + Member("hasPart", if |headings| > 0 then Some(JArr(Sections(articleUrl, headings))) else None)
    + Member("citation", if |c.references| > 0 then
        Some(JArr(seq(|c.references|, i requires 0 <= i < |c.references| => Citation(c.references[i])))) else None)
  }

  function CreateArticleSchema(c: GeneratedContent, org: Json, person: Json, articleUrl: string, today: string): (r: Json)
    ensures r.JObj? && TypeOf(r) == (if IsNewsTitle(c.title) then "NewsArticle" else "BlogPosting")
  {
    Tagged(if IsNewsTitle(c.title) then "NewsArticle" else "BlogPosting",
      ArticleMembers(c, org, person, articleUrl, today, BodyWordCount(c.content), H2Headings(c.content)))
  }

  /** The members the graph adds to the article when it is geo-targeted. */
  function GeoMembers(geo: GeoTargeting): seq<(string, Json)> {
    [("contentLocation", Tagged("Place", [("name", JStr(geo.location)),
        ("address", Tagged("PostalAddress",
          [("addressLocality", JStr(geo.location)), ("addressRegion", JStr(geo.region)),
           ("addressCountry", JStr(geo.country)), ("postalCode", JStr(geo.postalCode))]))])),
     ("spatialCoverage", Tagged("Place", [("name", JStr(geo.location))]))]
  }

  // ---------------------------------------------------------------------------
  // Breadcrumb trail, FAQ page, how-to, videos

  /** The category page of a keyword: lower-cased, `\s` runs turned into `-`. */
  function CategoryPath(keyword: string): string {
    ReplaceSpaceRuns(ToLower(keyword), "-")
  }

  function Crumb(position: nat, name: string, item: string): Json {
    Tagged("ListItem", [("position", JNum(position)), ("name", JStr(name)), ("item", JStr(item))])
  }

  function CreateBreadcrumbSchema(c: GeneratedContent, wp: WpConfig, articleUrl: string): (r: Json)
    ensures TypeOf(r) == "BreadcrumbList"
  {
    Tagged("BreadcrumbList",
      [("@id", JStr(articleUrl + "#breadcrumb")),
       ("itemListElement", JArr([
          Crumb(1, "Home", wp.url),
          Crumb(2, c.primaryKeyword, wp.url + "/category/" + CategoryPath(c.primaryKeyword)),
          Crumb(3, c.title, articleUrl)]))])
  }

  /** An FAQ entry with both a question and an answer. */
  predicate IsAnswered(f: Faq) {
    f.question != [] && f.answer != []
  }

  /** The answered entries, in order. */
  function Answered(fs: seq<Faq>): (r: seq<Faq>)
    ensures |r| <= |fs|
    ensures forall f :: f in r <==> f in fs && IsAnswered(f)
    ensures (forall k :: 0 <= k < |fs| ==> IsAnswered(fs[k])) ==> r == fs
  {
    if fs == [] then [] else (if IsAnswered(fs[0]) then [fs[0]] else []) + Answered(fs[1..])
  }

  function Question(f: Faq): Json {
    Tagged("Question", [("name", JStr(f.question)), ("acceptedAnswer", Tagged("Answer", [("text", JStr(f.answer))]))])
  }

  function Questions(fs: seq<Faq>): (r: seq<Json>)
    ensures |r| == |fs| && forall i :: 0 <= i < |fs| ==> r[i] == Question(fs[i])
  {
    seq(|fs|, i requires 0 <= i < |fs| => Question(fs[i]))
  }

  /** `None` stands for `null`; `faqData` is `None` when it is not an array. */
  function CreateFaqSchema(faqData: Option<seq<Faq>>): (r: Option<Json>)
    ensures r.Some? <==> faqData.Some? && Answered(faqData.value) != []
    ensures r.Some? ==> TypeOf(r.value) == "FAQPage"
  {
    if faqData.None? || faqData.value == [] then None
    else
      var main := Questions(Answered(faqData.value));
      if main == [] then None else Some(Tagged("FAQPage", [("mainEntity", JArr(main))]))
  }

  function HowToStep(heading: string, index: nat, articleUrl: string): Json {
    Tagged("HowToStep", [("position", JNum(index + 1)), ("name", JStr(heading)), ("text", JStr(heading)),
                         ("url", JStr(SectionUrl(articleUrl, index)))])
  }

  function HowToSteps(headings: seq<string>, articleUrl: string): (r: seq<Json>)
    ensures |r| == |headings|
  {
    seq(|headings|, i requires 0 <= i < |headings| => HowToStep(headings[i], i, articleUrl))
  }

  function CreateHowToSchema(c: GeneratedContent, articleUrl: string): (r: Option<Json>)
    ensures r.Some? <==> HasSteps(c.content, H2Headings(c.content)) && |H2Headings(c.content)| >= MinSteps
    ensures r.Some? ==> TypeOf(r.value) == "HowTo"
  {
    HowToFrom(c, articleUrl, H2Headings(c.content))
  }

  /** The how-to node built from the article's `h2` texts. */
  function HowToFrom(c: GeneratedContent, articleUrl: string, headings: seq<string>): (r: Option<Json>)
    ensures r.Some? <==> HasSteps(c.content, headings) && |headings| >= MinSteps
    ensures r.Some? ==> TypeOf(r.value) == "HowTo"
  {
    if !HasSteps(c.content, headings) || |headings| < MinSteps then None
    else
      var kept := if |headings| <= MaxSteps then headings else headings[..MaxSteps];
      Some(Tagged("HowTo",
        [("@id", JStr(articleUrl + "#howto")),
         ("name", JStr(c.title)),
         ("description", JStr(c.metaDescription)),
         ("totalTime", JStr(Duration(ReadingTimeMinutes(BodyWordCount(c.content))))),
         ("step", JArr(HowToSteps(kept, articleUrl)))]))
  }

  function VideoObject(c: GeneratedContent, articleUrl: string, today: string, index: nat, id: string): Json {
    Tagged("VideoObject",
      [("@id", JStr(articleUrl + "#video-" + NatToString(index + 1))),
       ("name", JStr("Video: " + OrElse(c.title, "Related Video") + " - Part " + NatToString(index + 1))),
       ("description", JStr(c.metaDescription)),
       ("thumbnailUrl", JStr("https://i.ytimg.com/vi/" + id + "/maxresdefault.jpg")),
       ("uploadDate", JStr(today)),
       ("contentUrl", JStr("https://www.youtube.com/watch?v=" + id)),
       ("embedUrl", JStr("https://www.youtube.com/embed/" + id)),
       ("inLanguage", JStr("en-US"))])
  }

  /** The `index`-th video is numbered `index + 1` in its `@id` and points at the video `id` by its watch and embed addresses. */
  lemma VideoObjectShape(c: GeneratedContent, articleUrl: string, today: string, index: nat, id: string)
    ensures var v := VideoObject(c, articleUrl, today, index, id);
      TypeOf(v) == "VideoObject" &&
      Get(v, "@id") == Some(JStr(articleUrl + "#video-" + NatToString(index + 1))) &&
      Get(v, "contentUrl") == Some(JStr("https://www.youtube.com/watch?v=" + id)) &&
      Get(v, "embedUrl") == Some(JStr("https://www.youtube.com/embed/" + id))
  {
    var fields := VideoObject(c, articleUrl, today, index, id).fields;
    LookupFound(fields, 1, "@id");
    LookupFound(fields, 6, "contentUrl");
    LookupFound(fields, 7, "embedUrl");
  }

  /** One video object per embedded video, in order, or `None` (for `null`) when there is none. */
  function VideoSchemas(c: GeneratedContent, articleUrl: string, today: string): (r: Option<seq<Json>>)
    ensures r.Some? <==> VideoIds(c.content) != []
    ensures r.Some? ==> |r.value| == |VideoIds(c.content)| && forall k :: 0 <= k < |r.value| ==> TypeOf(r.value[k]) == "VideoObject"
  {
    var ids := VideoIds(c.content);
    if ids == [] then None
    else Some(seq(|ids|, i requires 0 <= i < |ids| => VideoObject(c, articleUrl, today, i, ids[i])))
  }

  /**
   * The k-th video object is numbered k + 1 in its `@id` and points at the
   * k-th captured id by its watch and embed addresses.
   */
  lemma VideoSchemasObjects(c: GeneratedContent, articleUrl: string, today: string, k: nat)
    requires VideoSchemas(c, articleUrl, today).Some? && k < |VideoSchemas(c, articleUrl, today).value|
    ensures var v, id := VideoSchemas(c, articleUrl, today).value[k], VideoIds(c.content)[k];
      TypeOf(v) == "VideoObject" &&
      Get(v, "@id") == Some(JStr(articleUrl + "#video-" + NatToString(k + 1))) &&
      Get(v, "contentUrl") == Some(JStr("https://www.youtube.com/watch?v=" + id)) &&
      Get(v, "embedUrl") == Some(JStr("https://www.youtube.com/embed/" + id))
  {
    VideoObjectShape(c, articleUrl, today, k, VideoIds(c.content)[k]);
  }

  /** `createVideoObjectSchemas`: the objects are pushed one per match. */
  method CreateVideoObjectSchemas(c: GeneratedContent, articleUrl: string, today: string) returns (r: Option<seq<Json>>)
    ensures r == VideoSchemas(c, articleUrl, today)
  {
    var ids := VideoIds(c.content);
    var schemas: seq<Json> := [];
    var index := 0;
    while index < |ids|
      invariant index <= |ids|
      invariant schemas == seq(index, k requires 0 <= k < index => VideoObject(c, articleUrl, today, k, ids[k]))
    {
      schemas := schemas + [VideoObject(c, articleUrl, today, index, ids[index])];
      index := index + 1;
    }
    r := if |schemas| > 0 then Some(schemas) else None;
  }

  // ---------------------------------------------------------------------------
  // The graph

  /** The site address without its trailing `/`s. */
  function TrimSlashes(url: string): (r: string)
    ensures |r| <= |url| && r == url[..|r|]
    ensures forall k :: |r| <= k < |url| ==> url[k] == '/'
    ensures r == [] || r[|r| - 1] != '/'
  {
    if url != [] && url[|url| - 1] == '/' then
      var r := TrimSlashes(url[..|url| - 1]);
      assert url[..|url| - 1][..|r|] == url[..|r|];
      r
    else url
  }

  function ArticleUrl(wp: WpConfig, slug: string): string {
    TrimSlashes(wp.url) + "/" + slug
  }

  /** Whether the graph gets a place for the article and a local business. */
  predicate GeoOn(geo: Option<GeoTargeting>) {
    geo.Some? && geo.value.enabled && geo.value.location != []
  }

  function Graph(g: seq<Json>): Json {
    JObj([("@context", JStr("https://schema.org")), ("@graph", JArr(g))])
  }

  function OptionPart<T>(o: Option<T>): (r: seq<T>)
    ensures |r| <= 1
  {
    if o.Some? then [o.value] else []
  }

  function ListPart<T>(nodes: Option<seq<T>>): seq<T> {
    if nodes.Some? then nodes.value else []
  }

  /** `schemas.push(node)` for a node that is not `null`. */
  method PushPresent<T>(schemas: seq<T>, node: Option<T>) returns (r: seq<T>)
    ensures r == schemas + OptionPart(node)
  {
    r := schemas;
    if node.Some? {
      r := r + [node.value];
    }
  }

  /** `schemas.push(...nodes)` for a list that is not `null`. */
  method PushAllPresent<T>(schemas: seq<T>, nodes: Option<seq<T>>) returns (r: seq<T>)
    ensures r == schemas + ListPart(nodes)
  {
    r := schemas;
    if nodes.Some? {
      r := r + nodes.value;
    }
  }

  /** The graph's nodes in push order, from the nodes themselves. */
  function Assemble(org: Json, person: Json, website: Json, local: Option<Json>, article: Json, breadcrumb: Json,
                    faq: Option<Json>, howTo: Option<Json>, videos: Option<seq<Json>>): (r: seq<Json>)
    ensures |r| >= 5
  {
    [] + [org] + [person] + [website] + OptionPart(local) + [article] + [breadcrumb] + OptionPart(faq) + OptionPart(howTo) + ListPart(videos)
  }

  /** The article, with a place attached when it is geo-targeted. */
  function ArticleNode(article: Json, geo: Option<GeoTargeting>): (r: Json)
    requires article.JObj?
    ensures r.JObj? && TypeOf(r) == TypeOf(article)
  {
    if GeoOn(geo) then
      LookupAppend(article.fields, GeoMembers(geo.value), "@type");
      LookupSpec(GeoMembers(geo.value), "@type");
      JObj(article.fields + GeoMembers(geo.value))
    else article
  }

  /** The nodes of the graph, in the order they are pushed. */
  function FullGraph(c: GeneratedContent, wp: WpConfig, site: SiteInfo, faqData: Option<seq<Faq>>,
                     geo: Option<GeoTargeting>, today: string): seq<Json>
  {
    var url := ArticleUrl(wp, c.slug);
    var org := CreateOrganizationSchema(site, wp);
    var person := CreatePersonSchema(site, c.primaryKeyword);
    Assemble(org, person, CreateWebSiteSchema(wp, org),
      if GeoOn(geo) then CreateLocalBusinessSchema(site, geo.value, wp) else None,
      ArticleNode(CreateArticleSchema(c, org, person, url, today), geo),
      CreateBreadcrumbSchema(c, wp, url),
      if faqData.Some? && |faqData.value| > 0 then CreateFaqSchema(faqData) else None,
      CreateHowToSchema(c, url),
      VideoSchemas(c, url, today))
  }

  /** `generateFullSchema`: the graph is collected by pushing one node after the other. */
  method GenerateFullSchema(c: GeneratedContent, wp: WpConfig, site: SiteInfo, faqData: Option<seq<Faq>>,
                            geo: Option<GeoTargeting>, today: string) returns (r: Json)
    ensures r == Graph(FullGraph(c, wp, site, faqData, geo, today))
  {
    var url := ArticleUrl(wp, c.slug);
    var schemas: seq<Json> := [];
    var org := CreateOrganizationSchema(site, wp);
    schemas := schemas + [org];
    var person := CreatePersonSchema(site, c.primaryKeyword);
    schemas := schemas + [person];
    var website := CreateWebSiteSchema(wp, org);
    schemas := schemas + [website];
    var article := CreateArticleSchema(c, org, person, url, today);
    var localBusiness: Option<Json> := None;
    if GeoOn(geo) {
      article := JObj(article.fields + GeoMembers(geo.value));
      localBusiness := CreateLocalBusinessSchema(site, geo.value, wp);
    }
    schemas := PushPresent(schemas, localBusiness);
    schemas := schemas + [article];
    var breadcrumb := CreateBreadcrumbSchema(c, wp, url);
    schemas := schemas + [breadcrumb];
    var faq: Option<Json> := None;
    if faqData.Some? && |faqData.value| > 0 {
      faq := CreateFaqSchema(faqData);
    }
    schemas := PushPresent(schemas, faq);
    var howTo := CreateHowToSchema(c, url);
    schemas := PushPresent(schemas, howTo);
    var videos := CreateVideoObjectSchemas(c, url, today);
    schemas := PushAllPresent(schemas, videos);
    r := Graph(schemas);
  }

  // ---------------------------------------------------------------------------
  // The WordPress block

  const MarkupOpen: string := "\n\n<!-- wp:html -->\n<script type=\"application/ld+json\">\n"
  const MarkupClose: string := "\n</script>\n<!-- /wp:html -->\n\n"

  /** Reading `length` of a `null` graph throws a `TypeError`. */
  datatype MarkupError = GraphIsNull

  /** Whether `v.length === 0` holds for the value of `@graph`. */
  predicate LengthIsZero(v: Json) {
    match v
    case JArr(items) => items == []
    case JStr(s) => s == []
    case JObj(fields) => Lookup(fields, "length") == Some(JNum(0))
    case _ => false
  }

  function GenerateSchemaMarkup(obj: Json): (r: Result<string, MarkupError>)
  {
    if !obj.JObj? then Success("")
    else match Lookup(obj.fields, "@graph")
      case None => Success("")
      case Some(JNull) => Failure(GraphIsNull)
      case Some(g) =>
        if LengthIsZero(g) then Success("")
        else Success(MarkupOpen + Stringify(obj, 0) + MarkupClose)
  }

  // ---------------------------------------------------------------------------
  // Properties

  /** One `Thing` per keyword, in order, named after the keyword and pointing at its Wikipedia address. */
  lemma EntityMentionsShape(keywords: seq<string>)
    ensures var r := CreateEntityMentions(keywords);
      |r| == |keywords| &&
      forall i :: 0 <= i < |keywords| ==>
        TypeOf(r[i]) == "Thing" && Get(r[i], "name") == Some(JStr(keywords[i])) &&
        Get(r[i], "sameAs") == Some(JStr(WikiUrl(keywords[i])))
  {
    var r := CreateEntityMentions(keywords);
    forall i | 0 <= i < |keywords|
      ensures TypeOf(r[i]) == "Thing" && Get(r[i], "name") == Some(JStr(keywords[i])) &&
        Get(r[i], "sameAs") == Some(JStr(WikiUrl(keywords[i])))
    {
      var fields := r[i].fields;
      LookupFound(fields, 1, "name");
      LookupFound(fields, 2, "sameAs");
    }
  }

  /** The category path is lower-case and free of whitespace, and a path of that form is its own category path. */
  lemma CategoryPathShape(keyword: string)
    ensures NoUpper(CategoryPath(keyword)) && NoJsSpace(CategoryPath(keyword))
    ensures NoUpper(keyword) && NoJsSpace(keyword) ==> CategoryPath(keyword) == keyword
  {
    LowerNoUpper(keyword);
    NoUpperAfterDashes(ToLower(keyword));
    if NoUpper(keyword) {
      var lowered := ToLower(keyword);
      forall i | 0 <= i < |keyword| ensures lowered[i] == keyword[i] {
        assert lowered[i] == LowerChar(keyword[i]);
      }
      assert lowered == keyword;
    }
  }

  /** Each `\s` run of the keyword becomes one `-` of the path, and the text before it is lower-cased. */
  lemma CategoryPathRun(a: string, run: string, b: string)
    requires NoJsSpace(a) && IsSpaceRun(run) && (b == [] || !IsJsSpace(b[0]))
    ensures CategoryPath(a + run + b) == ToLower(a) + "-" + CategoryPath(b)
  {
    var la, lr, lb := ToLower(a), ToLower(run), ToLower(b);
    ToLowerAppend(a + run, b);
    ToLowerAppend(a, run);
    assert NoJsSpace(la) by {
      forall i | 0 <= i < |la| ensures !IsJsSpace(la[i]) {
        assert la[i] == LowerChar(a[i]);
      }
    }
    assert IsSpaceRun(lr) by {
      forall i | 0 <= i < |lr| ensures IsJsSpace(lr[i]) {
        assert lr[i] == LowerChar(run[i]);
      }
    }
    assert lb == [] || !IsJsSpace(lb[0]) by {
      if lb != [] {
        assert lb[0] == LowerChar(b[0]);
      }
    }
    ReplaceSpaceRunsStep(la, lr, lb, "-");
  }

  lemma CrumbShape(position: nat, name: string, item: string)
    ensures var r := Crumb(position, name, item);
      TypeOf(r) == "ListItem" && Get(r, "position") == Some(JNum(position)) &&
      Get(r, "name") == Some(JStr(name)) && Get(r, "item") == Some(JStr(item))
  {
    var fields := Crumb(position, name, item).fields;
    LookupFound(fields, 1, "position");
    LookupFound(fields, 2, "name");
    LookupFound(fields, 3, "item");
  }

  /**
   * The trail always has three items, at positions 1, 2 and 3 (see
   * `CrumbShape`): the home page, the keyword's category page and the
   * article itself.
   */
  lemma BreadcrumbTrail(c: GeneratedContent, wp: WpConfig, articleUrl: string)
    ensures var r := CreateBreadcrumbSchema(c, wp, articleUrl);
      TypeOf(r) == "BreadcrumbList" &&
      Get(r, "itemListElement").Some? && Get(r, "itemListElement").value.JArr? &&
      var items := Get(r, "itemListElement").value.items;
      |items| == 3 &&
      items[0] == Crumb(1, "Home", wp.url) &&
      items[1] == Crumb(2, c.primaryKeyword, wp.url + "/category/" + CategoryPath(c.primaryKeyword)) &&
      items[2] == Crumb(3, c.title, articleUrl)
  {
    var r := CreateBreadcrumbSchema(c, wp, articleUrl);
    LookupFound(r.fields, 2, "itemListElement");
  }

  /** Filtering distributes over concatenation: the answered entries keep their order. */
  lemma {:induction false} AnsweredAppend(a: seq<Faq>, b: seq<Faq>)
    ensures Answered(a + b) == Answered(a) + Answered(b)
  {
    if a == [] {
      assert a + b == b;
    } else {
      assert (a + b)[0] == a[0];
      assert (a + b)[1..] == a[1..] + b;
      AnsweredAppend(a[1..], b);
      var head := if IsAnswered(a[0]) then [a[0]] else [];
      Assoc(head, Answered(a[1..]), Answered(b));
    }
  }

  lemma QuestionShape(f: Faq)
    ensures var q := Question(f);
      TypeOf(q) == "Question" && Get(q, "name") == Some(JStr(f.question)) &&
      Get(q, "acceptedAnswer").Some? && TypeOf(Get(q, "acceptedAnswer").value) == "Answer" &&
      Get(Get(q, "acceptedAnswer").value, "text") == Some(JStr(f.answer))
  {
    var q := Question(f);
    LookupFound(q.fields, 1, "name");
    LookupFound(q.fields, 2, "acceptedAnswer");
    LookupFound(Get(q, "acceptedAnswer").value.fields, 1, "text");
  }

  /**
   * No FAQ page for a missing list or one without an answered entry;
   * otherwise one question per answered entry, in order.
   */
  lemma FaqPageShape(faqData: Option<seq<Faq>>)
    ensures var r := CreateFaqSchema(faqData);
      (r.None? <==> faqData.None? || Answered(faqData.value) == []) &&
      (r.Some? ==>
        Get(r.value, "mainEntity").Some? && Get(r.value, "mainEntity").value.JArr? &&
        var main := Get(r.value, "mainEntity").value.items;
        var kept := Answered(faqData.value);
        |main| == |kept| && forall i :: 0 <= i < |kept| ==> main[i] == Question(kept[i]))
  {
    var r := CreateFaqSchema(faqData);
    if r.Some? {
      LookupFound(r.value.fields, 1, "mainEntity");
    }
  }

  lemma HowToStepShape(heading: string, index: nat, articleUrl: string)
    ensures var s := HowToStep(heading, index, articleUrl);
      TypeOf(s) == "HowToStep" && Get(s, "position") == Some(JNum(index + 1)) &&
      Get(s, "name") == Some(JStr(heading)) && Get(s, "url") == Some(JStr(SectionUrl(articleUrl, index)))
  {
    var fields := HowToStep(heading, index, articleUrl).fields;
    LookupFound(fields, 1, "position");
    LookupFound(fields, 2, "name");
    LookupFound(fields, 4, "url");
  }

  /**
   * A how-to exists exactly for instructional bodies with at least three
   * `h2` headings; its steps are the first eight headings, numbered from 1
   * (see `HowToStepShape`), and its total time is the reading time.
   */
  lemma HowToShape(c: GeneratedContent, articleUrl: string)
    ensures var r := CreateHowToSchema(c, articleUrl);
      var headings := H2Headings(c.content);
      (r.None? <==> !HasSteps(c.content, headings) || |headings| < MinSteps) &&
      (r.Some? ==>
        Get(r.value, "totalTime") == Some(JStr(Duration(ReadingTimeMinutes(BodyWordCount(c.content))))) &&
        Get(r.value, "step").Some? && Get(r.value, "step").value.JArr? &&
        var steps := Get(r.value, "step").value.items;
        |steps| == (if |headings| < MaxSteps then |headings| else MaxSteps) &&
        forall i :: 0 <= i < |steps| ==> steps[i] == HowToStep(headings[i], i, articleUrl))
  {
    HowToFromShape(c, articleUrl, H2Headings(c.content));
  }

  lemma HowToFromShape(c: GeneratedContent, articleUrl: string, headings: seq<string>)
    ensures var r := HowToFrom(c, articleUrl, headings);
      (r.None? <==> !HasSteps(c.content, headings) || |headings| < MinSteps) &&
      (r.Some? ==>
        Get(r.value, "totalTime") == Some(JStr(Duration(ReadingTimeMinutes(BodyWordCount(c.content))))) &&
        Get(r.value, "step").Some? && Get(r.value, "step").value.JArr? &&
        var steps := Get(r.value, "step").value.items;
        |steps| == (if |headings| < MaxSteps then |headings| else MaxSteps) &&
        forall i :: 0 <= i < |steps| ==> steps[i] == HowToStep(headings[i], i, articleUrl))
  {
    var r := HowToFrom(c, articleUrl, headings);
    if r.Some? {
      LookupFound(r.value.fields, 4, "totalTime");
      LookupFound(r.value.fields, 5, "step");
    }
  }

  /** The article states its word count and, as an ISO 8601 duration, its reading time, after its 13 leading members. */
  lemma ArticleReadingTime(c: GeneratedContent, org: Json, person: Json, articleUrl: string, today: string)
    ensures var r := CreateArticleSchema(c, org, person, articleUrl, today);
      var words := BodyWordCount(c.content);
      |r.fields| > 15 &&
      r.fields[14] == ("wordCount", JNum(words)) &&
      r.fields[15] == ("timeRequired", JStr(Duration(ReadingTimeMinutes(words))))
  {
    var t := if IsNewsTitle(c.title) then "NewsArticle" else "BlogPosting";
    var words := BodyWordCount(c.content);
    var members := ArticleMembers(c, org, person, articleUrl, today, words, H2Headings(c.content));
    TaggedAt(t, members, 13);
    TaggedAt(t, members, 14);
  }

  /**
   * The `@type`s of the graph's nodes in the order the graph is meant to
   * list them, given the article's type, which optional nodes are present
   * and how many videos there are.
   */
  function TypesInOrder(articleType: string, geoOn: bool, faqOn: bool, howToOn: bool, videos: nat): seq<string> {
    ["Organization"] + ["Person"] + ["WebSite"]
    + (if geoOn then ["LocalBusiness"] else [])
    + [articleType] + ["BreadcrumbList"]
    + (if faqOn then ["FAQPage"] else [])
    + (if howToOn then ["HowTo"] else [])
    + Repeat("VideoObject", videos)
  }

  /** The `@type`s the graph of an article is meant to list. */
  function ExpectedTypes(c: GeneratedContent, faqData: Option<seq<Faq>>, geo: Option<GeoTargeting>): seq<string> {
    var headings := H2Headings(c.content);
    TypesInOrder(if IsNewsTitle(c.title) then "NewsArticle" else "BlogPosting",
      GeoOn(geo),
      faqData.Some? && Answered(faqData.value) != [],
      HasSteps(c.content, headings) && |headings| >= MinSteps,
      |VideoIds(c.content)|)
  }

  function Repeat(s: string, n: nat): (r: seq<string>)
    ensures |r| == n && forall k :: 0 <= k < n ==> r[k] == s
  {
    if n == 0 then [] else [s] + Repeat(s, n - 1)
  }

  /** The `@type` of a node that may be absent, as a list of zero or one. */
  function OptType(o: Option<Json>): seq<string> {
    if o.Some? then [TypeOf(o.value)] else []
  }

  /** Nodes that all have the same `@type` list that type once per node. */
  lemma {:induction false} TypesOfUniform(vs: seq<Json>, t: string)
    requires forall k :: 0 <= k < |vs| ==> TypeOf(vs[k]) == t
    ensures TypesOf(vs) == Repeat(t, |vs|)
  {
    var types := TypesOf(vs);
    var expected := Repeat(t, |vs|);
    forall k | 0 <= k < |vs| ensures types[k] == expected[k] {
    }
  }

  /** The types of the assembled graph are the nodes' types, in push order. */
  lemma {:induction false} AssembleTypes(org: Json, person: Json, website: Json, local: Option<Json>, article: Json, breadcrumb: Json,
                                         faq: Option<Json>, howTo: Option<Json>, videos: Option<seq<Json>>)
    ensures TypesOf(Assemble(org, person, website, local, article, breadcrumb, faq, howTo, videos)) ==
      [TypeOf(org)] + [TypeOf(person)] + [TypeOf(website)] + OptType(local) + [TypeOf(article)] + [TypeOf(breadcrumb)]
      + OptType(faq) + OptType(howTo) + TypesOf(ListPart(videos))
  {
    var s0 := [] + [org];
    var s1 := s0 + [person];
    var s2 := s1 + [website];
    var s3 := s2 + OptionPart(local);
    var s4 := s3 + [article];
    var s5 := s4 + [breadcrumb];
    var s6 := s5 + OptionPart(faq);
    var s7 := s6 + OptionPart(howTo);
    assert TypesOf(s0) == [TypeOf(org)];
    TypesOfAppend(s0, [person]);
    assert TypesOf([person]) == [TypeOf(person)];
    TypesOfAppend(s1, [website]);
    assert TypesOf([website]) == [TypeOf(website)];
    TypesOfAppend(s2, OptionPart(local));
    assert TypesOf(OptionPart(local)) == OptType(local);
    TypesOfAppend(s3, [article]);
    assert TypesOf([article]) == [TypeOf(article)];
    TypesOfAppend(s4, [breadcrumb]);
    assert TypesOf([breadcrumb]) == [TypeOf(breadcrumb)];
    TypesOfAppend(s5, OptionPart(faq));
    assert TypesOf(OptionPart(faq)) == OptType(faq);
    TypesOfAppend(s6, OptionPart(howTo));
    assert TypesOf(OptionPart(howTo)) == OptType(howTo);
    TypesOfAppend(s7, ListPart(videos));
  }

  /** Nodes of the right types, present as the flags say, are listed in the intended order. */
  lemma AssembleInOrder(org: Json, person: Json, website: Json, local: Option<Json>, article: Json, breadcrumb: Json,
                        faq: Option<Json>, howTo: Option<Json>, videos: Option<seq<Json>>,
                        articleType: string, geoOn: bool, faqOn: bool, howToOn: bool, n: nat)
    requires TypeOf(org) == "Organization" && TypeOf(person) == "Person" && TypeOf(website) == "WebSite"
    requires TypeOf(article) == articleType && TypeOf(breadcrumb) == "BreadcrumbList"
    requires (local.Some? <==> geoOn) && (local.Some? ==> TypeOf(local.value) == "LocalBusiness")
    requires (faq.Some? <==> faqOn) && (faq.Some? ==> TypeOf(faq.value) == "FAQPage")
    requires (howTo.Some? <==> howToOn) && (howTo.Some? ==> TypeOf(howTo.value) == "HowTo")
    requires |ListPart(videos)| == n && forall k :: 0 <= k < n ==> TypeOf(ListPart(videos)[k]) == "VideoObject"
    ensures TypesOf(Assemble(org, person, website, local, article, breadcrumb, faq, howTo, videos)) ==
      TypesInOrder(articleType, geoOn, faqOn, howToOn, n)
  {
    AssembleTypes(org, person, website, local, article, breadcrumb, faq, howTo, videos);
    TypesOfUniform(ListPart(videos), "VideoObject");
    assert OptType(local) == (if geoOn then ["LocalBusiness"] else []);
    assert OptType(faq) == (if faqOn then ["FAQPage"] else []);
    assert OptType(howTo) == (if howToOn then ["HowTo"] else []);
  }

  /**
   * The graph lists organization, author and site, the local business when
   * geo-targeted, the article, the breadcrumb trail, then the FAQ page,
   * the how-to and the videos when there are any.
   */
  lemma GraphOrder(c: GeneratedContent, wp: WpConfig, site: SiteInfo, faqData: Option<seq<Faq>>,
                   geo: Option<GeoTargeting>, today: string)
    ensures TypesOf(FullGraph(c, wp, site, faqData, geo, today)) == ExpectedTypes(c, faqData, geo)
  {
    var url := ArticleUrl(wp, c.slug);
    var org := CreateOrganizationSchema(site, wp);
    var person := CreatePersonSchema(site, c.primaryKeyword);
    var website := CreateWebSiteSchema(wp, org);
    var local := if GeoOn(geo) then CreateLocalBusinessSchema(site, geo.value, wp) else None;
    var article := ArticleNode(CreateArticleSchema(c, org, person, url, today), geo);
    var breadcrumb := CreateBreadcrumbSchema(c, wp, url);
    var faq := if faqData.Some? && |faqData.value| > 0 then CreateFaqSchema(faqData) else None;
    var howTo, videos := CreateHowToSchema(c, url), VideoSchemas(c, url, today);
    var articleType := if IsNewsTitle(c.title) then "NewsArticle" else "BlogPosting";
    var headings := H2Headings(c.content);
    var faqOn := faqData.Some? && Answered(faqData.value) != [];
    var howToOn := HasSteps(c.content, headings) && |headings| >= MinSteps;
    assert TypeOf(org) == "Organization" && TypeOf(person) == "Person" && TypeOf(website) == "WebSite";
    assert TypeOf(article) == articleType && TypeOf(breadcrumb) == "BreadcrumbList";
    assert (local.Some? <==> GeoOn(geo)) && (local.Some? ==> TypeOf(local.value) == "LocalBusiness");
    assert (faq.Some? <==> faqOn) && (faq.Some? ==> TypeOf(faq.value) == "FAQPage");
    assert (howTo.Some? <==> howToOn) && (howTo.Some? ==> TypeOf(howTo.value) == "HowTo");
    assert |ListPart(videos)| == |VideoIds(c.content)|;
    AssembleInOrder(org, person, website, local, article, breadcrumb, faq, howTo, videos,
      articleType, GeoOn(geo), faqOn, howToOn, |VideoIds(c.content)|);
    assert FullGraph(c, wp, site, faqData, geo, today) ==
      Assemble(org, person, website, local, article, breadcrumb, faq, howTo, videos);
  }

  /** `LocalBusiness` is listed exactly when the flag for it is set, whatever the article's type. */
  lemma LocalBusinessListed(articleType: string, geoOn: bool, faqOn: bool, howToOn: bool, n: nat)
    requires articleType != "LocalBusiness"
    ensures "LocalBusiness" in TypesInOrder(articleType, geoOn, faqOn, howToOn, n) <==> geoOn
  {
    var types := TypesInOrder(articleType, geoOn, faqOn, howToOn, n);
    if !geoOn {
      var videos := Repeat("VideoObject", n);
      assert "LocalBusiness" !in videos;
    }
  }

  /** A local business is in the graph exactly when the article is geo-targeted. */
  lemma LocalBusinessInGraph(c: GeneratedContent, faqData: Option<seq<Faq>>, geo: Option<GeoTargeting>)
    ensures "LocalBusiness" in ExpectedTypes(c, faqData, geo) <==> GeoOn(geo)
  {
    var headings := H2Headings(c.content);
    LocalBusinessListed(if IsNewsTitle(c.title) then "NewsArticle" else "BlogPosting", GeoOn(geo),
      faqData.Some? && Answered(faqData.value) != [], HasSteps(c.content, headings) && |headings| >= MinSteps,
      |VideoIds(c.content)|);
  }

  /**
   * The block is empty for anything but an object with a non-empty graph,
   * fails on a `null` graph, and otherwise wraps the serialised object in a
   * custom-HTML block holding one JSON-LD script.
   */
  lemma MarkupCases(obj: Json)
    ensures var r := GenerateSchemaMarkup(obj);
      (r.Failure? <==> Get(obj, "@graph") == Some(JNull)) &&
      (r == Success("") <==> Get(obj, "@graph").None? || LengthIsZero(Get(obj, "@graph").value)) &&
      (r.Success? && r.value != "" ==> r.value == MarkupOpen + Stringify(obj, 0) + MarkupClose)
  {
  }

  /** The full graph always gets its block: it has at least five nodes. */
  lemma FullSchemaMarkup(c: GeneratedContent, wp: WpConfig, site: SiteInfo, faqData: Option<seq<Faq>>,
                         geo: Option<GeoTargeting>, today: string)
    ensures var obj := Graph(FullGraph(c, wp, site, faqData, geo, today));
      GenerateSchemaMarkup(obj) == Success(MarkupOpen + Stringify(obj, 0) + MarkupClose)
  {
    GraphMarkup(FullGraph(c, wp, site, faqData, geo, today));
  }

  lemma GraphMarkup(g: seq<Json>)
    requires g != []
    ensures GenerateSchemaMarkup(Graph(g)) == Success(MarkupOpen + Stringify(Graph(g), 0) + MarkupClose)
  {
    LookupFound(Graph(g).fields, 1, "@graph");
  }
}
