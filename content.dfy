/**
 * The generated article record and `normalizeGeneratedContent`, which fills
 * in whatever the model's JSON answer left out. A text field counts as
 * missing when it is absent or empty (JavaScript's falsy `""`); a list or an
 * object counts as missing only when it is absent, so an empty list is kept.
 */
module Content {
  import opened Wrappers
  import opened Strings
  import opened Text
  import opened Json

  datatype ImageDetail = ImageDetail(prompt: string, altText: string, title: string, placeholder: string, generatedImageSrc: Option<string>)
  datatype Strategy = Strategy(targetAudience: string, searchIntent: string, competitorAnalysis: string, contentAngle: string)
  datatype SocialMediaCopy = SocialMediaCopy(twitter: string, linkedIn: string)
  datatype Faq = Faq(question: string, answer: string)
  datatype Reference = Reference(title: string, url: string, source: string, year: int)

  datatype GeneratedContent = GeneratedContent(
    title: string,
    slug: string,
    metaDescription: string,
    primaryKeyword: string,
    semanticKeywords: seq<string>,
    content: string,
    imageDetails: seq<ImageDetail>,
    strategy: Strategy,
    jsonLdSchema: Json,
    socialMediaCopy: SocialMediaCopy,
    faqSection: seq<Faq>,
    keyTakeaways: seq<string>,
    outline: seq<string>,
    references: seq<Reference>)

  /** An entry of the answer's `imageDetails`: a bare prompt string, or a full record. */
  datatype RawImage = PromptOnly(prompt: string) | Detail(detail: ImageDetail)

  /** The parsed answer; `""` and `None` stand for the falsy values. */
  datatype RawContent = RawContent(
    title: string,
    slug: string,
    metaDescription: string,
    primaryKeyword: string,
    semanticKeywords: Option<seq<string>>,
    content: string,
    imageDetails: Option<seq<RawImage>>,
    strategy: Option<Strategy>,
    jsonLdSchema: Option<Json>,
    socialMediaCopy: Option<SocialMediaCopy>,
    faqSection: Option<seq<Faq>>,
    keyTakeaways: Option<seq<string>>,
    outline: Option<seq<string>>,
    references: Option<seq<Reference>>)

  /** The placeholder the article body carries for its `n`-th image. */
  function ImagePlaceholder(n: nat): string {
    "[IMAGE_" + NatToString(n) + "_PLACEHOLDER]"
  }

  const DefaultImagesHtml: string := "<p>" + (ImagePlaceholder(1) + ("</p><p>" + (ImagePlaceholder(2) + "</p>")))

  /** A bare prompt at position `index` becomes a numbered record. */
  function NumberedImage(prompt: string, index: nat, itemTitle: string, slugBase: string): ImageDetail {
    ImageDetail(prompt, itemTitle + " image " + NatToString(index + 1),
      slugBase + "-image-" + NatToString(index + 1), ImagePlaceholder(index + 1), None)
  }

  /** The record for the entry at position `index`. */
  function ImageAt(image: RawImage, index: nat, itemTitle: string, slugBase: string): ImageDetail {
    match image
    case PromptOnly(p) => NumberedImage(p, index, itemTitle, slugBase)
    case Detail(d) => d
  }

  function ExpandImages(images: seq<RawImage>, from: nat, itemTitle: string, slugBase: string): (r: seq<ImageDetail>)
    ensures |r| == |images|
    ensures forall i :: 0 <= i < |images| ==> r[i] == ImageAt(images[i], from + i, itemTitle, slugBase)
    decreases |images|
  {
    if images == [] then []
    else [ImageAt(images[0], from, itemTitle, slugBase)] + ExpandImages(images[1..], from + 1, itemTitle, slugBase)
  }

  /** The two images an answer without any gets: a header and an infographic. */
  function DefaultImages(itemTitle: string, slugBase: string): seq<ImageDetail> {
    [ImageDetail("High quality header image for " + itemTitle, itemTitle + " header", slugBase + "-feature", ImagePlaceholder(1), None),
     ImageDetail("Infographic for " + itemTitle, itemTitle + " infographic", slugBase + "-infographic", ImagePlaceholder(2), None)]
  }

  /**
   * The image list and the body after the image step: the entries expanded
   * in order, or, when there are none, the two defaults and the body with
   * their placeholders appended.
   */
  function NormalizeImages(given: seq<RawImage>, content: string, itemTitle: string, slugBase: string): (r: (seq<ImageDetail>, string))
    ensures |r.0| > 0
  {
    if given == [] then (DefaultImages(itemTitle, slugBase), content + DefaultImagesHtml)
    else (ExpandImages(given, 0, itemTitle, slugBase), content)
  }

  function NormalizeGeneratedContent(raw: RawContent, itemTitle: string): (r: GeneratedContent)
    ensures |r.imageDetails| > 0
    ensures r.metaDescription != []
    ensures itemTitle != [] ==> r.title != [] && r.primaryKeyword != []
  {
    var title := if raw.title != [] then raw.title else itemTitle;
    var slug := if raw.slug != [] then raw.slug else Slugify(itemTitle);
    var slugBase := if slug != [] then slug else Slugify(itemTitle);
    var images := NormalizeImages(raw.imageDetails.GetOr([]), raw.content, itemTitle, slugBase);
    GeneratedContent(
      title,
      slug,
      if raw.metaDescription != [] then raw.metaDescription else "Comprehensive guide on " + title + ".",
      if raw.primaryKeyword != [] then raw.primaryKeyword else itemTitle,
      raw.semanticKeywords.GetOr([]),
      images.1,
      images.0,
      raw.strategy.GetOr(Strategy("", "", "", "")),
      raw.jsonLdSchema.GetOr(JObj([])),
      raw.socialMediaCopy.GetOr(SocialMediaCopy("", "")),
      raw.faqSection.GetOr([]),
      raw.keyTakeaways.GetOr([]),
      raw.outline.GetOr([]),
      raw.references.GetOr([]))
  }

  // ---------------------------------------------------------------------------
  // Properties

  /** Whatever the answer supplied is kept as it was. */
  lemma GivenFieldsKept(raw: RawContent, itemTitle: string)
    ensures var r := NormalizeGeneratedContent(raw, itemTitle);
      (raw.title != [] ==> r.title == raw.title) &&
      (raw.slug != [] ==> r.slug == raw.slug) &&
      (raw.metaDescription != [] ==> r.metaDescription == raw.metaDescription) &&
      (raw.primaryKeyword != [] ==> r.primaryKeyword == raw.primaryKeyword) &&
      (raw.semanticKeywords.Some? ==> r.semanticKeywords == raw.semanticKeywords.value) &&
      (raw.strategy.Some? ==> r.strategy == raw.strategy.value) &&
      (raw.jsonLdSchema.Some? ==> r.jsonLdSchema == raw.jsonLdSchema.value) &&
      (raw.socialMediaCopy.Some? ==> r.socialMediaCopy == raw.socialMediaCopy.value) &&
      (raw.faqSection.Some? ==> r.faqSection == raw.faqSection.value) &&
      (raw.keyTakeaways.Some? ==> r.keyTakeaways == raw.keyTakeaways.value) &&
      (raw.outline.Some? ==> r.outline == raw.outline.value) &&
      (raw.references.Some? ==> r.references == raw.references.value)
  {
  }

  /**
   * A missing slug is derived from the item title and is a proper slug; the
   * meta description then mentions the title the record ends up with.
   */
  lemma DefaultsFilled(raw: RawContent, itemTitle: string)
    ensures var r := NormalizeGeneratedContent(raw, itemTitle);
      (raw.slug == [] ==> IsSlug(r.slug) && r.slug == Slugify(itemTitle)) &&
      (raw.metaDescription == [] ==> r.metaDescription == "Comprehensive guide on " + r.title + ".") &&
      (raw.title == [] ==> r.title == itemTitle) &&
      (raw.primaryKeyword == [] ==> r.primaryKeyword == itemTitle)
  {
    SlugifyIsSlug(itemTitle);
  }

  /**
   * The images, one per entry of the answer in order: bare prompts are
   * numbered from 1 by position and named after the slug, full records are
   * kept. Without any entry, two default images are listed and the body gets
   * a paragraph holding each one's placeholder.
   */
  lemma ImagesNormalized(raw: RawContent, itemTitle: string)
    ensures var r := NormalizeGeneratedContent(raw, itemTitle);
      var given := raw.imageDetails.GetOr([]);
      if given == [] then
        |r.imageDetails| == 2 && r.content == raw.content + DefaultImagesHtml &&
        Contains(r.content, r.imageDetails[0].placeholder) && Contains(r.content, r.imageDetails[1].placeholder)
      else
        |r.imageDetails| == |given| && r.content == raw.content &&
        forall i :: 0 <= i < |given| ==> r.imageDetails[i] == ImageAt(given[i], i, itemTitle, r.slug)
  {
    var given := raw.imageDetails.GetOr([]);
    if given == [] {
      DefaultPlaceholdersInBody(raw.content);
    } else {
      var slug := if raw.slug != [] then raw.slug else Slugify(itemTitle);
      var slugBase := if slug != [] then slug else Slugify(itemTitle);
      assert slugBase == slug;
    }
  }

  lemma DefaultPlaceholdersInBody(c: string)
    ensures Contains(c + DefaultImagesHtml, ImagePlaceholder(1)) && Contains(c + DefaultImagesHtml, ImagePlaceholder(2))
  {
    var p1 := ImagePlaceholder(1);
    var p2 := ImagePlaceholder(2);
    var tail := "</p><p>" + (p2 + "</p>");
    Assoc(c, "<p>", p1 + tail);
    ContainsMiddle(c + "<p>", p1, tail);
    var front := (c + "<p>") + p1;
    Assoc(c + "<p>", p1, tail);
    Assoc(front, "</p><p>", p2 + "</p>");
    ContainsMiddle(front + "</p><p>", p2, "</p>");
  }

  /** The record a normalized answer reads back as, when parsed again. */
  function AsRaw(c: GeneratedContent): RawContent {
    RawContent(c.title, c.slug, c.metaDescription, c.primaryKeyword, Some(c.semanticKeywords),
      c.content, Some(seq(|c.imageDetails|, i requires 0 <= i < |c.imageDetails| => Detail(c.imageDetails[i]))),
      Some(c.strategy), Some(c.jsonLdSchema), Some(c.socialMediaCopy), Some(c.faqSection),
      Some(c.keyTakeaways), Some(c.outline), Some(c.references))
  }

  /** Normalizing a normalized record again changes nothing. */
  lemma NormalizeIdempotent(raw: RawContent, itemTitle: string)
    ensures var r := NormalizeGeneratedContent(raw, itemTitle);
      NormalizeGeneratedContent(AsRaw(r), itemTitle) == r
  {
    var r := NormalizeGeneratedContent(raw, itemTitle);
    var again := AsRaw(r);
    var slugBase := if r.slug != [] then r.slug else Slugify(itemTitle);
    var images := ExpandImages(again.imageDetails.value, 0, itemTitle, slugBase);
    assert images == r.imageDetails;
    if raw.slug == [] {
      DefaultsFilled(raw, itemTitle);
    }
    if raw.title == [] && itemTitle == [] {
      assert r.title == [];
    }
  }
}
