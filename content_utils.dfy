/**
 * The small pure helpers of the content pipeline: the readability verdict,
 * `escapeRegExp`, the word-count gate, and the internal-link placeholder
 * expansion.
 */
module ContentUtils {
  import opened Wrappers
  import opened Strings
  import opened Text

  // ---------------------------------------------------------------------------
  // Readability verdict

  datatype Verdict = Verdict(verdict: string, color: string)

  /** The verdict bands, from the easiest down; a score gets the first band whose floor it reaches. */
  const Bands: seq<(real, Verdict)> := [
    (90.0, Verdict("Very Easy", "#10B981")),
    (80.0, Verdict("Easy", "#10B981")),
    (70.0, Verdict("Fairly Easy", "#34D399")),
    (60.0, Verdict("Standard", "#FBBF24")),
    (50.0, Verdict("Fairly Difficult", "#F59E0B")),
    (30.0, Verdict("Difficult", "#EF4444"))]

  const Hardest: Verdict := Verdict("Very Difficult", "#DC2626")

  /** `getReadabilityVerdict`: the chain of `>=` tests, highest floor first. */
  function GetReadabilityVerdict(score: real): Verdict {
    if score >= 90.0 then Verdict("Very Easy", "#10B981")
    else if score >= 80.0 then Verdict("Easy", "#10B981")
    else if score >= 70.0 then Verdict("Fairly Easy", "#34D399")
    else if score >= 60.0 then Verdict("Standard", "#FBBF24")
    else if score >= 50.0 then Verdict("Fairly Difficult", "#F59E0B")
    else if score >= 30.0 then Verdict("Difficult", "#EF4444")
    else Verdict("Very Difficult", "#DC2626")
  }

  /** Index of the band a score falls in; `|Bands|` stands for the hardest verdict. */
  function BandIndex(score: real, from: nat): (k: nat)
    requires from <= |Bands|
    ensures from <= k <= |Bands|
    ensures forall j :: from <= j < k ==> score < Bands[j].0
    ensures k < |Bands| ==> score >= Bands[k].0
    decreases |Bands| - from
  {
    if from == |Bands| || score >= Bands[from].0 then from else BandIndex(score, from + 1)
  }

  /** The verdict read off the band table. */
  function VerdictByTable(score: real): Verdict {
    var k := BandIndex(score, 0);
    if k < |Bands| then Bands[k].1 else Hardest
  }

  /** The chain of tests and the band table agree on every score. */
  lemma VerdictMatchesTable(score: real)
    ensures GetReadabilityVerdict(score) == VerdictByTable(score)
  {
  }

  /** A higher score never gets a harder verdict: the band index does not grow with the score. */
  lemma VerdictMonotone(a: real, b: real)
    requires a <= b
    ensures BandIndex(b, 0) <= BandIndex(a, 0)
  {
    var ka, kb := BandIndex(a, 0), BandIndex(b, 0);
    if kb > ka {
      assert false;
    }
  }

  // ---------------------------------------------------------------------------
  // escapeRegExp

  /** The characters of the class `[.*+?^${}()|[\]\\/]`. */
  predicate IsRegExpSpecial(c: char) {
    c == '.' || c == '*' || c == '+' || c == '?' || c == '^' || c == '$' || c == '{' || c == '}'
    || c == '(' || c == ')' || c == '|' || c == '[' || c == ']' || c == '\\' || c == '/'
  }

  /** `s.replace(/[.*+?^${}()|[\]\\/]/g, '\\$&')`: a backslash before each special character. */
  function EscapeRegExp(s: string): (r: string)
    ensures |r| >= |s|
  {
    if s == [] then []
    else (if IsRegExpSpecial(s[0]) then ['\\', s[0]] else [s[0]]) + EscapeRegExp(s[1..])
  }

  /** Reading an escaped string back: a backslash stands for the character after it. */
  function Unescape(s: string): string
    decreases |s|
  {
    if s == [] then []
    else if s[0] == '\\' && |s| > 1 then [s[1]] + Unescape(s[2..])
    else [s[0]] + Unescape(s[1..])
  }

  /** Escaping loses nothing: reading the escaped string back gives the original. */
  lemma {:induction false} EscapeRoundTrip(s: string)
    ensures Unescape(EscapeRegExp(s)) == s
    decreases |s|
  {
    if s != [] {
      EscapeRoundTrip(s[1..]);
      var e := EscapeRegExp(s);
      var rest := EscapeRegExp(s[1..]);
      if IsRegExpSpecial(s[0]) {
        assert e == ['\\', s[0]] + rest;
        assert e[2..] == rest;
      } else {
        assert e == [s[0]] + rest;
        assert e[1..] == rest;
      }
    }
  }

  /** In the escaped string every special character comes right after a backslash. */
  predicate AllEscaped(r: string)
    decreases |r|
  {
    if r == [] then true
    else if r[0] == '\\' then |r| > 1 && IsRegExpSpecial(r[1]) && AllEscaped(r[2..])
    else !IsRegExpSpecial(r[0]) && AllEscaped(r[1..])
  }

  lemma {:induction false} EscapedIsEscaped(s: string)
    ensures AllEscaped(EscapeRegExp(s))
    decreases |s|
  {
    if s != [] {
      EscapedIsEscaped(s[1..]);
      var e := EscapeRegExp(s);
      if IsRegExpSpecial(s[0]) {
        assert e[2..] == EscapeRegExp(s[1..]);
      } else {
        assert e[1..] == EscapeRegExp(s[1..]);
      }
    }
  }

  // ---------------------------------------------------------------------------
  // enforceWordCount

  /** The number of words `enforceWordCount` counts: tags become spaces, then `\s` runs split. */
  function WordCount(content: string): nat {
    |Words(StripTags(content, 0))|
  }

  datatype WordCountError =
    | ContentTooShort(message: string, content: string, wordCount: nat)
    | ContentTooLong(message: string, content: string, wordCount: nat)

  /**
   * `enforceWordCount`: the word count when it lies within the bounds, else
   * the too-short error (checked first) or the too-long error.
   */
  function EnforceWordCount(content: string, minWords: nat, maxWords: nat): (r: Result<nat, WordCountError>)
    ensures r.Success? <==> minWords <= WordCount(content) <= maxWords
    ensures r.Success? ==> r.value == WordCount(content)
    ensures r.Failure? ==> r.error.content == content && r.error.wordCount == WordCount(content)
    ensures r.Failure? && r.error.ContentTooShort? <==> WordCount(content) < minWords
    ensures r.Failure? && r.error.ContentTooLong? <==> minWords <= WordCount(content) && WordCount(content) > maxWords
  {
    var wordCount := WordCount(content);
    if wordCount < minWords then
      Failure(ContentTooShort("CONTENT TOO SHORT: " + NatToString(wordCount) + " words (minimum "
        + NatToString(minWords) + " required).", content, wordCount))
    else if wordCount > maxWords then
      Failure(ContentTooLong("CONTENT TOO LONG: " + NatToString(wordCount) + " words (maximum "
        + NatToString(maxWords) + " allowed).", content, wordCount))
    else Success(wordCount)
  }

  /** Plain text joined by a space counts the words of both parts. */
  lemma WordCountJoin(a: string, b: string)
    requires forall i :: 0 <= i < |a| ==> a[i] != '<'
    requires forall i :: 0 <= i < |b| ==> b[i] != '<'
    ensures WordCount(a + " " + b) == WordCount(a) + WordCount(b)
  {
    var s := a + " " + b;
    assert forall i :: 0 <= i < |s| ==> s[i] != '<' by {
      forall i | 0 <= i < |s| ensures s[i] != '<' {
        if i < |a| { assert s[i] == a[i]; }
        else if i > |a| { assert s[i] == b[i - |a| - 1]; }
      }
    }
    NoTagUnchanged(s, 0);
    NoTagUnchanged(a, 0);
    NoTagUnchanged(b, 0);
    WordsAppend(a, b);
  }

  // ---------------------------------------------------------------------------
  // processInternalLinks

  datatype SitemapPage = SitemapPage(id: string, title: string, slug: string)

  /**
   * The slug map: each page with a non-empty slug, keyed by the lower-cased
   * slug; a later page overwrites an earlier one with the same key.
   */
  function SlugMap(pages: seq<SitemapPage>): map<string, string>
    decreases |pages|
  {
    if pages == [] then map[]
    else
      var m := SlugMap(pages[..|pages| - 1]);
      var p := pages[|pages| - 1];
      if p.slug != "" then m[ToLower(p.slug) := p.id] else m
  }

  predicate Keys(p: SitemapPage, key: string) {
    p.slug != "" && ToLower(p.slug) == key
  }

  /** A key is in the map exactly when some page with a non-empty slug lower-cases to it. */
  lemma {:induction false} SlugMapKeys(pages: seq<SitemapPage>, key: string)
    ensures key in SlugMap(pages) <==> exists i :: 0 <= i < |pages| && Keys(pages[i], key)
    decreases |pages|
  {
    if pages != [] {
      var n := |pages| - 1;
      var front := pages[..n];
      SlugMapKeys(front, key);
      assert forall i :: 0 <= i < n ==> front[i] == pages[i];
      if key in SlugMap(front) && !Keys(pages[n], key) {
        var i :| 0 <= i < n && Keys(front[i], key);
        assert Keys(pages[i], key);
      }
    }
  }

  /** The key maps to the id of the last page whose slug lower-cases to it: a later page overwrites. */
  lemma {:induction false} SlugMapLast(pages: seq<SitemapPage>, key: string, i: nat)
    requires i < |pages| && Keys(pages[i], key)
    requires forall j :: i < j < |pages| ==> !Keys(pages[j], key)
    ensures key in SlugMap(pages) && SlugMap(pages)[key] == pages[i].id
    decreases |pages|
  {
    var n := |pages| - 1;
    if i < n {
      var front := pages[..n];
      assert front[i] == pages[i];
      assert forall j :: i < j < n ==> front[j] == pages[j];
      SlugMapLast(front, key, i);
      assert !Keys(pages[n], key);
    }
  }

  /** One `[INTERNAL_LINK slug="..." text="..."]` occurrence and the text that follows it. */
  datatype Placeholder = Placeholder(slug: string, text: string, after: string)

  /** The fixed parts of a placeholder, as the prompt writes them. */
  const LinkOpen: string := "[INTERNAL_LINK"
  const SlugKey: string := "slug=\""
  const TextKey: string := "text=\""

  /** `s` starts with `lit`, compared as the `i` flag compares: character by character, case-folded. */
  predicate LitPrefix(s: string, lit: string)
    decreases |lit|
  {
    lit == [] || (s != [] && |lit| <= |s| && LowerChar(s[0]) == LowerChar(lit[0]) && LitPrefix(s[1..], lit[1..]))
  }

  /** Length of the run of `\s` characters at the start of `s`. */
  function SpaceRun(s: string): (n: nat)
    ensures n <= |s|
  {
    if s != [] && IsJsSpace(s[0]) then 1 + SpaceRun(s[1..]) else 0
  }

  /** Length of the run of characters other than `"` at the start of `s`. */
  function QuotedRun(s: string): (n: nat)
    ensures n <= |s|
  {
    if s != [] && s[0] != '"' then 1 + QuotedRun(s[1..]) else 0
  }

  /**
   * The placeholder regex `/\[INTERNAL_LINK\s+slug="([^"]+)"\s+text="([^"]+)"\]/i`
   * tried at the start of `s`, one part after the other. Each part has one
   * way to match (the runs are greedy and what follows each run cannot belong
   * to it), so this is the regex's own answer.
   */
  function MatchPlaceholder(s: string): (r: Option<Placeholder>)
    ensures r.Some? ==> |r.value.after| < |s|
  {
    if !LitPrefix(s, LinkOpen) then None else AfterOpen(s[|LinkOpen|..])
  }

  /** `\s+slug="` */
  function AfterOpen(t: string): (r: Option<Placeholder>)
    ensures r.Some? ==> |r.value.after| < |t|
  {
    var sp := SpaceRun(t);
    if sp == 0 || !LitPrefix(t[sp..], SlugKey) then None else SlugPart(t[sp..][|SlugKey|..])
  }

  /** `([^"]+)"` */
  function SlugPart(t: string): (r: Option<Placeholder>)
    ensures r.Some? ==> |r.value.after| < |t|
  {
    var n := QuotedRun(t);
    if n == 0 || n == |t| then None else AfterSlug(t[..n], t[n + 1..])
  }

  /** `\s+text="` */
  function AfterSlug(slug: string, t: string): (r: Option<Placeholder>)
    ensures r.Some? ==> |r.value.after| < |t|
  {
    var sp := SpaceRun(t);
    if sp == 0 || !LitPrefix(t[sp..], TextKey) then None else TextPart(slug, t[sp..][|TextKey|..])
  }

  /** `([^"]+)"\]` */
  function TextPart(slug: string, t: string): (r: Option<Placeholder>)
    ensures r.Some? ==> |r.value.after| < |t|
  {
    var n := QuotedRun(t);
    if n == 0 || n + 1 >= |t| || t[n + 1] != ']' then None else Some(Placeholder(slug, t[..n], t[n + 2..]))
  }

  /** What replaces one placeholder: a link to the mapped URL, or the bare text. */
  function LinkFor(slug: string, text: string, slugs: map<string, string>): string {
    var key := ToLower(slug);
    if key in slugs && slugs[key] != "" then "<a href=\"" + slugs[key] + "\">" + text + "</a>"
    else text
  }

  /** `content.replace(placeholderRegex, ...)`: every placeholder, scanning left to right, is replaced. */
  function ExpandPlaceholders(s: string, slugs: map<string, string>): string
    decreases |s|
  {
    if s == [] then []
    else match MatchPlaceholder(s)
      case Some(ph) => LinkFor(ph.slug, ph.text, slugs) + ExpandPlaceholders(ph.after, slugs)
      case None => [s[0]] + ExpandPlaceholders(s[1..], slugs)
  }

  /** `processInternalLinks`. */
  function ProcessInternalLinks(content: string, pages: seq<SitemapPage>): string {
    ExpandPlaceholders(content, SlugMap(pages))
  }

  /** Text without a `[` holds no placeholder and comes out unchanged. */
  lemma {:induction false} NoBracketUnchanged(s: string, slugs: map<string, string>)
    requires forall i :: 0 <= i < |s| ==> s[i] != '['
    ensures ExpandPlaceholders(s, slugs) == s
    decreases |s|
  {
    if s != [] {
      assert !LitPrefix(s, LinkOpen);
      NoBracketUnchanged(s[1..], slugs);
    }
  }

  /**
   * A slug resolves, whatever its case, to the last page whose slug
   * lower-cases the same, when that page has an id.
   */
  lemma LinkResolved(pages: seq<SitemapPage>, slug: string, text: string, i: nat)
    requires i < |pages| && Keys(pages[i], ToLower(slug)) && pages[i].id != ""
    requires forall j :: i < j < |pages| ==> !Keys(pages[j], ToLower(slug))
    ensures LinkFor(slug, text, SlugMap(pages)) == "<a href=\"" + pages[i].id + "\">" + text + "</a>"
  {
    SlugMapLast(pages, ToLower(slug), i);
  }

  /** A slug no page has is replaced by the bare text. */
  lemma LinkUnresolved(pages: seq<SitemapPage>, slug: string, text: string)
    requires forall j :: 0 <= j < |pages| ==> !Keys(pages[j], ToLower(slug))
    ensures LinkFor(slug, text, SlugMap(pages)) == text
  {
    SlugMapKeys(pages, ToLower(slug));
  }

  /** The placeholder as the prompt asks the model to write it, followed by `rest`. */
  function PlaceholderThen(slug: string, text: string, rest: string): string {
    LinkOpen + (" " + (SlugKey + (slug + ("\"" + (" " + (TextKey + (text + ("\"]" + rest))))))))
  }

  predicate Unquoted(s: string) {
    forall i :: 0 <= i < |s| ==> s[i] != '"'
  }

  /**
   * A placeholder written in the canonical form is recognised, with its slug
   * and its text, and replaced; scanning resumes right after it.
   */
  lemma PlaceholderExpanded(slug: string, text: string, rest: string, slugs: map<string, string>)
    requires slug != [] && text != [] && Unquoted(slug) && Unquoted(text)
    ensures ExpandPlaceholders(PlaceholderThen(slug, text, rest), slugs)
      == LinkFor(slug, text, slugs) + ExpandPlaceholders(rest, slugs)
  {
    PlaceholderRecognised(slug, text, rest);
    ExpandAtMatch(PlaceholderThen(slug, text, rest), slug, text, rest, slugs);
  }

  /** Where a placeholder matches, its replacement comes first and scanning resumes after it. */
  lemma ExpandAtMatch(s: string, slug: string, text: string, rest: string, slugs: map<string, string>)
    requires var r := MatchPlaceholder(s);
      r.Some? && r.value.slug == slug && r.value.text == text && r.value.after == rest
    ensures ExpandPlaceholders(s, slugs) == LinkFor(slug, text, slugs) + ExpandPlaceholders(rest, slugs)
  {
  }

  /** The canonical placeholder is recognised with its own slug, text and continuation. */
  lemma PlaceholderRecognised(slug: string, text: string, rest: string)
    requires slug != [] && text != [] && Unquoted(slug) && Unquoted(text)
    ensures var r := MatchPlaceholder(PlaceholderThen(slug, text, rest));
      r.Some? && r.value.slug == slug && r.value.text == text && r.value.after == rest
  {
    var afterSlug := " " + (TextKey + (text + ("\"]" + rest)));
    var v := HeadRecognised(slug, afterSlug);
    TailRecognised(v, text, rest);
  }

  /** The opening, the slug key and the slug: `v` is the slug as the matcher sliced it out. */
  lemma HeadRecognised(slug: string, afterSlug: string) returns (v: string)
    requires slug != [] && Unquoted(slug)
    ensures v == slug
    ensures MatchPlaceholder(LinkOpen + (" " + (SlugKey + (slug + ("\"" + afterSlug))))) == AfterSlug(v, afterSlug)
  {
    var atSlug := SlugKey + (slug + ("\"" + afterSlug));
    OpenStep(" " + atSlug);
    SlugKeyStep(slug + ("\"" + afterSlug));
    v := SlugStep(slug, afterSlug);
  }

  /** The text key, the text and the closing bracket. */
  lemma TailRecognised(slug: string, text: string, rest: string)
    requires text != [] && Unquoted(text)
    ensures var r := AfterSlug(slug, " " + (TextKey + (text + ("\"]" + rest))));
      r.Some? && r.value.slug == slug && r.value.text == text && r.value.after == rest
  {
    TextKeyStep(slug, text + ("\"]" + rest));
    TextStep(slug, text, rest);
  }

  lemma OpenStep(t: string)
    ensures MatchPlaceholder(LinkOpen + t) == AfterOpen(t)
  {
    LitPrefixOf(LinkOpen, t);
    assert (LinkOpen + t)[|LinkOpen|..] == t;
  }

  lemma SlugKeyStep(t: string)
    ensures AfterOpen(" " + (SlugKey + t)) == SlugPart(t)
  {
    OneSpace(SlugKey + t);
    LitPrefixOf(SlugKey, t);
    assert (SlugKey + t)[|SlugKey|..] == t;
  }

  lemma SlugStep(slug: string, t: string) returns (v: string)
    requires slug != [] && Unquoted(slug)
    ensures v == slug && SlugPart(slug + ("\"" + t)) == AfterSlug(v, t)
  {
    var u := slug + ("\"" + t);
    QuotedRunOf(slug, t);
    assert u[|slug| + 1..] == t;
    v := u[..|slug|];
    assert v == slug;
  }

  lemma TextKeyStep(slug: string, t: string)
    ensures AfterSlug(slug, " " + (TextKey + t)) == TextPart(slug, t)
  {
    OneSpace(TextKey + t);
    LitPrefixOf(TextKey, t);
    assert (TextKey + t)[|TextKey|..] == t;
  }

  lemma TextStep(slug: string, text: string, rest: string)
    requires text != [] && Unquoted(text)
    ensures var r := TextPart(slug, text + ("\"]" + rest));
      r.Some? && r.value.slug == slug && r.value.text == text && r.value.after == rest
  {
    var u := text + ("\"]" + rest);
    QuotedRunOf(text, "]" + rest);
    assert "\"]" + rest == "\"" + ("]" + rest);
    assert u[..|text|] == text;
    assert u[|text| + 1] == ']';
    assert u[|text| + 2..] == rest;
  }

  /** A string starts with itself, case-folded or not. */
  lemma {:induction false} LitPrefixOf(lit: string, rest: string)
    ensures LitPrefix(lit + rest, lit)
    decreases |lit|
  {
    if lit != [] {
      assert (lit + rest)[1..] == lit[1..] + rest;
      LitPrefixOf(lit[1..], rest);
    }
  }

  /** One space followed by a non-space. */
  lemma OneSpace(t: string)
    requires t != [] && !IsJsSpace(t[0])
    ensures SpaceRun(" " + t) == 1 && (" " + t)[1..] == t
  {
    assert (" " + t)[1..] == t;
  }

  /** The quoted run of an unquoted part closed by a quote is the part. */
  lemma {:induction false} QuotedRunOf(part: string, after: string)
    requires Unquoted(part)
    ensures QuotedRun(part + ("\"" + after)) == |part|
    decreases |part|
  {
    var s := part + ("\"" + after);
    if part == [] {
      assert s[0] == '"';
    } else {
      assert s[0] == part[0];
      assert s[1..] == part[1..] + ("\"" + after);
      QuotedRunOf(part[1..], after);
    }
  }
}
