/**
 * The text clean-ups that the word counters and the slug builder share:
 * replacing HTML tags by spaces, splitting on `\s` runs, and turning a title
 * into a slug.
 */
module Text {
  import opened Wrappers
  import opened Strings

  /** Index of the first `>` in `s` at or after `i`. */
  function CloseFrom(s: string, i: nat): (r: Option<nat>)
    requires i <= |s|
    ensures r.Some? ==> i <= r.value < |s| && s[r.value] == '>'
    ensures forall k :: i <= k < (if r.Some? then r.value else |s|) ==> s[k] != '>'
    decreases |s| - i
  {
    if i == |s| then None
    else if s[i] == '>' then Some(i)
    else CloseFrom(s, i + 1)
  }

  /**
   * `s.replace(/<[^>]*>/g, ' ')` when `minInner` is 0, and
   * `s.replace(/<[^>]+>/g, ' ')` when it is 1: each `<` that a later `>`
   * closes, with at least `minInner` characters between them, becomes one
   * space together with everything up to that `>`.
   */
  function StripTags(s: string, minInner: nat): (r: string)
    ensures |r| <= |s|
    decreases |s|
  {
    if s == [] then []
    else if s[0] == '<' then
      match CloseFrom(s, 1)
      case Some(j) =>
        if j - 1 >= minInner then " " + StripTags(s[j + 1..], minInner)
        else [s[0]] + StripTags(s[1..], minInner)
      case None => [s[0]] + StripTags(s[1..], minInner)
    else [s[0]] + StripTags(s[1..], minInner)
  }

  /** Text without a `<` has no tag to strip. */
  lemma {:induction false} NoTagUnchanged(s: string, minInner: nat)
    requires forall i :: 0 <= i < |s| ==> s[i] != '<'
    ensures StripTags(s, minInner) == s
    decreases |s|
  {
    if s != [] {
      NoTagUnchanged(s[1..], minInner);
    }
  }

  /**
   * A leading tag, `<` then no `>` until the closing `>`, becomes one space
   * when it holds at least `minInner` characters, and its `<` is kept as
   * text otherwise.
   */
  lemma StripLeadingTag(tag: string, rest: string, minInner: nat)
    requires |tag| >= 2 && tag[0] == '<' && tag[|tag| - 1] == '>'
    requires forall i :: 1 <= i < |tag| - 1 ==> tag[i] != '>'
    ensures |tag| - 2 >= minInner ==> StripTags(tag + rest, minInner) == " " + StripTags(rest, minInner)
    ensures |tag| - 2 < minInner ==> StripTags(tag + rest, minInner) == "<" + StripTags((tag + rest)[1..], minInner)
  {
    var s := tag + rest;
    var j := |tag| - 1;
    assert s[0] == '<' && s[j] == '>';
    assert forall i :: 1 <= i < j ==> s[i] == tag[i];
    assert CloseFrom(s, 1) == Some(j);
    assert s[j + 1..] == rest;
  }

  /** A leading character other than `<` is kept, and the scan goes on after it. */
  lemma StripKeepsChar(c: char, rest: string, minInner: nat)
    requires c != '<'
    ensures StripTags([c] + rest, minInner) == [c] + StripTags(rest, minInner)
  {
    assert ([c] + rest)[1..] == rest;
  }

  /** A leading `<` that no later `>` closes is kept as text, and the scan goes on after it. */
  lemma StripUnclosed(rest: string, minInner: nat)
    requires forall i :: 0 <= i < |rest| ==> rest[i] != '>'
    ensures StripTags("<" + rest, minInner) == "<" + StripTags(rest, minInner)
  {
    var s := "<" + rest;
    assert s[1..] == rest;
    assert forall i :: 1 <= i < |s| ==> s[i] == rest[i - 1];
    assert CloseFrom(s, 1).None?;
  }

  /** Length of the run of non-`\s` characters at the start of `s`. */
  function WordLength(s: string): (n: nat)
    ensures n <= |s| && NoJsSpace(s[..n]) && (n < |s| ==> IsJsSpace(s[n]))
  {
    if s == [] || IsJsSpace(s[0]) then 0 else 1 + WordLength(s[1..])
  }

  /**
   * `s.trim().split(/\s+/).filter(w => w.length > 0)`: the maximal runs of
   * non-`\s` characters, in order.
   */
  function Words(s: string): (ws: seq<string>)
    ensures forall k :: 0 <= k < |ws| ==> ws[k] != [] && NoJsSpace(ws[k])
    decreases |s|
  {
    if s == [] then []
    else if IsJsSpace(s[0]) then Words(s[1..])
    else
      var n := WordLength(s);
      [s[..n]] + Words(s[n..])
  }

  /** Joining with a space separates words: the words of `a + " " + b` are those of `a`, then those of `b`. */
  lemma {:induction false} WordsAppend(a: string, b: string)
    ensures Words(a + " " + b) == Words(a) + Words(b)
    decreases |a|
  {
    var s := a + " " + b;
    if a == [] {
      assert s[1..] == b;
    } else if IsJsSpace(a[0]) {
      WordsAppend(a[1..], b);
      assert s[1..] == a[1..] + " " + b;
    } else {
      var n := WordLength(a);
      WordLengthAppend(a, " " + b);
      assert s == a + (" " + b);
      assert s[..n] == a[..n];
      assert s[n..] == a[n..] + " " + b;
      WordsAppend(a[n..], b);
    }
  }

  lemma {:induction false} WordLengthAppend(a: string, b: string)
    requires b != [] && IsJsSpace(b[0])
    ensures WordLength(a + b) == WordLength(a)
    decreases |a|
  {
    if a == [] {
      assert a + b == b;
    } else if !IsJsSpace(a[0]) {
      assert (a + b)[1..] == a[1..] + b;
      WordLengthAppend(a[1..], b);
    }
  }

  /** A non-empty string without `\s` is one word. */
  lemma {:induction false} SingleWord(w: string)
    requires w != [] && NoJsSpace(w)
    ensures Words(w) == [w]
  {
    WordLengthAll(w);
    assert w[..|w|] == w;
    assert w[|w|..] == [];
  }

  lemma {:induction false} WordLengthAll(w: string)
    requires NoJsSpace(w)
    ensures WordLength(w) == |w|
    decreases |w|
  {
    if w != [] {
      WordLengthAll(w[1..]);
    }
  }

  /** `\w` and `-`: the characters a slug keeps. */
  predicate IsSlugChar(c: char) {
    'a' <= c <= 'z' || 'A' <= c <= 'Z' || '0' <= c <= '9' || c == '_' || c == '-'
  }

  /** `s.replace(/[^\w-]+/g, '')`. */
  function KeepSlugChars(s: string): (r: string)
    ensures |r| <= |s|
    ensures forall i :: 0 <= i < |r| ==> IsSlugChar(r[i])
    ensures (forall i :: 0 <= i < |s| ==> IsSlugChar(s[i])) ==> r == s
  {
    if s == [] then []
    else if IsSlugChar(s[0]) then [s[0]] + KeepSlugChars(s[1..])
    else KeepSlugChars(s[1..])
  }

  /** `title.toLowerCase().replace(/\s+/g, '-').replace(/[^\w-]+/g, '')`. */
  function Slugify(title: string): string {
    KeepSlugChars(ReplaceSpaceRuns(ToLower(title), "-"))
  }

  predicate NoUpper(s: string) {
    forall i :: 0 <= i < |s| ==> !('A' <= s[i] <= 'Z')
  }

  predicate IsSlug(s: string) {
    NoUpper(s) && forall i :: 0 <= i < |s| ==> IsSlugChar(s[i])
  }

  /** A slug is lower-case letters, digits, `_` and `-`, and slugging it again changes nothing. */
  lemma SlugifyIsSlug(title: string)
    ensures IsSlug(Slugify(title))
    ensures Slugify(Slugify(title)) == Slugify(title)
  {
    LowerNoUpper(title);
    var dashed := ReplaceSpaceRuns(ToLower(title), "-");
    NoUpperAfterDashes(ToLower(title));
    KeepNoUpper(dashed);
    SlugStable(KeepSlugChars(dashed));
  }

  lemma LowerNoUpper(s: string)
    ensures NoUpper(ToLower(s))
  {
    var r := ToLower(s);
    forall i | 0 <= i < |r| ensures !('A' <= r[i] <= 'Z') {
      assert r[i] == LowerChar(s[i]);
    }
  }

  lemma NoUpperConcat(a: string, b: string)
    requires NoUpper(a) && NoUpper(b)
    ensures NoUpper(a + b)
  {
    forall i | 0 <= i < |a + b| ensures !('A' <= (a + b)[i] <= 'Z') {
      if i >= |a| {
        assert (a + b)[i] == b[i - |a|];
      }
    }
  }

  lemma NoUpperSuffix(s: string, k: nat)
    requires NoUpper(s) && k <= |s|
    ensures NoUpper(s[k..])
  {
    forall i | 0 <= i < |s[k..]| ensures !('A' <= s[k..][i] <= 'Z') {
      assert s[k..][i] == s[k + i];
    }
  }

  lemma {:induction false} NoUpperAfterDashes(s: string)
    requires NoUpper(s)
    ensures NoUpper(ReplaceSpaceRuns(s, "-"))
    decreases |s|
  {
    if s != [] {
      NoUpperSuffix(s, 1);
      if IsJsSpace(s[0]) {
        var rest := DropSpaces(s[1..]);
        NoUpperSuffix(s[1..], |s[1..]| - |rest|);
        NoUpperAfterDashes(rest);
        NoUpperConcat("-", ReplaceSpaceRuns(rest, "-"));
      } else {
        NoUpperAfterDashes(s[1..]);
        NoUpperConcat([s[0]], ReplaceSpaceRuns(s[1..], "-"));
      }
    }
  }

  lemma {:induction false} KeepNoUpper(s: string)
    requires NoUpper(s)
    ensures IsSlug(KeepSlugChars(s))
    decreases |s|
  {
    if s != [] {
      NoUpperSuffix(s, 1);
      KeepNoUpper(s[1..]);
      if IsSlugChar(s[0]) {
        NoUpperConcat([s[0]], KeepSlugChars(s[1..]));
      }
    }
  }

  /** Slugging a slug: nothing to lower-case, no `\s`, nothing to drop. */
  lemma SlugStable(slug: string)
    requires IsSlug(slug)
    ensures Slugify(slug) == slug
  {
    var lowered := ToLower(slug);
    forall i | 0 <= i < |slug| ensures lowered[i] == slug[i] {
      assert lowered[i] == LowerChar(slug[i]);
    }
    assert lowered == slug;
    assert NoJsSpace(slug);
  }
}
