/**
 * The regular-expression captures that the schema builders read from the
 * article body: the text of each `h2` and the id of each embedded video.
 */
module Captures {
  import opened Wrappers
  import opened Text

  /** Whether `s` begins with `lit`, character by character. */
  predicate HasPrefix(s: string, lit: string)
    decreases |lit|
  {
    lit == [] || (s != [] && |lit| <= |s| && s[0] == lit[0] && HasPrefix(s[1..], lit[1..]))
  }

  predicate IsLineTerminator(c: char) {
    c == '\n' || c == '\r' || c == '\U{2028}' || c == '\U{2029}'
  }

  /** The lazy `(.*?)<\/h2>`: the length of the shortest run without a line break that `</h2>` follows. */
  function ToH2Close(s: string): (r: Option<nat>)
    ensures r.Some? ==> r.value + 5 <= |s|
  {
    if HasPrefix(s, "</h2>") then Some(0)
    else if s == [] || IsLineTerminator(s[0]) then None
    else match ToH2Close(s[1..])
      case Some(n) => Some(n + 1)
      case None => None
  }

  /** The capture is the shortest: `</h2>` follows it and no earlier position, and it holds no line break. */
  lemma {:induction false} ToH2CloseSome(s: string)
    requires ToH2Close(s).Some?
    ensures var n := ToH2Close(s).value;
      HasPrefix(s[n..], "</h2>") && forall k :: 0 <= k < n ==> !IsLineTerminator(s[k]) && !HasPrefix(s[k..], "</h2>")
    decreases |s|
  {
    assert s[0..] == s;
    if !HasPrefix(s, "</h2>") {
      var t := s[1..];
      ToH2CloseSome(t);
      var n := ToH2Close(t).value;
      assert t[n..] == s[n + 1..];
      forall k | 1 <= k < n + 1 ensures !IsLineTerminator(s[k]) && !HasPrefix(s[k..], "</h2>") {
        assert t[k - 1..] == s[k..] && t[k - 1] == s[k];
      }
    }
  }

  /** Without a capture, every `</h2>` comes after a line break. */
  lemma {:induction false} ToH2CloseNone(s: string)
    requires ToH2Close(s).None?
    ensures forall k :: 0 <= k <= |s| && HasPrefix(s[k..], "</h2>") ==> exists j :: 0 <= j < k && IsLineTerminator(s[j])
    decreases |s|
  {
    assert s[0..] == s;
    if s != [] && !IsLineTerminator(s[0]) {
      var t := s[1..];
      ToH2CloseNone(t);
      forall k | 0 <= k <= |s| && HasPrefix(s[k..], "</h2>")
        ensures exists j :: 0 <= j < k && IsLineTerminator(s[j])
      {
        assert t[k - 1..] == s[k..];
        var j :| 0 <= j < k - 1 && IsLineTerminator(t[j]);
        assert s[j + 1] == t[j];
      }
    } else if s != [] {
      forall k | 0 <= k <= |s| && HasPrefix(s[k..], "</h2>")
        ensures exists j :: 0 <= j < k && IsLineTerminator(s[j])
      {
        assert k > 0 && IsLineTerminator(s[0]);
      }
    }
  }

  /**
   * `<h2[^>]*>(.*?)<\/h2>` tried at the start of `html`: the index `j` of
   * the `>` that ends the opening tag and the length `n` of the capture.
   */
  function H2At(html: string): (r: Option<(nat, nat)>)
    ensures r.Some? ==> r.value.0 + 1 + r.value.1 + 5 <= |html|
  {
    if HasPrefix(html, "<h2") && 3 <= |html| then
      match CloseFrom(html, 3)
      case Some(j) =>
        (match ToH2Close(html[j + 1..])
         case Some(n) => Some((j, n))
         case None => None)
      case None => None
    else None
  }

  /** The captures of `/<h2[^>]*>(.*?)<\/h2>/g`: the text of each `h2`, in order. */
  function H2Headings(html: string): seq<string>
    decreases |html|
  {
    if html == [] then []
    else match H2At(html)
      case Some((j, n)) => [html[j + 1..j + 1 + n]] + H2Headings(html[j + 1 + n + 5..])
      case None => H2Headings(html[1..])
  }

  /** A captured heading never spans a line break: `.` does not match one. */
  lemma {:induction false} H2HeadingsOneLine(html: string)
    ensures forall k :: 0 <= k < |H2Headings(html)| ==> NoLineBreak(H2Headings(html)[k])
    decreases |html|
  {
    if html != [] {
      var at := H2At(html);
      if at.Some? {
        var (j, n) := at.value;
        var h, after := html[j + 1..j + 1 + n], html[j + 1 + n + 5..];
        H2HeadingsOneLine(after);
        H2HeadingFirst(html);
        CaptureOneLine(html[j + 1..]);
        assert h == html[j + 1..][..n];
        AllOneLine(h, H2Headings(after));
      } else {
        H2HeadingsOneLine(html[1..]);
      }
    }
  }

  /** An `h2` found at the start of the text is the first capture. */
  lemma H2HeadingFirst(html: string)
    requires H2At(html).Some?
    ensures var (j, n) := H2At(html).value;
      H2Headings(html) == [html[j + 1..j + 1 + n]] + H2Headings(html[j + 1 + n + 5..])
  {
  }

  lemma AllOneLine(h: string, later: seq<string>)
    requires NoLineBreak(h) && forall k :: 0 <= k < |later| ==> NoLineBreak(later[k])
    ensures forall k :: 0 <= k < |[h] + later| ==> NoLineBreak(([h] + later)[k])
  {
    forall k | 0 <= k < |[h] + later| ensures NoLineBreak(([h] + later)[k]) {
      if k > 0 {
        assert ([h] + later)[k] == later[k - 1];
      }
    }
  }

  /** The lazy capture holds no line break. */
  lemma CaptureOneLine(s: string)
    requires ToH2Close(s).Some?
    ensures NoLineBreak(s[..ToH2Close(s).value])
  {
    var n := ToH2Close(s).value;
    ToH2CloseSome(s);
    forall i | 0 <= i < n ensures !IsLineTerminator(s[..n][i]) {
      assert s[..n][i] == s[i];
    }
  }

  predicate NoLineBreak(t: string) {
    forall i :: 0 <= i < |t| ==> !IsLineTerminator(t[i])
  }

  // ---------------------------------------------------------------------------
  // Embedded videos

  const EmbedMarker: string := "youtube.com/embed/"

  /** The run at the start of `s` that `[^"?]+` takes. */
  function IdLength(s: string): (n: nat)
    ensures n <= |s|
    ensures forall i :: 0 <= i < n ==> s[i] != '"' && s[i] != '?'
    ensures n < |s| ==> s[n] == '"' || s[n] == '?'
  {
    if s == [] || s[0] == '"' || s[0] == '?' then 0 else 1 + IdLength(s[1..])
  }

  /** The captures of `/youtube\.com\/embed\/([^"?]+)/g`, in order. */
  function VideoIds(html: string): seq<string>
    decreases |html|
  {
    if html == [] then []
    else if HasPrefix(html, EmbedMarker) && |EmbedMarker| <= |html| && IdLength(html[|EmbedMarker|..]) > 0 then
      var rest := html[|EmbedMarker|..];
      var n := IdLength(rest);
      [rest[..n]] + VideoIds(rest[n..])
    else VideoIds(html[1..])
  }

  /** Each captured id is non-empty and holds neither `"` nor `?`. */
  lemma {:induction false} VideoIdsShape(html: string)
    ensures forall k :: 0 <= k < |VideoIds(html)| ==> IsVideoId(VideoIds(html)[k])
    decreases |html|
  {
    if html != [] {
      var hit := HasPrefix(html, EmbedMarker) && |EmbedMarker| <= |html| && IdLength(html[|EmbedMarker|..]) > 0;
      if hit {
        var rest := html[|EmbedMarker|..];
        var n := IdLength(rest);
        var id, later := rest[..n], VideoIds(rest[n..]);
        VideoIdsShape(rest[n..]);
        assert VideoIds(html) == [id] + later;
        assert IsVideoId(id) by {
          forall i | 0 <= i < |id| ensures id[i] != '"' && id[i] != '?' {
            assert id[i] == rest[i];
          }
        }
        forall k | 0 <= k < |[id] + later| ensures IsVideoId(([id] + later)[k]) {
          if k > 0 {
            assert ([id] + later)[k] == later[k - 1];
          }
        }
      } else {
        assert VideoIds(html) == VideoIds(html[1..]);
        VideoIdsShape(html[1..]);
      }
    }
  }

  predicate IsVideoId(id: string) {
    id != [] && forall i :: 0 <= i < |id| ==> id[i] != '"' && id[i] != '?'
  }
}
