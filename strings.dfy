/**
 * String helpers with the JavaScript meaning the source relies on:
 * `toLowerCase` (on ASCII letters), `includes`, the `\s` character class,
 * UTF-16 `length`, and the `replace(/\s+/g, x)` idiom.
 */
module Strings {

  /** `toLowerCase` on one character; only ASCII letters are folded. */
  function LowerChar(c: char): char {
    if 'A' <= c <= 'Z' then (c as int + 32) as char else c
  }

  function ToLower(s: string): (r: string)
    ensures |r| == |s|
    ensures forall i :: 0 <= i < |s| ==> r[i] == LowerChar(s[i])
  {
    if s == [] then [] else [LowerChar(s[0])] + ToLower(s[1..])
  }

  predicate StartsWith(s: string, prefix: string) {
    |prefix| <= |s| && s[..|prefix|] == prefix
  }

  /** `s.includes(sub)`. */
  predicate Contains(s: string, sub: string)
    decreases |s|
  {
    StartsWith(s, sub) || (|s| > 0 && Contains(s[1..], sub))
  }

  /** Some needle of `needles` occurs in `s` (a chain of `includes` joined by `||`). */
  predicate ContainsAny(s: string, needles: seq<string>) {
    exists k :: 0 <= k < |needles| && Contains(s, needles[k])
  }

  lemma {:induction false} ContainsPrefix(s: string, t: string)
    ensures Contains(s + t, s)
  {
    assert (s + t)[..|s|] == s;
  }

  lemma {:induction false} ContainsShift(c: string, s: string, sub: string)
    requires Contains(s, sub)
    ensures Contains(c + s, sub)
    decreases |c|
  {
    if c == [] {
      assert c + s == s;
    } else {
      ContainsShift(c[1..], s, sub);
      assert (c + s)[1..] == c[1..] + s;
    }
  }

  lemma Assoc<T>(a: seq<T>, b: seq<T>, c: seq<T>)
    ensures a + (b + c) == (a + b) + c
  {
  }

  lemma ContainsMiddle(a: string, p: string, b: string)
    ensures Contains(a + (p + b), p)
  {
    ContainsPrefix(p, b);
    ContainsShift(a, p + b, p);
  }

  /** The characters of JavaScript's `\s` class. */
  predicate IsJsSpace(c: char) {
    c == ' ' || c == '\t' || c == '\n' || c == '\r' || c == '\U{000B}' || c == '\U{000C}'
    || c == '\U{00A0}' || c == '\U{1680}' || ('\U{2000}' <= c <= '\U{200A}')
    || c == '\U{2028}' || c == '\U{2029}' || c == '\U{202F}' || c == '\U{205F}'
    || c == '\U{3000}' || c == '\U{FEFF}'
  }

  predicate NoJsSpace(s: string) {
    forall i :: 0 <= i < |s| ==> !IsJsSpace(s[i])
  }

  /** `s.length` in JavaScript: characters outside the basic plane take two UTF-16 units. */
  function Utf16Length(s: string): (n: nat)
    ensures |s| <= n <= 2 * |s|
  {
    if s == [] then 0
    else (if s[0] as int > 0xFFFF then 2 else 1) + Utf16Length(s[1..])
  }

  /** What is left of `s` once its leading `\s` run is dropped. */
  function DropSpaces(s: string): (r: string)
    ensures |r| <= |s|
    ensures r == s[|s| - |r|..]
    ensures r == [] || !IsJsSpace(r[0])
  {
    if s != [] && IsJsSpace(s[0]) then DropSpaces(s[1..]) else s
  }

  /** `s.replace(/\s+/g, rep)`: every maximal run of `\s` characters becomes one `rep`. */
  function ReplaceSpaceRuns(s: string, rep: string): (r: string)
    ensures NoJsSpace(rep) ==> NoJsSpace(r)
    ensures NoJsSpace(s) ==> r == s
    decreases |s|
  {
    if s == [] then []
    else if IsJsSpace(s[0]) then rep + ReplaceSpaceRuns(DropSpaces(s[1..]), rep)
    else [s[0]] + ReplaceSpaceRuns(s[1..], rep)
  }

  /** A non-empty run made only of `\s` characters. */
  predicate IsSpaceRun(run: string) {
    run != [] && forall i :: 0 <= i < |run| ==> IsJsSpace(run[i])
  }

  /** Dropping a whole run of spaces lands on what follows it. */
  lemma {:induction false} DropSpacesRun(run: string, b: string)
    requires forall i :: 0 <= i < |run| ==> IsJsSpace(run[i])
    requires b == [] || !IsJsSpace(b[0])
    ensures DropSpaces(run + b) == b
    decreases |run|
  {
    if run == [] {
      assert run + b == b;
    } else {
      assert (run + b)[0] == run[0];
      assert (run + b)[1..] == run[1..] + b;
      DropSpacesRun(run[1..], b);
    }
  }

  /**
   * One maximal run at a time: the text before the run, which has no `\s`,
   * is kept as it is, the whole run becomes one `rep`, and the rest is
   * treated alike. With `NoJsSpace(s) ==> ReplaceSpaceRuns(s, rep) == s`
   * this determines the result on every string.
   */
  lemma {:induction false} ReplaceSpaceRunsStep(a: string, run: string, b: string, rep: string)
    requires NoJsSpace(a) && IsSpaceRun(run)
    requires b == [] || !IsJsSpace(b[0])
    ensures ReplaceSpaceRuns(a + run + b, rep) == a + rep + ReplaceSpaceRuns(b, rep)
    decreases |a|
  {
    if a == [] {
      assert a + run == run && a + rep == rep;
      RunReplaced(a + run, b, rep);
    } else {
      var c, tail, rest := a[0], a[1..], ReplaceSpaceRuns(b, rep);
      assert NoJsSpace(tail) by {
        forall i | 0 <= i < |tail| ensures !IsJsSpace(tail[i]) {
          assert tail[i] == a[i + 1];
        }
      }
      ReplaceSpaceRunsStep(tail, run, b, rep);
      KeptChar(c, tail + run + b, rep);
      assert [c] + tail == a;
      Assoc([c], tail, run);
      Assoc([c], tail + run, b);
      Assoc([c], tail, rep);
      Assoc([c], tail + rep, rest);
    }
  }

  /** A character outside `\s` is kept. */
  lemma KeptChar(c: char, t: string, rep: string)
    requires !IsJsSpace(c)
    ensures ReplaceSpaceRuns([c] + t, rep) == [c] + ReplaceSpaceRuns(t, rep)
  {
    assert ([c] + t)[0] == c && ([c] + t)[1..] == t;
  }

  /** A leading run becomes one `rep`. */
  lemma RunReplaced(run: string, b: string, rep: string)
    requires IsSpaceRun(run)
    requires b == [] || !IsJsSpace(b[0])
    ensures ReplaceSpaceRuns(run + b, rep) == rep + ReplaceSpaceRuns(b, rep)
  {
    var s := run + b;
    assert s[0] == run[0];
    assert s[1..] == run[1..] + b;
    DropSpacesRun(run[1..], b);
  }

  /** Lower-casing works character by character, so it distributes over concatenation. */
  lemma ToLowerAppend(a: string, b: string)
    ensures ToLower(a + b) == ToLower(a) + ToLower(b)
  {
    var l, la, lb := ToLower(a + b), ToLower(a), ToLower(b);
    var r := la + lb;
    assert |l| == |r|;
    forall i | 0 <= i < |l| ensures l[i] == r[i] {
      if i < |a| {
        assert l[i] == LowerChar((a + b)[i]) && (a + b)[i] == a[i];
        assert r[i] == la[i] == LowerChar(a[i]);
      } else {
        assert l[i] == LowerChar((a + b)[i]) && (a + b)[i] == b[i - |a|];
        assert r[i] == lb[i - |a|] == LowerChar(b[i - |a|]);
      }
    }
  }

  function DigitChar(d: nat): char
    requires d < 10
  {
    ['0', '1', '2', '3', '4', '5', '6', '7', '8', '9'][d]
  }

  /** The decimal form of a natural number, as a template literal prints it. */
  function NatToString(n: nat): (r: string)
    ensures |r| > 0
    decreases n
  {
    if n < 10 then [DigitChar(n)] else NatToString(n / 10) + [DigitChar(n % 10)]
  }
}
