/**
 * The java.lang.String operations the gateway relies on, with Java's exact
 * semantics: isBlank, trim, split on a one-character separator (trailing
 * empty strings dropped), replace of a literal target, startsWith, contains,
 * ASCII case mapping, and the "null" that string concatenation prints for a
 * null reference. Scans are written index by index over a fixed string.
 */
module JavaText {
  import opened Wrappers

  /** Character.isWhitespace. */
  predicate IsWhitespace(c: char) {
    var n := c as int;
    n == 0x20 || (0x09 <= n <= 0x0D) || (0x1C <= n <= 0x1F)
    || n == 0x1680 || (0x2000 <= n <= 0x2006) || (0x2008 <= n <= 0x200A)
    || n == 0x2028 || n == 0x2029 || n == 0x205F || n == 0x3000
  }

  function BlankFrom(s: string, i: nat): (r: bool)
    requires i <= |s|
    ensures r <==> forall k :: i <= k < |s| ==> IsWhitespace(s[k])
    decreases |s| - i
  {
    i == |s| || (IsWhitespace(s[i]) && BlankFrom(s, i + 1))
  }

  /** String.isBlank: empty, or white space only. */
  predicate IsBlank(s: string) {
    BlankFrom(s, 0)
  }

  /** The slice s[a..b], built character by character. */
  function Sub(s: string, a: nat, b: nat): (r: string)
    requires a <= b <= |s|
    ensures r == s[a..b]
    decreases b - a
  {
    if a == b then "" else [s[a]] + Sub(s, a + 1, b)
  }

  /** String.indexOf(c, i), with |s| standing for -1. */
  function IndexOf(s: string, c: char, i: nat): (r: nat)
    requires i <= |s|
    ensures i <= r <= |s|
    ensures r < |s| ==> s[r] == c
    ensures forall k :: i <= k < r ==> s[k] != c
    decreases |s| - i
  {
    if i == |s| || s[i] == c then i else IndexOf(s, c, i + 1)
  }

  function RegionFrom(s: string, i: nat, t: string, j: nat): (b: bool)
    requires j <= |t|
    ensures b <==> i + |t| <= |s| && s[i + j..i + |t|] == t[j..]
    decreases |t| - j
  {
    if i + |t| > |s| then false
    else if j == |t| then true
    else s[i + j] == t[j] && RegionFrom(s, i, t, j + 1)
  }

  /** s.startsWith(t, i). */
  function RegionMatches(s: string, i: nat, t: string): (b: bool)
    ensures b <==> i + |t| <= |s| && s[i..i + |t|] == t
  {
    RegionFrom(s, i, t, 0)
  }

  predicate StartsWith(s: string, t: string) {
    RegionMatches(s, 0, t)
  }

  /** t occurs in s at index k. */
  predicate OccursAt(s: string, k: nat, t: string) {
    RegionMatches(s, k, t)
  }

  function ContainsFrom(s: string, t: string, i: nat): (b: bool)
    requires i <= |s|
    ensures b <==> exists k: nat :: i <= k <= |s| && OccursAt(s, k, t)
    decreases |s| - i
  {
    OccursAt(s, i, t) || (i < |s| && ContainsFrom(s, t, i + 1))
  }

  /** String.contains. */
  predicate Contains(s: string, t: string) {
    ContainsFrom(s, t, 0)
  }

  function TrimStart(s: string, i: nat): (r: nat)
    requires i <= |s|
    ensures i <= r <= |s|
    ensures forall k :: i <= k < r ==> s[k] <= ' '
    ensures r < |s| ==> s[r] > ' '
    decreases |s| - i
  {
    if i < |s| && s[i] <= ' ' then TrimStart(s, i + 1) else i
  }

  function TrimEnd(s: string, st: nat, len: nat): (r: nat)
    requires st <= len <= |s|
    ensures st <= r <= len
    ensures forall k :: r <= k < len ==> s[k] <= ' '
    ensures st < r ==> s[r - 1] > ' '
    decreases len
  {
    if st < len && s[len - 1] <= ' ' then TrimEnd(s, st, len - 1) else len
  }

  /**
   * String.trim: drops every character up to U+0020 from both ends (a wider
   * set at the ends than isBlank's white space).
   */
  function Trim(s: string): (r: string)
    ensures |r| <= |s|
    ensures r == "" <==> forall k :: 0 <= k < |s| ==> s[k] <= ' '
    ensures r != "" ==> r[0] > ' ' && r[|r| - 1] > ' '
  {
    var st := TrimStart(s, 0);
    var len := TrimEnd(s, st, |s|);
    Sub(s, st, len)
  }

  lemma {:induction false} TrimClean(s: string)
    requires s == "" || (s[0] > ' ' && s[|s| - 1] > ' ')
    ensures Trim(s) == s
  {
    if s != "" {
      assert TrimStart(s, 0) == 0;
      assert TrimEnd(s, 0, |s|) == |s|;
    }
  }

  /** The pieces of s[start..] between occurrences of c, trailing empties kept. */
  function Pieces(s: string, c: char, start: nat): (r: seq<string>)
    requires start <= |s|
    ensures |r| >= 1
    ensures forall k :: 0 <= k < |r| ==> c !in r[k]
    ensures Join(r, c) == s[start..]
    decreases |s| - start
  {
    var j := IndexOf(s, c, start);
    if j == |s| then
      [Sub(s, start, |s|)]
    else
      var rest := Pieces(s, c, j + 1);
      assert s[start..] == s[start..j] + [c] + s[j + 1..];
      [Sub(s, start, j)] + rest
  }

  function Join(xs: seq<string>, c: char): string
    requires |xs| >= 1
  {
    if |xs| == 1 then xs[0] else xs[0] + [c] + Join(xs[1..], c)
  }

  /** The number of leading entries left once the trailing empty strings are dropped. */
  function KeptCount(xs: seq<string>, n: nat): (r: nat)
    requires n <= |xs|
    ensures r <= n
    ensures r == 0 || xs[r - 1] != ""
    ensures forall k :: r <= k < n ==> xs[k] == ""
    decreases n
  {
    if n == 0 || xs[n - 1] != "" then n else KeptCount(xs, n - 1)
  }

  function Take(xs: seq<string>, n: nat): (r: seq<string>)
    requires n <= |xs|
    ensures r == xs[..n]
    decreases n
  {
    if n == 0 then [] else Take(xs, n - 1) + [xs[n - 1]]
  }

  function DropTrailingEmpty(xs: seq<string>): (r: seq<string>)
    ensures |r| <= |xs| && r == xs[..|r|]
    ensures |r| == 0 || r[|r| - 1] != ""
    ensures forall k :: |r| <= k < |xs| ==> xs[k] == ""
  {
    Take(xs, KeptCount(xs, |xs|))
  }

  /**
   * String.split(regex) for a one-character regex that is not a
   * metacharacter: without a match the result is [s] itself; otherwise the
   * pieces between separators with the trailing empty ones removed.
   */
  function Split(s: string, c: char): (r: seq<string>)
    ensures forall k :: 0 <= k < |r| ==> c !in r[k]
    ensures c !in s ==> r == [s]
  {
    if IndexOf(s, c, 0) == |s| then [s] else DropTrailingEmpty(Pieces(s, c, 0))
  }

  /** A non-empty first piece of a split is the text before the first separator. */
  lemma {:induction false} SplitHead(s: string, c: char)
    requires s[..IndexOf(s, c, 0)] != ""
    ensures |Split(s, c)| > 0 && Split(s, c)[0] == s[..IndexOf(s, c, 0)]
  {
    var j := IndexOf(s, c, 0);
    if j < |s| {
      var ps := Pieces(s, c, 0);
      assert ps[0] == s[..j];
      assert ps[0] != "";
    }
  }

  /** An empty first piece of a split leaves nothing non-empty in front. */
  lemma {:induction false} SplitHeadEmpty(s: string, c: char)
    requires s[..IndexOf(s, c, 0)] == ""
    ensures |Split(s, c)| == 0 || Split(s, c)[0] == ""
  {
    var j := IndexOf(s, c, 0);
    if j < |s| {
      var ps := Pieces(s, c, 0);
      assert ps[0] == s[..j];
    }
  }

  /** Two separator-free pieces, the second non-empty, split back into themselves. */
  lemma SplitTwo(a: string, b: string, c: char)
    requires c !in a && c !in b && b != ""
    ensures Split(a + [c] + b, c) == [a, b]
  {
    var s := a + [c] + b;
    assert IndexOf(s, c, 0) == |a| by {
      assert s[|a|] == c;
      assert forall k :: 0 <= k < |a| ==> s[k] == a[k];
    }
    assert IndexOf(s, c, |a| + 1) == |s| by {
      assert forall k :: |a| + 1 <= k < |s| ==> s[k] == b[k - |a| - 1];
    }
    assert s[..|a|] == a && s[|a| + 1..] == b;
    assert Pieces(s, c, 0) == [a, b];
  }

  function ReplaceFrom(s: string, t: string, rep: string, i: nat): string
    requires |t| > 0 && i <= |s|
    decreases |s| - i
  {
    if i == |s| then ""
    else if RegionMatches(s, i, t) then rep + ReplaceFrom(s, t, rep, i + |t|)
    else [s[i]] + ReplaceFrom(s, t, rep, i + 1)
  }

  /** String.replace(target, replacement): every occurrence, left to right, without overlaps. */
  function Replace(s: string, t: string, rep: string): string
    requires |t| > 0
  {
    ReplaceFrom(s, t, rep, 0)
  }

  /** Text in which the target never occurs is left as it is. */
  lemma {:induction false} ReplaceAbsent(s: string, t: string, rep: string, i: nat)
    requires |t| > 0 && i <= |s|
    requires forall k :: i <= k < |s| ==> !RegionMatches(s, k, t)
    ensures ReplaceFrom(s, t, rep, i) == s[i..]
    decreases |s| - i
  {
    if i < |s| {
      ReplaceAbsent(s, t, rep, i + 1);
    }
  }

  /** Replacing one character by another maps the text character by character. */
  lemma {:induction false} ReplaceCharWise(s: string, c: char, d: char, i: nat)
    requires i <= |s|
    ensures |ReplaceFrom(s, [c], [d], i)| == |s| - i
    ensures forall k :: 0 <= k < |s| - i ==>
      ReplaceFrom(s, [c], [d], i)[k] == (if s[i + k] == c then d else s[i + k])
    decreases |s| - i
  {
    if i < |s| {
      ReplaceCharWise(s, c, d, i + 1);
      assert RegionMatches(s, i, [c]) <==> s[i] == c by {
        assert RegionMatches(s, i, [c]) <==> s[i..i + 1] == [c];
      }
    }
  }

  /** Replacing by the empty string never lengthens the text. */
  lemma {:induction false} ReplaceByEmptyShrinks(s: string, t: string, i: nat)
    requires |t| > 0 && i <= |s|
    ensures |ReplaceFrom(s, t, "", i)| <= |s| - i
    decreases |s| - i
  {
    if i < |s| {
      if RegionMatches(s, i, t) {
        ReplaceByEmptyShrinks(s, t, i + |t|);
      } else {
        ReplaceByEmptyShrinks(s, t, i + 1);
      }
    }
  }

  /** Character.toUpperCase restricted to ASCII letters. */
  function UpperChar(c: char): char {
    if 'a' <= c <= 'z' then (c as int - 32) as char else c
  }

  function LowerChar(c: char): char {
    if 'A' <= c <= 'Z' then (c as int + 32) as char else c
  }

  function UpperFrom(s: string, i: nat): (r: string)
    requires i <= |s|
    ensures |r| == |s| - i && forall k :: 0 <= k < |r| ==> r[k] == UpperChar(s[i + k])
    decreases |s| - i
  {
    if i == |s| then [] else [UpperChar(s[i])] + UpperFrom(s, i + 1)
  }

  function LowerFrom(s: string, i: nat): (r: string)
    requires i <= |s|
    ensures |r| == |s| - i && forall k :: 0 <= k < |r| ==> r[k] == LowerChar(s[i + k])
    decreases |s| - i
  {
    if i == |s| then [] else [LowerChar(s[i])] + LowerFrom(s, i + 1)
  }

  /** String.toUpperCase, on ASCII letters. */
  function ToUpper(s: string): (r: string)
    ensures |r| == |s| && forall k :: 0 <= k < |s| ==> r[k] == UpperChar(s[k])
  {
    UpperFrom(s, 0)
  }

  /** String.toLowerCase, on ASCII letters. */
  function ToLower(s: string): (r: string)
    ensures |r| == |s| && forall k :: 0 <= k < |s| ==> r[k] == LowerChar(s[k])
  {
    LowerFrom(s, 0)
  }

  /** What Java's string concatenation prints for a possibly-null string. */
  function Str(o: Option<string>): string {
    match o
    case Some(v) => v
    case None => "null"
  }
}
