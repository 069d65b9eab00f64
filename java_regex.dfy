/**
 * The fragment of java.util.regex that String.matches meets in the
 * allow-list: literal characters, backslash-quoted punctuation, '.' (any
 * character but a line terminator) and the '*' quantifier, matched against
 * the whole input. Any other construct is outside the fragment.
 */
module JavaRegex {
  import opened Wrappers

  datatype Atom = Lit(c: char) | AnyChar

  datatype Piece = Once(atom: Atom) | Star(atom: Atom)

  /** Characters with a meaning of their own in a Java regular expression. */
  predicate IsMeta(c: char) {
    c == '\\' || c == '^' || c == '$' || c == '|' || c == '?' || c == '*' || c == '+'
    || c == '(' || c == ')' || c == '[' || c == ']' || c == '{' || c == '}' || c == '.'
  }

  predicate IsAlphaNum(c: char) {
    ('a' <= c <= 'z') || ('A' <= c <= 'Z') || ('0' <= c <= '9')
  }

  /** What '.' refuses by default: the line terminators. */
  predicate IsLineTerminator(c: char) {
    c == '\n' || c == '\r' || c as int == 0x85 || c as int == 0x2028 || c as int == 0x2029
  }

  predicate AtomMatches(a: Atom, c: char) {
    match a
    case Lit(d) => c == d
    case AnyChar => !IsLineTerminator(c)
  }

  /** One atom at the head of a non-empty pattern, and how many characters it takes. */
  function ParseAtom(p: string): (r: Option<(Atom, nat)>)
    requires p != ""
    ensures r.Some? ==> 1 <= r.value.1 <= |p|
  {
    if p[0] == '\\' then
      if |p| >= 2 && !IsAlphaNum(p[1]) then Some((Lit(p[1]), 2)) else None
    else if p[0] == '.' then Some((AnyChar, 1))
    else if IsMeta(p[0]) then None
    else Some((Lit(p[0]), 1))
  }

  function Cons(x: Piece, r: Option<seq<Piece>>): Option<seq<Piece>> {
    match r
    case Some(xs) => Some([x] + xs)
    case None => None
  }

  /** The pattern as a sequence of pieces, or None outside the fragment. */
  function ParsePattern(p: string): Option<seq<Piece>>
    decreases |p|
  {
    if p == "" then Some([])
    else
      match ParseAtom(p)
      case None => None
      case Some((a, n)) =>
        if n < |p| && p[n] == '*' then Cons(Star(a), ParsePattern(p[n + 1..]))
        else Cons(Once(a), ParsePattern(p[n..]))
  }

  /** The pieces match the whole of s (Matcher.matches). */
  predicate Match(ps: seq<Piece>, s: string)
    decreases |ps|, |s|
  {
    if ps == [] then s == ""
    else
      match ps[0]
      case Once(a) => s != "" && AtomMatches(a, s[0]) && Match(ps[1..], s[1..])
      case Star(a) => Match(ps[1..], s) || (s != "" && AtomMatches(a, s[0]) && Match(ps, s[1..]))
  }

  /** String.matches(pattern) within the fragment; a pattern outside it is taken to match nothing. */
  predicate Matches(s: string, pattern: string) {
    match ParsePattern(pattern)
    case Some(ps) => Match(ps, s)
    case None => false
  }
}
