/** Strings as sequences of code points, and trimming by the Unicode property White_Space, which Go's
    `strings.TrimSpace` and Rust's `str::trim` share. */
module CodePoints {
  predicate IsWhite(c: char) {
    || '\t' <= c <= '\r' || c == ' ' || c == '\U{85}' || c == '\U{A0}' || c == '\U{1680}' || '\U{2000}' <= c <= '\U{200A}'
    || c == '\U{2028}' || c == '\U{2029}' || c == '\U{202F}' || c == '\U{205F}' || c == '\U{3000}'
  }

  /** Where the spaces from i on end, and where the spaces before i start. */
  function SpacesEnd(space: char -> bool, s: string, i: nat): (j: nat)
    requires i <= |s|
    ensures i <= j <= |s| && (j < |s| ==> !space(s[j]))
    ensures i < |s| && !space(s[i]) ==> j == i
    decreases |s| - i
  {
    if i < |s| && space(s[i]) then SpacesEnd(space, s, i + 1) else i
  }

  function SpacesStart(space: char -> bool, s: string, i: nat): (j: nat)
    requires i <= |s|
    ensures j <= i && (j > 0 ==> !space(s[j - 1]))
    ensures j == i <==> i == 0 || !space(s[i - 1])
    ensures i > 0 && !space(s[0]) ==> j > 0
  {
    if i > 0 && space(s[i - 1]) then SpacesStart(space, s, i - 1) else i
  }

  function TrimStart(space: char -> bool, s: string): (r: string)
    ensures |r| <= |s| && (r != "" ==> !space(r[0]))
    ensures s != "" && !space(s[0]) ==> r == s
  {
    s[SpacesEnd(space, s, 0)..]
  }

  function TrimEnd(space: char -> bool, s: string): (r: string)
    ensures |r| <= |s| && r == s[..|r|]
    ensures r != "" ==> !space(r[|r| - 1])
    ensures s != "" && !space(s[0]) ==> r != ""
    ensures r == s <==> !Ends(space, s)
  {
    s[..SpacesStart(space, s, |s|)]
  }

  function TrimBy(space: char -> bool, s: string): string { TrimEnd(space, TrimStart(space, s)) }

  predicate Starts(space: char -> bool, s: string) { s != "" && space(s[0]) }
  predicate Ends(space: char -> bool, s: string) { s != "" && space(s[|s| - 1]) }

  /** What is left starts and ends with no space; trimming leaves exactly the strings that do. */
  lemma TrimByFacts(space: char -> bool, s: string)
    ensures var t := TrimBy(space, s); |t| <= |s| && !Starts(space, t) && !Ends(space, t)
    ensures !Starts(space, s) ==>
              && (s != "" ==> TrimBy(space, s) != "")
              && TrimBy(space, s) <= s
              && (TrimBy(space, s) == s <==> !Ends(space, s))
  {
  }

  function Trim(s: string): string { TrimBy(IsWhite, s) }
  predicate StartsWhite(s: string) { Starts(IsWhite, s) }
  predicate EndsWhite(s: string) { Ends(IsWhite, s) }

  lemma TrimFacts(s: string)
    ensures var t := Trim(s); |t| <= |s| && !StartsWhite(t) && !EndsWhite(t)
    ensures !StartsWhite(s) ==> (s != "" ==> Trim(s) != "") && (Trim(s) == s <==> !EndsWhite(s))
  {
    TrimByFacts(IsWhite, s);
  }
}
