/** String helpers mirroring the JavaScript string operations the builder uses. */
module Text {

  /** `toLowerCase` on one character; only the ASCII letters are folded. */
  function LowerChar(c: char): char
  {
    if 'A' <= c <= 'Z' then (c as int + 32) as char else c
  }

  function Lower(s: string): (r: string)
    ensures |r| == |s|
  {
    if s == [] then [] else [LowerChar(s[0])] + Lower(s[1..])
  }

  lemma {:induction false} LowerAt(s: string, i: nat)
    requires i < |s|
    ensures Lower(s)[i] == LowerChar(s[i])
  {
    if i > 0 { LowerAt(s[1..], i - 1); }
  }

  /** `a.toLowerCase() === b.toLowerCase()`, compared character by character. */
  predicate EqualIgnoringCase(a: string, b: string)
  {
    |a| == |b| && (a == [] || (LowerChar(a[0]) == LowerChar(b[0]) && EqualIgnoringCase(a[1..], b[1..])))
  }

  lemma {:induction false} EqualIgnoringCaseIsLowerEquality(a: string, b: string)
    ensures EqualIgnoringCase(a, b) <==> Lower(a) == Lower(b)
  {
    if a != [] && b != [] {
      EqualIgnoringCaseIsLowerEquality(a[1..], b[1..]);
      assert Lower(a) == [LowerChar(a[0])] + Lower(a[1..]);
      assert Lower(b) == [LowerChar(b[0])] + Lower(b[1..]);
      if Lower(a) == Lower(b) {
        assert Lower(a)[0] == Lower(b)[0];
        assert Lower(a)[1..] == Lower(b)[1..];
      }
    }
  }

  lemma {:induction false} EqualIgnoringCaseTransitive(a: string, b: string, c: string)
    requires EqualIgnoringCase(a, b) && EqualIgnoringCase(b, c)
    ensures EqualIgnoringCase(a, c)
  {
    if a != [] { EqualIgnoringCaseTransitive(a[1..], b[1..], c[1..]); }
  }

  lemma {:induction false} EqualIgnoringCaseSymmetric(a: string, b: string)
    requires EqualIgnoringCase(a, b)
    ensures EqualIgnoringCase(b, a)
  {
    if a != [] { EqualIgnoringCaseSymmetric(a[1..], b[1..]); }
  }

  /** `p + (rest ? "." + rest : "")`: appends a dotted suffix when it is non-empty. */
  function DotJoin(p: string, rest: string): (r: string)
    ensures rest == "" ==> r == p
    ensures rest != "" ==> r == p + "." + rest
  {
    if rest == "" then p else p + "." + rest
  }

  /** `s.split(".")[0]`: everything before the first dot. */
  function FirstSegment(s: string): (r: string)
    ensures r <= s
    ensures '.' !in r
    ensures |r| < |s| ==> s[|r|] == '.'
  {
    if s == [] || s[0] == '.' then [] else [s[0]] + FirstSegment(s[1..])
  }

  /** `String(array)`: the elements joined with commas, as JavaScript prints an array
      that is used where a string is expected. */
  function JoinComma(xs: seq<string>): string
  {
    if xs == [] then "" else if |xs| == 1 then xs[0] else xs[0] + "," + JoinComma(xs[1..])
  }
}
