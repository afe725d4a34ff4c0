/** The case rules of the engine's `FString` comparisons, for ASCII letters:
    `operator==` and `Contains` ignore case unless told otherwise. */
module AsciiText {

  function ToLowerChar(c: char): (r: char)
    ensures 'A' <= c <= 'Z' ==> r as int == c as int + 32
    ensures !('A' <= c <= 'Z') ==> r == c
  {
    if 'A' <= c <= 'Z' then (c as int + 32) as char else c
  }

  function ToLower(s: string): (r: string)
    ensures |r| == |s| && forall i :: 0 <= i < |s| ==> r[i] == ToLowerChar(s[i])
  {
    seq(|s|, i requires 0 <= i < |s| => ToLowerChar(s[i]))
  }

  /** `FString::operator==`: equal up to the case of ASCII letters. */
  predicate EqualsIgnoreCase(a: string, b: string)
  {
    ToLower(a) == ToLower(b)
  }

  /** `EqualsIgnoreCase` is an equivalence relation that contains equality. */
  lemma EqualsIgnoreCaseIsEquivalence(a: string, b: string, c: string)
    ensures EqualsIgnoreCase(a, a)
    ensures EqualsIgnoreCase(a, b) ==> EqualsIgnoreCase(b, a)
    ensures EqualsIgnoreCase(a, b) && EqualsIgnoreCase(b, c) ==> EqualsIgnoreCase(a, c)
    ensures EqualsIgnoreCase(a, b) ==> |a| == |b|
  {
  }

  /** Lower-casing keeps a word that is already lower case. */
  lemma ToLowerOfLowercase(s: string)
    requires forall i :: 0 <= i < |s| ==> !('A' <= s[i] <= 'Z')
    ensures ToLower(s) == s
  {
    assert forall i :: 0 <= i < |s| ==> ToLower(s)[i] == s[i];
  }

  /** `FString::Contains` with the default `ESearchCase::IgnoreCase`, searching from
      the front. */
  predicate ContainsIgnoreCase(s: string, sub: string)
    decreases |s|
  {
    |sub| <= |s| && (EqualsIgnoreCase(s[..|sub|], sub) || (|s| > 0 && ContainsIgnoreCase(s[1..], sub)))
  }

  /** `sub` matches the window of `s` that starts at `i`. */
  predicate MatchesAt(s: string, sub: string, i: int)
  {
    0 <= i <= |s| - |sub| && EqualsIgnoreCase(s[i..i + |sub|], sub)
  }

  /** The search finds `sub` exactly when some window of `s` matches it. */
  lemma {:induction false} ContainsIgnoreCaseMeansWindow(s: string, sub: string)
    ensures ContainsIgnoreCase(s, sub) <==> exists i :: MatchesAt(s, sub, i)
    decreases |s|
  {
    if |sub| <= |s| {
      assert s[0..0 + |sub|] == s[..|sub|];
      assert MatchesAt(s, sub, 0) <==> EqualsIgnoreCase(s[..|sub|], sub);
      if |s| > 0 {
        ContainsIgnoreCaseMeansWindow(s[1..], sub);
        forall i | MatchesAt(s[1..], sub, i)
          ensures MatchesAt(s, sub, i + 1)
        {
          assert s[1..][i..i + |sub|] == s[i + 1..i + 1 + |sub|];
        }
        forall i | 0 < i && MatchesAt(s, sub, i)
          ensures MatchesAt(s[1..], sub, i - 1)
        {
          assert s[1..][i - 1..i - 1 + |sub|] == s[i..i + |sub|];
        }
      }
    }
  }

  /** A string that starts with `sub`, in any case, contains it. */
  lemma ContainsPrefix(s: string, sub: string)
    requires |sub| <= |s| && EqualsIgnoreCase(s[..|sub|], sub)
    ensures ContainsIgnoreCase(s, sub)
  {
  }
}
