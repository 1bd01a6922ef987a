/** Case folding of strings, as used by every case-insensitive comparison
    in the harness (`str.lower()` and the `re.IGNORECASE` flag). Only the
    ASCII letters are folded. */
module Text {

  predicate IsUpper(c: char)
  {
    'A' <= c <= 'Z'
  }

  /** `str.lower()` on a single character. */
  function LowerChar(c: char): (d: char)
    ensures !IsUpper(d)
    ensures !IsUpper(c) ==> d == c
    ensures IsUpper(c) ==> 'a' <= d <= 'z' && d as int - c as int == 32
  {
    if IsUpper(c) then (c as int + 32) as char else c
  }

  /** `str.lower()`: folds every character and keeps the length. */
  function Lower(s: string): (r: string)
    ensures |r| == |s|
  {
    seq(|s|, i requires 0 <= i < |s| => LowerChar(s[i]))
  }

  /** What `Lower` does at each position: no upper-case letter is left, a
      letter `A`-`Z` moves 32 code points up, and every other character
      stays as it was. */
  lemma LowerSpec(s: string)
    ensures forall i :: 0 <= i < |s| ==> !IsUpper(Lower(s)[i])
    ensures forall i :: 0 <= i < |s| && !IsUpper(s[i]) ==> Lower(s)[i] == s[i]
    ensures forall i :: 0 <= i < |s| && IsUpper(s[i]) ==> Lower(s)[i] as int == s[i] as int + 32
  {
  }

  /** Lower-casing twice is lower-casing once. */
  lemma LowerIdempotent(s: string)
    ensures Lower(Lower(s)) == Lower(s)
  {
  }

  /** Case-insensitive equality, the comparison `a.lower() == b.lower()`. */
  predicate SameIgnoringCase(a: string, b: string)
  {
    Lower(a) == Lower(b)
  }

  /** `s` starts with `t` when both are compared ignoring case. */
  predicate StartsWithIgnoringCase(s: string, t: string)
  {
    |t| <= |s| && forall i :: 0 <= i < |t| ==> LowerChar(s[i]) == LowerChar(t[i])
  }

  lemma StartsWithIgnoringCaseLower(s: string, t: string)
    requires |t| <= |s|
    ensures StartsWithIgnoringCase(s, t) <==> SameIgnoringCase(s[..|t|], t)
  {
    if SameIgnoringCase(s[..|t|], t) {
      forall i | 0 <= i < |t| ensures LowerChar(s[i]) == LowerChar(t[i]) {
        assert Lower(s[..|t|])[i] == Lower(t)[i];
      }
    }
  }
}
