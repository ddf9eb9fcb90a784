/** NUL-terminated CHAR16 strings as the loader searches them. A string is modelled
    by its characters before the terminator; reading one position past the end
    yields the terminator L'\0'. */
module LoaderStrings {
  import opened Common

  /** The CHAR16 string of an ASCII literal (every code unit of the literals used is below 2^16). */
  function Wide(s: string): (r: seq<Char16>)
    ensures |r| == |s|
  {
    seq(|s|, i requires 0 <= i < |s| => (s[i] as int) % TWO_16)
  }

  /** The characters of a C string: none of them is the terminator. */
  predicate NulFree(s: seq<Char16>) {
    forall i :: 0 <= i < |s| ==> s[i] != 0
  }

  /** *(s + k) for a C string: a character, or the terminator at k == |s|. */
  function At(s: seq<Char16>, k: nat): (r: Char16)
    requires k <= |s|
    ensures NulFree(s) ==> (r == 0 <==> k == |s|)
  {
    if k < |s| then s[k] else 0
  }

  /** A case mapping the search can use: it maps the terminator, and only the
      terminator, to L'\0', so a mapped character never ends a string early. */
  predicate KeepsNul(up: Char16 -> Char16) {
    forall c: Char16 :: up(c) == 0 <==> c == 0
  }

  /** EDK2 BaseLib's CharToUpper: 'a'..'z' to 'A'..'Z', every other code unit unchanged. */
  function CharToUpper(c: Char16): (r: Char16) {
    if 0x61 <= c <= 0x7A then c - 0x20 else c
  }

  /** CharToUpper folds exactly the ASCII letters and never produces or removes the terminator. */
  lemma CharToUpperFolds()
    ensures KeepsNul(CharToUpper)
    ensures forall c: Char16 :: CharToUpper(c) != c <==> 0x61 <= c <= 0x7A
    ensures forall c: Char16 :: CharToUpper(CharToUpper(c)) == CharToUpper(c)
  {
  }

  /** The identity mapping: StrStr is the same search without case folding. */
  function Identity(c: Char16): (r: Char16) {
    c
  }

  /** needle occurs in haystack at offset k once both are mapped through up. */
  predicate MatchesAt(up: Char16 -> Char16, haystack: seq<Char16>, needle: seq<Char16>, k: nat) {
    && k + |needle| <= |haystack|
    && forall j :: 0 <= j < |needle| ==> up(haystack[k + j]) == up(needle[j])
  }

  /** The leftmost match at offset k or later, if any. */
  function FindFrom(up: Char16 -> Char16, haystack: seq<Char16>, needle: seq<Char16>, k: nat): (r: Option<nat>)
    requires k <= |haystack|
    ensures r.Some? ==> k <= r.value && MatchesAt(up, haystack, needle, r.value)
    ensures r.Some? ==> forall i :: k <= i < r.value ==> !MatchesAt(up, haystack, needle, i)
    ensures r.None? ==> forall i :: k <= i ==> !MatchesAt(up, haystack, needle, i)
    decreases |haystack| - k
  {
    if k + |needle| > |haystack| then None
    else if MatchesAt(up, haystack, needle, k) then Some(k)
    else FindFrom(up, haystack, needle, k + 1)
  }

  /** The leftmost offset at which needle occurs in haystack under up, or None. */
  function Find(up: Char16 -> Char16, haystack: seq<Char16>, needle: seq<Char16>): (r: Option<nat>) {
    FindFrom(up, haystack, needle, 0)
  }

  /** The search result is the leftmost match, and None exactly when there is no match at all;
      an empty needle matches at the start of any haystack, the empty one included. */
  lemma FindIsLeftmost(up: Char16 -> Char16, haystack: seq<Char16>, needle: seq<Char16>)
    ensures var r := Find(up, haystack, needle);
            && (r.Some? ==> MatchesAt(up, haystack, needle, r.value)
                            && forall i :: 0 <= i < r.value ==> !MatchesAt(up, haystack, needle, i))
            && (r.None? <==> forall i :: !MatchesAt(up, haystack, needle, i))
    ensures |needle| == 0 ==> Find(up, haystack, needle) == Some(0)
    ensures |needle| > 0 && |haystack| == 0 ==> Find(up, haystack, needle) == None
  {
  }

  /** StriStr(String1, String2): the leftmost case-insensitive occurrence of String2 in
      String1 as an offset into String1, or None for NULL. The early NULL when String1
      ends in the middle of a comparison is sound: every later start is shorter still. */
  method StriStr(up: Char16 -> Char16, string1: seq<Char16>, string2: seq<Char16>) returns (r: Option<nat>)
    requires KeepsNul(up)
    requires NulFree(string1) && NulFree(string2)
    ensures r == Find(up, string1, string2)
  {
    if At(string2, 0) == 0 {
      return Some(0);
    }
    var s1 := 0;
    while At(string1, s1) != 0
      invariant s1 <= |string1|
      invariant Find(up, string1, string2) == FindFrom(up, string1, string2, s1)
      decreases |string1| - s1
    {
      var firstMatch := s1;
      var s2 := 0;
      var c1 := up(At(string1, s1));
      var c2 := up(At(string2, s2));
      while c1 == c2 && c1 != 0
        invariant s1 == firstMatch + s2 && s1 <= |string1| && s2 <= |string2|
        invariant c1 == up(At(string1, s1)) && c2 == up(At(string2, s2))
        invariant forall t :: 0 <= t < s2 ==> up(string1[firstMatch + t]) == up(string2[t])
        decreases |string1| - s1
      {
        s1 := s1 + 1;
        s2 := s2 + 1;
        c1 := up(At(string1, s1));
        c2 := up(At(string2, s2));
      }
      if c2 == 0 {
        assert MatchesAt(up, string1, string2, firstMatch);
        return Some(firstMatch);
      }
      if c1 == 0 {
        return None;
      }
      assert !MatchesAt(up, string1, string2, firstMatch);
      s1 := firstMatch + 1;
    }
    return None;
  }

  /** needle occurs verbatim in haystack at offset k. */
  predicate OccursAt(haystack: seq<Char16>, needle: seq<Char16>, k: nat) {
    k + |needle| <= |haystack| && haystack[k..k + |needle|] == needle
  }

  /** Without case folding a match is a verbatim occurrence. */
  lemma IdentityMatchIsOccurrence(haystack: seq<Char16>, needle: seq<Char16>, k: nat)
    ensures MatchesAt(Identity, haystack, needle, k) <==> OccursAt(haystack, needle, k)
  {
    if OccursAt(haystack, needle, k) {
      forall j | 0 <= j < |needle|
        ensures haystack[k + j] == needle[j]
      {
        assert haystack[k..k + |needle|][j] == needle[j];
      }
    }
  }

  /** EDK2's StrStr: the leftmost case-sensitive occurrence, or None when there is none. */
  function StrStr(string1: seq<Char16>, string2: seq<Char16>): (r: Option<nat>)
    ensures r.Some? ==> OccursAt(string1, string2, r.value)
    ensures r.Some? ==> forall i :: 0 <= i < r.value ==> !OccursAt(string1, string2, i)
    ensures r.None? ==> forall i :: !OccursAt(string1, string2, i)
  {
    var r := Find(Identity, string1, string2);
    forall i: nat
      ensures MatchesAt(Identity, string1, string2, i) <==> OccursAt(string1, string2, i)
    {
      IdentityMatchIsOccurrence(string1, string2, i);
    }
    r
  }
}
