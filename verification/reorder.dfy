/** The "newest-first" reordering of cost units (app_api/jobs/catchup.js:356-361).

    The source binds `reversedMissingCosts` to the very array `missingCosts`
    and then, for i = 0 .. n-1, stores `missingCosts[n-1-i]` into position i of
    that same array. Once i passes the middle it reads slots it has already
    overwritten, so the result is not a reversal. */
module Reorder {

  /** What the in-place loop leaves behind: in the first half (i <= n-1-i) the
      mirror element, in the second half the element that was already there. */
  function AliasedReverse<T>(s: seq<T>): seq<T>
  {
    seq(|s|, i requires 0 <= i < |s| => if i <= |s| - 1 - i then s[|s| - 1 - i] else s[i])
  }

  /** The loop of catchup.js:357-361 on an array, with the alias kept: `reversed`
      and `missing` are the same array object. */
  method ReorderInPlace<T>(units: seq<T>) returns (r: seq<T>)
    ensures |r| == |units|
    ensures forall i :: 0 <= i < |r| && i <= |units| - 1 - i ==> r[i] == units[|units| - 1 - i]
    ensures forall i :: 0 <= i < |r| && i > |units| - 1 - i ==> r[i] == units[i]
  {
    var n := |units|;
    var missing := new T[n](i requires 0 <= i < n => units[i]);
    var reversed := missing;
    var i := 0;
    while i < n
      invariant 0 <= i <= n
      invariant reversed == missing
      invariant forall k :: 0 <= k < i && k <= n - 1 - k ==> missing[k] == units[n - 1 - k]
      invariant forall k :: 0 <= k < i && k > n - 1 - k ==> missing[k] == units[k]
      invariant forall k :: i <= k < n ==> missing[k] == units[k]
    {
      reversed[i] := missing[n - 1 - i];
      i := i + 1;
    }
    r := missing[..];
  }

  /** The method and the closed form agree. */
  lemma ReorderInPlaceIsAliasedReverse<T>(units: seq<T>, r: seq<T>)
    requires |r| == |units|
    requires forall i :: 0 <= i < |r| && i <= |units| - 1 - i ==> r[i] == units[|units| - 1 - i]
    requires forall i :: 0 <= i < |r| && i > |units| - 1 - i ==> r[i] == units[i]
    ensures r == AliasedReverse(units)
  {
  }

  /** The reordered list reads the same forwards and backwards. */
  lemma AliasedPalindrome<T>(s: seq<T>)
    ensures Palindrome(AliasedReverse(s))
  {
  }

  /** The first unit processed is the newest one. */
  lemma AliasedFirstIsNewest<T>(s: seq<T>)
    requires |s| > 0
    ensures AliasedReverse(s)[0] == s[|s| - 1]
  {
  }

  /** Only the newer half survives: an element is in the reordered list iff it
      sits at an index k with 2k >= n-1. With distinct units, the oldest
      floor(n/2) units are never processed. */
  lemma AliasedKeepsNewerHalf<T>(s: seq<T>, x: T)
    ensures x in AliasedReverse(s) <==> exists k :: 0 <= k < |s| && |s| - 1 <= 2 * k && s[k] == x
  {
    var r := AliasedReverse(s);
    var n := |s|;
    if x in r {
      var i :| 0 <= i < n && r[i] == x;
      if i <= n - 1 - i {
        assert s[n - 1 - i] == x;
      } else {
        assert s[i] == x;
      }
    }
    if exists k :: 0 <= k < n && n - 1 <= 2 * k && s[k] == x {
      var k :| 0 <= k < n && n - 1 <= 2 * k && s[k] == x;
      if k == n - 1 - k {
        assert r[k] == x;
      } else {
        assert r[n - 1 - k] == x;
      }
    }
  }

  lemma AliasedDropsOldestHalf<T>(s: seq<T>, k: int)
    requires forall i, j :: 0 <= i < j < |s| ==> s[i] != s[j]
    requires 0 <= k < |s| / 2
    ensures s[k] !in AliasedReverse(s)
  {
    AliasedKeepsNewerHalf(s, s[k]);
  }

  /** The evidently intended order: a true reversal. */
  function Reverse<T>(s: seq<T>): (r: seq<T>)
    ensures |r| == |s|
    ensures forall i :: 0 <= i < |r| ==> r[i] == s[|s| - 1 - i]
  {
    if |s| == 0 then [] else Reverse(s[1..]) + [s[0]]
  }

  /** Reversing twice gives the original order back. */
  lemma ReverseInvolution<T>(s: seq<T>)
    ensures Reverse(Reverse(s)) == s
  {
  }

  /** A true reversal processes every unit exactly once. */
  lemma ReverseIsPermutation<T>(s: seq<T>)
    ensures multiset(Reverse(s)) == multiset(s)
  {
    if |s| > 0 {
      ReverseIsPermutation(s[1..]);
      assert s == [s[0]] + s[1..];
    }
  }

  ghost predicate Palindrome<T>(s: seq<T>) {
    forall i :: 0 <= i < |s| ==> s[i] == s[|s| - 1 - i]
  }

  lemma AliasedMatchesReverseOnPalindrome<T>(s: seq<T>)
    requires Palindrome(s)
    ensures AliasedReverse(s) == Reverse(s)
  {
    var a := AliasedReverse(s);
    var r := Reverse(s);
    assert |a| == |r|;
    forall i | 0 <= i < |s|
      ensures a[i] == r[i]
    {
    }
  }

  lemma PalindromeOfAliasedMatch<T>(s: seq<T>)
    requires AliasedReverse(s) == Reverse(s)
    ensures Palindrome(s)
  {
    var n := |s|;
    var a := AliasedReverse(s);
    var r := Reverse(s);
    forall i | 0 <= i < n
      ensures s[i] == s[n - 1 - i]
    {
      if i > n - 1 - i {
        assert a[i] == r[i];
      } else {
        assert a[n - 1 - i] == r[n - 1 - i];
      }
    }
  }

  /** The aliased loop agrees with a true reversal exactly when the input is
      itself a palindrome. */
  lemma AliasedIsReverseIff<T>(s: seq<T>)
    ensures AliasedReverse(s) == Reverse(s) <==> Palindrome(s)
  {
    if Palindrome(s) {
      AliasedMatchesReverseOnPalindrome(s);
    }
    if AliasedReverse(s) == Reverse(s) {
      PalindromeOfAliasedMatch(s);
    }
  }

  lemma AliasedCounterexample()
    ensures AliasedReverse([1, 2]) == [2, 2]
    ensures Reverse([1, 2]) == [2, 1]
  {
    assert AliasedReverse([1, 2])[1] == 2;
  }
}
