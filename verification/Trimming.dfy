/** Trimming a sequence from either side, for any notion of white space. */
module Trimming {
  function TrimLeft<T>(s: seq<T>, space: T -> bool): seq<T> {
    if s != [] && space(s[0]) then TrimLeft(s[1..], space) else s
  }

  function TrimRight<T>(s: seq<T>, space: T -> bool): seq<T> {
    if s != [] && space(s[|s| - 1]) then TrimRight(s[..|s| - 1], space) else s
  }

  function Trim<T>(s: seq<T>, space: T -> bool): seq<T> {
    TrimRight(TrimLeft(s, space), space)
  }

  /** Neither end is white space. */
  predicate Trimmed<T>(s: seq<T>, space: T -> bool) {
    s == [] || (!space(s[0]) && !space(s[|s| - 1]))
  }

  lemma {:induction false} TrimLeftOf<T>(s: seq<T>, space: T -> bool)
    ensures var t := TrimLeft(s, space);
            && |t| <= |s| && t == s[|s| - |t|..] && (t != [] ==> !space(t[0]))
            && forall i :: 0 <= i < |s| - |t| ==> space(s[i])
    ensures s != [] && !space(s[0]) ==> TrimLeft(s, space) == s
  {
    if s != [] && space(s[0]) {
      TrimLeftOf(s[1..], space);
    }
  }

  lemma {:induction false} TrimRightOf<T>(s: seq<T>, space: T -> bool)
    ensures var t := TrimRight(s, space);
            && |t| <= |s| && t == s[..|t|] && (t != [] ==> !space(t[|t| - 1]))
            && forall i :: |t| <= i < |s| ==> space(s[i])
    ensures s != [] && !space(s[|s| - 1]) ==> TrimRight(s, space) == s
  {
    if s != [] && space(s[|s| - 1]) {
      TrimRightOf(s[..|s| - 1], space);
    }
  }

  /** Trimming takes away white space at the ends and nothing else, and only when there is some. */
  lemma TrimIff<T>(s: seq<T>, space: T -> bool) returns (i: nat, j: nat)
    ensures i <= j <= |s| && Trim(s, space) == s[i..j]
    ensures forall k :: 0 <= k < i || j <= k < |s| ==> space(s[k])
    ensures Trimmed(Trim(s, space), space)
    ensures Trim(s, space) == s <==> Trimmed(s, space)
  {
    var left := TrimLeft(s, space);
    TrimLeftOf(s, space);
    TrimRightOf(left, space);
    i := |s| - |left|;
    j := i + |TrimRight(left, space)|;
    assert forall k :: j <= k < |s| ==> s[k] == left[k - i];
    assert Trim(s, space) == s[i..j];
  }
}
