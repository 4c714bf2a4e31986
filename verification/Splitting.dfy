/** Splitting a sequence at every occurrence of a separator, and joining the parts again. */
module Splitting {
  /** The index of the first occurrence, or the length. */
  function Find<T(==)>(s: seq<T>, x: T): (i: nat)
    ensures i <= |s| && x !in s[..i] && (i < |s| ==> s[i] == x)
  {
    if s == [] || s[0] == x then 0 else 1 + Find(s[1..], x)
  }

  /** One more part than there are separators. */
  function Split<T(==)>(s: seq<T>, x: T): (parts: seq<seq<T>>)
    ensures |parts| >= 1
    decreases |s|
  {
    var i := Find(s, x);
    if i == |s| then [s] else [s[..i]] + Split(s[i + 1..], x)
  }

  function Join<T>(parts: seq<seq<T>>, x: T): seq<T> {
    if |parts| == 0 then []
    else if |parts| == 1 then parts[0]
    else parts[0] + [x] + Join(parts[1..], x)
  }

  lemma {:induction false} FindAfter<T>(s: seq<T>, x: T, rest: seq<T>)
    requires x !in s
    ensures Find(s + rest, x) == |s| + Find(rest, x)
  {
    if s == [] {
      assert s + rest == rest;
    } else {
      assert (s + rest)[1..] == s[1..] + rest;
      FindAfter(s[1..], x, rest);
    }
  }

  lemma FindFirst<T>(s: seq<T>, x: T, k: nat)
    requires k < |s| && s[k] == x
    ensures Find(s, x) <= k
  {
    if s[0] != x {
      FindFirst(s[1..], x, k - 1);
    }
  }

  lemma {:induction false} SplitHasNoSeparator<T>(s: seq<T>, x: T)
    ensures forall p <- Split(s, x) :: x !in p
    decreases |s|
  {
    var i := Find(s, x);
    if i < |s| {
      SplitHasNoSeparator(s[i + 1..], x);
    } else {
      assert s[..i] == s;
    }
  }

  lemma {:induction false} JoinUndoesSplit<T>(s: seq<T>, x: T)
    ensures Join(Split(s, x), x) == s
    decreases |s|
  {
    hide Find;
    var i := Find(s, x);
    if i < |s| {
      var rest := Split(s[i + 1..], x);
      JoinUndoesSplit(s[i + 1..], x);
      assert Split(s, x)[0] == s[..i] && Split(s, x)[1..] == rest;
      assert s == s[..i] + [x] + s[i + 1..];
    }
  }

  /** Everything up to the first separator is the first part. */
  lemma SplitFirst<T>(s: seq<T>, x: T, rest: seq<T>)
    requires x !in s
    ensures Split(s + [x] + rest, x) == [s] + Split(rest, x)
  {
    assert s + [x] + rest == s + ([x] + rest);
    FindAfter(s, x, [x] + rest);
    assert (s + ([x] + rest))[..|s|] == s && (s + ([x] + rest))[|s| + 1..] == rest;
  }

  lemma {:induction false} SplitAcross<T>(a: seq<T>, x: T, b: seq<T>)
    ensures Split(a + [x] + b, x) == Split(a, x) + Split(b, x)
    decreases |a|
  {
    hide Find;
    var i := Find(a, x);
    if i == |a| {
      assert a[..i] == a;
      SplitFirst(a, x, b);
    } else {
      assert a + [x] + b == a[..i] + [x] + (a[i + 1..] + [x] + b);
      SplitFirst(a[..i], x, a[i + 1..] + [x] + b);
      SplitAcross(a[i + 1..], x, b);
    }
  }

  lemma {:induction false} JoinAcross<T>(a: seq<seq<T>>, b: seq<seq<T>>, x: T)
    requires a != [] && b != []
    ensures Join(a + b, x) == Join(a, x) + [x] + Join(b, x)
    decreases |a|
  {
    assert (a + b)[1..] == a[1..] + b;
    if |a| == 1 {
      assert a[1..] + b == b;
    } else {
      JoinAcross(a[1..], b, x);
    }
  }

  /** Splitting undoes joining exactly when no part holds the separator. */
  lemma {:induction false} SplitUndoesJoinIff<T>(parts: seq<seq<T>>, x: T)
    requires parts != []
    ensures Split(Join(parts, x), x) == parts <==> forall p <- parts :: x !in p
    decreases |parts|
  {
    SplitHasNoSeparator(Join(parts, x), x);
    if forall p <- parts :: x !in p {
      if |parts| == 1 {
        FindAfter(parts[0], x, []);
        assert parts[0] + [] == parts[0];
      } else {
        SplitFirst(parts[0], x, Join(parts[1..], x));
        SplitUndoesJoinIff(parts[1..], x);
      }
    }
  }
}
