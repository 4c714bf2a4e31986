/** Input fields: looking a code point up in a range table, and SanitizeInput. */
module Sanitize {
  import opened Trimming
  import opened Utf16

  // IsAlphanumeric.

  datatype Range = Range(first: nat, second: nat)
  {
    predicate Has(c: nat) { first <= c <= second }
  }

  /** Ranges in ascending order that do not overlap. */
  ghost predicate IsTable(ranges: seq<Range>) {
    && (forall i :: 0 <= i < |ranges| ==> ranges[i].first <= ranges[i].second)
    && (forall i, j :: 0 <= i < j < |ranges| ==> ranges[i].second < ranges[j].first)
  }

  ghost predicate Member(ranges: seq<Range>, c: nat) {
    exists i :: 0 <= i < |ranges| && ranges[i].Has(c)
  }

  /** std::lower_bound with the comparator `range.second < c`. */
  method LowerBound(ranges: seq<Range>, c: nat) returns (it: nat)
    requires IsTable(ranges)
    ensures it <= |ranges|
    ensures forall i :: 0 <= i < it ==> ranges[i].second < c
    ensures forall i :: it <= i < |ranges| ==> c <= ranges[i].second
  {
    it := 0;
    var count: nat := |ranges|;
    while count > 0
      invariant it + count <= |ranges|
      invariant forall i :: 0 <= i < it ==> ranges[i].second < c
      invariant forall i :: it + count <= i < |ranges| ==> c <= ranges[i].second
    {
      var step := count / 2;
      if ranges[it + step].second < c {
        it := it + step + 1;
        count := count - step - 1;
      } else {
        count := step;
      }
    }
  }

  method IsAlphanumeric(ranges: seq<Range>, c: nat) returns (yes: bool)
    requires IsTable(ranges)
    ensures yes <==> Member(ranges, c)
  {
    var it := LowerBound(ranges, c);
    if it == |ranges| {
      return false;
    }
    return c >= ranges[it].first && c <= ranges[it].second;
  }

  // SanitizeInput.

  predicate IsSurrogate(c: CodePoint) { 0xD800 <= c <= 0xDFFF }

  /** No surrogate is left alone. */
  ghost predicate WellFormed(s: Text) {
    forall i :: 0 <= i < |Decode(s)| ==> !IsSurrogate(Decode(s)[i])
  }

  ghost predicate HasLetter(ranges: seq<Range>, s: Text) {
    exists i :: 0 <= i < |Decode(s)| && Member(ranges, Decode(s)[i] as nat)
  }

  ghost function Sanitized(ranges: seq<Range>, space: Unit -> bool, input: Text): Text {
    var s := Trim(input, space);
    if s != [] && WellFormed(s) && HasLetter(ranges, s) then s else []
  }

  lemma DecodedHeadOf(s: Text)
    requires s != []
    ensures Decode(s) == [Value(s[..First(s)])] + Decode(s[First(s)..])
    ensures IsSurrogate(Decode(s)[0]) <==> (IsHighSurrogate(s[0]) || IsLowSurrogate(s[0])) && !StartsWithPair(s)
  {
    if StartsWithPair(s) {
      PairValueIsRfc2781(s[0], s[1]);
    }
  }

  lemma WellFormedNext(s: Text)
    requires s != []
    ensures WellFormed(s) <==> !IsSurrogate(Decode(s)[0]) && WellFormed(s[First(s)..])
  {
    hide Value, IsSurrogate;
    var rest := s[First(s)..];
    DecodedHeadOf(s);
    assert forall i :: 0 <= i < |Decode(rest)| ==> Decode(s)[i + 1] == Decode(rest)[i];
    if WellFormed(s) {
      forall i | 0 <= i < |Decode(rest)| ensures !IsSurrogate(Decode(rest)[i]) {
        assert !IsSurrogate(Decode(s)[i + 1]);
      }
    }
  }

  lemma LetterNext(ranges: seq<Range>, s: Text)
    requires s != []
    ensures HasLetter(ranges, s) <==> Member(ranges, Decode(s)[0] as nat) || HasLetter(ranges, s[First(s)..])
  {
    hide Value, Member;
    var rest := s[First(s)..];
    DecodedHeadOf(s);
    assert forall i :: 0 <= i < |Decode(rest)| ==> Decode(s)[i + 1] == Decode(rest)[i];
    if i :| 0 <= i < |Decode(rest)| && Member(ranges, Decode(rest)[i] as nat) {
      assert Member(ranges, Decode(s)[i + 1] as nat);
    }
  }

  /** The validation loop. */
  method CheckSurrogates(s: Text) returns (ok: bool)
    ensures ok <==> WellFormed(s)
  {
    var i := 0;
    assert s[0..] == s;
    while i < |s|
      invariant i <= |s|
      invariant WellFormed(s) <==> WellFormed(s[i..])
    {
      var rest := s[i..];
      DecodedHeadOf(rest);
      WellFormedNext(rest);
      if IsHighSurrogate(s[i]) {
        if i + 1 >= |s| || !IsLowSurrogate(s[i + 1]) {
          return false;
        }
        i := i + 1;
      } else if IsLowSurrogate(s[i]) {
        return false;
      }
      i := i + 1;
      assert s[i..] == rest[First(rest)..];
    }
    return true;
  }

  /** The letter loop reads a low surrogate after every high one: validation has made sure it is there. */
  method FindLetter(ranges: seq<Range>, s: Text) returns (found: bool)
    requires IsTable(ranges) && WellFormed(s)
    ensures found <==> HasLetter(ranges, s)
  {
    hide Member, WellFormed, HasLetter;
    var i := 0;
    assert s[0..] == s;
    while i < |s|
      invariant i <= |s|
      invariant WellFormed(s[i..])
      invariant HasLetter(ranges, s) <==> HasLetter(ranges, s[i..])
    {
      var rest := s[i..];
      DecodedHeadOf(rest);
      WellFormedNext(rest);
      LetterNext(ranges, rest);
      var codePoint: CodePoint;
      if IsHighSurrogate(s[i]) {
        codePoint := PairValue(s[i], s[i + 1]);
        i := i + 1;
      } else {
        codePoint := s[i];
      }
      assert codePoint == Decode(rest)[0];
      var letter := IsAlphanumeric(ranges, codePoint as nat);
      if letter {
        return true;
      }
      i := i + 1;
      assert s[i..] == rest[First(rest)..];
    }
    NoLetterAtEnd(ranges, s[i..]);
    return false;
  }

  lemma NoLetterAtEnd(ranges: seq<Range>, s: Text)
    requires s == []
    ensures !HasLetter(ranges, s)
  {
  }

  method SanitizeInput(ranges: seq<Range>, space: Unit -> bool, input: Text) returns (r: Text)
    requires IsTable(ranges)
    ensures r == Sanitized(ranges, space, input)
  {
    var s := TrimLeft(input, space);
    s := TrimRight(s, space);
    if s == [] {
      return [];
    }
    var ok := CheckSurrogates(s);
    if !ok {
      return [];
    }
    var hasLetter := FindLetter(ranges, s);
    if !hasLetter {
      return [];
    }
    return s;
  }

  /**
   The result is empty, or the input without white space at its ends, well formed
   and with a letter; and sanitising it again changes nothing.
   */
  lemma SanitizedTwice(ranges: seq<Range>, space: Unit -> bool, input: Text) returns (i: nat, j: nat)
    ensures i <= j <= |input|
    ensures forall k :: 0 <= k < i || j <= k < |input| ==> space(input[k])
    ensures var r := Sanitized(ranges, space, input);
            && (r == [] || (r == input[i..j] && Trimmed(r, space) && WellFormed(r) && HasLetter(ranges, r)))
            && Sanitized(ranges, space, r) == r
  {
    hide WellFormed, HasLetter, Trimmed;
    i, j := TrimIff(input, space);
    var i1, j1 := TrimIff(input[i..j], space);
  }

  /** The part of an input between white space only, well formed and with a letter. */
  ghost predicate CleanPart(ranges: seq<Range>, space: Unit -> bool, input: Text, i: nat, j: nat) {
    && i <= j <= |input| && (forall k :: 0 <= k < i || j <= k < |input| ==> space(input[k]))
    && Trimmed(input[i..j], space) && WellFormed(input[i..j]) && HasLetter(ranges, input[i..j])
  }

  /** The result is not empty exactly when there is such a part, and then it is that part. */
  lemma SanitizedIff(ranges: seq<Range>, space: Unit -> bool, input: Text)
    ensures Sanitized(ranges, space, input) != [] <==> exists i: nat, j: nat :: CleanPart(ranges, space, input, i, j)
    ensures forall i: nat, j: nat | CleanPart(ranges, space, input, i, j) ::
              Sanitized(ranges, space, input) == input[i..j]
  {
    hide WellFormed, HasLetter;
    var i, j := TrimIff(input, space);
    forall a: nat, b: nat | CleanPart(ranges, space, input, a, b) ensures a == i && b == j && input[a..b] != [] {
      NoLetterIn(ranges, input[a..b]);
      OnePart(input, space, i, j, a, b);
    }
    if Sanitized(ranges, space, input) != [] {
      assert CleanPart(ranges, space, input, i, j);
    }
  }

  lemma NoLetterIn(ranges: seq<Range>, s: Text)
    ensures HasLetter(ranges, s) ==> s != []
  {
  }

  /** White space around something that does not begin or end with it leaves one way to cut. */
  lemma OnePart(s: Text, space: Unit -> bool, i: nat, j: nat, a: nat, b: nat)
    requires i <= j <= |s| && a < b <= |s|
    requires forall k :: 0 <= k < i || j <= k < |s| ==> space(s[k])
    requires forall k :: 0 <= k < a || b <= k < |s| ==> space(s[k])
    requires Trimmed(s[i..j], space) && Trimmed(s[a..b], space)
    ensures i == a && j == b
  {
    assert !space(s[a]) && !space(s[b - 1]);
    assert i <= a && b <= j;
    assert !space(s[i]) && !space(s[j - 1]);
  }

  /** An input is left alone exactly when it is empty or already clean. */
  lemma SanitizedSameIff(ranges: seq<Range>, space: Unit -> bool, input: Text)
    ensures Sanitized(ranges, space, input) == input <==>
            input == [] || (Trimmed(input, space) && WellFormed(input) && HasLetter(ranges, input))
  {
    hide WellFormed, HasLetter;
    var i, j := TrimIff(input, space);
  }
}
