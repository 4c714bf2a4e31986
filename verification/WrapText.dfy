/**
 WrapText: greedy wrapping of UTF-16 text by measured width. The width of a
 character and the notion of white space are parameters.
 */
module WrapText {
  import opened Splitting
  import opened Trimming
  import opened Utf16

  const NEWLINE: Unit := 10
  const NL: Text := [NEWLINE]

  datatype Layout = Layout(width: Text -> real, limit: int, space: Unit -> bool)
  {
    /** Widths are not negative, newline is white space, surrogates are not. */
    ghost predicate Valid() {
      && (forall p: Text :: width(p) >= 0.0)
      && space(NEWLINE)
      && (forall u: Unit :: space(u) ==> !IsHighSurrogate(u) && !IsLowSurrogate(u))
    }

    predicate Blank(p: Text) { |p| == 1 && space(p[0]) }
  }

  // Cutting one paragraph into lines.

  function Total(l: Layout, ps: seq<Text>): real {
    if ps == [] then 0.0 else Total(l, ps[..|ps| - 1]) + l.width(ps[|ps| - 1])
  }

  /** A line may be too wide only if it is a single character. */
  predicate Fits(l: Layout, line: seq<Text>) {
    |line| == 1 || (line != [] && Total(l, line) <= l.limit as real)
  }

  /** How far a line of `n` characters can be extended. */
  function Extend(l: Layout, ps: seq<Text>, n: nat): (m: nat)
    requires 1 <= n <= |ps|
    ensures n <= m <= |ps|
    decreases |ps| - n
  {
    if n < |ps| && Total(l, ps[..n]) + l.width(ps[n]) <= l.limit as real then Extend(l, ps, n + 1) else n
  }

  function Lines(l: Layout, ps: seq<Text>): seq<seq<Text>> {
    if ps == [] then []
    else
      var n := Extend(l, ps, 1);
      [ps[..n]] + Lines(l, ps[n..])
  }

  function Concat(lines: seq<seq<Text>>): seq<Text> {
    if lines == [] then [] else lines[0] + Concat(lines[1..])
  }

  lemma {:induction false} ExtendFits(l: Layout, ps: seq<Text>, n: nat)
    requires 1 <= n <= |ps| && Fits(l, ps[..n])
    ensures Fits(l, ps[..Extend(l, ps, n)])
    decreases |ps| - n
  {
    if n < |ps| && Total(l, ps[..n]) + l.width(ps[n]) <= l.limit as real {
      assert ps[..n + 1][..n] == ps[..n];
      ExtendFits(l, ps, n + 1);
    }
  }

  /** The lines are the paragraph, cut so that each of them fits. */
  lemma {:induction false} LinesAreACut(l: Layout, ps: seq<Text>)
    ensures Concat(Lines(l, ps)) == ps
    ensures forall i :: 0 <= i < |Lines(l, ps)| ==> Fits(l, Lines(l, ps)[i])
    decreases |ps|
  {
    if ps != [] {
      var n := Extend(l, ps, 1);
      ExtendFits(l, ps, 1);
      LinesAreACut(l, ps[n..]);
      assert ps[..n] + ps[n..] == ps;
    }
  }

  // No cut needs fewer lines.

  lemma {:induction false} TotalOfPart(l: Layout, ps: seq<Text>, i: nat)
    requires l.Valid() && i <= |ps|
    ensures 0.0 <= Total(l, ps[..i]) <= Total(l, ps)
    decreases |ps|
  {
    if i < |ps| {
      TotalOfPart(l, ps[..|ps| - 1], i);
      assert ps[..|ps| - 1][..i] == ps[..i];
    } else {
      assert ps[..i] == ps;
      if ps != [] {
        TotalOfPart(l, ps[..|ps| - 1], 0);
      }
    }
  }

  lemma {:induction false} TotalWithoutFirst(l: Layout, ps: seq<Text>)
    requires l.Valid() && ps != []
    ensures Total(l, ps[1..]) <= Total(l, ps)
    decreases |ps|
  {
    if |ps| > 1 {
      TotalWithoutFirst(l, ps[..|ps| - 1]);
      assert ps[1..][..|ps| - 2] == ps[..|ps| - 1][1..];
    } else {
      TotalOfPart(l, ps, 1);
      assert ps[..1] == ps && ps[1..] == [];
    }
  }

  /** The first line is the longest beginning that fits. */
  lemma {:induction false} FirstLineIsLongest(l: Layout, ps: seq<Text>, n: nat, k: nat)
    requires l.Valid() && 1 <= n <= |ps| && 1 <= k <= |ps| && Fits(l, ps[..k])
    ensures k <= Extend(l, ps, n)
    decreases |ps| - n
  {
    if n < k {
      var line := ps[..k];
      TotalOfPart(l, line, n + 1);
      assert line[..n + 1] == ps[..n + 1] && ps[..n + 1][..n] == ps[..n];
      FirstLineIsLongest(l, ps, n + 1, k);
    }
  }

  /** A line without its first character still fits. */
  lemma ShorterFits(l: Layout, line: seq<Text>)
    requires l.Valid() && |line| > 1 && Fits(l, line)
    ensures Fits(l, line[1..])
  {
    TotalWithoutFirst(l, line);
  }

  lemma LinesUnfold(l: Layout, ps: seq<Text>)
    requires ps != []
    ensures var m := Extend(l, ps, 1); Lines(l, ps) == [ps[..m]] + Lines(l, ps[m..])
  {
  }

  /** Without its first character, a paragraph's first line ends no earlier. */
  lemma FirstLineWithoutFirst(l: Layout, ps: seq<Text>)
    requires l.Valid() && ps != [] && Extend(l, ps, 1) > 1
    ensures Extend(l, ps[1..], 1) >= Extend(l, ps, 1) - 1
  {
    var m := Extend(l, ps, 1);
    ExtendFits(l, ps, 1);
    ShorterFits(l, ps[..m]);
    assert ps[1..][..m - 1] == ps[..m][1..];
    FirstLineIsLongest(l, ps[1..], 1, m - 1);
  }

  lemma {:induction false} DropOne(l: Layout, ps: seq<Text>)
    requires l.Valid() && ps != []
    ensures |Lines(l, ps[1..])| <= |Lines(l, ps)|
    decreases |ps|, 0
  {
    hide Lines, Extend, Layout.Valid;
    var m, rest := Extend(l, ps, 1), ps[1..];
    LinesUnfold(l, ps);
    if m > 1 {
      FirstLineWithoutFirst(l, ps);
      LinesUnfold(l, rest);
      var m' := Extend(l, rest, 1);
      assert rest[m'..] == ps[m..][m' - (m - 1)..];
      StaysAhead(l, ps[m..], m' - (m - 1));
    }
  }

  /** Greedy stays ahead: dropping characters from the front never costs a line. */
  lemma {:induction false} StaysAhead(l: Layout, ps: seq<Text>, k: nat)
    requires l.Valid() && k <= |ps|
    ensures |Lines(l, ps[k..])| <= |Lines(l, ps)|
    decreases |ps|, k
  {
    hide Lines, Layout.Valid;
    if k == 0 {
      assert ps[0..] == ps;
    } else {
      DropOne(l, ps);
      assert ps[k..] == ps[1..][k - 1..];
      StaysAhead(l, ps[1..], k - 1);
    }
  }

  /** Any other cut of the paragraph into lines that fit has at least as many lines. */
  lemma {:induction false} LinesAreFewest(l: Layout, ps: seq<Text>, cut: seq<seq<Text>>)
    requires l.Valid() && Concat(cut) == ps
    requires forall i :: 0 <= i < |cut| ==> Fits(l, cut[i])
    ensures |Lines(l, ps)| <= |cut|
    decreases |cut|
  {
    if cut != [] {
      var k, m := |cut[0]|, Extend(l, ps, 1);
      assert ps[..k] == cut[0] && ps[k..] == Concat(cut[1..]);
      FirstLineIsLongest(l, ps, 1, k);
      LinesAreFewest(l, ps[k..], cut[1..]);
      assert ps[m..] == ps[k..][m - k..];
      StaysAhead(l, ps[k..], m - k);
    }
  }

  // The whole text.

  function TrimAll(l: Layout, lines: seq<seq<Text>>): (out: seq<seq<Text>>)
    ensures |out| == |lines|
  {
    seq(|lines|, i requires 0 <= i < |lines| => TrimRight(lines[i], l.Blank))
  }

  function ParagraphLines(l: Layout, ps: seq<Text>): seq<seq<Text>> {
    if ps == [] then [[]] else TrimAll(l, Lines(l, ps))
  }

  function AllLines(l: Layout, paragraphs: seq<seq<Text>>): seq<seq<Text>> {
    if paragraphs == [] then [] else ParagraphLines(l, paragraphs[0]) + AllLines(l, paragraphs[1..])
  }

  /** Every paragraph cut into lines, every line trimmed, newlines between them. */
  function WrapPieces(l: Layout, ps: seq<Text>): seq<Text> {
    Join(AllLines(l, Split(ps, NL)), NL)
  }

  function Wrapped(l: Layout, text: Text): Text {
    if l.limit <= 0 || text == [] then text else Flat(WrapPieces(l, Pieces(text)))
  }

  /** The lines that the loop still produces, from the current line and the characters left. */
  function Remaining(l: Layout, cur: seq<Text>, rest: seq<Text>): (lines: seq<seq<Text>>)
    ensures lines != []
    decreases |rest|
  {
    if rest == [] then [TrimRight(cur, l.Blank)]
    else if rest[0] == NL then [TrimRight(cur, l.Blank)] + Remaining(l, [], rest[1..])
    else if cur != [] && Total(l, cur) + l.width(rest[0]) > l.limit as real then
      [TrimRight(cur, l.Blank)] + Remaining(l, [rest[0]], rest[1..])
    else Remaining(l, cur + [rest[0]], rest[1..])
  }

  lemma ExtendOnce(l: Layout, cur: seq<Text>, rest: seq<Text>)
    requires cur != [] && rest != []
    ensures var ps := cur + rest;
            if Total(l, cur) + l.width(rest[0]) > l.limit as real then Extend(l, ps, |cur|) == |cur|
            else Extend(l, ps, |cur|) == Extend(l, ps, |cur| + 1)
  {
    assert (cur + rest)[..|cur|] == cur;
  }

  lemma LineEnds(l: Layout, cur: seq<Text>, rest: seq<Text>)
    requires cur != [] && Extend(l, cur + rest, 1) == |cur|
    ensures ParagraphLines(l, cur + rest) ==
            [TrimRight(cur, l.Blank)] + (if rest == [] then [] else ParagraphLines(l, rest))
  {
    var ps := cur + rest;
    assert ps[..|cur|] == cur && ps[|cur|..] == rest;
    LinesUnfold(l, ps);
  }

  lemma {:induction false} RemainingOfParagraph(l: Layout, cur: seq<Text>, rest: seq<Text>)
    requires NL !in rest
    requires cur != [] ==> Extend(l, cur + rest, 1) == Extend(l, cur + rest, |cur|)
    ensures Remaining(l, cur, rest) == ParagraphLines(l, cur + rest)
    decreases |rest|
  {
    hide ParagraphLines, Extend, Total;
    if rest == [] {
      assert cur + rest == cur;
      if cur != [] {
        LineEnds(l, cur, []);
      } else {
        NoText(l);
      }
    } else {
      assert rest[0] in rest && rest == [rest[0]] + rest[1..];
      assert cur + rest == (cur + [rest[0]]) + rest[1..];
      if cur != [] {
        ExtendOnce(l, cur, rest);
      }
      if cur != [] && Total(l, cur) + l.width(rest[0]) > l.limit as real {
        LineEnds(l, cur, rest);
        RemainingOfParagraph(l, [rest[0]], rest[1..]);
      } else {
        RemainingOfParagraph(l, cur + [rest[0]], rest[1..]);
      }
    }
  }

  lemma NoText(l: Layout)
    ensures ParagraphLines(l, []) == [[]]
  {
  }

  lemma {:induction false} RemainingAcross(l: Layout, cur: seq<Text>, a: seq<Text>, b: seq<Text>)
    requires NL !in a
    ensures Remaining(l, cur, a + [NL] + b) == Remaining(l, cur, a) + Remaining(l, [], b)
    decreases |a|
  {
    var all := a + [NL] + b;
    if a == [] {
      assert all[1..] == b;
    } else {
      assert all[0] == a[0] && a[0] in a && all[1..] == a[1..] + [NL] + b;
      if cur != [] && Total(l, cur) + l.width(a[0]) > l.limit as real {
        RemainingAcross(l, [a[0]], a[1..], b);
      } else {
        RemainingAcross(l, cur + [a[0]], a[1..], b);
      }
    }
  }

  /** The loop produces the lines of all paragraphs. */
  lemma {:induction false} RemainingIsAllLines(l: Layout, ps: seq<Text>)
    ensures Remaining(l, [], ps) == AllLines(l, Split(ps, NL))
    decreases |ps|
  {
    hide Remaining, ParagraphLines;
    var i := Find(ps, NL);
    var first := ps[..i];
    assert [] + first == first;
    RemainingOfParagraph(l, [], first);
    if i == |ps| {
      assert first == ps;
      assert AllLines(l, [ps]) == ParagraphLines(l, ps) + AllLines(l, []);
    } else {
      assert ps == first + [NL] + ps[i + 1..];
      RemainingAcross(l, [], first, ps[i + 1..]);
      RemainingIsAllLines(l, ps[i + 1..]);
      assert ([first] + Split(ps[i + 1..], NL))[1..] == Split(ps[i + 1..], NL);
    }
  }

  // The loop.

  lemma {:induction false} TrimFlat(l: Layout, ps: seq<Text>)
    requires l.Valid() && AllPieces(ps)
    ensures TrimRight(Flat(ps), l.space) == Flat(TrimRight(ps, l.Blank))
    decreases |ps|
  {
    if ps != [] {
      var before, last := ps[..|ps| - 1], ps[|ps| - 1];
      assert ps == before + [last];
      FlatAcross(before, [last]);
      FlatOfOne(last);
      assert IsPiece(last);
      var s := Flat(ps);
      assert s[|s| - 1] == last[|last| - 1];
      if l.Blank(last) {
        assert s[..|s| - 1] == Flat(before);
        TrimFlat(l, before);
      }
    }
  }

  lemma FlatOfOne(p: Text)
    ensures Flat([p]) == p
  {
    assert Flat([p]) == p + Flat([]);
  }

  /** What the loop still appends. */
  function Tail(l: Layout, cur: seq<Text>, rest: seq<Text>): Text {
    Flat(Join(Remaining(l, cur, rest), NL))
  }

  lemma FlatJoin(first: seq<Text>, rest: seq<seq<Text>>)
    requires rest != []
    ensures Flat(Join([first] + rest, NL)) == Flat(first) + NL + Flat(Join(rest, NL))
  {
    JoinAcross([first], rest, NL);
    FlatAcross(first, [NL] + Join(rest, NL));
    FlatAcross([NL], Join(rest, NL));
    FlatOfOne(NL);
    assert Join([first], NL) + [NL] + Join(rest, NL) == first + ([NL] + Join(rest, NL));
  }

  lemma TailStep(l: Layout, cur: seq<Text>, rest: seq<Text>)
    requires l.Valid() && AllPieces(cur)
    ensures var trimmed := TrimRight(Flat(cur), l.space);
            if rest == [] then Tail(l, cur, rest) == trimmed
            else if rest[0] == NL then Tail(l, cur, rest) == trimmed + NL + Tail(l, [], rest[1..])
            else if cur != [] && Total(l, cur) + l.width(rest[0]) > l.limit as real then
              Tail(l, cur, rest) == trimmed + NL + Tail(l, [rest[0]], rest[1..])
            else Tail(l, cur, rest) == Tail(l, cur + [rest[0]], rest[1..])
  {
    hide Layout.Valid, Flat;
    TrimFlat(l, cur);
    if rest != [] {
      FlatJoin(TrimRight(cur, l.Blank), Remaining(l, [], rest[1..]));
      FlatJoin(TrimRight(cur, l.Blank), Remaining(l, [rest[0]], rest[1..]));
    }
  }

  lemma TotalNext(l: Layout, cur: seq<Text>, p: Text)
    ensures Total(l, cur + [p]) == Total(l, cur) + l.width(p)
    ensures Flat(cur + [p]) == Flat(cur) + p
    ensures Total(l, [p]) == l.width(p)
    ensures Total(l, []) == 0.0 && Flat([]) == []
  {
    assert (cur + [p])[..|cur|] == cur;
    FlatAcross(cur, [p]);
    FlatOfOne(p);
    assert [p][..0] == [];
  }

  lemma FlatIsEmpty(ps: seq<Text>)
    requires AllPieces(ps)
    ensures Flat(ps) == [] <==> ps == []
  {
    if ps != [] {
      assert IsPiece(ps[0]);
    }
  }

  lemma WrappedIsTail(l: Layout, text: Text)
    ensures Flat(WrapPieces(l, Pieces(text))) == Tail(l, [], Pieces(text))
  {
    RemainingIsAllLines(l, Pieces(text));
  }

  /** One turn of the loop reads one character: a pair, or a single unit. */
  method NextCharacter(text: Text, i: nat) returns (ch: Text, next: nat)
    requires i < |text|
    ensures i < next <= |text|
    ensures Pieces(text[i..]) == [ch] + Pieces(text[next..])
    ensures IsPiece(ch)
  {
    var ch1 := text[i];
    next := i;
    if IsHighSurrogate(ch1) && i + 1 < |text| && IsLowSurrogate(text[i + 1]) {
      ch := [ch1, text[i + 1]];
      next := next + 1;
    } else {
      ch := [ch1];
    }
    next := next + 1;
    var rest := text[i..];
    assert ch == rest[..First(rest)] && text[next..] == rest[First(rest)..];
  }

  method WrapText(l: Layout, text: Text) returns (wrappedText: Text)
    requires l.Valid()
    ensures wrappedText == Wrapped(l, text)
  {
    hide Layout.Valid, Tail, Total, Flat, WrapPieces, TrimRight, Pieces, IsPiece;
    if l.limit <= 0 || text == [] {
      return text;
    }
    wrappedText := [];
    var currentLine: Text, currentLineWidth := [], 0.0;
    ghost var cur: seq<Text> := [];
    TotalNext(l, [], NL);
    WrappedIsTail(l, text);
    var i := 0;
    assert text[0..] == text;
    while i < |text|
      invariant i <= |text|
      invariant AllPieces(cur) && currentLine == Flat(cur) && currentLineWidth == Total(l, cur)
      invariant Flat(WrapPieces(l, Pieces(text))) == wrappedText + Tail(l, cur, Pieces(text[i..]))
    {
      TailStep(l, cur, Pieces(text[i..]));
      FlatIsEmpty(cur);
      var currentCharStr;
      currentCharStr, i := NextCharacter(text, i);
      if currentCharStr == NL {
        wrappedText := wrappedText + TrimRight(currentLine, l.space) + NL;
        currentLine, currentLineWidth, cur := [], 0.0, [];
        continue;
      }
      var charWidth := l.width(currentCharStr);
      if currentLineWidth + charWidth > l.limit as real && currentLine != [] {
        wrappedText := wrappedText + TrimRight(currentLine, l.space) + NL;
        currentLine, currentLineWidth, cur := [], 0.0, [];
      }
      TotalNext(l, cur, currentCharStr);
      assert [] + [currentCharStr] == [currentCharStr];
      currentLine := currentLine + currentCharStr;
      currentLineWidth := currentLineWidth + charWidth;
      cur := cur + [currentCharStr];
    }
    TailStep(l, cur, Pieces(text[i..]));
    FlatIsEmpty(cur);
    if currentLine != [] {
      wrappedText := wrappedText + TrimRight(currentLine, l.space);
    } else {
      TrimmedNothing(l, currentLine);
    }
    assert Pieces(text[i..]) == [] by {
      NothingLeft(text[i..]);
    }
  }

  lemma NothingLeft(s: Text)
    requires s == []
    ensures Pieces(s) == []
  {
  }

  lemma TrimmedNothing(l: Layout, s: Text)
    requires s == []
    ensures TrimRight(s, l.space) == []
  {
  }
}
