/** What WrapText does to a text as a whole: nothing twice, nothing to pairs, and nothing but white space. */
module WrapTextLaws {
  import opened Splitting
  import opened Trimming
  import opened Utf16
  import opened WrapText

  // The characters of the result are those of its lines.

  lemma SliceIsCanonical(ps: seq<Text>, i: nat, j: nat)
    requires Canonical(ps) && i <= j <= |ps|
    ensures Canonical(ps[i..j])
  {
  }

  lemma NewlineIsApart(a: seq<Text>, b: seq<Text>)
    requires Canonical(a) && Canonical(b)
    ensures Canonical(a + [NL] + b)
  {
  }

  ghost predicate AllCanonical(lines: seq<seq<Text>>) {
    forall i :: 0 <= i < |lines| ==> Canonical(lines[i])
  }

  lemma {:induction false} JoinIsCanonical(lines: seq<seq<Text>>)
    requires AllCanonical(lines)
    ensures Canonical(Join(lines, NL))
  {
    hide Canonical;
    if |lines| > 1 {
      JoinIsCanonical(lines[1..]);
      NewlineIsApart(lines[0], Join(lines[1..], NL));
    } else if |lines| == 0 {
      NothingIsCanonical();
    }
  }

  lemma NothingIsCanonical()
    ensures Canonical([])
  {
  }

  lemma {:induction false} SplitIsCanonical(ps: seq<Text>)
    requires Canonical(ps)
    ensures AllCanonical(Split(ps, NL))
    decreases |ps|
  {
    hide Canonical;
    var i := Find(ps, NL);
    SliceIsCanonical(ps, 0, i);
    assert ps[0..i] == ps[..i];
    if i < |ps| {
      SliceIsCanonical(ps, i + 1, |ps|);
      assert ps[i + 1..|ps|] == ps[i + 1..];
      SplitIsCanonical(ps[i + 1..]);
    }
  }

  lemma {:induction false} LinesAreCanonical(l: Layout, ps: seq<Text>)
    requires Canonical(ps)
    ensures AllCanonical(Lines(l, ps))
    decreases |ps|
  {
    hide Canonical, Extend;
    if ps != [] {
      var n := Extend(l, ps, 1);
      SliceIsCanonical(ps, 0, n);
      SliceIsCanonical(ps, n, |ps|);
      assert ps[0..n] == ps[..n] && ps[n..|ps|] == ps[n..];
      LinesAreCanonical(l, ps[n..]);
    }
  }

  lemma ParagraphIsCanonical(l: Layout, ps: seq<Text>)
    requires Canonical(ps)
    ensures AllCanonical(ParagraphLines(l, ps))
  {
    hide Canonical, Lines;
    NothingIsCanonical();
    LinesAreCanonical(l, ps);
    var lines := Lines(l, ps);
    forall i | 0 <= i < |lines| ensures Canonical(TrimRight(lines[i], l.Blank)) {
      TrimRightOf(lines[i], l.Blank);
      SliceIsCanonical(lines[i], 0, |TrimRight(lines[i], l.Blank)|);
      assert lines[i][0..|TrimRight(lines[i], l.Blank)|] == lines[i][..|TrimRight(lines[i], l.Blank)|];
    }
  }

  lemma {:induction false} AllLinesAreCanonical(l: Layout, paragraphs: seq<seq<Text>>)
    requires AllCanonical(paragraphs)
    ensures AllCanonical(AllLines(l, paragraphs))
  {
    hide Canonical, ParagraphLines;
    if paragraphs != [] {
      ParagraphIsCanonical(l, paragraphs[0]);
      AllLinesAreCanonical(l, paragraphs[1..]);
    }
  }

  /** No pair is ever separated and none appears: the characters of the result are the wrapped characters. */
  lemma PiecesOfWrapped(l: Layout, text: Text)
    requires l.limit > 0
    ensures Pieces(Wrapped(l, text)) == WrapPieces(l, Pieces(text))
  {
    hide Canonical, Flat;
    PiecesAreCanonical(text);
    SplitIsCanonical(Pieces(text));
    AllLinesAreCanonical(l, Split(Pieces(text), NL));
    JoinIsCanonical(AllLines(l, Split(Pieces(text), NL)));
    CanonicalIsPieces(WrapPieces(l, Pieces(text)));
    if text == [] {
      NothingWrapped(l, text);
    }
  }

  lemma CanonicalIsPieces(ps: seq<Text>)
    requires Canonical(ps)
    ensures Pieces(Flat(ps)) == ps
  {
    PiecesOfFlatIff(ps);
  }

  lemma NothingWrapped(l: Layout, text: Text)
    requires text == []
    ensures Pieces(text) == [] && WrapPieces(l, Pieces(text)) == [] && Flat(WrapPieces(l, Pieces(text))) == []
  {
    var ps := Pieces(text);
    assert Split(ps, NL) == [ps];
    assert AllLines(l, [ps]) == ParagraphLines(l, ps) + AllLines(l, []);
  }

  // Wrapping a second time changes nothing.

  /** Wrapped as a paragraph, the line comes out as it is. */
  ghost predicate Stable(l: Layout, line: seq<Text>) {
    ParagraphLines(l, line) == [line] && NL !in line
  }

  ghost predicate AllStable(l: Layout, lines: seq<seq<Text>>) {
    forall i :: 0 <= i < |lines| ==> Stable(l, lines[i])
  }

  lemma TrimmedLineIsStable(l: Layout, line: seq<Text>)
    requires l.Valid() && Fits(l, line) && NL !in line
    ensures Stable(l, TrimRight(line, l.Blank))
  {
    hide Layout.Valid, Total;
    var t := TrimRight(line, l.Blank);
    TrimRightOf(line, l.Blank);
    if t != [] {
      TotalOfPart(l, line, |t|);
      assert t[..|t|] == t && t[|t|..] == [];
      FirstLineIsLongest(l, t, 1, |t|);
      LinesUnfold(l, t);
      assert Lines(l, t) == [t];
      TrimRightOf(t, l.Blank);
    }
  }

  lemma {:induction false} LinesHaveNoNewline(l: Layout, ps: seq<Text>)
    requires NL !in ps
    ensures forall i :: 0 <= i < |Lines(l, ps)| ==> NL !in Lines(l, ps)[i]
    decreases |ps|
  {
    if ps != [] {
      LinesHaveNoNewline(l, ps[Extend(l, ps, 1)..]);
    }
  }

  lemma ParagraphLinesAreStable(l: Layout, ps: seq<Text>)
    requires l.Valid() && NL !in ps
    ensures AllStable(l, ParagraphLines(l, ps))
  {
    hide Layout.Valid, Lines, Fits;
    if ps != [] {
      LinesAreACut(l, ps);
      LinesHaveNoNewline(l, ps);
      var lines := Lines(l, ps);
      forall i | 0 <= i < |lines| ensures Stable(l, TrimRight(lines[i], l.Blank)) {
        TrimmedLineIsStable(l, lines[i]);
      }
    }
  }

  lemma {:induction false} AllLinesAreStable(l: Layout, paragraphs: seq<seq<Text>>)
    requires l.Valid() && forall i :: 0 <= i < |paragraphs| ==> NL !in paragraphs[i]
    ensures AllStable(l, AllLines(l, paragraphs))
  {
    hide Layout.Valid, Stable, ParagraphLines;
    if paragraphs != [] {
      ParagraphLinesAreStable(l, paragraphs[0]);
      AllLinesAreStable(l, paragraphs[1..]);
    }
  }

  lemma {:induction false} StableLinesStay(l: Layout, lines: seq<seq<Text>>)
    requires AllStable(l, lines)
    ensures AllLines(l, lines) == lines
  {
    if lines != [] {
      assert Stable(l, lines[0]);
      StableLinesStay(l, lines[1..]);
    }
  }

  lemma {:induction false} SomeLines(l: Layout, paragraphs: seq<seq<Text>>)
    requires paragraphs != []
    ensures AllLines(l, paragraphs) != []
  {
    var ps := paragraphs[0];
    if ps != [] {
      LinesUnfold(l, ps);
    }
  }

  lemma WrapPiecesTwice(l: Layout, ps: seq<Text>)
    requires l.Valid()
    ensures WrapPieces(l, WrapPieces(l, ps)) == WrapPieces(l, ps)
  {
    hide Layout.Valid, ParagraphLines;
    var lines := AllLines(l, Split(ps, NL));
    SplitHasNoSeparator(ps, NL);
    AllLinesAreStable(l, Split(ps, NL));
    SomeLines(l, Split(ps, NL));
    assert forall line <- lines :: NL !in line by {
      assert forall i :: 0 <= i < |lines| ==> Stable(l, lines[i]);
    }
    SplitUndoesJoinIff(lines, NL);
    StableLinesStay(l, lines);
  }

  /** Wrapping is idempotent. */
  lemma WrappedTwice(l: Layout, text: Text)
    requires l.Valid()
    ensures Wrapped(l, Wrapped(l, text)) == Wrapped(l, text)
  {
    hide Layout.Valid, Flat, Pieces, WrapPieces;
    if l.limit > 0 {
      PiecesOfWrapped(l, text);
      WrapPiecesTwice(l, Pieces(text));
    }
  }

  // Explicit newlines stay where they are.

  lemma PiecesAcrossNewline(a: Text, b: Text)
    ensures Pieces(a + NL + b) == Pieces(a) + [NL] + Pieces(b)
  {
    hide Canonical, Pieces, Flat;
    PiecesAreCanonical(a);
    PiecesAreCanonical(b);
    NewlineIsApart(Pieces(a), Pieces(b));
    CanonicalIsPieces(Pieces(a) + [NL] + Pieces(b));
    FlatAcross(Pieces(a) + [NL], Pieces(b));
    FlatAcross(Pieces(a), [NL]);
    FlatOfOne(NL);
    FlatOfPieces(a);
    FlatOfPieces(b);
  }

  lemma {:induction false} AllLinesAcross(l: Layout, a: seq<seq<Text>>, b: seq<seq<Text>>)
    ensures AllLines(l, a + b) == AllLines(l, a) + AllLines(l, b)
  {
    if a == [] {
      assert a + b == b;
    } else {
      assert (a + b)[1..] == a[1..] + b;
      AllLinesAcross(l, a[1..], b);
    }
  }

  lemma WrapPiecesAcross(l: Layout, a: seq<Text>, b: seq<Text>)
    ensures WrapPieces(l, a + [NL] + b) == WrapPieces(l, a) + [NL] + WrapPieces(l, b)
  {
    SplitAcross(a, NL, b);
    AllLinesAcross(l, Split(a, NL), Split(b, NL));
    SomeLines(l, Split(a, NL));
    SomeLines(l, Split(b, NL));
    JoinAcross(AllLines(l, Split(a, NL)), AllLines(l, Split(b, NL)), NL);
  }

  lemma WrappedIsFlat(l: Layout, text: Text)
    requires l.limit > 0
    ensures Wrapped(l, text) == Flat(WrapPieces(l, Pieces(text)))
  {
    if text == [] {
      NothingWrapped(l, text);
    }
  }

  /** Texts joined by a newline are wrapped one by one. */
  lemma WrappedAcrossNewline(l: Layout, a: Text, b: Text)
    ensures Wrapped(l, a + NL + b) == Wrapped(l, a) + NL + Wrapped(l, b)
  {
    hide Flat, Pieces, WrapPieces;
    if l.limit > 0 {
      var wa, wb := WrapPieces(l, Pieces(a)), WrapPieces(l, Pieces(b));
      WrappedIsFlat(l, a);
      WrappedIsFlat(l, b);
      PiecesAcrossNewline(a, b);
      WrapPiecesAcross(l, Pieces(a), Pieces(b));
      FlatAcross(wa + [NL], wb);
      FlatAcross(wa, [NL]);
      FlatOfOne(NL);
    }
  }

  // Nothing but white space changes.

  function Visible(l: Layout, ps: seq<Text>): seq<Text> {
    if ps == [] then [] else (if l.Blank(ps[0]) then [] else [ps[0]]) + Visible(l, ps[1..])
  }

  function VisibleAll(l: Layout, lines: seq<seq<Text>>): seq<Text> {
    if lines == [] then [] else Visible(l, lines[0]) + VisibleAll(l, lines[1..])
  }

  lemma {:induction false} VisibleAcross(l: Layout, a: seq<Text>, b: seq<Text>)
    ensures Visible(l, a + b) == Visible(l, a) + Visible(l, b)
  {
    if a == [] {
      assert a + b == b;
    } else {
      assert (a + b)[1..] == a[1..] + b;
      VisibleAcross(l, a[1..], b);
    }
  }

  lemma {:induction false} VisibleAllAcross(l: Layout, a: seq<seq<Text>>, b: seq<seq<Text>>)
    ensures VisibleAll(l, a + b) == VisibleAll(l, a) + VisibleAll(l, b)
  {
    if a == [] {
      assert a + b == b;
    } else {
      assert (a + b)[1..] == a[1..] + b;
      VisibleAllAcross(l, a[1..], b);
    }
  }

  lemma {:induction false} VisibleTrimmed(l: Layout, ps: seq<Text>)
    ensures Visible(l, TrimRight(ps, l.Blank)) == Visible(l, ps)
    decreases |ps|
  {
    if ps != [] && l.Blank(ps[|ps| - 1]) {
      VisibleTrimmed(l, ps[..|ps| - 1]);
      assert ps == ps[..|ps| - 1] + [ps[|ps| - 1]];
      VisibleAcross(l, ps[..|ps| - 1], [ps[|ps| - 1]]);
    }
  }

  lemma {:induction false} VisibleTrimAll(l: Layout, lines: seq<seq<Text>>)
    ensures VisibleAll(l, TrimAll(l, lines)) == VisibleAll(l, lines)
  {
    if lines != [] {
      VisibleTrimmed(l, lines[0]);
      VisibleTrimAll(l, lines[1..]);
      assert TrimAll(l, lines)[1..] == TrimAll(l, lines[1..]);
    }
  }

  lemma {:induction false} VisibleConcat(l: Layout, lines: seq<seq<Text>>)
    ensures VisibleAll(l, lines) == Visible(l, Concat(lines))
  {
    if lines != [] {
      VisibleConcat(l, lines[1..]);
      VisibleAcross(l, lines[0], Concat(lines[1..]));
    }
  }

  lemma {:induction false} VisibleJoin(l: Layout, lines: seq<seq<Text>>)
    requires l.Valid()
    ensures Visible(l, Join(lines, NL)) == VisibleAll(l, lines)
  {
    if |lines| == 1 {
      assert lines[1..] == [];
    } else if lines != [] {
      var rest := Join(lines[1..], NL);
      VisibleJoin(l, lines[1..]);
      VisibleAcross(l, lines[0] + [NL], rest);
      VisibleAcross(l, lines[0], [NL]);
      NewlineIsBlank(l);
    }
  }

  lemma NewlineIsBlank(l: Layout)
    requires l.Valid()
    ensures Visible(l, [NL]) == []
  {
    assert [NL][1..] == [];
  }

  lemma VisibleParagraph(l: Layout, ps: seq<Text>)
    ensures VisibleAll(l, ParagraphLines(l, ps)) == Visible(l, ps)
  {
    hide TrimAll, Lines;
    if ps == [] {
      assert VisibleAll(l, [ps]) == Visible(l, ps) + VisibleAll(l, []);
    } else {
      VisibleTrimAll(l, Lines(l, ps));
      VisibleConcat(l, Lines(l, ps));
      LinesAreACut(l, ps);
    }
  }

  lemma {:induction false} VisibleAllLines(l: Layout, paragraphs: seq<seq<Text>>)
    ensures VisibleAll(l, AllLines(l, paragraphs)) == VisibleAll(l, paragraphs)
  {
    hide ParagraphLines;
    if paragraphs != [] {
      VisibleParagraph(l, paragraphs[0]);
      VisibleAllLines(l, paragraphs[1..]);
      VisibleAllAcross(l, ParagraphLines(l, paragraphs[0]), AllLines(l, paragraphs[1..]));
    }
  }

  /** Without white space, the characters before and after wrapping are the same, in the same order. */
  lemma OnlyWhiteSpaceChanges(l: Layout, text: Text)
    requires l.Valid()
    ensures Visible(l, Pieces(Wrapped(l, text))) == Visible(l, Pieces(text))
  {
    hide Layout.Valid, Visible, Pieces;
    if l.limit > 0 {
      var ps := Pieces(text);
      PiecesOfWrapped(l, text);
      VisibleJoin(l, AllLines(l, Split(ps, NL)));
      VisibleAllLines(l, Split(ps, NL));
      VisibleJoin(l, Split(ps, NL));
      JoinUndoesSplit(ps, NL);
    }
  }

  /** Every line of a wrapped text fits, white space at its end aside. */
  lemma WrappedLinesFit(l: Layout, text: Text, i: nat)
    requires l.Valid() && l.limit > 0 && i < |Split(Pieces(Wrapped(l, text)), NL)|
    ensures var line := Split(Pieces(Wrapped(l, text)), NL)[i]; line == [] || Fits(l, line)
  {
    hide Layout.Valid, Pieces;
    var ps := Pieces(text);
    var lines := AllLines(l, Split(ps, NL));
    PiecesOfWrapped(l, text);
    SplitHasNoSeparator(ps, NL);
    AllLinesAreStable(l, Split(ps, NL));
    SomeLines(l, Split(ps, NL));
    assert forall line <- lines :: NL !in line by {
      assert forall i :: 0 <= i < |lines| ==> Stable(l, lines[i]);
    }
    SplitUndoesJoinIff(lines, NL);
    assert Stable(l, lines[i]);
    if lines[i] != [] {
      StableFits(l, lines[i]);
    }
  }

  lemma StableFits(l: Layout, line: seq<Text>)
    requires Stable(l, line) && line != []
    ensures Fits(l, line)
  {
    var m := Extend(l, line, 1);
    ExtendFits(l, line, 1);
    LinesUnfold(l, line);
    assert |Lines(l, line)| == |[line]| == 1;
    assert Lines(l, line[m..]) == [];
    assert line[m..] == [] && line[..m] == line;
  }
}
