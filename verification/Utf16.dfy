/**
 UTF-16 strings as textUtil.cpp walks over them on Windows: a high surrogate
 followed by a low one is one character, every other unit is one of its own.
 The surrogate rules are those of sections 2.1 and 2.2 of RFC 2781.
 */
module Utf16 {
  /** wchar_t holds sixteen bits there; arithmetic on it is done in 32 bits. */
  type Unit = u: bv32 | u <= 0xFFFF
  type CodePoint = c: bv32 | c <= 0x10FFFF
  type Text = seq<Unit>

  predicate IsHighSurrogate(ch: Unit) { 0xD800 <= ch <= 0xDBFF }

  predicate IsLowSurrogate(ch: Unit) { 0xDC00 <= ch <= 0xDFFF }

  predicate StartsWithPair(s: Text) {
    |s| >= 2 && IsHighSurrogate(s[0]) && IsLowSurrogate(s[1])
  }

  /** How many units the first character has. */
  function First(s: Text): (n: nat)
    requires s != []
    ensures 1 <= n <= |s| && n <= 2
  {
    if StartsWithPair(s) then 2 else 1
  }

  /** The characters of a string, each as its units. */
  function Pieces(s: Text): seq<Text> {
    if s == [] then [] else [s[..First(s)]] + Pieces(s[First(s)..])
  }

  function Flat(ps: seq<Text>): Text {
    if ps == [] then [] else ps[0] + Flat(ps[1..])
  }

  /** The code point of a character; a lone surrogate stands for itself. */
  function Value(p: Text): CodePoint
    requires p != []
  {
    if StartsWithPair(p) then PairValue(p[0], p[1]) else p[0]
  }

  /** The decoding expression as SanitizeInput spells it: `+` binds tighter than `|`. */
  function PairValue(high: Unit, low: Unit): CodePoint
    requires IsHighSurrogate(high) && IsLowSurrogate(low)
  {
    PairBits(high, low);
    (0x10000 + ((high - 0xD800) << 10)) | (low - 0xDC00)
  }

  function Decode(s: Text): (cs: seq<CodePoint>)
    ensures |cs| == |Pieces(s)|
  {
    if s == [] then [] else [Value(s[..First(s)])] + Decode(s[First(s)..])
  }

  // Cutting a string between characters.

  /** Position `i` lies between two characters. */
  predicate Cut(s: Text, i: nat)
    requires i <= |s|
  {
    i == 0 || (First(s) <= i && Cut(s[First(s)..], i - First(s)))
  }

  lemma PrefixFirst(s: Text, i: nat)
    requires s != [] && First(s) <= i <= |s|
    ensures First(s[..i]) == First(s)
  {
  }

  lemma {:induction false} CutSplits(s: Text, i: nat)
    requires i <= |s| && Cut(s, i)
    ensures Pieces(s) == Pieces(s[..i]) + Pieces(s[i..])
    ensures Decode(s) == Decode(s[..i]) + Decode(s[i..])
    decreases |s|
  {
    hide First, Value;
    if i > 0 {
      var n := First(s);
      PrefixFirst(s, i);
      assert s[..i][..n] == s[..n];
      assert s[..i][n..] == s[n..][..i - n] && s[i..] == s[n..][i - n..];
      CutSplits(s[n..], i - n);
    } else {
      assert s[i..] == s;
    }
  }

  lemma {:induction false} NextCut(s: Text, i: nat)
    requires i < |s| && Cut(s, i)
    ensures Cut(s, i + First(s[i..]))
    decreases |s|
  {
    if i > 0 {
      var n := First(s);
      assert s[n..][i - n..] == s[i..];
      NextCut(s[n..], i - n);
    }
  }

  /** A cut never separates a pair. */
  lemma {:induction false} CutKeepsPairs(s: Text, i: nat)
    requires 0 < i < |s| && Cut(s, i)
    ensures !(IsHighSurrogate(s[i - 1]) && IsLowSurrogate(s[i]))
    decreases |s|
  {
    var n := First(s);
    if n < i {
      CutKeepsPairs(s[n..], i - n);
    }
  }

  lemma {:induction false} FlatOfPieces(s: Text)
    ensures Flat(Pieces(s)) == s
    decreases |s|
  {
    if s != [] {
      FlatOfPieces(s[First(s)..]);
    }
  }

  lemma {:induction false} FlatAcross(a: seq<Text>, b: seq<Text>)
    ensures Flat(a + b) == Flat(a) + Flat(b)
  {
    if a == [] {
      assert a + b == b;
    } else {
      assert (a + b)[1..] == a[1..] + b;
      FlatAcross(a[1..], b);
    }
  }

  // Which sequences of characters are the characters of a string.

  predicate IsPiece(p: Text) {
    |p| == 1 || (|p| == 2 && StartsWithPair(p))
  }

  /** Next to each other, the two would not be read as one character. */
  predicate Apart(p: Text, q: Text) {
    !(|p| == 1 && IsHighSurrogate(p[0]) && q != [] && IsLowSurrogate(q[0]))
  }

  ghost predicate AllPieces(ps: seq<Text>) {
    forall i :: 0 <= i < |ps| ==> IsPiece(ps[i])
  }

  ghost predicate Canonical(ps: seq<Text>) {
    AllPieces(ps) && forall i :: 0 <= i < |ps| - 1 ==> Apart(ps[i], ps[i + 1])
  }

  lemma {:induction false} PiecesAreCanonical(s: Text)
    ensures Canonical(Pieces(s))
    decreases |s|
  {
    if s != [] {
      var rest := s[First(s)..];
      PiecesAreCanonical(rest);
      assert rest != [] ==> Pieces(rest)[0][0] == rest[0];
    }
  }

  /** Characters are read back from their units exactly when no two of them would merge. */
  lemma {:induction false} PiecesOfFlatIff(ps: seq<Text>)
    requires AllPieces(ps)
    ensures Pieces(Flat(ps)) == ps <==> Canonical(ps)
  {
    PiecesAreCanonical(Flat(ps));
    if Canonical(ps) && ps != [] {
      var s, rest := Flat(ps), Flat(ps[1..]);
      PiecesOfFlatIff(ps[1..]);
      assert s == ps[0] + rest && IsPiece(ps[0]);
      assert ps[1..] != [] ==> rest[0] == ps[1][0] && Apart(ps[0], ps[1]);
      assert First(s) == |ps[0]|;
      assert s[..First(s)] == ps[0] && s[First(s)..] == rest;
    }
  }

  // Counting and truncating.

  method GetUnicodeLength(s: Text) returns (count: nat)
    ensures count == |Decode(s)|
  {
    count := 0;
    var i := 0;
    assert s[0..] == s;
    while i < |s|
      invariant i <= |s|
      invariant count + |Pieces(s[i..])| == |Pieces(s)|
    {
      var rest := s[i..];
      if IsHighSurrogate(s[i]) {
        if i + 1 < |s| && IsLowSurrogate(s[i + 1]) {
          i := i + 1;
        }
      }
      i := i + 1;
      assert s[i..] == rest[First(rest)..];
      count := count + 1;
    }
  }

  /**
   The longest prefix of at most `count` characters: decoding it gives the first
   code points of the whole string, and it never ends inside a pair.
   */
  method UnicodeLeft(s: Text, count: nat) returns (r: Text)
    ensures r <= s
    ensures Decode(r) == Decode(s)[..if count < |Decode(s)| then count else |Decode(s)|]
    ensures 0 < |r| < |s| ==> !(IsHighSurrogate(s[|r| - 1]) && IsLowSurrogate(s[|r|]))
    ensures r == s <==> |Decode(s)| <= count
  {
    hide Cut, Decode;
    var pos := 0;
    var i := 0;
    StartIsCut(s);
    while i < |s|
      invariant i <= |s| && Cut(s, i)
      invariant pos <= count && pos + |Decode(s[i..])| == |Decode(s)|
    {
      if pos >= count {
        TruncatedAt(s, i);
        return s[..i];
      }
      NextCut(s, i);
      DecodeNext(s, i);
      pos := pos + 1;
      if IsHighSurrogate(s[i]) && i + 1 < |s| && IsLowSurrogate(s[i + 1]) {
        i := i + 1;
      }
      i := i + 1;
    }
    return s;
  }

  lemma StartIsCut(s: Text)
    ensures Cut(s, 0) && s[0..] == s
  {
  }

  lemma DecodeNext(s: Text, i: nat)
    requires i < |s|
    ensures |Decode(s[i..])| == 1 + |Decode(s[i + First(s[i..])..])|
  {
    assert s[i + First(s[i..])..] == s[i..][First(s[i..])..];
  }

  lemma TruncatedAt(s: Text, i: nat)
    requires i < |s| && Cut(s, i)
    ensures 0 < |Decode(s[i..])| <= |Decode(s)|
    ensures Decode(s[..i]) == Decode(s)[..|Decode(s)| - |Decode(s[i..])|]
    ensures 0 < i ==> !(IsHighSurrogate(s[i - 1]) && IsLowSurrogate(s[i]))
  {
    CutSplits(s, i);
    if 0 < i {
      CutKeepsPairs(s, i);
    }
  }

  /** A deferred update: the shortened text, and where the cursor was. */
  datatype Update = Update(text: Text, cursor: nat)
  {
    function Cursor(): nat { if cursor < |text| then cursor else |text| }
  }

  /**
   A text entry limited to `maxLength` characters: its value, the cursor as an
   index into its units, and the updates queued for the event loop.
   */
  class TextEntry {
    const maxLength: nat
    var value: Text
    var insertionPoint: nat
    var pending: seq<Update>

    /** A text that is too long has an update waiting, and updates bring short texts only. */
    ghost predicate Valid()
      reads this
    {
      && (|Decode(value)| > maxLength ==> pending != [])
      && forall u <- pending :: |Decode(u.text)| <= maxLength
    }

    constructor (limit: nat)
      ensures Valid() && maxLength == limit && value == [] && insertionPoint == 0 && pending == []
    {
      maxLength, value, insertionPoint, pending := limit, [], 0, [];
    }

    /** Changes nothing at once: too long a text queues its longest allowed beginning. */
    method LimitTextLength() returns (limited: bool)
      modifies this`pending
      ensures limited <==> |Decode(value)| > maxLength
      ensures !limited ==> pending == old(pending)
      ensures limited ==>
                && |pending| == |old(pending)| + 1 && pending[..|old(pending)|] == old(pending)
                && var last := pending[|old(pending)|];
                   && last.text < value && Decode(last.text) == Decode(value)[..maxLength]
                   && last.cursor == insertionPoint
      ensures old(forall u <- pending :: |Decode(u.text)| <= maxLength) ==> Valid()
    {
      var length := GetUnicodeLength(value);
      limited := length > maxLength;
      if limited {
        var truncated := UnicodeLeft(value, maxLength);
        pending := pending + [Update(truncated, insertionPoint)];
      }
    }

    /** The user edits; the handler of the text event limits the length. */
    method Edit(text: Text, cursor: nat) returns (limited: bool)
      requires Valid()
      modifies this
      ensures Valid() && value == text && insertionPoint == cursor
      ensures limited <==> |Decode(text)| > maxLength
      ensures !limited ==> pending == old(pending)
      ensures limited ==>
                && |pending| == |old(pending)| + 1 && pending[..|old(pending)|] == old(pending)
                && var last := pending[|old(pending)|];
                   last.text < text && Decode(last.text) == Decode(text)[..maxLength] && last.cursor == cursor
    {
      value, insertionPoint := text, cursor;
      limited := LimitTextLength();
    }

    /** The oldest update; the text event it causes finds nothing to limit. */
    method RunUpdate()
      requires Valid() && pending != []
      modifies this
      ensures Valid() && pending == old(pending)[1..]
      ensures value == old(pending[0].text) && insertionPoint == old(pending[0].Cursor())
    {
      var u := pending[0];
      pending := pending[1..];
      value := u.text;
      var limited := LimitTextLength();
      insertionPoint := u.Cursor();
    }

    /**
     Once the event loop has caught up the text is short enough: it is that of
     the last update, whatever was typed since that was queued.
     */
    method Idle()
      requires Valid()
      modifies this
      ensures Valid() && pending == [] && |Decode(value)| <= maxLength
      ensures old(pending) == [] ==> value == old(value) && insertionPoint == old(insertionPoint)
      ensures old(pending) != [] ==>
                var last := old(pending)[|old(pending)| - 1];
                value == last.text && insertionPoint == last.Cursor()
    {
      while pending != []
        invariant Valid() && |pending| <= |old(pending)|
        invariant pending == old(pending)[|old(pending)| - |pending|..]
        invariant pending == old(pending) ==> value == old(value) && insertionPoint == old(insertionPoint)
        invariant pending != old(pending) ==>
                    var done := old(pending)[|old(pending)| - |pending| - 1];
                    value == done.text && insertionPoint == done.Cursor()
        decreases |pending|
      {
        RunUpdate();
      }
    }
  }

  /** Typing too long a text leaves, after the event loop has caught up, the longest beginning that is allowed. */
  method TypeAndIdle(entry: TextEntry, text: Text, cursor: nat)
    requires entry.Valid()
    modifies entry
    ensures entry.Valid() && entry.pending == []
    ensures |Decode(text)| > entry.maxLength ==>
              && entry.value < text && Decode(entry.value) == Decode(text)[..entry.maxLength]
              && entry.insertionPoint == if cursor < |entry.value| then cursor else |entry.value|
    ensures |Decode(text)| <= entry.maxLength && old(entry.pending) == [] ==>
              entry.value == text && entry.insertionPoint == cursor
  {
    var limited := entry.Edit(text, cursor);
    entry.Idle();
  }

  // The encoding of RFC 2781.

  /** Section 2.1: ten high bits and ten low bits of the value less 0x10000. */
  function Encode(c: CodePoint): Text
  {
    if c < 0x10000 then [c]
    else
      var u: bv32 := c - 0x10000;
      CodePointBits(c);
      [0xD800 | (u >> 10), 0xDC00 | (u & 0x3FF)]
  }

  /** Section 2.2, step 4 and 5: join the ten low bits of both units and add 0x10000. */
  function Rfc2781Value(w1: Unit, w2: Unit): bv32 {
    (((w1 & 0x3FF) << 10) | (w2 & 0x3FF)) + 0x10000
  }

  lemma PairBits(h: bv32, l: bv32)
    requires 0xD800 <= h <= 0xDBFF && 0xDC00 <= l <= 0xDFFF
    ensures var v: bv32 := (0x10000 + ((h - 0xD800) << 10)) | (l - 0xDC00);
            && v == (((h & 0x3FF) << 10) | (l & 0x3FF)) + 0x10000
            && 0x10000 <= v <= 0x10FFFF
            && 0xD800 | ((v - 0x10000) >> 10) == h && 0xDC00 | ((v - 0x10000) & 0x3FF) == l
  {
  }

  lemma CodePointBits(c: bv32)
    requires 0x10000 <= c <= 0x10FFFF
    ensures var h: bv32, l: bv32 := 0xD800 | ((c - 0x10000) >> 10), 0xDC00 | ((c - 0x10000) & 0x3FF);
            && 0xD800 <= h <= 0xDBFF && 0xDC00 <= l <= 0xDFFF
            && (0x10000 + ((h - 0xD800) << 10)) | (l - 0xDC00) == c
  {
  }

  /** The program's expression computes what section 2.2 says, and section 2.1 inverts it. */
  lemma PairValueIsRfc2781(high: Unit, low: Unit)
    requires IsHighSurrogate(high) && IsLowSurrogate(low)
    ensures PairValue(high, low) == Rfc2781Value(high, low)
    ensures 0x10000 <= PairValue(high, low)
    ensures Encode(PairValue(high, low)) == [high, low]
  {
    PairBits(high, low);
  }

  lemma EncodeInverts(c: CodePoint)
    ensures Encode(c) != [] && Value(Encode(c)) == c
    ensures c >= 0x10000 <==> StartsWithPair(Encode(c))
    ensures c < 0x10000 <==> |Encode(c)| == 1
  {
    if c >= 0x10000 {
      CodePointBits(c);
    }
  }

  /** A surrogate code point is encoded as itself, as the strings of the client may hold it. */
  function EncodeAll(cs: seq<CodePoint>): Text
  {
    if cs == [] then [] else Encode(cs[0]) + EncodeAll(cs[1..])
  }

  lemma DecodedFirst(s: Text)
    requires s != []
    ensures Encode(Value(s[..First(s)])) == s[..First(s)]
  {
    if StartsWithPair(s) {
      PairValueIsRfc2781(s[0], s[1]);
    }
  }

  /** Every string, lone surrogates included, is what its code points encode to. */
  lemma {:induction false} EncodeUndoesDecode(s: Text)
    ensures EncodeAll(Decode(s)) == s
    decreases |s|
  {
    hide First, Value, Encode;
    if s != [] {
      DecodedFirst(s);
      EncodeUndoesDecode(s[First(s)..]);
      assert Decode(s)[1..] == Decode(s[First(s)..]);
    }
  }

  /** Code points survive encoding exactly when no high surrogate stands before a low one. */
  ghost predicate NoSplitPair(cs: seq<CodePoint>) {
    forall i :: 0 <= i < |cs| - 1 ==> !(0xD800 <= cs[i] <= 0xDBFF && 0xDC00 <= cs[i + 1] <= 0xDFFF)
  }

  lemma {:induction false} DecodedNoSplitPair(s: Text)
    ensures NoSplitPair(Decode(s))
    decreases |s|
  {
    if s != [] {
      var rest := s[First(s)..];
      DecodedNoSplitPair(rest);
      DecodedHead(s);
      if rest != [] {
        DecodedHead(rest);
      }
    }
  }

  lemma DecodedHead(s: Text)
    requires s != []
    ensures var c := Decode(s)[0];
            && (0xD800 <= c <= 0xDBFF ==> IsHighSurrogate(s[0]) && !StartsWithPair(s))
            && (0xDC00 <= c <= 0xDFFF ==> IsLowSurrogate(s[0]))
  {
    if StartsWithPair(s) {
      PairBits(s[0], s[1]);
    }
  }

  lemma {:induction false} DecodeUndoesEncodeIff(cs: seq<CodePoint>)
    ensures Decode(EncodeAll(cs)) == cs <==> NoSplitPair(cs)
  {
    hide Encode, Value;
    DecodedNoSplitPair(EncodeAll(cs));
    if cs != [] && NoSplitPair(cs) {
      var s, rest := EncodeAll(cs), EncodeAll(cs[1..]);
      DecodeUndoesEncodeIff(cs[1..]);
      EncodeInverts(cs[0]);
      if cs[1..] != [] {
        EncodedHead(cs[1], EncodeAll(cs[1..][1..]));
      }
      FirstOfEncoded(cs[0], rest);
      assert s[..First(s)] == Encode(cs[0]) && s[First(s)..] == rest;
    }
  }

  /** The first unit of an encoding is a low surrogate only for a lone low surrogate. */
  lemma EncodedHead(c: CodePoint, rest: Text)
    ensures var s := Encode(c) + rest; s != [] && (IsLowSurrogate(s[0]) <==> 0xDC00 <= c <= 0xDFFF)
  {
    if c >= 0x10000 {
      CodePointBits(c);
    }
  }

  lemma FirstOfEncoded(c: CodePoint, rest: Text)
    requires 0xD800 <= c <= 0xDBFF && rest != [] ==> !IsLowSurrogate(rest[0])
    ensures Encode(c) + rest != [] && First(Encode(c) + rest) == |Encode(c)|
  {
    EncodeInverts(c);
  }
}
