/** UTF-8 text as bytes: how Go decodes it rune by rune, and lines and columns counted in runes. */
module Runes {
  import opened Basics

  // ---- one rune ---------------------------------------------------------------------------------------

  predicate Ascii(b: Byte) {
    b < 0x80
  }

  predicate Continues(b: Byte) {
    0x80 <= b <= 0xBF
  }

  /** The number of bytes a lead byte asks for; 0 when the byte cannot lead. */
  function Need(lead: Byte): nat {
    if lead < 0x80 then 1
    else if lead < 0xC2 then 0
    else if lead < 0xE0 then 2
    else if lead < 0xF0 then 3
    else if lead < 0xF5 then 4
    else 0
  }

  /** The second byte some leads allow is restricted: no overlong forms, surrogates or values over the last rune. */
  predicate Follows(lead: Byte, second: Byte) {
    && Continues(second)
    && (lead == 0xE0 ==> second >= 0xA0)
    && (lead == 0xED ==> second <= 0x9F)
    && (lead == 0xF0 ==> second >= 0x90)
    && (lead == 0xF4 ==> second <= 0x8F)
  }

  /** The text starts with a whole encoded rune. */
  predicate StartsValid(s: Bytes)
    requires s != []
  {
    var n := Need(s[0]);
    && 0 < n <= |s|
    && (n > 1 ==> Follows(s[0], s[1]))
    && (n > 2 ==> Continues(s[2]))
    && (n > 3 ==> Continues(s[3]))
  }

  /** The bytes one decoding step takes: a whole rune, or one byte of anything else. */
  function RuneSize(s: Bytes): (n: nat)
    requires s != []
    ensures 1 <= n <= |s|
  {
    if StartsValid(s) then Need(s[0]) else 1
  }

  /** Cutting the text behind the first step does not change the step. */
  lemma CutKeepsRune(s: Bytes, n: nat)
    requires s != [] && RuneSize(s) <= n <= |s|
    ensures RuneSize(s[..n]) == RuneSize(s)
  {
  }

  /** Cutting inside a rune leaves bytes that are taken one by one. */
  lemma CutBreaksRune(s: Bytes, n: nat)
    requires s != [] && 0 < n < RuneSize(s)
    ensures !Ascii(s[0]) && RuneSize(s[..n]) == 1
    ensures forall i :: 0 < i < n ==> Continues(s[i])
  {
  }

  lemma RuneHasNoAscii(s: Bytes, i: nat)
    requires s != [] && i < RuneSize(s) && 1 < RuneSize(s)
    ensures !Ascii(s[i])
  {
  }

  // ---- lines and columns --------------------------------------------------------------------------------

  datatype Place = Place(line: int, column: int)

  function Past(p: Place, lead: Byte): Place {
    if lead == NEWLINE then Place(p.line + 1, 1) else Place(p.line, p.column + 1)
  }

  /** The place `offset` bytes into the text; inside a rune, the place where the rune starts. */
  function PlaceAt(s: Bytes, offset: int, p: Place): Place
    decreases |s|
  {
    if s == [] || offset <= 0 || RuneSize(s) > offset then p
    else PlaceAt(s[RuneSize(s)..], offset - RuneSize(s), Past(p, s[0]))
  }

  /** The place after the whole text. */
  function PlaceAfter(s: Bytes, p: Place): Place
    decreases |s|
  {
    if s == [] then p else PlaceAfter(s[RuneSize(s)..], Past(p, s[0]))
  }

  const TOP := Place(1, 1)

  /** Decoding from the start of the text stops at this offset. */
  predicate Boundary(s: Bytes, offset: nat)
    decreases |s|
  {
    offset == 0 || (s != [] && RuneSize(s) <= offset && Boundary(s[RuneSize(s)..], offset - RuneSize(s)))
  }

  /** Both sides of an ASCII byte are boundaries, whatever the text. */
  lemma {:induction false} AsciiIsBoundary(s: Bytes, i: nat)
    requires i < |s| && Ascii(s[i])
    ensures Boundary(s, i) && Boundary(s, i + 1)
    decreases |s|
  {
    var n := RuneSize(s);
    if i < n {
      if n > 1 {
        RuneHasNoAscii(s, i);
      }
    } else {
      AsciiIsBoundary(s[n..], i - n);
    }
  }

  lemma BoundaryStep(s: Bytes, offset: nat)
    requires s != [] && RuneSize(s) <= offset
    ensures Boundary(s, offset) <==> Boundary(s[RuneSize(s)..], offset - RuneSize(s))
  {
  }

  lemma {:induction false} BoundaryJoins(s: Bytes, a: nat, d: nat)
    requires Boundary(s, a) && a <= |s|
    ensures Boundary(s[a..], d) <==> Boundary(s, a + d)
    decreases |s|
  {
    if a == 0 {
      assert s[a..] == s;
    } else {
      var n := RuneSize(s);
      assert s[n..][a - n..] == s[a..];
      BoundaryStep(s, a);
      BoundaryStep(s, a + d);
      BoundaryJoins(s[n..], a - n, d);
    }
  }

  /** Places can be computed from any boundary on. */
  lemma {:induction false} PlaceJoins(s: Bytes, a: nat, d: nat, p: Place)
    requires Boundary(s, a) && a + d <= |s|
    ensures PlaceAt(s, a + d, p) == PlaceAt(s[a..], d, PlaceAt(s, a, p))
    decreases |s|
  {
    if a == 0 {
      assert s[a..] == s;
    } else {
      var n := RuneSize(s);
      assert s[n..][a - n..] == s[a..];
      PlaceJoins(s[n..], a - n, d, Past(p, s[0]));
    }
  }

  /** Decoding a text cut at a boundary gives the place there. */
  lemma {:induction false} CutAtBoundary(s: Bytes, n: nat, p: Place)
    requires Boundary(s, n) && n <= |s|
    ensures PlaceAfter(s[..n], p) == PlaceAt(s, n, p)
    decreases |s|
  {
    if n > 0 {
      var size := RuneSize(s);
      CutKeepsRune(s, n);
      assert s[..n][size..] == s[size..][..n - size];
      CutAtBoundary(s[size..], n - size, Past(p, s[0]));
    }
  }

  lemma {:induction false} LooseBytes(s: Bytes, p: Place)
    requires forall i :: 0 <= i < |s| ==> Continues(s[i])
    ensures PlaceAfter(s, p) == Place(p.line, p.column + |s|)
    decreases |s|
  {
    if s != [] {
      LooseBytes(s[1..], Past(p, s[0]));
    }
  }

  /** Decoding a text cut anywhere else gives a place further right. */
  lemma {:induction false} CutInsideRune(s: Bytes, n: nat, p: Place)
    requires !Boundary(s, n) && n <= |s|
    ensures PlaceAfter(s[..n], p).line == PlaceAt(s, n, p).line
    ensures PlaceAfter(s[..n], p).column > PlaceAt(s, n, p).column
    decreases |s|
  {
    var size := RuneSize(s);
    if size > n {
      CutBreaksRune(s, n);
      var cut := s[..n];
      assert forall i :: 0 <= i < |cut[1..]| ==> cut[1..][i] == s[i + 1];
      LooseBytes(cut[1..], Past(p, s[0]));
    } else {
      CutKeepsRune(s, n);
      assert s[..n][size..] == s[size..][..n - size];
      CutInsideRune(s[size..], n - size, Past(p, s[0]));
    }
  }
}
