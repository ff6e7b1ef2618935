/** The map from generated template text back to the view's source. */
module SourceMap {
  import opened Basics
  import opened Runes

  type Sources = map<string, Bytes>

  /** A stretch of a source file, with the place it starts at. */
  datatype Span = Span(path: string, start: nat, end: nat, place: Place)

  /** A stretch of the generated text; a synthetic one is not a copy of its source. */
  datatype Mapping = Mapping(start: nat, end: nat, sourceStart: nat, path: string, place: Place, synthetic: bool)

  // ---- the map as it grows ----------------------------------------------------------------------------

  predicate Adjacent(mappings: seq<Mapping>, i: nat)
    requires 0 < i < |mappings|
  {
    mappings[i - 1].end == mappings[i].start
  }

  /** The mappings cover the generated text from start to end, without gap or overlap. */
  predicate Tiles(mappings: seq<Mapping>, length: nat) {
    && (forall i :: 0 <= i < |mappings| ==> mappings[i].start < mappings[i].end <= length)
    && (forall i :: 0 < i < |mappings| ==> Adjacent(mappings, i))
    && (if mappings == [] then length == 0 else mappings[0].start == 0 && mappings[|mappings| - 1].end == length)
  }

  /** A span whose start and place are what decoding the source from the top gives. */
  predicate Located(source: Bytes, span: Span) {
    && span.start < span.end <= |source|
    && Boundary(source, span.start)
    && span.place == PlaceAt(source, span.start, TOP)
  }

  predicate Placed(sources: Sources, span: Span) {
    span.path in sources && Located(sources[span.path], span)
  }

  /** A literal mapping is a copy of the source it points at, and points at it correctly. */
  predicate Faithful(sources: Sources, text: Bytes, m: Mapping) {
    m.start < m.end <= |text| && (!m.synthetic ==>
      && m.path in sources
      && var source := sources[m.path];
      && m.sourceStart + (m.end - m.start) <= |source|
      && text[m.start..m.end] == source[m.sourceStart..m.sourceStart + (m.end - m.start)]
      && Boundary(source, m.sourceStart)
      && m.place == PlaceAt(source, m.sourceStart, TOP))
  }

  class SourceBuilder {
    var text: Bytes
    var mappings: seq<Mapping>

    constructor ()
      ensures text == [] && mappings == []
    {
      text, mappings := [], [];
    }

    ghost predicate Valid(sources: Sources)
      reads this
    {
      && Tiles(mappings, |text|)
      && forall i :: 0 <= i < |mappings| ==> Faithful(sources, text, mappings[i])
    }

    /** Appends generated text made from the span. */
    method Append(added: Bytes, span: Span, synthetic: bool, ghost sources: Sources)
      requires Valid(sources)
      requires !synthetic && added != [] ==>
          Placed(sources, span) && added == sources[span.path][span.start..span.end]
      modifies this
      ensures Valid(sources) && text == old(text) + added
      ensures added == [] ==> mappings == old(mappings)
      ensures added != [] ==>
          mappings == old(mappings) + [Mapping(|old(text)|, |text|, span.start, span.path, span.place, synthetic)]
    {
      if added == [] {
        assert text + added == text;
        return;
      }
      var mapping := Mapping(|text|, |text| + |added|, span.start, span.path, span.place, synthetic);
      TilesGrow(mappings, |text|, mapping);
      forall i | 0 <= i < |mappings|
        ensures Faithful(sources, text + added, mappings[i])
      {
        var m := mappings[i];
        assert Faithful(sources, text, m);
        assert (text + added)[m.start..m.end] == text[m.start..m.end];
      }
      assert (text + added)[|text|..] == added;
      text := text + added;
      mappings := mappings + [mapping];
    }
  }

  lemma TilesGrow(mappings: seq<Mapping>, length: nat, m: Mapping)
    requires Tiles(mappings, length) && m.start == length < m.end
    ensures Tiles(mappings + [m], m.end)
  {
    var more := mappings + [m];
    forall i | 0 < i < |more|
      ensures Adjacent(more, i)
    {
      if i < |mappings| {
        assert Adjacent(mappings, i);
      }
    }
  }

  // ---- looking an offset up ------------------------------------------------------------------------------

  predicate Covers(m: Mapping, offset: int) {
    m.start <= offset < m.end
  }

  /** The mapping moved `delta` bytes on. */
  function Adjusted(m: Mapping, generated: Bytes, delta: int): Mapping
    requires m.start <= m.end <= |generated|
  {
    if m.synthetic || delta <= 0 then m
    else
      var end := if m.start + delta > m.end then m.end else m.start + delta;
      m.(place := PlaceAfter(generated[m.start..end], m.place), sourceStart := m.sourceStart + delta)
  }

  /** The first mapping that covers the offset, adjusted to it; otherwise the last that starts before it. */
  function Found(mappings: seq<Mapping>, generated: Bytes, offset: int, previous: Option<Mapping>): Option<Mapping>
    requires forall i :: 0 <= i < |mappings| ==> mappings[i].start < mappings[i].end <= |generated|
  {
    if mappings == [] then previous
    else if Covers(mappings[0], offset) then Some(Adjusted(mappings[0], generated, offset - mappings[0].start))
    else Found(mappings[1..], generated, offset, if mappings[0].start <= offset then Some(mappings[0]) else previous)
  }

  method FindMapping(mappings: seq<Mapping>, generated: Bytes, offset: int) returns (result: Option<Mapping>)
    requires forall i :: 0 <= i < |mappings| ==> mappings[i].start < mappings[i].end <= |generated|
    ensures result == Found(mappings, generated, offset, None)
  {
    result := None;
    for i := 0 to |mappings|
      invariant Found(mappings[i..], generated, offset, result) == Found(mappings, generated, offset, None)
    {
      var mapping := mappings[i];
      assert mappings[i..][1..] == mappings[i + 1..];
      if mapping.start <= offset && offset < mapping.end {
        var adjusted := AdjustMapping(mapping, generated, offset - mapping.start);
        return Some(adjusted);
      }
      if mapping.start <= offset {
        result := Some(mapping);
      }
    }
  }

  method AdjustMapping(m: Mapping, generated: Bytes, delta: int) returns (result: Mapping)
    requires m.start <= m.end <= |generated|
    ensures result == Adjusted(m, generated, delta)
  {
    if m.synthetic || delta <= 0 {
      return m;
    }
    var end := m.start + delta;
    if end > m.end {
      end := m.end;
    }
    var segment := generated[m.start..end];
    var line, column := m.place.line, m.place.column;
    while segment != []
      invariant PlaceAfter(segment, Place(line, column)) == PlaceAfter(generated[m.start..end], m.place)
      decreases |segment|
    {
      if segment[0] == NEWLINE {
        line, column := line + 1, 1;
      } else {
        column := column + 1;
      }
      segment := segment[RuneSize(segment)..];
    }
    result := m.(place := Place(line, column), sourceStart := m.sourceStart + delta);
  }

  /** The line and column of an offset of the source; offsets outside it are moved to its ends. */
  method SourcePosition(source: Bytes, offset: int) returns (place: Place)
    ensures place == PlaceAt(source, if offset > |source| then |source| else offset, TOP)
  {
    var end := if offset < 0 then 0 else if offset > |source| then |source| else offset;
    var line, column, index := 1, 1, 0;
    while index < end
      invariant 0 <= index <= end
      invariant PlaceAt(source[index..], end - index, Place(line, column)) == PlaceAt(source, end, TOP)
      decreases end - index
    {
      var size := RuneSize(source[index..]);
      if index + size > end {
        break;
      }
      assert source[index..][size..] == source[index + size..];
      if source[index] == NEWLINE {
        line, column := line + 1, 1;
      } else {
        column := column + 1;
      }
      index := index + size;
    }
    place := Place(line, column);
  }

  // ---- what a lookup gives ---------------------------------------------------------------------------------

  lemma {:induction false} Ascends(mappings: seq<Mapping>, length: nat, i: nat, j: nat)
    requires Tiles(mappings, length) && i < j < |mappings|
    ensures mappings[i].end <= mappings[j].start
    decreases j - i
  {
    assert Adjacent(mappings, j);
    if i < j - 1 {
      Ascends(mappings, length, i, j - 1);
    }
  }

  lemma {:induction false} FindsTheFirst(mappings: seq<Mapping>, generated: Bytes, offset: int, previous: Option<Mapping>, i: nat)
    requires forall k :: 0 <= k < |mappings| ==> mappings[k].start < mappings[k].end <= |generated|
    requires i < |mappings| && Covers(mappings[i], offset) && forall k :: 0 <= k < i ==> !Covers(mappings[k], offset)
    ensures Found(mappings, generated, offset, previous)
         == Some(Adjusted(mappings[i], generated, offset - mappings[i].start))
    decreases i
  {
    if i > 0 {
      assert !Covers(mappings[0], offset);
      assert forall k :: 0 <= k < i - 1 ==> mappings[1..][k] == mappings[k + 1];
      FindsTheFirst(mappings[1..], generated, offset, if mappings[0].start <= offset then Some(mappings[0]) else previous, i - 1);
    }
  }

  lemma {:induction false} SomeTileCovers(mappings: seq<Mapping>, length: nat, offset: nat, j: nat) returns (i: nat)
    requires Tiles(mappings, length) && j < |mappings| && offset < mappings[j].end
    ensures i < |mappings| && Covers(mappings[i], offset)
    decreases j
  {
    if mappings[j].start <= offset {
      i := j;
    } else {
      assert j > 0 ==> Adjacent(mappings, j);
      i := SomeTileCovers(mappings, length, offset, j - 1);
    }
  }

  /** Every offset of the generated text is covered by one mapping, by no other, and that is the one found. */
  lemma FindsTheTile(mappings: seq<Mapping>, generated: Bytes, offset: nat) returns (i: nat)
    requires Tiles(mappings, |generated|) && offset < |generated|
    ensures i < |mappings| && Covers(mappings[i], offset)
    ensures forall k :: 0 <= k < |mappings| && Covers(mappings[k], offset) ==> k == i
    ensures Found(mappings, generated, offset, None) == Some(Adjusted(mappings[i], generated, offset - mappings[i].start))
  {
    i := SomeTileCovers(mappings, |generated|, offset, |mappings| - 1);
    forall k | 0 <= k < |mappings| && k != i
      ensures !Covers(mappings[k], offset)
    {
      if k < i {
        Ascends(mappings, |generated|, k, i);
      } else {
        Ascends(mappings, |generated|, i, k);
      }
    }
    FindsTheFirst(mappings, generated, offset, None, i);
  }

  /** The generated text up to an offset of a literal stretch is the source up to its counterpart. */
  lemma CopiedPart(sources: Sources, generated: Bytes, m: Mapping, delta: nat)
    requires Faithful(sources, generated, m) && !m.synthetic && m.start + delta < m.end
    ensures m.sourceStart + delta < |sources[m.path]| && sources[m.path][m.sourceStart + delta] == generated[m.start + delta]
    ensures generated[m.start..m.start + delta] == sources[m.path][m.sourceStart..][..delta]
  {
    var source, n := sources[m.path], m.end - m.start;
    PartOf(generated, m.start, m.end, delta);
    PartOf(source, m.sourceStart, m.sourceStart + n, delta);
    assert source[m.sourceStart..][..delta] == source[m.sourceStart..m.sourceStart + delta];
  }

  lemma PartOf(s: Bytes, a: nat, b: nat, d: nat)
    requires a + d < b <= |s|
    ensures s[a..b][d] == s[a + d] && s[a..b][..d] == s[a..a + d]
  {
  }

  /** Decoding on from a boundary gives the right place exactly at boundaries. */
  lemma PlaceFromBoundary(source: Bytes, start: nat, delta: nat)
    requires start + delta <= |source| && Boundary(source, start)
    ensures PlaceAfter(source[start..][..delta], PlaceAt(source, start, TOP)) == PlaceAt(source, start + delta, TOP) <==>
            Boundary(source, start + delta)
  {
    var rest, place := source[start..], PlaceAt(source, start, TOP);
    PlaceJoins(source, start, delta, TOP);
    BoundaryJoins(source, start, delta);
    if Boundary(rest, delta) {
      CutAtBoundary(rest, delta, place);
    } else {
      CutInsideRune(rest, delta, place);
    }
  }

  /** A lookup inside a literal stretch gives the counterpart of the offset in the source, which holds the same byte, and
      its line and column exactly when the offset does not cut a rune. */
  lemma LookupInverts(sources: Sources, mappings: seq<Mapping>, generated: Bytes, offset: nat, i: nat)
    requires Tiles(mappings, |generated|) && i < |mappings| && Covers(mappings[i], offset)
    requires Faithful(sources, generated, mappings[i]) && !mappings[i].synthetic
    ensures var source := sources[mappings[i].path];
      var found := Found(mappings, generated, offset, None);
      && found.Some? && found.value.path == mappings[i].path
      && found.value.sourceStart == mappings[i].sourceStart + (offset - mappings[i].start) < |source|
      && source[found.value.sourceStart] == generated[offset]
      && (found.value.place == PlaceAt(source, found.value.sourceStart, TOP) <==>
            Boundary(source, found.value.sourceStart))
  {
    var m := mappings[i];
    var delta := offset - m.start;
    var j := FindsTheTile(mappings, generated, offset);
    CopiedPart(sources, generated, m, delta);
    AdjustedPlace(m, generated, delta);
    PlaceFromBoundary(sources[m.path], m.sourceStart, delta);
  }

  lemma AdjustedPlace(m: Mapping, generated: Bytes, delta: nat)
    requires !m.synthetic && m.start + delta < m.end <= |generated|
    ensures Adjusted(m, generated, delta)
         == m.(place := PlaceAfter(generated[m.start..m.start + delta], m.place), sourceStart := m.sourceStart + delta)
  {
    assert delta == 0 ==> generated[m.start..m.start + delta] == [];
  }

  /** The two bytes of an e with an acute accent. */
  const ACUTE: Bytes := [0xC3, 0xA9]

  lemma AcuteIsOneRune()
    ensures RuneSize(ACUTE) == 2 && !Boundary(ACUTE, 1) && PlaceAt(ACUTE, 1, TOP) == TOP
  {
  }

  /** An input that shows it: a lookup inside a copied letter of two bytes gives the column after the letter. */
  lemma InsideALetter(path: string)
    ensures var mappings := [Mapping(0, 2, 0, path, TOP, false)];
      && Tiles(mappings, |ACUTE|) && Faithful(map[path := ACUTE], ACUTE, mappings[0])
      && Found(mappings, ACUTE, 1, None).Some? && Found(mappings, ACUTE, 1, None).value.place == Place(1, 2)
      && Found(mappings, ACUTE, 1, None).value.place != PlaceAt(ACUTE, 1, TOP)
  {
    var m := Mapping(0, 2, 0, path, TOP, false);
    assert ACUTE[0..2] == ACUTE;
    AcuteIsOneRune();
    LookupInverts(map[path := ACUTE], [m], ACUTE, 1, 0);
    var i := FindsTheTile([m], ACUTE, 1);
    AdjustedPlace(m, ACUTE, 1);
    assert ACUTE[0..1] == [ACUTE[0]] && RuneSize([ACUTE[0]]) == 1;
    assert PlaceAfter([ACUTE[0]], TOP) == Place(1, 2) by {
      assert [ACUTE[0]][1..] == [];
    }
  }

  // ---- from a line and a column to an offset -----------------------------------------------------------------

  /** The start of a line, or nothing when the text has fewer lines. */
  function LineStart(s: Bytes, line: int): Option<nat>
    decreases |s|
  {
    var n := FirstNewline(s);
    if line <= 1 || s == [] then Some(0)
    else if n == |s| then None
    else
      var rest := LineStart(s[n + 1..], line - 1);
      if rest.None? then None else Some(n + 1 + rest.value)
  }

  /** The offset of a line and a column counted in bytes, moved to the ends of the text. */
  function OffsetOf(s: Bytes, line: int, column: int): nat {
    var start := LineStart(s, line);
    var across := if column < 1 then 0 else column - 1;
    if start.None? || start.value + across > |s| then |s| else start.value + across
  }

  method LineColumnOffset(source: Bytes, line: int, column: int) returns (offset: nat)
    ensures offset == OffsetOf(source, line, column)
  {
    var wanted := if line < 1 then 1 else line;
    var across := if column < 1 then 0 else column - 1;
    var at: nat, current, rest := 0, 1, source;
    ghost var start := LineStart(source, wanted);
    FirstLine(source, line, column, start);
    while current < wanted && rest != []
      invariant 1 <= current <= wanted && at + |rest| == |source|
      invariant Leads(rest, wanted - current + 1, at, start)
      decreases wanted - current
    {
      var next := FirstNewline(rest);
      NextLine(rest, at, wanted - current + 1, start, next);
      if next == |rest| {
        return |source|;
      }
      at, rest := at + next + 1, rest[next + 1..];
      current := current + 1;
    }
    LineFound(rest, wanted - current + 1, at, start);
    offset := if at + across > |source| then |source| else at + across;
  }

  /** Counted from `at`, where the rest begins, the line starts there. */
  ghost predicate Leads(rest: Bytes, line: int, at: nat, start: Option<nat>) {
    start == Later(at, LineStart(rest, line))
  }

  lemma {:induction false} FirstLine(s: Bytes, line: int, column: int, start: Option<nat>)
    requires start == LineStart(s, if line < 1 then 1 else line)
    ensures Leads(s, if line < 1 then 1 else line, 0, start)
    ensures var across := if column < 1 then 0 else column - 1;
      OffsetOf(s, line, column) == if start.None? || start.value + across > |s| then |s| else start.value + across
  {
  }

  lemma {:induction false} NextLine(s: Bytes, at: nat, line: int, start: Option<nat>, next: nat)
    requires s != [] && line > 1 && Leads(s, line, at, start) && next == FirstNewline(s)
    ensures next == |s| ==> start.None?
    ensures next < |s| ==> Leads(s[next + 1..], line - 1, at + next + 1, start)
  {
  }

  lemma {:induction false} LineFound(s: Bytes, line: int, at: nat, start: Option<nat>)
    requires (s == [] || line <= 1) && Leads(s, line, at, start)
    ensures start == Some(at)
  {
  }

  ghost function Later(distance: nat, start: Option<nat>): Option<nat> {
    if start.None? then None else Some(distance + start.value)
  }

  /** The line and the column of an offset, counted in bytes. */
  function BytePlace(s: Bytes, offset: nat, p: Place): Place
    requires offset <= |s|
    decreases offset
  {
    if offset == 0 then p else BytePlace(s[1..], offset - 1, Past(p, s[0]))
  }

  lemma {:induction false} WithinLine(s: Bytes, offset: nat, p: Place)
    requires offset <= FirstNewline(s)
    ensures BytePlace(s, offset, p) == Place(p.line, p.column + offset)
    decreases offset
  {
    if offset > 0 {
      assert s[0] != NEWLINE && FirstNewline(s) == FirstNewline(s[1..]) + 1;
      WithinLine(s[1..], offset - 1, Past(p, s[0]));
    }
  }

  lemma {:induction false} PastLine(s: Bytes, offset: nat, p: Place)
    requires FirstNewline(s) < offset <= |s|
    ensures var n := FirstNewline(s); BytePlace(s, offset, p) == BytePlace(s[n + 1..], offset - n - 1, Place(p.line + 1, 1))
    decreases offset
  {
    var n := FirstNewline(s);
    if n > 0 {
      assert s[0] != NEWLINE && n == FirstNewline(s[1..]) + 1;
      PastLine(s[1..], offset - 1, Past(p, s[0]));
      assert s[1..][n..] == s[n + 1..];
    }
  }

  lemma {:induction false} LinesAreRelative(s: Bytes, offset: nat, p: Place)
    requires offset <= |s|
    ensures BytePlace(s, offset, p).line >= p.line && (p.column >= 1 ==> BytePlace(s, offset, p).column >= 1)
    ensures BytePlace(s, offset, p.(line := p.line + 1)) == BytePlace(s, offset, p).(line := BytePlace(s, offset, p).line + 1)
    decreases offset
  {
    if offset > 0 {
      LinesAreRelative(s[1..], offset - 1, Past(p, s[0]));
    }
  }

  /** Looking up the line and the column of any offset gives the offset back. */
  lemma {:induction false} OffsetInverts(s: Bytes, offset: nat)
    requires offset <= |s|
    ensures var p := BytePlace(s, offset, TOP); OffsetOf(s, p.line, p.column) == offset
    decreases |s|
  {
    var n := FirstNewline(s);
    if offset <= n {
      WithinLine(s, offset, TOP);
    } else {
      PastLine(s, offset, TOP);
      var rest := s[n + 1..];
      LinesAreRelative(rest, offset - n - 1, TOP);
      OffsetInverts(rest, offset - n - 1);
    }
  }
}
