/** A small view with a directive around a text. */
module ViewSample {
  import opened Basics
  import opened Runes
  import opened SourceMap
  import opened ViewScan
  import opened ViewNodes

  const IF: Bytes := [105, 102]
  const END_IF: Bytes := [101, 110, 100, 105, 102]

  /** The bytes of @if(a)b@endif. */
  const SAMPLE: Bytes := [64, 105, 102, 40, 97, 41, 98, 64, 101, 110, 100, 105, 102]

  lemma SampleNames()
    ensures NameEnd(SAMPLE, 1) == 3 && NameAt(SAMPLE, 1) == IF
    ensures NameEnd(SAMPLE, 8) == 13 && NameAt(SAMPLE, 8) == END_IF
  {
    assert NameEnd(SAMPLE, 3) == 3 && NameEnd(SAMPLE, 2) == 3;
    assert NameEnd(SAMPLE, 12) == 13 && NameEnd(SAMPLE, 11) == 13 && NameEnd(SAMPLE, 10) == 13 && NameEnd(SAMPLE, 9) == 13;
  }

  lemma SampleArguments()
    ensures ArgumentsAt(SAMPLE, 3) == Some(6) && ArgumentsText(SAMPLE, 3) == [97]
  {
    assert BalancedFrom(SAMPLE, 5, Outside, 1) == Some(6);
    assert BalancedFrom(SAMPLE, 4, Outside, 1) == Some(6);
    assert SAMPLE[4..5] == [97];
  }

  predicate IsSample(v: View) {
    v.source == SAMPLE && v.words(IF) == Some(If) && v.words(END_IF) == Some(EndIf) && v.accepts(If, [97])
  }

  lemma SampleHead(v: View)
    requires IsSample(v)
    ensures |v.source| == 13 && HasHead(v, If, [97], 6, 0) && HasEnd(v, If, 7, 13) && IsDirective(v, 7)
  {
    SampleNames();
    SampleArguments();
  }

  /** Only directives start in it, where there is an @. */
  lemma SampleIsPlain(v: View, p: nat)
    requires IsSample(v) && p < 13
    ensures CommentAt(v.source, p).None? && (p != 0 && p != 7 ==> !StartsItem(v, p)) && Ascii(v.source[p])
  {
    if CommentAt(v.source, p).Some? {
      CommentOpens(v.source, p);
    }
    if HasPrefix(v.source, p, [OPEN, OPEN]) {
      PrefixBytes(v.source, p, OPEN, OPEN);
    }
    if HasPrefix(v.source, p, [AT, AT]) {
      PrefixBytes(v.source, p, AT, AT);
    }
  }

  /** A text alone. */
  lemma OneText(v: View, start: nat, end: nat) returns (node: Node)
    requires start < end <= |v.source| && Ascii(v.source[start]) && CommentAt(v.source, start).None?
    requires Plain(v, start, end) && (end == |v.source| || StartsItem(v, end))
    ensures node.Text? && Good(v, node) && Covered(v.source, [node], start, end)
  {
    AsciiIsBoundary(v.source, start);
    node := Text(v.source[start..end], Span(v.path, start, end, PlaceAt(v.source, start, TOP)));
    assert TextShape(v, node.text, node.span);
    assert [node][1..] == [];
  }

  /** A directive around nodes. */
  lemma OneControl(v: View, k: Keyword, raw: Bytes, head: nat, close: nat, start: nat, end: nat, children: seq<Node>)
    returns (node: Node)
    requires IsControl(k) && start < end <= |v.source| && Ascii(v.source[start]) && CommentAt(v.source, start).None?
    requires HasHead(v, k, raw, head, start) && HasEnd(v, k, close, end)
    requires AllGood(v, children) && Covered(v.source, children, head, close)
    ensures node.Control? && node.children == children && Good(v, node) && Covered(v.source, [node], start, end)
  {
    AsciiIsBoundary(v.source, start);
    node := Control(k, raw, head, close, Span(v.path, start, end, PlaceAt(v.source, start, TOP)), children, [], NoAlternate);
    assert ControlShape(v, k, raw, head, close, node.span, children, [], NoAlternate);
    assert [node][1..] == [];
  }

  /** A good directive from start to end that has this one child. */
  predicate Around(v: View, node: Node, inner: Node, start: nat, end: nat) {
    node.Control? && node.children == [inner] && Good(v, node) && Covered(v.source, [node], start, end)
  }

  lemma SampleInner(v: View) returns (inner: Node)
    requires IsSample(v)
    ensures inner.Text? && AllGood(v, [inner]) && Covered(v.source, [inner], 6, 7)
  {
    SampleHead(v);
    SampleIsPlain(v, 6);
    inner := OneText(v, 6, 7);
  }

  lemma SampleIsGood(v: View) returns (node: Node, inner: Node)
    requires IsSample(v)
    ensures inner.Text? && Around(v, node, inner, 0, |v.source|)
  {
    SampleHead(v);
    SampleIsPlain(v, 0);
    inner := SampleInner(v);
    node := OneControl(v, If, [97], 6, 7, 0, 13, [inner]);
  }
}
