/** Files of nothing but text: what comes out is the source without its comments and escapes. */
module ViewTexts {
  import opened Basics
  import opened SourceMap
  import opened ViewScan
  import opened ViewNodes
  import opened ViewCompile
  import opened ViewDocument
  import opened ViewOrganize
  import opened Layouts
  import opened SharedBranches
  import opened ViewSite

  /** The source from `at` on without comments, and with one @ for every @@, read from left to right. */
  function Cleaned(source: Bytes, at: nat): Bytes
    requires at <= |source|
    decreases |source| - at
  {
    if at == |source| then []
    else if CommentAt(source, at).Some? then Cleaned(source, CommentAt(source, at).value)
    else if at + 1 < |source| && source[at] == 64 && source[at + 1] == 64 then [64] + Cleaned(source, at + 2)
    else [source[at]] + Cleaned(source, at + 1)
  }

  predicate OnlyText(nodes: seq<Node>) {
    forall i :: 0 <= i < |nodes| ==> nodes[i].Text?
  }

  function Joined(nodes: seq<Node>): Bytes
    requires OnlyText(nodes)
  {
    if nodes == [] then [] else nodes[0].text + Joined(nodes[1..])
  }

  lemma Prepended(b: Byte, kept: Bytes, rest: Bytes)
    ensures [b] + (kept + rest) == [b] + kept + rest
  {
  }

  lemma ByteIsKept(v: View, at: nat)
    requires at < |v.source| && !StartsItem(v, at)
    ensures Cleaned(v.source, at) == [v.source[at]] + Cleaned(v.source, at + 1)
  {
    if CommentAt(v.source, at).Some? {
      CommentOpens(v.source, at);
    }
    assert !HasPrefix(v.source, at, [AT, AT]);
  }

  /** Where nothing starts, the source is kept as it is. */
  lemma {:induction false} PlainIsKept(v: View, start: nat, end: nat)
    requires start <= end <= |v.source| && Plain(v, start, end)
    ensures Cleaned(v.source, start) == v.source[start..end] + Cleaned(v.source, end)
    decreases end - start
  {
    if start == end {
      assert v.source[start..end] == [];
    } else {
      ByteIsKept(v, start);
      PlainIsKept(v, start + 1, end);
      assert v.source[start..end] == [v.source[start]] + v.source[start + 1..end];
      Prepended(v.source[start], v.source[start + 1..end], Cleaned(v.source, end));
    }
  }

  lemma TextIsCleaned(v: View, text: Bytes, span: Span)
    requires Located(v.source, span) && TextShape(v, text, span) && span.start < span.end && CommentAt(v.source, span.start).None?
    ensures Cleaned(v.source, span.start) == text + Cleaned(v.source, span.end)
  {
    if HasPrefix(v.source, span.start, [AT, AT]) {
      PrefixBytes(v.source, span.start, AT, AT);
      assert StartsItem(v, span.start);
    } else {
      PlainIsKept(v, span.start, span.end);
    }
  }

  lemma {:induction false} TextsAreCleaned(v: View, nodes: seq<Node>, from: nat)
    requires AllGood(v, nodes) && OnlyText(nodes) && from <= |v.source| && Covered(v.source, nodes, from, |v.source|)
    ensures Joined(nodes) == Cleaned(v.source, from)
    decreases |v.source| - from
  {
    if from < |v.source| {
      if CommentAt(v.source, from).Some? {
        TextsAreCleaned(v, nodes, CommentAt(v.source, from).value);
      } else {
        assert Good(v, nodes[0]);
        TextIsCleaned(v, nodes[0].text, nodes[0].span);
        TextsAreCleaned(v, nodes[1..], nodes[0].span.end);
      }
    }
  }

  lemma {:induction false} TextsComeOut(g: Generator, nodes: seq<Node>, depth: nat, out: Output)
    requires OnlyText(nodes)
    ensures var o := Compiled(g, Page, nodes, depth, out);
      o.Done? && Texts(o.out.pieces) == Texts(out.pieces) + Joined(nodes)
  {
    if nodes == [] {
      assert Texts(out.pieces) + [] == Texts(out.pieces);
    } else {
      var p := CopyOf(g, Page, nodes[0]);
      var more := Put(out, p);
      assert more.pieces[..|more.pieces| - 1] == out.pieces;
      TextsComeOut(g, nodes[1..], depth, more);
      assert Texts(out.pieces) + nodes[0].text + Joined(nodes[1..]) == Texts(out.pieces) + (nodes[0].text + Joined(nodes[1..]));
    }
  }

  lemma {:induction false} OnlyTextIsSettled(nodes: seq<Node>)
    requires OnlyText(nodes)
    ensures Settled(nodes, {}, true)
  {
    if nodes != [] {
      OnlyTextIsSettled(nodes[1..]);
    }
  }

  /** A file whose parse is nothing but text always compiles, and the template is the file without its comments and with one @
      for every @@. */
  lemma TextFileComesOut(rules: Rules, texts: Generator, documents: Documents, name: string, v: View, nodes: seq<Node>, depth: nat,
      counter: nat)
    requires name in documents && !IsComponent(name) && Parses(v, nodes) && OnlyText(nodes)
    requires Loads(rules, name, v, documents[name])
    ensures var o := ViewOutcome(texts, documents, name, depth, counter);
      o.Done? && Texts(o.out.pieces) == Cleaned(v.source, 0)
  {
    OnlyTextIsSettled(nodes);
    PlainFileCompiles(rules, texts, documents, name, v, nodes, depth, counter);
    TextsAreCleaned(v, nodes, 0);
    TextsComeOut(GeneratorFor(texts, documents, nodes), nodes, depth, Output([], counter));
    assert Texts([]) + Joined(nodes) == Joined(nodes);
  }
}
