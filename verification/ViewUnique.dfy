/** A view has one parse: the shapes and the coverage of its nodes leave no choice. */
module ViewUnique {
  import opened Basics
  import opened SourceMap
  import opened ViewScan
  import opened ViewNodes

  /** A list of nodes ends here: at the end of the file, or at a word that ends a body. */
  predicate Halts(v: View, at: nat) {
    at == |v.source| || (at < |v.source| && WordAt(v, at).Some? && IsEnding(WordAt(v, at).value))
  }

  /** What stands at a position, as far as it decides the kind of a node. */
  datatype Mark = AtText | AtEscape | AtAction | AtWord(k: Keyword)

  function MarkAt(v: View, p: nat): Mark {
    if HasPrefix(v.source, p, [OPEN, OPEN]) then AtAction
    else if HasPrefix(v.source, p, [AT, AT]) then AtEscape
    else if IsDirective(v, p) then AtWord(WordAt(v, p).value)
    else AtText
  }

  function MarkOf(node: Node): Mark {
    match node
    case Text(text, span) => if text == [AT] && span.end == span.start + 2 then AtEscape else AtText
    case Action(_, _) => AtAction
    case Leaf(k, _, _, _) => AtWord(k)
    case Block(k, _, _, _, _, _, _) => AtWord(k)
    case Control(k, _, _, _, _, _, _, _) => AtWord(k)
  }

  lemma WordIsNoMark(v: View, p: nat)
    requires WordAt(v, p).Some?
    ensures !HasPrefix(v.source, p, [OPEN, OPEN]) && !HasPrefix(v.source, p, [AT, AT])
  {
    if HasPrefix(v.source, p, [OPEN, OPEN]) {
      PrefixBytes(v.source, p, OPEN, OPEN);
    }
    if HasPrefix(v.source, p, [AT, AT]) {
      EscapeHasNoName(v, p);
    }
  }

  lemma EscapeHasNoName(v: View, p: nat)
    requires HasPrefix(v.source, p, [AT, AT])
    ensures NameAt(v.source, p + 1) == []
  {
    PrefixBytes(v.source, p, AT, AT);
  }

  lemma TextMark(v: View, node: Node)
    requires Shape(v, node) && (node.Text? || node.Action?)
    ensures MarkOf(node) == MarkAt(v, node.span.start)
  {
    var p := node.span.start;
    if node.Text? {
      if node.text == [AT] && HasPrefix(v.source, p, [AT, AT]) && node.span.end == p + 2 {
        PrefixBytes(v.source, p, AT, AT);
        if HasPrefix(v.source, p, [OPEN, OPEN]) {
          PrefixBytes(v.source, p, OPEN, OPEN);
        }
      } else {
        assert !StartsItem(v, p);
        assert |node.text| == node.span.end - p;
      }
    }
  }

  lemma WordMark(v: View, node: Node)
    requires Shape(v, node) && !node.Text? && !node.Action?
    ensures MarkOf(node) == MarkAt(v, node.span.start)
  {
    WordIsNoMark(v, node.span.start);
  }

  /** The kind of a good node is decided by what stands where it starts. */
  lemma MarkDecides(v: View, node: Node)
    requires Shape(v, node)
    ensures MarkOf(node) == MarkAt(v, node.span.start)
  {
    if node.Text? || node.Action? {
      TextMark(v, node);
    } else {
      WordMark(v, node);
    }
  }

  /** No good node starts where a list of nodes ends. */
  lemma NothingAtHalt(v: View, node: Node)
    requires Shape(v, node)
    ensures !Halts(v, node.span.start)
  {
    var p := node.span.start;
    if Halts(v, p) {
      MarkDecides(v, node);
      WordIsNoMark(v, p);
    }
  }

  lemma SameSpan(v: View, a: Span, b: Span)
    requires IsLocated(v, a) && IsLocated(v, b) && a.start == b.start && a.end == b.end
    ensures a == b
  {
  }

  lemma SameText(v: View, x: Node, y: Node)
    requires Shape(v, x) && Shape(v, y) && x.Text? && y.Text? && x.span.start == y.span.start
    ensures x == y
  {
    MarkDecides(v, x);
    MarkDecides(v, y);
    assert MarkOf(x) == AtText ==> x.span.end == |v.source| || StartsItem(v, x.span.end);
    assert MarkOf(y) == AtText ==> y.span.end == |v.source| || StartsItem(v, y.span.end);
    SameSpan(v, x.span, y.span);
  }

  lemma SameLeaf(v: View, x: Node, y: Node)
    requires Shape(v, x) && Shape(v, y) && x.Leaf? && y.Leaf? && x.span.start == y.span.start && x.kind == y.kind
    ensures x == y
  {
    SameSpan(v, x.span, y.span);
  }

  lemma SameAction(v: View, x: Node, y: Node)
    requires Shape(v, x) && Shape(v, y) && x.Action? && y.Action? && x.span.start == y.span.start
    ensures x == y
  {
    SameSpan(v, x.span, y.span);
  }

  lemma StopHalts(v: View, p: nat, k: Keyword)
    requires IsStop(v, p, k)
    ensures Halts(v, p) && p < |v.source|
  {
  }

  lemma SameMark(v: View, x: Node, y: Node)
    requires Shape(v, x) && Shape(v, y) && x.span.start == y.span.start
    ensures MarkOf(x) == MarkOf(y)
  {
    MarkDecides(v, x);
    MarkDecides(v, y);
  }

  /** A word has one kind of node. */
  lemma SameKind(v: View, x: Node, y: Node)
    requires Shape(v, x) && Shape(v, y) && x.span.start == y.span.start
    ensures x.Text? == y.Text? && x.Action? == y.Action? && x.Leaf? == y.Leaf? && x.Block? == y.Block? && x.Control? == y.Control?
    ensures !x.Text? && !x.Action? ==> x.kind == y.kind
  {
    SameMark(v, x, y);
    KindOfWord(v, x);
    KindOfWord(v, y);
  }

  lemma KindOfWord(v: View, x: Node)
    requires Shape(v, x)
    ensures (x.Leaf? ==> IsLeaf(x.kind)) && (x.Block? ==> IsBlock(x.kind)) && (x.Control? ==> IsControl(x.kind))
  {
  }

  /** Good nodes from one start are the same node. */
  lemma {:induction false} SameNode(v: View, x: Node, y: Node)
    requires Good(v, x) && Good(v, y) && x.span.start == y.span.start
    ensures x == y
    decreases |v.source| - x.span.start, 5
  {
    SameKind(v, x, y);
    if x.Text? {
      SameText(v, x, y);
    } else if x.Action? {
      SameAction(v, x, y);
    } else if x.Leaf? {
      SameLeaf(v, x, y);
    } else if x.Block? {
      SameBlock(v, x, y);
    } else {
      SameControl(v, x, y);
    }
  }

  lemma {:induction false} SameBlock(v: View, x: Node, y: Node)
    requires Good(v, x) && Good(v, y) && x.span.start == y.span.start
    requires x.Block? && y.Block? && x.kind == y.kind
    ensures x == y
    decreases |v.source| - x.span.start, 4
  {
    StopHalts(v, x.close, EndOf(x.kind));
    StopHalts(v, y.close, EndOf(y.kind));
    assert x.span.start < x.head == y.head;
    SameList(v, x.children, x.close, y.children, y.close, x.head);
    SameSpan(v, x.span, y.span);
  }

  /** Good lists from one start, to places where lists end, are the same list. */
  lemma {:induction false} SameList(v: View, a: seq<Node>, toA: nat, b: seq<Node>, toB: nat, from: nat)
    requires AllGood(v, a) && AllGood(v, b)
    requires Covered(v.source, a, from, toA) && Covered(v.source, b, from, toB)
    requires Halts(v, toA) && Halts(v, toB) && toA <= |v.source| && toB <= |v.source|
    ensures a == b && toA == toB
    decreases |v.source| - from, 6
  {
    if from >= toA || from >= toB {
      HaltedList(v, a, toA, from);
      HaltedList(v, b, toB, from);
    } else if CommentAt(v.source, from).Some? {
      SameList(v, a, toA, b, toB, CommentAt(v.source, from).value);
    } else {
      FirstAndRest(v, a, toA, from);
      FirstAndRest(v, b, toB, from);
      SameNode(v, a[0], b[0]);
      SameList(v, a[1..], toA, b[1..], toB, a[0].span.end);
      SameSplit(a, b);
    }
  }

  lemma SameSplit<T>(a: seq<T>, b: seq<T>)
    requires a != [] && b != [] && a[0] == b[0] && a[1..] == b[1..]
    ensures a == b
  {
    assert a == [a[0]] + a[1..] && b == [b[0]] + b[1..];
  }

  lemma FirstAndRest(v: View, a: seq<Node>, to: nat, from: nat)
    requires AllGood(v, a) && Covered(v.source, a, from, to) && from < to && CommentAt(v.source, from).None?
    ensures a != [] && Good(v, a[0]) && a[0].span.start == from < a[0].span.end
    ensures AllGood(v, a[1..]) && Covered(v.source, a[1..], a[0].span.end, to)
  {
    RestIsGood(v, a);
  }

  lemma RestIsGood(v: View, a: seq<Node>)
    requires AllGood(v, a) && a != []
    ensures AllGood(v, a[1..])
  {
  }

  /** From where lists end, only the empty list goes on. */
  lemma HaltedList(v: View, a: seq<Node>, to: nat, from: nat)
    requires AllGood(v, a) && Covered(v.source, a, from, to) && to <= |v.source|
    ensures Halts(v, from) ==> a == [] && from == to
  {
    if Halts(v, from) && from < to {
      if CommentAt(v.source, from).Some? {
        CommentOpens(v.source, from);
      } else {
        NothingAtHalt(v, a[0]);
      }
    }
  }

  predicate GoodBranches(v: View, branches: seq<Branch>) {
    forall i :: 0 <= i < |branches| ==> BranchHead(v, branches[i]) && AllGood(v, branches[i].nodes)
  }

  /** The word where the branches of a control directive end is none of theirs. */
  predicate EndsBranches(v: View, to: nat) {
    Halts(v, to) && to < |v.source| && WordAt(v, to) != Some(ElseIf)
  }

  /** The bodies of a control directive, as far as they decide each other. */
  predicate Bodies(v: View, start: nat, x: Node)
    requires x.Control?
  {
    && x.span.start == start < x.head && AllGood(v, x.children) && GoodBranches(v, x.branches)
    && EndsBranches(v, BodiesEnd(x)) && EndsBranches(v, x.close)
    && Covered(v.source, x.children, x.head, FirstStart(x.branches, BodiesEnd(x)))
    && Chained(v.source, x.branches, BodiesEnd(x))
  }

  function BodiesEnd(x: Node): nat
    requires x.Control?
  {
    BranchesEnd(x.alternate, x.close)
  }

  lemma ControlBodies(v: View, x: Node)
    requires Good(v, x) && x.Control?
    ensures Bodies(v, x.span.start, x)
  {
    ControlEnds(v, x);
  }

  lemma ControlEnds(v: View, x: Node)
    requires Shape(v, x) && x.Control?
    ensures EndsBranches(v, BodiesEnd(x)) && EndsBranches(v, x.close) && x.span.start < x.head
  {
  }

  lemma FirstHalts(v: View, branches: seq<Branch>, to: nat)
    requires GoodBranches(v, branches) && EndsBranches(v, to)
    ensures Halts(v, FirstStart(branches, to)) && FirstStart(branches, to) < |v.source|
    ensures branches == [] <==> WordAt(v, FirstStart(branches, to)) != Some(ElseIf)
  {
    if branches != [] {
      assert BranchHead(v, branches[0]);
    }
  }

  lemma {:induction false} SameControl(v: View, x: Node, y: Node)
    requires Good(v, x) && Good(v, y) && x.span.start == y.span.start
    requires x.Control? && y.Control? && x.kind == y.kind
    ensures x == y
    decreases |v.source| - x.span.start, 4
  {
    ControlBodies(v, x);
    ControlBodies(v, y);
    SameHead(v, x, y);
    SameBodies(v, x.span.start, x, y);
    BodiesForward(v, x.span.start, x);
    SameAlternate(v, x, y);
    SameClose(v, x, y);
  }

  lemma BodiesForward(v: View, start: nat, x: Node)
    requires x.Control? && Bodies(v, start, x)
    ensures start < BodiesEnd(x)
  {
    CoveredForward(v.source, x.children, x.head, FirstStart(x.branches, BodiesEnd(x)));
    ChainForward(v, x.branches, BodiesEnd(x));
  }

  lemma {:induction false} ChainForward(v: View, branches: seq<Branch>, to: nat)
    requires GoodBranches(v, branches) && Chained(v.source, branches, to)
    ensures FirstStart(branches, to) <= to
    decreases |branches|
  {
    if branches != [] {
      assert BranchHead(v, branches[0]);
      RestIsChain(v, branches, to);
      ChainForward(v, branches[1..], to);
    }
  }

  lemma SameHead(v: View, x: Node, y: Node)
    requires Shape(v, x) && Shape(v, y) && x.Control? && y.Control? && x.kind == y.kind && x.span.start == y.span.start
    ensures x.head == y.head && x.raw == y.raw
  {
  }

  lemma SameClose(v: View, x: Node, y: Node)
    requires Shape(v, x) && Shape(v, y) && x.Control? && y.Control? && x.kind == y.kind && x.span.start == y.span.start
    requires x.close == y.close
    ensures x.span == y.span
  {
    SameSpan(v, x.span, y.span);
  }

  lemma {:induction false} SameBodies(v: View, start: nat, x: Node, y: Node)
    requires x.Control? && y.Control? && Bodies(v, start, x) && Bodies(v, start, y) && x.head == y.head
    ensures x.children == y.children && x.branches == y.branches && BodiesEnd(x) == BodiesEnd(y)
    decreases |v.source| - start, 3
  {
    FirstHalts(v, x.branches, BodiesEnd(x));
    FirstHalts(v, y.branches, BodiesEnd(y));
    SameList(v, x.children, FirstStart(x.branches, BodiesEnd(x)), y.children, FirstStart(y.branches, BodiesEnd(y)), x.head);
    SameBranches(v, x.branches, BodiesEnd(x), y.branches, BodiesEnd(y), start);
  }

  lemma SameBranchHead(v: View, a: Branch, b: Branch)
    requires BranchHead(v, a) && BranchHead(v, b) && a.span.start == b.span.start
    ensures a.span == b.span && a.raw == b.raw && a.span.start < a.span.end
  {
    SameSpan(v, a.span, b.span);
  }

  lemma {:induction false} SameBranches(v: View, a: seq<Branch>, toA: nat, b: seq<Branch>, toB: nat, start: nat)
    requires GoodBranches(v, a) && GoodBranches(v, b)
    requires Chained(v.source, a, toA) && Chained(v.source, b, toB) && EndsBranches(v, toA) && EndsBranches(v, toB)
    requires FirstStart(a, toA) == FirstStart(b, toB) && (a != [] ==> start <= a[0].span.start)
    ensures a == b && toA == toB
    decreases |v.source| - start, 2, |a|
  {
    FirstHalts(v, a, toA);
    FirstHalts(v, b, toB);
    if a != [] {
      SameBranch(v, a, toA, b, toB, start);
      RestIsChain(v, a, toA);
      RestIsChain(v, b, toB);
      SameBranches(v, a[1..], toA, b[1..], toB, start);
      SameSplit(a, b);
    }
  }

  lemma RestIsChain(v: View, a: seq<Branch>, to: nat)
    requires GoodBranches(v, a) && Chained(v.source, a, to) && a != []
    ensures GoodBranches(v, a[1..]) && Chained(v.source, a[1..], to) && a[0].span.end <= FirstStart(a[1..], to)
  {
    CoveredForward(v.source, a[0].nodes, a[0].span.end, FirstStart(a[1..], to));
  }

  lemma {:induction false} SameBranch(v: View, a: seq<Branch>, toA: nat, b: seq<Branch>, toB: nat, start: nat)
    requires GoodBranches(v, a) && GoodBranches(v, b) && a != [] && b != []
    requires Chained(v.source, a, toA) && Chained(v.source, b, toB) && EndsBranches(v, toA) && EndsBranches(v, toB)
    requires a[0].span.start == b[0].span.start >= start
    ensures a[0] == b[0] && FirstStart(a[1..], toA) == FirstStart(b[1..], toB)
    decreases |v.source| - start, 1
  {
    SameBranchHead(v, a[0], b[0]);
    RestIsChain(v, a, toA);
    RestIsChain(v, b, toB);
    FirstHalts(v, a[1..], toA);
    FirstHalts(v, b[1..], toB);
    SameList(v, a[0].nodes, FirstStart(a[1..], toA), b[0].nodes, FirstStart(b[1..], toB), a[0].span.end);
  }

  lemma CoveredForward(source: Bytes, nodes: seq<Node>, from: nat, to: nat)
    requires Covered(source, nodes, from, to)
    ensures from <= to
  {
  }

  /** The @else or @empty part, given where it starts. */
  predicate AlternatePart(v: View, alternate: Alternate, close: nat) {
    && EndsBranches(v, close)
    && match alternate
       case NoAlternate => WordAt(v, close) != Some(Else) && WordAt(v, close) != Some(Empty)
       case Alternate(word, start, nodes) =>
         && (word == Else || word == Empty) && WordAt(v, start) == Some(word)
         && start < WordEnd(v, start) && AllGood(v, nodes) && Covered(v.source, nodes, WordEnd(v, start), close)
  }

  lemma HasAlternatePart(v: View, x: Node)
    requires Good(v, x) && x.Control?
    ensures AlternatePart(v, x.alternate, x.close)
  {
    ControlEnds(v, x);
  }

  lemma {:induction false} SameAlternate(v: View, x: Node, y: Node)
    requires Good(v, x) && Good(v, y) && x.Control? && y.Control?
    requires BodiesEnd(x) == BodiesEnd(y) && x.span.start < BodiesEnd(x)
    ensures x.alternate == y.alternate && x.close == y.close
    decreases |v.source| - x.span.start, 3
  {
    HasAlternatePart(v, x);
    HasAlternatePart(v, y);
    SamePart(v, x.span.start, x.alternate, x.close, y.alternate, y.close);
  }

  lemma {:induction false} SamePart(v: View, start: nat, a: Alternate, closeA: nat, b: Alternate, closeB: nat)
    requires AlternatePart(v, a, closeA) && AlternatePart(v, b, closeB)
    requires BranchesEnd(a, closeA) == BranchesEnd(b, closeB) > start
    ensures a == b && closeA == closeB
    decreases |v.source| - start, 2
  {
    if a.Alternate? && b.Alternate? {
      SameList(v, a.nodes, closeA, b.nodes, closeB, WordEnd(v, a.start));
    }
  }
}
