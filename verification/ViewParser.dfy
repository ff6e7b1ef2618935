/** The recursive parser of views. */
module ViewParser {
  import opened Basics
  import opened Runes
  import opened SourceMap
  import opened ViewScan
  import opened ViewNodes
  import opened ViewBodies

  lemma NodeAdded(v: View, nodes: seq<Node>, node: Node, from: nat)
    requires AllGood(v, nodes) && Good(v, node) && Covered(v.source, nodes, from, node.span.start)
    requires CommentAt(v.source, node.span.start).None?
    ensures AllGood(v, nodes + [node]) && Covered(v.source, nodes + [node], from, node.span.end)
  {
    NodeCovers(v.source, nodes, node, from);
  }

  /** Both ends of a word are boundaries. */
  lemma WordIsBounded(v: View, p: nat)
    requires WordAt(v, p).Some?
    ensures p < WordEnd(v, p) <= |v.source| && Boundary(v.source, p) && Boundary(v.source, WordEnd(v, p))
    ensures CommentAt(v.source, p).None?
  {
    AsciiIsBoundary(v.source, p);
    if WordEnd(v, p) > p + 1 {
      AsciiIsBoundary(v.source, WordEnd(v, p) - 1);
    }
    WordIsNoComment(v, p);
  }

  lemma WordIsNoComment(v: View, p: nat)
    requires WordAt(v, p).Some?
    ensures CommentAt(v.source, p).None?
  {
    if CommentAt(v.source, p).Some? {
      CommentOpens(v.source, p);
    }
  }

  lemma PlainGrows(v: View, start: nat, end: nat)
    requires Plain(v, start, end) && !StartsItem(v, end)
    ensures Plain(v, start, end + 1)
  {
  }

  lemma PlainIsNoComment(v: View, start: nat, end: nat)
    requires Plain(v, start, end) && start < end
    ensures CommentAt(v.source, start).None?
  {
    assert !StartsItem(v, start);
    if CommentAt(v.source, start).Some? {
      CommentOpens(v.source, start);
    }
  }

  lemma EscapeIsNoComment(v: View, p: nat)
    requires HasPrefix(v.source, p, [AT, AT])
    ensures CommentAt(v.source, p).None?
  {
    PrefixBytes(v.source, p, AT, AT);
    if CommentAt(v.source, p).Some? {
      CommentOpens(v.source, p);
    }
  }

  lemma StopEndsBody(v: View, from: nat, stops: set<Keyword>, nodes: seq<Node>, p: nat, k: Keyword)
    requires from <= p && k in stops && IsStop(v, p, k) && AllGood(v, nodes) && Covered(v.source, nodes, from, p)
    ensures IsBody(v, from, stops, Body(nodes, Some(k), p), WordEnd(v, p))
  {
  }

  lemma ActionStarts(v: View, p: nat)
    requires HasPrefix(v.source, p, [OPEN, OPEN]) && !HasPrefix(v.source, p, [OPEN, OPEN, DASH, DASH])
    ensures Boundary(v.source, p) && CommentAt(v.source, p).None? && p + 2 <= |v.source|
  {
    PrefixBytes(v.source, p, OPEN, OPEN);
    AsciiIsBoundary(v.source, p);
  }

  lemma ActionIsGood(v: View, span: Span)
    requires HasPrefix(v.source, span.start, [OPEN, OPEN]) && !HasPrefix(v.source, span.start, [OPEN, OPEN, DASH, DASH])
    requires IsLocated(v, span) && ActionEnd(v.source, span.start) == Some(span.end) && v.allows(v.source[span.start..span.end])
    ensures Good(v, Action(v.source[span.start..span.end], span)) && Boundary(v.source, span.end)
  {
    AsciiIsBoundary(v.source, span.end - 1);
    assert ActionShape(v, v.source[span.start..span.end], span);
  }

  lemma LeafIsGood(v: View, k: Keyword, name: string, raw: Bytes, span: Span)
    requires IsLocated(v, span) && LeafShape(v, k, name, raw, span)
    ensures Good(v, Leaf(k, name, raw, span))
  {
  }

  lemma BlockIsGood(v: View, k: Keyword, raw: Bytes, head: nat, span: Span, body: Body)
    requires IsLocated(v, span) && IsBlock(k) && HasHead(v, k, raw, head, span.start)
    requires IsBody(v, head, {EndOf(k)}, body, span.end)
    ensures Good(v, Block(k, v.names(k, raw), raw, head, body.at, span, body.nodes))
  {
    assert BlockShape(v, k, raw, head, body.at, span, body.nodes);
  }

  class Parser {
    const v: View
    var pos: nat

    constructor (v: View)
      ensures this.v == v && pos == 0
    {
      this.v, pos := v, 0;
    }

    method SpanOf(start: nat, end: nat) returns (span: Span)
      requires start < end <= |v.source| && Boundary(v.source, start)
      ensures span.start == start && span.end == end && IsLocated(v, span)
    {
      var place := SourcePosition(v.source, start);
      span := Span(v.path, start, end, place);
    }

    /** The nodes with the text since `textStart` added. */
    method Flushed(nodes: seq<Node>, ghost from: nat, textStart: nat, end: nat) returns (more: seq<Node>)
      requires textStart <= end <= |v.source| && Boundary(v.source, textStart) && Plain(v, textStart, end)
      requires end == |v.source| || StartsItem(v, end)
      requires AllGood(v, nodes) && Covered(v.source, nodes, from, textStart)
      ensures AllGood(v, more) && Covered(v.source, more, from, end)
    {
      more := nodes;
      if end > textStart {
        var span := SpanOf(textStart, end);
        var node := Text(v.source[textStart..end], span);
        PlainIsNoComment(v, textStart, end);
        NodeAdded(v, nodes, node, from);
        more := nodes + [node];
      }
    }

    /** Arguments in parentheses, which every directive but @csrf must have. */
    method Arguments() returns (result: Option<Bytes>)
      requires pos <= |v.source|
      modifies this
      ensures result.Some? ==> old(pos) < pos <= |v.source| && Boundary(v.source, pos)
      ensures result.Some? ==> ArgumentsAt(v.source, old(pos)) == Some(pos) && result.value == ArgumentsText(v.source, old(pos))
      ensures result.None? ==> ArgumentsAt(v.source, old(pos)).None?
    {
      var index := SkipBlank(v.source, pos);
      if index >= |v.source| || v.source[index] != LEFT {
        return None;
      }
      var end := ScanBalanced(v.source, index);
      if end.None? {
        return None;
      }
      AsciiIsBoundary(v.source, end.value - 1);
      pos := end.value;
      result := Some(v.source[index + 1..end.value - 1]);
    }

    /** A good node from `start` to `end`. */
    predicate IsItem(node: Node, start: nat, end: nat) {
      && node.span.start == start < node.span.end == end <= |v.source| && Boundary(v.source, end)
      && Good(v, node) && CommentAt(v.source, start).None?
    }

    method ParseAction() returns (result: Option<Node>)
      requires HasPrefix(v.source, pos, [OPEN, OPEN]) && !HasPrefix(v.source, pos, [OPEN, OPEN, DASH, DASH])
      modifies this
      ensures result.Some? ==> IsItem(result.value, old(pos), pos)
      ensures result.None? ==> NoItem(v, old(pos)) && CommentAt(v.source, old(pos)).None?
    {
      var start := pos;
      ActionStarts(v, start);
      var end := ScanGoAction(v.source, start);
      if end.None? || !v.allows(v.source[start..end.value]) {
        RefusedAction(v, start);
        return None;
      }
      pos := end.value;
      var span := SpanOf(start, pos);
      ActionIsGood(v, span);
      result := Some(Action(v.source[start..pos], span));
    }

    method ParseEscape() returns (node: Node)
      requires HasPrefix(v.source, pos, [AT, AT])
      modifies this
      ensures IsItem(node, old(pos), pos)
    {
      PrefixBytes(v.source, pos, AT, AT);
      EscapeIsNoComment(v, pos);
      AsciiIsBoundary(v.source, pos);
      AsciiIsBoundary(v.source, pos + 1);
      var span := SpanOf(pos, pos + 2);
      node := Text([AT], span);
      pos := pos + 2;
    }

    method SkipComment(ghost nodes: seq<Node>, ghost from: nat) returns (closed: bool)
      requires HasPrefix(v.source, pos, [OPEN, OPEN, DASH, DASH]) && Covered(v.source, nodes, from, pos)
      modifies this
      ensures closed ==> old(pos) < pos <= |v.source| && Boundary(v.source, pos) && Covered(v.source, nodes, from, pos)
      ensures !closed ==> NoItem(v, old(pos)) && CommentAt(v.source, old(pos)).None?
    {
      var end := CommentEnd(v.source, pos);
      if end.None? {
        UnclosedComment(v, pos);
        return false;
      }
      AsciiIsBoundary(v.source, end.value - 1);
      CommentCovers(v.source, nodes, from, pos);
      pos := end.value;
      closed := true;
    }

    /** Reads the comment, escape or action at the current position. */
    method ParseMark(nodes: seq<Node>, ghost from: nat) returns (result: Option<seq<Node>>)
      requires HasPrefix(v.source, pos, [OPEN, OPEN]) || HasPrefix(v.source, pos, [AT, AT])
      requires AllGood(v, nodes) && Covered(v.source, nodes, from, pos)
      modifies this
      ensures result.Some? ==> old(pos) < pos <= |v.source| && Boundary(v.source, pos)
      ensures result.Some? ==> AllGood(v, result.value) && Covered(v.source, result.value, from, pos)
      ensures result.None? ==> NoItem(v, old(pos)) && CommentAt(v.source, old(pos)).None?
    {
      if HasPrefix(v.source, pos, [OPEN, OPEN, DASH, DASH]) {
        var closed := SkipComment(nodes, from);
        return if closed then Some(nodes) else None;
      }
      var item;
      if HasPrefix(v.source, pos, [AT, AT]) {
        var escape := ParseEscape();
        item := Some(escape);
      } else {
        item := ParseAction();
      }
      if item.None? {
        return None;
      }
      NodeAdded(v, nodes, item.value, from);
      result := Some(nodes + [item.value]);
    }

    /** Reads the comment, escape, action or directive at the current position. */
    method ParseItem(nodes: seq<Node>, ghost from: nat) returns (result: Option<seq<Node>>)
      requires StartsItem(v, pos) && AllGood(v, nodes) && Covered(v.source, nodes, from, pos)
      modifies this
      ensures result.Some? ==> old(pos) < pos <= |v.source| && Boundary(v.source, pos)
      ensures result.Some? ==> AllGood(v, result.value) && Covered(v.source, result.value, from, pos)
      ensures result.None? ==> NoItem(v, old(pos)) && CommentAt(v.source, old(pos)).None?
      decreases |v.source| - pos, 2
    {
      if HasPrefix(v.source, pos, [OPEN, OPEN]) || HasPrefix(v.source, pos, [AT, AT]) {
        result := ParseMark(nodes, from);
        return;
      }
      WordIsBounded(v, pos);
      var item := ParseDirective(WordAt(v, pos).value);
      if item.None? {
        return None;
      }
      NodeAdded(v, nodes, item.value, from);
      result := Some(nodes + [item.value]);
    }

    method EndOfWord() returns (end: nat)
      requires WordAt(v, pos).Some?
      ensures end == WordEnd(v, pos)
    {
      var name;
      name, end := DirectiveName(v.source, pos + 1);
    }

    /** Reads nodes up to one of the stop words, or to the end of the file when there are none. */
    method ParseNodes(stops: set<Keyword>) returns (result: Option<Body>)
      requires pos <= |v.source| && Boundary(v.source, pos) && forall k :: k in stops ==> IsEnding(k)
      modifies this
      ensures result.Some? ==> IsBody(v, old(pos), stops, result.value, pos)
      ensures result.None? ==> NoBody(v, old(pos), stops)
      ensures result.Some? && stops != {} ==> Boundary(v.source, pos)
      decreases |v.source| - pos, 3
    {
      ghost var from := pos;
      var nodes: seq<Node> := [];
      var textStart := pos;
      while pos < |v.source|
        invariant from <= textStart <= pos <= |v.source| && Boundary(v.source, textStart) && Plain(v, textStart, pos)
        invariant AllGood(v, nodes) && Covered(v.source, nodes, from, textStart)
        decreases |v.source| - pos
      {
        if !StartsItem(v, pos) {
          PlainGrows(v, textStart, pos);
          pos := pos + 1;
          continue;
        }
        nodes := Flushed(nodes, from, textStart, pos);
        var word := WordAt(v, pos);
        if word.Some? && word.value in stops {
          var nameEnd := EndOfWord();
          if word.value != ElseIf && TakesArguments(v.source, nameEnd) {
            RefusedStop(v, from, stops, nodes, pos);
            return None;
          }
          WordIsBounded(v, pos);
          StopEndsBody(v, from, stops, nodes, pos, word.value);
          result := Some(Body(nodes, word, pos));
          pos := nameEnd;
          return;
        }
        ghost var at := pos;
        var more := ParseItem(nodes, from);
        if more.None? {
          RefusedItem(v, from, stops, nodes, at);
          return None;
        }
        nodes, textStart := more.value, pos;
      }
      nodes := Flushed(nodes, from, textStart, pos);
      if stops != {} {
        RefusedEnd(v, from, stops, nodes);
        return None;
      }
      result := Some(Body(nodes, None, pos));
    }

    /** Reads the directive at the current position; a stop word in the wrong place is refused. */
    method ParseDirective(k: Keyword) returns (result: Option<Node>)
      requires IsWord(v, pos, k) && IsDirective(v, pos)
      modifies this
      ensures result.Some? ==> IsItem(result.value, old(pos), pos)
      ensures result.None? ==> NoItem(v, old(pos))
      decreases |v.source| - pos, 1
    {
      if IsLeaf(k) {
        result := ParseLeaf(k);
      } else if IsBlock(k) {
        result := ParseBlock(k);
      } else if IsControl(k) {
        result := ParseControl(k);
      } else {
        RefusedWord(v, pos, k);
        result := None;
      }
    }

    method ParseLeaf(k: Keyword) returns (result: Option<Node>)
      requires IsWord(v, pos, k) && IsDirective(v, pos) && IsLeaf(k)
      modifies this
      ensures result.Some? ==> IsItem(result.value, old(pos), pos)
      ensures result.None? ==> NoItem(v, old(pos))
    {
      var start := pos;
      WordIsBounded(v, start);
      pos := WordEnd(v, start);
      var raw: Option<Bytes>, name: string := Some([]), "";
      if k != Csrf || TakesArguments(v.source, pos) {
        raw := Arguments();
        if raw.None? || !v.accepts(k, raw.value) {
          RefusedArguments(v, start, k);
          return None;
        }
        name := v.names(k, raw.value);
      }
      var span := SpanOf(start, pos);
      LeafIsGood(v, k, name, raw.value, span);
      result := Some(Leaf(k, name, raw.value, span));
    }

    method ParseBlock(k: Keyword) returns (result: Option<Node>)
      requires IsWord(v, pos, k) && IsDirective(v, pos) && IsBlock(k)
      modifies this
      ensures result.Some? ==> IsItem(result.value, old(pos), pos)
      ensures result.None? ==> NoItem(v, old(pos))
      decreases |v.source| - pos, 0
    {
      var start := pos;
      WordIsBounded(v, start);
      pos := WordEnd(v, start);
      var raw := Arguments();
      if raw.None? || !v.accepts(k, raw.value) {
        RefusedArguments(v, start, k);
        return None;
      }
      var head := pos;
      var body := ParseNodes({EndOf(k)});
      if body.None? {
        RefusedBlock(v, start, k, head);
        return None;
      }
      var span := SpanOf(start, pos);
      BlockIsGood(v, k, raw.value, head, span, body.value);
      result := Some(Block(k, v.names(k, raw.value), raw.value, head, body.value.at, span, body.value.nodes));
    }

    /** Reads an @if, @for or @with with its bodies. */
    method ParseControl(k: Keyword) returns (result: Option<Node>)
      requires IsWord(v, pos, k) && IsDirective(v, pos) && IsControl(k)
      modifies this
      ensures result.Some? ==> IsItem(result.value, old(pos), pos)
      ensures result.None? ==> NoItem(v, old(pos))
      decreases |v.source| - pos, 0
    {
      var start := pos;
      WordIsBounded(v, start);
      pos := WordEnd(v, start);
      var raw := Arguments();
      if raw.None? || !v.accepts(k, raw.value) {
        RefusedArguments(v, start, k);
        return None;
      }
      var head := pos;
      var first := ParseNodes(Stops(k));
      if first.None? {
        RefusedFirst(v, start, k, head);
        return None;
      }
      var branches, last := ParseBranches(k, start, head, first.value);
      if last.None? {
        return None;
      }
      var alternate, close := ParseAlternate(k, last.value);
      if alternate.None? {
        RefusedAlternate(v, start, k, head, first.value.nodes, branches, last.value.at, last.value.word);
        return None;
      }
      var span := SpanOf(start, pos);
      ControlIsGood(v, k, raw.value, head, close, span, first.value.nodes, branches, alternate.value, last.value);
      result := Some(Control(k, raw.value, head, close, span, first.value.nodes, branches, alternate.value));
    }

    /** Reads the arguments and the body of the @elseif at `at`; `next` is the word that ends the body. */
    method ParseBranch(k: Keyword, at: nat) returns (branch: Option<Branch>, next: Ending)
      requires k == If && IsEnd(Ending(ElseIf, at), Stops(k), pos)
      modifies this
      ensures branch.Some? ==> old(pos) < pos && IsEnd(next, Stops(k), pos) && branch.value.span.start == at
      ensures branch.Some? ==> BranchHead(v, branch.value) && AllGood(v, branch.value.nodes)
      ensures branch.Some? ==> Covered(v.source, branch.value.nodes, branch.value.span.end, next.at)
      ensures branch.None? ==> NoBranch(v, at)
      decreases |v.source| - pos, 4
    {
      next := Ending(ElseIf, at);
      var raw := Arguments();
      if raw.None? || !v.accepts(ElseIf, raw.value) {
        RefusedBranchHead(v, at);
        return None, next;
      }
      var end := pos;
      var body := ParseNodes(Stops(k));
      if body.None? {
        RefusedBranchBody(v, at, end);
        return None, next;
      }
      WordIsBounded(v, at);
      var span := SpanOf(at, end);
      branch, next := Some(Branch(raw.value, span, body.value.nodes)), Ending(body.value.terminal.value, body.value.at);
    }

    /** Reads the @elseif branches; `last` is the word that ends them. */
    method ParseBranches(k: Keyword, ghost start: nat, ghost head: nat, first: Body) returns (branches: seq<Branch>, last: Option<Ending>)
      requires IsControl(k) && IsBody(v, head, Stops(k), first, pos) && first.terminal.Some? && Boundary(v.source, pos)
      requires IsWord(v, start, k) && IsDirective(v, start) && ArgumentsAt(v.source, WordEnd(v, start)) == Some(head)
      modifies this
      ensures last.Some? ==> old(pos) <= pos && IsEnd(last.value, Stops(k) - {ElseIf}, pos)
      ensures last.Some? ==> Branching(v, first.nodes, head, branches, last.value.at) && (branches != [] ==> k == If)
      ensures last.None? ==> NoItem(v, start)
      decreases |v.source| - pos, 5
    {
      branches := [];
      var word, at := first.terminal.value, first.at;
      while word == ElseIf
        invariant old(pos) <= pos && IsEnd(Ending(word, at), Stops(k), pos)
        invariant Branching(v, first.nodes, head, branches, at) && (branches != [] ==> k == If)
        decreases |v.source| - pos
      {
        var branch, next := ParseBranch(k, at);
        if branch.None? {
          RefusedBranch(v, start, head, first.nodes, branches, at);
          return branches, None;
        }
        BranchAdded(v, first.nodes, head, branches, branch.value, next.at);
        branches := branches + [branch.value];
        word, at := next.word, next.at;
      }
      last := Some(Ending(word, at));
    }

    /** Reads the @else or @empty body, if the branches end in one. */
    method ParseAlternate(k: Keyword, last: Ending) returns (alternate: Option<Alternate>, close: nat)
      requires IsControl(k) && IsEnd(last, Stops(k) - {ElseIf}, pos)
      modifies this
      ensures alternate.Some? ==> old(pos) <= pos && Boundary(v.source, pos) && HasEnd(v, k, close, pos)
      ensures alternate.Some? ==> AlternateShape(v, k, alternate.value, close) && BranchesEnd(alternate.value, close) == last.at
      ensures alternate.Some? && alternate.value.Alternate? ==> AllGood(v, alternate.value.nodes)
      ensures alternate.None? ==> last.word != EndOf(k) && NoBody(v, old(pos), {EndOf(k)})
      decreases |v.source| - pos, 4
    {
      if last.word == EndOf(k) {
        return Some(NoAlternate), last.at;
      }
      var body := ParseNodes({EndOf(k)});
      if body.None? {
        return None, 0;
      }
      alternate, close := Some(Alternate(last.word, last.at, body.value.nodes)), body.value.at;
    }

    /** The word that ended a body, right before the current position. */
    predicate IsEnd(end: Ending, stops: set<Keyword>, at: nat) {
      end.at < at <= |v.source| && end.word in stops && IsStop(v, end.at, end.word) && at == WordEnd(v, end.at) && Boundary(v.source, at)
    }
  }

  datatype Ending = Ending(word: Keyword, at: nat)

  lemma BranchAdded(v: View, children: seq<Node>, head: nat, branches: seq<Branch>, b: Branch, at: nat)
    requires Branching(v, children, head, branches, b.span.start) && BranchHead(v, b)
    requires AllGood(v, b.nodes) && Covered(v.source, b.nodes, b.span.end, at)
    ensures Branching(v, children, head, branches + [b], at)
  {
    BranchChains(v.source, branches, b, at);
  }

  lemma ControlIsGood(v: View, k: Keyword, raw: Bytes, head: nat, close: nat, span: Span, children: seq<Node>,
      branches: seq<Branch>, alternate: Alternate, last: Ending)
    requires IsLocated(v, span) && IsControl(k) && HasHead(v, k, raw, head, span.start) && HasEnd(v, k, close, span.end)
    requires Branching(v, children, head, branches, last.at) && (branches != [] ==> k == If)
    requires AlternateShape(v, k, alternate, close) && BranchesEnd(alternate, close) == last.at
    requires alternate.Alternate? ==> AllGood(v, alternate.nodes)
    ensures Good(v, Control(k, raw, head, close, span, children, branches, alternate))
  {
    assert ControlShape(v, k, raw, head, close, span, children, branches, alternate);
  }
}
