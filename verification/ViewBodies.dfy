/** The bodies a parser reads, and why there is nothing to read where it gives up. */
module ViewBodies {
  import opened Basics
  import opened ViewScan
  import opened ViewNodes
  import opened ViewUnique

  /** The nodes of a body and the word that ends it. */
  datatype Body = Body(nodes: seq<Node>, terminal: Option<Keyword>, at: nat)

  /** The nodes of a body from `from` on, up to the stop word before `end`, or up to the end of the file. */
  predicate IsBody(v: View, from: nat, stops: set<Keyword>, body: Body, end: nat) {
    && from <= body.at <= end <= |v.source|
    && AllGood(v, body.nodes) && Covered(v.source, body.nodes, from, body.at)
    && if body.terminal.None? then stops == {} && body.at == end == |v.source|
       else
         && body.terminal.value in stops && IsStop(v, body.at, body.terminal.value)
         && body.at < end == WordEnd(v, body.at)
  }

  /** The words that end the first body of a control directive. */
  function Stops(k: Keyword): (stops: set<Keyword>)
    requires IsControl(k)
    ensures forall s :: s in stops ==> IsEnding(s)
    ensures ElseIf in stops <==> k == If
  {
    {EndOf(k), Else} + (if k == For then {Empty} else {}) + (if k == If then {ElseIf} else {})
  }

  /** The first body and the branches so far, up to the word at `at`. */
  predicate Branching(v: View, children: seq<Node>, head: nat, branches: seq<Branch>, at: nat) {
    && AllGood(v, children) && Covered(v.source, children, head, FirstStart(branches, at))
    && (forall i :: 0 <= i < |branches| ==> BranchHead(v, branches[i]) && AllGood(v, branches[i].nodes))
    && Chained(v.source, branches, at)
  }

  // ---- nothing to read ------------------------------------------------------------------------------------

  /** No good node starts here. */
  ghost predicate NoItem(v: View, start: nat) {
    forall node :: Good(v, node) ==> node.span.start != start
  }

  /** No body starts here that ends in one of these words. */
  ghost predicate NoBody(v: View, from: nat, stops: set<Keyword>) {
    forall body, end :: !IsBody(v, from, stops, body, end)
  }

  /** No @elseif with a body starts here. */
  ghost predicate NoBranch(v: View, at: nat) {
    forall b, next, end :: BranchHead(v, b) && b.span.start == at ==> !BranchBody(v, b, next, end)
  }

  /** The branch's nodes are its body, up to the word at `next`. */
  predicate BranchBody(v: View, b: Branch, next: nat, end: nat) {
    WordAt(v, next).Some? && IsBody(v, b.span.end, Stops(If), Body(b.nodes, WordAt(v, next), next), end)
  }

  // ---- a body goes on from what is read of it ---------------------------------------------------------------------

  lemma Prefixed<T>(a: seq<T>, b: seq<T>)
    requires a != [] && b != [] && a[0] == b[0] && a[1..] <= b[1..]
    ensures a <= b && b[1..][|a[1..]|..] == b[|a|..]
  {
    assert a == [a[0]] + a[1..] && b == [b[0]] + b[1..];
  }

  /** What is read of a list is a beginning of every list from there to a place where lists end. */
  lemma {:induction false} Continues(v: View, a: seq<Node>, at: nat, b: seq<Node>, to: nat, from: nat)
    requires AllGood(v, a) && AllGood(v, b) && at <= |v.source| && to <= |v.source|
    requires Covered(v.source, a, from, at) && Covered(v.source, b, from, to) && Halts(v, to)
    ensures a <= b && AllGood(v, b[|a|..]) && Covered(v.source, b[|a|..], at, to)
    decreases at - from
  {
    if from >= at {
      assert b[0..] == b;
    } else if from >= to {
      HaltedList(v, a, at, from);
    } else if CommentAt(v.source, from).Some? {
      Continues(v, a, at, b, to, CommentAt(v.source, from).value);
    } else {
      FirstAndRest(v, a, at, from);
      FirstAndRest(v, b, to, from);
      SameNode(v, a[0], b[0]);
      Continues(v, a[1..], at, b[1..], to, a[0].span.end);
      Prefixed(a, b);
    }
  }

  lemma BodyContinues(v: View, from: nat, stops: set<Keyword>, nodes: seq<Node>, at: nat, body: Body, end: nat)
    requires forall k :: k in stops ==> IsEnding(k)
    requires AllGood(v, nodes) && Covered(v.source, nodes, from, at) && at <= |v.source| && IsBody(v, from, stops, body, end)
    ensures nodes <= body.nodes && AllGood(v, body.nodes[|nodes|..]) && Covered(v.source, body.nodes[|nodes|..], at, body.at)
    ensures Halts(v, body.at)
  {
    Continues(v, nodes, at, body.nodes, body.at, from);
  }

  /** A stop word with arguments ends no body. */
  lemma RefusedStop(v: View, from: nat, stops: set<Keyword>, nodes: seq<Node>, at: nat)
    requires forall k :: k in stops ==> IsEnding(k)
    requires AllGood(v, nodes) && Covered(v.source, nodes, from, at) && at < |v.source|
    requires WordAt(v, at).Some? && WordAt(v, at).value in stops
    requires WordAt(v, at).value != ElseIf && TakesArguments(v.source, WordEnd(v, at))
    ensures NoBody(v, from, stops)
  {
    forall body, end
      ensures !IsBody(v, from, stops, body, end)
    {
      if IsBody(v, from, stops, body, end) {
        BodyContinues(v, from, stops, nodes, at, body, end);
        HaltedList(v, body.nodes[|nodes|..], body.at, at);
      }
    }
  }

  /** Nor does one go on where neither a comment nor a node starts. */
  lemma RefusedItem(v: View, from: nat, stops: set<Keyword>, nodes: seq<Node>, at: nat)
    requires forall k :: k in stops ==> IsEnding(k)
    requires AllGood(v, nodes) && Covered(v.source, nodes, from, at) && at < |v.source|
    requires WordAt(v, at).Some? ==> WordAt(v, at).value !in stops
    requires NoItem(v, at) && CommentAt(v.source, at).None?
    ensures NoBody(v, from, stops)
  {
    forall body, end
      ensures !IsBody(v, from, stops, body, end)
    {
      if IsBody(v, from, stops, body, end) {
        BodyContinues(v, from, stops, nodes, at, body, end);
        if at < body.at {
          FirstAndRest(v, body.nodes[|nodes|..], body.at, at);
        }
      }
    }
  }

  /** Nor does one that needs a stop word end with the file. */
  lemma RefusedEnd(v: View, from: nat, stops: set<Keyword>, nodes: seq<Node>)
    requires forall k :: k in stops ==> IsEnding(k)
    requires AllGood(v, nodes) && Covered(v.source, nodes, from, |v.source|) && stops != {}
    ensures NoBody(v, from, stops)
  {
    forall body, end
      ensures !IsBody(v, from, stops, body, end)
    {
      if IsBody(v, from, stops, body, end) {
        BodyContinues(v, from, stops, nodes, |v.source|, body, end);
      }
    }
  }

  // ---- nodes that do not start here ---------------------------------------------------------------------------------

  lemma UnclosedComment(v: View, p: nat)
    requires HasPrefix(v.source, p, [OPEN, OPEN, DASH, DASH])
    ensures NoItem(v, p)
  {
    MarkOpens(v.source, p);
    forall node | Good(v, node)
      ensures node.span.start != p
    {
      if node.span.start == p {
        MarkDecides(v, node);
      }
    }
  }

  lemma RefusedAction(v: View, p: nat)
    requires HasPrefix(v.source, p, [OPEN, OPEN])
    requires ActionEnd(v.source, p).None? || !v.allows(v.source[p..ActionEnd(v.source, p).value])
    ensures NoItem(v, p)
  {
    forall node | Good(v, node)
      ensures node.span.start != p
    {
      if node.span.start == p {
        MarkDecides(v, node);
      }
    }
  }

  /** The nodes of a directive are of its kind. */
  lemma DirectiveNode(v: View, p: nat, k: Keyword, node: Node)
    requires IsWord(v, p, k) && IsDirective(v, p) && Shape(v, node) && node.span.start == p
    ensures !node.Text? && !node.Action? && node.kind == k
    ensures node.Leaf? <==> IsLeaf(k)
    ensures node.Block? <==> IsBlock(k)
    ensures node.Control? <==> IsControl(k)
  {
    WordIsNoMark(v, p);
    MarkDecides(v, node);
    KindOfWord(v, node);
  }

  /** The word takes arguments that it can do without only if it is @csrf. */
  lemma RefusedArguments(v: View, p: nat, k: Keyword)
    requires IsWord(v, p, k) && IsDirective(v, p)
    requires k == Csrf ==> TakesArguments(v.source, WordEnd(v, p))
    requires ArgumentsAt(v.source, WordEnd(v, p)).None? || !v.accepts(k, ArgumentsText(v.source, WordEnd(v, p)))
    ensures NoItem(v, p)
  {
    forall node | Good(v, node)
      ensures node.span.start != p
    {
      if node.span.start == p {
        DirectiveNode(v, p, k, node);
      }
    }
  }

  lemma RefusedWord(v: View, p: nat, k: Keyword)
    requires IsWord(v, p, k) && IsDirective(v, p) && IsEnding(k)
    ensures NoItem(v, p)
  {
    forall node | Good(v, node)
      ensures node.span.start != p
    {
      if node.span.start == p {
        DirectiveNode(v, p, k, node);
      }
    }
  }

  lemma BlockBody(v: View, x: Node)
    requires Good(v, x) && x.Block?
    ensures IsBody(v, x.head, {EndOf(x.kind)}, Body(x.children, Some(EndOf(x.kind)), x.close), x.span.end)
  {
    CoveredForward(v.source, x.children, x.head, x.close);
  }

  lemma RefusedBlock(v: View, p: nat, k: Keyword, head: nat)
    requires IsWord(v, p, k) && IsDirective(v, p) && IsBlock(k) && ArgumentsAt(v.source, WordEnd(v, p)) == Some(head)
    requires NoBody(v, head, {EndOf(k)})
    ensures NoItem(v, p)
  {
    forall node | Good(v, node)
      ensures node.span.start != p
    {
      if node.span.start == p {
        DirectiveNode(v, p, k, node);
        BlockBody(v, node);
      }
    }
  }

  // ---- control directives that do not start here -------------------------------------------------------------------

  /** The word that ends the branches. */
  lemma LastWord(v: View, x: Node)
    requires Good(v, x) && x.Control?
    ensures WordAt(v, BodiesEnd(x)).Some? && BodiesEnd(x) < |v.source|
    ensures var last := WordAt(v, BodiesEnd(x)).value;
      last in Stops(x.kind) && last != ElseIf && IsStop(v, BodiesEnd(x), last) && (last == EndOf(x.kind) <==> x.alternate.NoAlternate?)
  {
  }

  lemma FirstWord(v: View, x: Node)
    requires Good(v, x) && x.Control?
    ensures var at := FirstStart(x.branches, BodiesEnd(x));
      at < |v.source| && WordAt(v, at).Some? && WordAt(v, at).value in Stops(x.kind) && IsStop(v, at, WordAt(v, at).value)
  {
    LastWord(v, x);
    if x.branches != [] {
      assert BranchHead(v, x.branches[0]);
    }
  }

  lemma FirstBody(v: View, x: Node)
    requires Good(v, x) && x.Control?
    ensures var at := FirstStart(x.branches, BodiesEnd(x));
      at < |v.source| && IsBody(v, x.head, Stops(x.kind), Body(x.children, WordAt(v, at), at), WordEnd(v, at))
  {
    FirstWord(v, x);
    CoveredForward(v.source, x.children, x.head, FirstStart(x.branches, BodiesEnd(x)));
  }

  lemma RefusedFirst(v: View, p: nat, k: Keyword, head: nat)
    requires IsWord(v, p, k) && IsDirective(v, p) && IsControl(k) && ArgumentsAt(v.source, WordEnd(v, p)) == Some(head)
    requires NoBody(v, head, Stops(k))
    ensures NoItem(v, p)
  {
    forall node | Good(v, node)
      ensures node.span.start != p
    {
      if node.span.start == p {
        DirectiveNode(v, p, k, node);
        FirstBody(v, node);
      }
    }
  }

  /** The branches that are still to come, and where they start. */
  predicate Ahead(v: View, branches: seq<Branch>, to: nat, at: nat) {
    GoodBranches(v, branches) && Chained(v.source, branches, to) && FirstStart(branches, to) == at && EndsBranches(v, to)
  }

  /** Branches that are read are the first ones of every good chain. */
  lemma {:induction false} ChainContinues(v: View, a: seq<Branch>, at: nat, b: seq<Branch>, to: nat)
    requires GoodBranches(v, a) && Chained(v.source, a, at) && Ahead(v, b, to, FirstStart(a, at))
    requires Halts(v, at) && at < |v.source|
    ensures a <= b && Ahead(v, b[|a|..], to, at)
    decreases |a|
  {
    if a == [] {
      assert b[0..] == b;
    } else {
      ChainStep(v, a, at, b, to);
      ChainContinues(v, a[1..], at, b[1..], to);
      Prefixed(a, b);
    }
  }

  lemma ChainStep(v: View, a: seq<Branch>, at: nat, b: seq<Branch>, to: nat)
    requires GoodBranches(v, a) && Chained(v.source, a, at) && Ahead(v, b, to, FirstStart(a, at)) && a != []
    requires Halts(v, at) && at < |v.source|
    ensures GoodBranches(v, a[1..]) && Chained(v.source, a[1..], at)
    ensures b != [] && a[0] == b[0] && Ahead(v, b[1..], to, FirstStart(a[1..], at))
  {
    assert BranchHead(v, a[0]);
    FirstHalts(v, b, to);
    SameBranchHead(v, a[0], b[0]);
    RestIsChain(v, a, at);
    RestIsChain(v, b, to);
    HeadHalts(v, a[1..], at);
    FirstHalts(v, b[1..], to);
    SameList(v, a[0].nodes, FirstStart(a[1..], at), b[0].nodes, FirstStart(b[1..], to), a[0].span.end);
  }

  lemma HeadHalts(v: View, a: seq<Branch>, at: nat)
    requires GoodBranches(v, a) && Halts(v, at) && at < |v.source|
    ensures Halts(v, FirstStart(a, at)) && FirstStart(a, at) < |v.source|
  {
    if a != [] {
      assert BranchHead(v, a[0]);
    }
  }

  lemma BranchesContinue(v: View, x: Node, children: seq<Node>, branches: seq<Branch>, at: nat)
    requires x.Control? && Bodies(v, x.span.start, x) && Branching(v, children, x.head, branches, at)
    requires Halts(v, at) && at < |v.source|
    ensures branches <= x.branches && Ahead(v, x.branches[|branches|..], BodiesEnd(x), at)
  {
    FirstHalts(v, x.branches, BodiesEnd(x));
    HeadHalts(v, branches, at);
    SameList(v, children, FirstStart(branches, at), x.children, FirstStart(x.branches, BodiesEnd(x)), x.head);
    ChainContinues(v, branches, at, x.branches, BodiesEnd(x));
  }

  lemma NextBranch(v: View, branches: seq<Branch>, to: nat, at: nat)
    requires Ahead(v, branches, to, at) && IsStop(v, at, ElseIf)
    requires WordAt(v, to).value in Stops(If) && IsStop(v, to, WordAt(v, to).value)
    ensures branches != [] && BranchHead(v, branches[0]) && branches[0].span.start == at
    ensures var next := FirstStart(branches[1..], to);
      next < |v.source| && BranchBody(v, branches[0], next, WordEnd(v, next))
  {
    FirstHalts(v, branches, to);
    RestIsChain(v, branches, to);
    if |branches| > 1 {
      assert BranchHead(v, branches[1]);
    }
  }

  lemma RefusedBranch(v: View, p: nat, head: nat, children: seq<Node>, branches: seq<Branch>, at: nat)
    requires IsWord(v, p, If) && IsDirective(v, p) && ArgumentsAt(v.source, WordEnd(v, p)) == Some(head)
    requires Branching(v, children, head, branches, at) && IsStop(v, at, ElseIf) && NoBranch(v, at)
    ensures NoItem(v, p)
  {
    forall node | Good(v, node)
      ensures node.span.start != p
    {
      if node.span.start == p {
        DirectiveNode(v, p, If, node);
        ControlBodies(v, node);
        BranchesContinue(v, node, children, branches, at);
        LastWord(v, node);
        NextBranch(v, node.branches[|branches|..], BodiesEnd(node), at);
      }
    }
  }

  lemma AlternateBody(v: View, x: Node)
    requires Good(v, x) && x.Control? && x.alternate.Alternate?
    ensures BodiesEnd(x) < |v.source|
    ensures IsBody(v, WordEnd(v, BodiesEnd(x)), {EndOf(x.kind)}, Body(x.alternate.nodes, Some(EndOf(x.kind)), x.close), x.span.end)
  {
    LastWord(v, x);
    CoveredForward(v.source, x.alternate.nodes, WordEnd(v, BodiesEnd(x)), x.close);
  }

  lemma RefusedAlternate(v: View, p: nat, k: Keyword, head: nat, children: seq<Node>, branches: seq<Branch>, at: nat, last: Keyword)
    requires IsWord(v, p, k) && IsDirective(v, p) && IsControl(k) && ArgumentsAt(v.source, WordEnd(v, p)) == Some(head)
    requires Branching(v, children, head, branches, at) && IsStop(v, at, last) && last != ElseIf && last != EndOf(k)
    requires NoBody(v, WordEnd(v, at), {EndOf(k)})
    ensures NoItem(v, p)
  {
    forall node | Good(v, node)
      ensures node.span.start != p
    {
      if node.span.start == p {
        DirectiveNode(v, p, k, node);
        ControlBodies(v, node);
        BranchesContinue(v, node, children, branches, at);
        FirstHalts(v, node.branches[|branches|..], BodiesEnd(node));
        LastWord(v, node);
        AlternateBody(v, node);
      }
    }
  }

  lemma RefusedBranchHead(v: View, at: nat)
    requires IsStop(v, at, ElseIf)
    requires ArgumentsAt(v.source, WordEnd(v, at)).None? || !v.accepts(ElseIf, ArgumentsText(v.source, WordEnd(v, at)))
    ensures NoBranch(v, at)
  {
  }

  lemma RefusedBranchBody(v: View, at: nat, end: nat)
    requires IsStop(v, at, ElseIf) && ArgumentsAt(v.source, WordEnd(v, at)) == Some(end) && NoBody(v, end, Stops(If))
    ensures NoBranch(v, at)
  {
  }
}
