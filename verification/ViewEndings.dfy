/** When compiling ends: components, slots and stacks that stand for each other without end. */
module ViewEndings {
  import opened Basics
  import opened ViewNodes
  import opened ViewCompile
  import opened ViewDepths

  // ---- how it ends does not depend on the numbers ------------------------------------------------------------

  /** Both end in the same way. */
  predicate Alike(a: Outcome, b: Outcome) {
    a.Done? == b.Done? && a.Refused? == b.Refused?
  }

  lemma {:induction false} BareActive(scope: Scope)
    ensures Active(Bare(scope)) == Active(scope) && Bare(Bare(scope)) == Bare(scope)
  {
    match scope
    case Page =>
    case Within(_, caller, _) => BareActive(caller);
    case Content(of) => BareActive(of);
  }

  /** What a directive stands for is the same in scopes that differ only in numbers. */
  lemma LookupIsStatic(g: Generator, a: Scope, m: nat, b: Scope, n: nat, node: Node)
    requires Bare(a) == Bare(b) && Expands(node)
    ensures Lookup(g, a, m, node).Some? <==> Lookup(g, b, n, node).Some?
    ensures Lookup(g, a, m, node).Some? ==>
      && Lookup(g, a, m, node).value.nodes == Lookup(g, b, n, node).value.nodes
      && Bare(Lookup(g, a, m, node).value.scope) == Bare(Lookup(g, b, n, node).value.scope)
  {
    BareActive(a);
    BareActive(b);
  }

  lemma {:induction false} EndsAlike(g: Generator, a: Scope, b: Scope, nodes: seq<Node>, depth: nat, m: Output, n: Output)
    requires Bare(a) == Bare(b)
    ensures Alike(Compiled(g, a, nodes, depth, m), Compiled(g, b, nodes, depth, n))
    decreases depth, nodes, 2
  {
    if nodes != [] {
      NodeEndsAlike(g, a, b, nodes[0], depth, m, n);
      var x, y := CompiledNode(g, a, nodes[0], depth, m), CompiledNode(g, b, nodes[0], depth, n);
      if x.Done? {
        EndsAlike(g, a, b, nodes[1..], depth, x.out, y.out);
      }
    }
  }

  lemma {:induction false} NodeEndsAlike(g: Generator, a: Scope, b: Scope, node: Node, depth: nat, m: Output, n: Output)
    requires Bare(a) == Bare(b)
    ensures Alike(CompiledNode(g, a, node, depth, m), CompiledNode(g, b, node, depth, n))
    decreases depth, node, 1
  {
    if node.Text? || node.Action? || Misplaced(node) {
    } else if Expands(node) {
      ElsewhereEndsAlike(g, a, b, node, depth, m, n);
    } else if node.Control? {
      ControlEndsAlike(g, a, b, node, depth, m, n);
    } else if node.Block? && node.kind != Push {
      ErrorsEndAlike(g, a, b, node, depth, m, n);
    }
  }

  lemma {:induction false} ElsewhereEndsAlike(g: Generator, a: Scope, b: Scope, node: Node, depth: nat, m: Output, n: Output)
    requires Bare(a) == Bare(b) && Expands(node)
    ensures Alike(CompiledElsewhere(g, a, node, depth, m), CompiledElsewhere(g, b, node, depth, n))
    decreases depth, node, 0
  {
    LookupIsStatic(g, a, m.counter, b, n.counter, node);
    var x, y := Lookup(g, a, m.counter, node), Lookup(g, b, n.counter, node);
    if x.Some? && depth > 0 {
      EndsAlike(g, x.value.scope, y.value.scope, x.value.nodes, depth - 1, PutEmission(m, x.value.before), PutEmission(n, y.value.before));
    }
  }

  lemma {:induction false} ErrorsEndAlike(g: Generator, a: Scope, b: Scope, node: Node, depth: nat, m: Output, n: Output)
    requires Bare(a) == Bare(b) && node.Block?
    ensures Alike(CompiledErrors(g, a, node, depth, m), CompiledErrors(g, b, node, depth, n))
    decreases depth, node, 0
  {
    var x, y := CompiledEmission(g, a, node, m), CompiledEmission(g, b, node, n);
    if x.Done? {
      EndsAlike(g, a, b, node.children, depth, x.out, y.out);
    }
  }

  lemma {:induction false} ControlEndsAlike(g: Generator, a: Scope, b: Scope, node: Node, depth: nat, m: Output, n: Output)
    requires Bare(a) == Bare(b) && node.Control?
    ensures Alike(CompiledControl(g, a, node, depth, m), CompiledControl(g, b, node, depth, n))
    decreases depth, node, 0, 1
  {
    var p, q := Put(m, Opening(g, a, node)), Put(n, Opening(g, b, node));
    EndsAlike(g, a, b, node.children, depth, p, q);
    var x, y := Compiled(g, a, node.children, depth, p), Compiled(g, b, node.children, depth, q);
    if x.Done? {
      RestEndsAlike(g, a, b, node, depth, x.out, y.out);
    }
  }

  lemma {:induction false} RestEndsAlike(g: Generator, a: Scope, b: Scope, node: Node, depth: nat, m: Output, n: Output)
    requires Bare(a) == Bare(b) && node.Control?
    ensures Alike(CompiledRest(g, a, node, depth, m), CompiledRest(g, b, node, depth, n))
    decreases depth, node, 0, 0
  {
    BranchesEndAlike(g, a, b, node.branches, depth, m, n);
    var x, y := CompiledBranches(g, a, node.branches, depth, m), CompiledBranches(g, b, node.branches, depth, n);
    if x.Done? && node.alternate.Alternate? && node.alternate.nodes != [] {
      var p := Code(g.otherwise, node.span, Otherwise);
      EndsAlike(g, a, b, node.alternate.nodes, depth, Put(x.out, p), Put(y.out, p));
    }
  }

  lemma {:induction false} BranchesEndAlike(g: Generator, a: Scope, b: Scope, branches: seq<Branch>, depth: nat, m: Output, n: Output)
    requires Bare(a) == Bare(b)
    ensures Alike(CompiledBranches(g, a, branches, depth, m), CompiledBranches(g, b, branches, depth, n))
    decreases depth, branches, 0
  {
    if branches != [] {
      var p, q := Put(m, Branching(g, a, branches[0])), Put(n, Branching(g, b, branches[0]));
      EndsAlike(g, a, b, branches[0].nodes, depth, p, q);
      var x, y := Compiled(g, a, branches[0].nodes, depth, p), Compiled(g, b, branches[0].nodes, depth, q);
      if x.Done? {
        BranchesEndAlike(g, a, b, branches[1..], depth, x.out, y.out);
      }
    }
  }

  // ---- directives that lead to each other --------------------------------------------------------------------

  const NOTHING := Output([], 0)

  /** Compiling the nodes succeeds with this bound. */
  predicate Ends(g: Generator, scope: Scope, nodes: seq<Node>, depth: nat) {
    Compiled(g, scope, nodes, depth, NOTHING).Done?
  }

  /** What a directive stands for, with the scope unnumbered. */
  function Jump(g: Generator, scope: Scope, node: Node): Option<(seq<Node>, Scope)>
    requires Expands(node)
  {
    var e := Lookup(g, scope, 0, node);
    if e.None? then None else Some((e.value.nodes, Bare(e.value.scope)))
  }

  /** The node is no error here; what it stands for is another matter. */
  predicate Accepted(g: Generator, scope: Scope, x: Node) {
    if x.Text? || x.Action? then true
    else if Misplaced(x) then false
    else if Expands(x) then Jump(g, scope, x).Some?
    else if x.Control? || (x.Block? && x.kind == Push) then true
    else !g.refuses(Bare(scope), x)
  }

  /** Directives of which the first stands in the nodes, and each next one in what the one before stands for. */
  predicate Path(g: Generator, scope: Scope, nodes: seq<Node>, p: seq<Node>)
    decreases |p|
  {
    p == [] ||
    (&& Inside(nodes, p[0]) && Expands(p[0]) && Jump(g, scope, p[0]).Some?
     && var j := Jump(g, scope, p[0]).value;
     Path(g, j.1, j.0, p[1..]))
  }

  /** Where a path leads. */
  function Target(g: Generator, scope: Scope, nodes: seq<Node>, p: seq<Node>): (seq<Node>, Scope)
    requires Path(g, scope, nodes, p)
    decreases |p|
  {
    if p == [] then (nodes, scope)
    else
      var j := Jump(g, scope, p[0]).value;
      Target(g, j.1, j.0, p[1..])
  }

  /** Nothing that is reached is an error. */
  ghost predicate Faultless(g: Generator, scope: Scope, nodes: seq<Node>) {
    forall p, x :: Path(g, scope, nodes, p) && Inside(Target(g, scope, nodes, p).0, x) ==>
      Accepted(g, Target(g, scope, nodes, p).1, x)
  }

  ghost predicate Bounded(g: Generator, scope: Scope, nodes: seq<Node>, depth: nat) {
    forall p :: Path(g, scope, nodes, p) ==> |p| <= depth
  }

  // ---- success bounds the paths ----------------------------------------------------------------------------------

  /** What the directive stands for succeeds one level down. */
  predicate EndsBelow(g: Generator, scope: Scope, x: Node, depth: nat)
    requires Expands(x)
  {
    depth > 0 && Jump(g, scope, x).Some? && Ends(g, Jump(g, scope, x).value.1, Jump(g, scope, x).value.0, depth - 1)
  }

  /** When compiling succeeds, each directive in the nodes is accepted and what it stands for succeeds one level down. */
  lemma InsideEnds(g: Generator, scope: Scope, nodes: seq<Node>, depth: nat, x: Node)
    requires Ends(g, scope, nodes, depth) && Inside(nodes, x) && Bare(scope) == scope
    ensures Accepted(g, scope, x)
    ensures Expands(x) ==> EndsBelow(g, scope, x, depth)
  {
    EveryDepth(g, scope, nodes, depth, NOTHING, x);
    var before :| CompiledAfter(g, scope, x, depth, NOTHING, before, Compiled(g, scope, nodes, depth, NOTHING).out);
    if Expands(x) {
      assert CompiledElsewhere(g, scope, x, depth, before).Done?;
      LookupIsStatic(g, scope, before.counter, scope, 0, x);
      var e, j := Lookup(g, scope, before.counter, x).value, Jump(g, scope, x).value;
      BareActive(e.scope);
      EndsAlike(g, e.scope, j.1, e.nodes, depth - 1, PutEmission(before, e.before), NOTHING);
    } else if x.Block? && x.kind != Push {
      assert CompiledErrors(g, scope, x, depth, before).Done?;
    }
  }

  lemma {:induction false} EndsAlong(g: Generator, scope: Scope, nodes: seq<Node>, depth: nat, p: seq<Node>)
    requires Ends(g, scope, nodes, depth) && Path(g, scope, nodes, p) && Bare(scope) == scope
    ensures |p| <= depth && Bare(Target(g, scope, nodes, p).1) == Target(g, scope, nodes, p).1
    ensures Ends(g, Target(g, scope, nodes, p).1, Target(g, scope, nodes, p).0, depth - |p|)
    decreases |p|
  {
    if p != [] {
      InsideEnds(g, scope, nodes, depth, p[0]);
      var j := Jump(g, scope, p[0]).value;
      BareActive(Lookup(g, scope, 0, p[0]).value.scope);
      EndsAlong(g, j.1, j.0, depth - 1, p[1..]);
    }
  }

  lemma EndsMeans(g: Generator, scope: Scope, nodes: seq<Node>, depth: nat)
    requires Ends(g, scope, nodes, depth) && Bare(scope) == scope
    ensures Faultless(g, scope, nodes) && Bounded(g, scope, nodes, depth)
  {
    forall p | Path(g, scope, nodes, p)
      ensures |p| <= depth
      ensures forall x :: Inside(Target(g, scope, nodes, p).0, x) ==> Accepted(g, Target(g, scope, nodes, p).1, x)
    {
      EndsAlong(g, scope, nodes, depth, p);
      var t := Target(g, scope, nodes, p);
      forall x | Inside(t.0, x)
        ensures Accepted(g, t.1, x)
      {
        InsideEnds(g, t.1, t.0, depth - |p|, x);
      }
    }
  }

  // ---- and bounded paths mean success -----------------------------------------------------------------------------

  /** The node is accepted and, when it stands for others, they succeed. */
  predicate Passes(g: Generator, scope: Scope, x: Node, depth: nat) {
    Accepted(g, scope, x) && (Expands(x) ==> EndsBelow(g, scope, x, depth))
  }

  ghost predicate AllPass(g: Generator, scope: Scope, nodes: seq<Node>, depth: nat) {
    forall x :: Inside(nodes, x) ==> Passes(g, scope, x, depth)
  }

  lemma {:induction false} PassEnds(g: Generator, scope: Scope, nodes: seq<Node>, depth: nat, out: Output)
    requires AllPass(g, scope, nodes, depth) && Bare(scope) == scope
    ensures Compiled(g, scope, nodes, depth, out).Done?
    decreases nodes, 2
  {
    if nodes != [] {
      assert Inside(nodes, nodes[0]);
      assert forall x :: InsideNode(nodes[0], x) ==> Inside(nodes, x);
      PassNodeEnds(g, scope, nodes[0], depth, out);
      assert AllPass(g, scope, nodes[1..], depth) by {
        assert forall x :: Inside(nodes[1..], x) ==> Inside(nodes, x);
      }
      PassEnds(g, scope, nodes[1..], depth, CompiledNode(g, scope, nodes[0], depth, out).out);
    }
  }

  ghost predicate NodePasses(g: Generator, scope: Scope, node: Node, depth: nat) {
    Passes(g, scope, node, depth) && forall x :: InsideNode(node, x) ==> Passes(g, scope, x, depth)
  }

  lemma {:induction false} PassNodeEnds(g: Generator, scope: Scope, node: Node, depth: nat, out: Output)
    requires NodePasses(g, scope, node, depth) && Bare(scope) == scope
    ensures CompiledNode(g, scope, node, depth, out).Done?
    decreases node, 1
  {
    if node.Text? || node.Action? {
    } else if Expands(node) {
      PassElsewhereEnds(g, scope, node, depth, out);
    } else if node.Control? {
      PassControlEnds(g, scope, node, depth, out);
    } else if node.Block? && node.kind != Push {
      assert forall x :: Inside(node.children, x) ==> InsideNode(node, x);
      PassEnds(g, scope, node.children, depth, CompiledEmission(g, scope, node, out).out);
    }
  }

  lemma PassElsewhereEnds(g: Generator, scope: Scope, node: Node, depth: nat, out: Output)
    requires Expands(node) && Passes(g, scope, node, depth)
    ensures CompiledElsewhere(g, scope, node, depth, out).Done?
  {
    LookupIsStatic(g, scope, out.counter, scope, 0, node);
    var e, j := Lookup(g, scope, out.counter, node).value, Jump(g, scope, node).value;
    BareActive(e.scope);
    EndsAlike(g, e.scope, j.1, e.nodes, depth - 1, PutEmission(out, e.before), NOTHING);
  }

  lemma {:induction false} PassControlEnds(g: Generator, scope: Scope, node: Node, depth: nat, out: Output)
    requires node.Control? && NodePasses(g, scope, node, depth) && Bare(scope) == scope
    ensures CompiledControl(g, scope, node, depth, out).Done?
    decreases node, 0
  {
    assert forall x :: Inside(node.children, x) ==> InsideNode(node, x);
    var start := Put(out, Opening(g, scope, node));
    PassEnds(g, scope, node.children, depth, start);
    assert forall x :: InsideBranches(node.branches, x) ==> InsideNode(node, x);
    var first := Compiled(g, scope, node.children, depth, start).out;
    PassBranchesEnd(g, scope, node.branches, depth, first);
    var middle := CompiledBranches(g, scope, node.branches, depth, first).out;
    if node.alternate.Alternate? && node.alternate.nodes != [] {
      assert forall x :: Inside(node.alternate.nodes, x) ==> InsideNode(node, x);
      PassEnds(g, scope, node.alternate.nodes, depth, Put(middle, Code(g.otherwise, node.span, Otherwise)));
    }
    assert CompiledAlternate(g, scope, node.span, node.alternate, depth, middle).Done?;
    assert CompiledRest(g, scope, node, depth, first).Done?;
  }

  lemma {:induction false} PassBranchesEnd(g: Generator, scope: Scope, branches: seq<Branch>, depth: nat, out: Output)
    requires (forall x :: InsideBranches(branches, x) ==> Passes(g, scope, x, depth)) && Bare(scope) == scope
    ensures CompiledBranches(g, scope, branches, depth, out).Done?
    decreases branches, 0
  {
    if branches != [] {
      assert forall x :: Inside(branches[0].nodes, x) ==> InsideBranches(branches, x);
      var start := Put(out, Branching(g, scope, branches[0]));
      PassEnds(g, scope, branches[0].nodes, depth, start);
      assert forall x :: InsideBranches(branches[1..], x) ==> InsideBranches(branches, x);
      PassBranchesEnd(g, scope, branches[1..], depth, Compiled(g, scope, branches[0].nodes, depth, start).out);
    }
  }

  /** A path from what a directive stands for goes on from the directive. */
  lemma PathExtends(g: Generator, scope: Scope, nodes: seq<Node>, x: Node, p: seq<Node>)
    requires Inside(nodes, x) && Expands(x) && Jump(g, scope, x).Some?
    requires Path(g, Jump(g, scope, x).value.1, Jump(g, scope, x).value.0, p)
    ensures Path(g, scope, nodes, [x] + p)
    ensures Target(g, scope, nodes, [x] + p) == Target(g, Jump(g, scope, x).value.1, Jump(g, scope, x).value.0, p)
  {
    assert ([x] + p)[1..] == p;
  }

  lemma {:induction false} BoundedEnds(g: Generator, scope: Scope, nodes: seq<Node>, depth: nat)
    requires Faultless(g, scope, nodes) && Bounded(g, scope, nodes, depth) && Bare(scope) == scope
    ensures Ends(g, scope, nodes, depth)
    decreases depth
  {
    forall x | Inside(nodes, x)
      ensures Passes(g, scope, x, depth)
    {
      assert Path(g, scope, nodes, []) && Target(g, scope, nodes, []) == (nodes, scope);
      assert Accepted(g, scope, x);
      if Expands(x) {
        BoundedBelow(g, scope, nodes, depth, x);
        var j := Jump(g, scope, x).value;
        BareActive(Lookup(g, scope, 0, x).value.scope);
        BoundedEnds(g, j.1, j.0, depth - 1);
      }
    }
    PassEnds(g, scope, nodes, depth, NOTHING);
  }

  lemma BoundedBelow(g: Generator, scope: Scope, nodes: seq<Node>, depth: nat, x: Node)
    requires Faultless(g, scope, nodes) && Bounded(g, scope, nodes, depth)
    requires Inside(nodes, x) && Expands(x) && Jump(g, scope, x).Some?
    ensures depth > 0 && Faultless(g, Jump(g, scope, x).value.1, Jump(g, scope, x).value.0)
    ensures Bounded(g, Jump(g, scope, x).value.1, Jump(g, scope, x).value.0, depth - 1)
  {
    var j := Jump(g, scope, x).value;
    PathExtends(g, scope, nodes, x, []);
    assert |[x] + []| <= depth;
    forall p | Path(g, j.1, j.0, p)
      ensures |p| <= depth - 1
      ensures forall y :: Inside(Target(g, j.1, j.0, p).0, y) ==> Accepted(g, Target(g, j.1, j.0, p).1, y)
    {
      PathExtends(g, scope, nodes, x, p);
      assert |[x] + p| <= depth;
    }
  }

  /** With a large enough bound, compiling succeeds. */
  ghost predicate Succeeds(g: Generator, scope: Scope, nodes: seq<Node>, out: Output) {
    exists depth: nat :: SucceedsAt(g, scope, nodes, out, depth)
  }

  predicate SucceedsAt(g: Generator, scope: Scope, nodes: seq<Node>, out: Output, depth: nat) {
    Compiled(g, scope, nodes, depth, out).Done?
  }

  ghost predicate SomewhereBounded(g: Generator, scope: Scope, nodes: seq<Node>) {
    exists depth: nat :: Bounded(g, scope, nodes, depth)
  }

  lemma SuccessIsStatic(g: Generator, scope: Scope, nodes: seq<Node>, out: Output, depth: nat)
    ensures SucceedsAt(g, scope, nodes, out, depth) <==> Ends(g, Bare(scope), nodes, depth)
  {
    BareActive(scope);
    EndsAlike(g, scope, Bare(scope), nodes, depth, out, NOTHING);
  }

  /** Compiling succeeds with some bound exactly when nothing it reaches is an error and the paths do not grow forever. */
  lemma SucceedsIffBounded(g: Generator, scope: Scope, nodes: seq<Node>, out: Output)
    ensures Succeeds(g, scope, nodes, out) <==> Faultless(g, Bare(scope), nodes) && SomewhereBounded(g, Bare(scope), nodes)
  {
    BareActive(scope);
    if depth: nat :| SucceedsAt(g, scope, nodes, out, depth) {
      SuccessIsStatic(g, scope, nodes, out, depth);
      EndsMeans(g, Bare(scope), nodes, depth);
    }
    if Faultless(g, Bare(scope), nodes) && SomewhereBounded(g, Bare(scope), nodes) {
      var depth: nat :| Bounded(g, Bare(scope), nodes, depth);
      BoundedEnds(g, Bare(scope), nodes, depth);
      SuccessIsStatic(g, scope, nodes, out, depth);
    }
  }
}
