/** A page compiles exactly when nothing it reaches is an error and no directive it reaches leads back to itself. */
module ViewCycles {
  import opened Runes
  import opened SourceMap
  import opened ViewNodes
  import opened ViewCompile
  import opened ViewDepths
  import opened ViewEndings

  // ---- paths in parts -----------------------------------------------------------------------------------------

  lemma {:induction false} PathParts(g: Generator, scope: Scope, nodes: seq<Node>, p: seq<Node>, i: nat)
    requires Path(g, scope, nodes, p) && i <= |p|
    ensures Path(g, scope, nodes, p[..i])
    ensures var t := Target(g, scope, nodes, p[..i]); Path(g, t.1, t.0, p[i..]) && Target(g, t.1, t.0, p[i..]) == Target(g, scope, nodes, p)
    decreases i
  {
    if i == 0 {
      assert p[..0] == [] && p[0..] == p;
    } else {
      var j := Jump(g, scope, p[0]).value;
      PathParts(g, j.1, j.0, p[1..], i - 1);
      assert p[..i][0] == p[0] && p[..i][1..] == p[1..][..i - 1] && p[1..][i - 1..] == p[i..];
    }
  }

  lemma {:induction false} PathJoins(g: Generator, scope: Scope, nodes: seq<Node>, p: seq<Node>, q: seq<Node>)
    requires Path(g, scope, nodes, p)
    requires var t := Target(g, scope, nodes, p); Path(g, t.1, t.0, q)
    ensures Path(g, scope, nodes, p + q)
    ensures var t := Target(g, scope, nodes, p); Target(g, scope, nodes, p + q) == Target(g, t.1, t.0, q)
    decreases |p|
  {
    if p == [] {
      assert p + q == q;
    } else {
      var j := Jump(g, scope, p[0]).value;
      PathJoins(g, j.1, j.0, p[1..], q);
      assert (p + q)[0] == p[0] && (p + q)[1..] == p[1..] + q;
    }
  }

  /** The scope in which the i-th directive of a path stands. */
  function ScopeAt(g: Generator, scope: Scope, nodes: seq<Node>, p: seq<Node>, i: nat): Scope
    requires Path(g, scope, nodes, p) && i < |p|
  {
    PathParts(g, scope, nodes, p, i);
    Target(g, scope, nodes, p[..i]).1
  }

  /** The path meets one directive twice in one scope. */
  predicate MeetsAgain(g: Generator, scope: Scope, nodes: seq<Node>, p: seq<Node>, i: nat, j: nat) {
    && Path(g, scope, nodes, p) && i < j < |p|
    && p[i] == p[j] && ScopeAt(g, scope, nodes, p, i) == ScopeAt(g, scope, nodes, p, j)
  }

  /** A directive that is reached leads back to itself. */
  ghost predicate LeadsBack(g: Generator, scope: Scope, nodes: seq<Node>) {
    exists p, i: nat, j: nat :: MeetsAgain(g, scope, nodes, p, i, j)
  }

  // ---- what leads back leads on forever ---------------------------------------------------------------------------

  /** Up to and with the i-th directive, what lies ahead depends only on it and its scope. */
  lemma TargetAt(g: Generator, scope: Scope, nodes: seq<Node>, p: seq<Node>, i: nat)
    requires Path(g, scope, nodes, p) && i < |p|
    ensures Path(g, scope, nodes, p[..i + 1]) && Expands(p[i]) && Jump(g, ScopeAt(g, scope, nodes, p, i), p[i]).Some?
    ensures Target(g, scope, nodes, p[..i + 1]) == Jump(g, ScopeAt(g, scope, nodes, p, i), p[i]).value
  {
    PathParts(g, scope, nodes, p, i);
    PathParts(g, scope, nodes, p, i + 1);
    var t := Target(g, scope, nodes, p[..i]);
    assert p[i..][0] == p[i];
    var one := [p[i]];
    assert one[1..] == [] && Path(g, t.1, t.0, one);
    assert Target(g, t.1, t.0, one) == Jump(g, t.1, p[i]).value;
    PathJoins(g, scope, nodes, p[..i], one);
    assert p[..i] + one == p[..i + 1];
  }

  /** Going round again and again gives paths of any length. */
  lemma {:induction false} LongPath(g: Generator, scope: Scope, nodes: seq<Node>, p: seq<Node>, loop: seq<Node>, n: nat)
    returns (long: seq<Node>)
    requires Path(g, scope, nodes, p) && loop != []
    requires var t := Target(g, scope, nodes, p); Path(g, t.1, t.0, loop) && Target(g, t.1, t.0, loop) == t
    ensures Path(g, scope, nodes, long) && |long| > n
    decreases n - |p|
  {
    if |p| > n {
      long := p;
    } else {
      PathJoins(g, scope, nodes, p, loop);
      long := LongPath(g, scope, nodes, p + loop, loop, n);
    }
  }

  lemma BackIsUnbounded(g: Generator, scope: Scope, nodes: seq<Node>, depth: nat)
    requires LeadsBack(g, scope, nodes)
    ensures !Bounded(g, scope, nodes, depth)
  {
    var p, i: nat, j: nat :| MeetsAgain(g, scope, nodes, p, i, j);
    TargetAt(g, scope, nodes, p, i);
    TargetAt(g, scope, nodes, p, j);
    var start, loop := p[..i + 1], p[i + 1..j + 1];
    PathParts(g, scope, nodes, p[..j + 1], i + 1);
    assert p[..j + 1][..i + 1] == start && p[..j + 1][i + 1..] == loop;
    var long := LongPath(g, scope, nodes, start, loop, depth);
  }

  // ---- only so many directives and scopes ---------------------------------------------------------------------------

  /** All nodes of a tree. */
  function AllOf(nodes: seq<Node>): set<Node>
    decreases nodes, 1
  {
    if nodes == [] then {} else {nodes[0]} + Below(nodes[0]) + AllOf(nodes[1..])
  }

  function Below(node: Node): set<Node>
    decreases node, 0
  {
    match node
    case Block(_, _, _, _, _, _, children) => AllOf(children)
    case Control(_, _, _, _, _, children, branches, alternate) =>
      AllOf(children) + AllOfBranches(branches) + if alternate.Alternate? then AllOf(alternate.nodes) else {}
    case _ => {}
  }

  function AllOfBranches(branches: seq<Branch>): set<Node>
    decreases branches, 0
  {
    if branches == [] then {} else AllOf(branches[0].nodes) + AllOfBranches(branches[1..])
  }

  lemma {:induction false} InsideIsIn(nodes: seq<Node>, x: Node)
    requires Inside(nodes, x)
    ensures x in AllOf(nodes)
    decreases nodes, 1
  {
    if nodes[0] != x {
      if InsideNode(nodes[0], x) {
        InsideNodeIsIn(nodes[0], x);
      } else {
        InsideIsIn(nodes[1..], x);
      }
    }
  }

  lemma {:induction false} InsideNodeIsIn(node: Node, x: Node)
    requires InsideNode(node, x)
    ensures x in Below(node)
    decreases node, 0
  {
    if node.Block? || Inside(node.children, x) {
      InsideIsIn(node.children, x);
    } else if InsideBranches(node.branches, x) {
      InsideBranchesIsIn(node.branches, x);
    } else {
      InsideIsIn(node.alternate.nodes, x);
    }
  }

  lemma {:induction false} InsideBranchesIsIn(branches: seq<Branch>, x: Node)
    requires InsideBranches(branches, x)
    ensures x in AllOfBranches(branches)
    decreases branches, 0
  {
    if Inside(branches[0].nodes, x) {
      InsideIsIn(branches[0].nodes, x);
    } else {
      InsideBranchesIsIn(branches[1..], x);
    }
  }

  /** What is below a node of a tree is of the tree. */
  lemma {:induction false} BelowIsIn(nodes: seq<Node>, x: Node)
    requires x in AllOf(nodes)
    ensures Below(x) <= AllOf(nodes)
    decreases nodes, 1
  {
    if x != nodes[0] {
      if x in Below(nodes[0]) {
        BelowIsBelow(nodes[0], x);
      } else {
        BelowIsIn(nodes[1..], x);
      }
    }
  }

  lemma {:induction false} BelowIsBelow(node: Node, x: Node)
    requires x in Below(node)
    ensures Below(x) <= Below(node)
    decreases node, 0
  {
    if node.Block? || x in AllOf(node.children) {
      BelowIsIn(node.children, x);
    } else if x in AllOfBranches(node.branches) {
      BelowIsInBranches(node.branches, x);
    } else {
      BelowIsIn(node.alternate.nodes, x);
    }
  }

  lemma {:induction false} BelowIsInBranches(branches: seq<Branch>, x: Node)
    requires x in AllOfBranches(branches)
    ensures Below(x) <= AllOfBranches(branches)
    decreases branches, 0
  {
    if x in AllOf(branches[0].nodes) {
      BelowIsIn(branches[0].nodes, x);
    } else {
      BelowIsInBranches(branches[1..], x);
    }
  }

  lemma {:induction false} AllOfJoins(a: seq<Node>, b: seq<Node>)
    ensures AllOf(a + b) == AllOf(a) + AllOf(b)
    decreases |a|
  {
    if a == [] {
      assert a + b == b;
    } else {
      AllOfJoins(a[1..], b);
      assert (a + b)[0] == a[0] && (a + b)[1..] == a[1..] + b;
    }
  }

  lemma {:induction false} PushedIsIn(nodes: seq<Node>, name: string)
    ensures AllOf(Pushed(nodes, name)) <= AllOf(nodes)
    decreases nodes, 1
  {
    if nodes != [] {
      PushedByIsIn(nodes[0], name);
      PushedIsIn(nodes[1..], name);
      AllOfJoins(PushedBy(nodes[0], name), Pushed(nodes[1..], name));
    }
  }

  lemma {:induction false} PushedByIsIn(node: Node, name: string)
    ensures AllOf(PushedBy(node, name)) <= Below(node)
    decreases node, 0
  {
    match node
    case Block(_, _, _, _, _, _, children) => PushedIsIn(children, name);
    case Control(_, _, _, _, _, children, branches, alternate) =>
      PushedIsIn(children, name);
      PushedInBranchesIsIn(branches, name);
      var last := if alternate.Alternate? then Pushed(alternate.nodes, name) else [];
      if alternate.Alternate? {
        PushedIsIn(alternate.nodes, name);
      }
      AllOfJoins(Pushed(children, name), PushedInBranches(branches, name));
      AllOfJoins(Pushed(children, name) + PushedInBranches(branches, name), last);
    case _ =>
  }

  lemma {:induction false} PushedInBranchesIsIn(branches: seq<Branch>, name: string)
    ensures AllOf(PushedInBranches(branches, name)) <= AllOfBranches(branches)
    decreases branches, 0
  {
    if branches != [] {
      PushedIsIn(branches[0].nodes, name);
      PushedInBranchesIsIn(branches[1..], name);
      AllOfJoins(Pushed(branches[0].nodes, name), PushedInBranches(branches[1..], name));
    }
  }

  lemma {:induction false} GivenIsIn(nodes: seq<Node>)
    ensures AllOf(Loose(nodes)) <= AllOf(nodes)
    ensures forall name :: name in Named(nodes) ==> AllOf(Named(nodes)[name]) <= AllOf(nodes)
  {
    if nodes != [] {
      GivenIsIn(nodes[1..]);
      var first := if IsSlot(nodes[0]) then [] else [nodes[0]];
      assert [nodes[0]][1..] == [] && AllOf([nodes[0]]) == {nodes[0]} + Below(nodes[0]);
      AllOfJoins(first, Loose(nodes[1..]));
    }
  }

  /** All nodes of the page and the components. */
  function Known(g: Generator): set<Node> {
    AllOf(g.page) + set name, x | name in g.components && x in AllOf(g.components[name]) :: x
  }

  lemma KnownBelow(g: Generator, x: Node)
    requires x in Known(g)
    ensures Below(x) <= Known(g)
  {
    if x in AllOf(g.page) {
      BelowIsIn(g.page, x);
    } else {
      var name :| name in g.components && x in AllOf(g.components[name]);
      BelowIsIn(g.components[name], x);
    }
  }

  // ---- the scopes that are reached -------------------------------------------------------------------------------

  /** The calls that lead to the scope are known, each of another component, and content is handed on from inside one. */
  predicate Proper(g: Generator, scope: Scope) {
    match scope
    case Page => true
    case Within(call, caller, number) =>
      && number == 0 && call in Known(g) && NameOfCall(call) in g.components
      && NameOfCall(call) !in Active(caller) && Proper(g, caller)
    case Content(of) => of.Within? && Proper(g, of)
  }

  lemma {:induction false} ProperIsBare(g: Generator, scope: Scope)
    requires Proper(g, scope)
    ensures Bare(scope) == scope
  {
    match scope
    case Page =>
    case Within(_, caller, _) => ProperIsBare(g, caller);
    case Content(of) => ProperIsBare(g, of);
  }

  /** A known directive in a proper scope stands for known nodes in a proper scope. */
  lemma JumpIsProper(g: Generator, scope: Scope, x: Node)
    requires Proper(g, scope) && x in Known(g) && Expands(x) && Jump(g, scope, x).Some?
    ensures Proper(g, Jump(g, scope, x).value.1) && AllOf(Jump(g, scope, x).value.0) <= Known(g)
  {
    ProperIsBare(g, scope);
    if x.kind == Stack {
      PushedIsIn(g.page, x.name);
    } else if x.kind == Slot {
      SlotIsProper(g, scope, x);
    } else {
      assert Bare(Within(x, scope, 1)) == Within(x, scope, 0);
    }
  }

  lemma SlotIsProper(g: Generator, scope: Scope, x: Node)
    requires Proper(g, scope) && x in Known(g) && Expands(x) && x.kind == Slot && Jump(g, scope, x).Some?
    ensures Proper(g, Jump(g, scope, x).value.1) && AllOf(Jump(g, scope, x).value.0) <= Known(g)
  {
    ProperIsBare(g, scope);
    KnownBelow(g, x);
    KnownBelow(g, scope.call);
    GivenIsIn(BodyOfCall(scope.call));
    ProperIsBare(g, Outer(scope.caller));
  }

  lemma {:induction false} ProperAlong(g: Generator, scope: Scope, nodes: seq<Node>, p: seq<Node>)
    requires Proper(g, scope) && AllOf(nodes) <= Known(g) && Path(g, scope, nodes, p)
    ensures Proper(g, Target(g, scope, nodes, p).1) && AllOf(Target(g, scope, nodes, p).0) <= Known(g)
    decreases |p|
  {
    if p != [] {
      InsideIsIn(nodes, p[0]);
      JumpIsProper(g, scope, p[0]);
      ProperAlong(g, Jump(g, scope, p[0]).value.1, Jump(g, scope, p[0]).value.0, p[1..]);
    }
  }

  function Height(scope: Scope): nat {
    match scope
    case Page => 0
    case Within(_, caller, _) => 1 + Height(caller)
    case Content(of) => 1 + Height(of)
  }

  /** A proper scope is no higher than twice the components in it. */
  lemma {:induction false} ProperIsLow(g: Generator, scope: Scope)
    requires Proper(g, scope)
    ensures Height(scope) <= 2 * |Active(scope)| && (scope.Within? ==> Height(scope) < 2 * |Active(scope)|)
    ensures forall i :: 0 <= i < |Active(scope)| ==> Active(scope)[i] in g.components
    ensures forall i, j :: 0 <= i < j < |Active(scope)| ==> Active(scope)[i] != Active(scope)[j]
  {
    match scope
    case Page =>
    case Within(_, caller, _) => ProperIsLow(g, caller);
    case Content(of) => ProperIsLow(g, of);
  }

  /** A sequence without repetition is no longer than a set that holds it. */
  lemma {:induction false} NoLonger<T>(s: seq<T>, all: set<T>)
    requires (forall i :: 0 <= i < |s| ==> s[i] in all) && forall i, j :: 0 <= i < j < |s| ==> s[i] != s[j]
    ensures |s| <= |all|
    decreases |s|
  {
    if s != [] {
      NoLonger(s[1..], all - {s[0]});
    }
  }

  /** The scopes up to a height. */
  function Scopes(known: set<Node>, n: nat): set<Scope> {
    if n == 0 then {Page}
    else
      var lower := Scopes(known, n - 1);
      lower + (set c, s | c in known && s in lower :: Within(c, s, 0)) + set s | s in lower :: Content(s)
  }

  lemma ScopesGrow(known: set<Node>, n: nat, c: Node, s: Scope)
    requires s in Scopes(known, n)
    ensures s in Scopes(known, n + 1) && Content(s) in Scopes(known, n + 1)
    ensures c in known ==> Within(c, s, 0) in Scopes(known, n + 1)
  {
  }

  lemma {:induction false} ProperIsAmong(g: Generator, scope: Scope, n: nat)
    requires Proper(g, scope) && Height(scope) <= n
    ensures scope in Scopes(Known(g), n)
    decreases n
  {
    if n > 0 {
      var next := if scope.Page? then scope else if scope.Within? then scope.caller else scope.of;
      ProperIsAmong(g, next, n - 1);
      ScopesGrow(Known(g), n - 1, if scope.Within? then scope.call else HERE, next);
    }
  }

  /** All directives in all scopes that can be reached. */
  function Places(g: Generator): set<(Scope, Node)> {
    set s, x | s in Scopes(Known(g), 2 * |g.components|) && x in Known(g) :: (s, x)
  }

  lemma PlaceIsAmong(g: Generator, nodes: seq<Node>, p: seq<Node>, i: nat)
    requires AllOf(nodes) <= Known(g) && Path(g, Page, nodes, p) && i < |p|
    ensures (ScopeAt(g, Page, nodes, p, i), p[i]) in Places(g)
  {
    PathParts(g, Page, nodes, p, i);
    ProperAlong(g, Page, nodes, p[..i]);
    var t := Target(g, Page, nodes, p[..i]);
    assert p[i..][0] == p[i];
    InsideIsIn(t.0, p[i]);
    ProperIsLow(g, t.1);
    NoLonger(Active(t.1), g.components.Keys);
    ProperIsAmong(g, t.1, 2 * |g.components|);
  }

  /** A long path meets some directive again in the same scope. */
  lemma LongLeadsBack(g: Generator, nodes: seq<Node>, p: seq<Node>)
    requires AllOf(nodes) <= Known(g) && Path(g, Page, nodes, p) && |p| > |Places(g)|
    ensures LeadsBack(g, Page, nodes)
  {
    var places := seq(|p|, i requires 0 <= i < |p| => (ScopeAt(g, Page, nodes, p, i), p[i]));
    forall i | 0 <= i < |p|
      ensures places[i] in Places(g)
    {
      PlaceIsAmong(g, nodes, p, i);
    }
    if forall i, j :: 0 <= i < j < |p| ==> places[i] != places[j] {
      NoLonger(places, Places(g));
    } else {
      var i, j :| 0 <= i < j < |p| && places[i] == places[j];
      assert MeetsAgain(g, Page, nodes, p, i, j);
    }
  }

  lemma BoundedIff(g: Generator, nodes: seq<Node>)
    requires AllOf(nodes) <= Known(g)
    ensures SomewhereBounded(g, Page, nodes) <==> !LeadsBack(g, Page, nodes)
  {
    if LeadsBack(g, Page, nodes) {
      forall depth: nat
        ensures !Bounded(g, Page, nodes, depth)
      {
        BackIsUnbounded(g, Page, nodes, depth);
      }
    } else {
      forall p | Path(g, Page, nodes, p)
        ensures |p| <= |Places(g)|
      {
        if |p| > |Places(g)| {
          LongLeadsBack(g, nodes, p);
        }
      }
      assert Bounded(g, Page, nodes, |Places(g)|);
    }
  }

  /** A page compiles, however deep its lookups nest, exactly when nothing it reaches is an error and no directive that it
      reaches leads back to itself. */
  lemma PageCompilesIff(g: Generator, out: Output)
    ensures Succeeds(g, Page, g.page, out) <==> Faultless(g, Page, g.page) && !LeadsBack(g, Page, g.page)
  {
    SucceedsIffBounded(g, Page, g.page, out);
    BoundedIff(g, g.page);
  }

  /** A bound that is always enough. */
  lemma EnoughDepth(g: Generator, out: Output, depth: nat)
    requires Succeeds(g, Page, g.page, out) && depth >= |Places(g)|
    ensures Compiled(g, Page, g.page, depth, out).Done?
  {
    PageCompilesIff(g, out);
    forall p | Path(g, Page, g.page, p)
      ensures |p| <= depth
    {
      if |p| > |Places(g)| {
        LongLeadsBack(g, g.page, p);
      }
    }
    BoundedEnds(g, Page, g.page, depth);
    SuccessIsStatic(g, Page, g.page, out, depth);
  }

  // ---- only stacks lead back ------------------------------------------------------------------------------------------

  /** The calls that lead to a scope. */
  function Calls(scope: Scope): seq<Node> {
    match scope
    case Page => []
    case Within(call, caller, _) => Calls(caller) + [call]
    case Content(of) => Calls(of)
  }

  /** A directive in its scope: the calls that lead to it, and it. */
  function Trail(scope: Scope, x: Node): seq<Node> {
    Calls(scope) + [x]
  }

  /** The trail goes deeper, or to something smaller at its first difference. */
  ghost predicate Falls(a: seq<Node>, b: seq<Node>) {
    a < b || exists k: nat :: FallsAt(a, b, k)
  }

  ghost predicate FallsAt(a: seq<Node>, b: seq<Node>, k: nat) {
    k < |a| && k < |b| && a[..k] == b[..k] && b[k] < a[k]
  }

  lemma FallsOn(a: seq<Node>, b: seq<Node>, c: seq<Node>)
    requires Falls(a, b) && Falls(b, c)
    ensures Falls(a, c)
  {
    if a < b {
      if k: nat :| FallsAt(b, c, k) {
        PrefixFalls(a, b, c, k);
      }
    } else {
      var k: nat :| FallsAt(a, b, k);
      if b < c {
        assert a[..k] == b[..k] == c[..k] && FallsAt(a, c, k);
      } else {
        var m: nat :| FallsAt(b, c, m);
        FallsTwice(a, b, c, k, m);
      }
    }
  }

  lemma PrefixFalls(a: seq<Node>, b: seq<Node>, c: seq<Node>, k: nat)
    requires a < b && FallsAt(b, c, k)
    ensures Falls(a, c)
  {
    if k < |a| {
      assert a[..k] == b[..k] && FallsAt(a, c, k);
    } else {
      assert a == b[..|a|] == b[..k][..|a|] == c[..k][..|a|] == c[..|a|];
    }
  }

  lemma FallsTwice(a: seq<Node>, b: seq<Node>, c: seq<Node>, k: nat, m: nat)
    requires FallsAt(a, b, k) && FallsAt(b, c, m)
    ensures Falls(a, c)
  {
    if k < m {
      assert c[..k] == c[..m][..k] == b[..m][..k] == b[..k] && b[..m][k] == c[..m][k];
      assert FallsAt(a, c, k);
    } else {
      assert a[..m] == a[..k][..m] == b[..k][..m] == b[..m];
      assert m < k ==> a[..k][m] == b[..k][m];
      assert FallsAt(a, c, m);
    }
  }

  /** What is in the parts of a node is smaller than the node. */
  lemma {:induction false} AllAreSmaller(nodes: seq<Node>, d: Node, x: Node)
    requires (forall i :: 0 <= i < |nodes| ==> nodes[i] < d) && x in AllOf(nodes)
    ensures x < d
    decreases nodes, 1
  {
    if x != nodes[0] {
      if x in Below(nodes[0]) {
        BelowIsSmaller(nodes[0], x);
      } else {
        AllAreSmaller(nodes[1..], d, x);
      }
    }
  }

  lemma {:induction false} BelowIsSmaller(node: Node, x: Node)
    requires x in Below(node)
    ensures x < node
    decreases node, 0
  {
    if node.Block? || x in AllOf(node.children) {
      AllAreSmaller(node.children, node, x);
    } else if x in AllOfBranches(node.branches) {
      BranchesAreSmaller(node.branches, node, x);
    } else {
      AllAreSmaller(node.alternate.nodes, node, x);
    }
  }

  lemma {:induction false} BranchesAreSmaller(branches: seq<Branch>, d: Node, x: Node)
    requires (forall i, j :: 0 <= i < |branches| && 0 <= j < |branches[i].nodes| ==> branches[i].nodes[j] < d)
    requires x in AllOfBranches(branches)
    ensures x < d
    decreases branches, 0
  {
    if x in AllOf(branches[0].nodes) {
      AllAreSmaller(branches[0].nodes, d, x);
    } else {
      BranchesAreSmaller(branches[1..], d, x);
    }
  }

  lemma {:induction false} CallsOfBare(scope: Scope)
    ensures Calls(Bare(scope)) == Calls(scope)
  {
    match scope
    case Page =>
    case Within(_, caller, _) => CallsOfBare(caller);
    case Content(of) => CallsOfBare(of);
  }

  /** From a component call or a slot the trail falls. */
  lemma StepFalls(g: Generator, scope: Scope, x: Node, y: Node)
    requires Expands(x) && x.kind != Stack && Jump(g, scope, x).Some? && Inside(Jump(g, scope, x).value.0, y)
    ensures Falls(Trail(scope, x), Trail(Jump(g, scope, x).value.1, y))
  {
    var j := Jump(g, scope, x).value;
    CallsOfBare(Lookup(g, scope, 0, x).value.scope);
    InsideIsIn(j.0, y);
    if x.kind == Component {
      assert Trail(j.1, y) == Trail(scope, x) + [y];
    } else if x.name in Provided(g, scope.call) {
      GivenIsIn(BodyOfCall(scope.call));
      BelowIsSmaller(scope.call, y);
      assert FallsAt(Trail(scope, x), Trail(j.1, y), |Calls(scope.caller)|);
    } else {
      BelowIsSmaller(x, y);
      assert FallsAt(Trail(scope, x), Trail(j.1, y), |Calls(scope)|);
    }
  }

  /** The trail of the i-th directive of a path. */
  function TrailAt(g: Generator, scope: Scope, nodes: seq<Node>, p: seq<Node>, i: nat): seq<Node>
    requires Path(g, scope, nodes, p) && i < |p|
  {
    Trail(ScopeAt(g, scope, nodes, p, i), p[i])
  }

  lemma NextFalls(g: Generator, scope: Scope, nodes: seq<Node>, p: seq<Node>, i: nat)
    requires Path(g, scope, nodes, p) && i + 1 < |p| && Expands(p[i]) && p[i].kind != Stack
    ensures Falls(TrailAt(g, scope, nodes, p, i), TrailAt(g, scope, nodes, p, i + 1))
  {
    TargetAt(g, scope, nodes, p, i);
    PathParts(g, scope, nodes, p, i + 1);
    assert p[i + 1..][0] == p[i + 1];
    StepFalls(g, ScopeAt(g, scope, nodes, p, i), p[i], p[i + 1]);
  }

  lemma {:induction false} FallsAlong(g: Generator, scope: Scope, nodes: seq<Node>, p: seq<Node>, i: nat, j: nat)
    requires Path(g, scope, nodes, p) && i < j < |p|
    requires forall k :: i <= k < j ==> Expands(p[k]) && p[k].kind != Stack
    ensures Falls(TrailAt(g, scope, nodes, p, i), TrailAt(g, scope, nodes, p, j))
    decreases j
  {
    NextFalls(g, scope, nodes, p, j - 1);
    if i < j - 1 {
      FallsAlong(g, scope, nodes, p, i, j - 1);
      FallsOn(TrailAt(g, scope, nodes, p, i), TrailAt(g, scope, nodes, p, j - 1), TrailAt(g, scope, nodes, p, j));
    }
  }

  /** A directive leads back to itself only through a stack; components and slots alone always end. */
  lemma BackNeedsStack(g: Generator, scope: Scope, nodes: seq<Node>, p: seq<Node>, i: nat, j: nat)
    requires MeetsAgain(g, scope, nodes, p, i, j)
    ensures exists k :: i <= k < j && IsStack(p[k])
  {
    forall k | 0 <= k < |p|
      ensures Expands(p[k])
    {
      TargetAt(g, scope, nodes, p, k);
    }
    if forall k :: i <= k < j ==> !IsStack(p[k]) {
      FallsAlong(g, scope, nodes, p, i, j);
    }
  }

  predicate IsStack(node: Node) {
    node.Leaf? && node.kind == Stack
  }

  /** Without stacks a page compiles exactly when nothing it reaches is an error. */
  lemma PageWithoutStacks(g: Generator, out: Output)
    requires forall x :: x in Known(g) ==> !IsStack(x)
    ensures Succeeds(g, Page, g.page, out) <==> Faultless(g, Page, g.page)
  {
    PageCompilesIff(g, out);
    if p, i: nat, j: nat :| MeetsAgain(g, Page, g.page, p, i, j) {
      BackNeedsStack(g, Page, g.page, p, i, j);
      var k :| i <= k < j && IsStack(p[k]);
      PlaceIsAmong(g, g.page, p, k);
    }
  }

  // ---- an input that never ends --------------------------------------------------------------------------------------

  const HERE := Leaf(Stack, "a", [], Span("", 0, 0, Place(0, 0)))

  /** A stack into which itself is pushed. */
  const ROUND := [HERE, Block(Push, "a", [], 0, 0, Span("", 0, 0, Place(0, 0)), [HERE])]

  lemma RoundIsPushed()
    ensures Pushed(ROUND, "a") == [HERE]
  {
    assert ROUND[1..][1..] == [] && PushedBy(ROUND[1], "a") == [HERE];
    assert Pushed(ROUND[1..], "a") == [HERE] && PushedBy(ROUND[0], "a") == [];
  }

  /** It outgrows every bound, and the code never comes back from it. */
  lemma {:induction false} RoundNeverEnds(g: Generator, depth: nat, out: Output)
    requires g.page == ROUND
    ensures Compiled(g, Page, [HERE], depth, out) == TooDeep && Compiled(g, Page, g.page, depth, out) == TooDeep
    decreases depth
  {
    RoundIsPushed();
    if depth > 0 {
      RoundNeverEnds(g, depth - 1, PutEmission(out, Emission([], out.counter)));
    }
    assert CompiledElsewhere(g, Page, HERE, depth, out) == TooDeep;
    assert [HERE][0] == HERE && g.page[0] == HERE;
  }
}
