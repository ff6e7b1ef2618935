/** What components, slots and stacks stand for, said of the calls and the page themselves. */
module ViewLookups {
  import opened Basics
  import opened Filters
  import opened ViewNodes
  import opened ViewRewrite
  import opened ViewCompile

  // ---- slots ---------------------------------------------------------------------------------------------------

  function NotSlot(): Node -> bool {
    (n: Node) => !(n.Block? && n.kind == Slot)
  }

  predicate IsSlotOf(node: Node, name: string) {
    node.Block? && node.kind == Slot && node.name == name
  }

  /** The first @slot of that name in the call's body. */
  predicate GivenAt(body: seq<Node>, name: string, i: nat) {
    i < |body| && IsSlotOf(body[i], name) && forall j :: 0 <= j < i ==> !IsSlotOf(body[j], name)
  }

  lemma {:induction false} LooseIsFiltered(body: seq<Node>)
    ensures Filtered(body, NotSlot(), Loose(body))
  {
    if body != [] {
      LooseIsFiltered(body[1..]);
      FilteredOne(body[0], NotSlot());
      FilteredJoins([body[0]], if NotSlot()(body[0]) then [body[0]] else [], body[1..], Loose(body[1..]), NotSlot());
      assert [body[0]] + body[1..] == body;
    }
  }

  lemma {:induction false} NamedMeans(body: seq<Node>, name: string)
    ensures name in Named(body) <==> exists i: nat :: GivenAt(body, name, i)
    ensures forall i: nat :: GivenAt(body, name, i) ==> name in Named(body) && Named(body)[name] == body[i].children
  {
    if body != [] {
      var rest := body[1..];
      NamedMeans(rest, name);
      if IsSlotOf(body[0], name) {
        assert GivenAt(body, name, 0);
      } else {
        forall i: nat
          ensures GivenAt(body, name, i + 1) <==> GivenAt(rest, name, i)
        {
          if GivenAt(rest, name, i) {
            assert forall j :: 0 < j < i + 1 ==> body[j] == rest[j - 1];
          }
          if GivenAt(body, name, i + 1) {
            assert forall j :: 0 <= j < i ==> rest[j] == body[j + 1];
          }
        }
        forall i: nat | GivenAt(body, name, i)
          ensures name in Named(body) && Named(body)[name] == body[i].children
        {
          assert GivenAt(rest, name, i - 1);
        }
        if i: nat :| GivenAt(rest, name, i) {
          assert GivenAt(body, name, i + 1);
        }
      }
    }
  }

  /** The call gives content outside its @slots. */
  predicate GivesContent(g: Generator, body: seq<Node>) {
    exists i :: 0 <= i < |body| && NotSlot()(body[i]) && (body[i].Text? ==> !g.blank(body[i].text))
  }

  lemma {:induction false} ContentIff(g: Generator, body: seq<Node>)
    ensures HasContent(g, Loose(body)) <==> GivesContent(g, body)
  {
    if body != [] {
      var rest, loose := body[1..], Loose(body[1..]);
      ContentIff(g, rest);
      var all := Loose(body);
      assert NotSlot()(body[0]) ==> all[0] == body[0] && all[1..] == loose;
      assert !NotSlot()(body[0]) ==> all == loose;
      if i :| 0 <= i < |loose| && (!loose[i].Text? || !g.blank(loose[i].text)) {
        assert all[|all| - |loose| + i] == loose[i];
      }
      if i :| 0 <= i < |all| && (!all[i].Text? || !g.blank(all[i].text)) {
        assert NotSlot()(body[0]) && i > 0 ==> loose[i - 1] == all[i];
      }
      if i :| 0 <= i < |rest| && NotSlot()(rest[i]) && (rest[i].Text? ==> !g.blank(rest[i].text)) {
        assert body[i + 1] == rest[i];
      }
      if i :| 0 <= i < |body| && NotSlot()(body[i]) && (body[i].Text? ==> !g.blank(body[i].text)) {
        assert i > 0 ==> rest[i - 1] == body[i];
      }
    }
  }

  /** What a slot in a component stands for: the content its caller gives it, compiled where the caller stands, and otherwise
      its own body where it stands itself. Content is the @slot of that name in the call, or all else in the call for the
      default slot; outside a component a slot is an error. */
  lemma SlotStandsFor(g: Generator, scope: Scope, counter: nat, node: Node)
    requires node.Block? && node.kind == Slot
    ensures Lookup(g, scope, counter, node).Some? <==> scope.Within?
    ensures scope.Within? ==>
      var e, body := Lookup(g, scope, counter, node).value, Inner(scope.call);
      && e.before == Emission([], counter) && e.after == []
      && (node.name == "default" && GivesContent(g, body) ==> Filtered(body, NotSlot(), e.nodes))
      && (forall i: nat :: GivenAt(body, node.name, i) && !(node.name == "default" && GivesContent(g, body)) ==>
            e.nodes == body[i].children)
      && (if (node.name == "default" && GivesContent(g, body)) || exists i: nat :: GivenAt(body, node.name, i)
          then e.scope == if scope.caller.Within? then Content(scope.caller) else scope.caller
          else e.nodes == node.children && e.scope == scope)
  {
    if scope.Within? {
      var body := Inner(scope.call);
      LooseIsFiltered(body);
      NamedMeans(body, node.name);
      ContentIff(g, body);
    }
  }

  // ---- components --------------------------------------------------------------------------------------------------

  /** A component whose definition is being compiled. */
  predicate IsActive(scope: Scope, name: string) {
    match scope
    case Page => false
    case Within(call, caller, _) => (call.Block? && call.name == name) || (!call.Block? && name == "") || IsActive(caller, name)
    case Content(of) => IsActive(of, name)
  }

  lemma {:induction false} ActiveIff(scope: Scope, name: string)
    ensures name in Active(scope) <==> IsActive(scope, name)
  {
    match scope
    case Page =>
    case Within(_, caller, _) => ActiveIff(caller, name);
    case Content(of) => ActiveIff(of, name);
  }

  /** A component call is an error when there is no such component, when it is being compiled already, or when its arguments
      are refused; otherwise it stands for the definition, with its variables numbered anew. */
  lemma ComponentStandsFor(g: Generator, scope: Scope, counter: nat, node: Node)
    requires node.Block? && node.kind == Component
    ensures Lookup(g, scope, counter, node).Some? <==>
      node.name in g.components && !IsActive(scope, node.name) && !g.refuses(Bare(scope), node)
    ensures Lookup(g, scope, counter, node).Some? ==>
      var e := Lookup(g, scope, counter, node).value;
      e.nodes == g.components[node.name] && e.scope == Within(node, scope, counter + 1) && e.before.counter == counter + 1
  {
    ActiveIff(scope, node.name);
  }

  lemma {:induction false} BoundMeans(outer: Bindings, props: seq<Bytes>, prefix: Bytes, name: Bytes)
    ensures name in Bound(outer, props, prefix) <==> name in outer || name in props
    ensures name in props ==> Bound(outer, props, prefix)[name] == prefix + name
    ensures name in outer && name !in props ==> Bound(outer, props, prefix)[name] == outer[name]
    decreases |props|
  {
    if props != [] {
      BoundMeans(outer[props[0] := prefix + props[0]], props[1..], prefix, name);
      assert props == [props[0]] + props[1..];
    }
  }

  /** The variables in force: in a component its own ones under their numbered names, and those of the caller otherwise; in
      content those of the place it is written in; in the page none. */
  lemma VariablesInForce(g: Generator, scope: Scope, name: Bytes)
    ensures scope.Page? ==> name !in BindingsOf(g, scope)
    ensures scope.Content? ==> BindingsOf(g, scope) == BindingsOf(g, scope.of)
    ensures scope.Within? ==>
      var own := g.props(if scope.call.Block? then scope.call.name else "");
      && (name in BindingsOf(g, scope) <==> name in own || name in BindingsOf(g, scope.caller))
      && (name in own ==> BindingsOf(g, scope)[name] == g.prefix(scope.number) + name)
      && (name !in own && name in BindingsOf(g, scope.caller) ==> BindingsOf(g, scope)[name] == BindingsOf(g, scope.caller)[name])
  {
    if scope.Within? {
      BoundMeans(BindingsOf(g, scope.caller), g.props(NameOfCall(scope.call)), g.prefix(scope.number), name);
    }
  }

  // ---- stacks ------------------------------------------------------------------------------------------------------

  /** All nodes in the order of the source, each before what is inside it; the body of a @push is not entered. */
  function Listed(nodes: seq<Node>): seq<Node>
    decreases nodes, 1
  {
    if nodes == [] then [] else [nodes[0]] + ListedIn(nodes[0]) + Listed(nodes[1..])
  }

  function ListedIn(node: Node): seq<Node>
    decreases node, 0
  {
    match node
    case Block(k, _, _, _, _, _, children) => if k == Push then [] else Listed(children)
    case Control(_, _, _, _, _, children, branches, alternate) =>
      Listed(children) + ListedInBranches(branches) + if alternate.Alternate? then Listed(alternate.nodes) else []
    case _ => []
  }

  function ListedInBranches(branches: seq<Branch>): seq<Node>
    decreases branches, 0
  {
    if branches == [] then [] else Listed(branches[0].nodes) + ListedInBranches(branches[1..])
  }

  function PushesTo(name: string): Node -> bool {
    (n: Node) => n.Block? && n.kind == Push && n.name == name
  }

  function Inner(node: Node): seq<Node> {
    if node.Block? then node.children else []
  }

  /** The bodies one after the other. */
  function Bodies(pushes: seq<Node>): seq<Node> {
    if pushes == [] then [] else Inner(pushes[0]) + Bodies(pushes[1..])
  }

  lemma {:induction false} BodiesJoin(a: seq<Node>, b: seq<Node>)
    ensures Bodies(a + b) == Bodies(a) + Bodies(b)
    decreases |a|
  {
    if a == [] {
      assert a + b == b;
    } else {
      BodiesJoin(a[1..], b);
      assert (a + b)[0] == a[0] && (a + b)[1..] == a[1..] + b;
    }
  }

  /** The nodes listed hold these pushes, and their bodies are what is pushed. */
  ghost predicate Fills(listed: seq<Node>, name: string, pushes: seq<Node>, pushed: seq<Node>) {
    Filtered(listed, PushesTo(name), pushes) && pushed == Bodies(pushes)
  }

  lemma FillsJoin(a: seq<Node>, p: seq<Node>, x: seq<Node>, b: seq<Node>, q: seq<Node>, y: seq<Node>, name: string)
    requires Fills(a, name, p, x) && Fills(b, name, q, y)
    ensures Fills(a + b, name, p + q, x + y)
  {
    FilteredJoins(a, p, b, q, PushesTo(name));
    BodiesJoin(p, q);
  }

  lemma FillsNone(name: string)
    ensures Fills([], name, [], [])
  {
  }

  /** A stack is the bodies of the @push blocks of its name, each once, in the order of the page. */
  lemma {:induction false} StackIsFilled(nodes: seq<Node>, name: string) returns (pushes: seq<Node>)
    ensures Fills(Listed(nodes), name, pushes, Pushed(nodes, name))
    decreases nodes, 2
  {
    if nodes == [] {
      pushes := [];
    } else {
      var first := NodeIsFilled(nodes[0], name);
      var rest := StackIsFilled(nodes[1..], name);
      FillsJoin([nodes[0]] + ListedIn(nodes[0]), first, PushedBy(nodes[0], name), Listed(nodes[1..]), rest, Pushed(nodes[1..], name), name);
      pushes := first + rest;
    }
  }

  lemma {:induction false} NodeIsFilled(node: Node, name: string) returns (pushes: seq<Node>)
    ensures Fills([node] + ListedIn(node), name, pushes, PushedBy(node, name))
    decreases node, 1
  {
    FilteredOne(node, PushesTo(name));
    if node.Block? && node.kind == Push {
      pushes := if PushesTo(name)(node) then [node] else [];
      assert [node] + ListedIn(node) == [node];
      assert [node][1..] == [] && Inner(node) + Bodies([]) == node.children;
    } else {
      var inner := BodiesAreFilled(node, name);
      assert Fills([node], name, [], []);
      FillsJoin([node], [], [], ListedIn(node), inner, PushedBy(node, name), name);
      assert [] + inner == inner && [] + PushedBy(node, name) == PushedBy(node, name);
      pushes := inner;
    }
  }

  lemma {:induction false} BodiesAreFilled(node: Node, name: string) returns (pushes: seq<Node>)
    requires !(node.Block? && node.kind == Push)
    ensures Fills(ListedIn(node), name, pushes, PushedBy(node, name))
    decreases node, 0
  {
    FillsNone(name);
    if node.Block? {
      pushes := StackIsFilled(node.children, name);
    } else if node.Control? {
      var a := StackIsFilled(node.children, name);
      var b := BranchesAreFilled(node.branches, name);
      var c: seq<Node>, listed: seq<Node>, pushed: seq<Node> := [], [], [];
      if node.alternate.Alternate? {
        c := StackIsFilled(node.alternate.nodes, name);
        listed, pushed := Listed(node.alternate.nodes), Pushed(node.alternate.nodes, name);
      }
      FillsJoin(Listed(node.children), a, Pushed(node.children, name), ListedInBranches(node.branches), b,
                PushedInBranches(node.branches, name), name);
      FillsJoin(Listed(node.children) + ListedInBranches(node.branches), a + b,
                Pushed(node.children, name) + PushedInBranches(node.branches, name), listed, c, pushed, name);
      pushes := a + b + c;
    } else {
      pushes := [];
    }
  }

  lemma {:induction false} BranchesAreFilled(branches: seq<Branch>, name: string) returns (pushes: seq<Node>)
    ensures Fills(ListedInBranches(branches), name, pushes, PushedInBranches(branches, name))
    decreases branches, 0
  {
    FillsNone(name);
    if branches == [] {
      pushes := [];
    } else {
      var first := StackIsFilled(branches[0].nodes, name);
      var rest := BranchesAreFilled(branches[1..], name);
      FillsJoin(Listed(branches[0].nodes), first, Pushed(branches[0].nodes, name), ListedInBranches(branches[1..]), rest,
                PushedInBranches(branches[1..], name), name);
      pushes := first + rest;
    }
  }

  /** What a stack stands for: all that the page pushes to it, where the stack stands. */
  lemma StackStandsFor(g: Generator, scope: Scope, counter: nat, node: Node) returns (pushes: seq<Node>)
    requires node.Leaf? && node.kind == Stack
    ensures Lookup(g, scope, counter, node) == Some(Expansion(Emission([], counter), Bodies(pushes), scope, []))
    ensures Filtered(Listed(g.page), PushesTo(node.name), pushes)
  {
    pushes := StackIsFilled(g.page, node.name);
  }
}
