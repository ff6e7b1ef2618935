/** Which yields a view must fill, which pushes it takes from its documents, and where its components come from. */
module ViewFillings {
  import opened Basics
  import opened Filters
  import opened ViewNodes
  import opened ViewCompile
  import opened Yields
  import opened Layouts
  import opened SharedBranches
  import opened ViewOrganize
  import opened ViewDepths
  import opened ViewDocument
  import opened ViewSite

  // ---- yields that nothing fills -----------------------------------------------------------------------------

  /** Such a yield stays where it is, at every depth, when yields may not stay open. */
  lemma {:induction false} UnfilledStays(nodes: seq<Node>, sections: Sections, resolving: set<string>, x: Node)
    requires IsYield(x) && x.name !in sections && Inside(nodes, x) && Substitute(nodes, sections, false, resolving).Done?
    ensures Inside(Substitute(nodes, sections, false, resolving).nodes, x)
    decreases nodes, 1
  {
    var first, rest := SubstituteNode(nodes[0], sections, false, resolving).nodes, Substitute(nodes[1..], sections, false, resolving).nodes;
    if nodes[0] == x || InsideNode(nodes[0], x) {
      UnfilledStaysIn(nodes[0], sections, resolving, x);
    } else {
      UnfilledStays(nodes[1..], sections, resolving, x);
    }
    InsideJoins(first, rest, x);
  }

  lemma {:induction false} UnfilledStaysIn(item: Node, sections: Sections, resolving: set<string>, x: Node)
    requires IsYield(x) && x.name !in sections && (item == x || InsideNode(item, x))
    requires SubstituteNode(item, sections, false, resolving).Done?
    ensures Inside(SubstituteNode(item, sections, false, resolving).nodes, x)
    decreases item, 0
  {
    if item != x {
      match item
      case Block(_, _, _, _, _, _, children) => UnfilledStays(children, sections, resolving, x);
      case Control(_, _, _, _, _, children, branches, alternate) =>
        if Inside(children, x) {
          UnfilledStays(children, sections, resolving, x);
        } else if InsideBranches(branches, x) {
          UnfilledStaysInBranches(branches, sections, resolving, x);
        } else {
          UnfilledStays(alternate.nodes, sections, resolving, x);
        }
    }
  }

  lemma {:induction false} UnfilledStaysInBranches(branches: seq<Branch>, sections: Sections, resolving: set<string>, x: Node)
    requires IsYield(x) && x.name !in sections && InsideBranches(branches, x)
    requires SubstituteAll(branches, sections, false, resolving).Some?
    ensures InsideBranches(SubstituteAll(branches, sections, false, resolving).value, x)
    decreases branches, 0
  {
    if Inside(branches[0].nodes, x) {
      UnfilledStays(branches[0].nodes, sections, resolving, x);
    } else {
      UnfilledStaysInBranches(branches[1..], sections, resolving, x);
    }
  }

  lemma {:induction false} InsideJoins(a: seq<Node>, b: seq<Node>, x: Node)
    ensures Inside(a + b, x) <==> Inside(a, x) || Inside(b, x)
    decreases |a|
  {
    if a == [] {
      assert a + b == b;
    } else {
      InsideJoins(a[1..], b, x);
      assert (a + b)[0] == a[0] && (a + b)[1..] == a[1..] + b;
    }
  }

  /** No document has this one as its layout. */
  predicate IsNoLayout(documents: Documents, name: string) {
    forall d :: d in documents ==> documents[d].layout != name
  }

  /** A view that has a layout, and is none itself, must fill the yields of its layout: it does not compile when one is left
      that no document of its chain has a section for. */
  lemma UnfilledIsAnError(texts: Generator, documents: Documents, chain: seq<string>, x: Node, depth: nat, counter: nat)
    requires IsChain(documents, chain) && |chain| > 1 && IsNoLayout(documents, chain[0])
    requires IsYield(x) && Inside(documents[chain[|chain| - 1]].extra, x)
    requires forall i :: 0 <= i < |chain| ==> x.name !in documents[chain[i]].sections
    ensures !ViewOutcome(texts, documents, chain[0], depth, counter).Done?
  {
    var sections := Gathered(documents, chain, map[]);
    var root := documents[chain[|chain| - 1]].extra;
    assert documents[chain[1 - 1]].layout == chain[1] != "";
    ViewResolves(documents, chain, false);
    GatheredIsClosest(documents, chain, map[]);
    if ViewOutcome(texts, documents, chain[0], depth, counter).Done? {
      UnfilledStays(root, sections, {}, x);
      var body := Substitute(root, sections, false, {}).nodes;
      InsideJoins(Hoisted(documents, chain), body, x);
      var nodes := Hoisted(documents, chain) + body;
      EveryDepth(GeneratorFor(texts, documents, nodes), Page, nodes, depth, Output([], counter), x);
      assert false;
    }
  }

  // ---- yields that may stay open -------------------------------------------------------------------------------

  lemma {:induction false} NoYieldIn(nodes: seq<Node>, names: set<string>)
    requires Settled(nodes, names, true)
    ensures forall i :: 0 <= i < |nodes| ==> !IsYield(nodes[i])
  {
    if nodes != [] {
      NoYieldIn(nodes[1..], names);
    }
  }

  lemma {:induction false} HoistedArePushes(documents: Documents, chain: seq<string>)
    requires Walk(documents, chain)
    ensures forall i :: 0 <= i < |Hoisted(documents, chain)| ==> IsPush(Hoisted(documents, chain)[i])
  {
    if |chain| > 1 {
      HoistedArePushes(documents, chain[1..]);
      OnlyPushes(documents[chain[0]].extra);
    }
  }

  lemma {:induction false} OnlyPushes(nodes: seq<Node>)
    ensures forall i :: 0 <= i < |Pushes(nodes)| ==> IsPush(Pushes(nodes)[i])
  {
    if nodes != [] {
      OnlyPushes(nodes[1..]);
    }
  }

  /** A view without a layout, and one that is a layout, has no yield left: those that no section fills are dropped. */
  lemma OpenViewsDropYields(documents: Documents, name: string, nodes: seq<Node>, i: nat)
    requires name in documents && (documents[name].layout == "" || !IsNoLayout(documents, name))
    requires Resolve(documents, name, map[], [], IsOpen(documents, name)) == Resolved(nodes) && i < |nodes|
    ensures !IsYield(nodes[i])
    ensures documents[name].layout == "" ==> Settled(nodes, {}, true)
  {
    var chain := ResolvedByChain(documents, name, map[], [], IsOpen(documents, name));
    var sections := Gathered(documents, chain, map[]);
    var root := documents[chain[|chain| - 1]].extra;
    ViewResolves(documents, chain, true);
    ExpandedIsSettled(root, sections, true, {});
    var body := Substitute(root, sections, true, {}).nodes;
    NoYieldIn(body, sections.Keys);
    HoistedArePushes(documents, chain);
    if documents[name].layout == "" {
      SettledIsPlain(body, sections.Keys);
      assert [] + body == body;
    }
  }

  /** Without any yield, the names do not matter. */
  lemma {:induction false} SettledIsPlain(nodes: seq<Node>, names: set<string>)
    requires Settled(nodes, names, true)
    ensures Settled(nodes, {}, true)
    decreases nodes, 1
  {
    if nodes != [] {
      SettledNodeIsPlain(nodes[0], names);
      SettledIsPlain(nodes[1..], names);
    }
  }

  lemma {:induction false} SettledNodeIsPlain(node: Node, names: set<string>)
    requires SettledNode(node, names, true)
    ensures SettledNode(node, {}, true)
    decreases node, 0
  {
    match node
    case Block(_, _, _, _, _, _, children) => SettledIsPlain(children, names);
    case Control(_, _, _, _, _, children, branches, alternate) =>
      SettledIsPlain(children, names);
      SettledBranchesArePlain(branches, names);
      if alternate.Alternate? {
        SettledIsPlain(alternate.nodes, names);
      }
    case _ =>
  }

  lemma {:induction false} SettledBranchesArePlain(branches: seq<Branch>, names: set<string>)
    requires SettledBranches(branches, names, true)
    ensures SettledBranches(branches, {}, true)
    decreases branches, 0
  {
    if branches != [] {
      SettledIsPlain(branches[0].nodes, names);
      SettledBranchesArePlain(branches[1..], names);
    }
  }

  // ---- pushes and components -------------------------------------------------------------------------------------

  function IsPushNode(): Node -> bool {
    (n: Node) => n.Block? && n.kind == Push
  }

  /** A document above its layout gives its pushes, each once and in order, and nothing else. */
  lemma {:induction false} PushesAreFiltered(nodes: seq<Node>)
    ensures Filtered(nodes, IsPushNode(), Pushes(nodes))
    decreases |nodes|
  {
    if nodes != [] {
      PushesAreFiltered(nodes[1..]);
      FilteredOne(nodes[0], IsPushNode());
      FilteredJoins([nodes[0]], if IsPushNode()(nodes[0]) then [nodes[0]] else [], nodes[1..], Pushes(nodes[1..]), IsPushNode());
      assert [nodes[0]] + nodes[1..] == nodes;
    }
  }

  /** The components are the files of their directory, and each stands for its file's one parse without the @props it starts
      with. */
  lemma ComponentsAreFiles(rules: Rules, views: map<string, View>, names: seq<string>, documents: Documents, name: string)
    requires LoadedFrom(rules, views, names, documents)
    ensures name in Components(documents) <==> name in names && "components/" <= name
    ensures name in Components(documents) ==>
      exists nodes, i: nat :: Parses(views[name], nodes) && StandsWithoutProps(rules, nodes, i, Components(documents)[name])
  {
    if name in documents {
      var nodes :| Parses(views[name], nodes) && Organized(rules, IsComponent(name), nodes) == Some(documents[name]);
      if IsComponent(name) {
        var i := ComponentKeepsTheRest(rules, nodes);
        assert StandsWithoutProps(rules, nodes, i, documents[name].body);
      }
    }
  }

  /** The pages are the other files. */
  lemma PagesAreFiles(rules: Rules, views: map<string, View>, names: seq<string>, documents: Documents, name: string)
    requires LoadedFrom(rules, views, names, documents)
    ensures IsPage(documents, name) <==> name in names && !("components/" <= name)
  {
    if name in documents {
      var nodes :| Parses(views[name], nodes) && Organized(rules, IsComponent(name), nodes) == Some(documents[name]);
    }
  }

  /** All of the nodes but the @props at i, which only blanks precede. */
  predicate StandsWithoutProps(rules: Rules, nodes: seq<Node>, i: nat, body: seq<Node>) {
    && i < |nodes| && nodes[i].Leaf? && nodes[i].kind == Props
    && (forall j :: 0 <= j < i ==> nodes[j].Text? && rules.blank(nodes[j].text))
    && body == nodes[..i] + nodes[i + 1..]
  }
}
