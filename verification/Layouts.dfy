/** Layout inheritance of the view compiler: resolving a view down its chain of layouts. */
module Layouts {
  import opened Basics
  import opened ViewNodes
  import opened Yields

  /** A parsed document; `layout` is empty when the document has no layout, and `body` is what a component stands for. */
  datatype Document = Document(layout: string, sections: Sections, extra: seq<Node>, component: bool, body: seq<Node>)

  type Documents = map<string, Document>

  datatype Error = UnknownView | InheritanceCycle | UnknownLayout | ComponentLayout | YieldCycle

  datatype Resolution = Failed(error: Error) | Resolved(nodes: seq<Node>)

  predicate IsPush(node: Node) {
    node.Block? && node.kind == Push
  }

  /** The pushes among the nodes of a document, in order. */
  function Pushes(nodes: seq<Node>): seq<Node> {
    if nodes == [] then []
    else (if IsPush(nodes[0]) then [nodes[0]] else []) + Pushes(nodes[1..])
  }

  function Below(pushes: seq<Node>, r: Resolution): Resolution {
    if r.Failed? then r else Resolved(pushes + r.nodes)
  }

  /** What resolve returns; `stack` holds the documents already entered. */
  function Resolve(documents: Documents, name: string, inherited: Sections, stack: seq<string>, open: bool): Resolution
    decreases |documents.Keys - Entered(stack)|
  {
    if name !in documents then Failed(UnknownView)
    else if name in stack then Failed(InheritanceCycle)
    else
      var doc := documents[name];
      var sections := doc.sections + inherited;
      if doc.layout != "" then
        if doc.layout !in documents then Failed(UnknownLayout)
        else if documents[doc.layout].component then Failed(ComponentLayout)
        else
          EnteringShrinks(documents, stack, name);
          Below(Pushes(doc.extra), Resolve(documents, doc.layout, sections, stack + [name], open))
      else
        match Substitute(doc.extra, sections, open, {})
        case Cycle => Failed(YieldCycle)
        case Done(nodes) => Resolved(nodes)
  }

  function Entered(stack: seq<string>): set<string> {
    set s | s in stack
  }

  lemma EnteringShrinks(documents: Documents, stack: seq<string>, name: string)
    requires name in documents && name !in stack
    ensures |documents.Keys - Entered(stack + [name])| < |documents.Keys - Entered(stack)|
  {
    assert documents.Keys - Entered(stack + [name]) == (documents.Keys - Entered(stack)) - {name};
  }

  // ---- chains of layouts --------------------------------------------------------------------

  /** The documents met one after the other by following layouts. */
  predicate Walk(documents: Documents, p: seq<string>) {
    && (forall i :: 0 <= i < |p| ==> p[i] in documents)
    && (forall i :: 0 < i < |p| ==> documents[p[i - 1]].layout == p[i] != "" && !documents[p[i]].component)
  }

  /** A walk down to a document that has no layout. */
  predicate IsChain(documents: Documents, chain: seq<string>) {
    chain != [] && Walk(documents, chain) && documents[chain[|chain| - 1]].layout == ""
  }

  /** The least position on the chain whose document defines the section. */
  predicate ChildMost(documents: Documents, chain: seq<string>, s: string, i: nat)
    requires Walk(documents, chain)
  {
    i < |chain| && s in documents[chain[i]].sections && forall j :: 0 <= j < i ==> s !in documents[chain[j]].sections
  }

  /** `sections` holds each section some document of the chain defines, as the one closest to the view does;
      what `inherited` defines comes before all of them. */
  ghost predicate Closest(documents: Documents, chain: seq<string>, inherited: Sections, sections: Sections)
    requires Walk(documents, chain)
  {
    && (forall s :: s in sections ==> s in inherited || exists i: nat :: ChildMost(documents, chain, s, i))
    && (forall s :: s in inherited ==> s in sections && sections[s] == inherited[s])
    && (forall s, i: nat :: s !in inherited && ChildMost(documents, chain, s, i) ==>
          s in sections && sections[s] == documents[chain[i]].sections[s])
  }

  /** The pushes of every document of the chain but the last. */
  function Hoisted(documents: Documents, chain: seq<string>): seq<Node>
    requires Walk(documents, chain)
  {
    if |chain| <= 1 then [] else Pushes(documents[chain[0]].extra) + Hoisted(documents, chain[1..])
  }

  /** The sections as resolve gathers them on the way down. */
  function Gathered(documents: Documents, chain: seq<string>, inherited: Sections): Sections
    requires Walk(documents, chain)
  {
    if chain == [] then inherited else Gathered(documents, chain[1..], documents[chain[0]].sections + inherited)
  }

  lemma {:induction false} GatheredIsClosest(documents: Documents, chain: seq<string>, inherited: Sections)
    requires Walk(documents, chain)
    ensures Closest(documents, chain, inherited, Gathered(documents, chain, inherited))
  {
    if chain != [] {
      GatheredIsClosest(documents, chain[1..], documents[chain[0]].sections + inherited);
      ClosestStep(documents, chain, inherited, Gathered(documents, chain, inherited));
    }
  }

  lemma ClosestStep(documents: Documents, chain: seq<string>, inherited: Sections, sections: Sections)
    requires Walk(documents, chain) && chain != []
    requires Closest(documents, chain[1..], documents[chain[0]].sections + inherited, sections)
    ensures Closest(documents, chain, inherited, sections)
  {
    var own := documents[chain[0]].sections;
    forall s | s in sections
      ensures s in inherited || exists i: nat :: ChildMost(documents, chain, s, i)
    {
      if s in own {
        assert ChildMost(documents, chain, s, 0);
      } else if s !in inherited {
        var i: nat :| ChildMost(documents, chain[1..], s, i);
        assert ChildMost(documents, chain, s, i + 1);
      }
    }
    forall s, i: nat | s !in inherited && ChildMost(documents, chain, s, i)
      ensures s in sections && sections[s] == documents[chain[i]].sections[s]
    {
      if i > 0 {
        assert s !in documents[chain[0]].sections;
        assert ChildMost(documents, chain[1..], s, i - 1);
      }
    }
  }

  lemma ClosestIsOne(documents: Documents, chain: seq<string>, inherited: Sections, a: Sections, b: Sections)
    requires Walk(documents, chain)
    requires Closest(documents, chain, inherited, a) && Closest(documents, chain, inherited, b)
    ensures a == b
  {
    forall s
      ensures s in a <==> s in b
      ensures s in a && s in b ==> a[s] == b[s]
    {
      if s !in inherited {
        if i: nat :| ChildMost(documents, chain, s, i) {
        }
      }
    }
  }

  /** What is left to do at the end of a chain. */
  function AtRoot(documents: Documents, chain: seq<string>, sections: Sections, open: bool): Resolution
    requires IsChain(documents, chain)
  {
    match Substitute(documents[chain[|chain| - 1]].extra, sections, open, {})
    case Cycle => Failed(YieldCycle)
    case Done(nodes) => Resolved(Hoisted(documents, chain) + nodes)
  }

  lemma AtRootStep(documents: Documents, chain: seq<string>, sections: Sections, open: bool)
    requires IsChain(documents, chain) && |chain| > 1 && IsChain(documents, chain[1..])
    ensures AtRoot(documents, chain, sections, open)
         == Below(Pushes(documents[chain[0]].extra), AtRoot(documents, chain[1..], sections, open))
  {
    assert chain[1..][|chain| - 2] == chain[|chain| - 1];
  }

  /** The chain has no document twice and none that was entered before. */
  predicate Simple(stack: seq<string>, chain: seq<string>) {
    && (forall i :: 0 <= i < |chain| ==> chain[i] !in stack)
    && (forall i, j :: 0 <= i < j < |chain| ==> chain[i] != chain[j])
  }

  lemma RestIsSimple(stack: seq<string>, chain: seq<string>)
    requires Simple(stack, chain) && chain != []
    ensures Simple(stack + [chain[0]], chain[1..])
  {
    forall i | 0 <= i < |chain[1..]|
      ensures chain[1..][i] !in stack + [chain[0]]
    {
      assert chain[1..][i] == chain[i + 1];
    }
  }

  /** Resolve follows the chain when there is one and none of its documents was entered before. */
  lemma {:induction false} ChainResolves(documents: Documents, chain: seq<string>, inherited: Sections, stack: seq<string>, open: bool)
    requires IsChain(documents, chain) && Simple(stack, chain)
    ensures Resolve(documents, chain[0], inherited, stack, open)
         == AtRoot(documents, chain, Gathered(documents, chain, inherited), open)
    decreases |chain|
  {
    var rest := chain[1..];
    var sections := documents[chain[0]].sections + inherited;
    if rest != [] {
      RestIsChain(documents, chain);
      RestIsSimple(stack, chain);
      ChainResolves(documents, rest, sections, stack + [chain[0]], open);
      AtRootStep(documents, chain, Gathered(documents, rest, sections), open);
    } else {
      assert Gathered(documents, chain, inherited) == Gathered(documents, [], sections);
    }
  }

  lemma RestIsChain(documents: Documents, chain: seq<string>)
    requires IsChain(documents, chain) && |chain| > 1
    ensures IsChain(documents, chain[1..])
    ensures documents[chain[0]].layout == chain[1] != "" && !documents[chain[1]].component
  {
    assert documents[chain[1 - 1]].layout == chain[1];
  }

  /** No document is on a chain twice. */
  lemma {:induction false} ChainIsSimple(documents: Documents, chain: seq<string>, i: nat, j: nat)
    requires IsChain(documents, chain) && i < j < |chain|
    ensures chain[i] != chain[j]
    decreases |chain| - j
  {
    if j < |chain| - 1 {
      ChainIsSimple(documents, chain, i + 1, j + 1);
    }
    assert documents[chain[i + 1 - 1]].layout == chain[i + 1];
    assert j < |chain| - 1 ==> documents[chain[j + 1 - 1]].layout == chain[j + 1];
  }

  /** A result, and a cycle of sections, come only from the end of a chain. */
  lemma {:induction false} ResolvedByChain(documents: Documents, name: string, inherited: Sections, stack: seq<string>, open: bool)
    returns (chain: seq<string>)
    requires var r := Resolve(documents, name, inherited, stack, open); r.Resolved? || r.error == YieldCycle
    ensures IsChain(documents, chain) && chain[0] == name
    decreases |documents.Keys - Entered(stack)|
  {
    var doc := documents[name];
    if doc.layout == "" {
      chain := [name];
    } else {
      EnteringShrinks(documents, stack, name);
      var rest := ResolvedByChain(documents, doc.layout, doc.sections + inherited, stack + [name], open);
      chain := [name] + rest;
    }
  }

  /** A view resolves to its layout's nodes, below the pushes of the documents above it, with every yield unfolded
      to the definition closest to the view; and in no other case. */
  lemma ResolvesIff(documents: Documents, name: string, open: bool, nodes: seq<Node>)
    ensures Resolve(documents, name, map[], [], open) == Resolved(nodes) <==>
              exists chain, sections, depth: nat :: UnfoldsTo(documents, name, open, chain, sections, depth, nodes)
  {
    if Resolve(documents, name, map[], [], open) == Resolved(nodes) {
      var chain := ResolvedByChain(documents, name, map[], [], open);
      ViewResolves(documents, chain, open);
      var sections := Gathered(documents, chain, map[]);
      GatheredIsClosest(documents, chain, map[]);
      var root := documents[chain[|chain| - 1]].extra;
      var body := Substitute(root, sections, open, {}).nodes;
      ExpandsIffUnfolds(root, sections, open, body);
      var depth: nat :| Unfold(root, sections, open, depth) == Done(body);
      assert UnfoldsTo(documents, name, open, chain, sections, depth, nodes);
    }
    if chain, sections, depth: nat :| UnfoldsTo(documents, name, open, chain, sections, depth, nodes) {
      UnfoldedResolves(documents, name, open, chain, sections, depth, nodes);
    }
  }

  lemma UnfoldedResolves(documents: Documents, name: string, open: bool, chain: seq<string>, sections: Sections, depth: nat,
      nodes: seq<Node>)
    requires UnfoldsTo(documents, name, open, chain, sections, depth, nodes)
    ensures Resolve(documents, name, map[], [], open) == Resolved(nodes)
  {
    ViewResolves(documents, chain, open);
    GatheredIsClosest(documents, chain, map[]);
    ClosestIsOne(documents, chain, map[], sections, Gathered(documents, chain, map[]));
    var root := documents[chain[|chain| - 1]].extra;
    var body := Unfold(root, sections, open, depth).nodes;
    assert Unfold(root, sections, open, depth) == Done(body);
    ExpandsIffUnfolds(root, sections, open, body);
  }

  ghost predicate UnfoldsTo(documents: Documents, name: string, open: bool, chain: seq<string>, sections: Sections, depth: nat,
      nodes: seq<Node>)
  {
    && IsChain(documents, chain) && chain[0] == name
    && Closest(documents, chain, map[], sections)
    && var body := Unfold(documents[chain[|chain| - 1]].extra, sections, open, depth);
    body.Done? && nodes == Hoisted(documents, chain) + body.nodes
  }

  lemma ViewResolves(documents: Documents, chain: seq<string>, open: bool)
    requires IsChain(documents, chain)
    ensures Resolve(documents, chain[0], map[], [], open) == AtRoot(documents, chain, Gathered(documents, chain, map[]), open)
  {
    forall i, j | 0 <= i < j < |chain|
      ensures chain[i] != chain[j]
    {
      ChainIsSimple(documents, chain, i, j);
    }
    ChainResolves(documents, chain, map[], [], open);
  }

  /** Yields are reported circular exactly when, at the end of a chain, some section reaches itself. */
  lemma YieldCycleIff(documents: Documents, name: string, open: bool)
    ensures Resolve(documents, name, map[], [], open) == Failed(YieldCycle) <==>
              exists chain, sections :: EndsCircular(documents, name, chain, sections)
  {
    if Resolve(documents, name, map[], [], open) == Failed(YieldCycle) {
      var chain := ResolvedByChain(documents, name, map[], [], open);
      var sections := Gathered(documents, chain, map[]);
      ViewResolves(documents, chain, open);
      GatheredIsClosest(documents, chain, map[]);
      CycleReportedIff(documents[chain[|chain| - 1]].extra, sections, open);
      assert EndsCircular(documents, name, chain, sections);
    }
    if chain, sections :| EndsCircular(documents, name, chain, sections) {
      ViewResolves(documents, chain, open);
      GatheredIsClosest(documents, chain, map[]);
      ClosestIsOne(documents, chain, map[], sections, Gathered(documents, chain, map[]));
      CycleReportedIff(documents[chain[|chain| - 1]].extra, sections, open);
    }
  }

  ghost predicate EndsCircular(documents: Documents, name: string, chain: seq<string>, sections: Sections) {
    && IsChain(documents, chain) && chain[0] == name
    && Closest(documents, chain, map[], sections)
    && Circular(documents[chain[|chain| - 1]].extra, sections, {})
  }

  // ---- inheritance cycles -----------------------------------------------------------------------

  /** The walk ends at a document entered before. */
  predicate Revisits(stack: seq<string>, p: seq<string>) {
    p != [] && (p[|p| - 1] in stack || exists i :: 0 <= i < |p| - 1 && p[i] == p[|p| - 1])
  }

  lemma {:induction false} CycleIsWalked(documents: Documents, name: string, inherited: Sections, stack: seq<string>, open: bool)
    returns (p: seq<string>)
    requires Resolve(documents, name, inherited, stack, open) == Failed(InheritanceCycle)
    ensures Walk(documents, p) && Revisits(stack, p) && p[0] == name
    decreases |documents.Keys - Entered(stack)|
  {
    if name in stack {
      p := [name];
    } else {
      EnteringShrinks(documents, stack, name);
      var doc := documents[name];
      var rest := CycleIsWalked(documents, doc.layout, doc.sections + inherited, stack + [name], open);
      p := [name] + rest;
      var last := rest[|rest| - 1];
      if i :| 0 <= i < |rest| - 1 && rest[i] == last {
        assert p[i + 1] == last;
      } else {
        assert last in stack || p[0] == last;
      }
    }
  }

  lemma {:induction false} WalkedCycleIsReported(documents: Documents, p: seq<string>, inherited: Sections, stack: seq<string>, open: bool)
    requires Walk(documents, p) && Revisits(stack, p)
    ensures Resolve(documents, p[0], inherited, stack, open) == Failed(InheritanceCycle)
    decreases |p|
  {
    if p[0] !in stack {
      var rest := p[1..];
      assert documents[p[1 - 1]].layout == p[1];
      assert rest[|rest| - 1] == p[|p| - 1];
      if i :| 0 <= i < |p| - 1 && p[i] == p[|p| - 1] {
        if i > 0 {
          assert rest[i - 1] == rest[|rest| - 1];
        }
      }
      WalkedCycleIsReported(documents, rest, documents[p[0]].sections + inherited, stack + [p[0]], open);
    }
  }

  /** An inheritance cycle is reported exactly when following layouts from the view meets a document twice. */
  lemma InheritanceCycleIff(documents: Documents, name: string, open: bool)
    ensures Resolve(documents, name, map[], [], open) == Failed(InheritanceCycle) <==>
              exists p :: Walk(documents, p) && Revisits([], p) && p[0] == name
  {
    if Resolve(documents, name, map[], [], open) == Failed(InheritanceCycle) {
      var p := CycleIsWalked(documents, name, map[], [], open);
    }
    if p :| Walk(documents, p) && Revisits([], p) && p[0] == name {
      WalkedCycleIsReported(documents, p, map[], [], open);
    }
  }

  // ---- the compiler's own loops -------------------------------------------------------------------

  /** The sections being expanded: one table shared by every call below one resolve. */
  class Resolving {
    var names: set<string>

    constructor ()
      ensures names == {}
    {
      names := {};
    }
  }

  /** Expands the nodes in order, leaving the shared table as it was on every return. */
  method SubstituteYields(nodes: seq<Node>, sections: Sections, open: bool, resolving: Resolving) returns (result: Expansion)
    modifies resolving
    ensures result == Substitute(nodes, sections, open, old(resolving.names))
    ensures resolving.names == old(resolving.names)
    decreases |sections.Keys - resolving.names|, nodes, 1
  {
    ghost var before := resolving.names;
    var done := [];
    for i := 0 to |nodes|
      invariant resolving.names == before
      invariant Append(Done(done), Substitute(nodes[i..], sections, open, before)) == Substitute(nodes, sections, open, before)
    {
      NextNode(nodes, i, done, sections, open, before);
      var expanded := SubstituteItem(nodes[i], sections, open, resolving);
      if expanded.Cycle? {
        return Cycle;
      }
      done := done + expanded.nodes;
    }
    result := Done(done);
  }

  lemma NextNode(nodes: seq<Node>, i: nat, done: seq<Node>, sections: Sections, open: bool, names: set<string>)
    requires i < |nodes|
    ensures var next := SubstituteNode(nodes[i], sections, open, names);
      Append(Done(done), Substitute(nodes[i..], sections, open, names))
      == if next.Cycle? then Cycle else Append(Done(done + next.nodes), Substitute(nodes[i + 1..], sections, open, names))
  {
    assert nodes[i..][1..] == nodes[i + 1..];
    var next := SubstituteNode(nodes[i], sections, open, names);
    var rest := Substitute(nodes[i + 1..], sections, open, names);
    if next.Done? && rest.Done? {
      assert done + (next.nodes + rest.nodes) == done + next.nodes + rest.nodes;
    }
  }

  method SubstituteItem(item: Node, sections: Sections, open: bool, resolving: Resolving) returns (result: Expansion)
    modifies resolving
    ensures result == SubstituteNode(item, sections, open, old(resolving.names))
    ensures resolving.names == old(resolving.names)
    decreases |sections.Keys - resolving.names|, item, 1
  {
    if IsYield(item) {
      if item.name !in sections {
        return if open then Done([]) else Done([item]);
      }
      if item.name in resolving.names {
        return Cycle;
      }
      Shrinks(sections.Keys, resolving.names, item.name);
      resolving.names := resolving.names + {item.name};
      result := SubstituteYields(sections[item.name], sections, open, resolving);
      resolving.names := resolving.names - {item.name};
      return;
    }
    match item {
      case Block(_, _, _, _, _, _, children) =>
        var c := SubstituteYields(children, sections, open, resolving);
        result := if c.Cycle? then Cycle else Done([Refilled(item, c.nodes)]);
      case Control(_, _, _, _, _, children, branches, alternate) =>
        result := SubstituteControl(item, sections, open, resolving);
      case _ =>
        result := Done([item]);
    }
  }

  method SubstituteControl(item: Node, sections: Sections, open: bool, resolving: Resolving) returns (result: Expansion)
    requires item.Control?
    modifies resolving
    ensures result == SubstituteNode(item, sections, open, old(resolving.names))
    ensures resolving.names == old(resolving.names)
    decreases |sections.Keys - resolving.names|, item, 0
  {
    var c := SubstituteYields(item.children, sections, open, resolving);
    if c.Cycle? {
      return Cycle;
    }
    var a: Expansion := Done([]);
    if item.alternate.Alternate? {
      a := SubstituteYields(item.alternate.nodes, sections, open, resolving);
      if a.Cycle? {
        return Cycle;
      }
    }
    var b := SubstituteBranches(item.branches, sections, open, resolving);
    result := if b.None? then Cycle else Done([Rebuilt(item, c.nodes, b.value, a.nodes)]);
  }

  method SubstituteBranches(branches: seq<Branch>, sections: Sections, open: bool, resolving: Resolving)
    returns (result: Option<seq<Branch>>)
    modifies resolving
    ensures result == SubstituteAll(branches, sections, open, old(resolving.names))
    ensures resolving.names == old(resolving.names)
    decreases |sections.Keys - resolving.names|, branches, 0
  {
    ghost var before := resolving.names;
    ghost var all := SubstituteAll(branches, sections, open, before);
    var done := [];
    assert branches[0..] == branches && (all.Some? ==> [] + all.value == all.value);
    for i := 0 to |branches|
      invariant resolving.names == before
      invariant Preceded(done, SubstituteAll(branches[i..], sections, open, before)) == all
    {
      NextBranch(branches, i, done, sections, open, before);
      var expanded := SubstituteYields(branches[i].nodes, sections, open, resolving);
      if expanded.Cycle? {
        return None;
      }
      done := done + [branches[i].(nodes := expanded.nodes)];
    }
    assert done + [] == done;
    result := Some(done);
  }

  ghost function Preceded(done: seq<Branch>, rest: Option<seq<Branch>>): Option<seq<Branch>> {
    if rest.None? then None else Some(done + rest.value)
  }

  lemma NextBranch(branches: seq<Branch>, i: nat, done: seq<Branch>, sections: Sections, open: bool, names: set<string>)
    requires i < |branches|
    ensures var next := Substitute(branches[i].nodes, sections, open, names);
      Preceded(done, SubstituteAll(branches[i..], sections, open, names))
      == if next.Cycle? then None
         else Preceded(done + [branches[i].(nodes := next.nodes)], SubstituteAll(branches[i + 1..], sections, open, names))
  {
    assert branches[i..][1..] == branches[i + 1..];
    var next := Substitute(branches[i].nodes, sections, open, names);
    var rest := SubstituteAll(branches[i + 1..], sections, open, names);
    if next.Done? && rest.Some? {
      var one := [branches[i].(nodes := next.nodes)];
      assert done + (one + rest.value) == done + one + rest.value;
    }
  }

  method ResolveView(documents: Documents, name: string, inherited: Sections, stack: seq<string>, open: bool)
    returns (result: Resolution)
    ensures result == Resolve(documents, name, inherited, stack, open)
    decreases |documents.Keys - Entered(stack)|
  {
    if name !in documents {
      return Failed(UnknownView);
    }
    for i := 0 to |stack|
      invariant name !in stack[..i]
    {
      if stack[i] == name {
        return Failed(InheritanceCycle);
      }
    }
    var doc := documents[name];
    var sections := doc.sections + inherited;
    if doc.layout == "" {
      var resolving := new Resolving();
      var expanded := SubstituteYields(doc.extra, sections, open, resolving);
      return if expanded.Cycle? then Failed(YieldCycle) else Resolved(expanded.nodes);
    }
    if doc.layout !in documents {
      return Failed(UnknownLayout);
    }
    if documents[doc.layout].component {
      return Failed(ComponentLayout);
    }
    EnteringShrinks(documents, stack, name);
    var resolved := ResolveView(documents, doc.layout, sections, stack + [name], open);
    if resolved.Failed? {
      return resolved;
    }
    var pushes := CollectPushes(doc.extra);
    result := Resolved(pushes + resolved.nodes);
  }

  method CollectPushes(nodes: seq<Node>) returns (pushes: seq<Node>)
    ensures pushes == Pushes(nodes)
  {
    pushes := [];
    for i := 0 to |nodes|
      invariant pushes + Pushes(nodes[i..]) == Pushes(nodes)
    {
      NextPush(nodes, i, pushes);
      if IsPush(nodes[i]) {
        pushes := pushes + [nodes[i]];
      }
    }
  }

  lemma NextPush(nodes: seq<Node>, i: nat, done: seq<Node>)
    requires i < |nodes|
    ensures done + Pushes(nodes[i..])
         == (if IsPush(nodes[i]) then done + [nodes[i]] else done) + Pushes(nodes[i + 1..])
  {
    assert nodes[i..][1..] == nodes[i + 1..];
  }
}
