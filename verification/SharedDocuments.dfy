/** The documents as the views compiled so far have left them. */
module SharedDocuments {
  import opened Basics
  import opened Runes
  import opened SourceMap
  import opened ViewNodes
  import opened Yields
  import opened Layouts
  import opened SharedBranches

  /** The sections that are expanded on the way, also inside each other. */
  function Reached(nodes: seq<Node>, sections: Sections, resolving: set<string>): set<string>
    decreases |sections.Keys - resolving|, nodes, 1
  {
    if nodes == [] then {} else ReachedBy(nodes[0], sections, resolving) + Reached(nodes[1..], sections, resolving)
  }

  function ReachedBy(item: Node, sections: Sections, resolving: set<string>): set<string>
    decreases |sections.Keys - resolving|, item, 0
  {
    if IsYield(item) then
      if item.name !in sections || item.name in resolving then {}
      else
        Shrinks(sections.Keys, resolving, item.name);
        {item.name} + Reached(sections[item.name], sections, resolving + {item.name})
    else
      match item
      case Block(_, _, _, _, _, _, children) => Reached(children, sections, resolving)
      case Control(_, _, _, _, _, children, branches, alternate) =>
        Reached(children, sections, resolving) + ReachedByAny(branches, sections, resolving) +
        if alternate.Alternate? then Reached(alternate.nodes, sections, resolving) else {}
      case _ => {}
  }

  function ReachedByAny(branches: seq<Branch>, sections: Sections, resolving: set<string>): set<string>
    decreases |sections.Keys - resolving|, branches, 0
  {
    if branches == [] then {}
    else Reached(branches[0].nodes, sections, resolving) + ReachedByAny(branches[1..], sections, resolving)
  }

  /** Which document a section comes from. */
  type Owners = map<string, string>

  function Owned(doc: Document, name: string): Owners {
    map s | s in doc.sections :: name
  }

  /** A document once a layout was expanded: the layout's branches, and those of the sections that were reached. */
  function TouchedDocument(doc: Document, name: string, root: string, sections: Sections, owners: Owners, reached: set<string>,
      open: bool): Document
  {
    doc.(extra := if name == root then Touched(doc.extra, sections, open) else doc.extra,
         sections := map s | s in doc.sections ::
           if s in reached && s in owners && owners[s] == name then Touched(doc.sections[s], sections, open) else doc.sections[s])
  }

  /** The documents after a view was resolved; a resolution that fails ends the whole run. */
  function After(documents: Documents, name: string, inherited: Sections, owners: Owners, stack: seq<string>, open: bool): Documents
    decreases |documents.Keys - Entered(stack)|
  {
    if name !in documents || name in stack then documents
    else
      var doc := documents[name];
      var sections := doc.sections + inherited;
      var owned := Owned(doc, name) + owners;
      if doc.layout != "" then
        if doc.layout !in documents || documents[doc.layout].component then documents
        else
          EnteringShrinks(documents, stack, name);
          After(documents, doc.layout, sections, owned, stack + [name], open)
      else
        var reached := Reached(doc.extra, sections, {});
        map d | d in documents :: TouchedDocument(documents[d], d, name, sections, owned, reached, open)
  }

  // ---- without yields in branches every view is fresh ------------------------------------------------------------

  /** No branch of the document holds a yield. */
  predicate PlainDocument(doc: Document) {
    && FixedBranches(doc.extra, {}, true)
    && forall s :: s in doc.sections ==> FixedBranches(doc.sections[s], {}, true)
  }

  ghost predicate PlainDocuments(documents: Documents) {
    forall name :: name in documents ==> PlainDocument(documents[name])
  }

  /** Nodes without a yield are settled for every view. */
  lemma {:induction false} PlainIsSettled(nodes: seq<Node>, names: set<string>, open: bool)
    requires Settled(nodes, {}, true)
    ensures Settled(nodes, names, open)
    decreases nodes, 1
  {
    if nodes != [] {
      PlainNodeIsSettled(nodes[0], names, open);
      PlainIsSettled(nodes[1..], names, open);
    }
  }

  lemma {:induction false} PlainNodeIsSettled(node: Node, names: set<string>, open: bool)
    requires SettledNode(node, {}, true)
    ensures SettledNode(node, names, open)
    decreases node, 0
  {
    match node
    case Block(_, _, _, _, _, _, children) => PlainIsSettled(children, names, open);
    case Control(_, _, _, _, _, children, branches, alternate) =>
      PlainIsSettled(children, names, open);
      PlainBranchesAreSettled(branches, names, open);
      if alternate.Alternate? {
        PlainIsSettled(alternate.nodes, names, open);
      }
    case _ =>
  }

  lemma {:induction false} PlainBranchesAreSettled(branches: seq<Branch>, names: set<string>, open: bool)
    requires SettledBranches(branches, {}, true)
    ensures SettledBranches(branches, names, open)
    decreases branches, 0
  {
    if branches != [] {
      PlainIsSettled(branches[0].nodes, names, open);
      PlainBranchesAreSettled(branches[1..], names, open);
    }
  }

  lemma {:induction false} PlainIsFixed(nodes: seq<Node>, names: set<string>, open: bool)
    requires FixedBranches(nodes, {}, true)
    ensures FixedBranches(nodes, names, open)
    decreases nodes, 1
  {
    if nodes != [] {
      PlainNodeIsFixed(nodes[0], names, open);
      PlainIsFixed(nodes[1..], names, open);
    }
  }

  lemma {:induction false} PlainNodeIsFixed(node: Node, names: set<string>, open: bool)
    requires FixedBranchesIn(node, {}, true)
    ensures FixedBranchesIn(node, names, open)
    decreases node, 0
  {
    match node
    case Block(_, _, _, _, _, _, children) => PlainIsFixed(children, names, open);
    case Control(_, _, _, _, _, children, branches, alternate) =>
      PlainIsFixed(children, names, open);
      PlainBranchesAreSettled(branches, names, open);
      if alternate.Alternate? {
        PlainIsFixed(alternate.nodes, names, open);
      }
    case _ =>
  }

  lemma PlainStays(doc: Document, name: string, root: string, sections: Sections, owners: Owners, reached: set<string>, open: bool)
    requires PlainDocument(doc)
    ensures TouchedDocument(doc, name, root, sections, owners, reached, open) == doc
  {
    PlainIsFixed(doc.extra, sections.Keys, open);
    FixedStays(doc.extra, sections, open);
    forall s | s in doc.sections
      ensures Touched(doc.sections[s], sections, open) == doc.sections[s]
    {
      PlainIsFixed(doc.sections[s], sections.Keys, open);
      FixedStays(doc.sections[s], sections, open);
    }
    var touched := TouchedDocument(doc, name, root, sections, owners, reached, open);
    assert touched.sections == doc.sections;
  }

  /** When no branch of any document holds a yield, a view leaves the documents as they were. */
  lemma {:induction false} PlainAfter(documents: Documents, name: string, inherited: Sections, owners: Owners, stack: seq<string>,
      open: bool)
    requires PlainDocuments(documents)
    ensures After(documents, name, inherited, owners, stack, open) == documents
    decreases |documents.Keys - Entered(stack)|
  {
    if name in documents && name !in stack {
      var doc := documents[name];
      var sections := doc.sections + inherited;
      var owned := Owned(doc, name) + owners;
      if doc.layout == "" {
        forall d | d in documents
          ensures TouchedDocument(documents[d], d, name, sections, owned, Reached(doc.extra, sections, {}), open) == documents[d]
        {
          PlainStays(documents[d], d, name, sections, owned, Reached(doc.extra, sections, {}), open);
        }
      } else if doc.layout in documents && !documents[doc.layout].component {
        EnteringShrinks(documents, stack, name);
        PlainAfter(documents, doc.layout, sections, owned, stack + [name], open);
      }
    }
  }

  // ---- with one, some view is not ------------------------------------------------------------------------------------

  /** A further view with nothing but a layout and sections. */
  function WithView(documents: Documents, view: string, layout: string, sections: Sections): Documents {
    documents[view := Document(layout, sections, [], false, [])]
  }

  /** A layout that has itself no layout, and takes its sections from the views. */
  predicate IsRoot(documents: Documents, layout: string) {
    && layout != "" && layout in documents && documents[layout].layout == "" && !documents[layout].component
    && documents[layout].sections == map[]
  }

  lemma FurtherViewResolves(documents: Documents, view: string, layout: string, sections: Sections, open: bool)
    requires IsRoot(documents, layout) && view != layout
    ensures Resolve(WithView(documents, view, layout, sections), view, map[], [], open)
         == match Substitute(documents[layout].extra, sections, open, {})
            case Cycle => Failed(YieldCycle)
            case Done(nodes) => Resolved(nodes)
  {
    var all := WithView(documents, view, layout, sections);
    EnteringShrinks(all, [], view);
    assert sections + map[] == sections && map[] + sections == sections;
    var r := Resolve(all, layout, sections, [view], open);
    assert Resolve(all, view, map[], [], open) == Below(Pushes([]), r);
    if r.Resolved? {
      assert [] + r.nodes == r.nodes;
    }
  }

  /** The first view, over its layout, leaves the layout as an expansion with its sections does. */
  lemma AfterFirst(documents: Documents, first: string, layout: string, sections: Sections, open: bool)
    requires IsRoot(documents, layout) && first != layout
    ensures var later := After(WithView(documents, first, layout, sections), first, map[], map[], [], open);
      && IsRoot(later, layout) && later[layout].extra == Touched(documents[layout].extra, sections, open)
  {
    var all := WithView(documents, first, layout, sections);
    EnteringShrinks(all, [], first);
    assert sections + map[] == sections && map[] + sections == sections;
    var owned := Owned(all[first], first) + map[];
    var later := After(all, layout, sections, owned, [first], open);
    assert After(all, first, map[], map[], [], open) == later;
    assert later[layout].sections == map[];
  }

  /** Every view that uses the layout after the first one resolves as if it were the first. */
  ghost predicate LaterViewsAreFresh(documents: Documents, first: string, layout: string, sections: Sections, open: bool, view: string) {
    var later := After(WithView(documents, first, layout, sections), first, map[], map[], [], open);
    forall other: Sections, dropping: bool ::
      Resolve(WithView(later, view, layout, other), view, map[], [], dropping)
      == Resolve(WithView(documents, view, layout, other), view, map[], [], dropping)
  }

  /** That holds exactly when no @elseif branch of the layout has a yield that the first view replaced or dropped. */
  lemma LaterViewsAreFreshIff(documents: Documents, first: string, layout: string, sections: Sections, open: bool, view: string)
    requires IsRoot(documents, layout) && first != layout && view != layout
    requires Substitute(documents[layout].extra, sections, open, {}).Done?
    ensures LaterViewsAreFresh(documents, first, layout, sections, open, view) <==>
              FixedBranches(documents[layout].extra, sections.Keys, open)
  {
    var later := After(WithView(documents, first, layout, sections), first, map[], map[], [], open);
    AfterFirst(documents, first, layout, sections, open);
    ServesAllIff(documents[layout].extra, sections, open);
    forall other: Sections, dropping: bool
      ensures (Resolve(WithView(later, view, layout, other), view, map[], [], dropping)
               == Resolve(WithView(documents, view, layout, other), view, map[], [], dropping))
              == (Substitute(Touched(documents[layout].extra, sections, open), other, dropping, {})
                  == Substitute(documents[layout].extra, other, dropping, {}))
    {
      FurtherViewResolves(later, view, layout, other, dropping);
      FurtherViewResolves(documents, view, layout, other, dropping);
    }
  }

  // ---- an input that shows it ------------------------------------------------------------------------------------------

  const NOWHERE := Span("", 0, 0, Place(0, 0))

  function Words(text: Bytes): Node {
    Text(text, NOWHERE)
  }

  /** @if with a text, and these nodes in an @elseif. */
  function Branched(nodes: seq<Node>): Node {
    Control(If, [], 0, 0, NOWHERE, [Words([120])], [Branch([], NOWHERE, nodes)], NoAlternate)
  }

  const CONTENT := Leaf(Yield, "c", [], NOWHERE)

  /** A layout with a yield in an @elseif. */
  const SITE: Documents := map["l" := Document("", map[], [Branched([CONTENT])], false, [])]

  lemma BranchedExpands(body: seq<Node>, sections: Sections, result: seq<Node>)
    requires Substitute(body, sections, false, {}) == Done(result)
    ensures Substitute([Branched(body)], sections, false, {}) == Done([Branched(result)])
    ensures Touched([Branched(body)], sections, false) == [Branched(result)]
  {
    var text := [Words([120])];
    assert text[1..] == [] && Substitute(text, sections, false, {}) == Done(text);
    assert Touched(text, sections, false) == text;
    var branches := [Branch([], NOWHERE, body)];
    assert branches[1..] == [] && SubstituteAll(branches[1..], sections, false, {}) == Some([]);
    assert [branches[0].(nodes := result)] + [] == [Branch([], NOWHERE, result)];
    assert SubstituteAll(branches, sections, false, {}) == Some([Branch([], NOWHERE, result)]);
    assert Written(branches, sections, false) == [Branch([], NOWHERE, result)];
    assert [Branched(body)][1..] == [];
    assert SubstituteNode(Branched(body), sections, false, {}) == Done([Branched(result)]);
  }

  lemma TextExpands(text: Node, sections: Sections, resolving: set<string>)
    requires text.Text?
    ensures Substitute([text], sections, false, resolving) == Done([text])
  {
    assert [text][1..] == [];
  }

  lemma ContentExpands(text: Node)
    requires text.Text?
    ensures Substitute([CONTENT], map["c" := [text]], false, {}) == Done([text])
  {
    TextExpands(text, map["c" := [text]], {} + {"c"});
    assert [CONTENT][1..] == [];
  }

  /** Two views with a section each: the second one gets the section of the first. */
  lemma SecondViewGetsTheFirst(one: Node, two: Node)
    requires one.Text? && two.Text?
    ensures Resolve(WithView(SITE, "b", "l", map["c" := [two]]), "b", map[], [], false) == Resolved([Branched([two])])
    ensures var later := After(WithView(SITE, "a", "l", map["c" := [one]]), "a", map[], map[], [], false);
      Resolve(WithView(later, "b", "l", map["c" := [two]]), "b", map[], [], false) == Resolved([Branched([one])])
  {
    ContentExpands(one);
    ContentExpands(two);
    BranchedExpands([CONTENT], map["c" := [two]], [two]);
    FurtherViewResolves(SITE, "b", "l", map["c" := [two]], false);
    BranchedExpands([CONTENT], map["c" := [one]], [one]);
    AfterFirst(SITE, "a", "l", map["c" := [one]], false);
    TextExpands(one, map["c" := [two]], {});
    BranchedExpands([one], map["c" := [two]], [one]);
    FurtherViewResolves(After(WithView(SITE, "a", "l", map["c" := [one]]), "a", map[], map[], [], false), "b", "l",
                        map["c" := [two]], false);
  }
}
