/** What a parsed file is for: a component, a page, or a page with a layout and sections. */
module ViewOrganize {
  import opened Basics
  import opened Filters
  import opened SourceMap
  import opened ViewNodes
  import opened ViewCompile
  import opened Yields
  import opened Layouts

  /** Which texts are blank, which properties a component may declare, and where attributes may be used. */
  datatype Rules = Rules(blank: Bytes -> bool, declares: Bytes -> bool, consumes: (bool, seq<Node>) -> bool)

  predicate IsBlank(rules: Rules, node: Node) {
    node.Text? && rules.blank(node.text)
  }

  predicate IsLeafOf(node: Node, k: Keyword) {
    node.Leaf? && node.kind == k
  }

  predicate IsSection(node: Node) {
    node.Block? && node.kind == Section
  }

  /** The first node that is not blank. */
  function First(rules: Rules, nodes: seq<Node>): (i: nat)
    ensures i <= |nodes| && (i < |nodes| ==> !IsBlank(rules, nodes[i]))
    ensures forall j :: 0 <= j < i ==> IsBlank(rules, nodes[j])
  {
    if nodes == [] || !IsBlank(rules, nodes[0]) then 0 else 1 + First(rules, nodes[1..])
  }

  /** Some section stands in the nodes, at any depth. */
  predicate HasSection(nodes: seq<Node>)
    decreases nodes, 1
  {
    nodes != [] && (HasSectionIn(nodes[0]) || HasSection(nodes[1..]))
  }

  predicate HasSectionIn(node: Node)
    decreases node, 0
  {
    match node
    case Block(k, _, _, _, _, _, children) => k == Section || HasSection(children)
    case Control(_, _, _, _, _, children, branches, alternate) =>
      HasSection(children) || HasSectionInBranches(branches) || (alternate.Alternate? && HasSection(alternate.nodes))
    case _ => false
  }

  predicate HasSectionInBranches(branches: seq<Branch>)
    decreases branches, 0
  {
    branches != [] && (HasSection(branches[0].nodes) || HasSectionInBranches(branches[1..]))
  }

  /** A @push stands neither in a component, nor in a call of one, nor where it would be reached only sometimes. */
  predicate PushesAreStatic(nodes: seq<Node>, fixed: bool)
    decreases nodes, 1
  {
    nodes == [] || (PushIsStatic(nodes[0], fixed) && PushesAreStatic(nodes[1..], fixed))
  }

  predicate PushIsStatic(node: Node, fixed: bool)
    decreases node, 0
  {
    match node
    case Block(k, _, _, _, _, _, children) => (k == Push ==> fixed) && PushesAreStatic(children, fixed && k != Component)
    case Control(_, _, _, _, _, children, branches, alternate) =>
      && PushesAreStatic(children, false) && BranchPushesAreStatic(branches)
      && (alternate.Alternate? ==> PushesAreStatic(alternate.nodes, false))
    case _ => true
  }

  predicate BranchPushesAreStatic(branches: seq<Branch>)
    decreases branches, 0
  {
    branches == [] || (PushesAreStatic(branches[0].nodes, false) && BranchPushesAreStatic(branches[1..]))
  }

  /** The layout that the first directive names. */
  function LayoutOf(rules: Rules, nodes: seq<Node>): string {
    var first := First(rules, nodes);
    if first < |nodes| && IsLeafOf(nodes[first], Extends) then nodes[first].name else ""
  }

  /** The node has no place here in a page. */
  predicate Wrong(rules: Rules, nodes: seq<Node>, i: nat)
    requires i < |nodes|
  {
    var layout := LayoutOf(rules, nodes);
    || (IsLeafOf(nodes[i], Extends) && i != First(rules, nodes))
    || IsLeafOf(nodes[i], Props)
    || (IsSection(nodes[i]) && (layout == "" || HasSection(nodes[i].children) || SectionBefore(nodes, i, nodes[i].name)))
    || (&& layout != "" && !IsLeafOf(nodes[i], Extends) && !IsSection(nodes[i]) && !IsPush(nodes[i])
        && !IsBlank(rules, nodes[i]))
  }

  /** An earlier section has this name. */
  predicate SectionBefore(nodes: seq<Node>, i: nat, name: string)
    requires i <= |nodes|
  {
    exists j :: 0 <= j < i && IsSection(nodes[j]) && nodes[j].name == name
  }

  function SectionsOf(nodes: seq<Node>): Sections {
    if nodes == [] then map[]
    else
      var last := nodes[|nodes| - 1];
      var before := SectionsOf(nodes[..|nodes| - 1]);
      if IsSection(last) then before[last.name := last.children] else before
  }

  function ExtraOf(nodes: seq<Node>): seq<Node> {
    if nodes == [] then []
    else
      var last := nodes[|nodes| - 1];
      ExtraOf(nodes[..|nodes| - 1]) + if IsLeafOf(last, Extends) || IsSection(last) then [] else [last]
  }

  /** The document a parsed file makes, if it makes one. */
  function Organized(rules: Rules, component: bool, nodes: seq<Node>): Option<Document> {
    var first := First(rules, nodes);
    if component then
      if first == |nodes| || !IsLeafOf(nodes[first], Props) || !rules.declares(nodes[first].raw) then None
      else
        var body := nodes[..first] + nodes[first + 1..];
        if PushesAreStatic(body, false) && rules.consumes(true, body) then Some(Document("", map[], [], true, body)) else None
    else if exists i :: 0 <= i < |nodes| && Wrong(rules, nodes, i) then None
    else if PushesAreStatic(nodes, true) && rules.consumes(false, nodes) then
      Some(Document(LayoutOf(rules, nodes), SectionsOf(nodes), ExtraOf(nodes), false, nodes))
    else None
  }

  /** The last section of its name. */
  predicate IsLatest(nodes: seq<Node>, i: nat) {
    i < |nodes| && IsSection(nodes[i]) && forall j :: i < j < |nodes| && IsSection(nodes[j]) ==> nodes[j].name != nodes[i].name
  }

  /** The sections are the @section blocks by name. */
  lemma {:induction false} SectionNames(nodes: seq<Node>, name: string)
    ensures name in SectionsOf(nodes) <==> SectionBefore(nodes, |nodes|, name)
    decreases |nodes|
  {
    if nodes != [] {
      var front := nodes[..|nodes| - 1];
      SectionNames(front, name);
      BeforeStep(nodes, |front|, name);
      BeforePrefix(nodes, |front|, name);
    }
  }

  lemma BeforeStep(nodes: seq<Node>, i: nat, name: string)
    requires i < |nodes|
    ensures SectionBefore(nodes, i + 1, name) <==> SectionBefore(nodes, i, name) || (IsSection(nodes[i]) && nodes[i].name == name)
  {
  }

  lemma BeforePrefix(nodes: seq<Node>, i: nat, name: string)
    requires i <= |nodes|
    ensures SectionBefore(nodes[..i], i, name) <==> SectionBefore(nodes, i, name)
  {
    if j :| 0 <= j < i && IsSection(nodes[j]) && nodes[j].name == name {
      assert IsSection(nodes[..i][j]);
    }
    if j :| 0 <= j < i && IsSection(nodes[..i][j]) && nodes[..i][j].name == name {
      assert IsSection(nodes[j]);
    }
  }

  lemma {:induction false} LatestCounts(nodes: seq<Node>, i: nat)
    requires IsLatest(nodes, i)
    ensures nodes[i].name in SectionsOf(nodes) && SectionsOf(nodes)[nodes[i].name] == nodes[i].children
    decreases |nodes|
  {
    if i < |nodes| - 1 {
      var front := nodes[..|nodes| - 1];
      assert IsLatest(front, i);
      LatestCounts(front, i);
    }
  }

  /** In a page every section is the only one of its name, and the sections are exactly they. */
  lemma SectionsOfPage(rules: Rules, nodes: seq<Node>, i: nat)
    requires Organized(rules, false, nodes).Some? && i < |nodes| && IsSection(nodes[i])
    ensures var sections := Organized(rules, false, nodes).value.sections;
      nodes[i].name in sections && sections[nodes[i].name] == nodes[i].children
  {
    forall j | i < j < |nodes| && IsSection(nodes[j])
      ensures nodes[j].name != nodes[i].name
    {
      assert !Wrong(rules, nodes, j);
    }
    LatestCounts(nodes, i);
  }

  // ---- the rest of a page ------------------------------------------------------------------------------------

  /** What is neither @extends nor @section. */
  function IsExtra(): Node -> bool {
    (n: Node) => !(n.Leaf? && n.kind == Extends) && !(n.Block? && n.kind == Section)
  }

  lemma {:induction false} ExtraIsFiltered(nodes: seq<Node>)
    ensures Filtered(nodes, IsExtra(), ExtraOf(nodes))
    decreases |nodes|
  {
    if nodes != [] {
      var front, last := nodes[..|nodes| - 1], nodes[|nodes| - 1];
      ExtraIsFiltered(front);
      FilteredOne(last, IsExtra());
      FilteredJoins(front, ExtraOf(front), [last], if IsExtra()(last) then [last] else [], IsExtra());
      assert front + [last] == nodes;
    }
  }

  /** The first node that is not blank is an @extends. */
  predicate StartsWithLayout(rules: Rules, nodes: seq<Node>) {
    exists i :: 0 <= i < |nodes| && IsLayoutAt(rules, nodes, i)
  }

  predicate IsLayoutAt(rules: Rules, nodes: seq<Node>, i: nat)
    requires i < |nodes|
  {
    && nodes[i].Leaf? && nodes[i].kind == Extends
    && forall j :: 0 <= j < i ==> nodes[j].Text? && rules.blank(nodes[j].text)
  }

  lemma FirstIsLayout(rules: Rules, nodes: seq<Node>, i: nat)
    requires i < |nodes| && IsLayoutAt(rules, nodes, i)
    ensures First(rules, nodes) == i && LayoutOf(rules, nodes) == nodes[i].name
  {
    var first := First(rules, nodes);
    if first < i {
      assert IsBlank(rules, nodes[first]);
    }
  }

  /** What an accepted page keeps of its parse: every node that is neither @extends nor @section, once and in order, and
      nothing else. Its layout is the one its first directive names; a page that does not start with @extends has no layout
      and no sections, and keeps all of it. */
  lemma PageKeepsTheRest(rules: Rules, nodes: seq<Node>)
    requires Organized(rules, false, nodes).Some?
    ensures var doc := Organized(rules, false, nodes).value;
      && Filtered(nodes, IsExtra(), doc.extra)
      && (forall i :: 0 <= i < |nodes| && IsLayoutAt(rules, nodes, i) ==> doc.layout == nodes[i].name)
      && (!StartsWithLayout(rules, nodes) ==> doc.layout == "" && doc.sections == map[] && doc.extra == nodes)
      && !doc.component && doc.body == nodes
  {
    ExtraIsFiltered(nodes);
    forall i | 0 <= i < |nodes| && IsLayoutAt(rules, nodes, i)
      ensures LayoutOf(rules, nodes) == nodes[i].name
    {
      FirstIsLayout(rules, nodes, i);
    }
    if !StartsWithLayout(rules, nodes) {
      NoLayoutKeepsAll(rules, nodes);
    }
  }

  lemma NoLayoutKeepsAll(rules: Rules, nodes: seq<Node>)
    requires Organized(rules, false, nodes).Some? && !StartsWithLayout(rules, nodes)
    ensures LayoutOf(rules, nodes) == "" && SectionsOf(nodes) == map[] && ExtraOf(nodes) == nodes
  {
    var first := First(rules, nodes);
    if first < |nodes| && IsLeafOf(nodes[first], Extends) {
      assert IsLayoutAt(rules, nodes, first);
    }
    forall i | 0 <= i < |nodes|
      ensures IsExtra()(nodes[i])
    {
      assert !Wrong(rules, nodes, i);
    }
    ExtraIsFiltered(nodes);
    FilteredAll(nodes, IsExtra(), ExtraOf(nodes));
    forall name
      ensures name !in SectionsOf(nodes)
    {
      SectionNames(nodes, name);
      assert forall j :: 0 <= j < |nodes| ==> IsExtra()(nodes[j]);
    }
  }

  /** What an accepted component keeps: all but the @props it starts with, after blanks at most. */
  lemma ComponentKeepsTheRest(rules: Rules, nodes: seq<Node>) returns (i: nat)
    requires Organized(rules, true, nodes).Some?
    ensures i < |nodes| && nodes[i].Leaf? && nodes[i].kind == Props
    ensures forall j :: 0 <= j < i ==> nodes[j].Text? && rules.blank(nodes[j].text)
    ensures Organized(rules, true, nodes).value == Document("", map[], [], true, nodes[..i] + nodes[i + 1..])
  {
    i := First(rules, nodes);
  }

  /** With a layout, an accepted page has only sections, pushes and blanks beside its @extends; without one it has no
      section. No page declares properties, and no section lies in another. */
  lemma PagesAreClean(rules: Rules, nodes: seq<Node>, i: nat)
    requires Organized(rules, false, nodes).Some? && i < |nodes|
    ensures !(nodes[i].Leaf? && nodes[i].kind == Props)
    ensures nodes[i].Leaf? && nodes[i].kind == Extends ==> IsLayoutAt(rules, nodes, i)
    ensures Organized(rules, false, nodes).value.layout == "" ==> !(nodes[i].Block? && nodes[i].kind == Section)
    ensures Organized(rules, false, nodes).value.layout != "" ==>
      || (nodes[i].Leaf? && nodes[i].kind == Extends) || (nodes[i].Block? && (nodes[i].kind == Section || nodes[i].kind == Push))
      || (nodes[i].Text? && rules.blank(nodes[i].text))
  {
    assert !Wrong(rules, nodes, i);
  }

  // ---- which pages are accepted --------------------------------------------------------------------------------

  /** The node is one of these or inside one of them, at any depth. */
  predicate Occurs(nodes: seq<Node>, x: Node)
    decreases nodes, 1
  {
    exists i :: 0 <= i < |nodes| && (nodes[i] == x || OccursIn(nodes[i], x))
  }

  predicate OccursIn(node: Node, x: Node)
    decreases node, 0
  {
    match node
    case Block(_, _, _, _, _, _, children) => Occurs(children, x)
    case Control(_, _, _, _, _, children, branches, alternate) =>
      || Occurs(children, x) || (exists i :: 0 <= i < |branches| && Occurs(branches[i].nodes, x))
      || (alternate.Alternate? && Occurs(alternate.nodes, x))
    case _ => false
  }

  /** It is so inside a control directive or a component call. */
  predicate OccursBound(nodes: seq<Node>, x: Node)
    decreases nodes, 1
  {
    exists i :: 0 <= i < |nodes| && OccursBoundIn(nodes[i], x)
  }

  predicate OccursBoundIn(node: Node, x: Node)
    decreases node, 0
  {
    if node.Control? || (node.Block? && node.kind == Component) then OccursIn(node, x)
    else node.Block? && OccursBound(node.children, x)
  }

  lemma {:induction false} HasSectionIff(nodes: seq<Node>)
    ensures HasSection(nodes) <==> exists x :: Occurs(nodes, x) && IsSection(x)
    decreases nodes, 1
  {
    if nodes != [] {
      HasSectionInIff(nodes[0]);
      HasSectionIff(nodes[1..]);
      OccursSplit(nodes);
    }
  }

  lemma OccursSplit(nodes: seq<Node>)
    requires nodes != []
    ensures forall x :: Occurs(nodes, x) <==> nodes[0] == x || OccursIn(nodes[0], x) || Occurs(nodes[1..], x)
    ensures forall x :: OccursBound(nodes, x) <==> OccursBoundIn(nodes[0], x) || OccursBound(nodes[1..], x)
  {
    forall x
      ensures Occurs(nodes, x) <==> nodes[0] == x || OccursIn(nodes[0], x) || Occurs(nodes[1..], x)
      ensures OccursBound(nodes, x) <==> OccursBoundIn(nodes[0], x) || OccursBound(nodes[1..], x)
    {
      var rest := nodes[1..];
      if i :| 0 <= i < |rest| && (rest[i] == x || OccursIn(rest[i], x)) {
        assert nodes[i + 1] == rest[i];
      }
      if i :| 0 <= i < |nodes| && (nodes[i] == x || OccursIn(nodes[i], x)) {
        assert i > 0 ==> rest[i - 1] == nodes[i];
      }
      if i :| 0 <= i < |rest| && OccursBoundIn(rest[i], x) {
        assert nodes[i + 1] == rest[i];
      }
      if i :| 0 <= i < |nodes| && OccursBoundIn(nodes[i], x) {
        assert i > 0 ==> rest[i - 1] == nodes[i];
      }
    }
  }

  lemma {:induction false} HasSectionInIff(node: Node)
    ensures HasSectionIn(node) <==> IsSection(node) || exists x :: OccursIn(node, x) && IsSection(x)
    decreases node, 0
  {
    match node
    case Block(_, _, _, _, _, _, children) => HasSectionIff(children);
    case Control(_, _, _, _, _, children, branches, alternate) =>
      HasSectionIff(children);
      HasSectionInBranchesIff(branches);
      if alternate.Alternate? {
        HasSectionIff(alternate.nodes);
      }
      assert forall x :: OccursIn(node, x) <==>
        Occurs(children, x) || OccursInBranches(branches, x) || (alternate.Alternate? && Occurs(alternate.nodes, x));
    case _ =>
  }

  predicate OccursInBranches(branches: seq<Branch>, x: Node) {
    exists i :: 0 <= i < |branches| && Occurs(branches[i].nodes, x)
  }

  lemma OccursInBranchesSplit(branches: seq<Branch>)
    requires branches != []
    ensures forall x :: OccursInBranches(branches, x) <==> Occurs(branches[0].nodes, x) || OccursInBranches(branches[1..], x)
  {
    forall x
      ensures OccursInBranches(branches, x) <==> Occurs(branches[0].nodes, x) || OccursInBranches(branches[1..], x)
    {
      var rest := branches[1..];
      if i :| 0 <= i < |rest| && Occurs(rest[i].nodes, x) {
        assert branches[i + 1] == rest[i];
      }
      if i :| 0 <= i < |branches| && Occurs(branches[i].nodes, x) {
        assert i > 0 ==> rest[i - 1] == branches[i];
      }
    }
  }

  lemma {:induction false} HasSectionInBranchesIff(branches: seq<Branch>)
    ensures HasSectionInBranches(branches) <==> exists x :: OccursInBranches(branches, x) && IsSection(x)
    decreases branches, 0
  {
    if branches != [] {
      HasSectionIff(branches[0].nodes);
      HasSectionInBranchesIff(branches[1..]);
      OccursInBranchesSplit(branches);
    }
  }

  lemma {:induction false} StaticIff(nodes: seq<Node>, fixed: bool)
    ensures PushesAreStatic(nodes, fixed) <==>
      !exists x :: (if fixed then OccursBound(nodes, x) else Occurs(nodes, x)) && IsPush(x)
    decreases nodes, 1
  {
    if nodes != [] {
      NodeStaticIff(nodes[0], fixed);
      StaticIff(nodes[1..], fixed);
      OccursSplit(nodes);
    }
  }

  lemma {:induction false} NodeStaticIff(node: Node, fixed: bool)
    ensures PushIsStatic(node, fixed) <==>
      && (fixed || !IsPush(node))
      && !exists x :: (if fixed then OccursBoundIn(node, x) else OccursIn(node, x)) && IsPush(x)
    decreases node, 0
  {
    match node
    case Block(k, _, _, _, _, _, children) => StaticIff(children, fixed && k != Component);
    case Control(_, _, _, _, _, children, branches, alternate) =>
      StaticIff(children, false);
      BranchesStaticIff(branches);
      if alternate.Alternate? {
        StaticIff(alternate.nodes, false);
      }
      assert forall x :: OccursIn(node, x) <==>
        Occurs(children, x) || OccursInBranches(branches, x) || (alternate.Alternate? && Occurs(alternate.nodes, x));
    case _ =>
  }

  lemma {:induction false} BranchesStaticIff(branches: seq<Branch>)
    ensures BranchPushesAreStatic(branches) <==> !exists x :: OccursInBranches(branches, x) && IsPush(x)
    decreases branches, 0
  {
    if branches != [] {
      StaticIff(branches[0].nodes, false);
      BranchesStaticIff(branches[1..]);
      OccursInBranchesSplit(branches);
    }
  }

  /** The page names a layout. */
  ghost predicate HasLayout(rules: Rules, nodes: seq<Node>) {
    exists i :: 0 <= i < |nodes| && IsLayoutAt(rules, nodes, i) && nodes[i].name != ""
  }

  /** The node may stand there in a page. */
  ghost predicate InPlace(rules: Rules, nodes: seq<Node>, i: nat)
    requires i < |nodes|
  {
    var n := nodes[i];
    && !(n.Leaf? && n.kind == Props)
    && (n.Leaf? && n.kind == Extends ==> IsLayoutAt(rules, nodes, i))
    && (n.Block? && n.kind == Section ==>
          && HasLayout(rules, nodes) && (forall x :: Occurs(n.children, x) ==> !(x.Block? && x.kind == Section))
          && (forall j :: 0 <= j < i ==> !(nodes[j].Block? && nodes[j].kind == Section && nodes[j].name == n.name)))
    && (HasLayout(rules, nodes) ==>
          || (n.Leaf? && n.kind == Extends) || (n.Block? && (n.kind == Section || n.kind == Push))
          || (n.Text? && rules.blank(n.text)))
  }

  lemma LayoutIff(rules: Rules, nodes: seq<Node>)
    ensures LayoutOf(rules, nodes) != "" <==> HasLayout(rules, nodes)
    ensures forall i :: 0 <= i < |nodes| && IsLeafOf(nodes[i], Extends) ==> (i == First(rules, nodes) <==> IsLayoutAt(rules, nodes, i))
  {
    forall i | 0 <= i < |nodes| && IsLeafOf(nodes[i], Extends)
      ensures i == First(rules, nodes) <==> IsLayoutAt(rules, nodes, i)
    {
      if IsLayoutAt(rules, nodes, i) {
        FirstIsLayout(rules, nodes, i);
      }
    }
    if i :| 0 <= i < |nodes| && IsLayoutAt(rules, nodes, i) && nodes[i].name != "" {
      FirstIsLayout(rules, nodes, i);
    }
    var first := First(rules, nodes);
    if LayoutOf(rules, nodes) != "" {
      assert IsLayoutAt(rules, nodes, first);
    }
  }

  lemma InPlaceIff(rules: Rules, nodes: seq<Node>, i: nat)
    requires i < |nodes|
    ensures InPlace(rules, nodes, i) <==> !Wrong(rules, nodes, i)
  {
    LayoutIff(rules, nodes);
    if IsSection(nodes[i]) {
      SectionInPlace(nodes, i);
    }
  }

  lemma SectionInPlace(nodes: seq<Node>, i: nat)
    requires i < |nodes| && IsSection(nodes[i])
    ensures HasSection(nodes[i].children) <==> !forall x :: Occurs(nodes[i].children, x) ==> !(x.Block? && x.kind == Section)
    ensures SectionBefore(nodes, i, nodes[i].name) <==>
      !forall j :: 0 <= j < i ==> !(nodes[j].Block? && nodes[j].kind == Section && nodes[j].name == nodes[i].name)
  {
    HasSectionIff(nodes[i].children);
    if !forall j :: 0 <= j < i ==> !(nodes[j].Block? && nodes[j].kind == Section && nodes[j].name == nodes[i].name) {
      var j :| 0 <= j < i && nodes[j].Block? && nodes[j].kind == Section && nodes[j].name == nodes[i].name;
      assert IsSection(nodes[j]);
    }
  }

  /** A page is accepted exactly when every node may stand where it does, no @push lies in a control directive or in a
      component call, and attributes are used as they may be. */
  lemma PageAcceptedIff(rules: Rules, nodes: seq<Node>)
    ensures Organized(rules, false, nodes).Some? <==>
      && (forall i :: 0 <= i < |nodes| ==> InPlace(rules, nodes, i))
      && (forall x :: OccursBound(nodes, x) ==> !(x.Block? && x.kind == Push))
      && rules.consumes(false, nodes)
  {
    forall i | 0 <= i < |nodes|
      ensures InPlace(rules, nodes, i) <==> !Wrong(rules, nodes, i)
    {
      InPlaceIff(rules, nodes, i);
    }
    StaticIff(nodes, true);
  }

  /** A component is accepted exactly when it starts with properties that may be declared, has no @push at all, and uses
      attributes as they may be. */
  lemma ComponentAcceptedIff(rules: Rules, nodes: seq<Node>)
    ensures Organized(rules, true, nodes).Some? <==>
      exists i: nat :: i < |nodes| && IsDeclaredAt(rules, nodes, i)
  {
    var first := First(rules, nodes);
    if first < |nodes| {
      StaticIff(nodes[..first] + nodes[first + 1..], false);
    }
    if Organized(rules, true, nodes).Some? {
      assert IsDeclaredAt(rules, nodes, first);
    }
    if i: nat :| i < |nodes| && IsDeclaredAt(rules, nodes, i) {
      assert first == i;
    }
  }

  ghost predicate IsDeclaredAt(rules: Rules, nodes: seq<Node>, i: nat)
    requires i < |nodes|
  {
    && nodes[i].Leaf? && nodes[i].kind == Props && rules.declares(nodes[i].raw)
    && (forall j :: 0 <= j < i ==> nodes[j].Text? && rules.blank(nodes[j].text))
    && var body := nodes[..i] + nodes[i + 1..];
    (forall x :: Occurs(body, x) ==> !(x.Block? && x.kind == Push)) && rules.consumes(true, body)
  }

  method FindFirst(rules: Rules, nodes: seq<Node>) returns (first: nat)
    ensures first == First(rules, nodes)
  {
    first := 0;
    while first < |nodes| && IsBlank(rules, nodes[first])
      invariant first <= |nodes| && first + First(rules, nodes[first..]) == First(rules, nodes)
    {
      assert nodes[first..][1..] == nodes[first + 1..];
      first := first + 1;
    }
  }

  /** Sorts the nodes of a file into its sections and the rest, or refuses it. */
  method Organize(rules: Rules, component: bool, nodes: seq<Node>) returns (result: Option<Document>)
    ensures result == Organized(rules, component, nodes)
  {
    var first := FindFirst(rules, nodes);
    if component {
      if first == |nodes| || !IsLeafOf(nodes[first], Props) || !rules.declares(nodes[first].raw) {
        return None;
      }
      var body := nodes[..first] + nodes[first + 1..];
      return if PushesAreStatic(body, false) && rules.consumes(true, body) then Some(Document("", map[], [], true, body)) else None;
    }
    var sorted, sections, extra := SortNodes(rules, nodes, first);
    if !sorted {
      return None;
    }
    result := if PushesAreStatic(nodes, true) && rules.consumes(false, nodes) then
      Some(Document(LayoutOf(rules, nodes), sections, extra, false, nodes)) else None;
  }

  /** The sections of a page and its other nodes, unless some node is wrong. */
  method SortNodes(rules: Rules, nodes: seq<Node>, first: nat) returns (sorted: bool, sections: Sections, extra: seq<Node>)
    requires first == First(rules, nodes)
    ensures sorted <==> forall i :: 0 <= i < |nodes| ==> !Wrong(rules, nodes, i)
    ensures sorted ==> sections == SectionsOf(nodes) && extra == ExtraOf(nodes)
  {
    sections, extra := map[], [];
    for i := 0 to |nodes|
      invariant sections == SectionsOf(nodes[..i]) && extra == ExtraOf(nodes[..i])
      invariant forall j :: 0 <= j < i ==> !Wrong(rules, nodes, j)
    {
      var wrong := IsWrong(rules, nodes, i, first, sections);
      if wrong {
        return false, sections, extra;
      }
      assert nodes[..i + 1][..i] == nodes[..i] && nodes[..i + 1][i] == nodes[i];
      if IsSection(nodes[i]) {
        sections := sections[nodes[i].name := nodes[i].children];
      } else if !IsLeafOf(nodes[i], Extends) {
        extra := extra + [nodes[i]];
      }
    }
    assert nodes[..|nodes|] == nodes;
    sorted := true;
  }

  method IsWrong(rules: Rules, nodes: seq<Node>, i: nat, first: nat, sections: Sections) returns (wrong: bool)
    requires i < |nodes| && first == First(rules, nodes) && sections == SectionsOf(nodes[..i])
    ensures wrong == Wrong(rules, nodes, i)
  {
    var item := nodes[i];
    var layout := LayoutOf(rules, nodes);
    if IsLeafOf(item, Extends) {
      return i != first;
    }
    if IsLeafOf(item, Props) {
      return true;
    }
    if IsSection(item) {
      SectionNames(nodes[..i], item.name);
      BeforePrefix(nodes, i, item.name);
      return layout == "" || item.name in sections || HasSection(item.children);
    }
    wrong := layout != "" && !IsPush(item) && !IsBlank(rules, item);
  }

  // ---- soundness ---------------------------------------------------------------------------------------------

  predicate SoundDocument(sources: Sources, doc: Document) {
    && AllSound(sources, doc.extra) && AllSound(sources, doc.body)
    && forall name :: name in doc.sections ==> AllSound(sources, doc.sections[name])
  }

  lemma {:induction false} PartsAreSound(sources: Sources, nodes: seq<Node>)
    requires AllSound(sources, nodes)
    ensures AllSound(sources, ExtraOf(nodes))
    ensures forall name :: name in SectionsOf(nodes) ==> AllSound(sources, SectionsOf(nodes)[name])
    decreases |nodes|
  {
    if nodes != [] {
      assert Sound(sources, nodes[|nodes| - 1]);
      PartsAreSound(sources, nodes[..|nodes| - 1]);
    }
  }

  /** Sound nodes make a sound document. */
  lemma OrganizedIsSound(sources: Sources, rules: Rules, component: bool, nodes: seq<Node>)
    requires AllSound(sources, nodes) && Organized(rules, component, nodes).Some?
    ensures SoundDocument(sources, Organized(rules, component, nodes).value)
  {
    PartsAreSound(sources, nodes);
  }
}
