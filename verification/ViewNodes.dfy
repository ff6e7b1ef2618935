/** The nodes of a parsed view, and what makes them the parse of its source. */
module ViewNodes {
  import opened Basics
  import opened SourceMap
  import opened ViewScan

  datatype Keyword =
    | Extends | Yield | Include | Props | Stack | Method | Old | Attributes | Csrf
    | Section | Component | Slot | Push | Errors
    | If | For | With
    | EndSection | EndComponent | EndSlot | EndPush | EndErrors | EndIf | EndFor | EndWith | ElseIf | Else | Empty

  predicate IsLeaf(k: Keyword) {
    k.Extends? || k.Yield? || k.Include? || k.Props? || k.Stack? || k.Method? || k.Old? || k.Attributes? || k.Csrf?
  }

  predicate IsBlock(k: Keyword) {
    k.Section? || k.Component? || k.Slot? || k.Push? || k.Errors?
  }

  predicate IsControl(k: Keyword) {
    k.If? || k.For? || k.With?
  }

  /** The words that end a body. */
  predicate IsEnding(k: Keyword) {
    !IsLeaf(k) && !IsBlock(k) && !IsControl(k)
  }

  function EndOf(k: Keyword): (end: Keyword)
    requires IsBlock(k) || IsControl(k)
    ensures IsEnding(end) && end != ElseIf && end != Else && end != Empty
  {
    match k
    case Section => EndSection
    case Component => EndComponent
    case Slot => EndSlot
    case Push => EndPush
    case Errors => EndErrors
    case If => EndIf
    case For => EndFor
    case With => EndWith
  }

  /** A view file, the names that are directives in it, whether a directive's arguments and an action's text are of the kind
      that is allowed there, and the name among a directive's arguments. */
  datatype View = View(
    path: string,
    source: Bytes,
    words: Bytes -> Option<Keyword>,
    accepts: (Keyword, Bytes) -> bool,
    allows: Bytes -> bool,
    names: (Keyword, Bytes) -> string)

  /** `head` is where the arguments of a directive with a body end, `close` where its closing word starts. */
  datatype Node =
    | Text(text: Bytes, span: Span)
    | Action(text: Bytes, span: Span)
    | Leaf(kind: Keyword, name: string, raw: Bytes, span: Span)
    | Block(kind: Keyword, name: string, raw: Bytes, head: nat, close: nat, span: Span, children: seq<Node>)
    | Control(kind: Keyword, raw: Bytes, head: nat, close: nat, span: Span, children: seq<Node>, branches: seq<Branch>,
              alternate: Alternate)

  /** An @elseif with its body. */
  datatype Branch = Branch(raw: Bytes, span: Span, nodes: seq<Node>)

  /** An @else or @empty at `start` with its body. */
  datatype Alternate = NoAlternate | Alternate(word: Keyword, start: nat, nodes: seq<Node>)

  // ---- where something starts that is not text -------------------------------------------------------------

  /** The directive word whose @ is at p. */
  function WordAt(v: View, p: nat): Option<Keyword> {
    if p < |v.source| && v.source[p] == AT && NameAt(v.source, p + 1) != [] then v.words(NameAt(v.source, p + 1)) else None
  }

  predicate IsWord(v: View, p: nat, k: Keyword) {
    WordAt(v, p) == Some(k)
  }

  /** The end of the word whose @ is at p. */
  function WordEnd(v: View, p: nat): nat
    requires p < |v.source|
  {
    NameEnd(v.source, p + 1)
  }

  /** A directive; @attributes is one only before arguments. */
  predicate IsDirective(v: View, p: nat) {
    WordAt(v, p).Some? && (WordAt(v, p).value == Attributes ==> TakesArguments(v.source, WordEnd(v, p)))
  }

  /** @attributes without arguments is text. */
  lemma BareAttributesIsText(v: View, p: nat)
    requires IsWord(v, p, Attributes) && !TakesArguments(v.source, WordEnd(v, p)) && !HasPrefix(v.source, p, [AT, AT])
    ensures !StartsItem(v, p)
  {
    if HasPrefix(v.source, p, [OPEN, OPEN]) {
      PrefixBytes(v.source, p, OPEN, OPEN);
    }
  }

  predicate StartsItem(v: View, p: nat) {
    HasPrefix(v.source, p, [OPEN, OPEN]) || HasPrefix(v.source, p, [AT, AT]) || IsDirective(v, p)
  }

  predicate Plain(v: View, start: nat, end: nat) {
    forall p: nat :: start <= p < end ==> !StartsItem(v, p)
  }

  /** A word that ends a body; only @elseif takes arguments. */
  predicate IsStop(v: View, p: nat, k: Keyword) {
    IsWord(v, p, k) && IsEnding(k) && (k != ElseIf ==> !TakesArguments(v.source, WordEnd(v, p)))
  }

  // ---- what a list of nodes covers ----------------------------------------------------------------------------

  /** The source from `from` to `to` is the spans of the nodes in this order and comments between them, and nothing else. */
  predicate Covered(source: Bytes, nodes: seq<Node>, from: nat, to: nat)
    decreases to - from
  {
    if from >= to then nodes == [] && from == to
    else if CommentAt(source, from).Some? then
      CommentAt(source, from).value <= to && Covered(source, nodes, CommentAt(source, from).value, to)
    else
      nodes != [] && nodes[0].span.start == from < nodes[0].span.end <= to && Covered(source, nodes[1..], nodes[0].span.end, to)
  }

  lemma {:induction false} CoveredJoins(source: Bytes, a: seq<Node>, b: seq<Node>, from: nat, middle: nat, to: nat)
    requires Covered(source, a, from, middle) && Covered(source, b, middle, to)
    ensures Covered(source, a + b, from, to) && from <= middle <= to
    decreases middle - from
  {
    if from == middle {
      assert a + b == b;
    } else if CommentAt(source, from).Some? {
      CoveredJoins(source, a, b, CommentAt(source, from).value, middle, to);
    } else {
      CoveredJoins(source, a[1..], b, a[0].span.end, middle, to);
      assert (a + b)[0] == a[0] && (a + b)[1..] == a[1..] + b;
    }
  }

  lemma NodeCovers(source: Bytes, nodes: seq<Node>, node: Node, from: nat)
    requires Covered(source, nodes, from, node.span.start) && node.span.start < node.span.end
    requires CommentAt(source, node.span.start).None?
    ensures Covered(source, nodes + [node], from, node.span.end)
  {
    assert [node][1..] == [];
    CoveredJoins(source, nodes, [node], from, node.span.start, node.span.end);
  }

  lemma CommentCovers(source: Bytes, nodes: seq<Node>, from: nat, start: nat)
    requires Covered(source, nodes, from, start) && CommentAt(source, start).Some?
    ensures Covered(source, nodes, from, CommentAt(source, start).value)
  {
    CoveredJoins(source, nodes, [], from, start, CommentAt(source, start).value);
    assert nodes + [] == nodes;
  }

  // ---- the bodies of a control directive ---------------------------------------------------------------------

  /** The word whose @ is at p has these arguments, up to `end`. */
  predicate HasArguments(v: View, p: nat, raw: Bytes, end: nat)
    requires p < |v.source|
  {
    ArgumentsAt(v.source, WordEnd(v, p)) == Some(end) && raw == ArgumentsText(v.source, WordEnd(v, p))
  }

  predicate IsLocated(v: View, span: Span) {
    span.path == v.path && Located(v.source, span)
  }

  predicate BranchHead(v: View, b: Branch) {
    && IsLocated(v, b.span) && IsStop(v, b.span.start, ElseIf)
    && HasArguments(v, b.span.start, b.raw, b.span.end) && v.accepts(ElseIf, b.raw)
  }

  /** Where the first of the branches starts; `to` if there is none. */
  function FirstStart(branches: seq<Branch>, to: nat): nat {
    if branches == [] then to else branches[0].span.start
  }

  /** The bodies of the branches reach up to `to`, each covered by its nodes. */
  predicate Chained(source: Bytes, branches: seq<Branch>, to: nat)
    decreases |branches|
  {
    branches == [] ||
    (&& Covered(source, branches[0].nodes, branches[0].span.end, FirstStart(branches[1..], to))
     && Chained(source, branches[1..], to))
  }

  lemma {:induction false} BranchChains(source: Bytes, branches: seq<Branch>, b: Branch, to: nat)
    requires Chained(source, branches, b.span.start) && Covered(source, b.nodes, b.span.end, to)
    ensures Chained(source, branches + [b], to) && FirstStart(branches + [b], to) == FirstStart(branches, b.span.start)
    decreases |branches|
  {
    var more := branches + [b];
    if branches == [] {
      assert more == [b] && more[1..] == [];
    } else {
      assert more[0] == branches[0] && more[1..] == branches[1..] + [b];
      BranchChains(source, branches[1..], b, to);
    }
  }

  // ---- what a node must be --------------------------------------------------------------------------------------

  predicate HasHead(v: View, k: Keyword, raw: Bytes, head: nat, start: nat) {
    IsWord(v, start, k) && HasArguments(v, start, raw, head) && v.accepts(k, raw)
  }

  predicate HasEnd(v: View, k: Keyword, close: nat, end: nat)
    requires IsBlock(k) || IsControl(k)
  {
    IsStop(v, close, EndOf(k)) && end == WordEnd(v, close)
  }

  /** Text up to the next thing that is not text, or the escape @@ which stands for one @. */
  predicate TextShape(v: View, text: Bytes, span: Span)
    requires Located(v.source, span)
  {
    || (&& text == v.source[span.start..span.end] && Plain(v, span.start, span.end)
        && (span.end == |v.source| || StartsItem(v, span.end)))
    || (text == [AT] && HasPrefix(v.source, span.start, [AT, AT]) && span.end == span.start + 2)
  }

  predicate ActionShape(v: View, text: Bytes, span: Span)
    requires Located(v.source, span)
  {
    && text == v.source[span.start..span.end] && v.allows(text)
    && HasPrefix(v.source, span.start, [OPEN, OPEN]) && !HasPrefix(v.source, span.start, [OPEN, OPEN, DASH, DASH])
    && ActionEnd(v.source, span.start) == Some(span.end)
  }

  /** A directive without a body; @csrf is the only one whose arguments may be missing. */
  predicate LeafShape(v: View, k: Keyword, name: string, raw: Bytes, span: Span) {
    && IsLeaf(k)
    && (|| (HasHead(v, k, raw, span.end, span.start) && name == v.names(k, raw))
        || (&& k == Csrf && name == "" && raw == [] && IsWord(v, span.start, k)
            && span.end == WordEnd(v, span.start) && !TakesArguments(v.source, span.end)))
  }

  predicate BlockShape(v: View, k: Keyword, raw: Bytes, head: nat, close: nat, span: Span, children: seq<Node>) {
    && IsBlock(k) && HasHead(v, k, raw, head, span.start) && HasEnd(v, k, close, span.end)
    && Covered(v.source, children, head, close)
  }

  predicate ControlShape(v: View, k: Keyword, raw: Bytes, head: nat, close: nat, span: Span, children: seq<Node>,
      branches: seq<Branch>, alternate: Alternate)
  {
    && IsControl(k) && HasHead(v, k, raw, head, span.start) && HasEnd(v, k, close, span.end)
    && (branches != [] ==> k == If)
    && AlternateShape(v, k, alternate, close)
    && Covered(v.source, children, head, FirstStart(branches, BranchesEnd(alternate, close)))
    && (forall i :: 0 <= i < |branches| ==> BranchHead(v, branches[i]))
    && Chained(v.source, branches, BranchesEnd(alternate, close))
  }

  function BranchesEnd(alternate: Alternate, close: nat): nat {
    if alternate.NoAlternate? then close else alternate.start
  }

  predicate AlternateShape(v: View, k: Keyword, alternate: Alternate, close: nat) {
    match alternate
    case NoAlternate => true
    case Alternate(word, start, nodes) =>
      && (word == Else || (word == Empty && k == For))
      && IsStop(v, start, word) && Covered(v.source, nodes, WordEnd(v, start), close)
  }

  /** The node is what the source says in its span: its text, its arguments, its closing word, and nodes that cover its
      bodies. */
  predicate Shape(v: View, node: Node) {
    && IsLocated(v, node.span)
    && match node
       case Text(text, span) => TextShape(v, text, span)
       case Action(text, span) => ActionShape(v, text, span)
       case Leaf(k, name, raw, span) => LeafShape(v, k, name, raw, span)
       case Block(k, name, raw, head, close, span, children) =>
         name == v.names(k, raw) && BlockShape(v, k, raw, head, close, span, children)
       case Control(k, raw, head, close, span, children, branches, alternate) =>
         ControlShape(v, k, raw, head, close, span, children, branches, alternate)
  }

  /** So are all the nodes inside it, at every depth. */
  predicate Good(v: View, node: Node)
    decreases node
  {
    && Shape(v, node)
    && match node
       case Block(_, _, _, _, _, _, children) => AllGood(v, children)
       case Control(_, _, _, _, _, children, branches, alternate) =>
         && AllGood(v, children)
         && (forall i :: 0 <= i < |branches| ==> AllGood(v, branches[i].nodes))
         && (alternate.Alternate? ==> AllGood(v, alternate.nodes))
       case _ => true
  }

  predicate AllGood(v: View, nodes: seq<Node>)
    decreases nodes
  {
    forall i :: 0 <= i < |nodes| ==> Good(v, nodes[i])
  }
}
