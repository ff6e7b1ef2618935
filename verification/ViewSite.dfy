/** All views of a site: parsed, resolved and compiled one after the other, each with a map back to the files. */
module ViewSite {
  import opened Basics
  import opened SourceMap
  import opened ViewNodes
  import opened ViewCompile
  import opened ViewCompiler
  import opened Yields
  import opened Layouts
  import opened SharedDocuments
  import opened ViewOrganize
  import opened ViewResolve
  import opened ViewDocument
  import opened ViewEndings
  import opened ViewCycles
  import opened ViewDepths
  import opened ViewBrackets
  import opened ViewNesting
  import opened SharedBranches

  /** Some document uses this one as its layout. */
  predicate Extended(documents: Documents, name: string) {
    exists d :: d in documents && documents[d].layout == name
  }

  /** Whether yields may stay open: in layouts, and in views without one. */
  predicate IsOpen(documents: Documents, name: string) {
    (name in documents && documents[name].layout == "") || Extended(documents, name)
  }

  function Components(documents: Documents): map<string, seq<Node>> {
    map d | d in documents && documents[d].component :: documents[d].body
  }

  /** The texts of the template language, for a page of these nodes. */
  function GeneratorFor(texts: Generator, documents: Documents, nodes: seq<Node>): Generator {
    texts.(page := nodes, components := Components(documents))
  }

  /** What a view compiles to: resolved against its layouts, and compiled with the names numbered from the counter on. */
  function ViewOutcome(texts: Generator, documents: Documents, name: string, depth: nat, counter: nat): Outcome {
    var resolved := Resolve(documents, name, map[], [], IsOpen(documents, name));
    if resolved.Failed? then Refused
    else Compiled(GeneratorFor(texts, documents, resolved.nodes), Page, resolved.nodes, depth, Output([], counter))
  }

  /** The generated text and its map: it covers the text without gap or overlap, and its literal parts copy the files. */
  predicate IsTemplate(sources: Sources, o: Outcome, text: Bytes, mappings: seq<Mapping>) {
    && o.Done? && text == Texts(o.out.pieces) && mappings == Maps(o.out.pieces)
    && Tiles(mappings, |text|) && forall i :: 0 <= i < |mappings| ==> Faithful(sources, text, mappings[i])
  }

  /** Resolves and compiles one view. */
  method CompileView(texts: Generator, documents: Documents, name: string, depth: nat, counter: nat, ghost sources: Sources)
    returns (v: Verdict, text: Bytes, mappings: seq<Mapping>, next: nat)
    requires SoundDocuments(sources, documents)
    ensures v == VerdictOf(ViewOutcome(texts, documents, name, depth, counter))
    ensures v.Finished? ==> IsTemplate(sources, ViewOutcome(texts, documents, name, depth, counter), text, mappings)
    ensures v.Finished? ==> next == ViewOutcome(texts, documents, name, depth, counter).out.counter
  {
    var open := IsOpen(documents, name);
    var resolved := ResolveView(documents, name, map[], [], open);
    text, mappings, next := [], [], counter;
    if resolved.Failed? {
      return Verdict.Failed, text, mappings, next;
    }
    ResolvedIsSound(sources, documents, name, map[], [], open);
    var g := GeneratorFor(texts, documents, resolved.nodes);
    var stacks := CollectStacks(resolved.nodes, map[]);
    var builder := new SourceBuilder();
    var compiler := new Compiler(g, builder, stacks, counter, sources);
    assert forall name :: [] + Pushed(g.page, name) == Pushed(g.page, name);
    assert forall d :: d in documents ==> SoundDocument(sources, documents[d]);
    v := compiler.CompileNodes(Page, resolved.nodes, depth, Output([], counter));
    text, mappings, next := builder.text, builder.mappings, compiler.sequence;
  }

  // ---- one view after the other ------------------------------------------------------------------------------

  /** The documents as earlier views left them, and the last number used for fresh variables. */
  datatype State = State(documents: Documents, counter: nat)

  /** Whether a name is a page, not a component. */
  predicate IsPage(documents: Documents, name: string) {
    name in documents && !documents[name].component
  }

  function OutcomeIn(texts: Generator, s: State, name: string, depth: nat): Outcome {
    ViewOutcome(texts, s.documents, name, depth, s.counter)
  }

  function AfterView(texts: Generator, s: State, name: string, depth: nat): State {
    if !IsPage(s.documents, name) then s
    else
      var o := OutcomeIn(texts, s, name, depth);
      State(After(s.documents, name, map[], map[], [], IsOpen(s.documents, name)), if o.Done? then o.out.counter else s.counter)
  }

  /** The state that these views leave behind. */
  function AfterViews(texts: Generator, s: State, names: seq<string>, depth: nat): State {
    if names == [] then s
    else AfterView(texts, AfterViews(texts, s, names[..|names| - 1], depth), names[|names| - 1], depth)
  }

  /** A compiled view. */
  datatype Template = Template(text: Bytes, mappings: seq<Mapping>)

  /** The view at i, compiled over what the views before it left. */
  ghost predicate IsCompiled(sources: Sources, texts: Generator, s: State, names: seq<string>, i: nat, depth: nat, t: Template)
    requires i < |names|
  {
    IsTemplate(sources, OutcomeIn(texts, AfterViews(texts, s, names[..i], depth), names[i], depth), t.text, t.mappings)
  }

  /** What the view at i ends in. */
  ghost function VerdictAt(texts: Generator, s: State, names: seq<string>, i: nat, depth: nat): Verdict
    requires i < |names|
  {
    var at := AfterViews(texts, s, names[..i], depth);
    if IsPage(at.documents, names[i]) then VerdictOf(OutcomeIn(texts, at, names[i], depth)) else Finished
  }

  /** The pages are the same for every view. */
  lemma {:induction false} PagesStay(documents: Documents, name: string, inherited: Sections, owners: Owners, stack: seq<string>, open: bool)
    ensures var later := After(documents, name, inherited, owners, stack, open);
      later.Keys == documents.Keys && forall d :: d in documents ==> later[d].component == documents[d].component
    decreases |documents.Keys - Entered(stack)|
  {
    if name in documents && name !in stack {
      var doc := documents[name];
      if doc.layout != "" && doc.layout in documents && !documents[doc.layout].component {
        EnteringShrinks(documents, stack, name);
        PagesStay(documents, doc.layout, doc.sections + inherited, Owned(doc, name) + owners, stack + [name], open);
      }
    }
  }

  /** The same names are pages. */
  ghost predicate SamePages(a: Documents, b: Documents) {
    forall d :: IsPage(a, d) <==> IsPage(b, d)
  }

  /** Compiles a view over what the views before it left. */
  method CompileNext(texts: Generator, now: State, name: string, depth: nat, ghost sources: Sources)
    returns (v: Verdict, t: Template, later: State)
    requires SoundDocuments(sources, now.documents) && IsPage(now.documents, name)
    ensures v == VerdictOf(OutcomeIn(texts, now, name, depth))
    ensures v.Finished? ==> IsTemplate(sources, OutcomeIn(texts, now, name, depth), t.text, t.mappings)
    ensures v.Finished? ==> later == AfterView(texts, now, name, depth)
    ensures v.Finished? ==> SoundDocuments(sources, later.documents) && SamePages(now.documents, later.documents)
  {
    var text, mappings, next;
    v, text, mappings, next := CompileView(texts, now.documents, name, depth, now.counter, sources);
    t := Template(text, mappings);
    var open := IsOpen(now.documents, name);
    AfterIsSound(sources, now.documents, name, map[], map[], [], open);
    PagesStay(now.documents, name, map[], map[], [], open);
    later := State(After(now.documents, name, map[], map[], [], open), next);
  }

  /** The view at j is compiled, if it is one. */
  ghost predicate CompiledAt(sources: Sources, texts: Generator, s: State, names: seq<string>, j: nat, depth: nat,
      t: Option<Template>)
    requires j < |names|
  {
    && VerdictAt(texts, s, names, j, depth).Finished?
    && (IsPage(s.documents, names[j]) ==> t.Some? && IsCompiled(sources, texts, s, names, j, depth, t.value))
  }

  function At(templates: map<string, Template>, name: string): Option<Template> {
    if name in templates then Some(templates[name]) else None
  }

  /** The views before i are compiled. */
  ghost predicate CompiledBefore(sources: Sources, texts: Generator, s: State, names: seq<string>, i: nat, depth: nat,
      templates: map<string, Template>)
    requires i <= |names|
  {
    && (forall j :: 0 <= j < i ==> CompiledAt(sources, texts, s, names, j, depth, At(templates, names[j])))
    && (forall name :: name in templates ==> name in names[..i] && IsPage(s.documents, name))
  }

  lemma OneCompiled(sources: Sources, texts: Generator, s: State, names: seq<string>, i: nat, depth: nat,
      templates: map<string, Template>, more: map<string, Template>)
    requires i < |names| && CompiledBefore(sources, texts, s, names, i, depth, templates)
    requires forall j :: 0 <= j < i ==> At(more, names[j]) == At(templates, names[j])
    requires CompiledAt(sources, texts, s, names, i, depth, At(more, names[i]))
    requires forall name :: name in more ==> name in templates || (name == names[i] && IsPage(s.documents, name))
    ensures CompiledBefore(sources, texts, s, names, i + 1, depth, more)
  {
    assert names[..i + 1] == names[..i] + [names[i]];
    forall j | 0 <= j < i + 1
      ensures CompiledAt(sources, texts, s, names, j, depth, At(more, names[j]))
    {
      if j < i {
        assert CompiledAt(sources, texts, s, names, j, depth, At(templates, names[j]));
      }
    }
  }

  ghost predicate SomeEndsIn(texts: Generator, s: State, names: seq<string>, depth: nat, v: Verdict) {
    exists i :: 0 <= i < |names| && VerdictAt(texts, s, names, i, depth) == v
  }

  /** Compiles all views in order, stopping at the first that fails. */
  method CompileViews(texts: Generator, documents: Documents, names: seq<string>, depth: nat, ghost sources: Sources)
    returns (v: Verdict, templates: map<string, Template>)
    requires SoundDocuments(sources, documents) && forall i, j :: 0 <= i < j < |names| ==> names[i] != names[j]
    ensures v.Finished? ==> CompiledBefore(sources, texts, State(documents, 0), names, |names|, depth, templates)
    ensures !v.Finished? ==> SomeEndsIn(texts, State(documents, 0), names, depth, v)
  {
    ghost var start := State(documents, 0);
    var now := State(documents, 0);
    templates := map[];
    for i := 0 to |names|
      invariant now == AfterViews(texts, start, names[..i], depth)
      invariant SoundDocuments(sources, now.documents) && SamePages(documents, now.documents)
      invariant CompiledBefore(sources, texts, start, names, i, depth, templates)
    {
      assert names[..i + 1][..i] == names[..i] && names[..i + 1][i] == names[i];
      if IsPage(now.documents, names[i]) {
        var t, later;
        v, t, later := CompileNext(texts, now, names[i], depth, sources);
        assert VerdictAt(texts, start, names, i, depth) == v;
        if !v.Finished? {
          return;
        }
        OneCompiled(sources, texts, start, names, i, depth, templates, templates[names[i] := t]);
        templates := templates[names[i] := t];
        now := later;
      } else {
        OneCompiled(sources, texts, start, names, i, depth, templates, templates);
      }
    }
    v := Finished;
  }

  /** Reads all files and compiles their views: fails when a file makes no document, when a view fails, or when there is no
      view at all. */
  method CompileForge(rules: Rules, views: map<string, View>, names: seq<string>, texts: Generator, depth: nat,
      ghost sources: Sources)
    returns (v: Verdict, documents: Option<Documents>, templates: map<string, Template>)
    requires ReadFrom(views, sources) && (forall i :: 0 <= i < |names| ==> names[i] in views)
    requires forall i, j :: 0 <= i < j < |names| ==> names[i] != names[j]
    ensures documents.None? <==> exists i :: 0 <= i < |names| && NoDocument(rules, names[i], views[names[i]])
    ensures documents.None? ==> v.Failed?
    ensures documents.Some? ==> LoadedFrom(rules, views, names, documents.value)
    ensures v.Finished? ==> documents.Some? && templates != map[]
    ensures v.Finished? ==> CompiledBefore(sources, texts, State(documents.value, 0), names, |names|, depth, templates)
    ensures documents.Some? && !v.Finished? ==>
      || SomeEndsIn(texts, State(documents.value, 0), names, depth, v)
      || (v.Failed? && forall i :: 0 <= i < |names| ==> !IsPage(documents.value, names[i]))
  {
    var parsed := ParseDocuments(rules, names, views, sources);
    documents, templates := parsed, map[];
    if parsed.None? {
      return Verdict.Failed, documents, templates;
    }
    v, templates := CompileViews(texts, parsed.value, names, depth, sources);
    if v.Finished? && templates == map[] {
      v := Verdict.Failed;
    }
  }

  // ---- when views do not disturb each other ----------------------------------------------------------------------

  /** When no branch holds a yield, every view is compiled over the documents as they were parsed. */
  lemma {:induction false} ViewsAreFresh(texts: Generator, s: State, names: seq<string>, depth: nat)
    requires PlainDocuments(s.documents)
    ensures AfterViews(texts, s, names, depth).documents == s.documents
    decreases |names|
  {
    if names != [] {
      var before := AfterViews(texts, s, names[..|names| - 1], depth);
      var name := names[|names| - 1];
      ViewsAreFresh(texts, s, names[..|names| - 1], depth);
      PlainAfter(before.documents, name, map[], map[], [], IsOpen(before.documents, name));
    }
  }

  // ---- when a view can be compiled ----------------------------------------------------------------------------------

  /** With a large enough bound the view compiles. */
  ghost predicate Compiles(texts: Generator, documents: Documents, name: string, counter: nat) {
    exists depth: nat :: CompilesWith(texts, documents, name, counter, depth)
  }

  predicate CompilesWith(texts: Generator, documents: Documents, name: string, counter: nat, depth: nat) {
    ViewOutcome(texts, documents, name, depth, counter).Done?
  }

  /** A view compiles exactly when it resolves, nothing it reaches is an error, and no directive it reaches leads back to
      itself. */
  lemma ViewCompilesIff(texts: Generator, documents: Documents, name: string, counter: nat)
    ensures var resolved := Resolve(documents, name, map[], [], IsOpen(documents, name));
      Compiles(texts, documents, name, counter) <==>
        && resolved.Resolved?
        && var g := GeneratorFor(texts, documents, resolved.nodes);
        Faultless(g, Page, g.page) && !LeadsBack(g, Page, g.page)
  {
    var resolved := Resolve(documents, name, map[], [], IsOpen(documents, name));
    if resolved.Resolved? {
      var g := GeneratorFor(texts, documents, resolved.nodes);
      PageCompilesIff(g, Output([], counter));
      if depth: nat :| CompilesWith(texts, documents, name, counter, depth) {
        assert SucceedsAt(g, Page, g.page, Output([], counter), depth);
      }
      if depth: nat :| SucceedsAt(g, Page, g.page, Output([], counter), depth) {
        assert CompilesWith(texts, documents, name, counter, depth);
      }
    }
  }

  // ---- what comes out ---------------------------------------------------------------------------------------------

  /** The generated pieces of every view that compiles are balanced, and read back as the nesting of the nodes it resolves
      to. */
  lemma ViewReadsBack(texts: Generator, documents: Documents, name: string, depth: nat, counter: nat)
    requires ViewOutcome(texts, documents, name, depth, counter).Done?
    ensures var resolved := Resolve(documents, name, map[], [], IsOpen(documents, name));
      && resolved.Resolved?
      && var g := GeneratorFor(texts, documents, resolved.nodes);
      && Nesting(g, Page, resolved.nodes, depth, counter).Some?
      && ReadsAs(ViewOutcome(texts, documents, name, depth, counter).out.pieces,
                 Nesting(g, Page, resolved.nodes, depth, counter).value.trees)
  {
    var resolved := Resolve(documents, name, map[], [], IsOpen(documents, name));
    PageReadsBack(GeneratorFor(texts, documents, resolved.nodes), depth, counter);
  }

  /** A file that does not start with @extends and has no yield is compiled as it was parsed. */
  lemma PlainFileResolves(rules: Rules, documents: Documents, name: string, nodes: seq<Node>, open: bool)
    requires name in documents && Organized(rules, false, nodes) == Some(documents[name])
    requires !StartsWithLayout(rules, nodes) && Settled(nodes, {}, true)
    ensures Resolve(documents, name, map[], [], open) == Resolved(nodes)
  {
    PageKeepsTheRest(rules, nodes);
    PlainIsSettled(nodes, {}, open);
    var none: Sections := map[];
    assert none + none == none && none.Keys == {};
    SettledStays(nodes, none, open, {});
  }

  lemma PlainFileCompiles(rules: Rules, texts: Generator, documents: Documents, name: string, v: View, nodes: seq<Node>, depth: nat,
      counter: nat)
    requires name in documents && !IsComponent(name) && Parses(v, nodes) && Loads(rules, name, v, documents[name])
    requires !StartsWithLayout(rules, nodes) && Settled(nodes, {}, true)
    ensures ViewOutcome(texts, documents, name, depth, counter)
         == Compiled(GeneratorFor(texts, documents, nodes), Page, nodes, depth, Output([], counter))
  {
    var parsed :| Parses(v, parsed) && Organized(rules, IsComponent(name), parsed) == Some(documents[name]);
    OneParse(v, nodes, parsed);
    PlainFileResolves(rules, documents, name, nodes, IsOpen(documents, name));
  }

  /** From the file to the template: for a file without layout, yields and lookups, the copies in the generated text are the
      texts and actions of the file's one parse, each once and in order. */
  lemma PlainFileComesOut(rules: Rules, texts: Generator, documents: Documents, name: string, v: View, nodes: seq<Node>, depth: nat,
      counter: nat)
    requires name in documents && !IsComponent(name) && Parses(v, nodes) && Loads(rules, name, v, documents[name])
    requires !StartsWithLayout(rules, nodes) && Settled(nodes, {}, true) && Closed(nodes)
    requires ViewOutcome(texts, documents, name, depth, counter).Done?
    ensures Copies(ViewOutcome(texts, documents, name, depth, counter).out.pieces)
         == PlainLeaves(GeneratorFor(texts, documents, nodes), Page, nodes)
  {
    PlainFileCompiles(rules, texts, documents, name, v, nodes, depth, counter);
    var g, out := GeneratorFor(texts, documents, nodes), Output([], counter);
    InOrder(g, Page, nodes, depth, out);
    ClosedLeaves(g, Page, nodes, depth, out);
    assert Copies(out.pieces) == [] && [] + PlainLeaves(g, Page, nodes) == PlainLeaves(g, Page, nodes);
  }
}
