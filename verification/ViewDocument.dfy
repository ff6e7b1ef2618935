/** View files: each parsed in the one way there is and sorted into a document. */
module ViewDocument {
  import opened Basics
  import opened SourceMap
  import opened ViewNodes
  import opened ViewUnique
  import opened ViewBodies
  import opened ViewParser
  import opened ViewSample
  import opened ViewCompile
  import opened Layouts
  import opened ViewOrganize
  import opened ViewResolve

  /** How a keyword is written behind its @. */
  function SpellingOf(k: Keyword): string {
    match k
    case Extends => "extends"
    case Yield => "yield"
    case Include => "include"
    case Props => "props"
    case Stack => "stack"
    case Method => "method"
    case Old => "old"
    case Attributes => "attributes"
    case Csrf => "csrf"
    case Section => "section"
    case Component => "component"
    case Slot => "slot"
    case Push => "push"
    case Errors => "errors"
    case If => "if"
    case For => "for"
    case With => "with"
    case EndSection => "endsection"
    case EndComponent => "endcomponent"
    case EndSlot => "endslot"
    case EndPush => "endpush"
    case EndErrors => "enderrors"
    case EndIf => "endif"
    case EndFor => "endfor"
    case EndWith => "endwith"
    case ElseIf => "elseif"
    case Else => "else"
    case Empty => "empty"
  }

  const KEYWORDS := [
    Extends, Yield, Include, Props, Stack, Method, Old, Attributes, Csrf, Section, Component, Slot, Push, Errors, If, For, With,
    EndSection, EndComponent, EndSlot, EndPush, EndErrors, EndIf, EndFor, EndWith, ElseIf, Else, Empty]

  function Spelled(name: Bytes): string {
    seq(|name|, i requires 0 <= i < |name| => name[i] as char)
  }

  /** The first of the keywords that is written so. */
  function Find(word: string, ks: seq<Keyword>): Option<Keyword> {
    if ks == [] then None else if SpellingOf(ks[0]) == word then Some(ks[0]) else Find(word, ks[1..])
  }

  function WordOf(name: Bytes): Option<Keyword> {
    Find(Spelled(name), KEYWORDS)
  }

  lemma {:induction false} FindMeans(word: string, ks: seq<Keyword>)
    ensures Find(word, ks).Some? ==> SpellingOf(Find(word, ks).value) == word
    ensures Find(word, ks).None? ==> forall k :: k in ks ==> SpellingOf(k) != word
  {
    if ks != [] {
      FindMeans(word, ks[1..]);
    }
  }

  lemma AllKeywords(k: Keyword)
    ensures k in KEYWORDS
  {
    var i := match k
      case Extends => 0
      case Yield => 1
      case Include => 2
      case Props => 3
      case Stack => 4
      case Method => 5
      case Old => 6
      case Attributes => 7
      case Csrf => 8
      case Section => 9
      case Component => 10
      case Slot => 11
      case Push => 12
      case Errors => 13
      case If => 14
      case For => 15
      case With => 16
      case EndSection => 17
      case EndComponent => 18
      case EndSlot => 19
      case EndPush => 20
      case EndErrors => 21
      case EndIf => 22
      case EndFor => 23
      case EndWith => 24
      case ElseIf => 25
      case Else => 26
      case Empty => 27;
    assert KEYWORDS[i] == k;
  }

  /** No two keywords are written alike. */
  lemma SpellingsDiffer(a: Keyword, b: Keyword)
    requires SpellingOf(a) == SpellingOf(b)
    ensures a == b
  {
  }

  /** A name is a directive exactly when some keyword is written so, and it is that one. */
  lemma WordsMean(name: Bytes, k: Keyword)
    ensures WordOf(name) == Some(k) <==> Spelled(name) == SpellingOf(k)
  {
    FindMeans(Spelled(name), KEYWORDS);
    AllKeywords(k);
    if Spelled(name) == SpellingOf(k) {
      SpellingsDiffer(WordOf(name).value, k);
    }
  }

  /** What has a body ends with its own word behind "end". */
  lemma EndingsMean(k: Keyword)
    requires IsBlock(k) || IsControl(k)
    ensures SpellingOf(EndOf(k)) == "end" + SpellingOf(k)
  {
  }

  function ViewOf(path: string, source: Bytes, accepts: (Keyword, Bytes) -> bool, allows: Bytes -> bool,
      names: (Keyword, Bytes) -> string): View
  {
    View(path, source, WordOf, accepts, allows, names)
  }

  /** The nodes are a parse of the view: good at every depth, and covering the whole file. */
  predicate Parses(v: View, nodes: seq<Node>) {
    AllGood(v, nodes) && Covered(v.source, nodes, 0, |v.source|)
  }

  /** A view has at most one parse. */
  lemma OneParse(v: View, a: seq<Node>, b: seq<Node>)
    requires Parses(v, a) && Parses(v, b)
    ensures a == b
  {
    SameList(v, a, |v.source|, b, |v.source|, 0);
  }

  /** Parses a view; it fails exactly when there is no parse. */
  method ParseView(v: View) returns (result: Option<seq<Node>>)
    ensures result.Some? <==> exists nodes :: Parses(v, nodes)
    ensures result.Some? ==> forall nodes :: Parses(v, nodes) <==> nodes == result.value
  {
    var parser := new Parser(v);
    var body := parser.ParseNodes({});
    if body.None? {
      NoParse(v);
      return None;
    }
    result := Some(body.value.nodes);
    assert Parses(v, result.value);
    forall nodes | Parses(v, nodes)
      ensures nodes == result.value
    {
      OneParse(v, nodes, result.value);
    }
  }

  lemma NoParse(v: View)
    requires NoBody(v, 0, {})
    ensures forall nodes :: !Parses(v, nodes)
  {
    forall nodes
      ensures !Parses(v, nodes)
    {
      if Parses(v, nodes) {
        ParseIsBody(v, nodes);
      }
    }
  }

  lemma ParseIsBody(v: View, nodes: seq<Node>)
    requires Parses(v, nodes)
    ensures IsBody(v, 0, {}, Body(nodes, None, |v.source|), |v.source|)
  {
  }

  /** Components are the files of one directory. */
  predicate IsComponent(name: string) {
    "components/" <= name
  }

  /** The document is what the file makes. */
  ghost predicate Loads(rules: Rules, name: string, v: View, doc: Document) {
    exists nodes :: Parses(v, nodes) && Organized(rules, IsComponent(name), nodes) == Some(doc)
  }

  /** Parses a file into its document; it fails exactly when the file has no parse or its nodes make no document. */
  method ParseDocument(rules: Rules, name: string, v: View) returns (result: Option<Document>)
    ensures result.Some? <==> exists doc :: Loads(rules, name, v, doc)
    ensures result.Some? ==> forall doc :: Loads(rules, name, v, doc) <==> doc == result.value
  {
    var nodes := ParseView(v);
    if nodes.None? {
      return None;
    }
    result := Organize(rules, IsComponent(name), nodes.value);
    assert Parses(v, nodes.value);
    if result.Some? {
      assert Loads(rules, name, v, result.value);
    }
  }

  /** A file makes a sound document. */
  lemma LoadedIsSound(sources: Sources, rules: Rules, name: string, v: View, doc: Document)
    requires Loads(rules, name, v, doc) && v.path in sources && sources[v.path] == v.source
    ensures SoundDocument(sources, doc)
  {
    var nodes :| Parses(v, nodes) && Organized(rules, IsComponent(name), nodes) == Some(doc);
    AllGoodIsSound(v, sources, nodes);
    OrganizedIsSound(sources, rules, IsComponent(name), nodes);
  }

  /** The files are read from their sources. */
  predicate ReadFrom(views: map<string, View>, sources: Sources) {
    forall name :: name in views ==> views[name].path in sources && sources[views[name].path] == views[name].source
  }

  /** There is a document for each name, made from its file. */
  ghost predicate LoadedFrom(rules: Rules, views: map<string, View>, names: seq<string>, documents: Documents) {
    && (forall name :: name in documents <==> name in names)
    && forall name :: name in documents ==> name in views && Loads(rules, name, views[name], documents[name])
  }

  /** Parses all files, in order; it fails exactly when some file makes no document. */
  method ParseDocuments(rules: Rules, names: seq<string>, views: map<string, View>, ghost sources: Sources)
    returns (result: Option<Documents>)
    requires (forall i :: 0 <= i < |names| ==> names[i] in views) && ReadFrom(views, sources)
    ensures result.None? <==> exists i :: 0 <= i < |names| && NoDocument(rules, names[i], views[names[i]])
    ensures result.Some? ==> LoadedFrom(rules, views, names, result.value) && SoundDocuments(sources, result.value)
  {
    var documents: Documents := map[];
    for i := 0 to |names|
      invariant LoadedFrom(rules, views, names[..i], documents) && SoundDocuments(sources, documents)
      invariant forall j :: 0 <= j < i ==> !NoDocument(rules, names[j], views[names[j]])
    {
      var doc := ParseDocument(rules, names[i], views[names[i]]);
      if doc.None? {
        assert NoDocument(rules, names[i], views[names[i]]);
        return None;
      }
      OneMore(sources, rules, views, names, i, documents, doc.value);
      documents := documents[names[i] := doc.value];
    }
    assert names[..|names|] == names;
    result := Some(documents);
  }

  lemma OneMore(sources: Sources, rules: Rules, views: map<string, View>, names: seq<string>, i: nat, documents: Documents,
      doc: Document)
    requires i < |names| && ReadFrom(views, sources) && names[i] in views && Loads(rules, names[i], views[names[i]], doc)
    requires LoadedFrom(rules, views, names[..i], documents) && SoundDocuments(sources, documents)
    ensures LoadedFrom(rules, views, names[..i + 1], documents[names[i] := doc])
    ensures SoundDocuments(sources, documents[names[i] := doc])
  {
    LoadedIsSound(sources, rules, names[i], views[names[i]], doc);
    assert names[..i + 1] == names[..i] + [names[i]];
  }

  ghost predicate NoDocument(rules: Rules, name: string, v: View) {
    forall doc :: !Loads(rules, name, v, doc)
  }

  lemma SampleSpellings()
    ensures Spelled(IF) == SpellingOf(If) && Spelled(END_IF) == SpellingOf(EndIf)
  {
  }

  /** The words of the sample view. */
  lemma SampleWords()
    ensures WordOf(IF) == Some(If) && WordOf(END_IF) == Some(EndIf)
  {
    SampleSpellings();
    WordsMean(IF, If);
    WordsMean(END_IF, EndIf);
  }

  /** A sample: a directive around a text has its parse. */
  lemma SampleParses(path: string, accepts: (Keyword, Bytes) -> bool, allows: Bytes -> bool, names: (Keyword, Bytes) -> string)
    returns (node: Node)
    requires accepts(If, [97])
    ensures Parses(ViewOf(path, SAMPLE, accepts, allows, names), [node])
    ensures node.Control? && |node.children| == 1 && node.children[0].Text?
  {
    SampleWords();
    var inner;
    node, inner := SampleIsGood(ViewOf(path, SAMPLE, accepts, allows, names));
  }
}
