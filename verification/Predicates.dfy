/** Typed predicate trees, the SQL text they compile to, and the proof that
    PostgreSQL reads that text as the tree. */
module Predicates {
  import opened Basics
  import opened Decimals
  import S = SqlExpr

  type Value = S.Value
  type Truth = S.Truth

  /** A table is named by its identifier and by the descriptor it came from. */
  datatype TableRef = TableRef(name: string, identity: nat)

  datatype Predicate =
    | Compare(table: TableRef, column: string, op: string, args: seq<Value>)
    | In(table: TableRef, column: string, args: seq<Value>)
    | NullTest(table: TableRef, column: string, negated: bool)
    | Constant(table: TableRef, truth: bool)
    | Group(table: TableRef, disjunction: bool, children: seq<Predicate>)
    | Negation(table: TableRef, children: seq<Predicate>)
    | ContainsFold(table: TableRef, column: string, args: seq<Value>)

  // ---- what the constructors give ------------------------------------------------

  predicate IsLower(c: char) { 'a' <= c <= 'z' || c == '_' }

  /** ^[a-z_][a-z0-9_]*$, at most 63 bytes */
  predicate Identifier(s: string) {
    0 < |s| <= 63 && IsLower(s[0]) && forall i :: 0 <= i < |s| ==> IsLower(s[i]) || IsDigit(s[i])
  }

  const OPERATORS: set<string> := {"=", "<>", "<", "<=", ">", ">=", "LIKE"}

  /** Trees made by the exported constructors: generated names, one of the known
      operators, and a membership test that lists something. */
  predicate Built(p: Predicate)
    decreases p
  {
    && Identifier(p.table.name)
    && match p
       case Compare(_, column, op, _) => Identifier(column) && op in OPERATORS
       case In(_, column, args) => Identifier(column) && args != []
       case NullTest(_, column, _) => Identifier(column)
       case Constant(_, _) => true
       case Group(_, _, children) => forall i :: 0 <= i < |children| ==> Built(children[i])
       case Negation(_, children) => forall i :: 0 <= i < |children| ==> Built(children[i])
       case ContainsFold(_, column, _) => Identifier(column)
  }

  // ---- the meaning of a tree --------------------------------------------------------

  function AllOf(ts: seq<Truth>): Truth {
    if S.False in ts then S.False else if S.Unknown in ts then S.Unknown else S.True
  }

  function AnyOf(ts: seq<Truth>): Truth {
    if S.True in ts then S.True else if S.Unknown in ts then S.Unknown else S.False
  }

  function Equalities(db: S.Database, v: Value, args: seq<Value>): seq<Truth> {
    seq(|args|, i requires 0 <= i < |args| => db.compare("=", v, args[i]))
  }

  function Meaning(p: Predicate, db: S.Database, row: S.Row): Truth
    decreases p, 1
  {
    match p
    case Compare(_, column, op, args) => if |args| == 1 then db.compare(op, row(column), args[0]) else S.Unknown
    case In(_, column, args) => AnyOf(Equalities(db, row(column), args))
    case NullTest(_, column, negated) => S.Truly((row(column) == S.Null) != negated)
    case Constant(_, truth) => S.Truly(truth)
    case Group(_, disjunction, children) =>
      if disjunction then AnyOf(Meanings(children, db, row)) else AllOf(Meanings(children, db, row))
    case Negation(_, children) => if |children| == 1 then S.Negated(Meaning(children[0], db, row)) else S.Unknown
    case ContainsFold(_, column, args) => if |args| == 1 then db.ilike(row(column), args[0], "!") else S.Unknown
  }

  function Meanings(ps: seq<Predicate>, db: S.Database, row: S.Row): (ts: seq<Truth>)
    ensures |ts| == |ps| && forall i :: 0 <= i < |ps| ==> ts[i] == Meaning(ps[i], db, row)
    decreases ps, 0
  {
    if ps == [] then [] else [Meaning(ps[0], db, row)] + Meanings(ps[1..], db, row)
  }

  // ---- what compiles, and to what ------------------------------------------------------

  predicate Compiles(p: Predicate, table: TableRef)
    decreases p
  {
    && table.name != "" && table.identity != 0 && p.table == table
    && match p
       case Compare(_, _, _, args) => |args| == 1 && args[0] != S.Null
       case In(_, _, args) => S.Null !in args
       case NullTest(_, _, _) => true
       case Constant(_, _) => true
       case Group(_, _, children) => children != [] && forall i :: 0 <= i < |children| ==> Compiles(children[i], table)
       case Negation(_, children) => |children| == 1 && forall i :: 0 <= i < |children| ==> Compiles(children[i], table)
       case ContainsFold(_, _, args) => |args| == 1 && args[0].Text?
  }

  /** The descriptors that the tree is made from. */
  function TablesOf(p: Predicate): set<TableRef>
    decreases p
  {
    {p.table} +
    if p.Group? || p.Negation? then set i, t | 0 <= i < |p.children| && t in TablesOf(p.children[i]) :: t else {}
  }

  /** A tree compiles for one descriptor only, and only if all of it is made from that one. */
  lemma {:induction false} OneDescriptor(p: Predicate, table: TableRef)
    requires Compiles(p, table)
    ensures TablesOf(p) == {table} && table.identity != 0
    decreases p
  {
    if p.Group? || p.Negation? {
      forall i | 0 <= i < |p.children|
        ensures TablesOf(p.children[i]) == {table}
      {
        OneDescriptor(p.children[i], table);
      }
    }
  }

  /** The bound values, in the order of the text. */
  function Values(p: Predicate): seq<Value>
    decreases p, 1
  {
    match p
    case Compare(_, _, _, args) => args
    case In(_, _, args) => args
    case ContainsFold(_, _, args) => args
    case Group(_, _, children) => AllValues(children)
    case Negation(_, children) => AllValues(children)
    case _ => []
  }

  function AllValues(ps: seq<Predicate>): seq<Value>
    decreases ps, 0
  {
    if ps == [] then [] else Values(ps[0]) + AllValues(ps[1..])
  }

  function Qualified(p: Predicate): string
    requires p.Compare? || p.In? || p.NullTest? || p.ContainsFold?
  {
    "\"" + p.table.name + "\".\"" + p.column + "\""
  }

  function ParamText(k: nat): string { "$" + Itoa(k) }

  /** $n+1, $n+2, ... */
  function ParamsText(n: nat, count: nat): string
    decreases count
  {
    if count == 0 then "" else if count == 1 then ParamText(n + 1)
    else ParamText(n + 1) + ", " + ParamsText(n + 1, count - 1)
  }

  function Join(parts: seq<string>, separator: string): string {
    if parts == [] then "" else if |parts| == 1 then parts[0]
    else parts[0] + separator + Join(parts[1..], separator)
  }

  function Separator(disjunction: bool): string { if disjunction then " OR " else " AND " }

  /** The text of a tree whose first placeholder is $n+1. */
  function TextOf(p: Predicate, n: nat): string
    decreases p, 1
  {
    match p
    case Compare(_, _, op, _) => Qualified(p) + " " + op + " " + ParamText(n + 1)
    case In(_, _, args) => Qualified(p) + " IN (" + ParamsText(n, |args|) + ")"
    case NullTest(_, _, negated) => Qualified(p) + " " + (if negated then "IS NOT NULL" else "IS NULL")
    case Constant(_, truth) => if truth then "TRUE" else "FALSE"
    case Group(_, disjunction, children) => "(" + Join(TextsOf(children, n), Separator(disjunction)) + ")"
    case Negation(_, children) => if |children| == 1 then "NOT (" + TextOf(children[0], n) + ")" else ""
    case ContainsFold(_, _, _) => Qualified(p) + " ILIKE " + ParamText(n + 1) + " ESCAPE '!'"
  }

  function TextsOf(ps: seq<Predicate>, n: nat): (texts: seq<string>)
    ensures |texts| == |ps|
    decreases ps, 0
  {
    if ps == [] then [] else [TextOf(ps[0], n)] + TextsOf(ps[1..], n + |Values(ps[0])|)
  }

  lemma MemberCompiled(texts: seq<string>, args: seq<Value>, ps: seq<Predicate>, i: nat)
    requires i < |ps|
    ensures texts + TextsOf(ps[i..], |args|) ==
              texts + [TextOf(ps[i], |args|)] + TextsOf(ps[i + 1..], |args + Values(ps[i])|)
    ensures args + AllValues(ps[i..]) == args + Values(ps[i]) + AllValues(ps[i + 1..])
  {
    MembersFrom(ps, i, |args|);
    Associates(texts, [TextOf(ps[i], |args|)], TextsOf(ps[i + 1..], |args + Values(ps[i])|));
    Associates(args, Values(ps[i]), AllValues(ps[i + 1..]));
  }

  lemma MembersFrom(ps: seq<Predicate>, i: nat, n: nat)
    requires i < |ps|
    ensures TextsOf(ps[i..], n) == [TextOf(ps[i], n)] + TextsOf(ps[i + 1..], n + |Values(ps[i])|)
    ensures AllValues(ps[i..]) == Values(ps[i]) + AllValues(ps[i + 1..])
  {
    assert ps[i..][0] == ps[i] && ps[i..][1..] == ps[i + 1..];
  }

  lemma Associates<T>(a: seq<T>, b: seq<T>, c: seq<T>)
    ensures a + (b + c) == a + b + c
  {
  }

  /** The list with one more placeholder. */
  function Extended(text: string, i: nat, placeholder: string): string {
    (if i > 0 then text + ", " else text) + placeholder
  }

  lemma {:induction false} ParamsGrow(n: nat, i: nat)
    ensures ParamsText(n, i + 1) == Extended(ParamsText(n, i), i, ParamText(n + i + 1))
    decreases i
  {
    if i > 1 {
      ParamsStep(n, i);
      ParamsStep(n, i - 1);
      ParamsGrow(n + 1, i - 1);
      FrontStays(ParamText(n + 1) + ", ", ParamsText(n + 1, i - 1), ParamText(n + i + 1), ParamsText(n + 1, i));
    } else if i == 1 {
      ParamsStep(n, 1);
    } else {
      assert "" + ParamText(n + 1) == ParamText(n + 1);
    }
  }

  lemma ParamsStep(n: nat, count: nat)
    requires count > 0
    ensures ParamsText(n, count + 1) == ParamText(n + 1) + ", " + ParamsText(n + 1, count)
  {
  }

  lemma FrontStays(front: string, text: string, last: string, whole: string)
    requires whole == text + ", " + last
    ensures front + whole == front + text + ", " + last
  {
  }

  lemma Regroups(a: string, b: string, c: string, d: string)
    ensures a + (b + (c + d)) == a + b + c + d
  {
  }

  lemma TakeNext(args: seq<Value>, values: seq<Value>, i: nat)
    requires i < |values|
    ensures args + values[..i] + [values[i]] == args + values[..i + 1]
    ensures S.Null in values[..i + 1] <==> S.Null in values[..i] || values[i] == S.Null
  {
    assert values[..i + 1] == values[..i] + [values[i]];
  }

  // ---- the compiler ----------------------------------------------------------------------

  class SqlCompiler {
    var args: seq<Value>

    constructor ()
      ensures args == []
    {
      args := [];
    }

    method Bind(value: Value) returns (placeholder: string)
      modifies this
      ensures args == old(args) + [value] && placeholder == ParamText(|args|)
    {
      args := args + [value];
      placeholder := "$" + Itoa(|args|);
    }

    method Compile(p: Predicate, table: TableRef) returns (text: Option<string>)
      modifies this
      ensures text.Some? <==> Compiles(p, table)
      ensures text.Some? ==> text.value == TextOf(p, |old(args)|) && args == old(args) + Values(p)
      decreases p, 1
    {
      if table.name == "" || p.table.name == "" || table.identity == 0 || p.table.identity == 0 || p.table != table {
        return None;
      }
      match p
      case Constant(_, truth) =>
        return Some(if truth then "TRUE" else "FALSE");
      case ContainsFold(_, _, _) =>
        text := CompileTest(p, table);
      case Compare(_, _, _, _) =>
        text := CompileTest(p, table);
      case In(_, _, _) =>
        text := CompileTest(p, table);
      case NullTest(_, _, negated) =>
        return Some(Qualified(p) + " " + (if negated then "IS NOT NULL" else "IS NULL"));
      case Group(_, disjunction, children) =>
        if children == [] {
          return None;
        }
        var parts := CompileAll(children, table);
        if parts.None? {
          return None;
        }
        return Some("(" + Join(parts.value, Separator(disjunction)) + ")");
      case Negation(_, children) =>
        if |children| != 1 {
          return None;
        }
        var inner := Compile(children[0], table);
        if inner.None? {
          return None;
        }
        assert AllValues(children) == Values(children[0]) + AllValues(children[1..]);
        return Some("NOT (" + inner.value + ")");
    }

    /** The tests that bind values. */
    method CompileTest(p: Predicate, table: TableRef) returns (text: Option<string>)
      requires (p.ContainsFold? || p.Compare? || p.In?) && p.table == table && table.name != "" && table.identity != 0
      modifies this
      ensures text.Some? <==> Compiles(p, table)
      ensures text.Some? ==> text.value == TextOf(p, |old(args)|) && args == old(args) + Values(p)
    {
      match p
      case ContainsFold(_, _, values) =>
        if |values| != 1 || !values[0].Text? {
          return None;
        }
        var placeholder := Bind(values[0]);
        return Some(Qualified(p) + " ILIKE " + placeholder + " ESCAPE '!'");
      case Compare(_, _, op, values) =>
        if |values| != 1 || values[0] == S.Null {
          return None;
        }
        var placeholder := Bind(values[0]);
        return Some(Qualified(p) + " " + op + " " + placeholder);
      case In(_, _, values) =>
        var placeholders := BindAll(values);
        if placeholders.None? {
          return None;
        }
        return Some(Qualified(p) + " IN (" + placeholders.value + ")");
    }

    /** The loop over the values of a membership test. */
    method BindAll(values: seq<Value>) returns (text: Option<string>)
      modifies this
      ensures text.Some? <==> S.Null !in values
      ensures text.Some? ==> text.value == ParamsText(|old(args)|, |values|) && args == old(args) + values
    {
      var placeholders := "";
      for i := 0 to |values|
        invariant S.Null !in values[..i]
        invariant args == old(args) + values[..i]
        invariant placeholders == ParamsText(|old(args)|, i)
      {
        ParamsGrow(|old(args)|, i);
        if values[i] == S.Null {
          return None;
        }
        var placeholder := Bind(values[i]);
        TakeNext(old(args), values, i);
        placeholders := Extended(placeholders, i, placeholder);
      }
      assert values[..|values|] == values;
      text := Some(placeholders);
    }

    /** The loop over the members of a group. */
    method CompileAll(ps: seq<Predicate>, table: TableRef) returns (parts: Option<seq<string>>)
      modifies this
      ensures parts.Some? <==> forall i :: 0 <= i < |ps| ==> Compiles(ps[i], table)
      ensures parts.Some? ==> parts.value == TextsOf(ps, |old(args)|) && args == old(args) + AllValues(ps)
      decreases ps, 0
    {
      var texts := [];
      for i := 0 to |ps|
        invariant forall j :: 0 <= j < i ==> Compiles(ps[j], table)
        invariant args + AllValues(ps[i..]) == old(args) + AllValues(ps)
        invariant texts + TextsOf(ps[i..], |args|) == TextsOf(ps, |old(args)|)
      {
        MemberCompiled(texts, args, ps, i);
        var compiled := Compile(ps[i], table);
        if compiled.None? {
          return None;
        }
        texts := texts + [compiled.value];
      }
      parts := Some(texts);
    }
  }
}
