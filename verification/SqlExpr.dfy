/** The boolean expressions of a WHERE clause: how PostgreSQL groups their words,
    NOT before AND before OR, and their value in three-valued logic. */
module SqlExpr {
  import opened Basics
  import opened SqlText

  datatype Expr =
    | Or(left: Expr, right: Expr)
    | And(left: Expr, right: Expr)
    | Not(operand: Expr)
    | Constant(truth: bool)
    | Compare(table: string, column: string, op: string, k: nat)
    | Ilike(table: string, column: string, k: nat, escape: string)
    | In(table: string, column: string, ks: seq<nat>)
    | NullTest(table: string, column: string, negated: bool)

  datatype Parsed<+T> = Failed | Parsed(value: T, rest: seq<Token>)

  // ---- grouping --------------------------------------------------------------

  predicate Starts(ts: seq<Token>, t: Token) { ts != [] && ts[0] == t }

  function ParseOr(ts: seq<Token>): (r: Parsed<Expr>)
    ensures r.Parsed? ==> |r.rest| < |ts|
    decreases |ts|, 3
  {
    var l := ParseAnd(ts);
    if l.Parsed? && Starts(l.rest, Word("OR")) then
      var r := ParseOr(l.rest[1..]);
      if r.Parsed? then Parsed(Or(l.value, r.value), r.rest) else Failed
    else l
  }

  function ParseAnd(ts: seq<Token>): (r: Parsed<Expr>)
    ensures r.Parsed? ==> |r.rest| < |ts|
    decreases |ts|, 2
  {
    var l := ParseNot(ts);
    if l.Parsed? && Starts(l.rest, Word("AND")) then
      var r := ParseAnd(l.rest[1..]);
      if r.Parsed? then Parsed(And(l.value, r.value), r.rest) else Failed
    else l
  }

  function ParseNot(ts: seq<Token>): (r: Parsed<Expr>)
    ensures r.Parsed? ==> |r.rest| < |ts|
    decreases |ts|, 1
  {
    if Starts(ts, Word("NOT")) then
      var e := ParseNot(ts[1..]);
      if e.Parsed? then Parsed(Not(e.value), e.rest) else Failed
    else ParsePrimary(ts)
  }

  function ParsePrimary(ts: seq<Token>): (r: Parsed<Expr>)
    ensures r.Parsed? ==> |r.rest| < |ts|
    decreases |ts|, 0
  {
    if Starts(ts, LParen) then
      var e := ParseOr(ts[1..]);
      if e.Parsed? && Starts(e.rest, RParen) then Parsed(e.value, e.rest[1..]) else Failed
    else if Starts(ts, Word("TRUE")) then Parsed(Constant(true), ts[1..])
    else if Starts(ts, Word("FALSE")) then Parsed(Constant(false), ts[1..])
    else if |ts| >= 3 && ts[0].Ident? && ts[1] == Dot && ts[2].Ident? then ParseTest(ts[0].name, ts[2].name, ts[3..])
    else Failed
  }

  /** What follows a qualified column. */
  function ParseTest(table: string, column: string, ts: seq<Token>): (r: Parsed<Expr>)
    ensures r.Parsed? ==> |r.rest| < |ts|
  {
    if |ts| >= 2 && (ts[0].Symbol? || ts[0] == Word("LIKE")) && ts[1].Param? then
      Parsed(Compare(table, column, if ts[0].Symbol? then ts[0].symbol else "LIKE", ts[1].k), ts[2..])
    else if |ts| >= 4 && ts[0] == Word("ILIKE") && ts[1].Param? && ts[2] == Word("ESCAPE") && ts[3].Quoted? then
      Parsed(Ilike(table, column, ts[1].k, ts[3].text), ts[4..])
    else if |ts| >= 2 && ts[0] == Word("IN") && ts[1] == LParen then
      var ks := ParseParams(ts[2..]);
      if ks.Parsed? && Starts(ks.rest, RParen) then Parsed(In(table, column, ks.value), ks.rest[1..]) else Failed
    else if |ts| >= 2 && ts[0] == Word("IS") && ts[1] == Word("NULL") then Parsed(NullTest(table, column, false), ts[2..])
    else if |ts| >= 3 && ts[0] == Word("IS") && ts[1] == Word("NOT") && ts[2] == Word("NULL") then
      Parsed(NullTest(table, column, true), ts[3..])
    else Failed
  }

  function ParseParams(ts: seq<Token>): (r: Parsed<seq<nat>>)
    ensures r.Parsed? ==> |r.rest| < |ts|
  {
    if ts == [] || !ts[0].Param? then Failed
    else if |ts| >= 2 && ts[1] == Comma then
      var more := ParseParams(ts[2..]);
      if more.Parsed? then Parsed([ts[0].k] + more.value, more.rest) else Failed
    else Parsed([ts[0].k], ts[1..])
  }

  /** The expression a WHERE text spells, when all of the text belongs to it. */
  function Read(text: string): Option<Expr> {
    var ts := Lex(text);
    if ts.None? then None
    else
      var e := ParseOr(ts.value);
      if e.Parsed? && e.rest == [] then Some(e.value) else None
  }

  // ---- value -------------------------------------------------------------------

  datatype Truth = True | False | Unknown

  datatype Value = Null | Number(n: int) | Text(s: string)

  /** How the database compares values; nothing is assumed about it. */
  datatype Database = Database(compare: (string, Value, Value) -> Truth, ilike: (Value, Value, string) -> Truth)

  /** The value a row has in a column. */
  type Row = string -> Value

  function Both(a: Truth, b: Truth): Truth {
    if a == False || b == False then False else if a == True && b == True then True else Unknown
  }

  function Either(a: Truth, b: Truth): Truth {
    if a == True || b == True then True else if a == False && b == False then False else Unknown
  }

  function Negated(a: Truth): Truth {
    match a case True => False case False => True case Unknown => Unknown
  }

  function Truly(b: bool): Truth { if b then True else False }

  /** x IN (...) is x = a OR x = b OR ... */
  function Among(db: Database, v: Value, args: seq<Value>): Truth {
    if args == [] then False else Either(db.compare("=", v, args[0]), Among(db, v, args[1..]))
  }

  function Arg(args: seq<Value>, k: nat): Value { if 1 <= k <= |args| then args[k - 1] else Null }

  function Args(args: seq<Value>, ks: seq<nat>): seq<Value> {
    seq(|ks|, i requires 0 <= i < |ks| => Arg(args, ks[i]))
  }

  function Eval(e: Expr, db: Database, row: Row, args: seq<Value>): Truth {
    match e
    case Or(l, r) => Either(Eval(l, db, row, args), Eval(r, db, row, args))
    case And(l, r) => Both(Eval(l, db, row, args), Eval(r, db, row, args))
    case Not(o) => Negated(Eval(o, db, row, args))
    case Constant(b) => Truly(b)
    case Compare(table, column, op, k) => db.compare(op, row(column), Arg(args, k))
    case Ilike(table, column, k, escape) => db.ilike(row(column), Arg(args, k), escape)
    case In(table, column, ks) => Among(db, row(column), Args(args, ks))
    case NullTest(table, column, negated) => Truly((row(column) == Null) != negated)
  }
}
