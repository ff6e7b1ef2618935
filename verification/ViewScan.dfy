/** The scanners of the view parser: names, comments, actions and arguments. */
module ViewScan {
  import opened Basics
  import opened Runes

  const AT: Byte := 64
  const OPEN: Byte := 123
  const CLOSE: Byte := 125
  const DASH: Byte := 45
  const LEFT: Byte := 40
  const RIGHT: Byte := 41
  const SPACE: Byte := 32
  const TAB: Byte := 9
  const BACKSLASH: Byte := 92
  const DOUBLE: Byte := 34
  const SINGLE: Byte := 39
  const BACKTICK: Byte := 96

  predicate HasPrefix(source: Bytes, pos: nat, prefix: Bytes) {
    pos + |prefix| <= |source| && forall i :: 0 <= i < |prefix| ==> source[pos + i] == prefix[i]
  }

  lemma PrefixBytes(source: Bytes, pos: nat, a: Byte, b: Byte)
    requires HasPrefix(source, pos, [a, b])
    ensures source[pos] == a && source[pos + 1] == b
  {
    assert source[pos + 0] == [a, b][0] && source[pos + 1] == [a, b][1];
  }

  // ---- names ------------------------------------------------------------------------------------------

  predicate Letter(b: Byte) {
    97 <= b <= 122 || 65 <= b <= 90
  }

  /** The end of the letters from `at` on. */
  function NameEnd(source: Bytes, at: nat): (end: nat)
    requires at <= |source|
    ensures at <= end <= |source| && (forall i :: at <= i < end ==> Letter(source[i]))
    ensures end < |source| ==> !Letter(source[end])
    decreases |source| - at
  {
    if at < |source| && Letter(source[at]) then NameEnd(source, at + 1) else at
  }

  /** The letters from `at` on. */
  function NameAt(source: Bytes, at: nat): Bytes
    requires at <= |source|
  {
    source[at..NameEnd(source, at)]
  }

  /** A name is the letters of the alphabet, small or capital, up to the first other byte. */
  lemma NamesMean(source: Bytes, at: nat, end: nat)
    requires at <= |source|
    ensures NameEnd(source, at) == end <==>
      && at <= end <= |source| && (forall i :: at <= i < end ==> 'a' <= source[i] as char <= 'z' || 'A' <= source[i] as char <= 'Z')
      && (end < |source| ==> !('a' <= source[end] as char <= 'z' || 'A' <= source[end] as char <= 'Z'))
  {
    var n := NameEnd(source, at);
    if at <= end <= |source| && end != n {
      assert end < n ==> Letter(source[end]);
      assert n < end ==> !Letter(source[n]);
    }
  }

  method DirectiveName(source: Bytes, start: nat) returns (name: Bytes, end: nat)
    requires start <= |source|
    ensures end == NameEnd(source, start) && name == NameAt(source, start)
  {
    end := start;
    while end < |source| && Letter(source[end])
      invariant start <= end <= |source| && NameEnd(source, end) == NameEnd(source, start)
    {
      end := end + 1;
    }
    name := source[start..end];
  }

  predicate Blank(b: Byte) {
    b == SPACE || b == TAB
  }

  /** The end of the spaces and tabs from `at` on. */
  function BlankEnd(source: Bytes, at: nat): (end: nat)
    requires at <= |source|
    ensures at <= end <= |source| && (end < |source| ==> !Blank(source[end]))
    decreases |source| - at
  {
    if at < |source| && Blank(source[at]) then BlankEnd(source, at + 1) else at
  }

  lemma {:induction false} OnlyBlanks(source: Bytes, at: nat)
    requires at <= |source|
    ensures forall i :: at <= i < BlankEnd(source, at) ==> Blank(source[i])
    decreases |source| - at
  {
    if at < |source| && Blank(source[at]) {
      OnlyBlanks(source, at + 1);
    }
  }

  method SkipBlank(source: Bytes, start: nat) returns (end: nat)
    requires start <= |source|
    ensures end == BlankEnd(source, start)
  {
    end := start;
    while end < |source| && Blank(source[end])
      invariant start <= end <= |source| && BlankEnd(source, end) == BlankEnd(source, start)
    {
      end := end + 1;
    }
  }

  /** An opening parenthesis follows, after blanks. */
  predicate TakesArguments(source: Bytes, at: nat)
    requires at <= |source|
  {
    var i := BlankEnd(source, at);
    i < |source| && source[i] == LEFT
  }

  // ---- comments ---------------------------------------------------------------------------------------

  /** Behind the first closing mark of a comment from `at` on. */
  function CommentFrom(source: Bytes, at: nat): (end: Option<nat>)
    ensures end.Some? ==> at + 4 <= end.value <= |source|
    decreases |source| - at
  {
    if at + 4 > |source| then None
    else if HasPrefix(source, at, [DASH, DASH, CLOSE, CLOSE]) then Some(at + 4)
    else CommentFrom(source, at + 1)
  }

  /** The end of the comment that starts at `at`, if one does and is closed. */
  function CommentAt(source: Bytes, at: nat): (end: Option<nat>)
    ensures end.Some? ==> at < end.value <= |source|
  {
    if HasPrefix(source, at, [OPEN, OPEN, DASH, DASH]) then CommentFrom(source, at + 4) else None
  }

  lemma CommentOpens(source: Bytes, at: nat)
    requires CommentAt(source, at).Some?
    ensures HasPrefix(source, at, [OPEN, OPEN]) && source[at] == OPEN
  {
    MarkOpens(source, at);
  }

  lemma MarkOpens(source: Bytes, at: nat)
    requires HasPrefix(source, at, [OPEN, OPEN, DASH, DASH])
    ensures HasPrefix(source, at, [OPEN, OPEN]) && source[at] == OPEN
  {
    var mark := [OPEN, OPEN, DASH, DASH];
    assert source[at + 0] == mark[0] && source[at + 1] == mark[1];
  }

  lemma {:induction false} CommentMeans(source: Bytes, at: nat, end: nat)
    ensures CommentFrom(source, at) == Some(end) <==>
      && at + 4 <= end && HasPrefix(source, end - 4, [DASH, DASH, CLOSE, CLOSE])
      && forall i: nat :: at <= i < end - 4 ==> !HasPrefix(source, i, [DASH, DASH, CLOSE, CLOSE])
    decreases |source| - at
  {
    if at + 4 <= |source| && !HasPrefix(source, at, [DASH, DASH, CLOSE, CLOSE]) {
      CommentMeans(source, at + 1, end);
    }
  }

  method CommentEnd(source: Bytes, start: nat) returns (end: Option<nat>)
    requires HasPrefix(source, start, [OPEN, OPEN, DASH, DASH])
    ensures end == CommentAt(source, start) && (end.Some? ==> Ascii(source[end.value - 1]))
  {
    var i := start + 4;
    while i + 4 <= |source|
      invariant start + 4 <= i && CommentFrom(source, i) == CommentFrom(source, start + 4)
    {
      if HasPrefix(source, i, [DASH, DASH, CLOSE, CLOSE]) {
        assert source[i + 3] == [DASH, DASH, CLOSE, CLOSE][3];
        return Some(i + 4);
      }
      i := i + 1;
    }
    end := None;
  }

  // ---- quotes -----------------------------------------------------------------------------------------

  /** Inside a string that `mark` closes, perhaps right after a backslash; outside when there is no mark. */
  datatype Quote = Outside | Inside(mark: Byte, escaped: bool)

  function Read(q: Quote, ch: Byte): Quote {
    match q
    case Outside => if ch == DOUBLE || ch == SINGLE || ch == BACKTICK then Inside(ch, false) else Outside
    case Inside(mark, escaped) =>
      if mark != BACKTICK && escaped then Inside(mark, false)
      else if mark != BACKTICK && ch == BACKSLASH then Inside(mark, true)
      else if ch == mark then Outside
      else q
  }

  /** The state before position `at`, having read from `from` on. */
  function QuoteAt(source: Bytes, from: nat, at: nat): Quote
    requires from <= at <= |source|
    decreases at
  {
    if at == from then Outside else Read(QuoteAt(source, from, at - 1), source[at - 1])
  }

  /** How many backslashes stand right before j, after `open`. */
  function Backslashes(source: Bytes, open: nat, j: nat): nat
    requires open < j <= |source|
    decreases j
  {
    if j - 1 > open && source[j - 1] == 92 then 1 + Backslashes(source, open, j - 1) else 0
  }

  /** The mark at j ends the string that starts at `open`: it is the same mark, and, unless that is a backtick, an even
      number of backslashes stands before it. */
  predicate EndsString(source: Bytes, open: nat, j: nat)
    requires open < j < |source|
  {
    source[j] == source[open] && (source[open] == 96 || Backslashes(source, open, j) % 2 == 0)
  }

  /** Outside strings a double quote, a single quote or a backtick starts one, and nothing else does; it goes on up to the
      first mark that ends it, and the scan is outside again right behind that. */
  lemma {:induction false} StringsMean(source: Bytes, from: nat, open: nat, j: nat)
    requires from <= open < j <= |source| && QuoteAt(source, from, open) == Outside
    ensures source[open] !in {34, 39, 96} ==> QuoteAt(source, from, open + 1) == Outside
    ensures source[open] in {34, 39, 96} && (forall i :: open < i < j ==> !EndsString(source, open, i)) ==>
      && QuoteAt(source, from, j) == Inside(source[open], source[open] != 96 && Backslashes(source, open, j) % 2 == 1)
      && (j < |source| && EndsString(source, open, j) ==> QuoteAt(source, from, j + 1) == Outside)
    decreases j
  {
    if j > open + 1 {
      StringsMean(source, from, open, j - 1);
    }
  }

  // ---- actions ------------------------------------------------------------------------------------------

  /** Behind the first closing braces outside strings, from `at` on. */
  function ActionFrom(source: Bytes, at: nat, q: Quote): (end: Option<nat>)
    ensures end.Some? ==> at + 2 <= end.value <= |source| && source[end.value - 1] == CLOSE
    decreases |source| - at
  {
    if at + 1 >= |source| then None
    else if q == Outside && source[at] == CLOSE && source[at + 1] == CLOSE then Some(at + 2)
    else ActionFrom(source, at + 1, Read(q, source[at]))
  }

  function ActionEnd(source: Bytes, start: nat): (end: Option<nat>)
    ensures end.Some? ==> start + 4 <= end.value <= |source| && source[end.value - 1] == CLOSE
  {
    ActionFrom(source, start + 2, Outside)
  }

  /** The closing braces of an action, outside its strings. */
  predicate Closes(source: Bytes, from: nat, i: nat)
    requires from <= i
  {
    i + 1 < |source| && source[i] == CLOSE && source[i + 1] == CLOSE && QuoteAt(source, from, i) == Outside
  }

  /** The scan ends behind the first closing braces outside strings, and only there. */
  lemma {:induction false} ActionMeans(source: Bytes, from: nat, at: nat, end: nat)
    requires from <= at <= |source|
    ensures ActionFrom(source, at, QuoteAt(source, from, at)) == Some(end) <==>
      at + 2 <= end && Closes(source, from, end - 2) && forall i: nat :: at <= i < end - 2 ==> !Closes(source, from, i)
    decreases |source| - at
  {
    if at + 1 < |source| && !Closes(source, from, at) {
      ActionMeans(source, from, at + 1, end);
    }
  }

  method ScanGoAction(source: Bytes, start: nat) returns (end: Option<nat>)
    requires start + 2 <= |source|
    ensures end == ActionEnd(source, start)
  {
    var q := Outside;
    var index := start + 2;
    while index + 1 < |source|
      invariant start + 2 <= index <= |source| && ActionFrom(source, index, q) == ActionEnd(source, start)
    {
      if q == Outside && source[index] == CLOSE && source[index + 1] == CLOSE {
        return Some(index + 2);
      }
      q := Read(q, source[index]);
      index := index + 1;
    }
    end := None;
  }

  // ---- arguments -----------------------------------------------------------------------------------------

  function Deeper(q: Quote, ch: Byte, depth: int): int {
    if q != Outside then depth else if ch == LEFT then depth + 1 else if ch == RIGHT then depth - 1 else depth
  }

  /** Behind the parenthesis that brings the depth back to 0, from `at` on. */
  function BalancedFrom(source: Bytes, at: nat, q: Quote, depth: int): (end: Option<nat>)
    ensures end.Some? ==> at < end.value <= |source| && source[end.value - 1] == RIGHT
    decreases |source| - at
  {
    if at >= |source| then None
    else if q == Outside && source[at] == RIGHT && depth == 1 then Some(at + 1)
    else BalancedFrom(source, at + 1, Read(q, source[at]), Deeper(q, source[at], depth))
  }

  function BalancedEnd(source: Bytes, start: nat): (end: Option<nat>)
    ensures end.Some? ==> start < end.value <= |source| && source[end.value - 1] == RIGHT
  {
    BalancedFrom(source, start, Outside, 0)
  }

  /** Parentheses opened less those closed in [from, at), outside strings. */
  function Depth(source: Bytes, from: nat, at: nat): int
    requires from <= at <= |source|
    decreases at
  {
    if at == from then 0 else Deeper(QuoteAt(source, from, at - 1), source[at - 1], Depth(source, from, at - 1))
  }

  /** The places in [from, at) where this byte stands outside strings. */
  ghost function Standing(source: Bytes, from: nat, at: nat, ch: Byte): set<nat>
    requires from <= at <= |source|
  {
    set i: nat | from <= i < at && source[i] == ch && QuoteAt(source, from, i) == Outside
  }

  lemma {:induction false} DepthCounts(source: Bytes, from: nat, at: nat)
    requires from <= at <= |source|
    ensures Depth(source, from, at) == |Standing(source, from, at, 40)| - |Standing(source, from, at, 41)|
    decreases at
  {
    if from < at {
      DepthCounts(source, from, at - 1);
      StandingStep(source, from, at, 40);
      StandingStep(source, from, at, 41);
    }
  }

  lemma StandingStep(source: Bytes, from: nat, at: nat, ch: Byte)
    requires from < at <= |source|
    ensures |Standing(source, from, at, ch)| == |Standing(source, from, at - 1, ch)|
         + if source[at - 1] == ch && QuoteAt(source, from, at - 1) == Outside then 1 else 0
  {
    var more := if source[at - 1] == ch && QuoteAt(source, from, at - 1) == Outside then {at - 1} else {};
    assert Standing(source, from, at, ch) == Standing(source, from, at - 1, ch) + more;
  }

  /** A parenthesis at i closes the depth, outside strings. */
  predicate Balances(source: Bytes, from: nat, i: nat)
    requires from <= i
  {
    i < |source| && source[i] == RIGHT && QuoteAt(source, from, i) == Outside && Depth(source, from, i + 1) == 0
  }

  /** The scan ends behind the first parenthesis that balances, and only there. */
  lemma {:induction false} BalancedMeans(source: Bytes, from: nat, at: nat, end: nat)
    requires from <= at <= |source|
    ensures BalancedFrom(source, at, QuoteAt(source, from, at), Depth(source, from, at)) == Some(end) <==>
      at < end && Balances(source, from, end - 1) && forall i: nat :: at <= i < end - 1 ==> !Balances(source, from, i)
    decreases |source| - at
  {
    if at < |source| && !Balances(source, from, at) {
      BalancedMeans(source, from, at + 1, end);
    }
  }

  method ScanBalanced(source: Bytes, start: nat) returns (end: Option<nat>)
    requires start < |source|
    ensures end == BalancedEnd(source, start)
  {
    var q, depth, index := Outside, 0, start;
    while index < |source|
      invariant start <= index <= |source| && BalancedFrom(source, index, q, depth) == BalancedEnd(source, start)
    {
      var ch := source[index];
      if q == Outside && ch == LEFT {
        depth := depth + 1;
      } else if q == Outside && ch == RIGHT {
        depth := depth - 1;
        if depth == 0 {
          return Some(index + 1);
        }
      }
      q := Read(q, ch);
      index := index + 1;
    }
    end := None;
  }

  /** The end of the arguments that follow after blanks, if any do and are closed. */
  function ArgumentsAt(source: Bytes, at: nat): (end: Option<nat>)
    requires at <= |source|
    ensures end.Some? ==> at < end.value <= |source| && Ascii(source[end.value - 1])
  {
    if TakesArguments(source, at) then BalancedEnd(source, BlankEnd(source, at)) else None
  }

  /** What stands between the parentheses. */
  function ArgumentsText(source: Bytes, at: nat): Bytes
    requires at <= |source| && ArgumentsAt(source, at).Some?
  {
    source[BlankEnd(source, at) + 1..ArgumentsAt(source, at).value - 1]
  }

  /** The arguments of a word that ends at `at`: spaces and tabs at most, then `(`, the text, and the `)` that is the first to
      balance it outside strings. */
  ghost predicate IsArguments(source: Bytes, at: nat, raw: Bytes, end: nat)
    requires at <= |source|
  {
    exists left: nat :: IsArgumentsFrom(source, at, left, raw, end)
  }

  predicate IsArgumentsFrom(source: Bytes, at: nat, left: nat, raw: Bytes, end: nat)
    requires at <= |source|
  {
    && at <= left < end - 1 < |source| && (forall i :: at <= i < left ==> source[i] in {9, 32})
    && source[left..end] == [40] + raw + [41]
    && Balances(source, left, end - 1) && forall i: nat :: left <= i < end - 1 ==> !Balances(source, left, i)
  }

  /** That is what the scan finds, when it finds any. */
  lemma ArgumentsMean(source: Bytes, at: nat, raw: Bytes, end: nat)
    requires at <= |source|
    ensures ArgumentsAt(source, at) == Some(end) && ArgumentsText(source, at) == raw <==> IsArguments(source, at, raw, end)
  {
    if ArgumentsAt(source, at) == Some(end) && ArgumentsText(source, at) == raw {
      ScannedIsArguments(source, at, end);
    }
    if left: nat :| IsArgumentsFrom(source, at, left, raw, end) {
      ArgumentsAreScanned(source, at, left, raw, end);
    }
  }

  lemma ScannedIsArguments(source: Bytes, at: nat, end: nat)
    requires at <= |source| && ArgumentsAt(source, at) == Some(end)
    ensures IsArgumentsFrom(source, at, BlankEnd(source, at), ArgumentsText(source, at), end)
  {
    var left := BlankEnd(source, at);
    OnlyBlanks(source, at);
    BalancedMeans(source, left, left, end);
    assert source[left] == 40 && source[end - 1] == 41 && left < end - 1;
    assert source[left..end] == [40] + source[left + 1..end - 1] + [41];
  }

  lemma ArgumentsAreScanned(source: Bytes, at: nat, left: nat, raw: Bytes, end: nat)
    requires at <= |source| && IsArgumentsFrom(source, at, left, raw, end)
    ensures ArgumentsAt(source, at) == Some(end) && ArgumentsText(source, at) == raw
  {
    assert source[left] == source[left..end][0] == 40;
    OnlyBlanks(source, at);
    assert left == BlankEnd(source, at);
    BalancedMeans(source, left, left, end);
    assert raw == ([40] + raw + [41])[1..|raw| + 1];
    assert source[left..end][1..|raw| + 1] == source[left + 1..end - 1];
  }
}
