/** Renaming the variables of an action or a pipeline. */
module ViewRewrite {
  import opened Basics
  import opened ViewScan

  type Bindings = map<Bytes, Bytes>

  const DOLLAR: Byte := 36
  const UNDERSCORE: Byte := 95

  predicate WordByte(b: Byte) {
    Letter(b) || 48 <= b <= 57 || b == UNDERSCORE
  }

  /** A variable starts here, outside strings. */
  predicate Starts(source: Bytes, i: nat) {
    i < |source| && source[i] == DOLLAR && QuoteAt(source, 0, i) == Outside
  }

  function VariableEnd(source: Bytes, at: nat): (end: nat)
    requires at <= |source|
    ensures at <= end <= |source| && (forall i :: at <= i < end ==> WordByte(source[i]))
    ensures end < |source| ==> !WordByte(source[end])
    decreases |source| - at
  {
    if at < |source| && WordByte(source[at]) then VariableEnd(source, at + 1) else at
  }

  /** A variable is a dollar sign outside strings with the letters, digits and underscores that follow it. */
  lemma VariablesMean(source: Bytes, i: nat, end: nat)
    requires i < |source|
    ensures Starts(source, i) && VariableEnd(source, i + 1) == end <==>
      && i < end <= |source| && source[i] as char == '$' && QuoteAt(source, 0, i) == Outside
      && (forall k :: i < k < end ==> IsWordChar(source[k] as char)) && (end < |source| ==> !IsWordChar(source[end] as char))
  {
    var n := VariableEnd(source, i + 1);
    if i < end <= |source| && end != n {
      assert end < n ==> WordByte(source[end]);
      assert n < end ==> !WordByte(source[n]);
    }
  }

  predicate IsWordChar(c: char) {
    'a' <= c <= 'z' || 'A' <= c <= 'Z' || '0' <= c <= '9' || c == '_'
  }

  /** The name of the variable that starts at i. */
  function NameOf(source: Bytes, i: nat): Bytes
    requires i < |source|
  {
    source[i + 1..VariableEnd(source, i + 1)]
  }

  /** Where the variable starts that the byte at i is part of. */
  function VariableAt(source: Bytes, i: nat): (start: Option<nat>)
    requires i < |source|
    ensures start.Some? ==> start.value <= i && Starts(source, start.value)
  {
    if Starts(source, i) then Some(i)
    else if i > 0 && WordByte(source[i]) then VariableAt(source, i - 1)
    else None
  }

  /** What comes out for the byte at i: the replacement at the start of a bound variable, nothing for the rest of one, and
      otherwise the byte itself. */
  function Part(source: Bytes, bindings: Bindings, i: nat): Bytes
    requires i < |source|
  {
    var start := VariableAt(source, i);
    if start.Some? && NameOf(source, start.value) in bindings then
      if start.value == i then bindings[NameOf(source, i)] else []
    else [source[i]]
  }

  function Parts(source: Bytes, bindings: Bindings, n: nat): Bytes
    requires n <= |source|
  {
    if n == 0 then [] else Parts(source, bindings, n - 1) + Part(source, bindings, n - 1)
  }

  function Rewritten(source: Bytes, bindings: Bindings): Bytes {
    Parts(source, bindings, |source|)
  }

  lemma {:induction false} InVariable(source: Bytes, start: nat, n: nat)
    requires Starts(source, start) && start < n <= VariableEnd(source, start + 1)
    ensures VariableAt(source, n - 1) == Some(start) && QuoteAt(source, 0, n) == Outside
    decreases n
  {
    if n > start + 1 {
      InVariable(source, start, n - 1);
      assert WordByte(source[n - 1]);
    }
  }

  /** What comes out for a variable, up to n. */
  function VariablePart(source: Bytes, bindings: Bindings, start: nat, n: nat): Bytes
    requires start < n <= |source|
  {
    if NameOf(source, start) in bindings then bindings[NameOf(source, start)] else source[start..n]
  }

  /** A whole variable comes out as its replacement, or as it is. */
  lemma {:induction false} VariableParts(source: Bytes, bindings: Bindings, start: nat, n: nat)
    requires Starts(source, start) && start < n <= VariableEnd(source, start + 1)
    ensures Parts(source, bindings, n) == Parts(source, bindings, start) + VariablePart(source, bindings, start, n)
    decreases n
  {
    InVariable(source, start, n);
    if n > start + 1 {
      VariableParts(source, bindings, start, n - 1);
      OneMore(source, bindings, start, n);
    } else {
      assert source[start..n] == [source[start]];
    }
  }

  lemma OneMore(source: Bytes, bindings: Bindings, start: nat, n: nat)
    requires start + 1 < n <= |source| && VariableAt(source, n - 1) == Some(start)
    ensures VariablePart(source, bindings, start, n - 1) + Part(source, bindings, n - 1) == VariablePart(source, bindings, start, n)
  {
    assert source[start..n] == source[start..n - 1] + [source[n - 1]];
  }

  lemma {:induction false} UnboundParts(source: Bytes, bindings: Bindings, n: nat)
    requires n <= |source| && forall i: nat :: i < n && Starts(source, i) ==> NameOf(source, i) !in bindings
    ensures Parts(source, bindings, n) == source[..n]
  {
    if n > 0 {
      UnboundParts(source, bindings, n - 1);
      assert source[..n] == source[..n - 1] + [source[n - 1]];
    }
  }

  /** No variable runs on over this place. */
  predicate Between(source: Bytes, index: nat)
    requires index <= |source|
  {
    index == 0 || index == |source| || VariableAt(source, index - 1).None? || !WordByte(source[index])
  }

  /** The loop over strings and variables rewrites byte by byte. */
  method RewriteVariables(source: Bytes, bindings: Bindings) returns (result: Bytes)
    ensures result == Rewritten(source, bindings)
  {
    if bindings == map[] {
      UnboundParts(source, bindings, |source|);
      assert source[..|source|] == source;
      return source;
    }
    result := [];
    var q, index := Outside, 0;
    while index < |source|
      invariant index <= |source| && q == QuoteAt(source, 0, index) && Between(source, index)
      invariant result == Parts(source, bindings, index)
    {
      if q == Outside && source[index] == DOLLAR {
        var end := index + 1;
        while end < |source| && WordByte(source[end])
          invariant index < end <= |source| && VariableEnd(source, end) == VariableEnd(source, index + 1)
        {
          end := end + 1;
        }
        InVariable(source, index, end);
        VariableParts(source, bindings, index, end);
        var name := source[index + 1..end];
        result := result + if name in bindings then bindings[name] else source[index..end];
        index := end;
      } else {
        PlainPart(source, bindings, index);
        result := result + [source[index]];
        q := Read(q, source[index]);
        index := index + 1;
      }
    }
  }

  lemma PlainPart(source: Bytes, bindings: Bindings, index: nat)
    requires index < |source| && Between(source, index) && !Starts(source, index)
    ensures VariableAt(source, index).None? && Part(source, bindings, index) == [source[index]]
  {
  }

  /** Bytes inside strings are kept. */
  lemma {:induction false} StringsAreKept(source: Bytes, bindings: Bindings, i: nat)
    requires i < |source| && QuoteAt(source, 0, i) != Outside
    ensures Part(source, bindings, i) == [source[i]]
  {
    if VariableAt(source, i).Some? {
      OutsideVariable(source, VariableAt(source, i).value, i);
    }
  }

  lemma {:induction false} OutsideVariable(source: Bytes, start: nat, i: nat)
    requires i < |source| && VariableAt(source, i) == Some(start)
    ensures QuoteAt(source, 0, i) == Outside
    decreases i
  {
    if !Starts(source, i) {
      OutsideVariable(source, start, i - 1);
    }
  }

  // ---- when nothing changes ---------------------------------------------------------------------------

  /** Every replacement is longer than the variable it stands for. */
  predicate Longer(bindings: Bindings) {
    forall name :: name in bindings ==> |bindings[name]| > 1 + |name|
  }

  /** Some bound variable starts before n, outside strings. */
  predicate Uses(source: Bytes, bindings: Bindings, n: nat)
    requires n <= |source|
  {
    exists i: nat :: i < n && Starts(source, i) && NameOf(source, i) in bindings
  }

  /** What has come out before n is no shorter than what was read, and longer when a bound variable was met. */
  lemma {:induction false} UsesLengthens(source: Bytes, bindings: Bindings, n: nat)
    requires n <= |source| && Longer(bindings)
    ensures |Parts(source, bindings, n)| >= n && (Uses(source, bindings, n) ==> |Parts(source, bindings, n)| > n)
    decreases n
  {
    if n > 0 {
      var start := VariableAt(source, n - 1);
      if start.Some? && NameOf(source, start.value) in bindings {
        UsesLengthens(source, bindings, start.value);
        BoundLengthens(source, bindings, start.value, n);
      } else {
        UsesLengthens(source, bindings, n - 1);
        UsedBefore(source, bindings, n);
      }
    }
  }

  lemma BoundLengthens(source: Bytes, bindings: Bindings, start: nat, n: nat)
    requires Longer(bindings) && 0 < n <= |source| && VariableAt(source, n - 1) == Some(start)
    requires NameOf(source, start) in bindings && |Parts(source, bindings, start)| >= start
    ensures |Parts(source, bindings, n)| > n
  {
    WithinVariable(source, start, n - 1);
    VariableParts(source, bindings, start, n);
  }

  lemma UsedBefore(source: Bytes, bindings: Bindings, n: nat)
    requires 0 < n <= |source|
    requires VariableAt(source, n - 1).Some? ==> NameOf(source, VariableAt(source, n - 1).value) !in bindings
    ensures Uses(source, bindings, n) ==> Uses(source, bindings, n - 1)
    ensures |Parts(source, bindings, n)| == |Parts(source, bindings, n - 1)| + 1
  {
  }

  lemma {:induction false} WithinVariable(source: Bytes, start: nat, i: nat)
    requires i < |source| && VariableAt(source, i) == Some(start)
    ensures i < VariableEnd(source, start + 1)
    decreases i
  {
    if !Starts(source, i) {
      WithinVariable(source, start, i - 1);
    }
  }

  /** The text stays as it is exactly when no bound variable occurs in it outside strings. */
  lemma UnchangedIff(source: Bytes, bindings: Bindings)
    requires Longer(bindings)
    ensures Rewritten(source, bindings) == source <==> !Uses(source, bindings, |source|)
  {
    UsesLengthens(source, bindings, |source|);
    if !Uses(source, bindings, |source|) {
      UnboundParts(source, bindings, |source|);
      assert source[..|source|] == source;
    }
  }
}
