/** The line writer that development processes print through. */
module LineWriter {
  import opened Basics

  const BUFFER_MAX := 65536

  /** The bytes of " [output truncated]" and a newline. */
  const TRUNCATION: Bytes := [32, 91, 111, 117, 116, 112, 117, 116, 32, 116, 114, 117, 110, 99, 97, 116, 101, 100, 93, 10]

  /** A line as written after the service's prefix; only whole lines are looked at for the ready message. */
  datatype Line = Line(text: Bytes, whole: bool)

  // ---- the output as a function of the stream ----------------------------------------------------------

  /** A line up to the limit is written whole; a longer one is cut and marked. */
  function Rendered(content: Bytes, end: Bytes): Line {
    if |content| <= BUFFER_MAX then Line(content + end, true) else Line(content[..BUFFER_MAX] + TRUNCATION, false)
  }

  function LinesOf(stream: Bytes): seq<Line>
    decreases |stream|
  {
    var n := FirstNewline(stream);
    if stream == [] then []
    else if n == |stream| then [Rendered(stream, [])]
    else [Rendered(stream[..n], [NEWLINE])] + LinesOf(stream[n + 1..])
  }

  // ---- the writer, byte by byte --------------------------------------------------------------------------

  datatype State = State(buffer: Bytes, discarding: bool, lines: seq<Line>)

  function Step(st: State, b: Byte): State {
    if st.discarding then st.(discarding := b != NEWLINE)
    else if b == NEWLINE then State([], false, st.lines + [Line(st.buffer + [NEWLINE], true)])
    else if |st.buffer| < BUFFER_MAX then st.(buffer := st.buffer + [b])
    else State([], true, st.lines + [Line(st.buffer + TRUNCATION, false)])
  }

  function Fed(st: State, s: Bytes): State
    decreases |s|
  {
    if s == [] then st else Fed(Step(st, s[0]), s[1..])
  }

  function Flushed(st: State): State {
    if st.buffer == [] || st.discarding then State([], false, st.lines)
    else State([], false, st.lines + [Line(st.buffer, true)])
  }

  predicate Bounded(st: State) {
    |st.buffer| <= BUFFER_MAX && (st.discarding ==> st.buffer == [])
  }

  lemma {:induction false} FedKeepsBound(st: State, s: Bytes)
    requires Bounded(st)
    ensures Bounded(Fed(st, s))
    ensures st.lines <= Fed(st, s).lines
    decreases |s|
  {
    if s != [] {
      FedKeepsBound(Step(st, s[0]), s[1..]);
    }
  }

  lemma {:induction false} FedJoins(st: State, s: Bytes, t: Bytes)
    ensures Fed(st, s + t) == Fed(Fed(st, s), t)
    decreases |s|
  {
    if s == [] {
      assert s + t == t;
    } else {
      assert (s + t)[0] == s[0] && (s + t)[1..] == s[1..] + t;
      FedJoins(Step(st, s[0]), s[1..], t);
    }
  }

  lemma {:induction false} Absorbs(st: State, s: Bytes)
    requires !st.discarding && NEWLINE !in s && |st.buffer| + |s| <= BUFFER_MAX
    ensures Fed(st, s) == st.(buffer := st.buffer + s)
    decreases |s|
  {
    if s == [] {
      assert st.buffer + s == st.buffer;
    } else {
      Absorbs(Step(st, s[0]), s[1..]);
      assert st.buffer + [s[0]] + s[1..] == st.buffer + s;
    }
  }

  lemma {:induction false} Skips(st: State, s: Bytes)
    requires st.discarding && NEWLINE !in s
    ensures Fed(st, s) == st
    decreases |s|
  {
    if s != [] {
      Skips(Step(st, s[0]), s[1..]);
    }
  }

  /** More than fits: the buffer is cut at the limit and the rest of the line is skipped. */
  lemma Truncates(st: State, s: Bytes)
    requires Bounded(st) && !st.discarding && NEWLINE !in s && |st.buffer| + |s| > BUFFER_MAX
    ensures var kept := st.buffer + s[..BUFFER_MAX - |st.buffer|];
      Fed(st, s) == State([], true, st.lines + [Line(kept + TRUNCATION, false)])
  {
    var capacity := BUFFER_MAX - |st.buffer|;
    var full := st.(buffer := st.buffer + s[..capacity]);
    assert s == s[..capacity] + s[capacity..];
    FedJoins(st, s[..capacity], s[capacity..]);
    Absorbs(st, s[..capacity]);
    Skips(Step(full, s[capacity]), s[capacity..][1..]);
  }

  // ---- both agree -------------------------------------------------------------------------------------------

  /** What an unfinished line leaves behind. */
  lemma Segment(st: State, s: Bytes)
    requires st.buffer == [] && !st.discarding && NEWLINE !in s
    ensures Fed(st, s) == if |s| <= BUFFER_MAX then st.(buffer := s)
                          else State([], true, st.lines + [Rendered(s, [])])
  {
    if |s| <= BUFFER_MAX {
      Absorbs(st, s);
      assert [] + s == s;
    } else {
      Truncates(st, s);
      assert [] + s[..BUFFER_MAX] == s[..BUFFER_MAX];
    }
  }

  lemma SegmentEnds(st: State, s: Bytes)
    requires st.buffer == [] && !st.discarding && NEWLINE !in s
    ensures Fed(st, s + [NEWLINE]) == State([], false, st.lines + [Rendered(s, [NEWLINE])])
  {
    Segment(st, s);
    FedJoins(st, s, [NEWLINE]);
    assert Fed(Fed(st, s), [NEWLINE]) == Step(Fed(st, s), NEWLINE);
  }

  lemma LastSegment(st: State, s: Bytes)
    requires st.buffer == [] && !st.discarding && NEWLINE !in s
    ensures Flushed(Fed(st, s)) == State([], false, st.lines + if s == [] then [] else [Rendered(s, [])])
  {
    Segment(st, s);
    if s == [] {
      assert st.lines + [] == st.lines;
    } else {
      assert s + [] == s;
    }
  }

  /** The output is the function of the whole stream. */
  lemma {:induction false} FedIsLines(st: State, stream: Bytes)
    requires st.buffer == [] && !st.discarding
    ensures Flushed(Fed(st, stream)) == State([], false, st.lines + LinesOf(stream))
    decreases |stream|
  {
    var n := FirstNewline(stream);
    if n == |stream| {
      assert stream[..n] == stream;
      LastSegment(st, stream);
    } else {
      var first, rest := stream[..n], stream[n + 1..];
      var line := Rendered(first, [NEWLINE]);
      SegmentEnds(st, first);
      FedJoins(st, first + [NEWLINE], rest);
      assert first + [NEWLINE] + rest == stream;
      FedIsLines(State([], false, st.lines + [line]), rest);
      LinesOfFirst(stream, n, first, rest);
      Associates(st.lines, line, LinesOf(rest));
    }
  }

  lemma {:induction false} LinesOfFirst(stream: Bytes, n: nat, first: Bytes, rest: Bytes)
    requires n == FirstNewline(stream) < |stream| && first == stream[..n] && rest == stream[n + 1..]
    ensures LinesOf(stream) == [Rendered(first, [NEWLINE])] + LinesOf(rest)
  {
  }

  lemma Associates(a: seq<Line>, line: Line, b: seq<Line>)
    ensures a + [line] + b == a + ([line] + b)
  {
  }

  // ---- writes of any size ---------------------------------------------------------------------------------------

  function Concat(chunks: seq<Bytes>): Bytes {
    if chunks == [] then [] else chunks[0] + Concat(chunks[1..])
  }

  /** The state after one write for each chunk. */
  function Written(st: State, chunks: seq<Bytes>): State
    decreases |chunks|
  {
    if chunks == [] then st else Written(Fed(st, chunks[0]), chunks[1..])
  }

  lemma {:induction false} ChunksJoin(st: State, chunks: seq<Bytes>)
    requires Bounded(st)
    ensures Written(st, chunks) == Fed(st, Concat(chunks)) && Bounded(Written(st, chunks))
    decreases |chunks|
  {
    if chunks != [] {
      FedKeepsBound(st, chunks[0]);
      ChunksJoin(Fed(st, chunks[0]), chunks[1..]);
      FedJoins(st, chunks[0], Concat(chunks[1..]));
    }
  }

  /** However the stream is cut into writes, the lines after the flush are those of the whole stream. */
  lemma ChunksDoNotMatter(chunks: seq<Bytes>)
    ensures Flushed(Written(State([], false, []), chunks)) == State([], false, LinesOf(Concat(chunks)))
  {
    var start := State([], false, []);
    ChunksJoin(start, chunks);
    FedIsLines(start, Concat(chunks));
    assert [] + LinesOf(Concat(chunks)) == LinesOf(Concat(chunks));
  }

  // ---- the writer itself ----------------------------------------------------------------------------------------

  class Writer {
    var buffer: Bytes
    var discarding: bool
    /** The lines the destination took, and how many more it takes before it fails. */
    var lines: seq<Line>
    var room: nat

    constructor (room: nat)
      ensures Value() == State([], false, []) && this.room == room
    {
      buffer, discarding, lines, this.room := [], false, [], room;
    }

    function Value(): State
      reads this
    {
      State(buffer, discarding, lines)
    }

    /** Writes every line the bytes complete. On an error the line and all that follows it are lost. */
    method Write(value: Bytes) returns (consumed: nat, ok: bool)
      requires Bounded(Value())
      modifies this
      ensures consumed == |value| && Bounded(Value())
      ensures ok ==> Value() == Fed(old(Value()), value) && |lines| + room == old(|lines| + room)
      ensures !ok ==> room == 0 && lines < Fed(old(Value()), value).lines
    {
      consumed := |value|;
      var rest := value;
      while rest != []
        invariant Bounded(Value()) && Fed(Value(), rest) == Fed(old(Value()), value)
        invariant |lines| + room == old(|lines| + room)
        decreases |rest|, if discarding then 0 else 1
      {
        var newline := FirstNewline(rest);
        var found := newline < |rest|;
        if discarding {
          SkipStep(Value(), rest, newline);
          if !found {
            return consumed, true;
          }
          discarding := false;
          rest := rest[newline + 1..];
          continue;
        }
        var capacity := BUFFER_MAX - |buffer|;
        if found && newline <= capacity {
          LineStep(Value(), rest, newline);
          var line := buffer + rest[..newline + 1];
          rest := rest[newline + 1..];
          buffer := [];
          ok := WriteLine(Line(line, true), rest);
          if !ok {
            return;
          }
          continue;
        }
        if !found && |rest| <= capacity {
          assert rest[..newline] == rest;
          Absorbs(Value(), rest);
          buffer := buffer + rest;
          break;
        }
        CutStep(Value(), rest, newline);
        var line := buffer + rest[..capacity] + TRUNCATION;
        rest := rest[capacity..];
        buffer := [];
        discarding := true;
        ok := WriteLine(Line(line, false), rest);
        if !ok {
          return;
        }
      }
      ok := true;
    }

    /** Hands a line to the destination. */
    method WriteLine(line: Line, ghost rest: Bytes) returns (ok: bool)
      requires Bounded(Value())
      modifies this`lines, this`room
      ensures ok ==> lines == old(lines) + [line] && room == old(room) - 1
      ensures !ok ==> lines == old(lines) && room == old(room) == 0
      ensures lines < Fed(State(buffer, discarding, old(lines) + [line]), rest).lines || ok
    {
      FedKeepsBound(State(buffer, discarding, lines + [line]), rest);
      if room == 0 {
        return false;
      }
      lines := lines + [line];
      room := room - 1;
      ok := true;
    }

    /** Writes what is left of an unfinished line. */
    method Flush() returns (ok: bool)
      requires Bounded(Value())
      modifies this
      ensures ok ==> Value() == Flushed(old(Value()))
      ensures !ok ==> old(room) == 0 && Value() == Flushed(old(Value())).(lines := old(lines))
    {
      if buffer == [] || discarding {
        buffer, discarding := [], false;
        return true;
      }
      var line := buffer;
      buffer := [];
      ok := WriteLine(Line(line, true), []);
    }
  }

  /** Feeding up to a newline, the newline, and the rest. */
  lemma FedNewline(st: State, s: Bytes, n: nat)
    requires n < |s| && s[n] == NEWLINE
    ensures Fed(st, s) == Fed(Step(Fed(st, s[..n]), NEWLINE), s[n + 1..])
  {
    assert s == s[..n] + s[n..] && s[n..][1..] == s[n + 1..];
    FedJoins(st, s[..n], s[n..]);
  }

  lemma SkipStep(st: State, s: Bytes, n: nat)
    requires st.discarding && n <= |s| && NEWLINE !in s[..n] && (n < |s| ==> s[n] == NEWLINE)
    ensures Fed(st, s) == if n == |s| then st else Fed(st.(discarding := false), s[n + 1..])
  {
    Skips(st, s[..n]);
    if n == |s| {
      assert s[..n] == s;
    } else {
      FedNewline(st, s, n);
    }
  }

  lemma LineStep(st: State, s: Bytes, n: nat)
    requires !st.discarding && n < |s| && NEWLINE !in s[..n] && s[n] == NEWLINE && |st.buffer| + n <= BUFFER_MAX
    ensures Fed(st, s) == Fed(State([], false, st.lines + [Line(st.buffer + s[..n + 1], true)]), s[n + 1..])
  {
    Absorbs(st, s[..n]);
    StepNewline(st, s[..n], s[..n + 1]);
    FedNewline(st, s, n);
  }

  lemma StepNewline(st: State, content: Bytes, line: Bytes)
    requires !st.discarding && line == content + [NEWLINE]
    ensures Step(st.(buffer := st.buffer + content), NEWLINE) == State([], false, st.lines + [Line(st.buffer + line, true)])
  {
    assert st.buffer + content + [NEWLINE] == st.buffer + line;
  }

  lemma CutStep(st: State, s: Bytes, n: nat)
    requires !st.discarding && |st.buffer| <= BUFFER_MAX < |st.buffer| + n && n <= |s| && NEWLINE !in s[..n]
    ensures var capacity := BUFFER_MAX - |st.buffer|;
      var line := st.buffer + s[..capacity] + TRUNCATION;
      Fed(st, s) == Fed(State([], true, st.lines + [Line(line, false)]), s[capacity..])
  {
    var capacity := BUFFER_MAX - |st.buffer|;
    assert forall i :: 0 <= i < capacity ==> s[i] == s[..n][i];
    assert s[capacity] == s[..n][capacity];
    Absorbs(st, s[..capacity]);
    assert s == s[..capacity] + s[capacity..];
    FedJoins(st, s[..capacity], s[capacity..]);
  }
}
