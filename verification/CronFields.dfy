/** Normalizing a cron field into the forms a narrower parser understands. */
module CronFields {
  import opened Basics
  import opened Decimals
  import opened CronText

  /** A field's range and the names of its values; weekdays also write Sunday as 7. */
  datatype Field = Field(min: int, max: int, names: map<string, int>, sundaySeven: bool)

  predicate ValidField(f: Field) {
    && 0 <= f.min <= f.max < 60
    && (f.sundaySeven ==> f.min == 0 && f.max == 7)
    && (forall name :: name in f.names ==> !AllDigits(name) && f.min <= f.names[name] <= f.max)
  }

  /** The field as the narrower parser reads it: weekdays run from 0 to 6. */
  function Narrow(f: Field): Field {
    if f.sundaySeven then f.(max := 6, names := map name | name in f.names && f.names[name] <= 6 :: f.names[name], sundaySeven := false)
    else f
  }

  /** One item of a list: everything, or a value, or a range, each with an optional step. */
  datatype Item =
    | Star(step: Option<int>)
    | Span(start: int, last: Option<int>, step: Option<int>)

  // ---- reading ------------------------------------------------------------------------------------------

  function ToLower(s: string): string {
    if s == "" then "" else [if 'A' <= s[0] <= 'Z' then s[0] - 'A' + 'a' else s[0]] + ToLower(s[1..])
  }

  /** Small letters for capital ones, and nothing else changed. */
  lemma {:induction false} LowerMeans(s: string, i: nat)
    requires i < |s|
    ensures |ToLower(s)| == |s|
    ensures ToLower(s)[i] as int == s[i] as int + if 65 <= s[i] as int <= 90 then 32 else 0
  {
    if |s| > 1 {
      LowerMeans(s[1..], if i == 0 then 0 else i - 1);
    }
  }

  function ReadAtom(f: Field, text: string): Option<int> {
    if ToLower(text) in f.names then Some(f.names[ToLower(text)])
    else
      var n := ParseInt(text);
      if n.Some? && f.min <= n.value <= f.max then n else None
  }

  function ReadStep(text: string): Option<int> {
    var n := ParseInt(text);
    if n.Some? && n.value >= 1 then n else None
  }

  function ReadSpan(f: Field, base: string, step: Option<int>): Option<Item> {
    ReadEnds(f, Split(base, '-'), step)
  }

  function ReadEnds(f: Field, ends: seq<string>, step: Option<int>): Option<Item>
    requires ends != []
  {
    if |ends| > 2 then None
    else
      var start := ReadAtom(f, ends[0]);
      if start.None? then None
      else if |ends| == 1 then Some(Span(start.value, None, step))
      else
        var last := ReadAtom(f, ends[1]);
        if last.None? || start.value > last.value then None else Some(Span(start.value, last, step))
  }

  function ReadItem(f: Field, text: string): Option<Item> {
    ReadParts(f, Split(text, '/'))
  }

  function ReadParts(f: Field, parts: seq<string>): Option<Item>
    requires parts != []
  {
    if |parts| > 2 || parts[0] == "" then None
    else
      var step := if |parts| == 2 then ReadStep(parts[1]) else None;
      if |parts| == 2 && step.None? then None
      else if parts[0] == "*" then Some(Star(step))
      else ReadSpan(f, parts[0], step)
  }

  function ReadItems(f: Field, texts: seq<string>): Option<seq<Item>> {
    if texts == [] then Some([]) else Prepended(ReadItem(f, texts[0]), ReadItems(f, texts[1..]))
  }

  function Prepended(first: Option<Item>, rest: Option<seq<Item>>): Option<seq<Item>> {
    if first.None? || rest.None? then None else Some([first.value] + rest.value)
  }

  function ReadField(f: Field, text: string): Option<seq<Item>> {
    ReadItems(f, Split(text, ','))
  }

  // ---- what is read ----------------------------------------------------------------------------------------

  /** One value, or two with a dash between them, the first not above the second. */
  ghost predicate IsSpanText(f: Field, base: string, start: int, last: Option<int>) {
    if last.None? then Free(base, '-') && ReadAtom(f, base) == Some(start)
    else exists a, b :: IsRangeText(f, base, a, b, start, last.value)
  }

  predicate IsRangeText(f: Field, base: string, a: string, b: string, start: int, last: int) {
    && base == a + "-" + b && Free(a, '-') && Free(b, '-')
    && ReadAtom(f, a) == Some(start) && ReadAtom(f, b) == Some(last) && start <= last
  }

  /** A star or a span, and behind a slash the step, if there is one, which is positive. */
  ghost predicate IsItemText(f: Field, text: string, item: Item, base: string, step: Option<string>) {
    && text == (if step.Some? then base + "/" + step.value else base)
    && Free(base, '/') && (step.Some? ==> Free(step.value, '/'))
    && (if step.Some? then ParseInt(step.value) == item.step && item.step.Some? && item.step.value >= 1 else item.step.None?)
    && (if base == "*" then item.Star? else item.Span? && IsSpanText(f, base, item.start, item.last))
  }

  lemma ReadIsSpanText(f: Field, base: string, step: Option<int>, item: Item)
    requires ReadSpan(f, base, step) == Some(item)
    ensures item.Span? && item.step == step && IsSpanText(f, base, item.start, item.last)
  {
    var ends := Split(base, '-');
    JoinSplit(base, '-');
    if |ends| == 2 {
      assert ends[1..] == [ends[1]] && base == ends[0] + "-" + ends[1];
      assert IsRangeText(f, base, ends[0], ends[1], item.start, item.last.value);
    }
  }

  lemma SpanTextIsRead(f: Field, base: string, item: Item)
    requires item.Span? && IsSpanText(f, base, item.start, item.last)
    ensures ReadSpan(f, base, item.step) == Some(item)
  {
    if item.last.None? {
      SplitFree(base, '-');
    } else {
      var a, b :| IsRangeText(f, base, a, b, item.start, item.last.value);
      SplitTwo(a, b, '-');
    }
  }

  lemma ReadIsWritten(f: Field, text: string, item: Item) returns (base: string, step: Option<string>)
    requires ReadItem(f, text) == Some(item)
    ensures IsItemText(f, text, item, base, step)
  {
    var parts := Split(text, '/');
    JoinSplit(text, '/');
    if parts[0] != "*" {
      ReadIsSpanText(f, parts[0], item.step, item);
    }
    base, step := parts[0], None;
    if |parts| == 2 {
      assert parts[1..] == [parts[1]];
      step := Some(parts[1]);
    }
  }

  lemma WrittenIsRead(f: Field, text: string, item: Item, base: string, step: Option<string>)
    requires ValidField(f) && IsItemText(f, text, item, base, step)
    ensures ReadItem(f, text) == Some(item)
  {
    if base != "*" {
      SpanTextIsRead(f, base, item);
    }
    if step.Some? {
      SplitTwo(base, step.value, '/');
    } else {
      SplitFree(base, '/');
    }
  }

  /** An item is read exactly when it is written so. */
  lemma ItemIff(f: Field, text: string, item: Item)
    requires ValidField(f)
    ensures ReadItem(f, text) == Some(item) <==> exists base, step :: IsItemText(f, text, item, base, step)
  {
    if ReadItem(f, text) == Some(item) {
      var base, step := ReadIsWritten(f, text, item);
    }
    if base, step :| IsItemText(f, text, item, base, step) {
      WrittenIsRead(f, text, item, base, step);
    }
  }

  // ---- what items mean -----------------------------------------------------------------------------------

  function Every(item: Item): int {
    if item.step.Some? then item.step.value else 1
  }

  /** The last value an item can reach: a step without a range goes to the field's end. */
  function LastOf(f: Field, item: Item): int
    requires item.Span?
  {
    if item.last.Some? then item.last.value else if item.step.Some? then f.max else item.start
  }

  /** The values from `start` to `last` by steps. */
  function Steps(start: int, last: int, step: int): set<int>
    requires step > 0
  {
    set v | start <= v <= last && OnStep(start, v, step)
  }

  predicate OnStep(start: int, v: int, step: int)
    requires step > 0
  {
    (v - start) % step == 0
  }

  predicate ValidItem(f: Field, item: Item) {
    && (item.step.Some? ==> 1 <= item.step.value <= MAX_INT)
    && (item.Span? ==> f.min <= item.start <= f.max)
    && (item.Span? && item.last.Some? ==> item.start <= item.last.value <= f.max)
  }

  function Values(f: Field, item: Item): set<int>
    requires ValidItem(f, item)
  {
    if item.Star? then Steps(f.min, f.max, Every(item)) else Steps(item.start, LastOf(f, item), Every(item))
  }

  predicate AllValid(f: Field, items: seq<Item>) {
    forall i :: 0 <= i < |items| ==> ValidItem(f, items[i])
  }

  function AllValues(f: Field, items: seq<Item>): set<int>
    requires AllValid(f, items)
  {
    if items == [] then {} else Values(f, items[0]) + AllValues(f, items[1..])
  }

  /** Weekday 7 is Sunday, which is 0. */
  function Folded(f: Field, values: set<int>): set<int> {
    set v | v in values :: if f.sundaySeven && v == 7 then 0 else v
  }

  // ---- rewriting ----------------------------------------------------------------------------------------

  /** The sum as 64-bit arithmetic wraps it. */
  function Add64(a: int, b: int): int {
    if a + b > MAX_INT then a + b - 0x1_0000_0000_0000_0000 else a + b
  }

  /** Where the expanding loop can be: at a weekday, or, for steps near the greatest integer, wrapped around. */
  predicate InLoop(current: int, step: int) {
    && 1 <= step <= MAX_INT && current <= MAX_INT
    && (current >= 0 || (step > MAX_INT - 7 && (-100 < current || MIN_INT <= current <= MIN_INT + 6)))
  }

  function LoopMeasure(current: int, step: int): nat
    requires InLoop(current, step)
  {
    if current > 7 then 0
    else if step <= MAX_INT - 7 then 8 - current
    else if current > -100 then 2 * (current + 100) + 1
    else 2 * (current + step + 100) + 2
  }

  /** The weekdays the loop lists, 7 as 0 and nothing after it. */
  function Expanded(current: int, last: int, step: int): seq<int>
    requires InLoop(current, step) && last <= 7
    decreases LoopMeasure(current, step)
  {
    if current > last then []
    else if current == 7 then [0]
    else [current] + Expanded(Add64(current, step), last, step)
  }

  predicate Expands(f: Field, item: Item) {
    f.sundaySeven && item.Span? && (item.start == 7 || LastOf(f, item) == 7)
  }

  function Singles(values: seq<int>): seq<Item> {
    if values == [] then [] else [Span(values[0], None, None)] + Singles(values[1..])
  }

  function Rewritten(f: Field, item: Item): seq<Item>
    requires ValidField(f) && ValidItem(f, item)
  {
    if Expands(f, item) then Singles(Expanded(item.start, LastOf(f, item), Every(item))) else [item]
  }

  function AllRewritten(f: Field, items: seq<Item>): seq<Item>
    requires ValidField(f) && AllValid(f, items)
  {
    if items == [] then [] else Rewritten(f, items[0]) + AllRewritten(f, items[1..])
  }

  function PrintStep(step: Option<int>): string {
    if step.None? then "" else "/" + PrintInt(step.value)
  }

  function PrintBase(item: Item): string {
    if item.Star? then "*"
    else PrintInt(item.start) + if item.last.Some? then "-" + PrintInt(item.last.value) else ""
  }

  function Print(item: Item): string {
    PrintBase(item) + PrintStep(item.step)
  }

  function PrintAll(items: seq<Item>): seq<string> {
    if items == [] then [] else [Print(items[0])] + PrintAll(items[1..])
  }

  lemma {:induction false} ReadIsValid(f: Field, texts: seq<string>)
    requires ValidField(f) && ReadItems(f, texts).Some?
    ensures AllValid(f, ReadItems(f, texts).value) && |ReadItems(f, texts).value| == |texts|
  {
    if texts != [] {
      ReadIsValid(f, texts[1..]);
    }
  }

  /** The text of the normalized field, or nothing when the field is refused. */
  function Normalized(f: Field, text: string): Option<string>
    requires ValidField(f)
  {
    var items := ReadField(f, text);
    if items.None? then None
    else
      ReadIsValid(f, Split(text, ','));
      Some(Join(PrintAll(AllRewritten(f, items.value)), ','))
  }

  // ---- printed items are read back ------------------------------------------------------------------------

  lemma {:induction false} LowerKeepsDigits(s: string)
    requires AllDigits(s)
    ensures ToLower(s) == s
  {
    if s != "" {
      LowerKeepsDigits(s[1..]);
    }
  }

  lemma ReadPrintedAtom(f: Field, n: int)
    requires ValidField(f) && f.min <= n <= f.max
    ensures ReadAtom(f, PrintInt(n)) == Some(n)
  {
    ParsePrint(n);
    LowerKeepsDigits(PrintInt(n));
  }

  lemma PrintedBaseIsFree(item: Item, sep: char)
    requires !IsDigit(sep) && sep != '*' && sep != '-'
    ensures Free(PrintBase(item), sep)
  {
    if item.Span? {
      PrintedIsFree(item.start, sep);
      if item.last.Some? {
        PrintedIsFree(item.last.value, sep);
      }
    }
  }

  lemma PrintedIsFreeOfCommas(item: Item)
    ensures Free(Print(item), ',')
  {
    PrintedBaseIsFree(item, ',');
    if item.step.Some? {
      PrintedIsFree(item.step.value, ',');
    }
  }

  lemma ReadPrintedSpan(f: Field, item: Item)
    requires ValidField(f) && ValidItem(f, item) && item.Span?
    ensures ReadSpan(f, PrintBase(item), item.step) == Some(item)
  {
    ReadPrintedAtom(f, item.start);
    PrintedIsFree(item.start, '-');
    if item.last.None? {
      assert PrintBase(item) == PrintInt(item.start);
      SplitFree(PrintInt(item.start), '-');
    } else {
      ReadPrintedAtom(f, item.last.value);
      PrintedIsFree(item.last.value, '-');
      SplitFirst(PrintInt(item.start), PrintInt(item.last.value), '-');
      SplitFree(PrintInt(item.last.value), '-');
      assert PrintBase(item) == PrintInt(item.start) + ['-'] + PrintInt(item.last.value);
    }
  }

  function PrintedParts(item: Item): seq<string> {
    if item.step.None? then [PrintBase(item)] else [PrintBase(item), PrintInt(item.step.value)]
  }

  lemma SplitPrinted(f: Field, item: Item)
    requires ValidField(f) && ValidItem(f, item)
    ensures Split(Print(item), '/') == PrintedParts(item)
  {
    PrintedBaseIsFree(item, '/');
    if item.step.None? {
      assert Print(item) == PrintBase(item);
      SplitFree(PrintBase(item), '/');
    } else {
      var step := PrintInt(item.step.value);
      PrintedIsFree(item.step.value, '/');
      assert Print(item) == PrintBase(item) + ['/'] + step;
      SplitFirst(PrintBase(item), step, '/');
      SplitFree(step, '/');
    }
  }

  /** Every valid item is read back from its text. */
  lemma ReadPrinted(f: Field, item: Item)
    requires ValidField(f) && ValidItem(f, item)
    ensures ReadItem(f, Print(item)) == Some(item)
  {
    SplitPrinted(f, item);
    if item.step.Some? {
      ParsePrint(item.step.value);
    }
    if item.Span? {
      ReadPrintedSpan(f, item);
      assert IsDigit(PrintInt(item.start)[0]) && PrintBase(item)[0] == PrintInt(item.start)[0];
    }
  }

  lemma ReadNext(f: Field, text: string, texts: seq<string>)
    ensures ReadItems(f, [text] + texts) == Prepended(ReadItem(f, text), ReadItems(f, texts))
  {
    assert ([text] + texts)[1..] == texts;
  }

  lemma {:induction false} ReadAllPrinted(f: Field, items: seq<Item>)
    requires ValidField(f) && AllValid(f, items)
    ensures ReadItems(f, PrintAll(items)) == Some(items)
  {
    if items != [] {
      ReadPrinted(f, items[0]);
      ReadAllPrinted(f, items[1..]);
      ReadNext(f, Print(items[0]), PrintAll(items[1..]));
      assert [items[0]] + items[1..] == items;
    }
  }

  lemma ReadPrintedField(f: Field, items: seq<Item>)
    requires ValidField(f) && AllValid(f, items) && items != []
    ensures ReadField(f, Join(PrintAll(items), ',')) == Some(items)
  {
    ReadAllPrinted(f, items);
    SplitPrintedField(items);
  }

  lemma {:induction false} PrintAllIs(items: seq<Item>)
    ensures |PrintAll(items)| == |items| && forall i :: 0 <= i < |items| ==> PrintAll(items)[i] == Print(items[i])
  {
    if items != [] {
      PrintAllIs(items[1..]);
    }
  }

  lemma SplitPrintedField(items: seq<Item>)
    requires items != []
    ensures Split(Join(PrintAll(items), ','), ',') == PrintAll(items)
  {
    PrintAllIs(items);
    forall i | 0 <= i < |items|
      ensures Free(PrintAll(items)[i], ',')
    {
      PrintedIsFreeOfCommas(items[i]);
    }
    SplitJoin(PrintAll(items), ',');
  }

  // ---- rewriting keeps the values --------------------------------------------------------------------------

  /** The expansion's first step leaves the 64-bit range. */
  predicate Overflows(f: Field, item: Item) {
    Expands(f, item) && item.start != 7 && item.start + Every(item) > MAX_INT
  }

  function SetOf(values: seq<int>): set<int> {
    set v | v in values
  }

  function Weekday(v: int): int {
    if v == 7 then 0 else v
  }

  lemma StepsFromNext(start: int, last: int, step: int)
    requires step > 0 && start <= last
    ensures Steps(start, last, step) == {start} + Steps(start + step, last, step)
  {
    forall v
      ensures v in Steps(start, last, step) <==> v == start || v in Steps(start + step, last, step)
    {
      if v > start {
        StepMod(v - start, step);
      }
    }
  }

  lemma StepMod(d: int, step: int)
    requires step > 0 && d > 0
    ensures d % step == 0 <==> d >= step && (d - step) % step == 0
  {
    if d < step {
      RemainderIs(d, step, 0, d);
    } else {
      var q, r := d / step, d % step;
      Distributes(q, step);
      RemainderIs(d - step, step, q - 1, r);
    }
  }

  lemma Distributes(q: int, step: int)
    ensures (q - 1) * step == q * step - step
  {
  }

  lemma RemainderIs(x: int, step: int, q: int, r: int)
    requires step > 0 && x == q * step + r && 0 <= r < step
    ensures x % step == r
  {
    var k := q - x / step;
    assert k * step == x % step - r by {
      assert x == x / step * step + x % step;
    }
    assert k > 0 ==> k * step >= step;
    assert k < 0 ==> k * step <= -step;
  }

  /** Without overflow the loop lists the steps, Sunday as 0. */
  lemma {:induction false} ExpandedIsSteps(current: int, last: int, step: int)
    requires 0 <= current && 1 <= step <= MAX_INT && last <= 7 && current <= MAX_INT
    requires current < 7 && current <= last ==> current + step <= MAX_INT
    ensures SetOf(Expanded(current, last, step)) == set v | v in Steps(current, last, step) :: Weekday(v)
    ensures forall v :: v in Expanded(current, last, step) ==> 0 <= v < 7
    decreases LoopMeasure(current, step)
  {
    if current <= last {
      StepsFromNext(current, last, step);
      if current < 7 {
        ExpandedIsSteps(current + step, last, step);
        var rest := Expanded(current + step, last, step);
        assert SetOf([current] + rest) == {current} + SetOf(rest);
      }
    }
  }

  lemma {:induction false} SinglesValues(f: Field, values: seq<int>)
    requires forall v :: v in values ==> f.min <= v <= f.max
    ensures AllValid(f, Singles(values)) && AllValues(f, Singles(values)) == SetOf(values)
  {
    if values != [] {
      assert forall v :: v in values[1..] ==> v in values;
      SinglesValues(f, values[1..]);
      assert values[0] in values && values == [values[0]] + values[1..];
      assert Singles(values)[1..] == Singles(values[1..]);
      assert Steps(values[0], values[0], 1) == {values[0]};
    }
  }

  lemma StarFolds(step: int)
    requires step > 0
    ensures Steps(0, 6, step) == set v | v in Steps(0, 7, step) :: Weekday(v)
  {
    assert OnStep(0, 0, step);
    assert 0 in Steps(0, 7, step);
    forall v | v in Steps(0, 6, step)
      ensures v in Steps(0, 7, step) && Weekday(v) == v
    {
    }
  }

  lemma FoldedWeek(f: Field, values: set<int>)
    requires f.sundaySeven
    ensures Folded(f, values) == set v | v in values :: Weekday(v)
  {
  }

  lemma FoldedSame(f: Field, values: set<int>)
    requires f.sundaySeven ==> 7 !in values
    ensures Folded(f, values) == values
  {
    forall v
      ensures v in Folded(f, values) <==> v in values
    {
      assert v in values ==> (if f.sundaySeven && v == 7 then 0 else v) == v;
    }
  }

  lemma NarrowIsValid(f: Field)
    requires ValidField(f)
    ensures ValidField(Narrow(f))
  {
  }

  /** The rewritten items are the narrower parser's, and mean what the item means. */
  lemma RewrittenMeans(f: Field, item: Item)
    requires ValidField(f) && ValidItem(f, item) && !Overflows(f, item)
    ensures AllValid(Narrow(f), Rewritten(f, item)) && Rewritten(f, item) != []
    ensures AllValues(Narrow(f), Rewritten(f, item)) == Folded(f, Values(f, item))
  {
    var n := Narrow(f);
    if Expands(f, item) {
      var last, step := LastOf(f, item), Every(item);
      ExpandedIsSteps(item.start, last, step);
      SinglesValues(n, Expanded(item.start, last, step));
      FoldedWeek(f, Values(f, item));
    } else {
      assert AllValues(n, [item]) == Values(n, item) + AllValues(n, []);
      if f.sundaySeven && item.Star? {
        StarFolds(Every(item));
        FoldedWeek(f, Values(f, item));
      } else {
        FoldedSame(f, Values(f, item));
      }
    }
  }

  predicate NoneOverflows(f: Field, items: seq<Item>) {
    forall i :: 0 <= i < |items| ==> !Overflows(f, items[i])
  }

  lemma {:induction false} ValuesJoin(f: Field, a: seq<Item>, b: seq<Item>)
    requires AllValid(f, a) && AllValid(f, b)
    ensures AllValid(f, a + b) && AllValues(f, a + b) == AllValues(f, a) + AllValues(f, b)
  {
    if a == [] {
      assert a + b == b;
    } else {
      ValuesJoin(f, a[1..], b);
      assert (a + b)[0] == a[0] && (a + b)[1..] == a[1..] + b;
    }
  }

  lemma {:induction false} AllRewrittenMeans(f: Field, items: seq<Item>)
    requires ValidField(f) && AllValid(f, items) && NoneOverflows(f, items)
    ensures AllValid(Narrow(f), AllRewritten(f, items)) && |AllRewritten(f, items)| >= |items|
    ensures AllValues(Narrow(f), AllRewritten(f, items)) == Folded(f, AllValues(f, items))
  {
    if items != [] {
      RewrittenMeans(f, items[0]);
      AllRewrittenMeans(f, items[1..]);
      ValuesJoin(Narrow(f), Rewritten(f, items[0]), AllRewritten(f, items[1..]));
      FoldedJoins(f, Values(f, items[0]), AllValues(f, items[1..]));
    }
  }

  lemma FoldedJoins(f: Field, a: set<int>, b: set<int>)
    ensures Folded(f, a + b) == Folded(f, a) + Folded(f, b)
  {
  }

  /** The normalized text denotes, for the narrower parser, what the field denotes with weekday 7 read as 0. */
  lemma NormalizedMeansTheSame(f: Field, text: string)
    requires ValidField(f) && ReadField(f, text).Some? && NoneOverflows(f, ReadField(f, text).value)
    ensures AllValid(f, ReadField(f, text).value)
    ensures var read := ReadField(Narrow(f), Normalized(f, text).value);
      && read.Some? && AllValid(Narrow(f), read.value)
      && AllValues(Narrow(f), read.value) == Folded(f, AllValues(f, ReadField(f, text).value))
  {
    ReadIsValid(f, Split(text, ','));
    var items := ReadField(f, text).value;
    AllRewrittenMeans(f, items);
    NarrowIsValid(f);
    ReadPrintedField(Narrow(f), AllRewritten(f, items));
  }

  // ---- ... and does not when the step overflows --------------------------------------------------------------

  lemma NegativeIsUnread(f: Field, n: int)
    requires ValidField(f) && n < 0
    ensures ReadItem(f, Print(Span(n, None, None))).None?
  {
    var text := PrintInt(n);
    assert Print(Span(n, None, None)) == text;
    PrintedIsFree(n, '/');
    SplitFree(text, '/');
    assert text == "" + ['-'] + Itoa(-n);
    SplitFirst("", Itoa(-n), '-');
    EmptyIsNoAtom(f);
    assert ReadItem(f, text) == ReadSpan(f, text, None);
  }

  lemma EmptyIsNoAtom(f: Field)
    requires ValidField(f)
    ensures ReadAtom(f, "").None?
  {
    assert ToLower("") == "" && AllDigits("");
  }

  lemma {:induction false} UnreadItem(f: Field, texts: seq<string>, i: nat)
    requires i < |texts| && ReadItem(f, texts[i]).None?
    ensures ReadItems(f, texts).None?
  {
    if i > 0 {
      UnreadItem(f, texts[1..], i - 1);
    }
  }

  lemma {:induction false} RewrittenIsPart(f: Field, items: seq<Item>, i: nat, item: Item)
    requires ValidField(f) && AllValid(f, items) && i < |items| && item in Rewritten(f, items[i])
    ensures item in AllRewritten(f, items)
  {
    if i > 0 {
      RewrittenIsPart(f, items[1..], i - 1, item);
    }
  }

  lemma {:induction false} SinglesAt(values: seq<int>, i: nat)
    requires i < |values|
    ensures Span(values[i], None, None) in Singles(values)
  {
    if i > 0 {
      SinglesAt(values[1..], i - 1);
    }
  }

  /** An overflowing item is rewritten to a list with a negative number. */
  lemma WrapsNegative(f: Field, item: Item)
    requires ValidField(f) && ValidItem(f, item) && Overflows(f, item)
    ensures Add64(item.start, Every(item)) < 0
    ensures Span(Add64(item.start, Every(item)), None, None) in Rewritten(f, item)
  {
    var wrapped := Add64(item.start, Every(item));
    var values := Expanded(item.start, 7, Every(item));
    assert values == [item.start] + Expanded(wrapped, 7, Every(item));
    assert values[1] == wrapped;
    SinglesAt(values, 1);
  }

  lemma PartRefuses(f: Field, items: seq<Item>, bad: Item)
    requires bad in items && ReadItem(f, Print(bad)).None?
    ensures ReadField(f, Join(PrintAll(items), ',')).None?
  {
    var k :| 0 <= k < |items| && items[k] == bad;
    PrintAllIs(items);
    SplitPrintedField(items);
    UnreadItem(f, PrintAll(items), k);
  }

  /** With an overflowing item no parser of fields reads the text, the wide one or the narrow one. */
  lemma OverflowIsRefused(f: Field, g: Field, text: string, i: nat)
    requires ValidField(f) && ValidField(g) && ReadField(f, text).Some? && i < |ReadField(f, text).value|
    requires Overflows(f, ReadField(f, text).value[i])
    ensures ReadField(g, Normalized(f, text).value).None?
  {
    ReadIsValid(f, Split(text, ','));
    var items := ReadField(f, text).value;
    var wrapped := Add64(items[i].start, Every(items[i]));
    WrapsNegative(f, items[i]);
    RewrittenIsPart(f, items, i, Span(wrapped, None, None));
    NegativeIsUnread(g, wrapped);
    PartRefuses(g, AllRewritten(f, items), Span(wrapped, None, None));
  }

  /** The text read by the narrower parser has the values of the field. */
  predicate MeansTheSame(f: Field, text: string)
    requires ValidField(f) && ReadField(f, text).Some?
  {
    ReadIsValid(f, Split(text, ','));
    NarrowIsValid(f);
    var read := ReadField(Narrow(f), Normalized(f, text).value);
    && read.Some?
    && (ReadIsValid(Narrow(f), Split(Normalized(f, text).value, ','));
        AllValues(Narrow(f), read.value) == Folded(f, AllValues(f, ReadField(f, text).value)))
  }

  /** An accepted field keeps its values exactly when no expansion overflows. */
  lemma MeansTheSameIff(f: Field, text: string)
    requires ValidField(f) && ReadField(f, text).Some?
    ensures MeansTheSame(f, text) <==> NoneOverflows(f, ReadField(f, text).value)
  {
    var items := ReadField(f, text).value;
    if NoneOverflows(f, items) {
      NormalizedMeansTheSame(f, text);
    } else {
      var i :| 0 <= i < |items| && Overflows(f, items[i]);
      NarrowIsValid(f);
      OverflowIsRefused(f, Narrow(f), text, i);
    }
  }

  // ---- the form of normalized fields --------------------------------------------------------------------------

  lemma {:induction false} StarItemsStay(f: Field, items: seq<Item>, item: Item)
    requires ValidField(f) && AllValid(f, items) && item.Star?
    ensures item in AllRewritten(f, items) <==> item in items
  {
    if items != [] {
      StarItemsStay(f, items[1..], item);
      assert items == [items[0]] + items[1..];
      if Expands(f, items[0]) {
        SinglesAreSpans(Expanded(items[0].start, LastOf(f, items[0]), Every(items[0])), item);
      }
    }
  }

  /** Only a star item prints as a star item. */
  lemma StarPrintsApart(f: Field, items: seq<Item>, item: Item, star: Item)
    requires ValidField(f) && AllValid(f, items) && item in AllRewritten(f, items)
    requires star.Star? && ValidItem(f, star) && Print(item) == Print(star)
    ensures item == star
  {
    if item.Star? {
      StarItemsStay(f, items, item);
      ReadPrinted(f, item);
      ReadPrinted(f, star);
    } else {
      SpanPrintsNoStar(item);
    }
  }

  lemma SpanPrintsNoStar(item: Item)
    requires item.Span?
    ensures Print(item)[0] != '*'
  {
    assert Print(item)[0] == PrintInt(item.start)[0];
    assert item.start < 0 || IsDigit(PrintInt(item.start)[0]);
  }

  /** The normalized text holds a star form exactly when the field does, and with the same step. */
  lemma StarsStay(f: Field, text: string, star: Item)
    requires ValidField(f) && ReadField(f, text).Some? && star.Star? && ValidItem(f, star)
    ensures Print(star) in Split(Normalized(f, text).value, ',') <==> star in ReadField(f, text).value
  {
    ReadIsValid(f, Split(text, ','));
    var items := ReadField(f, text).value;
    var all := AllRewritten(f, items);
    RewrittenIsSome(f, items);
    PrintAllIs(all);
    SplitPrintedField(all);
    StarItemsStay(f, items, star);
    if Print(star) in PrintAll(all) {
      var k :| 0 <= k < |all| && PrintAll(all)[k] == Print(star);
      StarPrintsApart(f, items, all[k], star);
    }
    if star in all {
      var k :| 0 <= k < |all| && all[k] == star;
      assert PrintAll(all)[k] == Print(star);
    }
  }

  lemma {:induction false} RewrittenIsSome(f: Field, items: seq<Item>)
    requires ValidField(f) && AllValid(f, items)
    ensures |AllRewritten(f, items)| >= |items|
  {
    if items != [] {
      RewrittenIsSome(f, items[1..]);
      assert Rewritten(f, items[0]) != [];
    }
  }

  lemma {:induction false} SinglesAreSpans(values: seq<int>, item: Item)
    requires item.Star?
    ensures item !in Singles(values)
  {
    if values != [] {
      SinglesAreSpans(values[1..], item);
    }
  }

  /** No 7 and no step without a range. */
  predicate PlainWeekday(item: Item) {
    item.Span? ==> item.start < 7 && (if item.last.Some? then item.last.value < 7 else item.step.None?)
  }

  lemma {:induction false} SinglesArePlain(values: seq<int>)
    requires forall v :: v in values ==> 0 <= v < 7
    ensures forall item :: item in Singles(values) ==> PlainWeekday(item) && item.Span? && item.step.None?
  {
    if values != [] {
      assert values[0] in values && forall v :: v in values[1..] ==> v in values;
      SinglesArePlain(values[1..]);
    }
  }

  /** Each item of a normalized field is left alone by normalizing again; weekdays are plain. */
  lemma {:induction false} RewrittenIsNormal(f: Field, items: seq<Item>)
    requires ValidField(f) && AllValid(f, items) && NoneOverflows(f, items)
    ensures forall item :: item in AllRewritten(f, items) ==> !Expands(f, item) && (f.sundaySeven ==> PlainWeekday(item))
  {
    if items != [] {
      RewrittenIsNormal(f, items[1..]);
      if Expands(f, items[0]) {
        var last, step := LastOf(f, items[0]), Every(items[0]);
        ExpandedIsSteps(items[0].start, last, step);
        SinglesArePlain(Expanded(items[0].start, last, step));
      }
    }
  }

  /** Every item of the text is read, and none has a 7 or an open-ended step. */
  predicate ReadsPlain(f: Field, text: string) {
    ReadField(f, text).Some? && forall item :: item in ReadField(f, text).value ==> PlainWeekday(item)
  }

  /** A normalized weekday field is plain exactly when no expansion overflows. */
  lemma NormalizedIsPlain(f: Field, text: string)
    requires ValidField(f) && f.sundaySeven && ReadField(f, text).Some?
    ensures ReadsPlain(f, Normalized(f, text).value) <==> NoneOverflows(f, ReadField(f, text).value)
  {
    var items := ReadField(f, text).value;
    if NoneOverflows(f, items) {
      NormalItems(f, text);
    } else {
      var i :| 0 <= i < |items| && Overflows(f, items[i]);
      OverflowIsRefused(f, f, text, i);
    }
  }

  lemma NormalItems(f: Field, text: string)
    requires ValidField(f) && ReadField(f, text).Some? && NoneOverflows(f, ReadField(f, text).value)
    ensures AllValid(f, ReadField(f, text).value)
    ensures ReadField(f, Normalized(f, text).value) == Some(AllRewritten(f, ReadField(f, text).value))
    ensures forall item :: item in AllRewritten(f, ReadField(f, text).value) ==>
        !Expands(f, item) && (f.sundaySeven ==> PlainWeekday(item))
  {
    ReadIsValid(f, Split(text, ','));
    var items := ReadField(f, text).value;
    AllRewrittenMeans(f, items);
    RewrittenIsNormal(f, items);
    assert AllValid(f, AllRewritten(f, items));
    ReadPrintedField(f, AllRewritten(f, items));
  }

  lemma {:induction false} NormalStays(f: Field, items: seq<Item>)
    requires ValidField(f) && AllValid(f, items) && forall item :: item in items ==> !Expands(f, item)
    ensures AllRewritten(f, items) == items
  {
    if items != [] {
      assert items[0] in items && forall item :: item in items[1..] ==> item in items;
      NormalStays(f, items[1..]);
      assert [items[0]] + items[1..] == items;
    }
  }

  /** Normalizing twice is normalizing once, exactly when no expansion overflows. */
  lemma NormalizingIsIdempotent(f: Field, text: string)
    requires ValidField(f) && ReadField(f, text).Some?
    ensures Normalized(f, Normalized(f, text).value) == Normalized(f, text) <==> NoneOverflows(f, ReadField(f, text).value)
  {
    var items := ReadField(f, text).value;
    if NoneOverflows(f, items) {
      NormalItems(f, text);
      ReadIsValid(f, Split(Normalized(f, text).value, ','));
      NormalStays(f, AllRewritten(f, items));
    } else {
      var i :| 0 <= i < |items| && Overflows(f, items[i]);
      OverflowIsRefused(f, f, text, i);
    }
  }

  /** The weekday field 5-7/9223372036854775807 is accepted, and its normalized text is neither read, nor plain,
      nor accepted a second time. */
  lemma OverflowExample(f: Field)
    requires ValidField(f) && f.sundaySeven
    ensures var text := Join([Print(Span(5, Some(7), Some(MAX_INT)))], ',');
      && ReadField(f, text).Some? && !MeansTheSame(f, text)
      && !ReadsPlain(f, Normalized(f, text).value)
      && Normalized(f, Normalized(f, text).value) != Normalized(f, text)
  {
    var items := [Span(5, Some(7), Some(MAX_INT))];
    assert PrintAll(items) == [Print(items[0])];
    ReadPrintedField(f, items);
    assert Overflows(f, items[0]);
    var text := Join(PrintAll(items), ',');
    MeansTheSameIff(f, text);
    NormalizedIsPlain(f, text);
    NormalizingIsIdempotent(f, text);
  }

  // ---- the loops -------------------------------------------------------------------------------------------------

  method NormalizeCronField(f: Field, text: string) returns (result: Option<string>)
    requires ValidField(f)
    ensures result == Normalized(f, text)
  {
    var parts := Split(text, ',');
    var normalized: seq<string> := [];
    ghost var done: seq<Item> := [];
    for i := 0 to |parts|
      invariant AllValid(f, done) && ReadItems(f, parts[..i]) == Some(done)
      invariant normalized == PrintAll(AllRewritten(f, done))
    {
      ReadOneMore(f, parts, i);
      var texts := NormalizeItem(f, parts[i]);
      if texts.None? {
        UnreadItem(f, parts, i);
        return None;
      }
      ghost var item := ReadItem(f, parts[i]).value;
      RewriteOneMore(f, done, item);
      normalized := normalized + texts.value;
      done := done + [item];
    }
    assert parts[..|parts|] == parts;
    result := Some(Join(normalized, ','));
  }

  method NormalizeItem(f: Field, text: string) returns (texts: Option<seq<string>>)
    requires ValidField(f)
    ensures texts.None? <==> ReadItem(f, text).None?
    ensures texts.Some? ==> ValidItem(f, ReadItem(f, text).value)
    ensures texts.Some? ==> texts.value == PrintAll(Rewritten(f, ReadItem(f, text).value))
  {
    var parts := Split(text, '/');
    if |parts| > 2 || parts[0] == "" {
      return None;
    }
    var step: Option<int> := None;
    if |parts| == 2 {
      var parsed := ParseInt(parts[1]);
      if parsed.None? || parsed.value < 1 {
        return None;
      }
      step := parsed;
    }
    if parts[0] == "*" {
      PrintOne(Star(step));
      return Some(["*" + PrintStep(step)]);
    }
    texts := NormalizeSpan(f, parts[0], step);
  }

  lemma PrintOne(item: Item)
    ensures PrintAll([item]) == [PrintBase(item) + PrintStep(item.step)]
  {
  }

  method NormalizeSpan(f: Field, base: string, step: Option<int>) returns (texts: Option<seq<string>>)
    requires ValidField(f) && (step.Some? ==> 1 <= step.value <= MAX_INT)
    ensures texts.None? <==> ReadSpan(f, base, step).None?
    ensures texts.Some? ==> ValidItem(f, ReadSpan(f, base, step).value)
    ensures texts.Some? ==> texts.value == PrintAll(Rewritten(f, ReadSpan(f, base, step).value))
  {
    var ends := Split(base, '-');
    if |ends| > 2 {
      return None;
    }
    var start := ReadAtom(f, ends[0]);
    if start.None? {
      return None;
    }
    var last := start;
    if |ends| == 2 {
      last := ReadAtom(f, ends[1]);
      if last.None? || start.value > last.value {
        return None;
      }
    } else if step.Some? {
      last := Some(f.max);
    }
    if f.sundaySeven && (start.value == 7 || last.value == 7) {
      var weekdays := ExpandWeekdays(start.value, last.value, if step.Some? then step.value else 1);
      return Some(weekdays);
    }
    PrintOne(Span(start.value, if |ends| == 2 then last else None, step));
    var item := PrintInt(start.value) + if |ends| == 2 then "-" + PrintInt(last.value) else "";
    return Some([item + PrintStep(step)]);
  }

  method ExpandWeekdays(start: int, last: int, step: int) returns (texts: seq<string>)
    requires 0 <= start <= 7 && last <= 7 && 1 <= step <= MAX_INT
    ensures texts == PrintAll(Singles(Expanded(start, last, step)))
  {
    texts := [];
    var current := start;
    while current <= last
      invariant InLoop(current, step)
      invariant texts + PrintAll(Singles(Expanded(current, last, step))) == PrintAll(Singles(Expanded(start, last, step)))
      decreases LoopMeasure(current, step)
    {
      NextWeekday(texts, current, last, step);
      if current == 7 {
        texts := texts + [PrintInt(0)];
        return;
      }
      texts := texts + [PrintInt(current)];
      current := Add64(current, step);
    }
  }

  /** The loop meets the next weekday. */
  lemma NextWeekday(texts: seq<string>, current: int, last: int, step: int)
    requires InLoop(current, step) && current <= last <= 7
    ensures current == 7 ==> texts + PrintAll(Singles(Expanded(current, last, step))) == texts + [PrintInt(0)]
    ensures current != 7 ==>
      && InLoop(Add64(current, step), step) && LoopMeasure(Add64(current, step), step) < LoopMeasure(current, step)
      && texts + PrintAll(Singles(Expanded(current, last, step)))
         == texts + [PrintInt(current)] + PrintAll(Singles(Expanded(Add64(current, step), last, step)))
  {
    var rest := Expanded(current, last, step);
    PrintedSingle(rest);
    assert texts + ([PrintInt(rest[0])] + PrintAll(Singles(rest[1..]))) == texts + [PrintInt(rest[0])] + PrintAll(Singles(rest[1..]));
    if current == 7 {
      assert rest[1..] == [];
    } else {
      assert rest[1..] == Expanded(Add64(current, step), last, step);
    }
  }

  lemma PrintedSingle(values: seq<int>)
    requires values != []
    ensures PrintAll(Singles(values)) == [PrintInt(values[0])] + PrintAll(Singles(values[1..]))
  {
    var items := Singles(values);
    assert items[1..] == Singles(values[1..]);
    assert Print(items[0]) == PrintInt(values[0]) + "" + "" == PrintInt(values[0]);
  }

  lemma ReadOneMore(f: Field, texts: seq<string>, i: nat)
    requires i < |texts| && ReadItems(f, texts[..i]).Some?
    ensures ReadItems(f, texts[..i + 1]) == Added(ReadItems(f, texts[..i]), ReadItem(f, texts[i]))
  {
    assert texts[..i + 1] == texts[..i] + [texts[i]];
    ReadJoins(f, texts[..i], texts[i]);
  }

  function Added(items: Option<seq<Item>>, item: Option<Item>): Option<seq<Item>> {
    if items.None? || item.None? then None else Some(items.value + [item.value])
  }

  lemma {:induction false} ReadJoins(f: Field, texts: seq<string>, text: string)
    ensures ReadItems(f, texts + [text]) == Added(ReadItems(f, texts), ReadItem(f, text))
  {
    var all := texts + [text];
    if texts == [] {
      assert all == [text] && all[1..] == [];
      PrependOne(ReadItem(f, text));
    } else {
      assert all[0] == texts[0] && all[1..] == texts[1..] + [text];
      ReadJoins(f, texts[1..], text);
      PrependAdds(ReadItem(f, texts[0]), ReadItems(f, texts[1..]), ReadItem(f, text));
    }
  }

  lemma PrependOne(item: Option<Item>)
    ensures Prepended(item, Some([])) == Added(Some([]), item)
  {
    if item.Some? {
      assert [item.value] + [] == [] + [item.value];
    }
  }

  lemma PrependAdds(first: Option<Item>, rest: Option<seq<Item>>, item: Option<Item>)
    ensures Prepended(first, Added(rest, item)) == Added(Prepended(first, rest), item)
  {
    if first.Some? && rest.Some? && item.Some? {
      assert [first.value] + (rest.value + [item.value]) == [first.value] + rest.value + [item.value];
    }
  }

  lemma RewriteOneMore(f: Field, items: seq<Item>, item: Item)
    requires ValidField(f) && AllValid(f, items) && ValidItem(f, item)
    ensures PrintAll(AllRewritten(f, items + [item])) == PrintAll(AllRewritten(f, items)) + PrintAll(Rewritten(f, item))
  {
    RewrittenJoins(f, items, item);
    PrintAllJoins(AllRewritten(f, items), Rewritten(f, item));
  }

  lemma {:induction false} RewrittenJoins(f: Field, items: seq<Item>, item: Item)
    requires ValidField(f) && AllValid(f, items) && ValidItem(f, item)
    ensures AllRewritten(f, items + [item]) == AllRewritten(f, items) + Rewritten(f, item)
  {
    if items == [] {
      assert [] + [item] == [item] && AllRewritten(f, [item][1..]) == [];
    } else {
      RewrittenJoins(f, items[1..], item);
      assert (items + [item])[1..] == items[1..] + [item];
    }
  }

  lemma PrintAllJoins(a: seq<Item>, b: seq<Item>)
    ensures PrintAll(a + b) == PrintAll(a) + PrintAll(b)
  {
    PrintAllIs(a);
    PrintAllIs(b);
    PrintAllIs(a + b);
  }
}
