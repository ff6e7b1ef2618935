/** The durable cursor of one recurring schedule and the schedulers that advance it.

    One evaluation is one database transaction holding the row's lock, so it is one
    step; clock readings are arbitrary, and may run backward between steps. */
module Scheduler {
  import opened Basics
  import opened Occurrences

  datatype Outcome = NotDue | Contended | MisfireSkipped | OverlapSuppressed | Enqueued

  datatype Row = Row(fingerprint: string, grace: int, nextRunAt: int,
                     lastEvaluatedAt: Option<int>, lastCursorAt: Option<int>,
                     lastOccurrenceAt: Option<int>, lastJobId: Option<string>, lastOutcome: Option<Outcome>)

  /** A code-owned definition; the fingerprint covers the expression and the grace. */
  datatype Definition = Definition(fingerprint: string, grace: int, next: int -> int)

  predicate ValidDefinition(d: Definition) {
    MINUTE <= d.grace <= 365 * 24 * 60 * MINUTE && d.grace % MINUTE == 0
  }

  /** What the dispatch callback answers. */
  datatype Reply = Refused | Accepted(id: string, enqueued: bool)

  datatype Result = Error | Evaluated(outcome: Outcome, scheduledAt: Option<int>, jobId: Option<string>)

  /** One call of the dispatch callback. */
  datatype Dispatched = Dispatched(at: int, reply: Reply)

  predicate ValidReply(reply: Reply) {
    reply.Accepted? && 0 < |reply.id| <= 1024
  }

  /** The dispatch callback: it is called with an occurrence, and answers as it likes after what it was called with before. */
  class Dispatcher {
    const answer: (seq<Dispatched>, int) -> Reply
    var log: seq<Dispatched>

    constructor (answer: (seq<Dispatched>, int) -> Reply)
      ensures this.answer == answer && log == []
    {
      this.answer, log := answer, [];
    }

    method Dispatch(at: int) returns (reply: Reply)
      modifies this
      ensures reply == answer(old(log), at) && log == old(log) + [Dispatched(at, reply)]
    {
      reply := answer(log, at);
      log := log + [Dispatched(at, reply)];
    }
  }

  function Max(a: int, b: int): int { if a > b then a else b }

  // ---- one evaluation --------------------------------------------------------

  /** The first cursor is the least occurrence not before the current minute. */
  ghost predicate IsFirstCursor(occurrences: iset<int>, now: int, cursor: int) {
    cursor in occurrences && Truncate(now) <= cursor && forall o :: o in occurrences && Truncate(now) <= o ==> cursor <= o
  }

  /** The row an evaluation works on: the stored one, or a freshly initialized one. */
  ghost predicate Opens(occurrences: iset<int>, before: Option<Row>, started: int, current: Row) {
    if before.Some? then current == before.value
    else
      && IsFirstCursor(occurrences, started, current.nextRunAt)
      && current == Row(current.fingerprint, current.grace, current.nextRunAt, None, None, None, None, None)
  }

  /** What a due evaluation leaves behind. */
  ghost predicate Advances(occurrences: iset<int>, current: Row, now: int, after: Row, r: Result) {
    && current.nextRunAt <= now
    && after.nextRunAt != 0 && IsNextAfter(occurrences, now, after.nextRunAt)
    && after.fingerprint == current.fingerprint && after.grace == current.grace
    && after.lastEvaluatedAt == Some(now) && after.lastCursorAt == Some(current.nextRunAt)
    && r.Evaluated? && after.lastOutcome == Some(r.outcome)
    && after.lastOccurrenceAt == r.scheduledAt && after.lastJobId == r.jobId
    && var window := Max(now - current.grace, current.nextRunAt);
       match r.scheduledAt
       case None => r.outcome == MisfireSkipped && IsLatest(occurrences, window, now, NotFound)
       case Some(at) => (r.outcome == Enqueued || r.outcome == OverlapSuppressed) && IsLatest(occurrences, window, now, Found(at))
  }

  /** What was dispatched: the occurrence that is reported, once and with the answer that is reported; nothing when none is. */
  predicate Reports(r: Result, calls: seq<Dispatched>)
    requires r.Evaluated?
  {
    match r.scheduledAt
    case None => calls == [] && r.jobId == None
    case Some(at) =>
      && |calls| == 1 && calls[0].at == at && ValidReply(calls[0].reply)
      && r.jobId == Some(calls[0].reply.id) && r.outcome == if calls[0].reply.enqueued then Enqueued else OverlapSuppressed
  }

  /** One evaluation, with the calls of the callback it made. One that fails is undone, and has called at most once. */
  ghost predicate IsStep(occurrences: iset<int>, before: Option<Row>, started: int, now: int, after: Option<Row>, calls: seq<Dispatched>,
      r: Result)
  {
    match r
    case Error => after == before && |calls| <= 1
    case Evaluated(outcome, scheduledAt, jobId) =>
      && Reports(r, calls)
      && if outcome == Contended then after == before && scheduledAt == None
         else
           && after.Some?
           && exists current ::
                && Opens(occurrences, before, started, current)
                && if outcome == NotDue then after.value == current && now < current.nextRunAt && scheduledAt == None
                   else Advances(occurrences, current, now, after.value, r)
  }

  /** Nothing outside the store gets in the way: the expression always has a next
      occurrence, a stored row is this definition's, and the dispatch goes through. */
  ghost predicate Healthy(occurrences: iset<int>, d: Definition, before: Option<Row>, log: seq<Dispatched>,
      answer: (seq<Dispatched>, int) -> Reply)
  {
    && ValidDefinition(d) && IsNext(occurrences, d.next)
    && (forall t :: d.next(t) != 0)
    && (before.Some? ==> before.value.fingerprint == d.fingerprint && before.value.grace == d.grace && before.value.nextRunAt in occurrences)
    && (forall at :: at in occurrences ==> ValidReply(answer(log, at)))
  }

  method NextAfter(d: Definition, after: int, ghost occurrences: iset<int>) returns (next: int, ok: bool)
    ensures next == d.next(after)
    ensures ok <==> next > after && next != 0 && next % MINUTE == 0
    ensures IsNext(occurrences, d.next) ==> IsNextAfter(occurrences, after, next) && (ok <==> next != 0)
  {
    next := d.next(after);
    assert IsNext(occurrences, d.next) ==> IsNextAfter(occurrences, after, d.next(after));
    ok := next != 0 && next > after && next == Truncate(next);
  }

  class ScheduleStore {
    var row: Option<Row>

    constructor ()
      ensures row == None
    {
      row := None;
    }

    /** Chooses the first cursor; the row appears unless another scheduler's is there. */
    method Initialize(d: Definition, now: int, ghost occurrences: iset<int>) returns (ok: bool)
      modifies this
      ensures old(row).Some? || !ok ==> row == old(row)
      ensures ok && old(row).None? ==>
                && row.Some? && row.value.fingerprint == d.fingerprint && row.value.grace == d.grace
                && row.value == Row(d.fingerprint, d.grace, row.value.nextRunAt, None, None, None, None, None)
                && (IsNext(occurrences, d.next) ==> IsFirstCursor(occurrences, now, row.value.nextRunAt))
      ensures IsNext(occurrences, d.next) && (forall t :: d.next(t) != 0) ==> ok
    {
      var currentMinute := Truncate(now);
      var cursor := d.next(currentMinute - 1);
      if cursor == 0 || cursor != Truncate(cursor) || cursor < currentMinute {
        return false;
      }
      if IsNext(occurrences, d.next) {
        FirstCursor(occurrences, d.next, now);
      }
      if cursor != currentMinute {
        cursor, ok := NextAfter(d, now, occurrences);
        if !ok {
          return;
        }
      }
      if row.None? {
        row := Some(Row(d.fingerprint, d.grace, cursor, None, None, None, None, None));
      }
      ok := true;
    }

    method Advance(stored: Row, nextRunAt: int, evaluatedAt: int, occurrenceAt: Option<int>, jobId: Option<string>, outcome: Outcome)
      returns (ok: bool)
      modifies this
      ensures ok <==> old(row).Some? && old(row).value.fingerprint == stored.fingerprint && old(row).value.nextRunAt == stored.nextRunAt
      ensures !ok ==> row == old(row)
      ensures ok ==> row == Some(old(row).value.(nextRunAt := nextRunAt, lastEvaluatedAt := Some(evaluatedAt),
                                                  lastCursorAt := Some(stored.nextRunAt), lastOccurrenceAt := occurrenceAt,
                                                  lastJobId := jobId, lastOutcome := Some(outcome)))
    {
      ok := row.Some? && row.value.fingerprint == stored.fingerprint && row.value.nextRunAt == stored.nextRunAt;
      if ok {
        row := Some(row.value.(nextRunAt := nextRunAt, lastEvaluatedAt := Some(evaluatedAt),
                               lastCursorAt := Some(stored.nextRunAt), lastOccurrenceAt := occurrenceAt,
                               lastJobId := jobId, lastOutcome := Some(outcome)));
      }
    }

    /** The work of the transaction; the caller undoes it when it reports an error. */
    method Evaluate(d: Definition, contended: bool, started: int, now: int, dispatcher: Dispatcher, ghost occurrences: iset<int>)
      returns (r: Result)
      modifies this, dispatcher
      ensures old(dispatcher.log) <= dispatcher.log && |dispatcher.log| <= |old(dispatcher.log)| + 1
      ensures IsNext(occurrences, d.next) && !r.Error? ==>
                IsStep(occurrences, old(row), started, now, row, dispatcher.log[|old(dispatcher.log)|..], r)
      ensures !r.Error? ==> Reports(r, dispatcher.log[|old(dispatcher.log)|..])
      ensures old(row).Some? && (old(row).value.fingerprint != d.fingerprint || old(row).value.grace != d.grace) && !contended ==> r.Error?
      ensures Healthy(occurrences, d, old(row), old(dispatcher.log), dispatcher.answer) ==>
                !r.Error? && (r.outcome == Contended <==> contended)
    {
      if contended {
        return Evaluated(Contended, None, None);
      }
      if row.None? {
        var ok := Initialize(d, started, occurrences);
        if !ok {
          return Error;
        }
      }
      var stored := row.value;
      assert IsNext(occurrences, d.next) ==> Opens(occurrences, old(row), started, stored);
      if stored.fingerprint != d.fingerprint || stored.grace != d.grace {
        return Error;
      }
      if stored.nextRunAt > now {
        return Evaluated(NotDue, None, None);
      }
      var nextRunAt, ok := NextAfter(d, now, occurrences);
      if !ok {
        return Error;
      }
      var windowStart := now - d.grace;
      if stored.nextRunAt > windowStart {
        windowStart := stored.nextRunAt;
      }
      var found, calls := LatestOccurrence(d.next, windowStart, now, occurrences);
      if found.Invalid? {
        return Error;
      }
      if found.NotFound? {
        ok := Advance(stored, nextRunAt, now, None, None, MisfireSkipped);
        return if ok then Evaluated(MisfireSkipped, None, None) else Error;
      }
      var reply := dispatcher.Dispatch(found.at);
      if reply.Refused? || reply.id == "" || |reply.id| > 1024 {
        return Error;
      }
      var outcome := if reply.enqueued then Enqueued else OverlapSuppressed;
      ok := Advance(stored, nextRunAt, now, Some(found.at), Some(reply.id), outcome);
      r := if ok then Evaluated(outcome, Some(found.at), Some(reply.id)) else Error;
    }

    method Materialize(d: Definition, contended: bool, started: int, now: int, dispatcher: Dispatcher, ghost occurrences: iset<int>)
      returns (r: Result)
      modifies this, dispatcher
      ensures old(dispatcher.log) <= dispatcher.log
      ensures IsNext(occurrences, d.next) ==>
                IsStep(occurrences, old(row), started, now, row, dispatcher.log[|old(dispatcher.log)|..], r)
      ensures !r.Error? ==> Reports(r, dispatcher.log[|old(dispatcher.log)|..])
      ensures r.Error? ==> row == old(row)
      ensures Healthy(occurrences, d, old(row), old(dispatcher.log), dispatcher.answer) ==>
                !r.Error? && (r.outcome == Contended <==> contended)
    {
      if !ValidDefinition(d) {
        return Error;
      }
      var saved := row;
      r := Evaluate(d, contended, started, now, dispatcher, occurrences);
      if r.Error? {
        row := saved;
      }
    }
  }

  /** Both ways Initialize picks the cursor give the least occurrence from the current minute on. */
  lemma FirstCursor(occurrences: iset<int>, next: int -> int, now: int)
    requires IsNext(occurrences, next)
    ensures var c := next(Truncate(now) - 1);
            && (c == Truncate(now) && c != 0 ==> IsFirstCursor(occurrences, now, c))
            && (c > Truncate(now) && c != 0 ==> next(now) != 0 && IsFirstCursor(occurrences, now, next(now)))
  {
    assert IsNextAfter(occurrences, Truncate(now) - 1, next(Truncate(now) - 1));
    assert IsNextAfter(occurrences, now, next(now));
  }

  // ---- histories ---------------------------------------------------------------

  datatype Evaluation = Evaluation(before: Option<Row>, started: int, now: int, after: Option<Row>, calls: seq<Dispatched>, result: Result)

  /** Any number of schedulers, one after the other, from a schedule never seen before. */
  ghost predicate IsHistory(occurrences: iset<int>, h: seq<Evaluation>) {
    && WholeMinutes(occurrences)
    && (h != [] ==> h[0].before == None)
    && (forall k :: 0 <= k < |h| ==> IsStep(occurrences, h[k].before, h[k].started, h[k].now, h[k].after, h[k].calls, h[k].result))
    && (forall k :: 1 <= k < |h| ==> h[k].before == h[k - 1].after)
  }

  /** The evaluation found the schedule due and moved its cursor. */
  predicate Moved(e: Evaluation) {
    e.result.Evaluated? && e.result.outcome != NotDue && e.result.outcome != Contended
  }

  function Cursor(e: Evaluation): int {
    if e.after.Some? then e.after.value.nextRunAt else 0
  }

  /** The cursor a due evaluation started from. */
  function Opened(e: Evaluation): int {
    if e.after.Some? && e.after.value.lastCursorAt.Some? then e.after.value.lastCursorAt.value else 0
  }

  lemma {:induction false} CursorIsOccurrence(occurrences: iset<int>, h: seq<Evaluation>, k: nat)
    requires IsHistory(occurrences, h) && k < |h|
    ensures h[k].after.Some? ==> Cursor(h[k]) in occurrences
    ensures Moved(h[k]) ==> h[k].after.Some? && Opened(h[k]) in occurrences && Opened(h[k]) <= h[k].now < Cursor(h[k])
    ensures h[k].before.Some? ==> h[k].after.Some?
    ensures Moved(h[k]) && h[k].before.Some? ==> Opened(h[k]) == h[k].before.value.nextRunAt
    ensures !Moved(h[k]) && h[k].before.Some? ==> h[k].after == h[k].before
  {
    if k > 0 {
      CursorIsOccurrence(occurrences, h, k - 1);
    }
  }

  /** The cursor never moves back, and every due evaluation moves it forward. */
  lemma {:induction false} CursorOnlyGrows(occurrences: iset<int>, h: seq<Evaluation>, i: nat, j: nat)
    requires IsHistory(occurrences, h) && i <= j < |h| && h[i].after.Some?
    ensures h[j].after.Some? && Cursor(h[i]) <= Cursor(h[j])
    ensures i < j && Moved(h[j]) ==> Cursor(h[i]) <= Opened(h[j]) && Cursor(h[i]) < Cursor(h[j])
    decreases j
  {
    if i < j {
      CursorOnlyGrows(occurrences, h, i, j - 1);
      CursorIsOccurrence(occurrences, h, j);
    }
  }

  /** The evaluation called the callback for this occurrence, and was committed. */
  predicate Dispatches(e: Evaluation, at: int) {
    e.result.Evaluated? && exists c :: c in e.calls && c.at == at
  }

  /** Dispatched occurrences strictly increase, so none is dispatched twice, and each evaluation dispatches one at most. */
  lemma DispatchedIncrease(occurrences: iset<int>, h: seq<Evaluation>, i: nat, j: nat, a: int, b: int)
    requires IsHistory(occurrences, h) && i <= j < |h| && Dispatches(h[i], a) && Dispatches(h[j], b)
    ensures a in occurrences && (i < j ==> a < b) && (i == j ==> a == b && |h[i].calls| == 1)
  {
    CursorIsOccurrence(occurrences, h, i);
    CursorIsOccurrence(occurrences, h, j);
    if i < j {
      CursorOnlyGrows(occurrences, h, i, j);
    }
  }

  /** What became of occurrence o when evaluation e passed it: it was dispatched,
      or merged into a later one of the same window that was, or was already older than the grace. */
  ghost predicate Settles(e: Evaluation, o: int) {
    && Moved(e) && e.after.Some?
    && Opened(e) <= o <= e.now < Cursor(e)
    && (o < e.now - e.after.value.grace || exists at :: o <= at <= e.now && Dispatches(e, at))
  }

  /** The cursor the schedule was at when evaluation e looked at it. */
  function Seen(e: Evaluation): int { if Moved(e) then Opened(e) else Cursor(e) }

  /** Every occurrence from a cursor once seen to the present cursor was settled. */
  lemma {:induction false} EveryOccurrenceSettled(occurrences: iset<int>, h: seq<Evaluation>, first: nat, last: nat, o: int)
    requires IsHistory(occurrences, h) && first <= last < |h| && h[first].after.Some?
    requires o in occurrences && Seen(h[first]) <= o < Cursor(h[last])
    ensures exists k :: first <= k <= last && Settles(h[k], o)
    decreases last
  {
    CursorIsOccurrence(occurrences, h, last);
    if first < last {
      CursorOnlyGrows(occurrences, h, first, last - 1);
    }
    if first < last && o < Cursor(h[last - 1]) {
      EveryOccurrenceSettled(occurrences, h, first, last - 1, o);
    } else {
      var e := h[last];
      if e.result.scheduledAt.Some? {
        assert e.calls[0] in e.calls && Dispatches(e, e.result.scheduledAt.value);
      }
      assert Settles(e, o);
    }
  }

  /** ... and by one evaluation only. */
  lemma SettledOnce(occurrences: iset<int>, h: seq<Evaluation>, i: nat, j: nat, o: int)
    requires IsHistory(occurrences, h) && i < |h| && j < |h| && Settles(h[i], o) && Settles(h[j], o)
    ensures i == j
  {
    if i < j {
      CursorOnlyGrows(occurrences, h, i, j);
    } else if j < i {
      CursorOnlyGrows(occurrences, h, j, i);
    }
  }
}
