/** The migration ledger and its checksum upgrade on a database that commits every statement on its own. */
module MigrationLedger {
  import opened Basics

  datatype Column = Absent | Nullable | NotNull

  datatype Row = Row(name: string, checksum: Option<string>, appliedAt: string)

  /** The ledger table by version; without the checksum column no row has a checksum. */
  datatype Ledger = Missing | Table(column: Column, rows: map<string, Row>)

  /** A migration file, with the checksum of its up script. */
  datatype Migration = Migration(name: string, checksum: string)

  type Files = map<string, Migration>

  /** The version of the row that marks an upgrade under way. */
  const MARKER := "__goforge_checksum_upgrade__"

  /** The checksums the column's state allows. */
  predicate ValidLedger(l: Ledger) {
    l.Table? ==>
      && (l.column == Absent ==> forall v :: v in l.rows ==> l.rows[v].checksum.None?)
      && (l.column == NotNull ==> forall v :: v in l.rows ==> l.rows[v].checksum.Some?)
  }

  /** The rows of applied migrations. */
  function Applied(l: Ledger): map<string, Row> {
    if l.Missing? then map[] else l.rows - {MARKER}
  }

  predicate Matching(files: Files, v: string, row: Row) {
    v in files && files[v].name == row.name && (row.checksum.Some? ==> row.checksum.value == files[v].checksum)
  }

  /** Every applied migration is among the files, under its name and not with another checksum. */
  predicate Matches(files: Files, l: Ledger) {
    forall v :: v in Applied(l) ==> Matching(files, v, Applied(l)[v])
  }

  predicate NeedsUpgrade(l: Ledger) {
    l.Table? && l.column != NotNull
  }

  /** Whether preparing the ledger can succeed. */
  predicate Upgradable(files: Files, l: Ledger) {
    NeedsUpgrade(l) ==> Matches(files, l)
  }

  // ---- the uninterrupted result ----------------------------------------------------------------------

  function FinishedRow(files: Files, v: string, row: Row): Row {
    if row.checksum.None? && v in files then row.(checksum := Some(files[v].checksum)) else row
  }

  /** Every row has its checksum, the column is NOT NULL, there is no marker and no other row is added or lost. */
  function Finished(files: Files, l: Ledger): Ledger {
    Table(NotNull, map v | v in Applied(l) :: FinishedRow(files, v, Applied(l)[v]))
  }

  /** The uninterrupted result of an upgrade: each applied migration, and nothing else, with its file's checksum. */
  lemma FinishedMeans(files: Files, l: Ledger)
    requires ValidLedger(l) && NeedsUpgrade(l) && Matches(files, l)
    ensures var f := Finished(files, l);
      && ValidLedger(f) && f.column == NotNull && MARKER !in f.rows
      && (forall v :: v in f.rows <==> v in l.rows && v != MARKER)
      && (forall v :: v in f.rows ==> v in files && f.rows[v] == Row(l.rows[v].name, Some(files[v].checksum), l.rows[v].appliedAt))
      && (forall v :: v in f.rows ==> l.rows[v].name == files[v].name && l.rows[v].checksum in {None, Some(files[v].checksum)})
  {
    forall v | v in Applied(l)
      ensures v in files && FinishedRow(files, v, Applied(l)[v])
           == Row(l.rows[v].name, Some(files[v].checksum), l.rows[v].appliedAt)
    {
      assert Matching(files, v, Applied(l)[v]);
    }
  }

  // ---- what a started upgrade may leave ----------------------------------------------------------------

  predicate RowProgress(files: Files, v: string, a: Row, b: Row) {
    a == b || (Matching(files, v, a) && b == FinishedRow(files, v, a))
  }

  predicate Further(a: Column, b: Column) {
    a == b || a == Absent || b == NotNull
  }

  ghost predicate InProgress(files: Files, initial: Ledger, l: Ledger) {
    && ValidLedger(l)
    && (l.Missing? ==> initial.Missing?)
    && (initial.Missing? && l.Table? ==> l.column == NotNull)
    && (initial.Table? && l.Table? ==> Further(initial.column, l.column))
    && Applied(l).Keys == Applied(initial).Keys
    && (forall v :: v in Applied(initial) ==> RowProgress(files, v, Applied(initial)[v], Applied(l)[v]))
    && (l.Table? && l.column == NotNull ==> Upgradable(files, initial))
    && (l.Table? && l.column != NotNull && l != initial ==> MARKER in l.rows)
  }

  lemma ProgressIsTransitive(files: Files, a: Ledger, b: Ledger, c: Ledger)
    requires ValidLedger(a) && InProgress(files, a, b) && InProgress(files, b, c)
    ensures InProgress(files, a, c)
  {
    forall v | v in Applied(a)
      ensures RowProgress(files, v, Applied(a)[v], Applied(c)[v])
    {
      assert RowProgress(files, v, Applied(a)[v], Applied(b)[v]);
      assert RowProgress(files, v, Applied(b)[v], Applied(c)[v]);
    }
    ProgressKeepsMatches(files, a, b);
  }

  lemma ProgressKeepsMatches(files: Files, a: Ledger, b: Ledger)
    requires ValidLedger(a) && InProgress(files, a, b)
    ensures Matches(files, a) <==> Matches(files, b)
  {
    forall v | v in Applied(a)
      ensures Matching(files, v, Applied(a)[v]) <==> Matching(files, v, Applied(b)[v])
    {
      assert RowProgress(files, v, Applied(a)[v], Applied(b)[v]);
    }
  }

  lemma ProgressKeepsTarget(files: Files, a: Ledger, b: Ledger)
    requires ValidLedger(a) && InProgress(files, a, b)
    ensures Finished(files, a) == Finished(files, b)
    ensures Upgradable(files, a) <==> Upgradable(files, b)
  {
    ProgressKeepsMatches(files, a, b);
    forall v | v in Applied(a)
      ensures FinishedRow(files, v, Applied(a)[v]) == FinishedRow(files, v, Applied(b)[v])
    {
      assert RowProgress(files, v, Applied(a)[v], Applied(b)[v]);
    }
  }

  /** A change that leaves the applied rows alone. */
  lemma SameRowsProgress(files: Files, a: Ledger, b: Ledger)
    requires a.Table? && b.Table? && ValidLedger(b) && Further(a.column, b.column) && Applied(a) == Applied(b)
    requires b.column == NotNull ==> Upgradable(files, a)
    requires b.column != NotNull && a != b ==> MARKER in b.rows
    ensures InProgress(files, a, b)
  {
  }

  lemma CompleteIsFinished(files: Files, l: Ledger)
    requires forall v :: v in Applied(l) ==> Applied(l)[v].checksum.Some?
    ensures Finished(files, l) == Table(NotNull, Applied(l))
  {
  }

  // ---- one attempt, statement by statement --------------------------------------------------------------

  datatype Outcome = Completed | Drifted | Interrupted

  /** One attempt: what it may leave, and how its outcome follows from the ledger it found.
      `budget` is the number of statements before the connection is lost. */
  ghost predicate Attempt(files: Files, budget: nat, before: Ledger, outcome: Outcome, after: Ledger) {
    && InProgress(files, before, after)
    && (outcome == Completed ==> Upgradable(files, before) && after == Finished(files, before))
    && (outcome == Drifted ==> !Upgradable(files, before))
    && (outcome == Interrupted ==> budget < |Applied(before)| + 6)
  }

  function MarkerRow(checksum: Option<string>, at: string): Row {
    Row(MARKER, checksum, at)
  }

  class Database {
    var ledger: Ledger
    var budget: nat

    constructor (ledger: Ledger, budget: nat)
      ensures this.ledger == ledger && this.budget == budget
    {
      this.ledger, this.budget := ledger, budget;
    }

    /** Runs one more statement, if the connection lasts. */
    method Spend() returns (ok: bool)
      modifies this`budget
      ensures ok <==> old(budget) > 0
      ensures budget == if ok then old(budget) - 1 else 0
    {
      ok := budget > 0;
      if ok {
        budget := budget - 1;
      }
    }

    /** Makes the ledger ready for use, upgrading one without checksums. */
    method Prepare(files: Files, markerChecksum: string, now: string) returns (outcome: Outcome)
      requires ValidLedger(ledger)
      modifies this
      ensures Attempt(files, old(budget), old(ledger), outcome, ledger)
    {
      var ok := Spend();
      if !ok {
        return Interrupted;
      }
      if ledger.Missing? {
        ledger := Table(NotNull, map[]);
      }
      if ledger.column != NotNull {
        outcome := Upgrade(files, markerChecksum, now);
      } else {
        outcome := RemoveMarker(files, old(ledger));
      }
    }

    method RemoveMarker(files: Files, ghost initial: Ledger) returns (outcome: Outcome)
      requires ValidLedger(ledger) && ledger.Table? && ledger.column == NotNull
      requires if initial.Missing? then ledger.rows == map[] else ledger == initial
      modifies this
      ensures Attempt(files, old(budget) + 1, initial, outcome, ledger)
    {
      assert Applied(initial) == Applied(ledger);
      var ok := Spend();
      if !ok {
        return Interrupted;
      }
      ledger := ledger.(rows := ledger.rows - {MARKER});
      assert Applied(initial) == Applied(ledger);
      CompleteIsFinished(files, initial);
      outcome := Completed;
    }

    /** Marks the ledger, adds the column, fills in checksums, and only then forbids NULL and removes the marker. */
    method Upgrade(files: Files, markerChecksum: string, now: string) returns (outcome: Outcome)
      requires ValidLedger(ledger) && NeedsUpgrade(ledger)
      modifies this
      ensures Attempt(files, old(budget) + 1, old(ledger), outcome, ledger)
    {
      ghost var start := ledger;
      var ok := Mark(now);
      ghost var marked := ledger;
      SameRowsProgress(files, start, marked);
      if !ok {
        return Interrupted;
      }
      outcome := Backfill(files);
      ghost var filled := ledger;
      ProgressIsTransitive(files, start, marked, filled);
      ProgressKeepsMatches(files, start, marked);
      if outcome != Completed {
        return;
      }
      ok := Seal(markerChecksum);
      ProgressKeepsMatches(files, start, filled);
      SameRowsProgress(files, filled, ledger);
      ProgressIsTransitive(files, start, filled, ledger);
      if !ok {
        return Interrupted;
      }
      CompleteIsFinished(files, filled);
      ProgressKeepsTarget(files, start, filled);
    }

    /** Records that an upgrade is under way and adds the column. */
    method Mark(now: string) returns (ok: bool)
      requires ValidLedger(ledger) && NeedsUpgrade(ledger)
      modifies this
      ensures ValidLedger(ledger) && ledger.Table? && ledger.column != NotNull
      ensures Further(old(ledger).column, ledger.column) && Applied(ledger) == Applied(old(ledger))
      ensures ledger != old(ledger) ==> MARKER in ledger.rows
      ensures ok ==> ledger.column == Nullable && MARKER in ledger.rows && budget + 2 >= old(budget)
      ensures !ok ==> old(budget) < 2
    {
      ok := true;
      if MARKER !in ledger.rows {
        ok := Spend();
        if !ok {
          return;
        }
        ledger := ledger.(rows := ledger.rows[MARKER := MarkerRow(None, now)]);
      }
      assert Applied(ledger) == Applied(old(ledger));
      if ledger.column == Absent {
        ok := Spend();
        if !ok {
          return;
        }
        ledger := ledger.(column := Nullable);
      }
    }

    /** Gives the marker a checksum too, forbids NULL, which no row has then, and removes the marker. */
    method Seal(markerChecksum: string) returns (ok: bool)
      requires ledger.Table? && ledger.column == Nullable && MARKER in ledger.rows
      requires forall v :: v in Applied(ledger) ==> Applied(ledger)[v].checksum.Some?
      modifies this
      ensures ValidLedger(ledger) && ledger.Table? && Further(Nullable, ledger.column)
      ensures Applied(ledger) == Applied(old(ledger))
      ensures ledger.column != NotNull ==> MARKER in ledger.rows
      ensures ok ==> ledger == Table(NotNull, Applied(old(ledger)))
      ensures !ok ==> old(budget) < 3
    {
      ok := Spend();
      if !ok {
        return;
      }
      ledger := ledger.(rows := ledger.rows[MARKER := ledger.rows[MARKER].(checksum := Some(markerChecksum))]);
      assert Applied(ledger) == Applied(old(ledger));
      ok := Spend();
      if !ok {
        return;
      }
      assert forall v :: v in ledger.rows ==> v == MARKER || v in Applied(ledger);
      ledger := ledger.(column := NotNull);
      ok := Spend();
      if !ok {
        return;
      }
      ledger := ledger.(rows := ledger.rows - {MARKER});
      assert Applied(ledger) == ledger.rows;
    }

    /** Checks the applied rows against the files in any order, filling in checksums that are not there. */
    method Backfill(files: Files) returns (outcome: Outcome)
      requires ValidLedger(ledger) && ledger.Table? && ledger.column == Nullable && MARKER in ledger.rows
      modifies this
      ensures InProgress(files, old(ledger), ledger) && ledger.Table? && ledger.column == Nullable && MARKER in ledger.rows
      ensures outcome == Completed ==> Matches(files, old(ledger)) && budget + |Applied(old(ledger))| >= old(budget)
      ensures outcome == Completed ==> forall v :: v in Applied(ledger) ==> Applied(ledger)[v].checksum.Some?
      ensures outcome == Drifted ==> !Matches(files, old(ledger))
      ensures outcome == Interrupted ==> old(budget) < |Applied(old(ledger))|
    {
      var applied := Applied(ledger);
      var remaining := applied.Keys;
      while remaining != {}
        invariant remaining <= applied.Keys
        invariant InProgress(files, old(ledger), ledger) && ledger.Table? && ledger.column == Nullable && MARKER in ledger.rows
        invariant forall v :: v in remaining ==> Applied(ledger)[v] == applied[v]
        invariant forall v :: v in applied.Keys - remaining ==> Matching(files, v, applied[v]) && Applied(ledger)[v].checksum.Some?
        invariant budget + |applied| - |remaining| >= old(budget)
        decreases |remaining|
      {
        var v :| v in remaining;
        if !Matching(files, v, applied[v]) {
          return Drifted;
        }
        if applied[v].checksum.None? {
          var ok := Spend();
          if !ok {
            return Interrupted;
          }
          ledger := ledger.(rows := ledger.rows[v := ledger.rows[v].(checksum := Some(files[v].checksum))]);
        }
        remaining := remaining - {v};
      }
      outcome := Completed;
    }
  }

  // ---- any number of attempts ------------------------------------------------------------------------------

  datatype Try = Try(budget: nat, outcome: Outcome, ledger: Ledger)

  /** Attempts one after the other with the same files, each starting from what the one before left. */
  ghost predicate Attempts(files: Files, start: Ledger, tries: seq<Try>)
    decreases |tries|
  {
    tries == [] ||
    (&& Attempt(files, tries[0].budget, start, tries[0].outcome, tries[0].ledger)
     && Attempts(files, tries[0].ledger, tries[1..]))
  }

  /** However often it was interrupted before and wherever, a completed attempt leaves what one uninterrupted attempt
      on the first ledger leaves; and an attempt that is not interrupted completes exactly when that one would. */
  lemma {:induction false} Converges(files: Files, start: Ledger, tries: seq<Try>)
    requires ValidLedger(start) && tries != [] && Attempts(files, start, tries)
    ensures var last := tries[|tries| - 1];
      && InProgress(files, start, last.ledger)
      && (last.outcome == Completed ==> last.ledger == Finished(files, start))
      && (last.budget >= |Applied(start)| + 6 ==>
            last.outcome == if Upgradable(files, start) then Completed else Drifted)
    decreases |tries|
  {
    var next := tries[0].ledger;
    if |tries| > 1 {
      Converges(files, next, tries[1..]);
      ProgressIsTransitive(files, start, next, tries[|tries| - 1].ledger);
      ProgressKeepsTarget(files, start, next);
      assert |Applied(next)| == |Applied(next).Keys| == |Applied(start).Keys| == |Applied(start)|;
    }
  }

  /** A ledger that is not there, or has all its checksums, is not checked against the files: an attempt that is not
      interrupted completes whatever they are, and leaves the rows of applied migrations alone. */
  lemma ReadyIsNotChecked(files: Files, start: Ledger, tries: seq<Try>)
    requires ValidLedger(start) && (start.Missing? || start.column == NotNull)
    requires tries != [] && Attempts(files, start, tries) && tries[|tries| - 1].budget >= |Applied(start)| + 6
    ensures var last := tries[|tries| - 1];
      last.outcome == Completed && last.ledger == Table(NotNull, if start.Missing? then map[] else start.rows - {MARKER})
  {
    Converges(files, start, tries);
    CompleteIsFinished(files, start);
  }
}
