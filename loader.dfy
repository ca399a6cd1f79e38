/** `inserir_dados` (Controller/incrementacao_msql.py, lines 112-177): keep the frame's
    columns the table also has, try one batched append and, when it raises, insert
    row by row, counting each row as a success, a duplicate or an error. */
module Loader {
  import opened Frames
  import opened Schema
  import opened Database

  /** The marker the driver's message must contain for a row to count as a duplicate. */
  const DuplicateMarker := "Duplicate entry"

  /** `pat` occurs in `s` at position `i`. */
  predicate OccursAt(s: string, pat: string, i: nat)
  {
    i + |pat| <= |s| && s[i..i + |pat|] == pat
  }

  /** Python's substring test `pat in s`, scanning from the left. */
  function Contains(s: string, pat: string): bool
    decreases |s|
  {
    if |s| < |pat| then false
    else s[..|pat|] == pat || Contains(s[1..], pat)
  }

  lemma {:induction false} ContainsIff(s: string, pat: string)
    ensures Contains(s, pat) <==> exists i: nat :: OccursAt(s, pat, i)
    decreases |s|
  {
    if |s| < |pat| {
      forall i: nat ensures !OccursAt(s, pat, i) { }
    } else if s[..|pat|] == pat {
      assert OccursAt(s, pat, 0);
    } else {
      ContainsIff(s[1..], pat);
      forall i: nat | OccursAt(s[1..], pat, i) ensures OccursAt(s, pat, i + 1) {
        assert s[1..][i..i + |pat|] == s[i + 1..i + 1 + |pat|];
      }
      forall i: nat | OccursAt(s, pat, i) ensures i > 0 && OccursAt(s[1..], pat, i - 1) {
        assert i != 0 by { assert s[0..|pat|] == s[..|pat|]; }
        assert s[1..][i - 1..i - 1 + |pat|] == s[i..i + |pat|];
      }
    }
  }

  /** How one fallback insert is counted. */
  datatype RowKind = Succeeded | Duplicate | Failed

  /** The `try`/`except` of lines 152-169: an `IntegrityError` whose driver message
      contains the marker is a duplicate; every other exception is an error. */
  function Classify(r: InsertResult): RowKind
  {
    match r
    case Inserted => Succeeded
    case IntegrityError(orig, _) => if Contains(orig, DuplicateMarker) then Duplicate else Failed
    case OtherError(_) => Failed
  }

  /** The `estatisticas` dictionary of lines 144-149. */
  datatype Statistics = Statistics(success: nat, duplicates: nat, errors: nat, examples: seq<string>)

  /** The dictionary as lines 144-149 initialise it. */
  function NoStatistics(): Statistics
  {
    Statistics(0, 0, 0, [])
  }

  /** The update one fallback insert makes to the statistics (lines 159-169). */
  function Record(s: Statistics, r: InsertResult): Statistics
  {
    match Classify(r)
    case Succeeded => s.(success := s.success + 1)
    case Duplicate => s.(duplicates := s.duplicates + 1)
    case Failed => s.(errors := s.errors + 1, examples := s.examples + [r.message])
  }

  /** The statistics after the fallback loop has seen the outcomes `rs`, in order. */
  function Tally(rs: seq<InsertResult>): Statistics
  {
    if rs == [] then NoStatistics()
    else Record(Tally(rs[..|rs| - 1]), rs[|rs| - 1])
  }

  /** The kind of every attempted row, in row order. */
  function Kinds(rs: seq<InsertResult>): (ks: seq<RowKind>)
    ensures |ks| == |rs| && forall i :: 0 <= i < |rs| ==> ks[i] == Classify(rs[i])
  {
    seq(|rs|, i requires 0 <= i < |rs| => Classify(rs[i]))
  }

  /** The messages of the rows counted as errors, in row order. */
  function FailureMessages(rs: seq<InsertResult>): seq<string>
  {
    if rs == [] then []
    else (if Classify(rs[0]) == Failed then [rs[0].message] else []) + FailureMessages(rs[1..])
  }

  /** Rows appended one at a time: the rows whose insert succeeded, in order. */
  function Committed(rows: seq<Row>, rs: seq<InsertResult>): seq<Row>
    requires |rows| == |rs|
  {
    if rs == [] then []
    else Committed(rows[..|rows| - 1], rs[..|rs| - 1]) + (if rs[|rs| - 1].Inserted? then [rows[|rows| - 1]] else [])
  }

  /** One single-row insert per row, in order. */
  function RowRequests(rows: seq<Row>): (reqs: seq<Request>)
    ensures |reqs| == |rows| && forall i :: 0 <= i < |rows| ==> reqs[i] == RowStatement(rows[i])
  {
    seq(|rows|, i requires 0 <= i < |rows| => RowStatement(rows[i]))
  }

  /** Why no filtered frame was built: inspecting a missing table raises, or the
      frame and the table share no column (the `ValueError` of line 121). */
  datatype SetupError = TableMissing | NoMatchingColumns

  /** How `inserir_dados` ends: the batch was appended (and `len(df)` reported), the
      fallback ran to its summary, or the handler at line 141 reached line 151 with
      `df_filtrado` never assigned and the reference raised out of the function. */
  datatype LoadOutcome =
    | BatchLoaded(reported: nat)
    | RowByRow(stats: Statistics)
    | FilteredFrameUnbound(cause: SetupError)

  /** What a load returns, the rows it stores and the statements it sends. */
  datatype LoadEffect = LoadEffect(outcome: LoadOutcome, stored: seq<Row>, sent: seq<Request>)

  /** `colunas_df & colunas_tabela` (lines 116-118). */
  function UsableColumns(df: Frame, tableColumns: set<string>): set<string>
  {
    ColumnSet(df) * tableColumns
  }

  /** The whole of `inserir_dados` on a table in state `t`, with the batch outcome and
      one outcome per row supplied. */
  function Load(t: TableState, df: Frame, batch: BatchResult, rs: seq<InsertResult>): LoadEffect
    requires |rs| == |df.rows|
  {
    if !t.hasTable then LoadEffect(FilteredFrameUnbound(TableMissing), [], [])
    else
      var usable := UsableColumns(df, t.columns.Keys);
      if usable == {} then LoadEffect(FilteredFrameUnbound(NoMatchingColumns), [], [])
      else
        var filtered := ProjectAll(df.rows, usable);
        if batch.BatchCommitted? then LoadEffect(BatchLoaded(|df.rows|), filtered, [BatchStatement(filtered)])
        else LoadEffect(RowByRow(Tally(rs)), Committed(filtered, rs), [BatchStatement(filtered)] + RowRequests(filtered))
  }

  /** A row counts as a duplicate exactly when its insert raised an `IntegrityError` whose
      driver message contains the marker somewhere; every other failure is an error. */
  lemma DuplicateIff(r: InsertResult)
    ensures Classify(r) == Duplicate <==>
              r.IntegrityError? && exists i: nat :: OccursAt(r.orig, DuplicateMarker, i)
    ensures Classify(r) == Failed <==> !r.Inserted? && Classify(r) != Duplicate
  {
    if r.IntegrityError? {
      ContainsIff(r.orig, DuplicateMarker);
    }
  }

  /** Each attempted row bumps exactly one counter, and each error leaves one message. */
  lemma {:induction false} TallyTotal(rs: seq<InsertResult>)
    ensures Tally(rs).success + Tally(rs).duplicates + Tally(rs).errors == |rs|
    ensures |Tally(rs).examples| == Tally(rs).errors
  {
    if rs != [] {
      TallyTotal(rs[..|rs| - 1]);
    }
  }

  /** Each counter is the number of rows of its kind. */
  lemma {:induction false} TallyCountsKinds(rs: seq<InsertResult>)
    ensures Tally(rs).success == multiset(Kinds(rs))[Succeeded]
    ensures Tally(rs).duplicates == multiset(Kinds(rs))[Duplicate]
    ensures Tally(rs).errors == multiset(Kinds(rs))[Failed]
  {
    if rs != [] {
      var init := rs[..|rs| - 1];
      TallyCountsKinds(init);
      assert Kinds(rs) == Kinds(init) + [Classify(rs[|rs| - 1])];
    }
  }

  lemma {:induction false} FailureMessagesAppend(a: seq<InsertResult>, b: seq<InsertResult>)
    ensures FailureMessages(a + b) == FailureMessages(a) + FailureMessages(b)
  {
    if a == [] {
      assert a + b == b;
    } else {
      assert (a + b)[1..] == a[1..] + b;
      FailureMessagesAppend(a[1..], b);
    }
  }

  /** The example list holds the messages of the error rows, in row order. */
  lemma {:induction false} TallyExamples(rs: seq<InsertResult>)
    ensures Tally(rs).examples == FailureMessages(rs)
  {
    if rs != [] {
      var init, last := rs[..|rs| - 1], rs[|rs| - 1];
      TallyExamples(init);
      assert rs == init + [last];
      FailureMessagesAppend(init, [last]);
      assert [last][1..] == [];
    }
  }

  function Min(a: int, b: int): int
  {
    if a < b then a else b
  }

  /** The warning of lines 176-177: the first three examples, only when something failed. */
  function ErrorExamples(s: Statistics): Option<seq<string>>
  {
    if s.errors > 0 then Some(s.examples[..Min(3, |s.examples|)]) else None
  }

  /** After a fallback run the warning appears exactly when some row was an error, and
      it shows the first `min(3, errors)` error messages in row order. */
  lemma WarningShowsFirstErrors(rs: seq<InsertResult>)
    ensures |FailureMessages(rs)| == Tally(rs).errors
    ensures ErrorExamples(Tally(rs)).Some? <==> exists i :: 0 <= i < |rs| && Classify(rs[i]) == Failed
    ensures ErrorExamples(Tally(rs)).Some? ==>
              ErrorExamples(Tally(rs)).value == FailureMessages(rs)[..Min(3, Tally(rs).errors)]
    ensures ErrorExamples(Tally(rs)).Some? ==> |ErrorExamples(Tally(rs)).value| <= 3
  {
    TallyTotal(rs);
    TallyCountsKinds(rs);
    TallyExamples(rs);
    if exists i :: 0 <= i < |rs| && Classify(rs[i]) == Failed {
      var i :| 0 <= i < |rs| && Classify(rs[i]) == Failed;
      assert Kinds(rs)[i] == Failed;
      assert Failed in multiset(Kinds(rs));
    } else {
      assert Failed !in Kinds(rs);
    }
  }

  /** The fallback stores as many rows as it counts successes, each one of the rows given. */
  lemma {:induction false} CommittedRows(rows: seq<Row>, rs: seq<InsertResult>)
    requires |rows| == |rs|
    ensures |Committed(rows, rs)| == Tally(rs).success
    ensures forall r :: r in Committed(rows, rs) ==> r in rows
  {
    if rs != [] {
      var init := rows[..|rows| - 1];
      CommittedRows(init, rs[..|rs| - 1]);
      forall r | r in init ensures r in rows {
        var k :| 0 <= k < |init| && init[k] == r;
        assert rows[k] == r;
      }
    }
  }

  /** The load raises exactly when the table is missing or shares no column with the
      frame, and then nothing is attempted or stored. */
  lemma LoadRaisesIff(t: TableState, df: Frame, batch: BatchResult, rs: seq<InsertResult>)
    requires |rs| == |df.rows|
    ensures Load(t, df, batch, rs).outcome.FilteredFrameUnbound? <==>
              !t.hasTable || UsableColumns(df, t.columns.Keys) == {}
    ensures Load(t, df, batch, rs).outcome.FilteredFrameUnbound? ==>
              Load(t, df, batch, rs).stored == [] && Load(t, df, batch, rs).sent == []
  {
  }

  /** A committed batch stores every row, projected, and reports `len(df)`. */
  lemma BatchStoresAllRows(t: TableState, df: Frame, rs: seq<InsertResult>)
    requires |rs| == |df.rows| && t.hasTable && UsableColumns(df, t.columns.Keys) != {}
    ensures Load(t, df, BatchCommitted, rs).outcome == BatchLoaded(|df.rows|)
    ensures |Load(t, df, BatchCommitted, rs).stored| == |df.rows|
    ensures forall i :: 0 <= i < |df.rows| ==>
              Load(t, df, BatchCommitted, rs).stored[i] == Project(df.rows[i], UsableColumns(df, t.columns.Keys))
  {
  }

  /** After a failed batch every filtered row is attempted once, in order; the three
      counters add up to the number of rows, the examples to the errors, and the rows
      stored to the successes. */
  lemma FallbackAccountsForEveryRow(t: TableState, df: Frame, message: string, rs: seq<InsertResult>)
    requires |rs| == |df.rows| && t.hasTable && UsableColumns(df, t.columns.Keys) != {}
    ensures var e := Load(t, df, BatchFailed(message), rs);
      && e.outcome.RowByRow?
      && e.outcome.stats.success + e.outcome.stats.duplicates + e.outcome.stats.errors == |df.rows|
      && |e.outcome.stats.examples| == e.outcome.stats.errors
      && |e.stored| == e.outcome.stats.success
      && |e.sent| == |df.rows| + 1
      && e.sent[0] == BatchStatement(ProjectAll(df.rows, UsableColumns(df, t.columns.Keys)))
      && forall i :: 0 <= i < |df.rows| ==>
           e.sent[i + 1] == RowStatement(Project(df.rows[i], UsableColumns(df, t.columns.Keys)))
  {
    TallyTotal(rs);
    CommittedRows(ProjectAll(df.rows, UsableColumns(df, t.columns.Keys)), rs);
  }

  /** Every stored row is one of the frame's rows projected onto exactly the columns the
      frame and the table share. */
  lemma StoredRowsAreProjected(t: TableState, df: Frame, batch: BatchResult, rs: seq<InsertResult>)
    requires |rs| == |df.rows|
    ensures forall r :: r in Load(t, df, batch, rs).stored ==>
              && r.Keys == UsableColumns(df, t.columns.Keys)
              && r.Keys <= ColumnSet(df) && r.Keys <= t.columns.Keys
              && exists i :: 0 <= i < |df.rows| && r == Project(df.rows[i], UsableColumns(df, t.columns.Keys))
  {
    if t.hasTable && UsableColumns(df, t.columns.Keys) != {} {
      var usable := UsableColumns(df, t.columns.Keys);
      var filtered := ProjectAll(df.rows, usable);
      CommittedRows(filtered, rs);
      forall r | r in Load(t, df, batch, rs).stored
        ensures exists i :: 0 <= i < |df.rows| && r == Project(df.rows[i], usable)
      {
        var i :| 0 <= i < |filtered| && filtered[i] == r;
      }
    }
  }

  /** A success followed by an `IntegrityError` whose driver message holds the marker
      tallies to one success, one duplicate, no error and no example. */
  lemma DuplicateOutcomeTally()
    ensures var orig := "(1062, \"" + DuplicateMarker + " 'a1' for key 'PRIMARY'\")";
      Tally([Inserted, IntegrityError(orig, "(pymysql.err.IntegrityError) " + orig)]) == Statistics(1, 1, 0, [])
  {
    var prefix, suffix := "(1062, \"", " 'a1' for key 'PRIMARY'\")";
    var orig := prefix + DuplicateMarker + suffix;
    assert orig[|prefix|..|prefix| + |DuplicateMarker|] == DuplicateMarker;
    assert OccursAt(orig, DuplicateMarker, |prefix|);
    ContainsIff(orig, DuplicateMarker);
    var rs := [Inserted, IntegrityError(orig, "(pymysql.err.IntegrityError) " + orig)];
    assert rs[..1] == [Inserted] && [Inserted][..0] == [];
    assert Tally([Inserted]) == Statistics(1, 0, 0, []);
    assert Classify(rs[1]) == Duplicate;
  }

  /** A batch of two records sharing `_id` fails; row by row the first is inserted and
      the second is rejected by the primary key with MySQL's duplicate-entry message.
      The fallback reports 1, 1 and 0, sends the batch and two single-row statements,
      and stores only the first record. */
  lemma DuplicateIdScenario(message: string)
    ensures var t := TableState(true, map["_id" := VarChar(255)], {"_id"});
      var row := map["_id" := Cell("a1")];
      var df := Frame(["_id"], [row, row]);
      var orig := "(1062, \"" + DuplicateMarker + " 'a1' for key 'PRIMARY'\")";
      var e := Load(t, df, BatchFailed(message),
                    [Inserted, IntegrityError(orig, "(pymysql.err.IntegrityError) " + orig)]);
      && e.outcome == RowByRow(Statistics(1, 1, 0, []))
      && e.sent == [BatchStatement([row, row]), RowStatement(row), RowStatement(row)]
      && e.stored == [row]
  {
    DuplicateOutcomeTally();
    var t := TableState(true, map["_id" := VarChar(255)], {"_id"});
    var row := map["_id" := Cell("a1")];
    var df := Frame(["_id"], [row, row]);
    var orig := "(1062, \"" + DuplicateMarker + " 'a1' for key 'PRIMARY'\")";
    var rs := [Inserted, IntegrityError(orig, "(pymysql.err.IntegrityError) " + orig)];
    assert ColumnSet(df) == {"_id"};
    assert UsableColumns(df, t.columns.Keys) == {"_id"};
    assert Project(row, {"_id"}) == row;
    var filtered := ProjectAll(df.rows, {"_id"});
    assert filtered == [row, row];
    assert RowRequests(filtered) == [RowStatement(row), RowStatement(row)];
    assert filtered[..1] == [row] && rs[..1] == [Inserted] && [row][..0] == [] && [Inserted][..0] == [];
    assert Committed([row], [Inserted]) == Committed([], []) + [row];
    assert Committed(filtered, rs) == Committed([row], [Inserted]) + [];
  }

  /** The `except` branch (lines 141-177): every filtered row is inserted on its own,
      in order, and counted; no row stops the loop. */
  method InsertRowByRow(db: Db, filtered: seq<Row>, rs: seq<InsertResult>) returns (stats: Statistics)
    requires db.Valid() && db.hasTable && |rs| == |filtered|
    requires forall i :: 0 <= i < |filtered| ==> filtered[i].Keys <= db.columns.Keys
    modifies db
    ensures db.Valid() && db.State() == old(db.State())
    ensures stats == Tally(rs)
    ensures db.rows == old(db.rows) + Committed(filtered, rs)
    ensures db.requests == old(db.requests) + RowRequests(filtered)
  {
    stats := NoStatistics();
    var i := 0;
    while i < |filtered|
      invariant 0 <= i <= |filtered|
      invariant db.Valid() && db.State() == old(db.State())
      invariant stats == Tally(rs[..i])
      invariant db.rows == old(db.rows) + Committed(filtered[..i], rs[..i])
      invariant db.requests == old(db.requests) + RowRequests(filtered[..i])
    {
      db.InsertOne(filtered[i], rs[i]);
      match rs[i] {
        case Inserted =>
          stats := stats.(success := stats.success + 1);
        case IntegrityError(orig, message) =>
          if Contains(orig, DuplicateMarker) {
            stats := stats.(duplicates := stats.duplicates + 1);
          } else {
            stats := stats.(errors := stats.errors + 1, examples := stats.examples + [message]);
          }
        case OtherError(message) =>
          stats := stats.(errors := stats.errors + 1, examples := stats.examples + [message]);
      }
      assert rs[..i + 1][..i] == rs[..i] && filtered[..i + 1][..i] == filtered[..i];
      assert RowRequests(filtered[..i + 1]) == RowRequests(filtered[..i]) + [RowStatement(filtered[i])];
      i := i + 1;
    }
    assert rs[..i] == rs && filtered[..i] == filtered;
  }

  method InsertData(db: Db, df: Frame, batch: BatchResult, rs: seq<InsertResult>) returns (outcome: LoadOutcome)
    requires db.Valid() && |rs| == |df.rows|
    modifies db
    ensures db.Valid() && db.State() == old(db.State())
    ensures outcome == Load(old(db.State()), df, batch, rs).outcome
    ensures db.rows == old(db.rows) + Load(old(db.State()), df, batch, rs).stored
    ensures db.requests == old(db.requests) + Load(old(db.State()), df, batch, rs).sent
    ensures forall i :: 0 <= i < |db.rows| ==> db.rows[i].Keys <= db.columns.Keys
  {
    if !db.hasTable {
      return FilteredFrameUnbound(TableMissing);
    }
    var usable := ColumnSet(df) * db.columns.Keys;
    if usable == {} {
      return FilteredFrameUnbound(NoMatchingColumns);
    }
    var filtered := ProjectAll(df.rows, usable);
    db.InsertRows(filtered, batch);
    if batch.BatchCommitted? {
      return BatchLoaded(|df.rows|);
    }
    var stats := InsertRowByRow(db, filtered, rs);
    return RowByRow(stats);
  }
}
