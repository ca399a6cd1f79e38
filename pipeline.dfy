/** `obter_dados_api` and `main` (Controller/incrementacao_msql.py, lines 20-40 and
    180-198): fetch, normalise the dates, connect, reconcile, load; any exception that
    escapes a phase ends the process with status 1. The API's answer, the normalising
    parser and the connection test are supplied as parameters. */
module Pipeline {
  import opened Frames
  import opened Schema
  import opened Database
  import opened Reconciler
  import opened Loader

  /** The date-bearing columns rewritten after the fetch (line 32), in that order. */
  function DateColumns(): seq<string>
  {
    ["Modified Date", "Created Date", "estimated_date", "payment_date"]
  }

  function DateColumnSet(): set<string>
  {
    set k | 0 <= k < |DateColumns()| :: DateColumns()[k]
  }

  /** Why `obter_dados_api` raised: the API call failed, or a date column is absent
      from the frame (`df[coluna]` raises `KeyError`). */
  datatype FetchError = ApiFailed(message: string) | MissingDateColumn(column: string)

  /** A record with the cells of the columns `cols` rewritten by `normalise`; a column
      the record lacks is read as missing before it is rewritten. */
  function NormaliseRow(row: Row, cols: set<string>, normalise: Value -> Value): (r: Row)
    ensures r.Keys == row.Keys + cols
  {
    map c | c in row.Keys + cols :: if c in cols then normalise(At(row, c)) else row[c]
  }

  /** The frame after the loop of lines 33-34 has rewritten every date column. */
  function NormalisedFrame(df: Frame, normalise: Value -> Value): (r: Frame)
    ensures r.columns == df.columns && |r.rows| == |df.rows|
  {
    Frame(df.columns, seq(|df.rows|, i requires 0 <= i < |df.rows| => NormaliseRow(df.rows[i], DateColumnSet(), normalise)))
  }

  lemma DateColumnsDistinct()
    ensures Distinct(DateColumns())
  {
  }

  lemma NormaliseNone(row: Row, normalise: Value -> Value)
    ensures NormaliseRow(row, {}, normalise) == row
  {
  }

  lemma NormaliseOneMore(row: Row, cols: set<string>, c: string, normalise: Value -> Value)
    requires c !in cols
    ensures NormaliseRow(row, cols, normalise)[c := normalise(At(NormaliseRow(row, cols, normalise), c))]
            == NormaliseRow(row, cols + {c}, normalise)
  {
  }

  /** The date loop: fails with the first date column the frame lacks, otherwise
      rewrites every date column of every record and nothing else. */
  method NormaliseDates(df: Frame, normalise: Value -> Value) returns (r: Result<Frame, FetchError>)
    ensures r.Ok? <==> DateColumnSet() <= ColumnSet(df)
    ensures r.Err? ==> exists k :: 0 <= k < |DateColumns()| && r.error == MissingDateColumn(DateColumns()[k]) &&
                                   DateColumns()[k] !in df.columns &&
                                   forall j :: 0 <= j < k ==> DateColumns()[j] in df.columns
    ensures r.Ok? ==> r.value == NormalisedFrame(df, normalise)
  {
    DateColumnsDistinct();
    var rows := df.rows;
    var k := 0;
    forall i | 0 <= i < |rows| ensures rows[i] == NormaliseRow(df.rows[i], {}, normalise) {
      NormaliseNone(df.rows[i], normalise);
    }
    while k < |DateColumns()|
      invariant 0 <= k <= |DateColumns()|
      invariant forall j :: 0 <= j < k ==> DateColumns()[j] in df.columns
      invariant |rows| == |df.rows|
      invariant forall i :: 0 <= i < |rows| ==>
                  rows[i] == NormaliseRow(df.rows[i], set j | 0 <= j < k :: DateColumns()[j], normalise)
    {
      var c := DateColumns()[k];
      if c !in df.columns {
        assert c in DateColumnSet() && c !in ColumnSet(df);
        return Err(MissingDateColumn(c));
      }
      ghost var done := set j | 0 <= j < k :: DateColumns()[j];
      assert c !in done;
      forall i | 0 <= i < |rows|
        ensures rows[i][c := normalise(At(rows[i], c))] == NormaliseRow(df.rows[i], done + {c}, normalise)
      {
        NormaliseOneMore(df.rows[i], done, c, normalise);
      }
      rows := seq(|rows|, i requires 0 <= i < |rows| => rows[i][c := normalise(At(rows[i], c))]);
      assert (set j | 0 <= j < k + 1 :: DateColumns()[j]) == done + {c};
      k := k + 1;
    }
    assert (set j | 0 <= j < k :: DateColumns()[j]) == DateColumnSet();
    return Ok(Frame(df.columns, rows));
  }

  /** `obter_dados_api`: the API's answer (already a frame, or the message of the
      exception the call raised) followed by the date loop; both failures propagate. */
  method FetchApiData(fetched: Result<Frame, string>, normalise: Value -> Value) returns (r: Result<Frame, FetchError>)
    ensures fetched.Err? ==> r == Err(ApiFailed(fetched.error))
    ensures fetched.Ok? ==> (r.Ok? <==> DateColumnSet() <= ColumnSet(fetched.value))
    ensures fetched.Ok? && r.Err? ==> r.error.MissingDateColumn? && r.error.column in DateColumnSet() &&
                                      r.error.column !in ColumnSet(fetched.value)
    ensures r.Ok? ==> fetched.Ok? && r.value == NormalisedFrame(fetched.value, normalise)
  {
    if fetched.Err? {
      return Err(ApiFailed(fetched.error));
    }
    r := NormaliseDates(fetched.value, normalise);
  }

  /** Every date column is one of the table's defined columns. */
  lemma DateColumnsDefined()
    ensures DateColumnSet() <= DefinedNames()
  {
    var ds := Definition();
    assert DateColumns() == [ds[0].name, ds[1].name, ds[3].name, ds[8].name];
  }

  /** Once the dates were normalised and the table reconciled, the frame always shares
      a column with the table, so the load never raises. */
  lemma ReconciledLoadNeverRaises(s: TableState, df: Frame, batch: BatchResult, rs: seq<InsertResult>)
    requires |rs| == |df.rows| && DateColumnSet() <= ColumnSet(df)
    ensures !Load(Reconciled(Definition(), s), df, batch, rs).outcome.FilteredFrameUnbound?
  {
    DateColumnsDefined();
    CoversDefinition(Definition(), s);
    assert DateColumns()[0] in UsableColumns(df, Reconciled(Definition(), s).columns.Keys);
  }

  /** `main`: runs the phases in order; the status is 0 when no exception escaped. */
  method Run(db: Db, fetched: Result<Frame, string>, normalise: Value -> Value, connected: bool,
             batch: BatchResult, rs: seq<InsertResult>) returns (status: int)
    requires db.Valid()
    requires fetched.Ok? ==> |rs| == |fetched.value.rows|
    modifies db
    ensures db.Valid()
    ensures status == 0 || status == 1
    ensures status == 0 <==> fetched.Ok? && DateColumnSet() <= ColumnSet(fetched.value) && connected
    ensures status == 1 ==> unchanged(db)
    ensures status == 0 ==>
      var before := old(db.State());
      var effect := Load(Reconciled(Definition(), before), NormalisedFrame(fetched.value, normalise), batch, rs);
      && db.State() == Reconciled(Definition(), before)
      && db.rows == old(db.rows) + effect.stored
      && !effect.outcome.FilteredFrameUnbound?
    ensures forall i :: 0 <= i < |db.rows| ==> db.rows[i].Keys <= db.columns.Keys
  {
    var df := FetchApiData(fetched, normalise);
    if df.Err? {
      return 1;
    }
    if !connected {
      return 1;
    }
    var _ := VerifyTableStructure(db);
    ReconciledLoadNeverRaises(old(db.State()), df.value, batch, rs);
    assert df.value == NormalisedFrame(fetched.value, normalise);
    var outcome := InsertData(db, df.value, batch, rs);
    status := if outcome.FilteredFrameUnbound? then 1 else 0;
  }

  /** An empty answer from the API has no date columns, so the run exits with status 1. */
  method EmptyResponseExitsWithError(db: Db, normalise: Value -> Value, connected: bool) returns (status: int)
    requires db.Valid()
    modifies db
    ensures status == 1 && unchanged(db)
  {
    status := Run(db, Ok(Frame([], [])), normalise, connected, BatchCommitted, []);
    assert DateColumns()[0] !in ColumnSet(Frame([], []));
  }
}
