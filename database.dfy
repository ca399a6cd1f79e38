/** The destination database reduced to the one table the pipeline touches: whether
    it exists, its columns with their types, its primary key and its stored rows.
    Each method is one statement the engine executes; the outcome of an insert is
    supplied by the caller, since the database's own checks are not modelled. */
module Database {
  import opened Frames
  import opened Schema

  /** A statement the database has been sent. */
  datatype Request =
    | CreateStatement(defs: seq<ColumnDef>)
    | AlterStatement(name: string, ctype: ColumnType)
    | BatchStatement(rows: seq<Row>)
    | RowStatement(row: Row)

  /** How a batched `to_sql` append ended. */
  datatype BatchResult = BatchCommitted | BatchFailed(message: string)

  /** How a single-row `to_sql` append ended: committed, an `IntegrityError` carrying the
      driver's message (`e.orig`) and its own text (`str(e)`), or any other exception. */
  datatype InsertResult =
    | Inserted
    | IntegrityError(orig: string, message: string)
    | OtherError(message: string)

  /** What an inspector sees of the table's structure. */
  datatype TableState = TableState(hasTable: bool, columns: map<string, ColumnType>, primaryKey: set<string>)

  class Db {
    var hasTable: bool
    var columns: map<string, ColumnType>
    var primaryKey: set<string>
    var rows: seq<Row>
    /** Every statement sent so far, oldest first. */
    ghost var requests: seq<Request>

    /** An absent table has nothing; the key is among the columns; a stored row only
        has columns of the table, which is what `Loader.InsertData` and `Pipeline.Run`
        promise about the rows after a load. */
    ghost predicate Valid()
      reads this
    {
      && (!hasTable ==> columns == map[] && primaryKey == {} && rows == [])
      && primaryKey <= columns.Keys
      && forall i :: 0 <= i < |rows| ==> rows[i].Keys <= columns.Keys
    }

    function State(): TableState
      reads this
    {
      TableState(hasTable, columns, primaryKey)
    }

    /** `metadata.create_all`: the table is created with the given columns and keys. */
    method CreateTable(defs: seq<ColumnDef>)
      requires Valid() && !hasTable
      requires KeyNames(defs) <= Names(defs)
      modifies this
      ensures Valid()
      ensures hasTable && columns == ColumnsOf(defs) && primaryKey == KeyNames(defs)
      ensures rows == old(rows) && requests == old(requests) + [CreateStatement(defs)]
    {
      hasTable, columns, primaryKey := true, ColumnsOf(defs), KeyNames(defs);
      requests := requests + [CreateStatement(defs)];
    }

    /** `ALTER TABLE transactions ADD COLUMN`: one new column; nothing else changes. */
    method AddColumn(name: string, ctype: ColumnType)
      requires Valid() && hasTable && name !in columns
      modifies this
      ensures Valid()
      ensures hasTable && columns == old(columns)[name := ctype] && primaryKey == old(primaryKey)
      ensures rows == old(rows) && requests == old(requests) + [AlterStatement(name, ctype)]
    {
      columns := columns[name := ctype];
      requests := requests + [AlterStatement(name, ctype)];
    }

    /** A multi-row append. A failed batch is taken to store nothing. */
    method InsertRows(batch: seq<Row>, result: BatchResult)
      requires Valid() && hasTable
      requires forall i :: 0 <= i < |batch| ==> batch[i].Keys <= columns.Keys
      modifies this
      ensures Valid() && State() == old(State())
      ensures rows == old(rows) + (if result.BatchCommitted? then batch else [])
      ensures requests == old(requests) + [BatchStatement(batch)]
    {
      if result.BatchCommitted? {
        rows := rows + batch;
      }
      requests := requests + [BatchStatement(batch)];
    }

    /** A one-row append; the row is stored only when the insert succeeded. */
    method InsertOne(row: Row, result: InsertResult)
      requires Valid() && hasTable && row.Keys <= columns.Keys
      modifies this
      ensures Valid() && State() == old(State())
      ensures rows == old(rows) + (if result.Inserted? then [row] else [])
      ensures requests == old(requests) + [RowStatement(row)]
    {
      if result.Inserted? {
        rows := rows + [row];
      }
      requests := requests + [RowStatement(row)];
    }
  }
}
