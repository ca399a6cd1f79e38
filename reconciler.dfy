/** `verificar_estrutura_tabela` (Controller/incrementacao_msql.py, lines 70-109):
    create the table when it is absent, otherwise add every defined column it lacks.
    The routine is stated for any list of column definitions `defs`; the pipeline
    runs it with `Definition()`. */
module Reconciler {
  import opened Frames
  import opened Schema
  import opened Database

  /** `colunas_definidas - colunas_existentes` (line 103). */
  function MissingColumns(defs: seq<ColumnDef>, existing: set<string>): set<string>
  {
    Names(defs) - existing
  }

  /** The existing columns with the defined columns in `added` put beside them. */
  function Extend(defs: seq<ColumnDef>, columns: map<string, ColumnType>, added: set<string>): (m: map<string, ColumnType>)
    requires added <= Names(defs)
    ensures m.Keys == columns.Keys + added
  {
    map c | c in columns.Keys + added :: if c in columns then columns[c] else TypeIn(defs, c)
  }

  /** The structure the table has after one reconciliation. */
  function Reconciled(defs: seq<ColumnDef>, s: TableState): TableState
  {
    if !s.hasTable then TableState(true, ColumnsOf(defs), KeyNames(defs))
    else TableState(true, Extend(defs, s.columns, MissingColumns(defs, s.columns.Keys)), s.primaryKey)
  }

  /** The ALTER statements adding the columns `order`, in that order, each with its defined type. */
  function Alters(defs: seq<ColumnDef>, order: seq<string>): (r: seq<Request>)
    requires forall i :: 0 <= i < |order| ==> order[i] in Names(defs)
    ensures |r| == |order|
  {
    if order == [] then []
    else
      var last := order[|order| - 1];
      Alters(defs, order[..|order| - 1]) + [AlterStatement(last, TypeIn(defs, last))]
  }

  /** The branch for an existing table (lines 97-107): one ALTER per missing column,
      taken in an order the model leaves open (`order`), as Python iterates a set. */
  method AddMissingColumns(db: Db, defs: seq<ColumnDef>) returns (ghost order: seq<string>)
    requires db.Valid() && db.hasTable
    modifies db
    ensures db.Valid()
    ensures db.State() == Reconciled(defs, old(db.State()))
    ensures db.rows == old(db.rows)
    ensures Distinct(order) && forall c :: c in order <==> c in MissingColumns(defs, old(db.columns).Keys)
    ensures forall i :: 0 <= i < |order| ==> order[i] in MissingColumns(defs, old(db.columns).Keys)
    ensures db.requests == old(db.requests) + Alters(defs, order)
  {
    var existing := db.columns;
    var missing := MissingColumns(defs, existing.Keys);
    var remaining := missing;
    order := [];
    while remaining != {}
      invariant remaining <= missing
      invariant db.Valid() && db.hasTable
      invariant db.columns == Extend(defs, existing, missing - remaining)
      invariant db.primaryKey == old(db.primaryKey) && db.rows == old(db.rows)
      invariant Distinct(order) && forall c :: c in order <==> c in missing - remaining
      invariant forall i :: 0 <= i < |order| ==> order[i] in missing
      invariant db.requests == old(db.requests) + Alters(defs, order)
      decreases remaining
    {
      var c :| c in remaining;
      ghost var done := missing - remaining;
      ExtendStep(defs, existing, done, c);
      ghost var prev := db.requests;
      db.AddColumn(c, TypeIn(defs, c));
      remaining := remaining - {c};
      assert missing - remaining == done + {c};
      assert (order + [c])[..|order|] == order;
      assert Alters(defs, order + [c]) == Alters(defs, order) + [AlterStatement(c, TypeIn(defs, c))];
      assert db.requests == old(db.requests) + Alters(defs, order + [c]);
      assert c !in order;
      DistinctAppend(order, c);
      order := order + [c];
    }
    assert missing - remaining == missing;
  }

  /** A listing without repetition has as many entries as the set it lists: the
      reconciler sends exactly one ALTER per missing column. */
  lemma {:induction false} DistinctListing(xs: seq<string>, names: set<string>)
    requires Distinct(xs) && forall c :: c in xs <==> c in names
    ensures |xs| == |names|
  {
    if xs != [] {
      var init, last := xs[..|xs| - 1], xs[|xs| - 1];
      assert xs == init + [last];
      assert last !in init by {
        forall i | 0 <= i < |init| ensures init[i] != last {
          assert xs[i] == init[i];
        }
      }
      forall c ensures c in init <==> c in names - {last} {
        assert c in xs <==> c in init || c == last;
      }
      DistinctListing(init, names - {last});
    }
  }

  lemma DistinctAppend(xs: seq<string>, c: string)
    requires Distinct(xs) && c !in xs
    ensures Distinct(xs + [c])
  {
    forall i, j | 0 <= i < j < |xs| + 1 ensures (xs + [c])[i] != (xs + [c])[j] {
      if j == |xs| { assert xs[i] in xs; }
    }
  }

  lemma ExtendStep(defs: seq<ColumnDef>, columns: map<string, ColumnType>, done: set<string>, c: string)
    requires done <= Names(defs) && c in Names(defs) && c !in columns && c !in done
    ensures Extend(defs, columns, done)[c := TypeIn(defs, c)] == Extend(defs, columns, done + {c})
  {
  }

  /** Reconciles the table; returns the table's definition (`tabela_transacoes`). */
  method VerifyTableStructure(db: Db) returns (defs: seq<ColumnDef>)
    requires db.Valid()
    modifies db
    ensures db.Valid() && defs == Definition()
    ensures db.State() == Reconciled(Definition(), old(db.State()))
    ensures db.rows == old(db.rows)
    ensures !old(db.hasTable) ==> db.requests == old(db.requests) + [CreateStatement(Definition())]
    ensures old(db.hasTable) ==> exists order: seq<string> ::
      && Distinct(order) && |order| == |MissingColumns(Definition(), old(db.columns).Keys)|
      && (forall c :: c in order <==> c in MissingColumns(Definition(), old(db.columns).Keys))
      && (forall i :: 0 <= i < |order| ==> order[i] in MissingColumns(Definition(), old(db.columns).Keys))
      && db.requests == old(db.requests) + Alters(Definition(), order)
  {
    defs := Definition();
    if !db.hasTable {
      PrimaryKeyIsId();
      db.CreateTable(defs);
    } else {
      ghost var order := AddMissingColumns(db, defs);
      DistinctListing(order, MissingColumns(defs, old(db.columns).Keys));
    }
  }

  /** A new table has exactly the fifteen defined columns, with their declared types,
      and `_id` as its only primary key. */
  lemma CreatesDefinedTable(s: TableState)
    requires !s.hasTable
    ensures Reconciled(Definition(), s).hasTable
    ensures Reconciled(Definition(), s).columns.Keys == DefinedNames() && |DefinedNames()| == 15
    ensures forall k :: 0 <= k < |Definition()| ==>
              Reconciled(Definition(), s).columns[Definition()[k].name] == Definition()[k].ctype
    ensures Reconciled(Definition(), s).primaryKey == {PrimaryKeyColumn}
  {
    DefinedNamesCount();
    PrimaryKeyIsId();
    forall k | 0 <= k < |Definition()|
      ensures Reconciled(Definition(), s).columns[Definition()[k].name] == Definition()[k].ctype
    {
      DefinedColumnTypes(k);
    }
  }

  /** On an existing table the column set becomes `existing + defined`: no column is
      dropped or retyped, each added column has its defined type, the key is untouched. */
  lemma ExtendsExistingTable(defs: seq<ColumnDef>, s: TableState)
    requires s.hasTable
    ensures Reconciled(defs, s).hasTable
    ensures Reconciled(defs, s).columns.Keys == s.columns.Keys + Names(defs)
    ensures forall c :: c in s.columns ==> Reconciled(defs, s).columns[c] == s.columns[c]
    ensures forall c :: c in MissingColumns(defs, s.columns.Keys) ==> Reconciled(defs, s).columns[c] == TypeIn(defs, c)
    ensures Reconciled(defs, s).primaryKey == s.primaryKey
  {
  }

  /** A second run finds nothing missing, so it sends no ALTER, and it leaves the
      structure as the first run left it. */
  lemma Idempotent(defs: seq<ColumnDef>, s: TableState)
    ensures MissingColumns(defs, Reconciled(defs, s).columns.Keys) == {}
    ensures Reconciled(defs, Reconciled(defs, s)) == Reconciled(defs, s)
  {
    var r := Reconciled(defs, s);
    assert Names(defs) <= r.columns.Keys;
    assert Extend(defs, r.columns, MissingColumns(defs, r.columns.Keys)) == r.columns;
  }

  /** After reconciliation every defined column is present, whatever the table held. */
  lemma CoversDefinition(defs: seq<ColumnDef>, s: TableState)
    ensures Names(defs) <= Reconciled(defs, s).columns.Keys
  {
  }
}
