/** The code-defined table `transactions`: fifteen columns, `_id` the primary key
    (Controller/incrementacao_msql.py, lines 73-89). */
module Schema {
  import opened Frames

  const PrimaryKeyColumn := "_id"

  /** SQL column types used by the definition. */
  datatype ColumnType = DateTime | VarChar(length: nat) | Decimal(precision: nat, scale: nat) | Integer

  datatype ColumnDef = ColumnDef(name: string, ctype: ColumnType, primaryKey: bool)

  /** The column definitions, in declaration order. */
  function Definition(): seq<ColumnDef>
  {
    [ ColumnDef("Modified Date", DateTime, false),
      ColumnDef("Created Date", DateTime, false),
      ColumnDef("Created By", VarChar(255), false),
      ColumnDef("estimated_date", DateTime, false),
      ColumnDef("recipient_ref", VarChar(255), false),
      ColumnDef("status", VarChar(255), false),
      ColumnDef("amount", Decimal(10, 2), false),
      ColumnDef("year_ref", Integer, false),
      ColumnDef("payment_date", DateTime, false),
      ColumnDef("OS_type-transaction", VarChar(255), false),
      ColumnDef("user_ref", VarChar(255), false),
      ColumnDef("cod_ref", VarChar(255), false),
      ColumnDef("month_ref", Integer, false),
      ColumnDef("OS_frequency-type", VarChar(255), false),
      ColumnDef("_id", VarChar(255), true) ]
  }

  /** The names of a list of column definitions. */
  function Names(defs: seq<ColumnDef>): set<string>
  {
    set k | 0 <= k < |defs| :: defs[k].name
  }

  /** The names of the columns declared as primary key. */
  function KeyNames(defs: seq<ColumnDef>): (keys: set<string>)
    ensures keys <= Names(defs)
  {
    set k | 0 <= k < |defs| && defs[k].primaryKey :: defs[k].name
  }

  /** The names of a non-empty list: its first name and those of the rest. */
  lemma NamesSplit(defs: seq<ColumnDef>)
    requires defs != []
    ensures Names(defs) == {defs[0].name} + Names(defs[1..])
  {
  }

  /** The first definition carrying `name`, as `next(col for col in ... if col.name == name)`
      finds it (line 104); `None` where the generator would be exhausted. */
  function Lookup(defs: seq<ColumnDef>, name: string): (r: Option<ColumnDef>)
    ensures r.Some? <==> name in Names(defs)
    ensures r.Some? ==> r.value.name == name
  {
    if defs == [] then None
    else
      NamesSplit(defs);
      if defs[0].name == name then Some(defs[0])
      else Lookup(defs[1..], name)
  }

  /** Lookup returns the earliest definition with the name. */
  lemma {:induction false} LookupFindsFirst(defs: seq<ColumnDef>, k: nat)
    requires k < |defs|
    requires forall j :: 0 <= j < k ==> defs[j].name != defs[k].name
    ensures Lookup(defs, defs[k].name) == Some(defs[k])
  {
    if k > 0 {
      LookupFindsFirst(defs[1..], k - 1);
    }
  }

  /** The column map a table created from `defs` has. */
  function ColumnsOf(defs: seq<ColumnDef>): (m: map<string, ColumnType>)
    ensures m.Keys == Names(defs)
  {
    map n | n in Names(defs) :: Lookup(defs, n).value.ctype
  }

  /** The set of defined names (`colunas_definidas`, line 99). */
  function DefinedNames(): set<string>
  {
    Names(Definition())
  }

  /** The type a list of definitions gives the column `name` (line 104). */
  function TypeIn(defs: seq<ColumnDef>, name: string): ColumnType
    requires name in Names(defs)
  {
    Lookup(defs, name).value.ctype
  }

  /** No two definitions share a name. */
  predicate DistinctNames(defs: seq<ColumnDef>)
  {
    forall i, j :: 0 <= i < j < |defs| ==> defs[i].name != defs[j].name
  }

  lemma DefinitionDistinct()
    ensures DistinctNames(Definition())
  {
    var ds := Definition();
    forall i, j | 0 <= i < j < |ds| ensures ds[i].name != ds[j].name {
      // the fifteen names differ in their length or in their first character
      assert |ds[i].name| != |ds[j].name| || ds[i].name[0] != ds[j].name[0];
    }
  }

  /** With distinct names, a list of definitions names as many columns as it has entries. */
  lemma {:induction false} NamesCount(defs: seq<ColumnDef>)
    requires DistinctNames(defs)
    ensures |Names(defs)| == |defs|
  {
    if defs != [] {
      var rest := defs[1..];
      NamesSplit(defs);
      assert defs[0].name !in Names(rest) by {
        forall k | 0 <= k < |rest| ensures rest[k].name != defs[0].name {
          assert rest[k] == defs[k + 1];
        }
      }
      NamesCount(rest);
    }
  }

  /** The table has exactly fifteen defined columns. */
  lemma DefinedNamesCount()
    ensures |DefinedNames()| == |Definition()| == 15
  {
    DefinitionDistinct();
    NamesCount(Definition());
  }

  /** `_id` is the one and only primary-key column of the definition. */
  lemma PrimaryKeyIsId()
    ensures KeyNames(Definition()) == {PrimaryKeyColumn}
    ensures PrimaryKeyColumn in DefinedNames()
  {
    var ds := Definition();
    assert ds[14].name == PrimaryKeyColumn && ds[14].primaryKey;
    forall k | 0 <= k < |ds| && ds[k].primaryKey ensures k == 14 {
    }
  }

  /** With distinct names every definition is found by its own name: the type the
      reconciler compiles for a column is the type declared for it. */
  lemma LookupFindsOwn(defs: seq<ColumnDef>, k: nat)
    requires DistinctNames(defs) && k < |defs|
    ensures defs[k].name in Names(defs)
    ensures Lookup(defs, defs[k].name) == Some(defs[k])
  {
    LookupFindsFirst(defs, k);
  }

  lemma DefinedColumnTypes(k: nat)
    requires k < |Definition()|
    ensures Definition()[k].name in DefinedNames()
    ensures TypeIn(Definition(), Definition()[k].name) == Definition()[k].ctype
    ensures ColumnsOf(Definition())[Definition()[k].name] == Definition()[k].ctype
  {
    DefinitionDistinct();
    LookupFindsOwn(Definition(), k);
  }
}
