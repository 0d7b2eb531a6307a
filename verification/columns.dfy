/** The column record both metadata parsers produce: a column of a relation,
    bound to the relation's identity, owner and table statistics. */
module Columns {
  import opened Wrappers
  import opened OrderedDict

  /** The kinds of relation the column lists are asked about. */
  datatype RelationType = Table | View | Other(kind: string)

  /** A fully qualified catalog object; `database` is the catalog and may be unset. */
  datatype Relation = Relation(database: Option<string>, schema: string, name: string, kind: RelationType)

  /** A non-null scalar the engine returns in a metadata cell. */
  datatype Value = Text(text: string) | Number(n: int)

  /** Table statistics by metric name (`bytes`, `rows`), in the order parsed. */
  type TableStats = Dict<string, int>

  datatype ColumnRecord = ColumnRecord(
    tableDatabase: Option<string>,
    tableSchema: string,
    tableName: string,
    tableType: RelationType,
    tableOwner: Option<string>,
    column: string,
    columnIndex: nat,
    dtype: Option<Value>,
    numericScale: Option<int>,
    numericPrecision: Option<int>,
    charSize: Option<int>,
    tableStats: TableStats
  )

  /** The record for column `name` at position `index` of relation `rel`. The
      raw type is kept as given: neither parser decomposes it, so precision,
      scale and character size stay unset. */
  function MakeColumn(rel: Relation, owner: Option<string>, stats: TableStats,
                      name: string, index: nat, dtype: Option<Value>): ColumnRecord
  {
    ColumnRecord(rel.database, rel.schema, rel.name, rel.kind, owner,
                 name, index, dtype, None, None, None, stats)
  }
}
