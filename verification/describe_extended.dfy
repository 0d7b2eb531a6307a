/** Splitting the output of `DESCRIBE TABLE EXTENDED` into the table's
    columns and its table-level metadata (`parse_describe_extended`). */
module DescribeExtended {
  import opened Wrappers
  import opened Strings
  import opened OrderedDict
  import opened Columns
  import opened TableStatistics

  /** One output row: `(col_name, data_type)`, either of which may be null. */
  datatype Row = Row(colName: Option<string>, dataType: Option<Value>)

  /** Table-level properties by row name; the null name is a key like any other. */
  type Metadata = Dict<Option<string>, Option<Value>>

  const OwnerKey: Option<string> := Some("Owner")
  const StatisticsKey: Option<string> := Some("Statistics")

  /** A row that ends the leading run of column definitions: a section
      marker such as `# Partition Information`, or a row without a name. */
  predicate EndsColumns(row: Row) {
    match row.colName
    case None => true
    case Some(name) => name == "" || StartsWith(name, "#")
  }

  function SeparatorFrom(rows: seq<Row>, i: nat): (pos: nat)
    requires i <= |rows|
    ensures i <= pos <= |rows|
    ensures forall j :: i <= j < pos ==> !EndsColumns(rows[j])
    ensures pos < |rows| ==> EndsColumns(rows[pos])
    decreases |rows| - i
  {
    if i == |rows| || EndsColumns(rows[i]) then i else SeparatorFrom(rows, i + 1)
  }

  /** The position of the first row that ends the column definitions, or
      the number of rows when none does. */
  function SeparatorIndex(rows: seq<Row>): (pos: nat)
    ensures pos <= |rows|
    ensures forall j :: 0 <= j < pos ==> !EndsColumns(rows[j])
    ensures pos < |rows| ==> EndsColumns(rows[pos])
  {
    SeparatorFrom(rows, 0)
  }

  function RowPairs(rows: seq<Row>): (ps: seq<(Option<string>, Option<Value>)>)
    ensures |ps| == |rows|
    ensures forall i :: 0 <= i < |rows| ==> ps[i] == (rows[i].colName, rows[i].dataType)
  {
    seq(|rows|, i requires 0 <= i < |rows| => (rows[i].colName, rows[i].dataType))
  }

  /** The metadata: a dict built from every row after the separator row. */
  function MetadataOf(rows: seq<Row>): Metadata {
    var pos := SeparatorIndex(rows);
    if pos == |rows| then [] else FromPairs(RowPairs(rows[pos + 1..]))
  }

  /** `str(owner)` for the metadata's `Owner` value: a numeric owner becomes
      its decimal string; an absent or null owner stays unset. */
  function OwnerString(v: Option<Option<Value>>): (r: Option<string>)
    ensures r.Some? <==> v.Some? && v.value.Some?
    ensures r.Some? && v.value.value.Text? ==> r.value == v.value.value.text
    ensures r.Some? && v.value.value.Number? ==> ParseInt(r.value) == Some(v.value.value.n)
  {
    match v
    case Some(Some(Text(s))) => Some(s)
    case Some(Some(Number(n))) => ParseIntOfIntToString(n); Some(IntToString(n))
    case _ => None
  }

  /** The raw statistics string, when the metadata holds a textual one. */
  function StatisticsText(v: Option<Option<Value>>): Option<string> {
    match v
    case Some(Some(Text(s))) => Some(s)
    case _ => None
  }

  /** One record per row of a run of column definitions, numbered from 0. */
  function ColumnRecords(rel: Relation, owner: Option<string>, stats: TableStats,
                         rows: seq<Row>): (cols: seq<ColumnRecord>)
    ensures |cols| == |rows|
    ensures forall i :: 0 <= i < |rows| ==>
              && (rows[i].colName.Some? ==> Some(cols[i].column) == rows[i].colName)
              && cols[i].columnIndex == i
              && cols[i].dtype == rows[i].dataType
              && cols[i].tableOwner == owner
              && cols[i].tableStats == stats
    ensures forall i :: 0 <= i < |rows| ==>
              && cols[i].tableDatabase == rel.database
              && cols[i].tableSchema == rel.schema
              && cols[i].tableName == rel.name
              && cols[i].tableType == rel.kind
    ensures forall i :: 0 <= i < |rows| ==>
              && cols[i].numericPrecision.None?
              && cols[i].numericScale.None?
              && cols[i].charSize.None?
  {
    seq(|rows|, i requires 0 <= i < |rows| =>
                  MakeColumn(rel, owner, stats, rows[i].colName.GetOr(""), i, rows[i].dataType))
  }

  /** `parse_describe_extended`: the metadata dict, and one record per
      leading column row, each carrying the relation, the owner and the
      statistics taken from the metadata. */
  function ParseDescribeExtended(rel: Relation, rows: seq<Row>): (r: (Metadata, seq<ColumnRecord>))
    ensures |r.1| <= |rows|
    ensures forall i :: 0 <= i < |r.1| ==> !EndsColumns(rows[i])
    ensures |r.1| < |rows| ==> EndsColumns(rows[|r.1|])
    ensures forall i :: 0 <= i < |r.1| ==>
              && Some(r.1[i].column) == rows[i].colName
              && r.1[i].columnIndex == i
              && r.1[i].dtype == rows[i].dataType
    ensures forall i :: 0 <= i < |r.1| ==>
              && r.1[i].tableDatabase == rel.database
              && r.1[i].tableSchema == rel.schema
              && r.1[i].tableName == rel.name
              && r.1[i].tableType == rel.kind
    ensures forall i :: 0 <= i < |r.1| ==>
              && r.1[i].numericPrecision.None?
              && r.1[i].numericScale.None?
              && r.1[i].charSize.None?
    ensures forall i :: 0 <= i < |r.1| ==>
              && r.1[i].tableOwner == OwnerString(Get(r.0, OwnerKey))
              && r.1[i].tableStats == StatsOrEmpty(StatisticsText(Get(r.0, StatisticsKey)))
  {
    var pos := SeparatorIndex(rows);
    var metadata := MetadataOf(rows);
    var owner := OwnerString(Get(metadata, OwnerKey));
    var stats := StatsOrEmpty(StatisticsText(Get(metadata, StatisticsKey)));
    (metadata, ColumnRecords(rel, owner, stats, rows[..pos]))
  }

  /** The dict built from a run of rows holds exactly the names of those
      rows, each with the value of the last row of that name. */
  lemma RowsDict(tail: seq<Row>, k: Option<string>)
    ensures k in KeySet(FromPairs(RowPairs(tail))) <==> exists j :: 0 <= j < |tail| && tail[j].colName == k
    ensures var v := Get(FromPairs(RowPairs(tail)), k);
            v.Some? ==> exists j :: 0 <= j < |tail| && tail[j] == Row(k, v.value)
                                    && forall j' :: j < j' < |tail| ==> tail[j'].colName != k
  {
    var ps := RowPairs(tail);
    if k in KeySet(ps) {
      var i :| 0 <= i < |ps| && ps[i].0 == k;
      assert tail[i].colName == k;
    }
    if exists j :: 0 <= j < |tail| && tail[j].colName == k {
      var j :| 0 <= j < |tail| && tail[j].colName == k;
      assert ps[j].0 == k;
    }
    var v := LastValue(ps, k);
    if v.Some? {
      var i :| 0 <= i < |ps| && ps[i] == (k, v.value)
               && forall i' :: i < i' < |ps| ==> ps[i'].0 != k;
      assert tail[i] == Row(k, v.value);
    }
  }

  /** The metadata holds exactly the names of the rows after the separator
      row, each with the value of the last such row of that name; the
      separator row itself and the column rows do not contribute, and
      output without a separator has no metadata. */
  lemma MetadataIsRowsAfterSeparator(rel: Relation, rows: seq<Row>, k: Option<string>)
    ensures var (md, cols) := ParseDescribeExtended(rel, rows);
            |cols| == |rows| ==> md == []
    ensures var (md, cols) := ParseDescribeExtended(rel, rows);
            |cols| < |rows| ==>
              var tail := rows[|cols| + 1..];
              && (k in KeySet(md) <==> exists j :: 0 <= j < |tail| && tail[j].colName == k)
              && (Get(md, k).Some? ==>
                    exists j :: 0 <= j < |tail| && tail[j] == Row(k, Get(md, k).value)
                                && forall j' :: j < j' < |tail| ==> tail[j'].colName != k)
  {
    var pos := SeparatorIndex(rows);
    var r := ParseDescribeExtended(rel, rows);
    assert r.0 == MetadataOf(rows) && |r.1| == pos;
    if pos < |rows| {
      RowsDict(rows[pos + 1..], k);
    }
  }

  /** Output without any section marker or unnamed row is all columns, in
      order, and no metadata. */
  lemma NoSeparatorAllColumns(rel: Relation, rows: seq<Row>)
    requires forall i :: 0 <= i < |rows| ==> !EndsColumns(rows[i])
    ensures var (md, cols) := ParseDescribeExtended(rel, rows);
            && md == []
            && |cols| == |rows|
            && forall i :: 0 <= i < |rows| ==> Some(cols[i].column) == rows[i].colName && cols[i].columnIndex == i
  {
  }

  /** A row after the separator whose name is not repeated further down
      gives that name its metadata value. */
  lemma MetadataValueOfLastRow(rows: seq<Row>, j: nat)
    requires SeparatorIndex(rows) < j < |rows|
    requires forall j' :: j < j' < |rows| ==> rows[j'].colName != rows[j].colName
    ensures Get(MetadataOf(rows), rows[j].colName) == Some(rows[j].dataType)
  {
    var pos := SeparatorIndex(rows);
    var ps := RowPairs(rows[pos + 1..]);
    var i := j - pos - 1;
    assert ps[i] == (rows[j].colName, rows[j].dataType);
    forall i' | i < i' < |ps| ensures ps[i'].0 != ps[i].0 {
      assert ps[i'].0 == rows[i' + pos + 1].colName;
    }
    LastValueOfLastEntry(ps, i);
  }

  /** Output made of column rows, a separator row and further rows parses
      into columns for the leading rows and metadata from the further rows. */
  lemma ParseOfSections(rel: Relation, front: seq<Row>, sep: Row, tail: seq<Row>)
    requires forall i :: 0 <= i < |front| ==> !EndsColumns(front[i])
    requires EndsColumns(sep)
    ensures var md := FromPairs(RowPairs(tail));
            ParseDescribeExtended(rel, front + [sep] + tail) ==
              (md, ColumnRecords(rel, OwnerString(Get(md, OwnerKey)),
                                 StatsOrEmpty(StatisticsText(Get(md, StatisticsKey))), front))
  {
    var rows := front + [sep] + tail;
    var pos := SeparatorIndex(rows);
    assert rows[|front|] == sep;
    assert forall i :: 0 <= i < |front| ==> rows[i] == front[i];
    assert pos == |front|;
    assert rows[pos + 1..] == tail;
    assert rows[..pos] == front;
  }

  /** The value of the last row named `k` in a run of rows is its metadata value. */
  lemma RowsDictValue(tail: seq<Row>, j: nat)
    requires j < |tail|
    requires forall j' :: j < j' < |tail| ==> tail[j'].colName != tail[j].colName
    ensures Get(FromPairs(RowPairs(tail)), tail[j].colName) == Some(tail[j].dataType)
  {
    var ps := RowPairs(tail);
    LastValueOfLastEntry(ps, j);
  }

  /** Statistics the engine reports are parsed once and attached, the same,
      to every column. */
  lemma StatisticsOnEveryColumn(rel: Relation, rows: seq<Row>, stats: seq<(string, int)>)
    requires |stats| >= 1 && forall i :: 0 <= i < |stats| ==> PlainMetric(stats[i].0)
    requires Get(MetadataOf(rows), StatisticsKey) == Some(Some(Text(RenderStatistics(stats))))
    ensures var (_, cols) := ParseDescribeExtended(rel, rows);
            forall i :: 0 <= i < |cols| ==> cols[i].tableStats == FromPairs(stats)
  {
    ParseRenderStatistics(stats);
  }

  /** Without a textual `Statistics` row the columns carry no statistics. */
  lemma NoStatisticsRowNoStatistics(rel: Relation, rows: seq<Row>)
    requires var v := Get(MetadataOf(rows), StatisticsKey);
             !(v.Some? && v.value.Some? && v.value.value.Text?)
    ensures var (_, cols) := ParseDescribeExtended(rel, rows);
            forall i :: 0 <= i < |cols| ==> cols[i].tableStats == []
  {
  }

  // ---------------------------------------------------------------------
  // The documented outputs

  function T(s: string): Option<Value> { Some(Text(s)) }

  const SampleRelation: Relation := Relation(None, "default_schema", "mytable", Table)

  const SampleColumnRows: seq<Row> := [
    Row(Some("col1"), T("decimal(22,0)")),
    Row(Some("col2"), T("string")),
    Row(Some("dt"), T("date")),
    Row(Some("struct_col"), T("struct<struct_inner_col:string>"))
  ]

  const PartitionMarker: Row := Row(Some("# Partition Information"), T("data_type"))

  /** The partition section repeating `dt`, a null row and the detailed
      table information. */
  const PartitionedTail: seq<Row> := [
    Row(Some("# col_name"), T("data_type")),
    Row(Some("dt"), T("date")),
    Row(None, None),
    Row(Some("# Detailed Table Information"), None),
    Row(Some("Database"), None),
    Row(Some("Owner"), T("root")),
    Row(Some("Created Time"), T("Wed Feb 04 18:15:00 UTC 1815")),
    Row(Some("Last Access"), T("Wed May 20 19:25:00 UTC 1925")),
    Row(Some("Type"), T("MANAGED")),
    Row(Some("Provider"), T("delta")),
    Row(Some("Location"), T("/mnt/vo")),
    Row(Some("Serde Library"), T("org.apache.hadoop.hive.serde2.lazy.LazySimpleSerDe")),
    Row(Some("InputFormat"), T("org.apache.hadoop.mapred.SequenceFileInputFormat")),
    Row(Some("OutputFormat"), T("org.apache.hadoop.hive.ql.io.HiveSequenceFileOutputFormat")),
    Row(Some("Partition Provider"), T("Catalog"))
  ]

  const PartitionedRows: seq<Row> := SampleColumnRows + [PartitionMarker] + PartitionedTail

  lemma SampleColumnRowsAreColumns()
    ensures forall i :: 0 <= i < |SampleColumnRows| ==> !EndsColumns(SampleColumnRows[i])
  {
    assert !EndsColumns(SampleColumnRows[0]) && !EndsColumns(SampleColumnRows[1]);
    assert !EndsColumns(SampleColumnRows[2]) && !EndsColumns(SampleColumnRows[3]);
  }

  lemma PartitionedTailOwner()
    ensures Get(FromPairs(RowPairs(PartitionedTail)), OwnerKey) == Some(T("root"))
  {
    RowsDictValue(PartitionedTail, 5);
  }

  lemma PartitionedTailNoStatistics()
    ensures Get(FromPairs(RowPairs(PartitionedTail)), StatisticsKey) == None
  {
    assert forall j | 0 <= j < |PartitionedTail| :: PartitionedTail[j].colName != StatisticsKey;
    RowsDict(PartitionedTail, StatisticsKey);
  }

  lemma PartitionedSections()
    ensures ParseDescribeExtended(SampleRelation, PartitionedRows) ==
              (FromPairs(RowPairs(PartitionedTail)),
               ColumnRecords(SampleRelation, Some("root"), [], SampleColumnRows))
  {
    SampleColumnRowsAreColumns();
    assert EndsColumns(PartitionMarker);
    PartitionedTailOwner();
    PartitionedTailNoStatistics();
    ParseOfSections(SampleRelation, SampleColumnRows, PartitionMarker, PartitionedTail);
  }

  /** The records of the sample columns, owned by `root`. */
  function SampleColumn(name: string, index: nat, dtype: string): ColumnRecord {
    ColumnRecord(None, "default_schema", "mytable", Table, Some("root"),
                 name, index, T(dtype), None, None, None, [])
  }

  lemma SampleColumnRecords()
    ensures var cols := ColumnRecords(SampleRelation, Some("root"), [], SampleColumnRows);
            && |cols| == 4
            && cols[0] == SampleColumn("col1", 0, "decimal(22,0)")
            && cols[1] == SampleColumn("col2", 1, "string")
            && cols[2] == SampleColumn("dt", 2, "date")
            && cols[3] == SampleColumn("struct_col", 3, "struct<struct_inner_col:string>")
  {
    SampleColumnRowsAreColumns();
    var cols := ColumnRecords(SampleRelation, Some("root"), [], SampleColumnRows);
    assert cols[0].column == "col1";
    assert cols[1].column == "col2";
    assert cols[2].column == "dt";
    assert cols[3].column == "struct_col";
  }

  /** The four rows before `# Partition Information` are the columns, with
      their types verbatim (no precision, scale or size), owned by `root`
      and without statistics. */
  lemma ParseRelationColumnsExample()
    ensures var (_, cols) := ParseDescribeExtended(SampleRelation, PartitionedRows);
            && |cols| == 4
            && cols[0] == SampleColumn("col1", 0, "decimal(22,0)")
            && cols[1] == SampleColumn("col2", 1, "string")
            && cols[2] == SampleColumn("dt", 2, "date")
            && cols[3] == SampleColumn("struct_col", 3, "struct<struct_inner_col:string>")
  {
    PartitionedSections();
    SampleColumnRecords();
  }

  lemma PartitionedTailColName()
    ensures Get(FromPairs(RowPairs(PartitionedTail)), Some("# col_name")) == Some(T("data_type"))
  {
    RowsDictValue(PartitionedTail, 0);
  }

  lemma PartitionedTailDt()
    ensures Get(FromPairs(RowPairs(PartitionedTail)), Some("dt")) == Some(T("date"))
  {
    RowsDictValue(PartitionedTail, 1);
  }

  lemma PartitionedTailNullRow()
    ensures Get(FromPairs(RowPairs(PartitionedTail)), None) == Some(None)
  {
    RowsDictValue(PartitionedTail, 2);
  }

  lemma PartitionedTailOmits(k: Option<string>)
    requires k in {Some("# Partition Information"), Some("col1")}
    ensures Get(FromPairs(RowPairs(PartitionedTail)), k) == None
  {
    assert forall j | 0 <= j < |PartitionedTail| :: PartitionedTail[j].colName != k;
    RowsDict(PartitionedTail, k);
  }

  /** The partition section's `# col_name` and `dt` rows and the null row
      are metadata; the separator row and the column rows are not. */
  lemma ParseRelationMetadataExample()
    ensures var (md, _) := ParseDescribeExtended(SampleRelation, PartitionedRows);
            && Get(md, Some("# col_name")) == Some(T("data_type"))
            && Get(md, Some("dt")) == Some(T("date"))
            && Get(md, None) == Some(None)
            && Get(md, Some("Owner")) == Some(T("root"))
            && Get(md, Some("# Partition Information")) == None
            && Get(md, Some("col1")) == None
  {
    PartitionedSections();
    PartitionedTailColName();
    PartitionedTailDt();
    PartitionedTailNullRow();
    PartitionedTailOwner();
    PartitionedTailOmits(Some("# Partition Information"));
    PartitionedTailOmits(Some("col1"));
  }

  /** The detailed table information of a table that reports statistics. */
  const StatisticsTail: seq<Row> := [
    Row(None, None),
    Row(Some("# Detailed Table Information"), None),
    Row(Some("Database"), None),
    Row(Some("Owner"), T("root")),
    Row(Some("Created Time"), T("Wed Feb 04 18:15:00 UTC 1815")),
    Row(Some("Last Access"), T("Wed May 20 19:25:00 UTC 1925")),
    Row(Some("Statistics"), T("1109049927 bytes, 14093476 rows")),
    Row(Some("Type"), T("MANAGED")),
    Row(Some("Provider"), T("delta")),
    Row(Some("Location"), T("/mnt/vo")),
    Row(Some("Serde Library"), T("org.apache.hadoop.hive.serde2.lazy.LazySimpleSerDe")),
    Row(Some("InputFormat"), T("org.apache.hadoop.mapred.SequenceFileInputFormat")),
    Row(Some("OutputFormat"), T("org.apache.hadoop.hive.ql.io.HiveSequenceFileOutputFormat")),
    Row(Some("Partition Provider"), T("Catalog"))
  ]

  const StatisticsRows: seq<Row> := [Row(Some("col1"), T("decimal(22,0)")), PartitionMarker] + StatisticsTail

  lemma StatisticsTailOwner()
    ensures Get(FromPairs(RowPairs(StatisticsTail)), OwnerKey) == Some(T("root"))
  {
    RowsDictValue(StatisticsTail, 3);
  }

  lemma StatisticsTailStatistics()
    ensures Get(FromPairs(RowPairs(StatisticsTail)), StatisticsKey) == Some(T("1109049927 bytes, 14093476 rows"))
  {
    RowsDictValue(StatisticsTail, 6);
  }

  /** The one column of a table reporting bytes and rows carries both
      metrics, and its column dict the four entries of each; the metadata
      keeps the raw statistics string. */
  lemma StatisticsRelationExample()
    ensures var (md, cols) := ParseDescribeExtended(SampleRelation, StatisticsRows);
            && Get(md, StatisticsKey) == Some(T("1109049927 bytes, 14093476 rows"))
            && |cols| == 1
            && cols[0] == ColumnRecord(None, "default_schema", "mytable", Table, Some("root"),
                                       "col1", 0, T("decimal(22,0)"), None, None, None,
                                       [("bytes", 1109049927), ("rows", 14093476)])
            && StatsColumnDict(cols[0].tableStats)
                 == MetricEntries("bytes", 1109049927) + MetricEntries("rows", 14093476)
  {
    var front := [Row(Some("col1"), T("decimal(22,0)"))];
    var stats := [("bytes", 1109049927), ("rows", 14093476)];
    assert !EndsColumns(front[0]) && EndsColumns(PartitionMarker);
    assert StatisticsRows == front + [PartitionMarker] + StatisticsTail;
    ParseOfSections(SampleRelation, front, PartitionMarker, StatisticsTail);
    StatisticsTailOwner();
    StatisticsTailStatistics();
    assert StatsOrEmpty(StatisticsText(Some(T("1109049927 bytes, 14093476 rows")))) == stats by {
      SampleStatistics();
    }
    var col := ColumnRecords(SampleRelation, Some("root"), stats, front)[0];
    assert col == ColumnRecord(None, "default_schema", "mytable", Table, Some("root"),
                               "col1", 0, T("decimal(22,0)"), None, None, None, stats);
    BytesAndRowsColumnDict(1109049927, 14093476);
  }

  lemma NumericOwner1234()
    ensures OwnerString(Some(Some(Number(1234)))) == Some("1234")
  {
    assert IntToString(1234) == "1234";
  }

  /** A numeric owner is reported as its decimal string. */
  lemma IntegerOwnerExample()
    ensures var rows := [Row(Some("col1"), T("decimal(22,0)"))]
                        + [Row(Some("# Detailed Table Information"), None)]
                        + [Row(Some("Owner"), Some(Number(1234)))];
            var (_, cols) := ParseDescribeExtended(SampleRelation, rows);
            |cols| == 1 && cols[0].tableOwner == Some("1234")
  {
    var front := [Row(Some("col1"), T("decimal(22,0)"))];
    var sep := Row(Some("# Detailed Table Information"), None);
    var tail := [Row(Some("Owner"), Some(Number(1234)))];
    assert !EndsColumns(front[0]) && EndsColumns(sep);
    ParseOfSections(SampleRelation, front, sep, tail);
    RowsDictValue(tail, 0);
    NumericOwner1234();
  }
}
