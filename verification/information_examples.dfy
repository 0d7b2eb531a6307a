/** The information blobs of a managed Delta table, a view and a managed
    Parquet table, and the columns read out of them. String literals longer
    than forty characters are written as concatenations of shorter ones. */
module InformationExamples {
  import opened Wrappers
  import opened Strings
  import opened Columns
  import opened TableStatistics
  import opened InformationBlob

  // ---------------------------------------------------------------------
  // Reading a header followed by a schema tree

  /** One column per field, numbered from 0, all with the same owner and
      statistics. */
  function FieldColumns(rel: Relation, owner: Option<string>, stats: TableStats,
                        fields: seq<(string, string)>): (cols: seq<ColumnRecord>)
    ensures |cols| == |fields|
    ensures forall k :: 0 <= k < |cols| ==>
              cols[k] == MakeColumn(rel, owner, stats, fields[k].0, k, Some(Text(fields[k].1)))
  {
    seq(|fields|, k requires 0 <= k < |fields| =>
                    MakeColumn(rel, owner, stats, fields[k].0, k, Some(Text(fields[k].1))))
  }

  /** Header lines: not indented, no newline. */
  ghost predicate HeaderShape(lines: seq<string>) {
    forall j :: 0 <= j < |lines| ==> NotIndented(lines[j]) && '\n' !in lines[j]
  }

  /** Schema-tree lines: empty or indented, no newline. */
  ghost predicate TreeShape(lines: seq<string>) {
    forall j :: 0 <= j < |lines| ==> (|lines[j]| == 0 || lines[j][0] == ' ') && '\n' !in lines[j]
  }

  lemma HeaderShapeAppend(a: seq<string>, b: seq<string>)
    requires HeaderShape(a) && HeaderShape(b)
    ensures HeaderShape(a + b)
  {
    forall j | 0 <= j < |a + b| ensures NotIndented((a + b)[j]) && '\n' !in (a + b)[j] {
      if j < |a| {
        assert (a + b)[j] == a[j];
      } else {
        assert (a + b)[j] == b[j - |a|];
      }
    }
  }

  /** A blob made of header lines and then a schema tree: the columns are
      the tree's fields, and owner and statistics come from the header. */
  lemma ReadHeaderAndTree(rel: Relation, header: seq<string>, tree: seq<string>)
    requires HeaderShape(header) && TreeShape(tree) && |tree| >= 1
    ensures ParseColumnsFromInformation(rel, Join(header + tree, "\n")) ==
              FieldColumns(rel, FirstValueAfter(header, OwnerPrefix),
                           StatsOrEmpty(FirstValueAfter(header, StatisticsPrefix)), FieldsOf(tree))
  {
    NoNewlineInBlob(header, tree);
    ParseJoinedLines(rel, header + tree);
    HeaderDeclaresNothing(header);
    FieldsOfAppend(header, tree);
    TreeHasNoPrefixedLine(header, tree, OwnerPrefix);
    TreeHasNoPrefixedLine(header, tree, StatisticsPrefix);
  }

  lemma NoNewlineInBlob(header: seq<string>, tree: seq<string>)
    requires HeaderShape(header) && TreeShape(tree)
    ensures forall j :: 0 <= j < |header + tree| ==> '\n' !in (header + tree)[j]
  {
    var lines := header + tree;
    forall j | 0 <= j < |lines| ensures '\n' !in lines[j] {
      if j < |header| {
        assert lines[j] == header[j];
      } else {
        assert lines[j] == tree[j - |header|];
      }
    }
  }

  lemma HeaderDeclaresNothing(header: seq<string>)
    requires HeaderShape(header)
    ensures FieldsOf(header) == []
  {
    forall j | 0 <= j < |header| ensures ParseFieldLine(header[j]).None? {
      NotIndentedIgnored(header[j]);
    }
    FieldsOfNone(header);
  }

  lemma TreeHasNoPrefixedLine(header: seq<string>, tree: seq<string>, p: string)
    requires TreeShape(tree) && |p| > 0 && p[0] != ' '
    ensures FirstValueAfter(header + tree, p) == FirstValueAfter(header, p)
  {
    FirstValueAfterAppend(header, tree, p);
    forall j | 0 <= j < |tree| ensures !OccursAt(tree[j], p, 0) {
      if |tree[j]| > 0 {
        NoOccurrenceAtOtherHead(tree[j], p, 0);
      }
    }
  }

  /** The line does not start with `p`, as its first three characters show. */
  predicate Unlike(line: string, p: string)
    requires |p| >= 3
  {
    |line| < |p| || line[0] != p[0] || line[1] != p[1] || line[2] != p[2]
  }

  lemma NoLineStartsWith(lines: seq<string>, p: string)
    requires |p| >= 3 && forall j :: 0 <= j < |lines| ==> Unlike(lines[j], p)
    ensures FirstValueAfter(lines, p) == None
  {
    forall j | 0 <= j < |lines| ensures !OccursAt(lines[j], p, 0) {
      if |lines[j]| >= |p| {
        if lines[j][0] != p[0] {
          Mismatch(lines[j], p, 0, 0);
        } else if lines[j][1] != p[1] {
          Mismatch(lines[j], p, 0, 1);
        } else {
          Mismatch(lines[j], p, 0, 2);
        }
      }
    }
  }

  /** The first line starting with `p` follows lines that do not. */
  lemma FirstValueAfterSkip(before: seq<string>, v: string, after: seq<string>, p: string)
    requires |p| >= 3 && forall j :: 0 <= j < |before| ==> Unlike(before[j], p)
    ensures FirstValueAfter(before + [p + v] + after, p) == Some(v)
  {
    NoLineStartsWith(before, p);
    FirstValueAfterAppend(before, [p + v] + after, p);
    assert (p + v)[..|p|] == p;
    FirstValueAfterAppend([p + v], after, p);
    assert before + [p + v] + after == before + ([p + v] + after);
  }

  // ---------------------------------------------------------------------
  // The shared schema tree

  const SampleFields: seq<(string, string)> :=
    [("col1", "decimal(22,0)"), ("col2", "string"), ("dt", "date"), ("struct_col", "struct")]

  const NestedLine: string := NestedFieldPrefix + "struct_inner_col: " + "string (nullable = true)"

  /** Four top-level fields, one nested field, and the empty piece after the
      blob's final newline. */
  const SchemaTree: seq<string> := RenderFieldLines(SampleFields) + [NestedLine, ""]

  lemma SampleFieldsRead()
    ensures FieldsOf(RenderFieldLines(SampleFields)) == SampleFields
  {
    SampleTypesPlain();
    ReadRenderedFields(SampleFields);
  }

  lemma SampleTypesPlain()
    ensures forall k :: 0 <= k < |SampleFields| ==> ':' !in SampleFields[k].1
  {
  }

  lemma SchemaTreeFields()
    ensures FieldsOf(SchemaTree) == SampleFields
  {
    var rendered := RenderFieldLines(SampleFields);
    SampleFieldsRead();
    assert NestedLine[..|NestedFieldPrefix|] == NestedFieldPrefix;
    NestedFieldLineIgnored(NestedLine);
    NotIndentedIgnored("");
    var rest := [NestedLine, ""];
    FieldsOfNone(rest);
    FieldsOfAppend(rendered, rest);
  }

  lemma SchemaTreeShape()
    ensures TreeShape(SchemaTree) && |SchemaTree| >= 1
  {
    var rendered := RenderFieldLines(SampleFields);
    var rest := [NestedLine, ""];
    forall k | 0 <= k < |SampleFields| ensures rendered[k][0] == ' ' && '\n' !in rendered[k] {
      RenderedFieldLineShape(SampleFields[k].0, SampleFields[k].1);
    }
    forall j | 0 <= j < |SchemaTree| ensures (|SchemaTree[j]| == 0 || SchemaTree[j][0] == ' ') && '\n' !in SchemaTree[j] {
      if j < |rendered| {
        assert SchemaTree[j] == rendered[j];
      } else {
        assert SchemaTree[j] == rest[j - |rendered|];
      }
    }
  }

  /** The first six lines of a relation's blob. */
  function CommonHead(table: string, lastAccess: string): seq<string> {
    [ "Database: default_schema",
      "Table: " + table,
      "Owner: root",
      "Created Time: " + "Wed Feb 04 18:15:00 UTC 1815",
      "Last Access: " + lastAccess,
      "Created By: Spark 3.0.1" ]
  }

  lemma CommonHeadShape(table: string, lastAccess: string)
    requires '\n' !in table && '\n' !in lastAccess
    ensures HeaderShape(CommonHead(table, lastAccess))
  {
  }

  /** Every sample blob names `root` as owner on its third line. */
  lemma CommonHeadOwner(table: string, lastAccess: string, rest: seq<string>)
    ensures FirstValueAfter(CommonHead(table, lastAccess) + rest, OwnerPrefix) == Some("root")
  {
    var head := CommonHead(table, lastAccess);
    assert head[2] == OwnerPrefix + "root";
    assert head + rest == head[..2] + [OwnerPrefix + "root"] + (head[3..] + rest);
    FirstValueAfterSkip(head[..2], "root", head[3..] + rest, OwnerPrefix);
  }

  /** The statistics line of a table's blob follows the common head, the
      type line and the provider line. */
  lemma TableStatisticsLine(table: string, lastAccess: string, kind: string, provider: string,
                        stats: string, tail: seq<string>)
    requires Unlike(kind, StatisticsPrefix) && Unlike(provider, StatisticsPrefix)
    ensures FirstValueAfter(CommonHead(table, lastAccess) + [kind, provider] + [StatisticsPrefix + stats] + tail,
                            StatisticsPrefix) == Some(stats)
  {
    var before := CommonHead(table, lastAccess) + [kind, provider];
    assert forall j :: 0 <= j < 6 ==> before[j][0] != 'S';
    FirstValueAfterSkip(before, stats, tail, StatisticsPrefix);
  }

  const Location: string := "Location: /mnt/vo"

  // ---------------------------------------------------------------------
  // A managed Delta table

  const SerdeLine: string := "Serde Library: " + "org.apache.hadoop.hive.serde2.lazy." + "LazySimpleSerDe"
  const InputFormatLine: string := "InputFormat: " + "org.apache.hadoop.mapred." + "SequenceFileInputFormat"
  const OutputFormatLine: string := "OutputFormat: " + "org.apache.hadoop.hive.ql.io." + "HiveSequenceFileOutputFormat"

  const DeltaTail: seq<string> := [
    Location,
    SerdeLine,
    InputFormatLine,
    OutputFormatLine,
    "Partition Provider: Catalog",
    "Partition Columns: [`dt`]",
    "Schema: root"
  ]

  const DeltaHeader: seq<string> :=
    CommonHead("mytable", "Wed May 20 19:25:00 UTC 1925") + ["Type: MANAGED", "Provider: delta"]
    + [StatisticsPrefix + "123456789 bytes"] + DeltaTail

  const MyTable: Relation := Relation(None, "default_schema", "mytable", Table)

  lemma SerdeLineShape() ensures NotIndented(SerdeLine) && '\n' !in SerdeLine { }
  lemma InputFormatLineShape() ensures NotIndented(InputFormatLine) && '\n' !in InputFormatLine { }
  lemma OutputFormatLineShape() ensures NotIndented(OutputFormatLine) && '\n' !in OutputFormatLine { }

  lemma TableLinesShape(kind: string, provider: string, stats: string)
    requires NotIndented(kind) && '\n' !in kind && NotIndented(provider) && '\n' !in provider
    requires '\n' !in stats
    ensures HeaderShape([kind, provider, StatisticsPrefix + stats])
  {
  }

  lemma FormatLinesShape()
    ensures HeaderShape([Location, SerdeLine, InputFormatLine, OutputFormatLine])
  {
    SerdeLineShape();
    InputFormatLineShape();
    OutputFormatLineShape();
  }

  lemma PartitionLinesShape()
    ensures HeaderShape(["Partition Provider: Catalog", "Partition Columns: [`dt`]", "Schema: root"])
  {
  }

  lemma DeltaHeaderShape() ensures HeaderShape(DeltaHeader) {
    var head := CommonHead("mytable", "Wed May 20 19:25:00 UTC 1925");
    var middle := ["Type: MANAGED", "Provider: delta", StatisticsPrefix + "123456789 bytes"];
    CommonHeadShape("mytable", "Wed May 20 19:25:00 UTC 1925");
    TableLinesShape("Type: MANAGED", "Provider: delta", "123456789 bytes");
    FormatLinesShape();
    PartitionLinesShape();
    var formats := [Location, SerdeLine, InputFormatLine, OutputFormatLine];
    var partitions := ["Partition Provider: Catalog", "Partition Columns: [`dt`]", "Schema: root"];
    assert DeltaTail == formats + partitions;
    HeaderShapeAppend(formats, partitions);
    assert DeltaHeader == head + middle + DeltaTail;
    HeaderShapeAppend(head, middle);
    HeaderShapeAppend(head + middle, DeltaTail);
  }

  /** Four columns numbered 0 to 3 with the nested field skipped, each owned
      by `root` and carrying the table's byte count. */
  lemma DeltaTableColumns()
    ensures ParseColumnsFromInformation(MyTable, Join(DeltaHeader + SchemaTree, "\n")) ==
              FieldColumns(MyTable, Some("root"), [("bytes", 123456789)], SampleFields)
  {
    DeltaHeaderShape();
    SchemaTreeFields();
    SchemaTreeShape();
    var head := CommonHead("mytable", "Wed May 20 19:25:00 UTC 1925");
    CommonHeadOwner("mytable", "Wed May 20 19:25:00 UTC 1925",
                    ["Type: MANAGED", "Provider: delta"] + [StatisticsPrefix + "123456789 bytes"] + DeltaTail);
    assert DeltaHeader == head + (["Type: MANAGED", "Provider: delta"] + [StatisticsPrefix + "123456789 bytes"] + DeltaTail);
    TableStatisticsLine("mytable", "Wed May 20 19:25:00 UTC 1925", "Type: MANAGED", "Provider: delta",
                    "123456789 bytes", DeltaTail);
    SampleStatistics();
    ReadHeaderAndTree(MyTable, DeltaHeader, SchemaTree);
  }

  // ---------------------------------------------------------------------
  // A managed Parquet table

  const ParquetSerdeLine: string := "Serde Library: " + "org.apache.hadoop.hive.ql.io.parquet." + "serde.ParquetHiveSerDe"
  const ParquetInputLine: string := "InputFormat: " + "org.apache.hadoop.hive.ql.io.parquet." + "MapredParquetInputFormat"
  const ParquetOutputLine: string := "OutputFormat: " + "org.apache.hadoop.hive.ql.io.parquet." + "MapredParquetOutputFormat"

  const ParquetTail: seq<string> := [Location, ParquetSerdeLine, ParquetInputLine, ParquetOutputLine, "Schema: root"]

  const ParquetHeader: seq<string> :=
    CommonHead("mytable", "Wed May 20 19:25:00 UTC 1925") + ["Type: MANAGED", "Provider: parquet"]
    + [StatisticsPrefix + "1234567890 bytes, 12345678 rows"] + ParquetTail

  lemma ParquetSerdeLineShape() ensures NotIndented(ParquetSerdeLine) && '\n' !in ParquetSerdeLine { }
  lemma ParquetInputLineShape() ensures NotIndented(ParquetInputLine) && '\n' !in ParquetInputLine { }
  lemma ParquetOutputLineShape() ensures NotIndented(ParquetOutputLine) && '\n' !in ParquetOutputLine { }

  lemma ParquetFormatLinesShape()
    ensures HeaderShape([ParquetSerdeLine, ParquetInputLine, ParquetOutputLine])
  {
    ParquetSerdeLineShape();
    ParquetInputLineShape();
    ParquetOutputLineShape();
  }

  lemma ParquetTailShape()
    ensures HeaderShape(ParquetTail)
  {
    var formats := [ParquetSerdeLine, ParquetInputLine, ParquetOutputLine];
    ParquetFormatLinesShape();
    assert HeaderShape([Location]) && HeaderShape(["Schema: root"]);
    assert ParquetTail == [Location] + formats + ["Schema: root"];
    HeaderShapeAppend([Location], formats);
    HeaderShapeAppend([Location] + formats, ["Schema: root"]);
  }

  lemma ParquetHeadShape()
    ensures HeaderShape(CommonHead("mytable", "Wed May 20 19:25:00 UTC 1925"))
    ensures HeaderShape(["Type: MANAGED", "Provider: parquet", StatisticsPrefix + "1234567890 bytes, 12345678 rows"])
  {
    MyTableHeadShape();
    ParquetStatisticsShape();
    TableLinesShape("Type: MANAGED", "Provider: parquet", "1234567890 bytes, 12345678 rows");
  }

  lemma MyTableHeadShape()
    ensures HeaderShape(CommonHead("mytable", "Wed May 20 19:25:00 UTC 1925"))
  {
    CommonHeadShape("mytable", "Wed May 20 19:25:00 UTC 1925");
  }

  lemma ParquetStatisticsShape()
    ensures '\n' !in "1234567890 bytes, 12345678 rows"
  {
  }

  lemma ParquetHeaderShape() ensures HeaderShape(ParquetHeader) {
    var head := CommonHead("mytable", "Wed May 20 19:25:00 UTC 1925");
    var middle := ["Type: MANAGED", "Provider: parquet", StatisticsPrefix + "1234567890 bytes, 12345678 rows"];
    ParquetHeadShape();
    ParquetTailShape();
    assert ParquetHeader == head + middle + ParquetTail;
    HeaderShapeAppend(head, middle);
    HeaderShapeAppend(head + middle, ParquetTail);
  }

  /** Four columns, each carrying both the byte and the row count. */
  lemma ParquetTableColumns()
    ensures ParseColumnsFromInformation(MyTable, Join(ParquetHeader + SchemaTree, "\n")) ==
              FieldColumns(MyTable, Some("root"), [("bytes", 1234567890), ("rows", 12345678)], SampleFields)
  {
    ParquetHeaderShape();
    SchemaTreeFields();
    SchemaTreeShape();
    var head := CommonHead("mytable", "Wed May 20 19:25:00 UTC 1925");
    var rest := ["Type: MANAGED", "Provider: parquet"] + [StatisticsPrefix + "1234567890 bytes, 12345678 rows"] + ParquetTail;
    CommonHeadOwner("mytable", "Wed May 20 19:25:00 UTC 1925", rest);
    assert ParquetHeader == head + rest;
    TableStatisticsLine("mytable", "Wed May 20 19:25:00 UTC 1925", "Type: MANAGED", "Provider: parquet",
                    "1234567890 bytes, 12345678 rows", ParquetTail);
    SampleStatistics();
    ReadHeaderAndTree(MyTable, ParquetHeader, SchemaTree);
  }

  // ---------------------------------------------------------------------
  // A view

  const ViewQuery: seq<string> := ["    SELECT * FROM source_table", ")", "SELECT col1, col2, dt FROM base"]

  const ViewText: seq<string> :=
    ["Type: VIEW", "View Text: WITH base ("] + ViewQuery + ["View Original Text: WITH base ("] + ViewQuery

  const TablePropertiesStart: string :=
    "Table Properties: [" + "view.query.out.col.1=col1, " + "view.query.out.col.2=col2, "
    + "transient_lastDdlTime=1618324324, "

  const TablePropertiesMiddle: string :=
    "view.query.out.col.3=dt, " + "view.catalogAndNamespace.part.0=" + "spark_catalog, "

  const TablePropertiesEnd: string := TablePropertiesMiddle + "view.catalogAndNamespace.part.1=" + "default]"

  const TablePropertiesLine: string := TablePropertiesStart + TablePropertiesEnd

  const ViewProperties: seq<string> := [
    "View Catalog and Namespace: " + "spark_catalog.default",
    "View Query Output Columns: " + "[col1, col2, dt]",
    TablePropertiesLine
  ]

  const ViewTail: seq<string> :=
    [SerdeLine, InputFormatLine, OutputFormatLine, "Storage Properties: " + "[serialization.format=1]", "Schema: root"]

  const ViewHeader: seq<string> := CommonHead("myview", "UNKNOWN") + ViewText + ViewProperties + ViewTail

  const MyView: Relation := Relation(None, "default_schema", "myview", View)

  lemma ViewQueryShape()
    ensures HeaderShape(ViewQuery)
    ensures FirstValueAfter(ViewQuery, StatisticsPrefix) == None
  {
    ViewQueryLines();
    NoLineStartsWith(ViewQuery, StatisticsPrefix);
  }

  lemma ViewQueryLines()
    ensures HeaderShape(ViewQuery)
    ensures forall j :: 0 <= j < |ViewQuery| ==> Unlike(ViewQuery[j], StatisticsPrefix)
  {
  }

  lemma ViewOpeningShape()
    ensures HeaderShape(["Type: VIEW", "View Text: WITH base ("])
    ensures HeaderShape(["View Original Text: WITH base ("])
    ensures FirstValueAfter(["Type: VIEW", "View Text: WITH base ("], StatisticsPrefix) == None
    ensures FirstValueAfter(["View Original Text: WITH base ("], StatisticsPrefix) == None
  {
    NoLineStartsWith(["Type: VIEW", "View Text: WITH base ("], StatisticsPrefix);
    NoLineStartsWith(["View Original Text: WITH base ("], StatisticsPrefix);
  }

  lemma ViewTextShape()
    ensures HeaderShape(ViewText)
    ensures FirstValueAfter(ViewText, StatisticsPrefix) == None
  {
    var a := ["Type: VIEW", "View Text: WITH base ("];
    var b := ["View Original Text: WITH base ("];
    ViewQueryShape();
    ViewOpeningShape();
    assert ViewText == a + ViewQuery + b + ViewQuery;
    HeaderShapeAppend(a, ViewQuery);
    HeaderShapeAppend(a + ViewQuery, b);
    HeaderShapeAppend(a + ViewQuery + b, ViewQuery);
    FirstValueAfterAppend(a, ViewQuery, StatisticsPrefix);
    FirstValueAfterAppend(a + ViewQuery, b, StatisticsPrefix);
    FirstValueAfterAppend(a + ViewQuery + b, ViewQuery, StatisticsPrefix);
  }

  lemma TablePropertiesStartShape() ensures '\n' !in TablePropertiesStart { }
  lemma TablePropertiesMiddleShape() ensures '\n' !in TablePropertiesMiddle { }
  lemma TablePropertiesEndShape() ensures '\n' !in TablePropertiesEnd {
    TablePropertiesMiddleShape();
  }

  lemma TablePropertiesShape() ensures NotIndented(TablePropertiesLine) && '\n' !in TablePropertiesLine {
    TablePropertiesStartShape();
    TablePropertiesEndShape();
    assert TablePropertiesLine[0] == 'T';
  }

  lemma ViewPropertiesShape()
    ensures HeaderShape(ViewProperties)
    ensures FirstValueAfter(ViewProperties, StatisticsPrefix) == None
  {
    TablePropertiesShape();
    NoLineStartsWith(ViewProperties, StatisticsPrefix);
  }

  lemma ViewTailShape()
    ensures HeaderShape(ViewTail)
    ensures FirstValueAfter(ViewTail, StatisticsPrefix) == None
  {
    SerdeLineShape();
    InputFormatLineShape();
    OutputFormatLineShape();
    NoLineStartsWith(ViewTail, StatisticsPrefix);
  }

  lemma ViewHeadShape()
    ensures HeaderShape(CommonHead("myview", "UNKNOWN"))
    ensures FirstValueAfter(CommonHead("myview", "UNKNOWN"), StatisticsPrefix) == None
  {
    CommonHeadShape("myview", "UNKNOWN");
    NoLineStartsWith(CommonHead("myview", "UNKNOWN"), StatisticsPrefix);
  }

  /** A view reports no statistics anywhere in its blob. */
  lemma ViewHeaderFacts()
    ensures HeaderShape(ViewHeader)
    ensures FirstValueAfter(ViewHeader, StatisticsPrefix) == None
  {
    var head := CommonHead("myview", "UNKNOWN");
    ViewHeadShape();
    ViewTextShape();
    ViewPropertiesShape();
    ViewTailShape();
    HeaderShapeAppend(head, ViewText);
    HeaderShapeAppend(head + ViewText, ViewProperties);
    HeaderShapeAppend(head + ViewText + ViewProperties, ViewTail);
    FirstValueAfterAppend(head, ViewText, StatisticsPrefix);
    FirstValueAfterAppend(head + ViewText, ViewProperties, StatisticsPrefix);
    FirstValueAfterAppend(head + ViewText + ViewProperties, ViewTail, StatisticsPrefix);
  }

  /** Four columns owned by `root` and without statistics; the lines of the
      view's query text produce no columns. */
  lemma ViewColumns()
    ensures ParseColumnsFromInformation(MyView, Join(ViewHeader + SchemaTree, "\n")) ==
              FieldColumns(MyView, Some("root"), [], SampleFields)
  {
    ViewHeaderFacts();
    SchemaTreeFields();
    SchemaTreeShape();
    var head := CommonHead("myview", "UNKNOWN");
    CommonHeadOwner("myview", "UNKNOWN", ViewText + ViewProperties + ViewTail);
    assert ViewHeader == head + (ViewText + ViewProperties + ViewTail);
    ReadHeaderAndTree(MyView, ViewHeader, SchemaTree);
  }
}
