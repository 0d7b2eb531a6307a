/** Table statistics: the `"<n> bytes[, <m> rows]"` string the engine reports,
    decomposed into one entry per metric, and the flattened
    `stats:<metric>:<field>` form the column records are serialized with. */
module TableStatistics {
  import opened Wrappers
  import opened Strings
  import opened OrderedDict
  import opened Columns

  /** One `"<n> <metric>"` piece: the metric is the second space-separated
      word and the value the first read as an integer; later words are
      ignored, and a piece with fewer than two words or a non-integer first
      word is malformed. */
  function ParsePiece(piece: string): Option<(string, int)> {
    var words := Split(piece, " ");
    if |words| < 2 then None
    else
      match ParseInt(words[0])
      case None => None
      case Some(n) => Some((words[1], n))
  }

  /** Every piece parsed, or `None` as soon as one is malformed. */
  function ParsePieces(pieces: seq<string>): (r: Option<seq<(string, int)>>)
    ensures r.Some? ==> |r.value| == |pieces|
    ensures r.Some? ==> forall i :: 0 <= i < |pieces| ==> ParsePiece(pieces[i]) == Some(r.value[i])
    ensures r.None? <==> exists i :: 0 <= i < |pieces| && ParsePiece(pieces[i]).None?
  {
    if |pieces| == 0 then Some([])
    else
      match ParsePiece(pieces[0])
      case None => None
      case Some(p) =>
        match ParsePieces(pieces[1..])
        case None =>
          ghost var i :| 0 <= i < |pieces[1..]| && ParsePiece(pieces[1..][i]).None?;
          assert ParsePiece(pieces[i + 1]).None?;
          None
        case Some(ps) =>
          assert forall i :: 1 <= i < |pieces| ==> ParsePiece(pieces[i]) == Some(ps[i - 1]) by {
            forall i | 1 <= i < |pieces| ensures ParsePiece(pieces[i]) == Some(ps[i - 1]) {
              assert pieces[i] == pieces[1..][i - 1];
            }
          }
          Some([p] + ps)
  }

  /** The statistics of a table from its raw `Statistics` value. An empty
      value means no statistics; pieces are separated by `", "`, and a
      metric reported twice keeps its last value. `None` marks a value that
      is not of the `"<n> <metric>[, <n> <metric>]..."` shape. */
  function ParseStatistics(raw: string): (r: Option<TableStats>)
    ensures raw == "" ==> r == Some([])
    ensures r.Some? ==> DistinctKeys(r.value)
    ensures var pieces := Split(raw, ", ");
            raw != "" ==>
              && (r.None? <==> exists i :: 0 <= i < |pieces| && ParsePiece(pieces[i]).None?)
              && (r.Some? ==> forall i :: 0 <= i < |pieces| ==> PieceRecorded(r.value, pieces, i))
              && (r.Some? ==> forall m :: m in KeySet(r.value) ==> ReportedIn(m, pieces))
  {
    if raw == "" then Some([])
    else
      match ParsePieces(Split(raw, ", "))
      case None =>
        assert exists i :: 0 <= i < |Split(raw, ", ")| && ParsePiece(Split(raw, ", ")[i]).None?;
        None
      case Some(ps) => PiecesDict(Split(raw, ", "), ps); Some(FromPairs(ps))
  }

  /** Piece `i` reports a metric of `stats`, and when no later piece
      reports that metric again, its value is the metric's value. */
  predicate PieceRecorded(stats: TableStats, pieces: seq<string>, i: int)
    requires 0 <= i < |pieces|
  {
    match ParsePiece(pieces[i])
    case None => false
    case Some((m, n)) =>
      && m in KeySet(stats)
      && ((forall j :: i < j < |pieces| ==> !Reports(pieces[j], m)) ==> Get(stats, m) == Some(n))
  }

  predicate Reports(piece: string, m: string) {
    ParsePiece(piece).Some? && ParsePiece(piece).value.0 == m
  }

  predicate ReportedIn(m: string, pieces: seq<string>) {
    exists i :: 0 <= i < |pieces| && Reports(pieces[i], m)
  }

  lemma PiecesDict(pieces: seq<string>, ps: seq<(string, int)>)
    requires ParsePieces(pieces) == Some(ps)
    ensures forall i :: 0 <= i < |pieces| ==> PieceRecorded(FromPairs(ps), pieces, i)
    ensures forall m :: m in KeySet(FromPairs(ps)) ==> ReportedIn(m, pieces)
  {
    forall i | 0 <= i < |pieces| ensures PieceRecorded(FromPairs(ps), pieces, i) {
      PieceRecordedAt(pieces, ps, i);
    }
    KeysReported(pieces, ps);
  }

  lemma KeysReported(pieces: seq<string>, ps: seq<(string, int)>)
    requires ParsePieces(pieces) == Some(ps)
    ensures forall m :: m in KeySet(ps) ==> ReportedIn(m, pieces)
  {
    forall m | m in KeySet(ps) ensures ReportedIn(m, pieces) {
      var i :| 0 <= i < |ps| && ps[i].0 == m;
      assert ParsePiece(pieces[i]) == Some(ps[i]);
    }
  }

  lemma PieceRecordedAt(pieces: seq<string>, ps: seq<(string, int)>, i: nat)
    requires ParsePieces(pieces) == Some(ps)
    requires i < |pieces|
    ensures PieceRecorded(FromPairs(ps), pieces, i)
  {
    var d := FromPairs(ps);
    assert ParsePiece(pieces[i]) == Some(ps[i]);
    assert ps[i].0 in KeySet(d) by {
      assert ps[i].0 in KeySet(ps);
    }
    if forall j :: i < j < |pieces| ==> !Reports(pieces[j], ps[i].0) {
      assert Get(d, ps[i].0) == Some(ps[i].1) by {
        LastReportWins(pieces, ps, i);
      }
    }
  }

  lemma LastReportWins(pieces: seq<string>, ps: seq<(string, int)>, i: nat)
    requires ParsePieces(pieces) == Some(ps)
    requires i < |pieces|
    requires forall j :: i < j < |pieces| ==> !Reports(pieces[j], ps[i].0)
    ensures LastValue(ps, ps[i].0) == Some(ps[i].1)
  {
    forall j | i < j < |ps| ensures ps[j].0 != ps[i].0 {
      assert !Reports(pieces[j], ps[i].0);
    }
    LastValueOfLastEntry(ps, i);
  }

  /** The statistics attached to the columns: none when the table reports
      none, or reports them in a shape that does not parse. */
  function StatsOrEmpty(raw: Option<string>): TableStats {
    match raw
    case None => []
    case Some(s) => ParseStatistics(s).GetOr([])
  }

  // ---------------------------------------------------------------------
  // The engine's rendering, as the inverse of the parser

  function RenderPiece(metric: string, n: int): string {
    IntToString(n) + " " + metric
  }

  function RenderPieces(stats: seq<(string, int)>): (pieces: seq<string>)
    ensures |pieces| == |stats|
    ensures forall i :: 0 <= i < |stats| ==> pieces[i] == RenderPiece(stats[i].0, stats[i].1)
  {
    seq(|stats|, i requires 0 <= i < |stats| => RenderPiece(stats[i].0, stats[i].1))
  }

  /** The engine's `"<n> <metric>, <n> <metric>"` string for `stats`. */
  function RenderStatistics(stats: seq<(string, int)>): string {
    Join(RenderPieces(stats), ", ")
  }

  /** A metric name the rendering can carry unambiguously. */
  ghost predicate PlainMetric(metric: string) {
    ' ' !in metric && ',' !in metric
  }

  lemma IntToStringIsPlain(n: int)
    ensures ' ' !in IntToString(n) && ',' !in IntToString(n)
  {
    var s := IntToString(n);
    var d := NatToDecimal(if n < 0 then -n else n);
    assert AllDigits(d);
    if n < 0 {
      assert s == "-" + d;
      assert forall i :: 1 <= i < |s| ==> s[i] == d[i - 1];
    }
  }

  /** A rendered piece parses back to its metric and value. */
  lemma ParseRenderPiece(metric: string, n: int)
    requires PlainMetric(metric)
    ensures ParsePiece(RenderPiece(metric, n)) == Some((metric, n))
  {
    IntToStringIsPlain(n);
    assert RenderPiece(metric, n) == Join([IntToString(n), metric], " ");
    SplitOfJoin([IntToString(n), metric], " ");
    ParseIntOfIntToString(n);
  }

  lemma RenderedPiecesParse(stats: seq<(string, int)>)
    requires forall i :: 0 <= i < |stats| ==> PlainMetric(stats[i].0)
    ensures ParsePieces(RenderPieces(stats)) == Some(stats)
    ensures forall i :: 0 <= i < |stats| ==> ',' !in RenderPieces(stats)[i]
  {
    var pieces := RenderPieces(stats);
    forall i | 0 <= i < |pieces|
      ensures ',' !in pieces[i] && ParsePiece(pieces[i]) == Some(stats[i])
    {
      IntToStringIsPlain(stats[i].1);
      ParseRenderPiece(stats[i].0, stats[i].1);
    }
    var r := ParsePieces(pieces);
    assert r.Some?;
    assert forall i :: 0 <= i < |stats| ==> r.value[i] == stats[i];
    assert r.value == stats;
  }

  /** Parsing the engine's rendering of non-empty statistics gives those
      statistics back, deduplicated as a dict would be. */
  lemma ParseRenderStatistics(stats: seq<(string, int)>)
    requires |stats| >= 1
    requires forall i :: 0 <= i < |stats| ==> PlainMetric(stats[i].0)
    ensures ParseStatistics(RenderStatistics(stats)) == Some(FromPairs(stats))
  {
    var pieces := RenderPieces(stats);
    RenderedPiecesParse(stats);
    SplitOfJoin(pieces, ", ");
    var raw := RenderStatistics(stats);
    assert raw != "" by {
      assert |Split(raw, ", ")[0]| > 0;
    }
  }

  // ---------------------------------------------------------------------
  // Flattened `stats:<metric>:<field>` entries

  datatype StatField = FieldText(text: string) | FieldInt(n: int) | FieldBool(b: bool)

  const StatFieldNames: seq<string> := ["label", "value", "description", "include"]

  function StatKey(metric: string, field: string): string {
    "stats:" + metric + ":" + field
  }

  /** The four entries of one metric: its label is its name, its description
      is empty and it is always included. */
  function MetricEntries(metric: string, n: int): seq<(string, StatField)> {
    [ (StatKey(metric, "label"), FieldText(metric)),
      (StatKey(metric, "value"), FieldInt(n)),
      (StatKey(metric, "description"), FieldText("")),
      (StatKey(metric, "include"), FieldBool(true)) ]
  }

  function FlatPairs(stats: TableStats): seq<(string, StatField)> {
    if |stats| == 0 then []
    else FlatPairs(stats[..|stats| - 1]) + MetricEntries(stats[|stats| - 1].0, stats[|stats| - 1].1)
  }

  /** The statistics as the `stats:<metric>:<field>` entries of a column dict:
      one key for each of the four fields of each reported metric, and no
      other key. */
  function StatsColumnDict(stats: TableStats): (d: Dict<string, StatField>)
    ensures DistinctKeys(d)
    ensures forall k :: k in KeySet(d) <==> IsStatKeyOf(stats, k)
  {
    FlatPairsKeys(stats);
    FromPairs(FlatPairs(stats))
  }

  /** `k` is `stats:<metric>:<field>` for a reported metric and one of the four fields. */
  ghost predicate IsStatKeyOf(stats: TableStats, k: string) {
    exists i, j :: 0 <= i < |stats| && 0 <= j < |StatFieldNames| && k == StatKey(stats[i].0, StatFieldNames[j])
  }

  lemma {:induction false} FlatPairsKeys(stats: TableStats)
    ensures forall k :: k in KeySet(FlatPairs(stats)) <==> IsStatKeyOf(stats, k)
    decreases |stats|
  {
    if |stats| > 0 {
      var init, last := stats[..|stats| - 1], stats[|stats| - 1];
      FlatPairsKeys(init);
      KeySetConcat(FlatPairs(init), MetricEntries(last.0, last.1));
      forall k ensures IsStatKeyOf(stats, k) <==> IsStatKeyOf(init, k) || k in KeySet(MetricEntries(last.0, last.1)) {
        StatKeyOfSnoc(stats, k);
      }
    }
  }

  lemma StatKeyOfSnoc(stats: TableStats, k: string)
    requires |stats| > 0
    ensures var n := |stats|;
            IsStatKeyOf(stats, k) <==>
              IsStatKeyOf(stats[..n - 1], k) || k in KeySet(MetricEntries(stats[n - 1].0, stats[n - 1].1))
  {
    if IsStatKeyOf(stats, k) {
      StatKeyOfSplits(stats, k);
    }
    StatKeyOfInit(stats, k);
    StatKeyOfLast(stats, k);
  }

  lemma StatKeyOfSplits(stats: TableStats, k: string)
    requires |stats| > 0 && IsStatKeyOf(stats, k)
    ensures var n := |stats|;
            IsStatKeyOf(stats[..n - 1], k) || k in KeySet(MetricEntries(stats[n - 1].0, stats[n - 1].1))
  {
    var n := |stats|;
    var i, j :| 0 <= i < n && 0 <= j < |StatFieldNames| && k == StatKey(stats[i].0, StatFieldNames[j]);
    if i == n - 1 {
      assert MetricEntries(stats[i].0, stats[i].1)[j].0 == k;
    } else {
      assert stats[..n - 1][i] == stats[i];
    }
  }

  lemma StatKeyOfInit(stats: TableStats, k: string)
    requires |stats| > 0
    ensures IsStatKeyOf(stats[..|stats| - 1], k) ==> IsStatKeyOf(stats, k)
  {
    var init := stats[..|stats| - 1];
    if IsStatKeyOf(init, k) {
      var i, j :| 0 <= i < |init| && 0 <= j < |StatFieldNames| && k == StatKey(init[i].0, StatFieldNames[j]);
      assert init[i] == stats[i];
    }
  }

  lemma StatKeyOfLast(stats: TableStats, k: string)
    requires |stats| > 0
    ensures var last := stats[|stats| - 1];
            k in KeySet(MetricEntries(last.0, last.1)) ==> IsStatKeyOf(stats, k)
  {
    var last := stats[|stats| - 1];
    var e := MetricEntries(last.0, last.1);
    if k in KeySet(e) {
      var j :| 0 <= j < 4 && e[j].0 == k;
      assert k == StatKey(stats[|stats| - 1].0, StatFieldNames[j]);
    }
  }

  /** A flattened key names exactly one metric and one field. */
  lemma StatKeyInjective(m1: string, f1: string, m2: string, f2: string)
    requires f1 in StatFieldNames && f2 in StatFieldNames
    requires StatKey(m1, f1) == StatKey(m2, f2)
    ensures m1 == m2 && f1 == f2
  {
    forall f | f in StatFieldNames ensures ':' !in f {
    }
    if |f1| < |f2| {
      ShorterFieldImpossible(m1, f1, m2, f2);
    } else if |f2| < |f1| {
      ShorterFieldImpossible(m2, f2, m1, f1);
    } else {
      var k := StatKey(m1, f1);
      assert m1 == k[6..6 + |m1|];
      assert m2 == k[6..6 + |m2|];
      assert f1 == k[|k| - |f1|..];
      assert f2 == k[|k| - |f2|..];
    }
  }

  lemma ShorterFieldImpossible(m1: string, f1: string, m2: string, f2: string)
    requires ':' !in f2
    requires |f1| < |f2|
    ensures StatKey(m1, f1) != StatKey(m2, f2)
  {
    var k1, k2 := StatKey(m1, f1), StatKey(m2, f2);
    if |k1| == |k2| {
      var p := |k1| - |f1| - 1;
      var j := |f2| - |f1| - 1;
      assert k1[p] == ':';
      assert k2[p] == f2[j];
    }
  }

  /** Each metric's four entries sit under four distinct keys of that metric. */
  lemma MetricEntriesKeys(metric: string, n: int, m: string, f: string)
    requires f in StatFieldNames
    ensures StatKey(m, f) in KeySet(MetricEntries(metric, n)) <==> m == metric
  {
    var e := MetricEntries(metric, n);
    if StatKey(m, f) in KeySet(e) {
      var i :| 0 <= i < |e| && e[i].0 == StatKey(m, f);
      StatKeyInjective(metric, StatFieldNames[i], m, f);
    } else {
      var i :| 0 <= i < 4 && StatFieldNames[i] == f;
      assert e[i].0 == StatKey(metric, f);
    }
  }

  /** The value the flattened entries hold for field `f` of metric `m`. */
  function FieldValue(m: string, n: int, f: string): StatField {
    if f == "label" then FieldText(m)
    else if f == "value" then FieldInt(n)
    else if f == "description" then FieldText("")
    else FieldBool(true)
  }

  lemma {:induction false} FlatPairsLookup(stats: TableStats, m: string, f: string)
    requires f in StatFieldNames
    ensures LastValue(FlatPairs(stats), StatKey(m, f)) ==
              match LastValue(stats, m)
              case None => None
              case Some(n) => Some(FieldValue(m, n, f))
    decreases |stats|
  {
    if |stats| > 0 {
      var init, last := stats[..|stats| - 1], stats[|stats| - 1];
      var e := MetricEntries(last.0, last.1);
      LastValueAppend(FlatPairs(init), e, StatKey(m, f));
      MetricEntriesKeys(last.0, last.1, m, f);
      FlatPairsLookup(init, m, f);
      if m == last.0 {
        MetricEntriesLookup(m, last.1, f);
      }
    }
  }

  /** A metric's own entries hold each of its four fields once. */
  lemma MetricEntriesLookup(metric: string, n: int, f: string)
    requires f in StatFieldNames
    ensures LastValue(MetricEntries(metric, n), StatKey(metric, f)) == Some(FieldValue(metric, n, f))
  {
    var e := MetricEntries(metric, n);
    var i :| 0 <= i < 4 && StatFieldNames[i] == f;
    assert e[i] == (StatKey(metric, f), FieldValue(metric, n, f));
    forall i' | i < i' < 4 ensures e[i'].0 != e[i].0 {
      if e[i'].0 == e[i].0 {
        StatKeyInjective(metric, StatFieldNames[i'], metric, f);
      }
    }
    LastValueOfLastEntry(e, i);
  }

  /** The flattened dict holds, for every metric and each of its four fields,
      the entry the metric's last reported value determines, and nothing for
      a metric that was not reported. */
  lemma StatsColumnDictLookup(stats: TableStats, m: string, f: string)
    requires f in StatFieldNames
    ensures Get(StatsColumnDict(stats), StatKey(m, f)) ==
              match LastValue(stats, m)
              case None => None
              case Some(n) => Some(FieldValue(m, n, f))
  {
    FlatPairsLookup(stats, m, f);
  }

  // ---------------------------------------------------------------------
  // The shapes the engine reports

  lemma RenderTwoMetrics(m1: string, a: int, m2: string, b: int)
    ensures RenderStatistics([(m1, a), (m2, b)]) == RenderPiece(m1, a) + ", " + RenderPiece(m2, b)
  {
    var pieces := RenderPieces([(m1, a), (m2, b)]);
    assert pieces == [RenderPiece(m1, a), RenderPiece(m2, b)];
    assert pieces[1..] == [RenderPiece(m2, b)];
    assert Join(pieces[1..], ", ") == RenderPiece(m2, b);
  }

  /** Two distinct metrics rendered side by side parse back in order. */
  lemma TwoMetricStatistics(m1: string, a: int, m2: string, b: int)
    requires PlainMetric(m1) && PlainMetric(m2) && m1 != m2
    ensures ParseStatistics(RenderPiece(m1, a) + ", " + RenderPiece(m2, b)) == Some([(m1, a), (m2, b)])
  {
    var stats := [(m1, a), (m2, b)];
    assert DistinctKeys(stats) by {
      assert stats[0].0 != stats[1].0;
    }
    assert FromPairs(stats) == stats by {
      FromPairsOfDistinct(stats);
    }
    assert ParseStatistics(RenderStatistics(stats)) == Some(stats) by {
      ParseRenderStatistics(stats);
    }
    RenderTwoMetrics(m1, a, m2, b);
  }

  /** `"<b> bytes, <r> rows"` is the two metrics, in that order. */
  lemma BytesAndRowsStatistics(b: int, r: int)
    ensures ParseStatistics(RenderPiece("bytes", b) + ", " + RenderPiece("rows", r))
              == Some([("bytes", b), ("rows", r)])
  {
    assert PlainMetric("bytes") && PlainMetric("rows");
    TwoMetricStatistics("bytes", b, "rows", r);
  }

  /** `"<b> bytes"` is the single `bytes` metric. */
  lemma BytesOnlyStatistics(b: int)
    ensures ParseStatistics(RenderPiece("bytes", b)) == Some([("bytes", b)])
  {
    var stats := [("bytes", b)];
    assert PlainMetric("bytes");
    ParseRenderStatistics(stats);
    assert RenderPieces(stats) == [RenderPiece("bytes", b)];
    FromPairsOfDistinct(stats);
  }

  /** A count written with a `+` sign is read as Python's `int` reads it. */
  lemma PlusSignedPiece()
    ensures ParsePiece("+5 bytes") == Some(("bytes", 5))
  {
    var words := ["+5", "bytes"];
    assert "+5 bytes" == Join(words, " ");
    SplitOfJoin(words, " ");
    assert ParseInt("5") == Some(5);
    ParseIntSigns("5");
  }

  /** The statistics reported for the sample tables. */
  lemma SampleStatistics()
    ensures ParseStatistics("1109049927 bytes, 14093476 rows") == Some([("bytes", 1109049927), ("rows", 14093476)])
    ensures ParseStatistics("1234567890 bytes, 12345678 rows") == Some([("bytes", 1234567890), ("rows", 12345678)])
    ensures ParseStatistics("123456789 bytes") == Some([("bytes", 123456789)])
  {
    RenderedManagedTable();
    RenderedParquetTable();
    RenderedDeltaTable();
    BytesAndRowsStatistics(1109049927, 14093476);
    BytesAndRowsStatistics(1234567890, 12345678);
    BytesOnlyStatistics(123456789);
  }

  lemma RenderedManagedTable()
    ensures RenderPiece("bytes", 1109049927) + ", " + RenderPiece("rows", 14093476) == "1109049927 bytes, 14093476 rows"
  {
    RenderedPiece("bytes", 1109049927, "1109049927");
    RenderedPiece("rows", 14093476, "14093476");
    TwoPiecesText("1109049927", "14093476", "1109049927 bytes, 14093476 rows");
  }

  lemma RenderedParquetTable()
    ensures RenderPiece("bytes", 1234567890) + ", " + RenderPiece("rows", 12345678) == "1234567890 bytes, 12345678 rows"
  {
    RenderedPiece("bytes", 1234567890, "1234567890");
    RenderedPiece("rows", 12345678, "12345678");
    TwoPiecesText("1234567890", "12345678", "1234567890 bytes, 12345678 rows");
  }

  lemma TwoPiecesText(d1: string, d2: string, text: string)
    requires (d1, d2, text) in {("1109049927", "14093476", "1109049927 bytes, 14093476 rows"),
                                ("1234567890", "12345678", "1234567890 bytes, 12345678 rows")}
    ensures (d1 + " " + "bytes") + ", " + (d2 + " " + "rows") == text
  {
  }

  lemma RenderedDeltaTable()
    ensures RenderPiece("bytes", 123456789) == "123456789 bytes"
  {
    RenderedPiece("bytes", 123456789, "123456789");
  }

  /** The decimal rendering of the sample values. */
  lemma RenderedPiece(metric: string, n: int, digits: string)
    requires (n, digits) in {(1109049927, "1109049927"), (14093476, "14093476"),
                            (1234567890, "1234567890"), (12345678, "12345678"),
                            (123456789, "123456789")}
    ensures RenderPiece(metric, n) == digits + " " + metric
  {
    if n == 1109049927 {
      Decimal1109049927();
    } else if n == 14093476 {
      Decimal14093476();
    } else if n == 1234567890 {
      Decimal1234567890();
    } else if n == 12345678 {
      Decimal12345678();
    } else {
      Decimal123456789();
    }
  }

  lemma Decimal1109049927() ensures IntToString(1109049927) == "1109049927" {
    assert NatToDecimal(11090) == "11090";
  }

  lemma Decimal14093476() ensures IntToString(14093476) == "14093476" {
    assert NatToDecimal(1409) == "1409";
  }

  lemma Decimal1234567890() ensures IntToString(1234567890) == "1234567890" {
    assert NatToDecimal(12345) == "12345";
  }

  lemma Decimal12345678() ensures IntToString(12345678) == "12345678" {
    assert NatToDecimal(1234) == "1234";
  }

  lemma Decimal123456789() ensures IntToString(123456789) == "123456789" {
    assert NatToDecimal(1234) == "1234";
  }

  /** Both metrics flatten to their label, value, empty description and
      inclusion flag. */
  lemma BytesAndRowsEntries(b: int, r: int, m: string, f: string)
    requires m in {"bytes", "rows"} && f in StatFieldNames
    ensures Get(StatsColumnDict([("bytes", b), ("rows", r)]), StatKey(m, f))
              == Some(FieldValue(m, if m == "bytes" then b else r, f))
  {
    var stats := [("bytes", b), ("rows", r)];
    StatsColumnDictLookup(stats, m, f);
    if m == "bytes" {
      LastValueOfLastEntry(stats, 0);
    } else {
      LastValueOfLastEntry(stats, 1);
    }
  }

  /** Keys of different metric fields differ. */
  lemma StatKeysDiffer(m1: string, f1: string, m2: string, f2: string)
    requires f1 in StatFieldNames && f2 in StatFieldNames
    ensures StatKey(m1, f1) == StatKey(m2, f2) ==> m1 == m2 && f1 == f2
  {
    if StatKey(m1, f1) == StatKey(m2, f2) {
      StatKeyInjective(m1, f1, m2, f2);
    }
  }

  /** The whole `stats:` part of a column dict for bytes and rows: the four
      `bytes` entries, then the four `rows` entries. */
  lemma BytesAndRowsColumnDict(b: int, r: int)
    ensures StatsColumnDict([("bytes", b), ("rows", r)]) == MetricEntries("bytes", b) + MetricEntries("rows", r)
  {
    var ps := MetricEntries("bytes", b) + MetricEntries("rows", r);
    assert FlatPairs([("bytes", b), ("rows", r)]) == ps by {
      FlatBytesAndRows(b, r);
    }
    assert DistinctKeys(ps) by {
      BytesAndRowsKeysDistinct(b, r);
    }
    FromPairsOfDistinct(ps);
  }

  lemma FlatBytesAndRows(b: int, r: int)
    ensures FlatPairs([("bytes", b), ("rows", r)]) == MetricEntries("bytes", b) + MetricEntries("rows", r)
  {
    var stats := [("bytes", b), ("rows", r)];
    var first: TableStats := [("bytes", b)];
    assert first[..0] == [];
    assert FlatPairs(first) == MetricEntries("bytes", b);
    assert stats[..1] == first;
  }

  lemma BytesAndRowsKeysDistinct(b: int, r: int)
    ensures DistinctKeys(MetricEntries("bytes", b) + MetricEntries("rows", r))
  {
    var ps := MetricEntries("bytes", b) + MetricEntries("rows", r);
    forall i, j | 0 <= i < j < |ps| ensures ps[i].0 != ps[j].0 {
      var mi, mj := if i < 4 then "bytes" else "rows", if j < 4 then "bytes" else "rows";
      var fi, fj := StatFieldNames[i % 4], StatFieldNames[j % 4];
      assert ps[i].0 == StatKey(mi, fi) && ps[j].0 == StatKey(mj, fj);
      assert mi != mj || fi != fj;
      StatKeysDiffer(mi, fi, mj, fj);
    }
  }

  /** A table reporting only bytes has no `rows` entries. */
  lemma BytesOnlyEntries(b: int, m: string, f: string)
    requires f in StatFieldNames
    ensures Get(StatsColumnDict([("bytes", b)]), StatKey(m, f))
              == if m == "bytes" then Some(FieldValue(m, b, f)) else None
  {
    var stats := [("bytes", b)];
    StatsColumnDictLookup(stats, m, f);
    if m == "bytes" {
      LastValueOfLastEntry(stats, 0);
    } else {
      assert m !in KeySet(stats);
    }
  }

  /** No statistics, no `stats:` entries. */
  lemma NoStatisticsNoEntries(m: string, f: string)
    requires f in StatFieldNames
    ensures Get(StatsColumnDict([]), StatKey(m, f)) == None
  {
    StatsColumnDictLookup([], m, f);
  }
}
