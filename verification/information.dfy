/** Reading columns, owner and statistics out of the single free-text
    "information" blob a relation listing returns
    (`parse_columns_from_information`).

    The blob is read line by line: a line starting ` |-- ` and carrying
    `<name>: <type> (nullable = <flag>` is a top-level column, the first
    line starting `Owner: ` names the owner and the first line starting
    `Statistics: ` carries the statistics. Nested ` |    |-- ` lines and all
    other lines contribute nothing. */
module InformationBlob {
  import opened Wrappers
  import opened Strings
  import opened OrderedDict
  import opened Columns
  import opened TableStatistics

  const FieldPrefix: string := " |-- "
  const NestedFieldPrefix: string := " |    |-- "
  const NameSeparator: string := ": "
  const NullableMarker: string := " (nullable = "
  const OwnerPrefix: string := "Owner: "
  const StatisticsPrefix: string := "Statistics: "

  // ---------------------------------------------------------------------
  // One field line

  /** A character `\w` matches (ASCII letters, digits and underscore). */
  predicate IsWordChar(c: char) {
    ('a' <= c <= 'z') || ('A' <= c <= 'Z') || ('0' <= c <= '9') || c == '_'
  }

  /** The text after the nullability marker allows the word boundary that
      ends a field match: it holds a word character somewhere. */
  predicate HasWordChar(s: string) {
    exists i | 0 <= i < |s| :: IsWordChar(s[i])
  }

  /** A nullability marker at `b` that can end a field match. */
  ghost predicate MarkerAt(rest: string, b: nat) {
    OccursAt(rest, NullableMarker, b) && HasWordChar(rest[b + |NullableMarker|..])
  }

  /** `<name>: <type> (nullable = <flag>` with the name ending at `a` and
      the type ending at `b`: one way the field pattern can match `rest`. */
  ghost predicate FieldSplit(rest: string, a: nat, b: nat) {
    OccursAt(rest, NameSeparator, a) && a + |NameSeparator| <= b && MarkerAt(rest, b)
  }

  /** The last usable nullability marker starting below `k`. */
  function LastMarkerBelow(rest: string, k: nat): (r: Option<nat>)
    ensures r.Some? ==> r.value < k && MarkerAt(rest, r.value)
    ensures forall j: nat :: j < k && (r.None? || r.value < j) ==> !MarkerAt(rest, j)
    decreases k
  {
    if k == 0 then None
    else
      MatchesAtIsOccursAt(rest, NullableMarker, k - 1);
      if MatchesAt(rest, NullableMarker, k - 1) && HasWordChar(rest[k - 1 + |NullableMarker|..]) then Some(k - 1)
      else LastMarkerBelow(rest, k - 1)
  }

  lemma OccursInPrefix(s: string, pat: string, a: nat, b: nat)
    requires b <= |s|
    ensures OccursAt(s[..b], pat, a) <==> OccursAt(s, pat, a) && a + |pat| <= b
  {
    if a + |pat| <= b {
      assert s[..b][a..a + |pat|] == s[a..a + |pat|];
    }
  }

  /** Where the greedy field pattern `(.*): (.*) \(nullable = (.*)\b` splits
      `rest`: the name runs to the last separator that still leaves a usable
      marker after it, and the type to the last usable marker. */
  function FieldBounds(rest: string): (r: Option<(nat, nat)>)
    ensures r.Some? ==> FieldSplit(rest, r.value.0, r.value.1)
    ensures r.Some? ==> forall a: nat, b: nat :: FieldSplit(rest, a, b) ==>
                          a < r.value.0 || (a == r.value.0 && b <= r.value.1)
    ensures r.None? ==> forall a: nat, b: nat :: !FieldSplit(rest, a, b)
  {
    match LastMarkerBelow(rest, |rest| + 1)
    case None =>
      assert forall a: nat, b: nat :: FieldSplit(rest, a, b) ==> b < |rest| + 1;
      None
    case Some(b) =>
      assert b <= |rest|;
      match LastIndexOf(rest[..b], NameSeparator)
      case None =>
        forall a: nat, b': nat | FieldSplit(rest, a, b') ensures false {
          assert b' <= b;
          OccursInPrefix(rest, NameSeparator, a, b);
        }
        None
      case Some(a) =>
        OccursInPrefix(rest, NameSeparator, a, b);
        forall a': nat, b': nat | FieldSplit(rest, a', b')
          ensures a' < a || (a' == a && b' <= b)
        {
          assert b' <= b;
          OccursInPrefix(rest, NameSeparator, a', b);
        }
        Some((a, b))
  }

  /** The `(name, type)` a line declares, if it is a top-level field line. */
  function ParseFieldLine(line: string): (r: Option<(string, string)>)
    ensures r.Some? ==> OccursAt(line, FieldPrefix, 0)
  {
    if |line| >= |FieldPrefix| && line[..|FieldPrefix|] == FieldPrefix then
      var rest := line[|FieldPrefix|..];
      match FieldBounds(rest)
      case None => None
      case Some((a, b)) => Some((rest[..a], rest[a + |NameSeparator|..b]))
    else None
  }

  /** A line declares a field exactly when it starts with the field prefix
      and the rest matches `<name>: <type> (nullable = <flag>`; of all the
      ways to match, the longest name and then the longest type are read. */
  lemma ParseFieldLineMatches(line: string)
    ensures ParseFieldLine(line).None? <==>
              !OccursAt(line, FieldPrefix, 0) ||
              forall a: nat, b: nat :: !FieldSplit(line[|FieldPrefix|..], a, b)
    ensures ParseFieldLine(line).Some? ==>
              var rest := line[|FieldPrefix|..];
              exists a: nat, b: nat ::
                && FieldSplit(rest, a, b)
                && ParseFieldLine(line).value == (rest[..a], rest[a + |NameSeparator|..b])
                && forall a': nat, b': nat :: FieldSplit(rest, a', b') ==> a' < a || (a' == a && b' <= b)
  {
    if OccursAt(line, FieldPrefix, 0) {
      var rest := line[|FieldPrefix|..];
      match FieldBounds(rest)
      case None =>
      case Some((a, b)) =>
        assert FieldSplit(rest, a, b);
    }
  }

  /** The line the engine writes for a top-level field. */
  function RenderFieldLine(name: string, dtype: string, nullable: string): string {
    FieldPrefix + name + NameSeparator + dtype + NullableMarker + nullable + ")"
  }

  lemma OccursAtChars(s: string, pat: string, i: nat, k: nat)
    requires OccursAt(s, pat, i) && k < |pat|
    ensures s[i + k] == pat[k]
  {
    assert s[i..i + |pat|][k] == s[i + k];
  }

  /** Occurrences in `p + t` past `p` are occurrences in `t`. */
  lemma OccursAtShift(p: string, t: string, pat: string, j: nat)
    ensures OccursAt(p + t, pat, |p| + j) <==> OccursAt(t, pat, j)
  {
    if j + |pat| <= |t| {
      assert (p + t)[|p| + j..|p| + j + |pat|] == t[j..j + |pat|];
    }
  }

  lemma Mismatch(s: string, pat: string, i: nat, k: nat)
    requires k < |pat| && i + k < |s| && s[i + k] != pat[k]
    ensures !OccursAt(s, pat, i)
  {
    if OccursAt(s, pat, i) {
      OccursAtChars(s, pat, i, k);
    }
  }

  /** The marker followed by a word flag and `)` is usable, and holds no
      further marker. */
  lemma MarkerTail(nullable: string)
    requires |nullable| > 0 && forall i :: 0 <= i < |nullable| ==> IsWordChar(nullable[i])
    ensures MarkerAt(NullableMarker + nullable + ")", 0)
    ensures forall j: nat :: 0 < j ==> !OccursAt(NullableMarker + nullable + ")", NullableMarker, j)
  {
    var tail := NullableMarker + nullable + ")";
    var m := |NullableMarker|;
    assert tail[..m] == NullableMarker;
    assert tail[m..] == nullable + ")";
    assert IsWordChar(tail[m..][0]);
    forall j: nat | 0 < j ensures !OccursAt(tail, NullableMarker, j) {
      if j + m <= |tail| {
        if j == 10 {
          assert tail[11] == '=';
          Mismatch(tail, NullableMarker, j, 1);
        } else if j == 12 {
          assert tail[13] == nullable[0];
          Mismatch(tail, NullableMarker, j, 1);
        } else {
          if j < m {
            assert tail[j] == NullableMarker[j];
          } else {
            assert tail[j] == nullable[j - m];
          }
          Mismatch(tail, NullableMarker, j, 0);
        }
      }
    }
  }

  /** `: <type>` holds no further separator when the type has no `:`. */
  lemma SeparatorTail(dtype: string)
    requires ':' !in dtype
    ensures OccursAt(NameSeparator + dtype, NameSeparator, 0)
    ensures forall j: nat :: 0 < j ==> !OccursAt(NameSeparator + dtype, NameSeparator, j)
  {
    var t := NameSeparator + dtype;
    assert t[..2] == NameSeparator;
    forall j: nat | 0 < j ensures !OccursAt(t, NameSeparator, j) {
      if j + 2 <= |t| {
        if j == 1 {
          assert t[1] == ' ';
        } else {
          assert t[j] == dtype[j - 2];
        }
        Mismatch(t, NameSeparator, j, 0);
      }
    }
  }

  /** A rendered field splits at the end of its name and of its type. */
  lemma RenderedFieldSplit(name: string, dtype: string, nullable: string)
    requires ':' !in dtype
    requires |nullable| > 0 && forall i :: 0 <= i < |nullable| ==> IsWordChar(nullable[i])
    ensures var front := name + NameSeparator + dtype;
            FieldSplit(front + (NullableMarker + nullable + ")"), |name|, |front|)
  {
    var front := name + NameSeparator + dtype;
    var tail := NullableMarker + nullable + ")";
    var rest := front + tail;
    MarkerTail(nullable);
    SeparatorTail(dtype);
    OccursAtShift(front, tail, NullableMarker, 0);
    assert rest[|front| + |NullableMarker|..] == tail[|NullableMarker|..];
    assert name + NameSeparator + dtype == name + (NameSeparator + dtype);
    OccursAtShift(name, NameSeparator + dtype, NameSeparator, 0);
    OccursInPrefix(rest, NameSeparator, |name|, |front|);
    assert rest[..|front|] == front;
  }

  /** No nullability marker starts after the type of a rendered field. */
  lemma RenderedNoLaterMarker(front: string, nullable: string)
    requires |nullable| > 0 && forall i :: 0 <= i < |nullable| ==> IsWordChar(nullable[i])
    ensures forall b: nat :: |front| < b ==> !OccursAt(front + (NullableMarker + nullable + ")"), NullableMarker, b)
  {
    var tail := NullableMarker + nullable + ")";
    MarkerTail(nullable);
    forall b: nat | |front| < b ensures !OccursAt(front + tail, NullableMarker, b) {
      OccursAtShift(front, tail, NullableMarker, b - |front|);
    }
  }

  /** No name separator lies wholly after the name of a rendered field and
      before its marker. */
  lemma RenderedNoLaterSeparator(name: string, dtype: string, tail: string)
    requires ':' !in dtype
    ensures var front := name + NameSeparator + dtype;
            forall a: nat :: |name| < a && a + |NameSeparator| <= |front| ==> !OccursAt(front + tail, NameSeparator, a)
  {
    var front := name + NameSeparator + dtype;
    var rest := front + tail;
    SeparatorTail(dtype);
    assert front == name + (NameSeparator + dtype);
    forall a: nat | |name| < a && a + |NameSeparator| <= |front| ensures !OccursAt(rest, NameSeparator, a) {
      OccursInPrefix(rest, NameSeparator, a, |front|);
      assert rest[..|front|] == front;
      OccursAtShift(name, NameSeparator + dtype, NameSeparator, a - |name|);
    }
  }

  /** The split of a rendered field: the name ends at the last separator
      and the type at the only usable marker. */
  lemma RenderedFieldBounds(name: string, dtype: string, nullable: string)
    requires ':' !in dtype
    requires |nullable| > 0 && forall i :: 0 <= i < |nullable| ==> IsWordChar(nullable[i])
    ensures var front := name + NameSeparator + dtype;
            FieldBounds(front + (NullableMarker + nullable + ")")) == Some((|name|, |front|))
  {
    var front := name + NameSeparator + dtype;
    var tail := NullableMarker + nullable + ")";
    var rest := front + tail;
    RenderedFieldSplit(name, dtype, nullable);
    RenderedNoLaterMarker(front, nullable);
    RenderedNoLaterSeparator(name, dtype, tail);
    var (a, b) := FieldBounds(rest).value;
    assert b <= |front|;
    assert a == |name|;
  }

  /** A field line reads back as the name and type it was written from,
      provided the type has no `:` and the nullability flag is a word. */
  lemma ParseRenderFieldLine(name: string, dtype: string, nullable: string)
    requires ':' !in dtype
    requires |nullable| > 0 && forall i :: 0 <= i < |nullable| ==> IsWordChar(nullable[i])
    ensures ParseFieldLine(RenderFieldLine(name, dtype, nullable)) == Some((name, dtype))
  {
    var front := name + NameSeparator + dtype;
    var rest := front + (NullableMarker + nullable + ")");
    var line := RenderFieldLine(name, dtype, nullable);
    assert line == FieldPrefix + rest;
    assert line[..|FieldPrefix|] == FieldPrefix;
    assert line[|FieldPrefix|..] == rest;
    RenderedFieldBounds(name, dtype, nullable);
    assert rest[..|name|] == name;
    assert rest[|name| + |NameSeparator|..|front|] == dtype;
  }

  /** Lines of a struct's nested fields never produce a column. */
  lemma NestedFieldLineIgnored(line: string)
    requires OccursAt(line, NestedFieldPrefix, 0)
    ensures ParseFieldLine(line) == None
  {
    OccursAtChars(line, NestedFieldPrefix, 0, 2);
  }

  /** A line that does not start with ` |` is not a field line. */
  predicate NotIndented(line: string) {
    |line| < 2 || line[0] != ' ' || line[1] != '|'
  }

  lemma NotIndentedIgnored(line: string)
    requires NotIndented(line)
    ensures ParseFieldLine(line) == None
  {
    if |line| >= |FieldPrefix| {
      assert line[..|FieldPrefix|][0] == line[0];
      assert line[..|FieldPrefix|][1] == line[1];
    }
  }

  // ---------------------------------------------------------------------
  // The whole blob

  function LineFields(line: string): seq<(string, string)> {
    match ParseFieldLine(line)
    case None => []
    case Some(f) => [f]
  }

  /** The `(name, type)` of every top-level field line, in order. */
  function FieldsOf(lines: seq<string>): (fields: seq<(string, string)>)
    ensures |fields| <= |lines|
  {
    if |lines| == 0 then []
    else FieldsOf(lines[..|lines| - 1]) + LineFields(lines[|lines| - 1])
  }

  /** Some line of `lines` declares field `f`. */
  ghost predicate Declares(lines: seq<string>, f: (string, string)) {
    exists j :: 0 <= j < |lines| && ParseFieldLine(lines[j]) == Some(f)
  }

  lemma DeclaresSnoc(lines: seq<string>, f: (string, string))
    requires |lines| > 0
    ensures Declares(lines, f) <==>
              Declares(lines[..|lines| - 1], f) || ParseFieldLine(lines[|lines| - 1]) == Some(f)
  {
    var init := lines[..|lines| - 1];
    if Declares(init, f) {
      var j :| 0 <= j < |init| && ParseFieldLine(init[j]) == Some(f);
      assert lines[j] == init[j];
    }
    if Declares(lines, f) {
      var j :| 0 <= j < |lines| && ParseFieldLine(lines[j]) == Some(f);
      if j < |init| {
        assert init[j] == lines[j];
      }
    }
  }

  /** Exactly the declarations of the field lines are read. */
  lemma {:induction false} FieldsOfMembers(lines: seq<string>, f: (string, string))
    ensures f in FieldsOf(lines) <==> Declares(lines, f)
    decreases |lines|
  {
    if |lines| > 0 {
      var init := lines[..|lines| - 1];
      FieldsOfMembers(init, f);
      DeclaresSnoc(lines, f);
      assert f in LineFields(lines[|lines| - 1]) <==> ParseFieldLine(lines[|lines| - 1]) == Some(f);
    }
  }

  /** Field lines are read independently: the fields of two runs of lines
      are the fields of the first followed by those of the second. */
  lemma {:induction false} FieldsOfAppend(a: seq<string>, b: seq<string>)
    ensures FieldsOf(a + b) == FieldsOf(a) + FieldsOf(b)
    decreases |b|
  {
    if |b| == 0 {
      assert a + b == a;
    } else {
      var b' := b[..|b| - 1];
      assert (a + b)[..|a + b| - 1] == a + b';
      FieldsOfAppend(a, b');
    }
  }

  lemma {:induction false} FieldsOfNone(lines: seq<string>)
    requires forall j :: 0 <= j < |lines| ==> ParseFieldLine(lines[j]).None?
    ensures FieldsOf(lines) == []
    decreases |lines|
  {
    if |lines| > 0 {
      FieldsOfNone(lines[..|lines| - 1]);
    }
  }

  /** The schema tree the engine writes for top-level fields, all nullable. */
  function RenderFieldLines(fields: seq<(string, string)>): (lines: seq<string>)
    ensures |lines| == |fields|
    ensures forall k :: 0 <= k < |fields| ==> lines[k] == RenderFieldLine(fields[k].0, fields[k].1, "true")
  {
    seq(|fields|, k requires 0 <= k < |fields| => RenderFieldLine(fields[k].0, fields[k].1, "true"))
  }

  /** A rendered schema tree reads back as the fields it was written from,
      in order, provided no type holds a `:`. */
  lemma {:induction false} ReadRenderedFields(fields: seq<(string, string)>)
    requires forall k :: 0 <= k < |fields| ==> ':' !in fields[k].1
    ensures FieldsOf(RenderFieldLines(fields)) == fields
    decreases |fields|
  {
    if |fields| > 0 {
      var init := fields[..|fields| - 1];
      var last := fields[|fields| - 1];
      var lines := RenderFieldLines(fields);
      var prev := lines[..|lines| - 1];
      assert prev == RenderFieldLines(init);
      assert FieldsOf(prev) == init by {
        ReadRenderedFields(init);
      }
      assert LineFields(lines[|lines| - 1]) == [last] by {
        ReadNullableFieldLine(last.0, last.1);
      }
      FieldsOfSnoc(lines, fields);
    }
  }

  /** One more line adds that line's field after the earlier ones. */
  lemma FieldsOfSnoc(lines: seq<string>, fields: seq<(string, string)>)
    requires |lines| > 0 && |fields| > 0
    requires FieldsOf(lines[..|lines| - 1]) == fields[..|fields| - 1]
    requires LineFields(lines[|lines| - 1]) == [fields[|fields| - 1]]
    ensures FieldsOf(lines) == fields
  {
    assert FieldsOf(lines) == fields[..|fields| - 1] + [fields[|fields| - 1]];
    InitAndLast(fields);
  }

  lemma InitAndLast<T>(s: seq<T>)
    requires |s| > 0
    ensures s[..|s| - 1] + [s[|s| - 1]] == s
  {
  }

  lemma ReadNullableFieldLine(name: string, dtype: string)
    requires ':' !in dtype
    ensures LineFields(RenderFieldLine(name, dtype, "true")) == [(name, dtype)]
  {
    assert forall i :: 0 <= i < |"true"| ==> IsWordChar("true"[i]);
    ParseRenderFieldLine(name, dtype, "true");
  }

  /** Field lines are indented, and hold a newline only if the name or type
      does. */
  lemma RenderedFieldLineShape(name: string, dtype: string)
    ensures RenderFieldLine(name, dtype, "true")[0] == ' '
    ensures '\n' !in name && '\n' !in dtype ==> '\n' !in RenderFieldLine(name, dtype, "true")
  {
    var line := RenderFieldLine(name, dtype, "true");
    assert line == FieldPrefix + (name + NameSeparator + dtype + NullableMarker + "true" + ")");
  }

  /** The index of the first line starting with `prefix`. */
  function FirstLineWith(lines: seq<string>, prefix: string, i: nat): (r: Option<nat>)
    requires i <= |lines|
    ensures r.Some? ==> i <= r.value < |lines| && OccursAt(lines[r.value], prefix, 0)
    ensures forall j :: i <= j < |lines| && (r.None? || j < r.value) ==> !OccursAt(lines[j], prefix, 0)
    decreases |lines| - i
  {
    if i == |lines| then None
    else
      MatchesAtIsOccursAt(lines[i], prefix, 0);
      if MatchesAt(lines[i], prefix, 0) then Some(i) else FirstLineWith(lines, prefix, i + 1)
  }

  /** The rest of the first line starting with `prefix`: the first match of
      `^<prefix>(.*)$` in the blob. */
  function FirstValueAfter(lines: seq<string>, prefix: string): (r: Option<string>)
    ensures r.None? <==> forall j :: 0 <= j < |lines| ==> !OccursAt(lines[j], prefix, 0)
    ensures r.Some? ==> exists j :: 0 <= j < |lines| && OccursAt(lines[j], prefix, 0)
                                    && r.value == lines[j][|prefix|..]
                                    && forall j' :: 0 <= j' < j ==> !OccursAt(lines[j'], prefix, 0)
  {
    match FirstLineWith(lines, prefix, 0)
    case None => None
    case Some(j) => Some(lines[j][|prefix|..])
  }

  /** The owner or statistics line found in a first run of lines wins over
      any in later lines. */
  lemma FirstLineWithAppend(a: seq<string>, b: seq<string>, prefix: string)
    ensures FirstLineWith(a + b, prefix, 0) ==
              match FirstLineWith(a, prefix, 0)
              case Some(j) => Some(j)
              case None =>
                match FirstLineWith(b, prefix, 0)
                case Some(j) => Some(|a| + j)
                case None => None
  {
    var ab := a + b;
    var r := FirstLineWith(ab, prefix, 0);
    match FirstLineWith(a, prefix, 0)
    case Some(j) =>
      assert ab[j] == a[j];
      forall j' | 0 <= j' < j ensures !OccursAt(ab[j'], prefix, 0) {
        assert ab[j'] == a[j'];
      }
    case None =>
      forall j' | 0 <= j' < |a| ensures !OccursAt(ab[j'], prefix, 0) {
        assert ab[j'] == a[j'];
      }
      match FirstLineWith(b, prefix, 0)
      case Some(j) =>
        assert ab[|a| + j] == b[j];
        forall j' | |a| <= j' < |a| + j ensures !OccursAt(ab[j'], prefix, 0) {
          assert ab[j'] == b[j' - |a|];
        }
      case None =>
        forall j' | |a| <= j' < |ab| ensures !OccursAt(ab[j'], prefix, 0) {
          assert ab[j'] == b[j' - |a|];
        }
  }

  lemma FirstValueAfterAppend(a: seq<string>, b: seq<string>, prefix: string)
    ensures FirstValueAfter(a + b, prefix) ==
              if FirstValueAfter(a, prefix).Some? then FirstValueAfter(a, prefix)
              else FirstValueAfter(b, prefix)
  {
    FirstLineWithAppend(a, b, prefix);
    var ab := a + b;
    match FirstLineWith(a, prefix, 0)
    case Some(j) =>
      assert ab[j] == a[j];
    case None =>
      match FirstLineWith(b, prefix, 0)
      case Some(j) =>
        assert ab[|a| + j] == b[j];
      case None =>
  }

  /** One column per top-level field line, numbered among those lines only,
      all carrying the owner and statistics the blob reports. */
  function ColumnsOfLines(rel: Relation, lines: seq<string>): (cols: seq<ColumnRecord>)
    ensures var fields := FieldsOf(lines);
            && |cols| == |fields|
            && forall k :: 0 <= k < |cols| ==>
                 && (cols[k].column, cols[k].dtype) == (fields[k].0, Some(Text(fields[k].1)))
                 && cols[k].columnIndex == k
    ensures forall k :: 0 <= k < |cols| ==>
              && cols[k].tableOwner == FirstValueAfter(lines, OwnerPrefix)
              && cols[k].tableStats == StatsOrEmpty(FirstValueAfter(lines, StatisticsPrefix))
    ensures forall k :: 0 <= k < |cols| ==>
              && cols[k].tableDatabase == rel.database
              && cols[k].tableSchema == rel.schema
              && cols[k].tableName == rel.name
              && cols[k].tableType == rel.kind
              && cols[k].numericPrecision.None?
              && cols[k].numericScale.None?
              && cols[k].charSize.None?
  {
    var owner := FirstValueAfter(lines, OwnerPrefix);
    var stats := StatsOrEmpty(FirstValueAfter(lines, StatisticsPrefix));
    var fields := FieldsOf(lines);
    seq(|fields|, k requires 0 <= k < |fields| =>
                    MakeColumn(rel, owner, stats, fields[k].0, k, Some(Text(fields[k].1))))
  }

  /** `parse_columns_from_information`: the blob read line by line, one
      column per field line, numbered from zero, all sharing the blob's
      owner and statistics and the relation's identity. */
  function ParseColumnsFromInformation(rel: Relation, information: string): (cols: seq<ColumnRecord>)
    ensures var lines := Split(information, "\n");
            && Join(lines, "\n") == information
            && (forall j :: 0 <= j < |lines| ==> !Contains(lines[j], "\n"))
            && |cols| == |FieldsOf(lines)|
            && forall k :: 0 <= k < |cols| ==>
                 && (cols[k].column, cols[k].dtype) == (FieldsOf(lines)[k].0, Some(Text(FieldsOf(lines)[k].1)))
                 && cols[k].columnIndex == k
                 && cols[k].tableOwner == FirstValueAfter(lines, OwnerPrefix)
                 && cols[k].tableStats == StatsOrEmpty(FirstValueAfter(lines, StatisticsPrefix))
                 && (cols[k].tableDatabase, cols[k].tableSchema, cols[k].tableName, cols[k].tableType)
                    == (rel.database, rel.schema, rel.name, rel.kind)
  {
    ColumnsOfLines(rel, Split(information, "\n"))
  }

  /** A blob assembled from lines without newlines is read back line by line. */
  lemma ParseJoinedLines(rel: Relation, lines: seq<string>)
    requires |lines| >= 1 && forall j :: 0 <= j < |lines| ==> '\n' !in lines[j]
    ensures ParseColumnsFromInformation(rel, Join(lines, "\n")) == ColumnsOfLines(rel, lines)
  {
    SplitOfJoin(lines, "\n");
  }
}
