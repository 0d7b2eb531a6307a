/** Which column descriptions still have to be written as comments
    (`get_persist_doc_columns`): the documented columns of a model, less
    those whose description the relation already carries verbatim. */
module PersistDocs {
  import opened Wrappers
  import opened OrderedDict

  /** A column of the relation as it exists, with its current comment. */
  datatype ExistingColumn = ExistingColumn(column: string, dtype: string, comment: Option<string>)

  /** A documented column of the model: its name and description. */
  datatype ColumnDoc = ColumnDoc(name: string, description: string)

  /** The comment of the existing column called `name`; when two columns share
      the name, the later one wins, as in a name-to-comment dict built from
      the list. `None` when no column has the name. */
  function CommentOf(existing: seq<ExistingColumn>, name: string): (r: Option<Option<string>>)
    ensures r.None? <==> forall i :: 0 <= i < |existing| ==> existing[i].column != name
    ensures r.Some? ==> exists i :: 0 <= i < |existing| && existing[i].column == name && existing[i].comment == r.value
                                    && forall j :: i < j < |existing| ==> existing[j].column != name
  {
    if |existing| == 0 then None
    else
      var last := existing[|existing| - 1];
      if last.column == name then Some(last.comment)
      else
        var r := CommentOf(existing[..|existing| - 1], name);
        assert forall i :: 0 <= i < |existing| - 1 ==> existing[..|existing| - 1][i] == existing[i];
        r
  }

  /** The entry's description has yet to be written: no existing column has
      the entry's name, or that column's comment is something else (or
      nothing). */
  predicate NeedsComment(existing: seq<ExistingColumn>, entry: (string, ColumnDoc)) {
    CommentOf(existing, entry.0) != Some(Some(entry.1.description))
  }

  /** The documented columns whose description the relation does not already
      carry, in their original order. */
  function GetPersistDocColumns(existing: seq<ExistingColumn>, columns: Dict<string, ColumnDoc>): (r: Dict<string, ColumnDoc>)
    ensures |r| <= |columns|
    ensures forall e :: e in r <==> e in columns && NeedsComment(existing, e)
    ensures KeySet(r) <= KeySet(columns)
    ensures DistinctKeys(columns) ==> DistinctKeys(r)
  {
    if |columns| == 0 then []
    else
      var rest := GetPersistDocColumns(existing, columns[1..]);
      assert columns == [columns[0]] + columns[1..];
      KeySetTail(columns);
      if !NeedsComment(existing, columns[0]) then rest
      else
        var r := [columns[0]] + rest;
        KeySetTail(r);
        assert DistinctKeys(columns) ==> DistinctKeys(r) by {
          if DistinctKeys(columns) {
            forall i, j | 0 <= i < j < |r| ensures r[i].0 != r[j].0 {
              if i == 0 {
                assert rest[j - 1] == r[j];
              }
            }
          }
        }
        r
  }

  /** Filtering again changes nothing: every entry kept still needs its comment. */
  lemma {:induction false} GetPersistDocColumnsIdempotent(existing: seq<ExistingColumn>, columns: Dict<string, ColumnDoc>)
    ensures GetPersistDocColumns(existing, GetPersistDocColumns(existing, columns)) == GetPersistDocColumns(existing, columns)
    decreases |columns|
  {
    if |columns| > 0 {
      var rest := GetPersistDocColumns(existing, columns[1..]);
      GetPersistDocColumnsIdempotent(existing, columns[1..]);
      if NeedsComment(existing, columns[0]) {
        var r := [columns[0]] + rest;
        assert r[1..] == rest;
      }
    }
  }

  /** The relation after every description has been written as its
      column's comment. */
  function Persisted(columns: Dict<string, ColumnDoc>): (existing: seq<ExistingColumn>)
    ensures |existing| == |columns|
    ensures forall i :: 0 <= i < |columns| ==> existing[i].column == columns[i].0 && existing[i].comment == Some(columns[i].1.description)
  {
    seq(|columns|, i requires 0 <= i < |columns| => ExistingColumn(columns[i].0, "string", Some(columns[i].1.description)))
  }

  /** Nothing is kept when no entry needs its comment. */
  lemma {:induction false} NothingNeeded(existing: seq<ExistingColumn>, columns: Dict<string, ColumnDoc>)
    requires forall k :: 0 <= k < |columns| ==> !NeedsComment(existing, columns[k])
    ensures GetPersistDocColumns(existing, columns) == []
    decreases |columns|
  {
    if |columns| > 0 {
      NothingNeeded(existing, columns[1..]);
    }
  }

  /** Once every description is the comment of its column, nothing is left
      to persist. */
  lemma PersistedNeedsNothing(columns: Dict<string, ColumnDoc>)
    requires DistinctKeys(columns)
    ensures GetPersistDocColumns(Persisted(columns), columns) == []
  {
    var existing := Persisted(columns);
    forall k | 0 <= k < |columns| ensures !NeedsComment(existing, columns[k]) {
      var e := columns[k];
      assert existing[k].column == e.0;
      var c := CommentOf(existing, e.0);
      var i :| 0 <= i < |existing| && existing[i].column == e.0 && existing[i].comment == c.value
               && forall j :: i < j < |existing| ==> existing[j].column != e.0;
      assert i == k by {
        assert columns[i].0 == columns[k].0;
      }
    }
    NothingNeeded(existing, columns);
  }

  // ---------------------------------------------------------------------
  // Examples

  function Existing(name: string, comment: string): ExistingColumn {
    ExistingColumn(name, "string", Some(comment))
  }

  function Doc(name: string, description: string): (string, ColumnDoc) {
    (name, ColumnDoc(name, description))
  }

  lemma NothingDocumented()
    ensures GetPersistDocColumns([], []) == []
  {
  }

  lemma NoMatch()
    ensures GetPersistDocColumns([Existing("col1", "comment1")], [Doc("col2", "comment2")])
         == [Doc("col2", "comment2")]
  {
  }

  lemma FullMatch()
    ensures GetPersistDocColumns([Existing("col1", "comment1")], [Doc("col1", "comment1")]) == []
  {
  }

  lemma PartialMatch()
    ensures GetPersistDocColumns([Existing("col1", "comment1")], [Doc("col1", "comment2")])
         == [Doc("col1", "comment2")]
  {
  }

  lemma Mixed()
    ensures GetPersistDocColumns([Existing("col1", "comment1"), Existing("col2", "comment2")],
                                 [Doc("col1", "comment2"), Doc("col2", "comment2")])
         == [Doc("col1", "comment2")]
  {
  }
}
