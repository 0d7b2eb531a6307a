/** Recognising the engine's "schema does not exist" errors
    (`check_not_found_error`), whose callers treat them as an empty result
    rather than a failure. */
module NotFound {
  import opened Wrappers
  import opened Strings

  /** The error class newer engines report for a missing schema. */
  const SchemaNotFoundCode: string := "[SCHEMA_NOT_FOUND]"
  const DatabaseWord: string := "Database"
  const NotFoundWords: string := "not found"

  /** Older engines' phrasing: `Database` followed, anywhere later in the
      message and across newlines, by `not found` (the pattern
      `.*(Database).*(not found).*` matched against the whole message). */
  ghost predicate LegacyNotFound(msg: string) {
    exists i: nat, j: nat :: OccursAt(msg, DatabaseWord, i) && i + |DatabaseWord| <= j && OccursAt(msg, NotFoundWords, j)
  }

  /** The legacy phrasing, searched for from the first `Database`. */
  function FindLegacyNotFound(msg: string): (r: bool)
    ensures r <==> LegacyNotFound(msg)
  {
    match IndexOf(msg, DatabaseWord)
    case None => false
    case Some(i) =>
      var k := IndexFrom(msg, NotFoundWords, i + |DatabaseWord|);
      LaterDatabaseNoHelp(msg, i);
      k.Some?
  }

  /** A later `Database` cannot find a `not found` the first one misses. */
  lemma LaterDatabaseNoHelp(msg: string, i: nat)
    requires IndexOf(msg, DatabaseWord) == Some(i)
    ensures LegacyNotFound(msg) <==> IndexFrom(msg, NotFoundWords, i + |DatabaseWord|).Some?
  {
    var k := IndexFrom(msg, NotFoundWords, i + |DatabaseWord|);
    if k.Some? {
      assert OccursAt(msg, DatabaseWord, i) && i + |DatabaseWord| <= k.value && OccursAt(msg, NotFoundWords, k.value);
    }
    if LegacyNotFound(msg) {
      var i': nat, j: nat :| OccursAt(msg, DatabaseWord, i') && i' + |DatabaseWord| <= j && OccursAt(msg, NotFoundWords, j);
      assert i <= i';
      assert k.Some?;
    }
  }

  /** A message lacking one of a pattern's characters does not hold it. */
  lemma MissingChar(msg: string, pat: string, k: nat)
    requires k < |pat| && pat[k] !in msg
    ensures forall j: nat :: !OccursAt(msg, pat, j)
  {
  }

  /** True exactly for messages carrying the schema-not-found error class or
      the legacy phrasing; the match is case-sensitive. */
  function CheckNotFoundError(msg: string): (r: bool)
    ensures r <==> Contains(msg, SchemaNotFoundCode) || LegacyNotFound(msg)
  {
    var coded := IndexOf(msg, SchemaNotFoundCode);
    if coded.Some? then true else FindLegacyNotFound(msg)
  }

  // ---------------------------------------------------------------------
  // Examples

  lemma ErrorWithPrefix()
    ensures CheckNotFoundError("Runtime error \n " + "Database 'dbt' not found")
  {
    var msg := "Runtime error \n " + "Database 'dbt' not found";
    assert msg[16..24] == "Database 'dbt' not found"[..8];
    assert msg[31..40] == "Database 'dbt' not found"[15..];
    assert OccursAt(msg, DatabaseWord, 16) && OccursAt(msg, NotFoundWords, 31);
  }

  lemma BareError()
    ensures CheckNotFoundError("Database not found")
  {
    assert OccursAt("Database not found", DatabaseWord, 0);
    assert OccursAt("Database not found", NotFoundWords, 9);
  }

  lemma QuotedName()
    ensures CheckNotFoundError("Database '`dbt`' not found")
  {
    assert OccursAt("Database '`dbt`' not found", DatabaseWord, 0);
    assert OccursAt("Database '`dbt`' not found", NotFoundWords, 17);
  }

  lemma ErrorWithSuffix()
    ensures CheckNotFoundError("Database not found and \n foo")
  {
    assert OccursAt("Database not found and \n foo", DatabaseWord, 0);
    assert OccursAt("Database not found and \n foo", NotFoundWords, 9);
  }

  lemma SchemaErrorClass()
    ensures CheckNotFoundError("[SCHEMA_NOT_FOUND]")
  {
    assert OccursAt("[SCHEMA_NOT_FOUND]", SchemaNotFoundCode, 0);
  }

  /** The database error class is not the schema one: it has no `C`, and
      no lower-case `a` for `Database`. */
  lemma DatabaseErrorClass()
    ensures !CheckNotFoundError("[DATABASE_NOT_FOUND]")
  {
    assert SchemaNotFoundCode[2] == 'C' && DatabaseWord[1] == 'a';
    MissingChar("[DATABASE_NOT_FOUND]", SchemaNotFoundCode, 2);
    MissingChar("[DATABASE_NOT_FOUND]", DatabaseWord, 1);
  }

  /** `Schema ... not found` is not the legacy phrasing, which names a
      `Database`. */
  lemma SchemaPhrasing()
    ensures !CheckNotFoundError("Schema foo not found")
  {
    assert SchemaNotFoundCode[0] == '[' && DatabaseWord[0] == 'D';
    MissingChar("Schema foo not found", SchemaNotFoundCode, 0);
    MissingChar("Schema foo not found", DatabaseWord, 0);
  }

  /** `not there` is not `not found`. */
  lemma NotTherePhrasing()
    ensures !CheckNotFoundError("Database 'foo' not there")
  {
    assert SchemaNotFoundCode[0] == '[' && NotFoundWords[6] == 'u';
    MissingChar("Database 'foo' not there", SchemaNotFoundCode, 0);
    MissingChar("Database 'foo' not there", NotFoundWords, 6);
  }
}
