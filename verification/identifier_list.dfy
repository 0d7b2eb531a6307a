/** The `|`-separated identifier list a relation-listing query is filtered
    by (`get_identifier_list_string`), with its optional wildcard fallback. */
module IdentifierList {
  import opened Wrappers
  import opened Strings

  const Separator: string := "|"
  const Wildcard: string := "*"
  /** The longest identifier list the catalog query accepts, plus one. */
  const CharLimit: nat := 2048

  /** The fallback is on exactly when `DBT_DESCRIBE_TABLE_2048_CHAR_BYPASS`
      is set to `true`; an unset variable reads as `false`. */
  predicate BypassEnabled(setting: Option<string>) {
    setting.GetOr("false") == "true"
  }

  /** The names joined with `|`, or `*` when the fallback is on and the
      joined list reaches the limit. The names arrive in the iteration order
      of the caller's collection. */
  function GetIdentifierListString(names: seq<string>, setting: Option<string>): (r: string)
    ensures r == Join(names, Separator) || r == Wildcard
    ensures !BypassEnabled(setting) ==> r == Join(names, Separator)
    ensures |Join(names, Separator)| < CharLimit ==> r == Join(names, Separator)
    ensures BypassEnabled(setting) && |Join(names, Separator)| >= CharLimit ==> r == Wildcard
  {
    var joined := Join(names, Separator);
    if BypassEnabled(setting) && |joined| >= CharLimit then Wildcard else joined
  }

  /** Whenever the list is not replaced by the wildcard, splitting it at `|`
      gives back the names, provided no name holds a `|`. */
  lemma IdentifierListReadsBack(names: seq<string>, setting: Option<string>)
    requires |names| >= 1 && forall k :: 0 <= k < |names| ==> '|' !in names[k]
    requires !BypassEnabled(setting) || |Join(names, Separator)| < CharLimit
    ensures Split(GetIdentifierListString(names, setting), Separator) == names
  {
    SplitOfJoin(names, Separator);
  }

  /** The joined length is the names' lengths plus one per separator,
      bounded here through per-name length bounds. */
  lemma {:induction false} JoinLengthBounds(names: seq<string>, lo: nat, hi: nat)
    requires |names| >= 1
    requires forall k :: 0 <= k < |names| ==> lo <= |names[k]| <= hi
    ensures |names| * lo + |names| - 1 <= |Join(names, Separator)| <= |names| * hi + |names| - 1
    decreases |names|
  {
    if |names| > 1 {
      var rest := names[1..];
      JoinLengthBounds(rest, lo, hi);
      assert |Join(names, Separator)| == |names[0]| + 1 + |Join(rest, Separator)|;
      assert |names| * lo == |rest| * lo + lo;
      assert |names| * hi == |rest| * hi + hi;
    }
  }

  // ---------------------------------------------------------------------
  // Examples

  function CustomerName(i: nat): string {
    "customers_" + IntToString(i)
  }

  /** The customer tables named by the given numbers, in the given order. */
  function CustomerNames(ids: seq<nat>): (names: seq<string>)
    ensures |names| == |ids|
    ensures forall k :: 0 <= k < |ids| ==> names[k] == CustomerName(ids[k])
  {
    seq(|ids|, k requires 0 <= k < |ids| => CustomerName(ids[k]))
  }

  lemma CustomerNamesLength(ids: seq<nat>)
    requires forall k :: 0 <= k < |ids| ==> ids[k] < 200
    ensures forall k :: 0 <= k < |ids| ==> 11 <= |CustomerNames(ids)[k]| <= 13
  {
    assert Pow10(3) == 1000;
    forall k | 0 <= k < |ids| ensures 11 <= |CustomerName(ids[k])| <= 13 {
      DecimalLengthBound(ids[k], 3);
    }
  }

  /** Two hundred customer tables, in whatever order the set yields them,
      overflow the limit: with the fallback on the list becomes `*`, and
      without it the full list is kept. */
  lemma ManyCustomersCapped(ids: seq<nat>)
    requires |ids| == 200 && forall k :: 0 <= k < |ids| ==> ids[k] < 200
    ensures GetIdentifierListString(CustomerNames(ids), Some("true")) == Wildcard
    ensures GetIdentifierListString(CustomerNames(ids), None) == Join(CustomerNames(ids), Separator)
  {
    CustomerNamesLength(ids);
    JoinLengthBounds(CustomerNames(ids), 11, 13);
  }

  /** Five of them stay well under the limit and are kept with the fallback on. */
  lemma FewCustomersKept(ids: seq<nat>)
    requires |ids| == 5 && forall k :: 0 <= k < |ids| ==> ids[k] < 200
    ensures GetIdentifierListString(CustomerNames(ids), Some("true")) == Join(CustomerNames(ids), Separator)
  {
    CustomerNamesLength(ids);
    JoinLengthBounds(CustomerNames(ids), 11, 13);
  }

  lemma NoNamesEmptyList(setting: Option<string>)
    ensures GetIdentifierListString([], setting) == ""
  {
  }
}
