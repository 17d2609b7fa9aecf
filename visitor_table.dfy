/** The visitors table's search over the visitor's user name and IP address
    (src/Screens/dashboard/visitors/data-table.tsx). */
module VisitorTable {
  import opened Wrappers
  import Text

  /** The fields of a visitor row the search reads; each may be missing. */
  datatype VisitorRow = VisitorRow(user: Option<string>, ip: Option<string>)

  /** The table's `globalFilterFn`: the query occurs, ignoring case, in the user or the ip. */
  predicate VisitorMatches(row: VisitorRow, query: string)
  {
    Text.FieldMatches(row.user, query) || Text.FieldMatches(row.ip, query)
  }

  /** Search keeps a row exactly when the lower-cased query occurs in its lower-cased user or
      ip, a missing field counting as ""; an empty query keeps every row; a row with neither
      field is kept only by the empty query; the letter case of the query does not matter. */
  lemma VisitorSearch(row: VisitorRow, query: string)
    ensures VisitorMatches(row, query) <==>
      (exists i :: Text.OccursAt(Text.Lower(row.user.GetOr("")), Text.Lower(query), i))
      || (exists i :: Text.OccursAt(Text.Lower(row.ip.GetOr("")), Text.Lower(query), i))
    ensures query == "" ==> VisitorMatches(row, query)
    ensures row.user.None? && row.ip.None? ==> (VisitorMatches(row, query) <==> query == "")
    ensures VisitorMatches(row, Text.Upper(query)) == VisitorMatches(row, query)
    ensures VisitorMatches(row, Text.Lower(query)) == VisitorMatches(row, query)
  {
    Text.FieldMatchesIff(row.user, query);
    Text.FieldMatchesIff(row.ip, query);
    Text.FieldMatchesIgnoresQueryCase(row.user, query);
    Text.FieldMatchesIgnoresQueryCase(row.ip, query);
  }
}
