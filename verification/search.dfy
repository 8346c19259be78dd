/** The list filters shared by the order, purchase-order and product
    screens: a free-text search box matched case-insensitively against a
    record's text fields, and drop-down selects whose first entry `all`
    accepts every record. */
module Search {
  import Text

  /** The field contains the term, both lower-cased first. */
  predicate MatchesTerm(field: string, term: string) {
    Text.Contains(Text.Lower(field), Text.Lower(term))
  }

  /** The search is a case-insensitive substring test: a field matches
      exactly when the lower-cased term occurs at some position of the
      lower-cased field, the empty term matches every field, and the
      term's case does not matter. */
  lemma MatchesTermSpec(field: string, term: string)
    ensures MatchesTerm(field, term) <==> exists i :: Text.OccursAt(Text.Lower(field), Text.Lower(term), i)
    ensures MatchesTerm(field, [])
    ensures MatchesTerm(field, field)
    ensures MatchesTerm(field, term) <==> MatchesTerm(field, Text.Upper(term))
  {
    Text.ContainsIff(Text.Lower(field), Text.Lower(term));
    Text.ContainsTrivial(Text.Lower(field));
    Text.LowerOfUpper(term);
    assert Text.Lower([]) == [];
  }

  /** The value of a filter select: the `all` entry, or one value. */
  datatype Choice<T> = Any | Only(value: T)

  /** The select is on `all`, or its value equals the record's. */
  predicate Accepts<T(==)>(choice: Choice<T>, v: T) {
    choice.Any? || choice.value == v
  }
}
