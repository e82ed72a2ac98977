/** The city search of the sidebar (src/components/Sidebar.tsx): a
    case-insensitive substring match of the search term against city names,
    with case mapping over ASCII. */
module Sidebar {
  import opened Seqs
  import opened Text
  import opened CityModel

  /** The city's lower-cased name contains the lower-cased term. */
  predicate Matches(c: RawCity, term: string) {
    Contains(Lower(c.city), Lower(term))
  }

  /** `filteredCities`: the order-preserving sublist of the cities whose
      name matches the term. */
  function FilteredCities(cities: seq<RawCity>, term: string): (r: seq<RawCity>)
    ensures IsSubseq(r, cities)
    ensures forall c :: c in r <==> c in cities && Matches(c, term)
    ensures forall c :: multiset(r)[c] == if Matches(c, term) then multiset(cities)[c] else 0
  {
    Filter(cities, c => Matches(c, term))
  }

  /** An empty search keeps every city. */
  lemma EmptyTermKeepsAll(cities: seq<RawCity>)
    ensures FilteredCities(cities, "") == cities
  {
    forall c | c in cities
      ensures Matches(c, "")
    {
      ContainsEmpty(Lower(c.city));
    }
    FilterAll(cities, c => Matches(c, ""));
  }

  /** Matching ignores case: a term and its upper-cased form select the same
      cities. */
  lemma CaseInsensitive(cities: seq<RawCity>, term: string)
    ensures FilteredCities(cities, Upper(term)) == FilteredCities(cities, term)
  {
    LowerOfUpper(term);
    FilterExt(cities, c => Matches(c, Upper(term)), c => Matches(c, term));
  }

  /** Typing more characters never brings a city back: the result for a
      longer term is a sublist of the result for any prefix of it. */
  lemma LongerTermNarrows(cities: seq<RawCity>, term: string, more: string)
    ensures IsSubseq(FilteredCities(cities, term + more), FilteredCities(cities, term))
  {
    LowerAppend(term, more);
    forall c | Matches(c, term + more)
      ensures Matches(c, term)
    {
      ContainsPrefix(Lower(c.city), Lower(term), Lower(more));
    }
    FilterMono(cities, c => Matches(c, term + more), c => Matches(c, term));
  }
}
