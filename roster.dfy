/** The country records the game plays with, and the list operations the
    game runs over them: the stable sort by common name and the three
    filters and the search of the game page. */
module Roster {
  import opened Text

  datatype Option<T> = None | Some(value: T)

  datatype Name = Name(common: string, official: string)

  datatype FlagImages = FlagImages(png: string, svg: string)

  datatype Currency = Currency(name: string, symbol: string)

  /** One record of the country roster. Objects keyed by code (languages,
      currencies) are kept as their entries, in the order the object lists
      them. Area and population are JavaScript numbers; area is kept as a
      real and population as an integer. */
  datatype Country = Country(
    capital: seq<string>,
    languages: seq<(string, string)>,
    borders: seq<string>,
    flags: FlagImages,
    flag: string,
    name: Name,
    independent: bool,
    currencies: seq<(string, Currency)>,
    region: string,
    subregion: string,
    landlocked: bool,
    area: real,
    population: int
  )

  /** Ascending by common name, as `localeCompare` orders them. */
  ghost predicate SortedByName(s: seq<Country>) {
    forall i, j :: 0 <= i < j < |s| ==> NameLeq(s[i].name.common, s[j].name.common)
  }

  /** Places `x` in `s` just before the first entry whose name is not below
      `x`'s. */
  function Insert(x: Country, s: seq<Country>): (r: seq<Country>)
    ensures multiset(r) == multiset(s) + multiset{x}
  {
    if s == [] then [x]
    else if NameLeq(x.name.common, s[0].name.common) then [x] + s
    else
      assert s == [s[0]] + s[1..];
      [s[0]] + Insert(x, s[1..])
  }

  lemma {:induction false} InsertSorted(x: Country, s: seq<Country>)
    requires SortedByName(s)
    ensures SortedByName(Insert(x, s))
  {
    if s == [] {
    } else if NameLeq(x.name.common, s[0].name.common) {
      forall j | 0 <= j < |s| ensures NameLeq(x.name.common, s[j].name.common) {
        if j > 0 {
          NameLeqTransitive(x.name.common, s[0].name.common, s[j].name.common);
        }
      }
    } else {
      var rest := Insert(x, s[1..]);
      InsertSorted(x, s[1..]);
      NameLeqTotal(x.name.common, s[0].name.common);
      forall y | y in rest ensures NameLeq(s[0].name.common, y.name.common) {
        assert y in multiset(rest);
        if y != x {
          assert y in s[1..];
        }
      }
      SortedCons(s[0], rest);
    }
  }

  lemma SortedCons(h: Country, t: seq<Country>)
    requires SortedByName(t)
    requires forall y :: y in t ==> NameLeq(h.name.common, y.name.common)
    ensures SortedByName([h] + t)
  {
    var r := [h] + t;
    forall i, j | 0 <= i < j < |r| ensures NameLeq(r[i].name.common, r[j].name.common) {
      if i == 0 {
        assert r[j] in t;
      } else {
        assert r[i] == t[i - 1] && r[j] == t[j - 1];
      }
    }
  }

  /** `array.sort((a, b) => a.name.common.localeCompare(b.name.common))`:
      a stable sort by common name (insertion sort). */
  function SortByName(s: seq<Country>): (r: seq<Country>)
    ensures multiset(r) == multiset(s)
    ensures SortedByName(r)
  {
    if s == [] then []
    else
      var r := SortByName(s[1..]);
      InsertSorted(s[0], r);
      assert s == [s[0]] + s[1..];
      Insert(s[0], r)
  }

  /** The entries of `s` whose common name is `k`, in order. */
  function WithCommonName(s: seq<Country>, k: string): (r: seq<Country>)
    ensures forall c :: c in r <==> c in s && c.name.common == k
  {
    if s == [] then []
    else if s[0].name.common == k then [s[0]] + WithCommonName(s[1..], k)
    else WithCommonName(s[1..], k)
  }

  /** `x` lands before every entry that has its own name. */
  lemma {:induction false} InsertKeepsEqualNamesInOrder(x: Country, s: seq<Country>, k: string)
    ensures WithCommonName(Insert(x, s), k)
         == if x.name.common == k then [x] + WithCommonName(s, k) else WithCommonName(s, k)
  {
    if s == [] {
    } else if NameLeq(x.name.common, s[0].name.common) {
      assert ([x] + s)[1..] == s;
    } else {
      NameLeqReflexive(x.name.common);
      InsertKeepsEqualNamesInOrder(x, s[1..], k);
      assert ([s[0]] + Insert(x, s[1..]))[1..] == Insert(x, s[1..]);
    }
  }

  /** The sort is stable: entries sharing a common name keep their order. */
  lemma {:induction false} SortByNameStable(s: seq<Country>, k: string)
    ensures WithCommonName(SortByName(s), k) == WithCommonName(s, k)
  {
    if s != [] {
      SortByNameStable(s[1..], k);
      InsertKeepsEqualNamesInOrder(s[0], SortByName(s[1..]), k);
    }
  }

  /** `countries.map((country) => country.name.common)`. */
  function CommonNames(s: seq<Country>): (r: seq<string>)
    ensures |r| == |s|
    ensures forall i :: 0 <= i < |s| ==> r[i] == s[i].name.common
  {
    if s == [] then [] else [s[0].name.common] + CommonNames(s[1..])
  }

  /** `filter((country) => !names.includes(country.name.common))`: every
      copy of a kept country stays, none of a dropped one. */
  function WithoutNames(s: seq<Country>, names: seq<string>): (r: seq<Country>)
    ensures forall c :: c in r <==> c in s && c.name.common !in names
    ensures forall c :: multiset(r)[c] == if c.name.common !in names then multiset(s)[c] else 0
  {
    if s == [] then []
    else
      assert s == [s[0]] + s[1..];
      if s[0].name.common !in names then [s[0]] + WithoutNames(s[1..], names)
      else WithoutNames(s[1..], names)
  }

  /** The filter keeps input order: it works piece by piece. */
  lemma {:induction false} WithoutNamesAppend(a: seq<Country>, b: seq<Country>, names: seq<string>)
    ensures WithoutNames(a + b, names) == WithoutNames(a, names) + WithoutNames(b, names)
  {
    if a != [] {
      assert (a + b)[1..] == a[1..] + b;
      WithoutNamesAppend(a[1..], b, names);
    } else {
      assert a + b == b;
    }
  }

  /** The entries named `k` survive together or not at all. */
  lemma {:induction false} WithoutNamesByName(s: seq<Country>, names: seq<string>, k: string)
    ensures WithCommonName(WithoutNames(s, names), k) == if k in names then [] else WithCommonName(s, k)
  {
    if s != [] {
      WithoutNamesByName(s[1..], names, k);
      if s[0].name.common !in names {
        assert ([s[0]] + WithoutNames(s[1..], names))[1..] == WithoutNames(s[1..], names);
      }
    }
  }

  /** The search test: the lower-cased common name contains the lower-cased
      query. The empty query matches every country, and so does the
      country's own name in any case. */
  predicate Matches(c: Country, query: string)
    ensures query == [] ==> Matches(c, query)
    ensures Lower(query) == Lower(c.name.common) ==> Matches(c, query)
  {
    ContainsEmpty(Lower(c.name.common));
    ContainsItself(Lower(c.name.common));
    Contains(Lower(c.name.common), Lower(query))
  }

  /** The test ignores the case of the query. */
  lemma MatchesIgnoresQueryCase(c: Country, query: string)
    ensures Matches(c, Lower(query)) == Matches(c, query)
  {
    LowerIdempotent(query);
  }

  /** `filter((country) => country.name.common.toLowerCase().includes(search.toLowerCase()))`:
      every copy of a matching country stays, none of another. */
  function MatchingSearch(s: seq<Country>, search: string): (r: seq<Country>)
    ensures forall c :: c in r <==> c in s && Matches(c, search)
    ensures forall c :: multiset(r)[c] == if Matches(c, search) then multiset(s)[c] else 0
  {
    if s == [] then []
    else
      assert s == [s[0]] + s[1..];
      if Matches(s[0], search) then [s[0]] + MatchingSearch(s[1..], search)
      else MatchingSearch(s[1..], search)
  }

  /** The filter keeps input order: it works piece by piece. */
  lemma {:induction false} MatchingSearchAppend(a: seq<Country>, b: seq<Country>, search: string)
    ensures MatchingSearch(a + b, search) == MatchingSearch(a, search) + MatchingSearch(b, search)
  {
    if a != [] {
      assert (a + b)[1..] == a[1..] + b;
      MatchingSearchAppend(a[1..], b, search);
    } else {
      assert a + b == b;
    }
  }

  /** The entries named `k` survive together or not at all. */
  lemma {:induction false} MatchingSearchByName(s: seq<Country>, search: string, k: string)
    ensures WithCommonName(MatchingSearch(s, search), k)
         == if Contains(Lower(k), Lower(search)) then WithCommonName(s, k) else []
  {
    if s != [] {
      MatchingSearchByName(s[1..], search, k);
      if Matches(s[0], search) {
        assert ([s[0]] + MatchingSearch(s[1..], search))[1..] == MatchingSearch(s[1..], search);
      }
    }
  }

  /** Every name contains the empty search, so it keeps the whole list. */
  lemma {:induction false} MatchingEmptySearch(s: seq<Country>)
    ensures MatchingSearch(s, "") == s
  {
    if s != [] {
      MatchingEmptySearch(s[1..]);
      assert s == [s[0]] + s[1..];
    }
  }

  /** `find((item) => item.name.common.toLowerCase().includes(query.toLowerCase()))`:
      the first matching entry, if any. */
  function FirstMatch(s: seq<Country>, query: string): (r: Option<Country>)
    ensures r.Some? ==> exists i :: 0 <= i < |s| && s[i] == r.value && Matches(s[i], query)
                                    && forall j :: 0 <= j < i ==> !Matches(s[j], query)
    ensures r.None? <==> forall c :: c in s ==> !Matches(c, query)
  {
    if s == [] then None
    else if Matches(s[0], query) then Some(s[0])
    else
      assert s == [s[0]] + s[1..];
      var r := FirstMatch(s[1..], query);
      assert r.Some? ==> exists i :: 0 <= i < |s| && s[i] == r.value && Matches(s[i], query)
                                     && forall j :: 0 <= j < i ==> !Matches(s[j], query) by {
        if r.Some? {
          var i :| 0 <= i < |s[1..]| && s[1..][i] == r.value && Matches(s[1..][i], query)
                   && forall j :: 0 <= j < i ==> !Matches(s[1..][j], query);
          assert s[i + 1] == r.value;
          forall j | 0 <= j < i + 1 ensures !Matches(s[j], query) {
            if j > 0 { assert s[j] == s[1..][j - 1]; }
          }
        }
      }
      r
  }
}
