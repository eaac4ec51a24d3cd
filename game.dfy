/** The game page's store and the operations on it: picking the country to
    guess, the suggestion list, submitting a guess and the set-up once the
    roster has arrived. */
module Game {
  import opened Text
  import opened Roster
  import opened Clues

  /** The suggestion list of `filterCountryList(search)`: the countries whose
      common name is not among the guessed ones and contains the search,
      sorted by common name. */
  function Suggestions(countries: seq<Country>, guessed: seq<Country>, search: string): (r: seq<Country>)
    ensures SortedByName(r)
    ensures forall c :: c in r <==> c in countries && Eligible(c, guessed, search)
    ensures forall c :: multiset(r)[c] == if Eligible(c, guessed, search) then multiset(countries)[c] else 0
  {
    var unguessed := WithoutNames(countries, CommonNames(guessed));
    var matching := MatchingSearch(unguessed, search);
    var r := SortByName(matching);
    assert forall c :: c in r <==> c in multiset(matching);
    r
  }

  /** A country the query may resolve to: no guessed country has its common
      name, and that name contains the query, ignoring case. */
  predicate Eligible(c: Country, guessed: seq<Country>, query: string)
    ensures Eligible(c, guessed, query) <==>
      (forall g :: g in guessed ==> g.name.common != c.name.common) && Matches(c, query)
  {
    assert forall g :: g in guessed ==> g.name.common in CommonNames(guessed) by {
      forall g | g in guessed ensures g.name.common in CommonNames(guessed) {
        var i :| 0 <= i < |guessed| && guessed[i] == g;
        assert CommonNames(guessed)[i] == g.name.common;
      }
    }
    c.name.common !in CommonNames(guessed) && Matches(c, query)
  }

  /** The suggestions with one common name are that name's roster entries in
      roster order, or none: the name decides whether an entry is listed, and
      the sort is stable. */
  lemma SuggestionsKeepRosterOrder(countries: seq<Country>, guessed: seq<Country>, search: string, k: string)
    ensures WithCommonName(Suggestions(countries, guessed, search), k)
         == if k !in CommonNames(guessed) && Contains(Lower(k), Lower(search)) then WithCommonName(countries, k) else []
  {
    var names := CommonNames(guessed);
    var unguessed := WithoutNames(countries, names);
    SortByNameStable(MatchingSearch(unguessed, search), k);
    MatchingSearchByName(unguessed, search, k);
    WithoutNamesByName(countries, names, k);
  }

  /** With the empty search the list holds every country whose common name
      has not been guessed, sorted. */
  lemma SuggestionsEmptySearch(countries: seq<Country>, guessed: seq<Country>)
    ensures Suggestions(countries, guessed, "") == SortByName(WithoutNames(countries, CommonNames(guessed)))
  {
    MatchingEmptySearch(WithoutNames(countries, CommonNames(guessed)));
  }

  /** Any search lists at most what the empty search lists. */
  lemma SuggestionsWithinEmptySearch(countries: seq<Country>, guessed: seq<Country>, search: string)
    ensures multiset(Suggestions(countries, guessed, search)) <= multiset(Suggestions(countries, guessed, ""))
  {
    SuggestionsEmptySearch(countries, guessed);
  }

  /** The dropdown under the search box shows the first eight suggestions. */
  function Dropdown(suggestions: seq<Country>): (r: seq<Country>)
    ensures |r| == if |suggestions| <= 8 then |suggestions| else 8
    ensures r == suggestions[..|r|]
  {
    if |suggestions| <= 8 then suggestions else suggestions[..8]
  }

  /** The country a submitted query resolves to: the first country of the
      roster, in roster order, that is eligible. */
  function Resolve(countries: seq<Country>, guessed: seq<Country>, query: string): (r: Option<Country>)
    ensures r.Some? ==> r.value in countries && Eligible(r.value, guessed, query)
  {
    FirstMatch(WithoutNames(countries, CommonNames(guessed)), query)
  }

  /** Resolve picks the eligible country of lowest roster position. */
  lemma {:induction false} ResolveFindsFirstEligible(countries: seq<Country>, guessed: seq<Country>, query: string, i: nat)
    requires i < |countries| && Eligible(countries[i], guessed, query)
    requires forall j :: 0 <= j < i ==> !Eligible(countries[j], guessed, query)
    ensures Resolve(countries, guessed, query) == Some(countries[i])
  {
    var names := CommonNames(guessed);
    assert countries == [countries[0]] + countries[1..];
    if i > 0 {
      ResolveFindsFirstEligible(countries[1..], guessed, query, i - 1);
    }
  }

  /** Resolve finds nothing exactly when no country is eligible. */
  lemma ResolveNoneIffNoneEligible(countries: seq<Country>, guessed: seq<Country>, query: string)
    ensures Resolve(countries, guessed, query).None? <==> forall c :: c in countries ==> !Eligible(c, guessed, query)
  {
  }

  /** The empty query resolves to the first country whose common name has not
      been guessed. */
  lemma ResolveEmptyQuery(countries: seq<Country>, guessed: seq<Country>)
    ensures var rest := WithoutNames(countries, CommonNames(guessed));
      Resolve(countries, guessed, "") == if rest == [] then None else Some(rest[0])
  {
    var rest := WithoutNames(countries, CommonNames(guessed));
    if rest != [] {
      ContainsEmpty(Lower(rest[0].name.common));
    }
  }

  /** Typing the full common name of a country not yet guessed always
      resolves to some country. */
  lemma ResolveOwnName(countries: seq<Country>, guessed: seq<Country>, c: Country)
    requires c in countries && c.name.common !in CommonNames(guessed)
    ensures Resolve(countries, guessed, c.name.common).Some?
  {
    ContainsItself(Lower(c.name.common));
    assert Eligible(c, guessed, c.name.common);
  }

  /** `Math.floor(rand * n)` for a random `rand` in [0, 1). */
  function PickIndex(rand: real, n: nat): (i: int)
    requires 0.0 <= rand < 1.0
    ensures n == 0 ==> i == 0
    ensures n > 0 ==> 0 <= i < n
  {
    var x := rand * n as real;
    assert 0.0 <= x;
    assert n > 0 ==> x < n as real;
    x.Floor
  }

  /** Each position can be drawn: `rand = i / n` picks position `i`. */
  lemma PickIndexReachesEvery(i: nat, n: nat)
    requires i < n
    ensures 0.0 <= i as real / n as real < 1.0
    ensures PickIndex(i as real / n as real, n) == i
  {
    var rand := i as real / n as real;
    assert rand * n as real == i as real;
  }

  /** The target `setNewCountryToGuess(excluded)` chooses: a random member of
      the roster whose common name is not `excluded`; undefined when there is
      none, since indexing an empty array gives undefined. */
  function NewTarget(countries: seq<Country>, excluded: string, rand: real): (r: Option<Country>)
    requires 0.0 <= rand < 1.0
    ensures r.Some? ==> r.value in countries && r.value.name.common != excluded
    ensures r.None? <==> forall c :: c in countries ==> c.name.common == excluded
  {
    var candidates := WithoutNames(countries, [excluded]);
    var i := PickIndex(rand, |candidates|);
    if i < |candidates| then Some(candidates[i]) else None
  }

  /** Every candidate can become the target. */
  lemma NewTargetReachesEveryCandidate(countries: seq<Country>, excluded: string, c: Country)
    requires c in countries && c.name.common != excluded
    ensures exists rand: real :: 0.0 <= rand < 1.0 && NewTarget(countries, excluded, rand) == Some(c)
  {
    var candidates := WithoutNames(countries, [excluded]);
    var i :| 0 <= i < |candidates| && candidates[i] == c;
    PickIndexReachesEvery(i, |candidates|);
    assert NewTarget(countries, excluded, i as real / |candidates| as real) == Some(c);
  }

  /** No two entries share a common name. */
  ghost predicate DistinctCommonNames(s: seq<Country>) {
    forall i, j :: 0 <= i < j < |s| ==> s[i].name.common != s[j].name.common
  }

  /** No two entries share an official name. */
  ghost predicate DistinctOfficialNames(s: seq<Country>) {
    forall i, j :: 0 <= i < j < |s| ==> s[i].name.official != s[j].name.official
  }

  /** `guessedCountries.find((item) => item.name.official === c.name.official)`
      finds something. */
  predicate OfficialNameGuessed(guessed: seq<Country>, c: Country)
    ensures c in guessed ==> OfficialNameGuessed(guessed, c)
    ensures DistinctOfficialNames(guessed) && !OfficialNameGuessed(guessed, c) ==> DistinctOfficialNames(guessed + [c])
  {
    exists g :: g in guessed && g.name.official == c.name.official
  }

  /** A resolved guess brings a common name not guessed before. */
  lemma AppendEligibleKeepsNamesDistinct(guessed: seq<Country>, c: Country, query: string)
    requires DistinctCommonNames(guessed) && Eligible(c, guessed, query)
    ensures DistinctCommonNames(guessed + [c])
  {
    var s := guessed + [c];
    forall i, j | 0 <= i < j < |s| ensures s[i].name.common != s[j].name.common {
      if j == |guessed| {
        assert s[i] in guessed;
      }
    }
  }

  /** `countriesStore`: the state of the game page. */
  class Store {
    var countries: seq<Country>
    var filteredCountries: seq<Country>
    var countryToGuess: Option<Country>
    var showedClues: seq<ClueKey>
    var guessedCountries: seq<Country>

    /** The shown clues are a prefix of the reveal order, and no country has
        been guessed twice, whether by common or by official name. */
    ghost predicate Valid()
      reads this
    {
      && IsShownPrefix(showedClues)
      && DistinctCommonNames(guessedCountries)
      && DistinctOfficialNames(guessedCountries)
    }

    /** The store's initial value: everything empty, no country to guess. */
    constructor ()
      ensures Valid()
      ensures countries == [] && filteredCountries == [] && countryToGuess == None
      ensures showedClues == [] && guessedCountries == []
    {
      countries := [];
      filteredCountries := [];
      countryToGuess := None;
      showedClues := [];
      guessedCountries := [];
    }

    /** `setNewCountryToGuess(excluded)`, with the draw of `Math.random`
        passed in as `rand`. */
    method SetNewCountryToGuess(excluded: string, rand: real)
      requires 0.0 <= rand < 1.0
      modifies this`countryToGuess
      ensures countryToGuess == NewTarget(countries, excluded, rand)
    {
      countryToGuess := NewTarget(countries, excluded, rand);
    }

    /** `showNextClue()`. */
    method ShowNextClue()
      requires Valid()
      modifies this`showedClues
      ensures Valid()
      ensures showedClues == RevealNext(old(showedClues))
    {
      if |showedClues| == |CLUES_IN_ORDER| {
        return;
      }
      showedClues := showedClues + [CLUES_IN_ORDER[|showedClues|]];
    }

    /** `filterCountryList(search)`. */
    method FilterCountryList(search: string)
      modifies this`filteredCountries
      ensures filteredCountries == Suggestions(countries, guessedCountries, search)
    {
      filteredCountries := Suggestions(countries, guessedCountries, search);
    }

    /** `isCountryGuessed(country)`: the country has the target's official
        name. */
    function IsCountryGuessed(country: Country): (r: bool)
      reads this
      ensures countryToGuess.None? ==> !r
      ensures countryToGuess.Some? ==> (r <==> country.name.official == countryToGuess.value.name.official)
      ensures countryToGuess == Some(country) ==> r
    {
      countryToGuess.Some? && country.name.official == countryToGuess.value.name.official
    }

    /** `guessCountry(query)`: resolve the query; unless nothing resolves or
        the country's official name is already guessed, record the guess and,
        when it is not the target, reveal one more clue. */
    method GuessCountry(query: string)
      requires Valid()
      modifies this`guessedCountries, this`showedClues
      ensures Valid()
      ensures var c := Resolve(countries, old(guessedCountries), query);
        if c.None? || OfficialNameGuessed(old(guessedCountries), c.value) then
          guessedCountries == old(guessedCountries) && showedClues == old(showedClues)
        else
          && guessedCountries == old(guessedCountries) + [c.value]
          && showedClues == if IsCountryGuessed(c.value) then old(showedClues) else RevealNext(old(showedClues))
    {
      var country := Resolve(countries, guessedCountries, query);
      if country.None? || OfficialNameGuessed(guessedCountries, country.value) {
        return;
      }
      AppendEligibleKeepsNamesDistinct(guessedCountries, country.value, query);
      guessedCountries := guessedCountries + [country.value];
      var result := IsCountryGuessed(country.value);
      if !result {
        ShowNextClue();
      }
    }

    /** What runs once the roster has arrived: sort it by common name, store
        it, fill the suggestion list for the empty search, and pick a target
        with no name excluded. */
    method Load(data: seq<Country>, rand: real)
      requires Valid()
      requires 0.0 <= rand < 1.0
      modifies this
      ensures Valid()
      ensures countries == SortByName(data)
      ensures filteredCountries == Suggestions(countries, guessedCountries, "")
      ensures countryToGuess == NewTarget(countries, "", rand)
      ensures guessedCountries == old(guessedCountries) && showedClues == old(showedClues)
    {
      countries := SortByName(data);
      FilterCountryList("");
      SetNewCountryToGuess("", rand);
    }
  }
}
