/** The clues about the hidden country: the fixed order in which they are
    revealed, the step that reveals the next one, and what each clue cell
    shows. */
module Clues {
  import opened Roster

  /** The keys of a country record that serve as clues. */
  datatype ClueKey = Area | Population | Independent | Landlocked | Borders | Region | Languages | Capital | Flags

  /** `cluesInOrder`: the order in which clues are revealed. */
  const CLUES_IN_ORDER: seq<ClueKey> :=
    [Area, Population, Independent, Landlocked, Borders, Region, Languages, Capital, Flags]

  /** The position of `key` in the reveal order. */
  function ClueIndex(key: ClueKey): (i: nat)
    ensures i < |CLUES_IN_ORDER| && CLUES_IN_ORDER[i] == key
  {
    match key
    case Area => 0
    case Population => 1
    case Independent => 2
    case Landlocked => 3
    case Borders => 4
    case Region => 5
    case Languages => 6
    case Capital => 7
    case Flags => 8
  }

  /** No key appears twice in the reveal order. */
  lemma ClueIndexUnique(i: nat)
    requires i < |CLUES_IN_ORDER|
    ensures ClueIndex(CLUES_IN_ORDER[i]) == i
  {
  }

  /** The clues shown so far are the first ones of the reveal order. */
  ghost predicate IsShownPrefix(shown: seq<ClueKey>) {
    |shown| <= |CLUES_IN_ORDER| && shown == CLUES_IN_ORDER[..|shown|]
  }

  /** `showNextClue` on the list of shown clues: a no-op once every clue is
      shown, otherwise the clue at position `|shown|` is appended. */
  function RevealNext(shown: seq<ClueKey>): (r: seq<ClueKey>)
    requires |shown| <= |CLUES_IN_ORDER|
    ensures |r| <= |CLUES_IN_ORDER|
    ensures IsShownPrefix(shown) ==> IsShownPrefix(r)
  {
    if |shown| == |CLUES_IN_ORDER| then shown else shown + [CLUES_IN_ORDER[|shown|]]
  }

  /** The shown clues after `k` calls of `showNextClue`. */
  function RevealTimes(shown: seq<ClueKey>, k: nat): (r: seq<ClueKey>)
    requires |shown| <= |CLUES_IN_ORDER|
    ensures |r| <= |CLUES_IN_ORDER|
  {
    if k == 0 then shown else RevealNext(RevealTimes(shown, k - 1))
  }

  function Min(a: int, b: int): int {
    if a <= b then a else b
  }

  /** From a prefix of the order, `k` further calls show the first
      `|shown| + k` clues, never more than all nine: once all are shown,
      further calls change nothing. */
  lemma {:induction false} RevealTimesShowsPrefix(shown: seq<ClueKey>, k: nat)
    requires IsShownPrefix(shown)
    ensures RevealTimes(shown, k) == CLUES_IN_ORDER[..Min(|shown| + k, |CLUES_IN_ORDER|)]
  {
    if k > 0 {
      RevealTimesShowsPrefix(shown, k - 1);
    }
  }

  /** `countriesStore.showedClues.includes(key)`. While the shown clues
      are a prefix of the order, a key is shown exactly when its position in
      the order is below the number of clues shown. */
  predicate ClueVisible(shown: seq<ClueKey>, key: ClueKey)
    ensures IsShownPrefix(shown) ==> (ClueVisible(shown, key) <==> ClueIndex(key) < |shown|)
  {
    assert IsShownPrefix(shown) && key in shown ==> ClueIndex(key) < |shown| by {
      if IsShownPrefix(shown) && key in shown {
        var j :| 0 <= j < |shown| && shown[j] == key;
        ClueIndexUnique(j);
      }
    }
    key in shown
  }

  /** The value of one clue attribute of a country. */
  datatype ClueValue =
    | AreaValue(area: real)
    | PopulationValue(population: int)
    | IndependentValue(independent: bool)
    | LandlockedValue(landlocked: bool)
    | BordersValue(borders: seq<string>)
    | RegionValue(region: string)
    | LanguagesValue(names: seq<string>)
    | CapitalValue(capital: seq<string>)
    | FlagValue(png: string)

  /** `Object.values(languages)`. */
  function LanguageNames(entries: seq<(string, string)>): (r: seq<string>)
    ensures |r| == |entries|
    ensures forall i :: 0 <= i < |entries| ==> r[i] == entries[i].1
  {
    if entries == [] then [] else [entries[0].1] + LanguageNames(entries[1..])
  }

  /** The attribute of `c` that the clue `key` shows. */
  function Attribute(c: Country, key: ClueKey): ClueValue {
    match key
    case Area => AreaValue(c.area)
    case Population => PopulationValue(c.population)
    case Independent => IndependentValue(c.independent)
    case Landlocked => LandlockedValue(c.landlocked)
    case Borders => BordersValue(c.borders)
    case Region => RegionValue(c.region)
    case Languages => LanguagesValue(LanguageNames(c.languages))
    case Capital => CapitalValue(c.capital)
    case Flags => FlagValue(c.flags.png)
  }

  /** What a clue cell of the page shows: the "?" mark (or the grey box in
      place of the flag), nothing (the clue is shown but there is no country
      to guess), or the target's attribute. */
  datatype ClueCell = Hidden | Blank | Revealed(value: ClueValue)

  /** The clue cell for `key`. The languages cell also tests that the
      target's languages are present, so it keeps its "?" when there is no
      target. */
  function ClueCellFor(shown: seq<ClueKey>, target: Option<Country>, key: ClueKey): (cell: ClueCell)
    ensures cell.Revealed? <==> ClueVisible(shown, key) && target.Some?
    ensures cell.Revealed? ==> cell.value == Attribute(target.value, key)
    ensures !ClueVisible(shown, key) ==> cell == Hidden
  {
    if !ClueVisible(shown, key) then Hidden
    else if target.None? then (if key == Languages then Hidden else Blank)
    else Revealed(Attribute(target.value, key))
  }

  /** A clue not yet shown tells nothing about the target: its cell is the
      same whatever country is to be guessed. */
  lemma HiddenClueIndependentOfTarget(shown: seq<ClueKey>, t1: Option<Country>, t2: Option<Country>, key: ClueKey)
    requires !ClueVisible(shown, key)
    ensures ClueCellFor(shown, t1, key) == ClueCellFor(shown, t2, key)
  {
  }
}
