# Countrdle game engine in Dafny

Countrdle is a "Wordle for countries": the page holds a roster of countries,
hides one of them, and the player types country names. A query resolves to a
country of the roster by case-insensitive substring search. Every wrong guess
reveals one more clue about the hidden country, in a fixed order of nine
clues: area, population, independent, landlocked, borders, region, languages,
capital and flag. A search box offers suggestions. These are the countries not
yet guessed whose common name contains the search, sorted by common name.

This project models the engine of the game page `src/routes/coutrdle/index.tsx`:

- `text.dfy` (module `Text`): lower-casing, `includes` (substring search) and
  the order used by the sorts. The order is proved reflexive, total and
  transitive.
- `roster.dfy` (module `Roster`): the `Country` record and the list operations
  of the page. These are the stable sort by common name (proved sorted, a
  permutation and stable), the three filters and `find`.
- `clues.dfy` (module `Clues`): the nine-key reveal order and the
  `showNextClue` step on the list of shown clues. It also holds the value of
  each clue cell ("?" unless the key has been shown).
- `game.dfy` (module `Game`): the store `countriesStore` as the class
  `Game.Store`, with `seq` fields and one method per operation of the page.
  Beside it are the pure functions that specify those methods: `Suggestions`,
  `Resolve` and `NewTarget`, with lemmas about them. `Store.Valid()` is the
  invariant every method keeps. The shown clues are always a prefix of the
  reveal order (so never more than nine), and no two guessed countries share
  a common or an official name.

## Behaviour worth knowing

- There are nine clues, including "independent".
- The shown clues start empty; a fresh game shows no clue.
- The store has no "won" flag. A correct guess shows an alert and leaves the
  clues as they are. Later guesses are still accepted.
- The empty query resolves to the first country not yet guessed.
- The first pick of the target excludes countries whose common name is the
  empty string.
- Guessed countries are excluded from search and resolution by common name.
  Only the duplicate check uses the official name.
- A query that several names contain resolves to the first of them in roster
  order, which is alphabetical: "Guinea" resolves to "Equatorial Guinea".
- The country records carry no coordinates, and the game gives no distance or
  direction feedback.

## Model

| member | source | states |
|---|---|---|
| `Text.Lower` | src/routes/coutrdle/index.tsx:93 | lower-casing keeps the length and lower-cases each character in place |
| `Text.LowerIdempotent` | src/routes/coutrdle/index.tsx:93 | lower-casing an already lower-cased name changes nothing |
| `Text.Contains` | src/routes/coutrdle/index.tsx:93 | `includes` holds exactly when the needle occurs at some position of the text |
| `Text.ContainsEmpty` | src/routes/coutrdle/index.tsx:93 | every text contains the empty string, so the empty search matches every name |
| `Text.ContainsItself` | src/routes/coutrdle/index.tsx:116 | every name contains itself |
| `Text.NameLeqReflexive` | src/routes/coutrdle/index.tsx:95-97 | the name comparison is reflexive |
| `Text.NameLeqTotal` | src/routes/coutrdle/index.tsx:95-97 | any two names are comparable |
| `Text.NameLeqTransitive` | src/routes/coutrdle/index.tsx:150-152 | the name comparison is transitive |
| `Roster.InsertSorted` | src/routes/coutrdle/index.tsx:150-152 | inserting a country into a sorted list keeps it sorted |
| `Roster.SortByName` | src/routes/coutrdle/index.tsx:150-152 | the sort by common name returns a permutation of its input, sorted ascending by common name |
| `Roster.InsertKeepsEqualNamesInOrder` | src/routes/coutrdle/index.tsx:95-97 | an inserted country lands before every entry with the same common name |
| `Roster.SortByNameStable` | src/routes/coutrdle/index.tsx:95-97 | the sort is stable: for every name, the entries with that common name keep their input order |
| `Roster.CommonNames` | src/routes/coutrdle/index.tsx:86-88 | the list of common names has one entry per guessed country, in order |
| `Roster.WithoutNames` | src/routes/coutrdle/index.tsx:91 | keeps exactly the countries whose common name is not in the list, each with all its copies, and drops every copy of the others |
| `Roster.WithoutNamesAppend` | src/routes/coutrdle/index.tsx:91 | the filter keeps input order: filtering a concatenation concatenates the filtered parts |
| `Roster.WithoutNamesByName` | src/routes/coutrdle/index.tsx:91 | the entries with one common name are all kept, in order, or all dropped |
| `Roster.Matches` | src/routes/coutrdle/index.tsx:93 | the empty query matches every country, and so does the country's own common name in any case |
| `Roster.MatchesIgnoresQueryCase` | src/routes/coutrdle/index.tsx:93 | lower-casing the query first does not change whether it matches |
| `Roster.MatchingSearch` | src/routes/coutrdle/index.tsx:92-94 | keeps exactly the countries whose lower-cased common name contains the lower-cased search, each with all its copies, and drops every copy of the others |
| `Roster.MatchingSearchAppend` | src/routes/coutrdle/index.tsx:92-94 | the filter keeps input order: filtering a concatenation concatenates the filtered parts |
| `Roster.MatchingSearchByName` | src/routes/coutrdle/index.tsx:92-94 | the entries with one common name are all kept, in order, when that name contains the search, and all dropped otherwise |
| `Roster.MatchingEmptySearch` | src/routes/coutrdle/index.tsx:92-94 | the empty search keeps the whole list, in order |
| `Roster.FirstMatch` | src/routes/coutrdle/index.tsx:115-117 | `find` returns the matching entry of lowest position, and returns nothing exactly when no entry matches |
| `Clues.ClueIndex` | src/routes/coutrdle/index.tsx:66-76 | every clue key has a position in the nine-key reveal order |
| `Clues.ClueIndexUnique` | src/routes/coutrdle/index.tsx:66-76 | no key appears twice in the reveal order |
| `Clues.RevealNext` | src/routes/coutrdle/index.tsx:78-82 | a prefix of the reveal order stays a prefix of it, and never grows past nine keys |
| `Clues.RevealTimesShowsPrefix` | src/routes/coutrdle/index.tsx:78-82 | from a shown prefix, k reveals show exactly the first min(shown + k, 9) keys of the order; once all nine are shown, further reveals change nothing |
| `Clues.ClueVisible` | src/routes/coutrdle/index.tsx:184-258 | `showedClues.includes(key)`: with a shown prefix, a clue is visible exactly when its position in the order is below the number of shown clues |
| `Clues.LanguageNames` | src/routes/coutrdle/index.tsx:234 | `Object.values(languages)` lists each language name, in entry order |
| `Clues.ClueCellFor` | src/routes/coutrdle/index.tsx:184-258 | a clue cell shows the target's attribute exactly when its key is shown and there is a target; an unshown key shows "?" |
| `Clues.HiddenClueIndependentOfTarget` | src/routes/coutrdle/index.tsx:184-258 | an unshown clue's cell is the same whichever country is the target, so nothing leaks |
| `Game.Suggestions` | src/routes/coutrdle/index.tsx:85-98 | the suggestions are sorted by common name and hold every copy of each roster country that is not guessed by common name and matches the search, and nothing else |
| `Game.Eligible` | src/routes/coutrdle/index.tsx:114-116 | a country is eligible exactly when no guessed country has its common name and it matches the query |
| `Game.SuggestionsKeepRosterOrder` | src/routes/coutrdle/index.tsx:90-97 | the suggestions with one common name are that name's roster entries in roster order when the name is unguessed and contains the search, and none otherwise |
| `Game.SuggestionsEmptySearch` | src/routes/coutrdle/index.tsx:90-97 | with the empty search the suggestions are the sorted list of all countries not guessed by common name |
| `Game.SuggestionsWithinEmptySearch` | src/routes/coutrdle/index.tsx:90-97 | any search lists a sub-multiset of what the empty search lists |
| `Game.Dropdown` | src/routes/coutrdle/index.tsx:326 | the dropdown shows the first min(n, 8) of the n suggestions |
| `Game.Resolve` | src/routes/coutrdle/index.tsx:113-117 | a resolved country is a roster member whose common name is not guessed and that matches the query |
| `Game.ResolveFindsFirstEligible` | src/routes/coutrdle/index.tsx:113-117 | the query resolves to the eligible country at the lowest roster position |
| `Game.ResolveNoneIffNoneEligible` | src/routes/coutrdle/index.tsx:113-122 | nothing resolves exactly when no roster country is eligible |
| `Game.ResolveEmptyQuery` | src/routes/coutrdle/index.tsx:113-117 | the empty query resolves to the first country not guessed by common name, or to nothing if there is none |
| `Game.ResolveOwnName` | src/routes/coutrdle/index.tsx:113-117 | the full common name of a country not yet guessed always resolves to some country |
| `Game.PickIndex` | src/routes/coutrdle/index.tsx:59-60 | `Math.floor(random * n)` is a valid index when n > 0, and 0 when n = 0 |
| `Game.PickIndexReachesEvery` | src/routes/coutrdle/index.tsx:59-60 | every index below n is drawn by some random value in [0, 1) |
| `Game.NewTarget` | src/routes/coutrdle/index.tsx:54-63 | the new target is a roster member whose common name differs from the excluded one; it is undefined exactly when there is no such member, including on an empty roster |
| `Game.NewTargetReachesEveryCandidate` | src/routes/coutrdle/index.tsx:54-63 | every roster member with another common name can become the target |
| `Game.Store.constructor` | src/routes/coutrdle/index.tsx:40-52 | the store starts with empty lists, no target and no clue shown |
| `Game.Store.SetNewCountryToGuess` | src/routes/coutrdle/index.tsx:54-63 | sets the target to `NewTarget` of the roster and changes nothing else |
| `Game.Store.ShowNextClue` | src/routes/coutrdle/index.tsx:65-83 | the shown clues become `RevealNext` of the old ones, and the store invariant holds |
| `Game.Store.FilterCountryList` | src/routes/coutrdle/index.tsx:85-98 | the suggestion list becomes `Suggestions` of the roster, the guesses and the search |
| `Game.OfficialNameGuessed` | src/routes/coutrdle/index.tsx:123-125 | a country already in the guesses is found; when nothing is found, appending the country keeps the guesses' official names distinct |
| `Game.AppendEligibleKeepsNamesDistinct` | src/routes/coutrdle/index.tsx:113-129 | appending a resolved country keeps the common names of the guesses distinct |
| `Game.Store.IsCountryGuessed` | src/routes/coutrdle/index.tsx:100-104 | with a target, a country counts as guessed exactly when its official name is the target's; with no target nothing does |
| `Game.Store.GuessCountry` | src/routes/coutrdle/index.tsx:106-136 | if nothing resolves or the country's official name was already guessed, nothing changes; otherwise that country is appended to the guesses, and one clue is revealed unless it is the target; the invariant holds |
| `Game.Store.Load` | src/routes/coutrdle/index.tsx:150-154 | the roster becomes the sorted data, the suggestions those of the empty search, the target `NewTarget` with no name excluded; guesses and clues are untouched |

## Left out

- Fetching the roster (src/routes/coutrdle/index.tsx:138-148): the request, its abort controller and the JSON parsing are network I/O. `Game.Store.Load` takes the decoded list as a parameter.
- `Math.random` (src/routes/coutrdle/index.tsx:60) is the parameter `rand`, required to lie in [0, 1) as `Math.random` promises.
- The alert on a correct guess and the console output (src/routes/coutrdle/index.tsx:111, 119, 132) are output only.
- Rendering. This covers the page markup, the `CountryGuessArea` component with its signals and key and click handlers (src/routes/coutrdle/index.tsx:157-345), and how JSX prints a clue value (joined lists, booleans). Only the eight-entry cut of the dropdown (`Game.Dropdown`) and the value or "?" of each clue cell (`Clues.ClueCellFor`) are modelled.
- `Text.Lower`: maps only the ASCII capitals A-Z. The full Unicode case mapping of `toLowerCase` is not modelled.
- `Text.NameLeq`: orders names by character code. The locale-aware collation of `localeCompare` is not modelled; the model relies only on its being a total order.
- Floating point: area is a real, population an integer, and `rand * n` is computed exactly. Rounding of JavaScript numbers is not modelled.
- `async`/`await` and the Qwik `$` wrappers: every operation runs to completion in turn, so the methods are synchronous.
- `Clues.RevealNext`: requires at most nine shown clues. With more, the page would append `undefined`, but no operation can reach such a state: the store invariant keeps the shown clues a prefix of the nine-key order.
- The currencies, subregion and flag emoji of a country are carried in `Roster.Country` but used by no operation of the engine.
- src/components/other/Cover.tsx, src/routes/layout.tsx and src/components/containers/Box.tsx are presentation, cache headers and layout, and are not part of this model.
