# Objective list of the goal tracker, modelled in Dafny

The goal tracker keeps a list of objectives (`Objectif`: id, title, description,
due date, completion flag, priority flag, category). Each user action builds a new
list from the current one:

- adding an objective from the form, refused when the title is blank;
- flipping completion or priority on the entries with a given id;
- deleting the entries with a given id.

The screen shows three things derived from the list:

- a view filtered by status (`tous`, `actifs`, `completes`) and by a case-insensitive
  search over title and description;
- a statistics panel (total, completed, in progress, priority);
- a coloured badge per category.

The model is pure, like the component it follows: each operation is a Dafny function
from `seq<Objectif>` to `seq<Objectif>`, written with the same `map` and `filter` steps.
It is in four files:

- `lists.dfy` (module `Lists`): `Array.prototype.map` and `Array.prototype.filter` as
  `Map` and `Filter`, with a subsequence predicate and the facts about counting.
- `text.dfy` (module `Text`): `trim` with ECMAScript's whitespace set, lower-casing
  and `includes`, which is proved to hold exactly when the needle occurs at some index.
- `objectifs.dfy` (module `Objectifs`): the record, the operations, the view, the
  statistics and the colour lookup.
- `properties.dfy` (module `ObjectifsProperties`): the properties that relate several
  operations.

Ids are not assumed to be unique. In the source an id is `Date.now()`, so two
objectives added in the same millisecond share an id, and a toggle or delete acts on
every entry carrying it.

## Model

| member | source | states |
|---|---|---|
| `Objectifs.AjouterObjectif` | src/App.tsx:42-56 | a blank title (every character ECMAScript whitespace) leaves the list unchanged; otherwise the list grows by one, the old entries are an unchanged prefix, and the new last entry carries the given id, title, description, due date and category, not complete and not priority |
| `Text.TrimEmptyIffBlank` | src/App.tsx:44 | characterises `Text.Trim`, the model of `trim()` (`TrimEnd` after `TrimStart`): `trim()` returns the empty string exactly when every character is whitespace; otherwise the result neither starts nor ends with whitespace |
| `Text.TrimStart` | src/App.tsx:44 | the leading trim removes a blank prefix and nothing else: the result is a suffix of the input that is empty or starts with a non-whitespace character |
| `Text.TrimEnd` | src/App.tsx:44 | the trailing trim removes a blank suffix and nothing else: the result is a prefix of the input that is empty or ends with a non-whitespace character |
| `Lists.Map` | src/App.tsx:65-67 | `map` keeps the length, and element `i` of the result is the callback applied to element `i` |
| `Lists.Filter` | src/App.tsx:80 | `filter` returns an order-preserving subsequence of its input that holds exactly the elements passing the predicate, each as many times as it occurs in the input |
| `Lists.FilterLengthIsCount` | src/App.tsx:96-98 | the length of a filtered list is the number of positions of the input whose element passes |
| `Objectifs.ToggleComplete` | src/App.tsx:63-69 | length and order kept; entry `i` differs from the input at most in `complete`, which is negated exactly on the entries whose id matches |
| `ObjectifsProperties.ToggleCompleteTwice` | src/App.tsx:63-69 | toggling completion twice with one id gives back the original list |
| `ObjectifsProperties.ToggleCompleteAbsent` | src/App.tsx:63-69 | toggling completion for an id no entry carries returns the list unchanged |
| `Objectifs.TogglePriorite` | src/App.tsx:71-77 | length and order kept; entry `i` differs from the input at most in `priorite`, which is negated exactly on the entries whose id matches |
| `ObjectifsProperties.TogglePrioriteTwice` | src/App.tsx:71-77 | toggling priority twice with one id gives back the original list |
| `ObjectifsProperties.TogglePrioriteAbsent` | src/App.tsx:71-77 | toggling priority for an id no entry carries returns the list unchanged |
| `Objectifs.SupprimerObjectif` | src/App.tsx:79-81 | the result holds no entry with the id and every entry with another id as many times as the input does, is an order-preserving subsequence of the input, and is shorter by exactly the number of entries carrying the id |
| `ObjectifsProperties.SupprimerAbsent` | src/App.tsx:79-81 | a delete returns the list unchanged if and only if no entry carries the id |
| `ObjectifsProperties.SupprimerThenAbsent` | src/App.tsx:63-81 | after a delete, deleting or toggling completion with the same id changes nothing |
| `Objectifs.StatusView` | src/App.tsx:83-88 | the status stage keeps exactly the entries passing the chosen status, each as many times as in the list, in their original order |
| `ObjectifsProperties.StatusPartition` | src/App.tsx:83-88 | characterises `Objectifs.PassesStatus`, the model of the status callback: the `actifs` and `completes` views share no entry and their lengths add up to the list length; `tous` returns the whole list |
| `Objectifs.ObjectifsFiltres` | src/App.tsx:83-92 | an entry is shown exactly when it is in the list, passes the status filter and matches the search, and then as many times as it is in the list; the view is an order-preserving subsequence of the list |
| `Text.IncludesIffOccurs` | src/App.tsx:90-91 | characterises `Text.Includes`, the model of `includes`: it holds exactly when the needle occurs at some index of the haystack |
| `ObjectifsProperties.SearchIffSubstring` | src/App.tsx:89-92 | characterises `Objectifs.MatchesSearch`, the model of the search callback: an entry matches the search exactly when the lower-cased query occurs in the lower-cased title or in the lower-cased description |
| `ObjectifsProperties.SearchIgnoresCase` | src/App.tsx:89-92 | changing the case of ASCII letters in the query, the title or the description does not change whether an entry matches; a query matches exactly when its lower-cased form does |
| `ObjectifsProperties.EmptySearchKeepsAll` | src/App.tsx:89-92 | an empty query removes nothing from the status view; with `tous` the view is the whole list |
| `ObjectifsProperties.SearchExampleFound` | src/App.tsx:89-92 | the query "map" matches an entry titled "Mapping trip" and one described "see map" |
| `ObjectifsProperties.SearchExampleMissed` | src/App.tsx:89-92 | the query "map" does not match an entry titled "Code review" with an empty description |
| `Text.LowerChar` | src/App.tsx:90-91 | an upper-case ASCII letter becomes its lower-case partner (code point plus 32); every other character is unchanged |
| `Text.LowerIgnoresCase` | src/App.tsx:90-91 | strings that differ only in the case of ASCII letters have the same lower-cased form, and a string differs from its lower-cased form only in that way |
| `Text.LowerProperties` | src/App.tsx:90-91 | characterises `Text.Lower`, the model of `toLowerCase()` (`LowerChar` on each character): it keeps the length, leaves no upper-case ASCII letter and is idempotent |
| `Objectifs.Statistiques` | src/App.tsx:94-99 | `total` is the list length; `completes`, `enCours` and `prioritaires` are the numbers of positions holding a complete, an incomplete and a priority entry; `completes + enCours == total` and `prioritaires <= total` |
| `ObjectifsProperties.StatsMatchViews` | src/App.tsx:83-99 | `total`, `completes` and `enCours` are the lengths of the `tous`, `completes` and `actifs` views with an empty search |
| `ObjectifsProperties.AjouterStats` | src/App.tsx:44-56 | a successful add raises `total` and `enCours` by one and keeps `completes` and `prioritaires`; a refused add changes no figure |
| `ObjectifsProperties.ToggleCompleteStats` | src/App.tsx:63-69 | toggling completion keeps `total` and `prioritaires` |
| `ObjectifsProperties.TogglePrioriteStats` | src/App.tsx:71-77 | toggling priority keeps `total`, `completes` and `enCours` |
| `ObjectifsProperties.AddThenComplete` | src/App.tsx:42-92 | an objective added under any id, even one already in the list, is in the `actifs` view and not in the `completes` view; after toggling completion for that id it is in `completes` and not in `actifs` |
| `ObjectifsProperties.AddFreshThenComplete` | src/App.tsx:42-92 | when no entry already carries the id, toggling completion right after the add takes the new objective out of the `actifs` view altogether, and that view is again the one of the list before the add |
| `Objectifs.CategorieColor` | src/App.tsx:101-109 | a known category gets its table colour, and the grey default is returned exactly for the categories outside the table |
| `ObjectifsProperties.CouleursDistinctes` | src/App.tsx:101-109 | the four known categories have pairwise different colours, none of them grey, and the form's initial category `personnel` (App.tsx:33) gets the grey default |

## Left out

- Reading the list from `localStorage` and `JSON.parse` (App.tsx:26-29), and writing it back with `JSON.stringify` on every change (App.tsx:38-40): browser storage I/O. The code does not catch a parse error, so a corrupt store throws at start-up; the model has no load step at all.
- `Date.now()` as the id of a new objective (App.tsx:47): a clock read. The id is a parameter of `AjouterObjectif`.
- The React state hooks, the form-field resets after a submission (App.tsx:57-60), the `preventDefault` call (App.tsx:43) and all rendering (App.tsx:111-354), including the due-date display through `toLocaleDateString('fr-FR')`. These are user-interface plumbing and locale formatting.
- `Objectif.id` is a JavaScript number (a double). The model uses an unbounded integer, which covers the millisecond timestamps the code produces; fractional and NaN ids are not modelled.
- Text.Lower: lower-cases ASCII letters only. JavaScript's `toLowerCase` applies the full Unicode case mapping, which can also change a string's length. Search results for non-ASCII text can therefore differ from the browser.
- Strings are sequences of Unicode scalar values, not UTF-16 code units. This makes no difference to trimming, ASCII lower-casing or substring search on well-formed text; lone surrogates are not modelled.
- Objectifs.CategorieColor: looks up the four own keys of the colour table only. In JavaScript, `colors[categorie]` also finds names inherited from `Object.prototype` (such as `constructor`), and then returns that inherited value instead of the grey default. A category reaches the lookup from the form (one of its four options, or its initial value `personnel`) or from stored data.
