# AnimalBase winner rules, in Dafny

A model of `animalbase.js`, a small page that lists animals from a data file.
The user can filter the list by type, sort it by a column, star any record as
a favourite, and mark records as winners. The winner rules say: at most one
winner per type, and at most two winners in all. A click that would break
them opens a dialog. In that dialog the user either ignores the click or
replaces an incumbent winner by the clicked record.

The model has six modules:

- `Filtering` (`filtering.dfy`): `Array.prototype.filter` as `Where`, with the
  facts the rest uses. It keeps each matching element as often as it occurs,
  keeps collection order, gives equal counts for permutations, and changes
  its count predictably when one element is updated.
- `Records` (`records.dfy`): the `Animal` record and `split(" ")` with its
  inverse `Join`. Also `preapareObject` and its map over the data file, and
  `find` by name.
- `Ordering` (`ordering.dfy`): the settings, the compared value
  `animal[settings.sortBy]`, JavaScript's `<` on it, the comparator
  `sortByCriteria`, and what "sorted" means in each direction.
- `Projection` (`projection.dfy`): `prepareFilteredList`, and
  `prepareSortedList` as an in-place sort of an array.
- `WinnerRules` (`winner_rules.dfy`): the decision a winner click takes, the
  changes that unset, promote and replace make, and proofs that none of them
  breaks the winner rules.
- `App` (`app.dfy`): class `AnimalBase`. It holds `allAnimals` (an array),
  `settings`, and the open dialog, with one method per handler.
  `Valid()` holds between clicks: names are unique, the winner rules hold, and
  an open dialog still describes the collection. Every handler keeps
  `Valid()`.

Two things in the source shape the model:

- When the filter is `"all"`, the list being sorted is `allAnimals` itself. So
  every rebuild can reorder the collection, and the two incumbents the
  two-winner dialog offers are the first two winners in that order.
  `BuildList` says so: with `"all"`, the collection becomes the sorted view.
- The dialog therefore names records by name, not by position. Names are
  unique, so a name is as good as the object reference the source's closures
  hold.

Two details of the sort:

- `prepareSortedList` sorts `allAnimals` itself in place with
  `Array.prototype.sort` when the filter is `"all"`. The comparator never
  answers 0. For equal keys it answers `1 × direction`: 1 ascending, -1
  descending. So it is not a consistent comparator, and the engine may place
  records with equal keys anywhere.
- Every `sortDir` other than `"desc"` sorts ascending (animalbase.js:137-141).

## Model

| member | source | states |
|---|---|---|
| Records.PrepareObject | animalbase.js:52-63 | an entry gives a record exactly when its full name has at least three spaces; the record is parts 0, 2 and 3 of the full name split at every space, with the entry's age, `star` false and the prototype's `winner` false |
| Records.PrepareObjectRoundTrip | animalbase.js:52-63 | a full name glued from four or more space-free words is read back as name = word 0, desc = word 2, type = word 3 |
| Records.JoinSplit | animalbase.js:55 | gluing the parts of `split(" ")` with spaces gives the full name back |
| Records.SplitJoin | animalbase.js:55 | splitting space-free words glued by spaces gives the words back |
| Records.SplitLength | animalbase.js:55 | `split(" ")` gives one more part than there are spaces |
| Records.Split | animalbase.js:55 | `split` always gives at least one part, and no part holds the separator |
| Records.PrepareObjects | animalbase.js:45-50 | the map over the data file gives one record per entry, in order, each the one `preapareObject` gives, and fails exactly when some entry is refused |
| Records.Find | animalbase.js:185 | `find` gives the first index holding the name, or nothing when no record has it |
| Records.FindNamed | animalbase.js:193 | with unique names, the record `find` gives is the one record with that name |
| Filtering.Where | animalbase.js:125 | `filter` keeps only elements of the list that satisfy the test, and never makes the list longer; `WhereCount` and `WhereConcat` add that it keeps each as often as it occurs, in list order |
| Ordering.SortByCriteria | animalbase.js:136-151 | the comparator is -1 or 1; ascending, it is negative exactly when the first key is below the second; descending, exactly when it is not |
| Ordering.KeyOf | animalbase.js:146 | `animal[settings.sortBy]` is a number exactly for `age` and a flag exactly for `star` and `winner`; every other field is text |
| Ordering.LexLess | animalbase.js:146 | JavaScript's `<` on strings never holds between equal strings; `KeyLessOrder` adds transitivity and totality |
| Ordering.KeyLess | animalbase.js:146 | `<` on one field never holds between equal values |
| Ordering.Direction | animalbase.js:137-141 | the direction is -1 exactly for `"desc"` and 1 for every other `sortDir` |
| Ordering.KeyLessOrder | animalbase.js:146 | `<` on one field is irreflexive, transitive and total on different keys, for strings, numbers and flags |
| Ordering.CriteriaInOrder | animalbase.js:143-151 | a negative comparator answer lets the first record stand before the second, a positive one lets the second stand before the first |
| Ordering.InOrderTransitive | animalbase.js:143-151 | the order the comparator sorts into is transitive |
| Projection.FilteredContents | animalbase.js:122-131 | with `"all"`, the filtered list is the collection itself; otherwise it holds each record of the selected type as often as the collection does, and nothing else |
| Projection.Filtered | animalbase.js:122-131 | the filtered list is no longer than the collection and holds only records of the collection, of the selected type unless the filter is `"all"` |
| Projection.FilteredOrder | animalbase.js:122-131 | filtering keeps collection order: filtering a concatenation concatenates the filtered parts |
| Projection.PrepareSortedList | animalbase.js:133-154 | the array ends up a permutation of what it held, non-decreasing by the sort field when ascending and non-increasing when descending |
| Projection.Insert | animalbase.js:143 | one insertion step: the sorted prefix grows by one element and the array stays a permutation |
| WinnerRules.DecideCases | animalbase.js:190-218 | a click unsets exactly a winner. Otherwise it gives a conflict of one exactly when a winner of the same type exists. It gives a conflict of two exactly when none exists and there are two or more winners. It promotes exactly when neither holds |
| WinnerRules.Decide | animalbase.js:194-217 | a click unsets exactly a winner; a conflict of one needs a winner of the clicked record's type; a conflict of two needs none and two or more winners; a promotion needs none and fewer than two winners |
| WinnerRules.Winners | animalbase.js:203 | the winners list holds only winners of the collection |
| WinnerRules.SameKindWinners | animalbase.js:205-207 | the winners of one type are winners of the collection of that type, and no more than all winners |
| WinnerRules.WithWinner | animalbase.js:303-309 | record k becomes itself with the new winner field; every other record is as it was |
| WinnerRules.AfterRequest | animalbase.js:194-217 | a click changes no record but the clicked one, and of that one only the winner field, which ends true exactly when the click promoted it; a conflict leaves the collection as it was |
| WinnerRules.ReplaceNamed | animalbase.js:286-300 | a replace keeps the collection's length and every record's name, type and star; `ReplaceNamedEffect` says which winner fields change |
| WinnerRules.SingleConflictIncumbent | animalbase.js:203-212 | the incumbent of a conflict of one is the first winner of the clicked record's type in collection order |
| WinnerRules.DoubleConflictIncumbents | animalbase.js:203-215 | the incumbents of a conflict of two are the first two winners in collection order; with unique names they are different records |
| WinnerRules.RequestKeepsRules | animalbase.js:190-218 | unset, promote and opening a dialog all keep "at most two winners, at most one per type" |
| WinnerRules.ReplaceKeepsRules | animalbase.js:244-300 | replacing a winner by a non-winner keeps the rules when both share a type or the new one's type has no winner |
| WinnerRules.WithWinnerCounts | animalbase.js:303-309 | setting one winner field changes the number of winners, and of winners of each type, by exactly what that record contributes |
| WinnerRules.NoSameKindWinner | animalbase.js:205-207 | the winners of a type are none exactly when no winner in the collection has that type |
| WinnerRules.ToggleTwice | animalbase.js:190-218 | a promoted record clicked again is unset with no dialog, giving the collection back, and a third click promotes it again |
| WinnerRules.ReplaceNamedEffect | animalbase.js:286-309 | a replace clears only the incumbent's winner field and sets only the clicked record's; nothing else changes |
| WinnerRules.ScenarioSameType | animalbase.js:202-250 | two lions and a wolf: the first lion is promoted; the second lion meets it in a conflict of one that changes nothing, and replacing swaps them |
| WinnerRules.ScenarioTwoWinners | animalbase.js:213-300 | a cat and a dog are winners and a bird is clicked: the conflict of two names cat then dog, changes nothing, and replacing the cat leaves dog and bird as winners |
| App.StarFlippedOnly | animalbase.js:182-188 | flipping a star changes only the `star` field of the first record with that name, and nothing when the name is absent |
| App.StarFlipped | animalbase.js:186 | flipping a star keeps the collection's length and every record's name, type and winner field; `StarFlippedOnly` says which star changes |
| App.StarFlippedTwice | animalbase.js:182-188 | flipping the star of the same name twice gives the collection back |
| App.PermutationKeepsState | animalbase.js:115-119 | re-sorting the collection keeps names unique, the winner rules, and an open dialog's description |
| App.SameFieldsKeepState | animalbase.js:186 | changing a record but not its name, winner field or type (a star flip) keeps the state consistent |
| App.WinnerFlipKeepsNames | animalbase.js:303-309 | setting a winner field keeps names unique |
| App.ConflictOpensDialog | animalbase.js:209-231 | a conflict opens a dialog whose incumbents are winners of the right kind and whose clicked record is not a winner |
| App.ReplaceKeepsState | animalbase.js:244-300 | replacing a dialog's incumbent by its clicked record leaves names unique and the winner rules holding, with no dialog open |
| App.AnimalBase.constructor | animalbase.js:37-50 | the collection holds the parsed records with the given settings and no dialog. With the filter `"all"` the first rebuild has sorted them by those settings; with any other filter they keep data-file order |
| App.AnimalBase.BuildList | animalbase.js:115-119 | the view is the filtered records sorted by the settings. With `"all"`, the collection itself now has that order; otherwise it is unchanged |
| App.AnimalBase.SetFilter | animalbase.js:110-113 | only the filter setting changes, and the list is rebuilt from it |
| App.AnimalBase.SetSort | animalbase.js:176-180 | only the sort field and direction change, and the list is rebuilt from them |
| App.AnimalBase.SetStar | animalbase.js:182-188 | the star of the first record with that name flips and the list is rebuilt; an absent name changes nothing |
| App.AnimalBase.SetWinner | animalbase.js:190-218 | the outcome is the decision on the clicked record. Unset and promote change only it; a conflict changes no record and opens the dialog naming its incumbents. The list is rebuilt, and the rules keep holding |
| App.AnimalBase.CloseDialog | animalbase.js:234-242 | ignoring the dialog closes it and changes no record |
| App.AnimalBase.ClickRemoveOther | animalbase.js:245-250 | with the one-winner dialog open, the incumbent is replaced by the clicked record, the list is rebuilt and the dialog closes; otherwise nothing happens |
| App.AnimalBase.ClickRemoveA | animalbase.js:287-292 | with the two-winner dialog open, the first incumbent is replaced by the clicked record; otherwise nothing happens |
| App.AnimalBase.ClickRemoveB | animalbase.js:295-300 | with the two-winner dialog open, the second incumbent is replaced by the clicked record; otherwise nothing happens |
| App.AnimalBase.Replace | animalbase.js:245-250 | the shared replace step: the incumbent loses its winner field, the clicked record gains one, the dialog closes and the list is rebuilt |
| App.AnimalBase.RemoveWinner | animalbase.js:303-305 | only that record's winner field becomes false |
| App.AnimalBase.MakeWinner | animalbase.js:307-309 | only that record's winner field becomes true |

## Left out

- Rendering and event wiring are not modelled: `displayList`, `displayAnimal`, `registerButtons`, `filterAnimals`, and the class and `dataset` changes in `sortAnimals`. The list a rebuild would display is returned as `view` instead. It is `[]` when nothing is rebuilt.
- Loading is not modelled: `fetch` and `response.json` in `loadJSON` are I/O. The constructor takes the parsed entries and the settings in force when they arrive. These are the defaults (animalbase.js:17-21), unless a filter or sort button was clicked while the file was loading.
- `console.log` and the adding and removing of dialog listeners are not modelled. The open dialog is the `dialog` field (`Idle`, `AwaitingSingle`, `AwaitingTwo`).
- App.AnimalBase.SetWinner: refuses a click (`Busy`) while a dialog is open. The source has no such guard and relies on the modal dialog; a second click there would leave closures acting on stale incumbents.
- App.AnimalBase.constructor: requires unique names. The data model identifies records by name; the source does not check it.
- Records.PrepareObject: refuses a full name with fewer than four parts. The source builds a record with `undefined` fields instead. Records.PrepareObjects refuses the whole file when one entry is refused.
- Records.Find: a name that no record has makes the source throw a TypeError before anything changes. The model answers `NotFound` / `found == false` and changes nothing.
- Projection.PrepareSortedList: does not fix where records with equal keys end up. The comparator answers `1 × direction` for equal keys (1 ascending, -1 descending), so it is not a consistent comparator and the engine places equal keys freely. The model is one insertion sort.
- Ordering.KeyLessOrder: `age` is an integer. Floating-point ages, `<` across mixed types, and a `sortBy` naming no field are not modelled.
- Ordering.LexLess: compares characters by code point. JavaScript compares UTF-16 code units, which differ only for characters outside the Basic Multilingual Plane.
- Records are values inside the array, not shared objects. The source's filtered list shares record objects with `allAnimals`. Every change rebuilds the list, so the sharing is never observed.
- App.AnimalBase.Replace: closes the dialog before rebuilding the list, where the source closes it after. Rebuilding does not read the dialog.
