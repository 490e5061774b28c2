# Q'Histo recipe core in Dafny

Q'Histo is a small browser application for keeping cooking recipes. Its whole logic lives in one
object, `QHistoApp` (app.js). This project models the part of that object that computes rather than
draws:

- **the quantity formatter** `formatQuantity`. Count units (pincée, gousse, œuf, …) are shown as a
  fraction glyph or a rounded whole number. Grams, millilitres, centilitres and milligrams are
  promoted, and kilograms and litres demoted, at fixed thresholds. Other quantities are shown
  either as integers or with at most two decimals, trailing zeros removed;
- **scaling**. This covers the per-serving list computed when a recipe is saved, the rescaling
  done when a portion counter moves, and the ratio the shopping list applies;
- **saving a recipe**. The checks run in order; the record is built from the form; the collection
  is updated in place, either by replacing the edited recipe or by appending a new one;
- **the collection operations**: delete by id, search by name, and the decision an import takes.

Modules:

| file | module | contents |
|---|---|---|
| wrappers.dfy | `Wrappers` | `Option` (JavaScript `null`) and `Result` |
| text.dfy | `Text` | `trim`, `toLowerCase` and `includes` on strings |
| numerals.dfy | `Numerals` | `Math.round` and `toFixed`; the `/\.?0+$/` clean-up; integer rendering; a reader that turns a rendering back into its value |
| format.dfy | `Format` | `formatQuantity` and what it shows, branch by branch |
| recipes.dfy | `Recipes` | records, the editor form, the save checks, the per-serving list, scaling, find / filter / search |
| app.dfy | `App` | class `QHistoApp`: the collection, the current recipe, the counters and the shown lists, plus the handlers that update them |

Quantities are exact `real` numbers. `Math.round` rounds to the nearest integer with ties going
up (towards +∞); `toFixed` rounds the magnitude to the nearest integer or hundredth with ties
going away from zero, then writes the sign. Each rendering is related to a value
through `Numerals.ParseDecimal`: the string reads back as the quantity rounded.

A different design would rescale from the per-serving list stored with each recipe
(`unitIngredients`). The code does not: on a counter move (app.js:201-221) it multiplies the
*original* ingredient list by `newValue / original`, and never reads `unitIngredients` after
saving. The model follows the code. `Recipes.ScaledEqualsPerServingScaled` shows the two give
the same list when the counter moved is the count the recipe was divided by;
`Recipes.PortionsCounterDiffersFromPerServing` gives a recipe with 2 persons and 4 portions where
moving the portions counter does not give the per-person list scaled.

## Model

| member | source | states |
|---|---|---|
| Text.Trim | app.js:316 | `trim` removes leading and trailing whitespace only: the result is a slice of the input with only whitespace before and after it, and it neither starts nor ends with whitespace |
| Text.TrimEmptyIffBlank | app.js:109 | a string trims to the empty string exactly when every character is whitespace, so `!s.trim()` is true exactly for blank strings |
| Text.Lower | app.js:115 | `toLowerCase` keeps the length and maps each character by itself |
| Text.Includes | app.js:449 | `s.includes(t)` holds exactly when `t` occurs at some index of `s` |
| Numerals.RoundHalfUp | app.js:460 | `Math.round(x)` is the integer within one half of `x`, the larger one on a tie |
| Numerals.IntToString | app.js:460 | the text of an integer: a minus sign for a negative one, then its digits. No contract of its own; see IntToStringParses |
| Numerals.IntToStringParses | app.js:485 | a rendered integer has no decimal point and reads back as that integer |
| Numerals.FixedZeroParses | app.js:468 | `toFixed(0)` has no decimal point and reads back as the value rounded to an integer |
| Numerals.RoundedToZeroClose | app.js:468 | rounding to an integer moves a value by at most one half |
| Numerals.RoundedToTwo | app.js:465 | rounding to two places gives the nearest hundredth, ties away from zero, for both signs |
| Numerals.RoundedToTwoClose | app.js:465 | rounding to two places moves a value by at most half a hundredth |
| Numerals.RoundedToSymmetric | app.js:465 | helper that unfolds `RoundedTo`: a negative value rounds to the opposite of what its magnitude rounds to |
| Numerals.ToFixed | app.js:465 | `toFixed(f)`: a minus sign for a negative value, then its magnitude times 10^f rounded, with a point before the last `f` digits. No contract of its own; see FixedZeroParses, FixedTwoParts and TidyFixedTwo |
| Numerals.StripZeros | app.js:465 | `replace(/\.?0+$/, '')`. No contract of its own; see StripWithoutMatch and StripRemovesLeftmostMatch |
| Numerals.StripWithoutMatch | app.js:465 | when `/\.?0+$/` matches nowhere, `replace` leaves the string unchanged |
| Numerals.StripRemovesLeftmostMatch | app.js:465 | when `/\.?0+$/` matches, the clean-up removes exactly the leftmost match, as `replace` does |
| Numerals.TidyFixedTwo | app.js:465 | `toFixed(2)` followed by the clean-up is tidy: it never ends in `.`, and never ends in `0` after a point. It has at most two places and reads back as the value rounded to two places |
| Numerals.FixedTwoParts | app.js:465 | `toFixed(2)` of a non-negative value is whole digits, a point and two digits, and these encode the value rounded to hundredths |
| Numerals.TidyMagnitudeTwo | app.js:465 | the cleaned-up `toFixed(2)` of a non-negative value is unsigned and tidy, and reads back as the value rounded to two places |
| Numerals.StripTwoPlaces | app.js:465 | on `a.gg`, the clean-up keeps both digits when the last is not 0, drops the last zero when only it is 0, and drops the point with both digits when both are 0 |
| Numerals.TidyUnsignedTwo | app.js:465 | cleaning up `w.gg` leaves one of `w`, `w.g` and `w.gg`, tidy, with at most two places, starting with the first digit of `w` and worth `w + g/100` |
| Numerals.StripNegated | app.js:465 | the clean-up of a negative rendering is the minus sign followed by the clean-up of its magnitude |
| Format.FormatQuantity | app.js:447-489 | `formatQuantity`, branch by branch in the code's order. No contract of its own; see CountUnitFraction, CountUnitRounded, ConversionShown, StandardWhole and StandardDecimal |
| Format.IsCountUnit | app.js:448-449 | the lower-cased unit contains one of the eight count words. No contract of its own; see IncludesAny, EggIsCounted and ConvertibleUnitsAreNotCounted |
| Format.IncludesAny | app.js:449 | `some(u => s.includes(u))` holds exactly when some listed word occurs in `s` |
| Format.FirstFraction | app.js:454-458 | no glyph exactly when the quantity is inside no tolerance window; otherwise a glyph whose window contains it |
| Format.ConvertibleUnitsAreNotCounted | app.js:448-449 | none of g, kg, ml, L, cl and mg contains a count-unit word, so every conversion is reachable |
| Format.WindowsDisjoint | app.js:454-458 | no quantity is strictly within the tolerance of two different glyphs, so the order the glyphs are tried in never matters |
| Format.CountUnitFraction | app.js:451-458 | a count unit below 1 shows the glyph of the first window, in the order ¼ ⅓ ½ ⅔ ¾, whose strict tolerance contains the quantity |
| Format.CountUnitRounded | app.js:451-460 | a count unit outside every window, or at 1 or more, shows `Math.round(qty)` with no point, within one half of the quantity, then the unit |
| Format.FormatBranches | app.js:464-481 | helper that unfolds the formatter: outside count units, each exact unit and threshold gives its conversion text |
| Format.ConversionShown | app.js:464-481 | a conversion shows the quantity in its target unit. Promotions are rounded to two places and tidy; demotions are rounded to an integer with no point. The string then ends with a space and the target unit |
| Format.NoConversionApplies | app.js:464-481 | helper: when no conversion applies, none of the six guards holds |
| Format.StandardWhole | app.js:484-486 | an unconverted whole quantity prints as its integer, with no point, followed by a space and the unit |
| Format.StandardDecimal | app.js:488 | an unconverted fractional quantity prints tidy, with at most two places, within half a hundredth of the quantity, then its own unit |
| Format.OneToTwoPlaces | app.js:465 | `(1).toFixed(2)` cleaned up is `1` |
| Format.KilogramExample | app.js:464-466 | 1000 g is shown as `1 kg` |
| Format.GramExample | app.js:484-486 | 999 g is shown as `999 g` |
| Format.MillilitreExample | app.js:473-475 | 0.5 L is shown as `500 ml` |
| Format.EggIsCounted | app.js:448-449 | `œuf` is a count unit |
| Format.HalfEggExample | app.js:456 | half an egg is shown as `½ œuf` |
| Format.RoundedEggExample | app.js:460 | 0.4 egg, in no window, is shown as `0 œuf` |
| Recipes.Count | app.js:317-318 | `parseInt(..) \|\| null` is present exactly when the parse gave a non-zero number, and is then that number |
| Recipes.ReadIngredients | app.js:332-341 | one ingredient per row, in order: trimmed name, quantity and unit as read |
| Recipes.ReadSteps | app.js:355-363 | one step per row, in order, with description and time trimmed |
| Recipes.Rejection | app.js:316-352 | a form is saved exactly when its name is not blank, one count is non-zero, there is a row, and every row has a unit |
| Recipes.RejectionOrder | app.js:321-352 | each refusal happens exactly when all earlier checks passed and its own check fails: name, then counts, then no rows, then a missing unit |
| Recipes.NegativePersonsAccepted | app.js:317-326 | a negative number of persons passes the checks |
| Recipes.Basis | app.js:368 | the divisor of the per-serving list is persons when non-zero, else the portions, and is never 0 |
| Recipes.PerServing | app.js:366-369 | same length, names and units; each quantity divided by the basis, or unchanged without one |
| Recipes.PerServingRoundTrip | app.js:366-369 | scaling the per-serving list by the basis gives back the saved ingredients |
| Recipes.PerServingWithoutCount | app.js:368 | without a non-zero count, the per-serving list is the ingredient list itself |
| Recipes.PersonsWin | app.js:368 | when persons is given, the number of portions does not affect the per-serving list |
| Recipes.Scale | app.js:216-219 | same length, names and units; every quantity multiplied by the ratio |
| Recipes.ScaleByOne | app.js:410 | the default ratio 1 leaves the list unchanged |
| Recipes.ScaleTwice | app.js:216-219 | scaling by `a` and then by `b` is scaling by `a·b` |
| Recipes.ScaleToSameCount | app.js:207-219 | moving the counter back to the base count shows the original quantities |
| Recipes.PortionsCounterDiffersFromPerServing | app.js:207-219 | with 2 persons and 4 portions, the portions counter at 4 shows the saved 4 g, not the per-person 2 g scaled by 4 |
| Recipes.ScaledEqualsPerServingScaled | app.js:213-219 | scaling the saved list by `n / basis` equals scaling the per-serving list by `n` |
| Recipes.NextCount | app.js:207 | the new counter value is `max(1, current + delta)` |
| Recipes.ShoppingRatio | app.js:410-415 | the ratio times the recipe's persons is the persons counter, or times its portions is the portions counter, or is 1 |
| Recipes.FindIndex | app.js:386 | `findIndex` gives the first index whose id matches, and is absent exactly when no id matches |
| Recipes.Find | app.js:381 | `find` succeeds exactly when some recipe has the id, and returns the first recipe with it, the one at `FindIndex` |
| Recipes.Where | app.js:114-116 | `filter` keeps exactly the elements the test accepts and is never longer |
| Recipes.WhereAppend | app.js:114-116 | filtering a concatenation filters each part, so the kept elements stay in order |
| Recipes.WhereKeepsAll | app.js:227 | filtering with a test every element passes keeps the whole sequence |
| Recipes.WhereIdempotent | app.js:114-116 | filtering twice with the same test is filtering once |
| Recipes.WithoutId | app.js:227 | after a delete, a recipe remains exactly when it was there and its id differs |
| Recipes.DeleteAbsentId | app.js:227 | deleting an id that no recipe has changes nothing |
| Recipes.DeleteKeepsOrder | app.js:227 | the recipes that remain after a delete keep their relative order |
| Recipes.Search | app.js:108-117 | `searchRecipes`: all recipes for a blank term, else those whose name matches. No contract of its own; see SearchExact |
| Recipes.SearchExact | app.js:108-117 | a blank term shows every recipe; any other term shows exactly the recipes whose lower-cased name contains the lower-cased term |
| Recipes.NewRecord | app.js:371-383 | the record a save builds: trimmed name and time, counts with 0 as `null`, ingredients and steps as read, and their per-serving list. No contract of its own; see AcceptedFormWellFormed |
| Recipes.AcceptedFormWellFormed | app.js:315-383 | an accepted form gives a record with a non-empty name and a non-zero count. It has at least one ingredient, each with a unit, and a per-serving list that scales back to the ingredients. The id and date are the ones passed in |
| App.Render | app.js:192-199 | one line per ingredient, in order, with its name and its `formatQuantity` text |
| App.FlourExample | app.js:201-221 | 400 g of flour for 4 persons shows 600 g at 6 persons and 1 kg at 10 |
| App.QHistoApp.constructor | app.js:7-14 | the object starts on the stored collection, with no current recipe and nothing shown |
| App.QHistoApp.ShowEditor | app.js:47-48 | opening the editor sets the recipe being edited, or none for a new one |
| App.QHistoApp.ShowRecipe | app.js:60-65 | the recipe page becomes the current view. Showing an existing recipe sets its counters, for the non-zero counts only, along with its ingredient lines and the base copy. A missing or `null` id changes only the current id |
| App.QHistoApp.ShowShopping | app.js:72-76 | the shopping page becomes the current view, and the shopping list is built exactly as `RenderShoppingList` builds it |
| App.QHistoApp.SaveRecipe | app.js:315-394 | a refused form leaves the collection unchanged. An edit replaces only the record at the index of its id, keeping its `createdAt` and the length. A new recipe is appended under the id `now`, leaving the others untouched |
| App.QHistoApp.DeleteRecipe | app.js:224-230 | a confirmed delete keeps exactly the recipes with a different id, in order; an unconfirmed one changes nothing |
| App.QHistoApp.ShowRecipeList | app.js:42-45 | the list page shows the whole collection |
| App.QHistoApp.CancelEdit | app.js:396-400 | a confirmed cancel shows the list page with the whole collection; an unconfirmed one changes nothing |
| App.QHistoApp.SearchRecipes | app.js:108-117 | the recipe list shows the search result; the collection is not touched |
| App.QHistoApp.HandleImport | app.js:529-552 | the collection is replaced only by a file whose `recipes` is an array; in every other case it stays as it was |
| App.QHistoApp.ClearShopping | app.js:441-444 | `clearShopping` empties the shopping list, then calls `backFromShopping` (app.js:78-82). When the shopping page is the current view, `backFromShopping` shows the current recipe again: the recipe page becomes the view, and an existing recipe's counters, lines and base copy are reset as `ShowRecipe` sets them. Otherwise nothing else changes |
| App.QHistoApp.AdjustPortion | app.js:201-222 | for an existing current recipe, the counter moves to `max(1, current + delta)`, the other counter stays, and the lines show the base ingredients scaled by new count / base count. Otherwise nothing changes |
| App.QHistoApp.BaseCount | app.js:212 | the base count a counter is divided by is never 0 |
| App.QHistoApp.RenderShoppingList | app.js:403-434 | for an existing current recipe, the shopping list is its ingredients scaled by `ShoppingRatio`, shown through `formatQuantity`; otherwise it stays |

## Left out

- sw.js, the service worker, is not part of this model. It is offline caching through the browser's Cache and fetch APIs and has no computation to model.
- Drawing the page is left out: HTML templates, `escapeHtml`, the `active` class `showPage` moves between pages, building editor rows, and the checked state of shopping items. The values the page shows are kept as fields: the list, the counters, the lines and `currentView`.
- `localStorage` (`saveData`, `loadData`, the theme) and `exportData` are left out. The constructor takes the stored collection as a parameter. The JSON decoding in `loadData` has no guard against corrupt data, so no recovery is modelled.
- `Date.now()` and `new Date().toISOString()` are left out; `SaveRecipe` takes them as the parameters `now` and `nowIso`.
- `confirm` is a boolean parameter of `DeleteRecipe` and `CancelEdit`, and each `alert` is an outcome value. The confirm that comes before an import only opens the file chooser, so it is not modelled.
- The `FileReader` callback, `JSON.parse` and the check that `recipes` is present and an array are left out. They are reduced to `ImportFile`: no file, not JSON, or a `recipes` array or not. Imported elements are taken to be recipe records; the code does not check their shape.
- IEEE-754 behaviour is not modelled: NaN from `parseFloat` of an empty input, binary rounding in `toFixed` and `qty % 1`, and exponent renderings of very large or very small numbers. Quantities are exact reals.
- `App.QHistoApp.RenderShoppingList`: requires that a shown counter belongs to a non-zero count of the current recipe. The page only draws a counter for such a count. Without it, the code divides by `null` or 0 and gets Infinity or NaN, which exact reals cannot express.
- `App.QHistoApp.AdjustPortion`: requires that the counter of the requested kind is on the page, with a non-zero base count. The buttons exist only with that counter. Without it, `currentEl.textContent` throws.
- `Text.Lower`: maps only ASCII letters, Latin-1 capitals and Œ to lower case, not the whole Unicode case table. Recipe names and units outside those letters are compared without case folding.
- Editing a recipe whose id is no longer in the collection makes the code throw a `TypeError` on `find(..).createdAt`. `SaveRecipe` models this as the outcome `EditTargetMissing`, with nothing changed.
- `showMenu`, `showInfo`, `updateRecipeCount` and the theme only switch pages or draw text. None of them changes a modelled field, so they are left out. `backFromShopping` has no method of its own: it is modelled inside `ClearShopping`, which calls it.
