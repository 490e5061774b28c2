/**
  The state of the application object and the handlers that change it: saving the editor form,
  deleting, searching, importing, showing a recipe, moving a portion counter and building the
  shopping list. What the page shows is kept as values: the recipe list, the two counters, the
  ingredient lines and the shopping list.
 */
module App {
  import opened Wrappers
  import opened Numerals
  import opened Format
  import opened Recipes

  /** One line of the ingredient display or of the shopping list: a name and its quantity. */
  datatype Line = Line(name: string, amount: string)

  /** The lines shown for an ingredient list, each quantity through `formatQuantity`. */
  function Render(ings: seq<Ingredient>): (lines: seq<Line>)
    ensures |lines| == |ings|
    ensures forall i | 0 <= i < |ings| ::
      lines[i] == Line(ings[i].name, FormatQuantity(ings[i].quantity, ings[i].unit))
  {
    seq(|ings|, i requires 0 <= i < |ings| =>
      Line(ings[i].name, FormatQuantity(ings[i].quantity, ings[i].unit)))
  }

  /** Which counter a button moves: `'persons'` or `'quantity'`. */
  datatype Portion = Persons | Portions

  /** The page `currentView` names: none yet (`null`), a recipe (`'view'`) or its shopping list. */
  datatype View = NoView | RecipeView | ShoppingView

  /** The result of a save: the id stored, the alert shown, or the edited recipe not found. */
  datatype SaveOutcome = Saved(id: int) | Refused(reason: SaveError) | EditTargetMissing

  /**
    What the file chooser hands to the import: nothing, text that is not JSON or is JSON `null`
    (reading `recipes` from either throws), or other JSON whose `recipes` field is an array
    (`Some`) or is anything else or missing (`None`).
   */
  datatype ImportFile = NoFile | Unparsable | Parsed(recipes: Option<seq<Recipe>>)

  /** The result of an import, as the alert reports it. */
  datatype ImportOutcome = NothingChosen | Imported | InvalidFile | ImportError

  /** 400 g of flour for 4 persons: moving the counter to 6 shows 600 g, and to 10 shows 1 kg. */
  lemma {:induction false} FlourExample()
    ensures Render(Scale([Ingredient("farine", 400.0, "g")], 6.0 / 4.0)) == [Line("farine", "600" + " " + "g")]
    ensures Render(Scale([Ingredient("farine", 400.0, "g")], 10.0 / 4.0)) == [Line("farine", "1" + " " + "kg")]
  {
    var six := Scale([Ingredient("farine", 400.0, "g")], 6.0 / 4.0);
    assert six[0].quantity == 600.0;
    SixHundredGrams();
    var ten := Scale([Ingredient("farine", 400.0, "g")], 10.0 / 4.0);
    assert ten[0].quantity == 1000.0;
    KilogramExample();
  }

  lemma {:induction false} SixHundredGrams()
    ensures FormatQuantity(600.0, "g") == "600" + " " + "g"
  {
    ConvertibleUnitsAreNotCounted(GramsToKilograms);
    assert IsWhole(600.0) && (600.0).Floor == 600;
    assert NatDigits(600) == "600";
    assert IntToString(600) == "600";
  }

  class QHistoApp {
    /** The collection, in the order it is stored. */
    var recipes: seq<Recipe>
    /** The recipe being viewed or edited; `null` while a new recipe is written. */
    var currentRecipeId: Option<int>
    /** The last of the recipe page and the shopping page that was opened. */
    var currentView: View
    /** The copy of the last recipe shown, which the counters scale. */
    var baseRecipe: Option<Recipe>
    /** The number in the persons counter, when the page has that counter. */
    var personsShown: Option<int>
    /** The number in the portions counter, when the page has that counter. */
    var quantityShown: Option<int>
    /** The ingredient lines of the recipe page. */
    var display: seq<Line>
    /** The recipes the list page shows. */
    var listed: seq<Recipe>
    /** The ingredients of the last shopping list built, and the lines it shows. */
    var shoppingList: seq<Ingredient>
    var shoppingLines: seq<Line>

    /** A counter is on the page only for a count the recipe shown has. */
    ghost predicate Valid()
      reads this
    {
      && (personsShown.Some? ==> baseRecipe.Some? && Truthy(baseRecipe.value.persons))
      && (quantityShown.Some? ==> baseRecipe.Some? && Truthy(baseRecipe.value.quantity))
    }

    /** The counter a button of `kind` moves. */
    function Shown(kind: Portion): Option<int>
      reads this
    {
      match kind
      case Persons => personsShown
      case Portions => quantityShown
    }

    /** Starts on the stored collection, with nothing shown yet. */
    constructor(stored: seq<Recipe>)
      ensures Valid()
      ensures recipes == stored && currentRecipeId == None && currentView == NoView && baseRecipe == None
      ensures personsShown == None && quantityShown == None
      ensures display == [] && listed == [] && shoppingList == [] && shoppingLines == []
    {
      recipes := stored;
      currentRecipeId := None;
      currentView := NoView;
      baseRecipe := None;
      personsShown := None;
      quantityShown := None;
      display := [];
      listed := [];
      shoppingList := [];
      shoppingLines := [];
    }

    /** Opens the editor on a recipe, or on a new one for `None`. */
    method ShowEditor(id: Option<int>)
      modifies this`currentRecipeId
      ensures currentRecipeId == id
    {
      currentRecipeId := id;
    }

    /**
      Shows a recipe: the recipe page becomes the current view and, when the recipe exists, its
      counters (each only for a count it has), its ingredient lines, and a copy of it kept as
      the base the counters scale. The id is `null` when `backFromShopping` passes a current id
      that is `null`; no recipe has it.
     */
    method ShowRecipe(id: Option<int>)
      requires Valid()
      modifies this`currentRecipeId, this`currentView, this`baseRecipe, this`personsShown,
               this`quantityShown, this`display
      ensures Valid()
      ensures currentRecipeId == id && currentView == RecipeView
      ensures Find(recipes, id).None? ==>
        baseRecipe == old(baseRecipe) && personsShown == old(personsShown)
        && quantityShown == old(quantityShown) && display == old(display)
      ensures Find(recipes, id).Some? ==>
        && baseRecipe == Find(recipes, id)
        && personsShown == Count(baseRecipe.value.persons)
        && quantityShown == Count(baseRecipe.value.quantity)
        && display == Render(baseRecipe.value.ingredients)
    {
      currentRecipeId := id;
      currentView := RecipeView;
      var found := Find(recipes, id);
      if found.Some? {
        var r := found.value;
        personsShown := Count(r.persons);
        quantityShown := Count(r.quantity);
        display := Render(r.ingredients);
        baseRecipe := found;
      }
    }

    /**
      `saveRecipe`: a refused form or a missing edited recipe leaves the collection as it was;
      an edit replaces the recipe at the index of its id and keeps its creation date; a new
      recipe is appended under the id `now`. The list page then shows the collection.
     */
    method SaveRecipe(form: EditorForm, now: int, nowIso: string) returns (outcome: SaveOutcome)
      modifies this`recipes, this`listed
      ensures Rejection(form).Some? ==>
        outcome == Refused(Rejection(form).value) && recipes == old(recipes) && listed == old(listed)
      ensures Rejection(form).None? && Truthy(currentRecipeId)
              && FindIndex(old(recipes), currentRecipeId).None? ==>
        outcome == EditTargetMissing && recipes == old(recipes) && listed == old(listed)
      ensures Rejection(form).None? && Truthy(currentRecipeId)
              && FindIndex(old(recipes), currentRecipeId).Some? ==>
        var k := FindIndex(old(recipes), currentRecipeId).value;
        && outcome == Saved(currentRecipeId.value)
        && |recipes| == |old(recipes)|
        && recipes == old(recipes)[k := NewRecord(form, currentRecipeId.value, old(recipes)[k].createdAt)]
        && listed == recipes
      ensures Rejection(form).None? && !Truthy(currentRecipeId) ==>
        && outcome == Saved(now)
        && recipes == old(recipes) + [NewRecord(form, now, nowIso)]
        && listed == recipes
    {
      var rejection := Rejection(form);
      if rejection.Some? {
        return Refused(rejection.value);
      }
      if Truthy(currentRecipeId) {
        var index := FindIndex(recipes, currentRecipeId);
        if index.None? {
          return EditTargetMissing;
        }
        var k := index.value;
        var id := currentRecipeId.value;
        recipes := recipes[k := NewRecord(form, id, recipes[k].createdAt)];
        outcome := Saved(id);
      } else {
        recipes := recipes + [NewRecord(form, now, nowIso)];
        outcome := Saved(now);
      }
      listed := recipes;
    }

    /**
      `deleteRecipe`: once confirmed, keeps the recipes whose id differs, in their order, and
      the list page shows them; without confirmation nothing changes.
     */
    method DeleteRecipe(id: int, confirmed: bool)
      modifies this`recipes, this`listed
      ensures !confirmed ==> recipes == old(recipes) && listed == old(listed)
      ensures confirmed ==> recipes == WithoutId(old(recipes), id) && listed == recipes
    {
      if !confirmed {
        return;
      }
      recipes := WithoutId(recipes, id);
      listed := recipes;
    }

    /** `showRecipeList`: the list page shows the whole collection. */
    method ShowRecipeList()
      modifies this`listed
      ensures listed == recipes
    {
      listed := recipes;
    }

    /** `cancelEdit`: once confirmed, the list page is shown; without confirmation nothing changes. */
    method CancelEdit(confirmed: bool)
      modifies this`listed
      ensures confirmed ==> listed == recipes
      ensures !confirmed ==> listed == old(listed)
    {
      if confirmed {
        ShowRecipeList();
      }
    }

    /** `searchRecipes`: the list page shows what the search keeps; the collection is untouched. */
    method SearchRecipes(term: string)
      modifies this`listed
      ensures listed == Search(recipes, term)
    {
      listed := Search(recipes, term);
    }

    /**
      `handleImport`: the collection becomes the file's `recipes` when that is an array, and
      stays as it was for no file, a file that is not JSON, or one without such an array.
     */
    method HandleImport(file: ImportFile) returns (outcome: ImportOutcome)
      modifies this`recipes
      ensures file.Parsed? && file.recipes.Some? ==> recipes == file.recipes.value && outcome == Imported
      ensures !(file.Parsed? && file.recipes.Some?) ==> recipes == old(recipes)
      ensures file.NoFile? ==> outcome == NothingChosen
      ensures file.Unparsable? ==> outcome == ImportError
      ensures file.Parsed? && file.recipes.None? ==> outcome == InvalidFile
    {
      match file
      case NoFile =>
        outcome := NothingChosen;
      case Unparsable =>
        outcome := ImportError;
      case Parsed(imported) =>
        if imported.Some? {
          recipes := imported.value;
          outcome := Imported;
        } else {
          outcome := InvalidFile;
        }
    }

    /**
      `showShopping`: the shopping page becomes the current view and its list is built as
      `renderShoppingList` builds it.
     */
    method ShowShopping()
      requires CountersMatch()
      modifies this`currentView, this`shoppingList, this`shoppingLines
      ensures currentView == ShoppingView
      ensures Find(recipes, currentRecipeId).None? ==>
        shoppingList == old(shoppingList) && shoppingLines == old(shoppingLines)
      ensures Find(recipes, currentRecipeId).Some? ==>
        var r := Find(recipes, currentRecipeId).value;
        && shoppingList == Scale(r.ingredients, ShoppingRatio(personsShown, quantityShown, r))
        && shoppingLines == Render(shoppingList)
    {
      currentView := ShoppingView;
      RenderShoppingList();
    }

    /**
      `clearShopping`: the shopping list is emptied, then `backFromShopping` runs. When the
      shopping page is the current view, that shows the current recipe again, which resets its
      counters, its ingredient lines and the base copy; otherwise nothing else changes. The
      shopping lines already drawn stay.
     */
    method ClearShopping()
      requires Valid()
      modifies this`shoppingList, this`currentRecipeId, this`currentView, this`baseRecipe,
               this`personsShown, this`quantityShown, this`display
      ensures Valid()
      ensures shoppingList == [] && currentRecipeId == old(currentRecipeId)
      ensures old(currentView) == ShoppingView ==> currentView == RecipeView
      ensures old(currentView) != ShoppingView ==> currentView == old(currentView)
      ensures old(currentView) != ShoppingView || Find(recipes, currentRecipeId).None? ==>
        baseRecipe == old(baseRecipe) && personsShown == old(personsShown)
        && quantityShown == old(quantityShown) && display == old(display)
      ensures old(currentView) == ShoppingView && Find(recipes, currentRecipeId).Some? ==>
        && baseRecipe == Find(recipes, currentRecipeId)
        && personsShown == Count(baseRecipe.value.persons)
        && quantityShown == Count(baseRecipe.value.quantity)
        && display == Render(baseRecipe.value.ingredients)
    {
      shoppingList := [];
      if currentView == ShoppingView {
        ShowRecipe(currentRecipeId);
      }
    }

    /**
      `adjustPortion`: when the current recipe exists, the counter moves to max(1, current +
      delta) and the ingredient lines show the base recipe's ingredients scaled by the new count
      over the base count; otherwise nothing changes.
     */
    method AdjustPortion(kind: Portion, delta: int)
      requires Valid() && Shown(kind).Some?
      modifies this`personsShown, this`quantityShown, this`display
      ensures Valid()
      ensures Find(recipes, currentRecipeId).None? ==>
        personsShown == old(personsShown) && quantityShown == old(quantityShown) && display == old(display)
      ensures Find(recipes, currentRecipeId).Some? ==>
        && Shown(kind) == Some(NextCount(old(Shown(kind)).value, delta))
        && (kind == Persons ==> quantityShown == old(quantityShown))
        && (kind == Portions ==> personsShown == old(personsShown))
        && display == Render(Scale(baseRecipe.value.ingredients,
                                   Shown(kind).value as real / BaseCount(kind) as real))
    {
      if Find(recipes, currentRecipeId).None? {
        return;
      }
      var newValue := NextCount(Shown(kind).value, delta);
      if kind == Persons {
        personsShown := Some(newValue);
      } else {
        quantityShown := Some(newValue);
      }
      var ratio := newValue as real / BaseCount(kind) as real;
      display := Render(Scale(baseRecipe.value.ingredients, ratio));
    }

    /**
      The shopping ratio is defined: a shown counter belongs to a count the current recipe has.
      The page draws a counter only for such a count.
     */
    predicate CountersMatch()
      reads this
    {
      Find(recipes, currentRecipeId).Some? ==>
        var r := Find(recipes, currentRecipeId).value;
        && (personsShown.Some? ==> Truthy(r.persons))
        && (personsShown.None? && quantityShown.Some? ==> Truthy(r.quantity))
    }

    /** The base recipe's count for the counter of `kind`. */
    function BaseCount(kind: Portion): (n: int)
      requires Valid() && Shown(kind).Some?
      reads this
      ensures n != 0
    {
      match kind
      case Persons => baseRecipe.value.persons.value
      case Portions => baseRecipe.value.quantity.value
    }

    /**
      `renderShoppingList`: when the current recipe exists, the shopping list is its ingredients
      scaled by the persons counter over its persons, else by the portions counter over its
      portions, else left as they are.
     */
    method RenderShoppingList()
      requires CountersMatch()
      modifies this`shoppingList, this`shoppingLines
      ensures Find(recipes, currentRecipeId).None? ==>
        shoppingList == old(shoppingList) && shoppingLines == old(shoppingLines)
      ensures Find(recipes, currentRecipeId).Some? ==>
        var r := Find(recipes, currentRecipeId).value;
        && shoppingList == Scale(r.ingredients, ShoppingRatio(personsShown, quantityShown, r))
        && shoppingLines == Render(shoppingList)
    {
      var found := Find(recipes, currentRecipeId);
      if found.None? {
        return;
      }
      var r := found.value;
      var ratio := ShoppingRatio(personsShown, quantityShown, r);
      shoppingList := Scale(r.ingredients, ratio);
      shoppingLines := Render(shoppingList);
    }
  }
}
