/**
  The recipe records and the computations on them that change nothing: reading the editor form,
  the checks a save runs, the per-serving list, scaling, the ratio the shopping list uses, and
  finding, filtering and searching the collection.
 */
module Recipes {
  import opened Wrappers
  import opened Text

  datatype Ingredient = Ingredient(name: string, quantity: real, unit: string)

  datatype Step = Step(description: string, time: string)

  /**
    A stored recipe. `persons` and `quantity` are absent (`null`) or non-zero; `unitIngredients`
    is the ingredient list per person, or per portion, computed when the recipe is saved.
   */
  datatype Recipe = Recipe(
    id: int,
    name: string,
    persons: Option<int>,
    quantity: Option<int>,
    time: string,
    ingredients: seq<Ingredient>,
    unitIngredients: seq<Ingredient>,
    steps: seq<Step>,
    createdAt: string)

  /** An ingredient row of the editor: its two inputs and the value of its unit selector. */
  datatype IngredientRow = IngredientRow(name: string, quantity: real, unit: string)

  /** A step row of the editor: its text area and its time input. */
  datatype StepRow = StepRow(description: string, time: string)

  /**
    What a save reads from the editor. `persons` and `quantity` are what `parseInt` made of the
    two count inputs, `None` when it found no number.
   */
  datatype EditorForm = EditorForm(
    name: string,
    persons: Option<int>,
    quantity: Option<int>,
    time: string,
    ingredients: seq<IngredientRow>,
    steps: seq<StepRow>)

  /** The reasons a save is refused, each shown to the user in an alert. */
  datatype SaveError = MissingName | MissingCount | NoIngredients | MissingUnit

  /** A count that JavaScript treats as true: a number other than 0. */
  predicate Truthy(n: Option<int>) {
    n.Some? && n.value != 0
  }

  /** `parseInt(..) || null`: a parsed count, with 0 turned into `null`. */
  function Count(parsed: Option<int>): (r: Option<int>)
    ensures r.Some? <==> Truthy(parsed)
    ensures r.Some? ==> r == parsed
  {
    if Truthy(parsed) then parsed else None
  }

  /** The ingredient list a save builds from the rows: names trimmed, quantity and unit as read. */
  function ReadIngredients(rows: seq<IngredientRow>): (ings: seq<Ingredient>)
    ensures |ings| == |rows|
    ensures forall i | 0 <= i < |rows| ::
      ings[i] == Ingredient(Trim(rows[i].name), rows[i].quantity, rows[i].unit)
  {
    seq(|rows|, i requires 0 <= i < |rows| =>
      Ingredient(Trim(rows[i].name), rows[i].quantity, rows[i].unit))
  }

  /** The step list a save builds from the rows: both fields trimmed. */
  function ReadSteps(rows: seq<StepRow>): (steps: seq<Step>)
    ensures |steps| == |rows|
    ensures forall i | 0 <= i < |rows| ::
      steps[i] == Step(Trim(rows[i].description), Trim(rows[i].time))
  {
    seq(|rows|, i requires 0 <= i < |rows| => Step(Trim(rows[i].description), Trim(rows[i].time)))
  }

  /**
    The checks of a save, in the order it runs them; `None` when the form is saved. The
    ingredient list it checks has one entry per row and the unit as selected, so the last two
    checks read the rows.
   */
  function Rejection(form: EditorForm): (r: Option<SaveError>)
    ensures r == None <==> Acceptable(form)
  {
    var name := Trim(form.name);
    var persons := Count(form.persons);
    var quantity := Count(form.quantity);
    var rows := form.ingredients;
    if name == [] then Some(MissingName)
    else if persons.None? && quantity.None? then Some(MissingCount)
    else if |rows| == 0 then Some(NoIngredients)
    else if exists i | 0 <= i < |rows| :: rows[i].unit == [] then Some(MissingUnit)
    else None
  }

  /**
    What a saved form has: a name that is not blank, a non-zero number of persons or of portions,
    and at least one ingredient row, every one with a unit. Nothing else is checked.
   */
  ghost predicate Acceptable(form: EditorForm) {
    && !IsBlank(form.name)
    && (Truthy(form.persons) || Truthy(form.quantity))
    && |form.ingredients| > 0
    && forall i | 0 <= i < |form.ingredients| :: form.ingredients[i].unit != []
  }

  /** The refusals come in order: each one only when every earlier check has passed. */
  lemma {:induction false} RejectionOrder(form: EditorForm)
    ensures Rejection(form) == Some(MissingName) <==> IsBlank(form.name)
    ensures Rejection(form) == Some(MissingCount)
        <==> !IsBlank(form.name) && !Truthy(form.persons) && !Truthy(form.quantity)
    ensures Rejection(form) == Some(NoIngredients)
        <==> !IsBlank(form.name) && (Truthy(form.persons) || Truthy(form.quantity))
             && form.ingredients == []
    ensures Rejection(form) == Some(MissingUnit)
        <==> !IsBlank(form.name) && (Truthy(form.persons) || Truthy(form.quantity))
             && form.ingredients != []
             && exists i | 0 <= i < |form.ingredients| :: form.ingredients[i].unit == []
  {
    TrimEmptyIffBlank(form.name);
  }

  /** A negative number of persons passes the checks: only a zero or missing count is refused. */
  lemma {:induction false} NegativePersonsAccepted(form: EditorForm)
    requires !IsBlank(form.name) && form.persons.Some? && form.persons.value < 0
    requires |form.ingredients| > 0
    requires forall i | 0 <= i < |form.ingredients| :: form.ingredients[i].unit != []
    ensures Rejection(form) == None
  {
  }

  /** The count the per-serving list divides by: persons when given, else portions, else none. */
  function Basis(persons: Option<int>, quantity: Option<int>): (b: Option<int>)
    ensures b.Some? ==> b.value != 0
    ensures Truthy(persons) ==> b == persons
    ensures !Truthy(persons) ==> b == Count(quantity)
  {
    if Truthy(persons) then persons else if Truthy(quantity) then quantity else None
  }

  /** The `unitIngredients` list of a save: every quantity divided by persons, else by portions. */
  function PerServing(ings: seq<Ingredient>, persons: Option<int>, quantity: Option<int>)
    : (r: seq<Ingredient>)
    ensures |r| == |ings|
    ensures forall i | 0 <= i < |ings| :: r[i].name == ings[i].name && r[i].unit == ings[i].unit
    ensures forall i | 0 <= i < |ings| ::
      r[i].quantity == match Basis(persons, quantity)
                       case Some(b) => ings[i].quantity / b as real
                       case None => ings[i].quantity
  {
    seq(|ings|, i requires 0 <= i < |ings| =>
      ings[i].(quantity :=
        if Truthy(persons) then ings[i].quantity / persons.value as real
        else if Truthy(quantity) then ings[i].quantity / quantity.value as real
        else ings[i].quantity))
  }

  /** Every quantity multiplied by `ratio`; names, units and order kept. */
  function Scale(ings: seq<Ingredient>, ratio: real): (r: seq<Ingredient>)
    ensures |r| == |ings|
    ensures forall i | 0 <= i < |ings| ::
      r[i].name == ings[i].name && r[i].unit == ings[i].unit && r[i].quantity == ings[i].quantity * ratio
  {
    seq(|ings|, i requires 0 <= i < |ings| => ings[i].(quantity := ings[i].quantity * ratio))
  }

  /** Scaling the per-serving list back up by the count it was divided by gives the list saved. */
  lemma {:induction false} PerServingRoundTrip(ings: seq<Ingredient>, persons: Option<int>, quantity: Option<int>)
    requires Basis(persons, quantity).Some?
    ensures Scale(PerServing(ings, persons, quantity), Basis(persons, quantity).value as real) == ings
  {
    var b := Basis(persons, quantity).value as real;
    var r := Scale(PerServing(ings, persons, quantity), b);
    forall i | 0 <= i < |ings| ensures r[i] == ings[i] {
      DivideThenMultiply(ings[i].quantity, b);
    }
  }

  lemma {:induction false} DivideThenMultiply(x: real, b: real)
    requires b != 0.0
    ensures x / b * b == x
  {
  }

  /** Without a count the per-serving list is the ingredient list itself. */
  lemma {:induction false} PerServingWithoutCount(ings: seq<Ingredient>, persons: Option<int>, quantity: Option<int>)
    requires !Truthy(persons) && !Truthy(quantity)
    ensures PerServing(ings, persons, quantity) == ings
  {
  }

  /** When both counts are given, persons wins: the number of portions plays no part. */
  lemma {:induction false} PersonsWin(ings: seq<Ingredient>, persons: Option<int>, quantity: Option<int>)
    requires Truthy(persons)
    ensures PerServing(ings, persons, quantity) == PerServing(ings, persons, None)
  {
  }

  /** Scaling by 1 changes nothing. */
  lemma {:induction false} ScaleByOne(ings: seq<Ingredient>)
    ensures Scale(ings, 1.0) == ings
  {
  }

  /** Scaling twice is scaling once by the product of the ratios. */
  lemma {:induction false} ScaleTwice(ings: seq<Ingredient>, a: real, b: real)
    ensures Scale(Scale(ings, a), b) == Scale(ings, a * b)
  {
    var r, s := Scale(Scale(ings, a), b), Scale(ings, a * b);
    forall i | 0 <= i < |ings| ensures r[i] == s[i] {
      MultiplyTwice(ings[i].quantity, a, b);
    }
  }

  lemma {:induction false} MultiplyTwice(x: real, a: real, b: real)
    ensures x * a * b == x * (a * b)
  {
  }

  /**
    Scaling the saved list by `n / b`, where `b` is the count the per-serving list was divided
    by, gives the per-serving list scaled by `n`.
   */
  lemma {:induction false} ScaledEqualsPerServingScaled(ings: seq<Ingredient>, persons: Option<int>,
                                                         quantity: Option<int>, n: real)
    requires Basis(persons, quantity).Some?
    ensures Scale(ings, n / Basis(persons, quantity).value as real)
         == Scale(PerServing(ings, persons, quantity), n)
  {
    var b := Basis(persons, quantity).value as real;
    var r, s := Scale(ings, n / b), Scale(PerServing(ings, persons, quantity), n);
    forall i | 0 <= i < |ings| ensures r[i] == s[i] {
      RatioOrder(ings[i].quantity, n, b);
    }
  }

  lemma {:induction false} RatioOrder(x: real, n: real, b: real)
    requires b != 0.0
    ensures x * (n / b) == x / b * n
  {
  }

  /**
    With 2 persons and 4 portions, moving the portions counter to 4 keeps the saved 4 g, while
    the per-person list scaled by 4 would give 8 g: the counter's ratio uses the saved list.
   */
  lemma {:induction false} PortionsCounterDiffersFromPerServing()
    ensures Scale([Ingredient("sel", 4.0, "g")], 4.0 / 4.0) == [Ingredient("sel", 4.0, "g")]
    ensures Scale(PerServing([Ingredient("sel", 4.0, "g")], Some(2), Some(4)), 4.0)
         == [Ingredient("sel", 8.0, "g")]
  {
    var a := Scale([Ingredient("sel", 4.0, "g")], 4.0 / 4.0);
    assert a[0] == Ingredient("sel", 4.0, "g");
    var p := PerServing([Ingredient("sel", 4.0, "g")], Some(2), Some(4));
    assert p[0] == Ingredient("sel", 2.0, "g");
    var b := Scale(p, 4.0);
    assert b[0] == Ingredient("sel", 8.0, "g");
  }

  /** `Math.max(1, current + delta)`: the new value of a portion counter. */
  function NextCount(current: int, delta: int): (n: int)
    ensures n >= 1 && n >= current + delta
    ensures n == current + delta || n == 1
  {
    if current + delta > 1 then current + delta else 1
  }

  /**
    The ratio the shopping list scales by: the persons counter over the recipe's persons when
    that counter is shown, else the portions counter over its portions, else 1.
   */
  function ShoppingRatio(personsShown: Option<int>, quantityShown: Option<int>, r: Recipe): (ratio: real)
    requires personsShown.Some? ==> Truthy(r.persons)
    requires personsShown.None? && quantityShown.Some? ==> Truthy(r.quantity)
    ensures personsShown.Some? ==> ratio * r.persons.value as real == personsShown.value as real
    ensures personsShown.None? && quantityShown.Some?
        ==> ratio * r.quantity.value as real == quantityShown.value as real
    ensures personsShown.None? && quantityShown.None? ==> ratio == 1.0
  {
    if personsShown.Some? then personsShown.value as real / r.persons.value as real
    else if quantityShown.Some? then quantityShown.value as real / r.quantity.value as real
    else 1.0
  }

  /**
    The record a save builds from an accepted form: trimmed name and time, the counts with 0
    turned into `null`, the ingredients and steps as read, and their per-serving list.
   */
  function NewRecord(form: EditorForm, id: int, createdAt: string): Recipe {
    var persons := Count(form.persons);
    var quantity := Count(form.quantity);
    var ings := ReadIngredients(form.ingredients);
    Recipe(id, Trim(form.name), persons, quantity, Trim(form.time), ings,
           PerServing(ings, persons, quantity), ReadSteps(form.steps), createdAt)
  }

  /**
    What every record saved through the editor satisfies: a non-empty name, a non-zero count,
    at least one ingredient, every one with a unit, and a per-serving list that scales back
    up to the ingredients.
   */
  ghost predicate WellFormed(r: Recipe) {
    && r.name != []
    && Basis(r.persons, r.quantity).Some?
    && |r.ingredients| > 0
    && (forall i | 0 <= i < |r.ingredients| :: r.ingredients[i].unit != [])
    && Scale(r.unitIngredients, Basis(r.persons, r.quantity).value as real) == r.ingredients
  }

  /**
    A form the checks accept (`Rejection(form) == None`, which is `Acceptable(form)`) gives a
    well-formed record, with the id and date it was given.
   */
  lemma {:induction false} AcceptedFormWellFormed(form: EditorForm, id: int, createdAt: string)
    requires Acceptable(form)
    ensures WellFormed(NewRecord(form, id, createdAt))
    ensures NewRecord(form, id, createdAt).id == id
    ensures NewRecord(form, id, createdAt).createdAt == createdAt
  {
    var r := NewRecord(form, id, createdAt);
    TrimEmptyIffBlank(form.name);
    PerServingRoundTrip(r.ingredients, r.persons, r.quantity);
    assert Basis(r.persons, r.quantity) == Basis(form.persons, form.quantity);
    forall i | 0 <= i < |r.ingredients| ensures r.ingredients[i].unit != [] {
      assert r.ingredients[i].unit == form.ingredients[i].unit;
    }
  }

  /** Setting the counter back to the count the base recipe has shows the original quantities. */
  lemma {:induction false} ScaleToSameCount(ings: seq<Ingredient>, b: int)
    requires b != 0
    ensures Scale(ings, b as real / b as real) == ings
  {
    assert b as real / b as real == 1.0;
    ScaleByOne(ings);
  }

  /** The index of the first recipe with the id, as `findIndex` computes it (`None` for -1). */
  function FindIndex(rs: seq<Recipe>, id: Option<int>): (k: Option<nat>)
    ensures k.Some? ==> k.value < |rs| && Some(rs[k.value].id) == id
    ensures k.Some? ==> forall j | 0 <= j < k.value :: Some(rs[j].id) != id
    ensures k.None? ==> forall j | 0 <= j < |rs| :: Some(rs[j].id) != id
  {
    if rs == [] then None
    else if Some(rs[0].id) == id then Some(0)
    else
      match FindIndex(rs[1..], id)
      case None => None
      case Some(k) => Some(k + 1)
  }

  /** `find`: the first recipe with the id. */
  function Find(rs: seq<Recipe>, id: Option<int>): (r: Option<Recipe>)
    ensures r.Some? <==> exists j | 0 <= j < |rs| :: Some(rs[j].id) == id
    ensures r.Some? ==> r.value in rs && Some(r.value.id) == id
    ensures r.Some? ==> FindIndex(rs, id).Some? && r.value == rs[FindIndex(rs, id).value]
  {
    match FindIndex(rs, id)
    case None => None
    case Some(k) => Some(rs[k])
  }

  /** `filter`: the recipes `keep` accepts, in their order. */
  function Where(rs: seq<Recipe>, keep: Recipe -> bool): (r: seq<Recipe>)
    ensures |r| <= |rs|
    ensures forall x :: x in r <==> x in rs && keep(x)
  {
    if rs == [] then []
    else if keep(rs[0]) then [rs[0]] + Where(rs[1..], keep)
    else Where(rs[1..], keep)
  }

  /** Filtering a concatenation filters each part: the order of what is kept is unchanged. */
  lemma {:induction false} WhereAppend(a: seq<Recipe>, b: seq<Recipe>, keep: Recipe -> bool)
    ensures Where(a + b, keep) == Where(a, keep) + Where(b, keep)
  {
    if a != [] {
      assert (a + b)[0] == a[0];
      assert (a + b)[1..] == a[1..] + b;
      WhereAppend(a[1..], b, keep);
    } else {
      assert a + b == b;
    }
  }

  /** Filtering what every element passes keeps everything. */
  lemma {:induction false} WhereKeepsAll(rs: seq<Recipe>, keep: Recipe -> bool)
    requires forall j | 0 <= j < |rs| :: keep(rs[j])
    ensures Where(rs, keep) == rs
  {
    if rs != [] {
      WhereKeepsAll(rs[1..], keep);
      assert [rs[0]] + rs[1..] == rs;
    }
  }

  /** Filtering twice with the same test is filtering once. */
  lemma {:induction false} WhereIdempotent(rs: seq<Recipe>, keep: Recipe -> bool)
    ensures Where(Where(rs, keep), keep) == Where(rs, keep)
  {
    var r := Where(rs, keep);
    forall j | 0 <= j < |r| ensures keep(r[j]) {
      assert r[j] in r;
    }
    WhereKeepsAll(r, keep);
  }

  /** The collection after `deleteRecipe(id)`: every recipe whose id differs. */
  function WithoutId(rs: seq<Recipe>, id: int): (r: seq<Recipe>)
    ensures forall x :: x in r <==> x in rs && x.id != id
  {
    Where(rs, (x: Recipe) => x.id != id)
  }

  /** Deleting an id no recipe has leaves the collection exactly as it was. */
  lemma {:induction false} DeleteAbsentId(rs: seq<Recipe>, id: int)
    requires forall j | 0 <= j < |rs| :: rs[j].id != id
    ensures WithoutId(rs, id) == rs
  {
    WhereKeepsAll(rs, (x: Recipe) => x.id != id);
  }

  /** Deleting from a concatenation deletes from each part, so the survivors keep their order. */
  lemma {:induction false} DeleteKeepsOrder(a: seq<Recipe>, b: seq<Recipe>, id: int)
    ensures WithoutId(a + b, id) == WithoutId(a, id) + WithoutId(b, id)
  {
    WhereAppend(a, b, (x: Recipe) => x.id != id);
  }

  /** A recipe matches a search term: its lower-cased name contains the lower-cased term. */
  predicate NameMatches(r: Recipe, term: string) {
    Includes(Lower(r.name), Lower(term))
  }

  /**
    `searchRecipes(term)`: every recipe when the trimmed term is empty, else the recipes whose
    name matches, in order. Only the blank test trims; the match uses the term as typed.
   */
  function Search(rs: seq<Recipe>, term: string): seq<Recipe>
  {
    if Trim(term) == [] then rs else Where(rs, (x: Recipe) => NameMatches(x, term))
  }

  /** The search keeps exactly the recipes whose name matches, or all of them for a blank term. */
  lemma {:induction false} SearchExact(rs: seq<Recipe>, term: string)
    ensures IsBlank(term) ==> Search(rs, term) == rs
    ensures !IsBlank(term) ==> forall x :: x in Search(rs, term) <==> x in rs && NameMatches(x, term)
  {
  }
}
