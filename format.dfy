/**
  `formatQuantity(qty, unit)`: the text shown for an ingredient amount. Units counted in whole
  items get a fraction glyph or a rounded integer; mass and volume units are promoted or demoted
  at fixed thresholds; anything else shows the number itself, with at most two decimals.
 */
module Format {
  import opened Wrappers
  import opened Text
  import opened Numerals

  /** The units that cannot be divided, in the order the source lists them. */
  const CountUnits: seq<string> :=
    ["pinc\U{E9}e", "gousse", "\U{153}uf", "oeuf", "pi\U{E8}ce", "tranche", "feuille", "branche"]

  /** `words.some(u => s.includes(u))`, checked in order. */
  function IncludesAny(s: string, words: seq<string>): (b: bool)
    ensures b <==> exists i | 0 <= i < |words| :: Includes(s, words[i])
  {
    if words == [] then false
    else if Includes(s, words[0]) then true
    else
      var b := IncludesAny(s, words[1..]);
      assert forall i | 1 <= i < |words| :: words[i] == words[1..][i - 1];
      b
  }

  /** A unit counted in whole items: its lower-cased text contains one of the count units. */
  predicate IsCountUnit(unit: string) {
    IncludesAny(Lower(unit), CountUnits)
  }

  /** A fraction glyph, shown for quantities strictly within `tolerance` of `center`. */
  datatype Fraction = Fraction(glyph: string, center: real, tolerance: real)

  /** The glyphs, in the order they are tried. */
  const Fractions: seq<Fraction> := [
    Fraction("\U{BC}", 0.25, 0.01),
    Fraction("\U{2153}", 0.33, 0.05),
    Fraction("\U{BD}", 0.5, 0.01),
    Fraction("\U{2154}", 0.67, 0.05),
    Fraction("\U{BE}", 0.75, 0.01)
  ]

  function Abs(x: real): real {
    if x < 0.0 then -x else x
  }

  /** `Math.abs(qty - center) < tolerance`. */
  predicate Near(q: real, fr: Fraction) {
    Abs(q - fr.center) < fr.tolerance
  }

  /** The glyph of the first fraction of `table` that `q` is near, if any. */
  function FirstFraction(q: real, table: seq<Fraction>): (g: Option<string>)
    ensures g.None? <==> forall i | 0 <= i < |table| :: !Near(q, table[i])
    ensures g.Some? ==> exists i | 0 <= i < |table| :: Near(q, table[i]) && g.value == table[i].glyph
  {
    if table == [] then None
    else if Near(q, table[0]) then Some(table[0].glyph)
    else
      var g := FirstFraction(q, table[1..]);
      assert forall i | 1 <= i < |table| :: table[i] == table[1..][i - 1];
      g
  }

  /** `qty % 1 === 0`. */
  predicate IsWhole(q: real) {
    q.Floor as real == q
  }

  /** `x.toFixed(2).replace(/\.?0+$/, '')`. */
  function Decimal2(x: real): string {
    StripZeros(ToFixed(x, 2))
  }

  /** `formatQuantity(qty, unit)`, branch by branch in the source's order. */
  function FormatQuantity(q: real, unit: string): string {
    if IsCountUnit(unit) then
      var g := if q < 1.0 then FirstFraction(q, Fractions) else None;
      if g.Some? then g.value + " " + unit
      else IntToString(RoundHalfUp(q)) + " " + unit
    else if unit == "g" && q >= 1000.0 then Decimal2(q / 1000.0) + " " + "kg"
    else if unit == "kg" && q < 1.0 then ToFixed(q * 1000.0, 0) + " " + "g"
    else if unit == "ml" && q >= 1000.0 then Decimal2(q / 1000.0) + " " + "L"
    else if unit == "L" && q < 1.0 then ToFixed(q * 1000.0, 0) + " " + "ml"
    else if unit == "cl" && q >= 100.0 then Decimal2(q / 100.0) + " " + "L"
    else if unit == "mg" && q >= 1000.0 then Decimal2(q / 1000.0) + " " + "g"
    else if IsWhole(q) then IntToString(q.Floor) + " " + unit
    else Decimal2(q) + " " + unit
  }

  /** The six unit conversions, in the order the formatter tries them. */
  datatype Conversion =
    | GramsToKilograms | KilogramsToGrams | MillilitresToLitres
    | LitresToMillilitres | CentilitresToLitres | MilligramsToGrams

  /** The unit a conversion applies to, matched exactly. */
  function Source(c: Conversion): string {
    match c
    case GramsToKilograms => "g"
    case KilogramsToGrams => "kg"
    case MillilitresToLitres => "ml"
    case LitresToMillilitres => "L"
    case CentilitresToLitres => "cl"
    case MilligramsToGrams => "mg"
  }

  /** The unit a conversion shows. */
  function Target(c: Conversion): string {
    match c
    case GramsToKilograms => "kg"
    case KilogramsToGrams => "g"
    case MillilitresToLitres => "L"
    case LitresToMillilitres => "ml"
    case CentilitresToLitres => "L"
    case MilligramsToGrams => "g"
  }

  /** A conversion to the larger unit: shown with at most two decimals (else with none). */
  predicate Promotes(c: Conversion) {
    !(c == KilogramsToGrams || c == LitresToMillilitres)
  }

  /** The quantity in `Source(c)` that a conversion is for: a large one to promote, a small one to demote. */
  predicate Applies(c: Conversion, q: real, unit: string) {
    unit == Source(c) &&
    match c
    case GramsToKilograms => q >= 1000.0
    case KilogramsToGrams => q < 1.0
    case MillilitresToLitres => q >= 1000.0
    case LitresToMillilitres => q < 1.0
    case CentilitresToLitres => q >= 100.0
    case MilligramsToGrams => q >= 1000.0
  }

  /** The same quantity expressed in `Target(c)`. */
  function InTarget(c: Conversion, q: real): real {
    match c
    case GramsToKilograms => q / 1000.0
    case KilogramsToGrams => q * 1000.0
    case MillilitresToLitres => q / 1000.0
    case LitresToMillilitres => q * 1000.0
    case CentilitresToLitres => q / 100.0
    case MilligramsToGrams => q / 1000.0
  }

  /** No count unit occurs in the name of a convertible unit. */
  lemma {:induction false} ConvertibleUnitsAreNotCounted(c: Conversion)
    ensures !IsCountUnit(Source(c))
  {
    var s := Lower(Source(c));
    forall j | 0 <= j < |CountUnits| ensures !Includes(s, CountUnits[j]) {
      assert |CountUnits[j]| > |s|;
    }
  }

  /**
    A count unit below 1 that is near a glyph's center is shown as that glyph: the windows do not
    overlap, so trying them in order picks the one `q` is near.
   */
  lemma {:induction false} CountUnitFraction(q: real, unit: string, i: nat)
    requires IsCountUnit(unit) && q < 1.0 && i < |Fractions| && Near(q, Fractions[i])
    ensures FormatQuantity(q, unit) == Fractions[i].glyph + " " + unit
  {
    var g := FirstFraction(q, Fractions);
    var j :| 0 <= j < |Fractions| && Near(q, Fractions[j]) && g.value == Fractions[j].glyph;
    WindowsDisjoint(q, i, j);
  }

  /** No quantity is strictly within the tolerance of two different glyphs. */
  lemma {:induction false} WindowsDisjoint(q: real, i: nat, j: nat)
    requires i < |Fractions| && j < |Fractions| && Near(q, Fractions[i]) && Near(q, Fractions[j])
    ensures i == j
  {
  }

  /**
    A count unit that is 1 or more, or near no glyph, is shown as `Math.round(qty)`: an
    integer within one half of the quantity, with no point.
   */
  lemma {:induction false} CountUnitRounded(q: real, unit: string)
    requires IsCountUnit(unit)
    requires q >= 1.0 || forall i | 0 <= i < |Fractions| :: !Near(q, Fractions[i])
    ensures FormatQuantity(q, unit) == IntToString(RoundHalfUp(q)) + " " + unit
    ensures DotIndex(IntToString(RoundHalfUp(q))) == |IntToString(RoundHalfUp(q))|
    ensures ParseDecimal(IntToString(RoundHalfUp(q))) == Some(RoundHalfUp(q) as real)
    ensures q - 0.5 < RoundHalfUp(q) as real <= q + 0.5
  {
    IntToStringParses(RoundHalfUp(q));
  }

  /**
    A quantity a conversion applies to is shown in the conversion's target unit, as a rendering
    that reads back as the quantity in that unit, rounded: to two places, tidy and within half a
    hundredth, when promoting; to an integer within one half when demoting.
   */
  lemma {:induction false} ConversionShown(q: real, unit: string, c: Conversion) returns (amount: string)
    requires Applies(c, q, unit)
    ensures FormatQuantity(q, unit) == amount + " " + Target(c)
    ensures Promotes(c) ==> ParseDecimal(amount) == Some(RoundedTo(InTarget(c, q), 2))
    ensures Promotes(c) ==> IsTidy(amount) && Places(amount) <= 2
    ensures Promotes(c) ==> InTarget(c, q) - 0.005 <= RoundedTo(InTarget(c, q), 2) <= InTarget(c, q) + 0.005
    ensures !Promotes(c) ==> ParseDecimal(amount) == Some(RoundedTo(InTarget(c, q), 0))
    ensures !Promotes(c) ==> DotIndex(amount) == |amount|
    ensures !Promotes(c) ==> InTarget(c, q) - 0.5 <= RoundedTo(InTarget(c, q), 0) <= InTarget(c, q) + 0.5
  {
    ConvertibleUnitsAreNotCounted(c);
    FormatBranches(q, unit);
    var x := InTarget(c, q);
    if Promotes(c) {
      amount := Decimal2(x);
      TidyFixedTwo(x);
    } else {
      amount := ToFixed(x, 0);
      FixedZeroParses(x);
      RoundedToZeroClose(x);
    }
  }

  /** The conversion branches of the formatter, each under its own guard. */
  lemma {:induction false} FormatBranches(q: real, unit: string)
    requires !IsCountUnit(unit)
    ensures unit == "g" && q >= 1000.0 ==> FormatQuantity(q, unit) == Decimal2(q / 1000.0) + " " + "kg"
    ensures unit == "kg" && q < 1.0 ==> FormatQuantity(q, unit) == ToFixed(q * 1000.0, 0) + " " + "g"
    ensures unit == "ml" && q >= 1000.0 ==> FormatQuantity(q, unit) == Decimal2(q / 1000.0) + " " + "L"
    ensures unit == "L" && q < 1.0 ==> FormatQuantity(q, unit) == ToFixed(q * 1000.0, 0) + " " + "ml"
    ensures unit == "cl" && q >= 100.0 ==> FormatQuantity(q, unit) == Decimal2(q / 100.0) + " " + "L"
    ensures unit == "mg" && q >= 1000.0 ==> FormatQuantity(q, unit) == Decimal2(q / 1000.0) + " " + "g"
  {
  }

  /** No conversion applies to `q` in `unit`. */
  predicate Unconverted(q: real, unit: string) {
    forall c: Conversion :: !Applies(c, q, unit)
  }

  /** A whole quantity in a unit nothing converts is shown as that integer, with no point. */
  lemma {:induction false} StandardWhole(q: real, unit: string)
    requires !IsCountUnit(unit) && Unconverted(q, unit) && IsWhole(q)
    ensures FormatQuantity(q, unit) == IntToString(q.Floor) + " " + unit
    ensures DotIndex(IntToString(q.Floor)) == |IntToString(q.Floor)|
    ensures ParseDecimal(IntToString(q.Floor)) == Some(q)
  {
    NoConversionApplies(q, unit);
    IntToStringParses(q.Floor);
  }

  /**
    Any other quantity in a unit nothing converts is shown in its own unit as a tidy rendering
    with at most two decimals that reads back within half a hundredth of it.
   */
  lemma {:induction false} StandardDecimal(q: real, unit: string)
    requires !IsCountUnit(unit) && Unconverted(q, unit) && !IsWhole(q)
    ensures FormatQuantity(q, unit) == Decimal2(q) + " " + unit
    ensures IsTidy(Decimal2(q)) && Places(Decimal2(q)) <= 2
    ensures ParseDecimal(Decimal2(q)) == Some(RoundedTo(q, 2))
    ensures q - 0.005 <= RoundedTo(q, 2) <= q + 0.005
  {
    NoConversionApplies(q, unit);
    TidyFixedTwo(q);
  }

  /** Without an applicable row, none of the conversion branches of the formatter is taken. */
  lemma {:induction false} NoConversionApplies(q: real, unit: string)
    requires Unconverted(q, unit)
    ensures !(unit == "g" && q >= 1000.0) && !(unit == "kg" && q < 1.0)
    ensures !(unit == "ml" && q >= 1000.0) && !(unit == "L" && q < 1.0)
    ensures !(unit == "cl" && q >= 100.0) && !(unit == "mg" && q >= 1000.0)
  {
    assert !Applies(GramsToKilograms, q, unit) && !Applies(KilogramsToGrams, q, unit);
    assert !Applies(MillilitresToLitres, q, unit) && !Applies(LitresToMillilitres, q, unit);
    assert !Applies(CentilitresToLitres, q, unit) && !Applies(MilligramsToGrams, q, unit);
  }

  /** "1.00", the two-place rendering of 1, is cleaned up to "1". */
  lemma {:induction false} OneToTwoPlaces()
    ensures Decimal2(1.0) == "1"
  {
    ShiftByZeroOrTwo(1.0);
    assert RoundHalfUp(100.0) == 100;
    assert NatDigits(100) == "100";
    assert ToFixed(1.0, 2) == "1" + "." + "00";
    StripTwoPlaces("1", "00");
  }

  /** 1000 g is shown as one kilogram. */
  lemma {:induction false} KilogramExample()
    ensures FormatQuantity(1000.0, "g") == "1" + " " + "kg"
  {
    ConvertibleUnitsAreNotCounted(GramsToKilograms);
    FormatBranches(1000.0, "g");
    OneToTwoPlaces();
  }

  /** 999 g stays in grams, as a whole number. */
  lemma {:induction false} GramExample()
    ensures FormatQuantity(999.0, "g") == "999" + " " + "g"
  {
    ConvertibleUnitsAreNotCounted(GramsToKilograms);
    assert NatDigits(999) == "999";
  }

  /** Half a litre is shown as 500 ml. */
  lemma {:induction false} MillilitreExample()
    ensures FormatQuantity(0.5, "L") == "500" + " " + "ml"
  {
    ConvertibleUnitsAreNotCounted(LitresToMillilitres);
    FormatBranches(0.5, "L");
    ShiftByZeroOrTwo(500.0);
    assert RoundHalfUp(500.0) == 500;
    assert NatDigits(500) == "500";
  }

  /** The unit "œuf" is a count unit. */
  lemma {:induction false} EggIsCounted()
    ensures IsCountUnit("\U{153}uf")
  {
    var u := "\U{153}uf";
    assert Lower(u) == u;
    assert OccursAt(Lower(u), CountUnits[2], 0);
  }

  /** Half an egg is shown as "½". */
  lemma {:induction false} HalfEggExample()
    ensures FormatQuantity(0.5, "\U{153}uf") == "\U{BD}" + " " + "\U{153}uf"
  {
    EggIsCounted();
    CountUnitFraction(0.5, "\U{153}uf", 2);
  }

  /** 0.4 of an egg is near no glyph, so it is rounded to 0. */
  lemma {:induction false} RoundedEggExample()
    ensures FormatQuantity(0.4, "\U{153}uf") == "0" + " " + "\U{153}uf"
  {
    EggIsCounted();
    CountUnitRounded(0.4, "\U{153}uf");
    assert RoundHalfUp(0.4) == 0;
    assert NatDigits(0) == "0";
  }
}
