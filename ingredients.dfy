/** `Ingredient` (Foodi/Models/Ingredient.swift): a value built from a raw
    name and measurement. Its `id` is the lower-cased name and measurement
    run together with spaces turned into underscores; its `name` is the raw
    name with underscores turned into spaces, capitalised word by word; its
    `measurement` is kept as given. Equality and the synthesised `Codable`
    cover all three fields. Text is ASCII: Foundation's Unicode- and
    locale-aware casing is approximated by `Text`. */
module Ingredients {
  import opened Wrappers
  import opened Text
  import opened Json

  datatype Ingredient = Ingredient(id: string, name: string, measurement: string)

  /** Lower-case, then spaces to underscores. */
  function Normalized(s: string): string {
    Replacing(Lowercased(s), ' ', '_')
  }

  /** The derived identifier: built from the RAW name, not the display name. */
  function IdentifierFor(name: string, measurement: string): string {
    Normalized(name + measurement)
  }

  function DisplayName(name: string): string {
    Capitalized(Replacing(name, '_', ' '))
  }

  /** `Ingredient.init(name:measurement:)`. */
  function MakeIngredient(name: string, measurement: string): Ingredient {
    Ingredient(IdentifierFor(name, measurement), DisplayName(name), measurement)
  }

  /** The synthesised `encode(to:)`: the three stored fields, verbatim. */
  function Encode(i: Ingredient): JsonObject {
    map["id" := JStr(i.id), "name" := JStr(i.name), "measurement" := JStr(i.measurement)]
  }

  /** The synthesised `init(from:)`: reads the three stored fields in
      declaration order, without normalising them again. */
  function Decode(obj: JsonObject): Result<Ingredient, DecodeError> {
    var id :- DecodeString(obj, "id");
    var name :- DecodeString(obj, "name");
    var measurement :- DecodeString(obj, "measurement");
    Success(Ingredient(id, name, measurement))
  }

  // ---------------------------------------------------------------------
  // Identifier

  lemma NormalizedConcat(a: string, b: string)
    ensures Normalized(a + b) == Normalized(a) + Normalized(b)
  {
    assert |Normalized(a + b)| == |Normalized(a) + Normalized(b)|;
    forall i | 0 <= i < |a + b|
      ensures Normalized(a + b)[i] == (Normalized(a) + Normalized(b))[i]
    {
      if i >= |a| {
        assert (a + b)[i] == b[i - |a|];
      }
    }
  }

  /** The identifier contains no space and has one character per character
      of name and measurement. */
  lemma IdentifierShape(name: string, measurement: string)
    ensures ' ' !in IdentifierFor(name, measurement)
    ensures |IdentifierFor(name, measurement)| == |name| + |measurement|
  {
    ReplacingRemoves(Lowercased(name + measurement), ' ', '_');
  }

  /** For one name, two measurements give the same identifier exactly when
      they agree after lower-casing and turning spaces into underscores. */
  lemma SameNameIdentifiers(name: string, m1: string, m2: string)
    ensures IdentifierFor(name, m1) == IdentifierFor(name, m2) <==> Normalized(m1) == Normalized(m2)
  {
    NormalizedConcat(name, m1);
    NormalizedConcat(name, m2);
    var p := Normalized(name);
    if p + Normalized(m1) == p + Normalized(m2) {
      assert Normalized(m1) == (p + Normalized(m1))[|p|..];
    }
  }

  /** The identifier is not unique: it forgets letter case and the boundary
      between name and measurement. */
  lemma IdentifierCollisions()
    ensures MakeIngredient("Butter", "1 Cup").id == MakeIngredient("butter", "1 cup").id == "butter1_cup"
    ensures MakeIngredient("Butter", "1 Cup") != MakeIngredient("butter", "1 cup")
    ensures MakeIngredient("Salt", "1g").id == MakeIngredient("Salt1", "g").id
  {
    assert MakeIngredient("Butter", "1 Cup").measurement != MakeIngredient("butter", "1 cup").measurement;
    assert "Butter" + "1 Cup" == "Butter1 Cup";
    assert "butter" + "1 cup" == "butter1 cup";
    assert "Salt" + "1g" == "Salt1" + "g";
  }

  lemma FlourMeasurementNormalized()
    ensures Normalized("113 grams / 0.5 cups") == "113_grams_/_0.5_cups"
  {
    assert "113 grams / 0.5 cups" == "113 grams" + " / 0.5 cups";
    NormalizedConcat("113 grams", " / 0.5 cups");
    assert Normalized("113 grams") == "113_grams";
    assert Normalized(" / 0.5 cups") == "_/_0.5_cups";
  }

  lemma IdentifierExampleFlour()
    ensures IdentifierFor("Baking Flour", "113 grams / 0.5 cups") == "baking_flour113_grams_/_0.5_cups"
  {
    FlourMeasurementNormalized();
    NormalizedConcat("Baking Flour", "113 grams / 0.5 cups");
    assert Normalized("Baking Flour") == "baking_flour";
  }

  lemma IdentifierExampleMetricTon()
    ensures IdentifierFor("Baking Flour", "1 metric ton") == "baking_flour1_metric_ton"
  {
    NormalizedConcat("Baking Flour", "1 metric ton");
    assert Normalized("Baking Flour") == "baking_flour";
    assert Normalized("1 metric ton") == "1_metric_ton";
  }

  lemma IdentifierExampleButter()
    ensures IdentifierFor("BUTTER", "300 grams / 1 stick") == "butter300_grams_/_1_stick"
  {
    NormalizedConcat("BUTTER", "300 grams / 1 stick");
    NormalizedConcat("300 grams", " / 1 stick");
    assert "300 grams" + " / 1 stick" == "300 grams / 1 stick";
    assert Normalized("BUTTER") == "butter";
    assert Normalized("300 grams") == "300_grams";
    assert Normalized(" / 1 stick") == "_/_1_stick";
  }

  lemma IdentifierExampleMilk()
    ensures IdentifierFor("DaIRy_MiLk .", "240 grams / 1 cup") == "dairy_milk_.240_grams_/_1_cup"
  {
    NormalizedConcat("DaIRy_MiLk .", "240 grams / 1 cup");
    NormalizedConcat("240 grams", " / 1 cup");
    assert "240 grams" + " / 1 cup" == "240 grams / 1 cup";
    assert Normalized("DaIRy_MiLk .") == "dairy_milk_.";
    assert Normalized("240 grams") == "240_grams";
    assert Normalized(" / 1 cup") == "_/_1_cup";
  }

  // ---------------------------------------------------------------------
  // Display name

  /** The display name has no underscore and as many characters as the raw
      name. */
  lemma DisplayNameShape(name: string)
    ensures '_' !in DisplayName(name)
    ensures |DisplayName(name)| == |name|
  {
    ReplacingRemoves(name, '_', ' ');
    CapitalizedKeepsUnderscores(Replacing(name, '_', ' '));
  }

  /** Normalising a display name again changes nothing. */
  lemma DisplayNameIdempotent(name: string)
    ensures DisplayName(DisplayName(name)) == DisplayName(name)
  {
    var d := DisplayName(name);
    DisplayNameShape(name);
    assert Replacing(d, '_', ' ') == d;
    CapitalizedIdempotent(Replacing(name, '_', ' '));
  }

  /** The identifier computed from the display name equals the one computed
      from the raw name. */
  lemma IdentifierOfDisplayName(name: string, measurement: string)
    ensures IdentifierFor(DisplayName(name), measurement) == IdentifierFor(name, measurement)
  {
    NormalizedConcat(DisplayName(name), measurement);
    NormalizedConcat(name, measurement);
    var r := Replacing(name, '_', ' ');
    LowercasedCapitalized(r);
    forall i | 0 <= i < |name|
      ensures Normalized(DisplayName(name))[i] == Normalized(name)[i]
    {
      CaseMappingFacts(name[i]);
    }
  }

  /** Building an ingredient again from its own name and measurement gives
      the same ingredient. */
  lemma MakeIngredientIdempotent(name: string, measurement: string)
    ensures var i := MakeIngredient(name, measurement);
            MakeIngredient(i.name, i.measurement) == i
  {
    DisplayNameIdempotent(name);
    IdentifierOfDisplayName(name, measurement);
  }

  lemma DisplayNameExamples()
    ensures DisplayName("Baking Flour") == "Baking Flour"
    ensures DisplayName("BUTTER") == "Butter"
    ensures DisplayName("DaIRy_MiLk .") == "Dairy Milk ."
  {
  }

  // ---------------------------------------------------------------------
  // Equality and coding

  /** With the same name, ingredients are equal exactly when the
      measurements are; identical arguments give equal ingredients. */
  lemma MeasurementDistinguishes(name: string, m1: string, m2: string)
    ensures MakeIngredient(name, m1) == MakeIngredient(name, m2) <==> m1 == m2
  {
  }

  /** Decoding what was encoded gives back an equal ingredient. */
  lemma CodableRoundTrip(i: Ingredient)
    ensures Decode(Encode(i)) == Success(i)
  {
  }

  /** Decoding succeeds exactly when the three keys hold strings, and then
      stores them verbatim. */
  lemma DecodeReadsVerbatim(obj: JsonObject)
    ensures Decode(obj).Success? <==>
              ("id" in obj && obj["id"].JStr? && "name" in obj && obj["name"].JStr? &&
               "measurement" in obj && obj["measurement"].JStr?)
    ensures Decode(obj).Success? ==>
              Decode(obj).value == Ingredient(obj["id"].str, obj["name"].str, obj["measurement"].str)
  {
  }
}
