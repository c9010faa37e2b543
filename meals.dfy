/** `Meal` (Foodi/Models/Meal.swift): TheMealDB's flat JSON object mapped to
    a structured value and back.

    Decoding reads `idMeal` as a string that must parse as an integer,
    `strMeal` as a required string, seven optional strings (`strTags` split
    on commas), and then the twenty numbered `strIngredientN`/`strMeasureN`
    slots: a slot whose two values are both present, non-null and non-empty
    gives an `Ingredient`; the ingredients are collected into a set and
    sorted by name. Encoding writes `idMeal` as a number and `strTags` as an
    array, and at most twenty ingredient slots. */
module Meals {
  import opened Wrappers
  import opened Text
  import opened Decimal
  import opened Json
  import opened Ingredients

  datatype Meal = Meal(
    id: int,
    name: string,
    category: Option<string>,
    area: Option<string>,
    instructions: Option<string>,
    thumbnailURL: Option<string>,
    tags: Option<seq<string>>,
    youtubeURL: Option<string>,
    sourceURL: Option<string>,
    ingredients: Option<seq<Ingredient>>)

  /** Number of numbered ingredient slots in the wire format. */
  const SlotCount: nat := 20

  /** `Meal.placeholder`, shown while data loads. */
  const Placeholder: Meal := Meal(5071998, "Placeholder", None, None, None, None, None, None, None, None)

  /** `isPlaceHolder`. */
  predicate IsPlaceholder(m: Meal) {
    m.name == "Placeholder"
  }

  function IngredientKey(n: nat): string { "strIngredient" + NatToDecimal(n) }

  function MeasureKey(n: nat): string { "strMeasure" + NatToDecimal(n) }

  /** The keys that are not numbered slots. */
  const HeaderKeys: set<string> := {
    "idMeal", "strMeal", "strCategory", "strArea", "strInstructions",
    "strMealThumb", "strTags", "strYoutube", "strSource"
  }

  // ---------------------------------------------------------------------
  // Decoding, straight-line part

  /** `idMeal`: a string that `Int(_:)` accepts, or a data-corrupted error. */
  function DecodeId(raw: JsonObject): Result<int, DecodeError> {
    var text :- DecodeString(raw, "idMeal");
    match ParseInt(text)
    case None => Failure(DataCorrupted("idMeal"))
    case Some(id) => Success(id)
  }

  /** `strTags`: when present, its comma-separated pieces in order. */
  function DecodeTags(raw: JsonObject): Result<Option<seq<string>>, DecodeError> {
    var text :- DecodeStringIfPresent(raw, "strTags");
    Success(if text.Some? then Some(Split(text.value, ',')) else None)
  }

  /** Everything `init(from:)` reads before the ingredient slots, in the
      order it reads it; `ingredients` is filled in afterwards. */
  function DecodeHeader(raw: JsonObject): Result<Meal, DecodeError> {
    var id :- DecodeId(raw);
    var name :- DecodeString(raw, "strMeal");
    var category :- DecodeStringIfPresent(raw, "strCategory");
    var area :- DecodeStringIfPresent(raw, "strArea");
    var instructions :- DecodeStringIfPresent(raw, "strInstructions");
    var thumbnailURL :- DecodeStringIfPresent(raw, "strMealThumb");
    var tags :- DecodeTags(raw);
    var youtubeURL :- DecodeStringIfPresent(raw, "strYoutube");
    var sourceURL :- DecodeStringIfPresent(raw, "strSource");
    Success(Meal(id, name, category, area, instructions, thumbnailURL, tags, youtubeURL, sourceURL, None))
  }

  // ---------------------------------------------------------------------
  // Decoding, ingredient slots

  /** One pass of the slot loop: both values are read (either read may
      throw), and an ingredient results only when both are non-empty
      strings. */
  function SlotIngredient(raw: JsonObject, n: nat): Result<Option<Ingredient>, DecodeError> {
    var name :- DecodeStringIfPresent(raw, IngredientKey(n));
    var measurement :- DecodeStringIfPresent(raw, MeasureKey(n));
    if name.Some? && measurement.Some? && name.value != "" && measurement.value != ""
    then Success(Some(MakeIngredient(name.value, measurement.value)))
    else Success(None)
  }

  /** The set the loop has built after slots 1..n, or the first error. */
  function IngredientSet(raw: JsonObject, n: nat): Result<set<Ingredient>, DecodeError> {
    if n == 0 then Success({})
    else
      var earlier :- IngredientSet(raw, n - 1);
      var slot :- SlotIngredient(raw, n);
      Success(if slot.Some? then earlier + {slot.value} else earlier)
  }

  /** The error decoding throws, if any. */
  function DecodeFailure(raw: JsonObject): Option<DecodeError> {
    match DecodeHeader(raw)
    case Failure(e) => Some(e)
    case Success(_) =>
      match IngredientSet(raw, SlotCount)
      case Failure(e) => Some(e)
      case Success(_) => None
  }

  predicate SortedByName(xs: seq<Ingredient>) {
    forall i, j :: 0 <= i < j < |xs| ==> StrLe(xs[i].name, xs[j].name)
  }

  /** `m` is a result `init(from:)` can produce from `raw`: the header
      fields as read, and the ingredient set in an order sorted by name
      (the order among equal names is the set's iteration order, which
      Swift leaves unspecified). */
  predicate IsDecodingOf(raw: JsonObject, m: Meal) {
    && DecodeFailure(raw).None?
    && m.ingredients.Some?
    && m == DecodeHeader(raw).value.(ingredients := m.ingredients)
    && SortedByName(m.ingredients.value)
    && multiset(m.ingredients.value) == multiset(IngredientSet(raw, SlotCount).value)
  }

  function InsertByName(x: Ingredient, xs: seq<Ingredient>): seq<Ingredient> {
    if xs == [] then [x]
    else if StrLe(x.name, xs[0].name) then [x] + xs
    else [xs[0]] + InsertByName(x, xs[1..])
  }

  lemma {:induction false} InsertByNameSorted(x: Ingredient, xs: seq<Ingredient>)
    requires SortedByName(xs)
    ensures SortedByName(InsertByName(x, xs))
    ensures multiset(InsertByName(x, xs)) == multiset(xs) + multiset{x}
  {
    if xs == [] {
    } else if StrLe(x.name, xs[0].name) {
      var r := [x] + xs;
      forall i, j | 0 <= i < j < |r|
        ensures StrLe(r[i].name, r[j].name)
      {
        if i == 0 && j > 1 {
          StrLeTransitive(x.name, xs[0].name, xs[j - 1].name);
        }
      }
    } else {
      StrLeTotal(x.name, xs[0].name);
      InsertByNameSorted(x, xs[1..]);
      var tail := InsertByName(x, xs[1..]);
      var r := [xs[0]] + tail;
      assert xs == [xs[0]] + xs[1..];
      forall j | 0 <= j < |tail|
        ensures StrLe(xs[0].name, tail[j].name)
      {
        assert tail[j] in multiset(tail);
        assert tail[j] in multiset(xs[1..]) || tail[j] == x;
        if tail[j] != x {
          var k :| 0 <= k < |xs[1..]| && xs[1..][k] == tail[j];
          assert xs[k + 1] == tail[j];
        }
      }
      forall i, j | 0 <= i < j < |r|
        ensures StrLe(r[i].name, r[j].name)
      {
        if i > 0 {
          assert r[i] == tail[i - 1] && r[j] == tail[j - 1];
        }
      }
    }
  }

  /** `sorted(by: { $0.name < $1.name })` applied to a set: some ordering
      of its elements that is sorted by name. */
  method SortByName(s: set<Ingredient>) returns (xs: seq<Ingredient>)
    ensures SortedByName(xs)
    ensures multiset(xs) == multiset(s)
  {
    xs := [];
    var rest := s;
    while rest != {}
      invariant rest <= s
      invariant SortedByName(xs)
      invariant multiset(xs) + multiset(rest) == multiset(s)
      decreases |rest|
    {
      var x :| x in rest;
      InsertByNameSorted(x, xs);
      xs := InsertByName(x, xs);
      assert multiset(rest) == multiset(rest - {x}) + multiset{x};
      rest := rest - {x};
    }
  }

  lemma {:induction false} IngredientSetFailurePersists(raw: JsonObject, n: nat, m: nat)
    requires 1 <= n <= m
    requires IngredientSet(raw, n - 1).Success? && SlotIngredient(raw, n).Failure?
    ensures IngredientSet(raw, m) == Failure(SlotIngredient(raw, n).error)
  {
    if m > n {
      IngredientSetFailurePersists(raw, n, m - 1);
    }
  }

  /** `init(from:)`. */
  method DecodeMeal(raw: JsonObject) returns (r: Result<Meal, DecodeError>)
    ensures r.Failure? <==> DecodeFailure(raw).Some?
    ensures r.Failure? ==> r.error == DecodeFailure(raw).value
    ensures r.Success? ==> IsDecodingOf(raw, r.value)
  {
    var header := DecodeHeader(raw);
    if header.Failure? {
      return Failure(header.error);
    }
    var ingredients: set<Ingredient> := {};
    for n := 1 to SlotCount + 1
      invariant IngredientSet(raw, n - 1) == Success(ingredients)
    {
      var slot := SlotIngredient(raw, n);
      if slot.Failure? {
        IngredientSetFailurePersists(raw, n, SlotCount);
        return Failure(slot.error);
      }
      if slot.value.Some? {
        ingredients := ingredients + {slot.value.value};
      }
    }
    var sorted := SortByName(ingredients);
    r := Success(header.value.(ingredients := Some(sorted)));
  }

  // ---------------------------------------------------------------------
  // Properties of decoding

  /** The id is the integer `idMeal` parses to; an `idMeal` string that does
      not parse fails with a data-corrupted error. */
  lemma DecodedId(raw: JsonObject)
    ensures DecodeFailure(raw).None? ==>
              "idMeal" in raw && raw["idMeal"].JStr? &&
              ParseInt(raw["idMeal"].str) == Some(DecodeHeader(raw).value.id)
    ensures "idMeal" in raw && raw["idMeal"].JStr? && ParseInt(raw["idMeal"].str).None? ==>
              DecodeFailure(raw) == Some(DataCorrupted("idMeal"))
    ensures "idMeal" !in raw ==> DecodeFailure(raw) == Some(KeyNotFound("idMeal"))
  {
  }

  /** `v` is what `decodeIfPresent` gives for a string field: `None` when
      absent or null, otherwise the string unchanged. */
  predicate CopiedIfPresent(raw: JsonObject, key: string, v: Option<string>) {
    if key in raw && raw[key].JStr? then v == Some(raw[key].str) else v == None
  }

  /** A decoded meal carries `strMeal` as its name, each optional string
      field verbatim or `None`, and the comma-separated pieces of `strTags`. */
  lemma DecodedFields(raw: JsonObject, m: Meal)
    requires IsDecodingOf(raw, m)
    ensures "strMeal" in raw && m.name == raw["strMeal"].str
    ensures CopiedIfPresent(raw, "strCategory", m.category)
    ensures CopiedIfPresent(raw, "strArea", m.area)
    ensures CopiedIfPresent(raw, "strInstructions", m.instructions)
    ensures CopiedIfPresent(raw, "strMealThumb", m.thumbnailURL)
    ensures CopiedIfPresent(raw, "strYoutube", m.youtubeURL)
    ensures CopiedIfPresent(raw, "strSource", m.sourceURL)
    ensures m.tags.Some? <==> "strTags" in raw && raw["strTags"].JStr?
    ensures m.tags.Some? ==> Join(m.tags.value, ',') == raw["strTags"].str
    ensures m.tags.Some? ==> |m.tags.value| == Count(raw["strTags"].str, ',') + 1
    ensures m.tags.Some? ==> forall i :: 0 <= i < |m.tags.value| ==> ',' !in m.tags.value[i]
  {
    if m.tags.Some? {
      var text := raw["strTags"].str;
      SplitJoin(text, ',');
      SplitCount(text, ',');
      SplitPiecesLackSeparator(text, ',');
    }
  }

  /** `strMeal` is required: without it decoding fails once the id has been
      read. */
  lemma NameRequired(raw: JsonObject)
    requires DecodeId(raw).Success?
    requires "strMeal" !in raw || !raw["strMeal"].JStr?
    ensures DecodeFailure(raw).Some?
    ensures "strMeal" !in raw ==> DecodeFailure(raw) == Some(KeyNotFound("strMeal"))
  {
  }

  lemma TagsExample(raw: JsonObject)
    requires "strTags" in raw && raw["strTags"] == JStr("Tart,Baking,Fruity")
    ensures DecodeTags(raw) == Success(Some(["Tart", "Baking", "Fruity"]))
  {
    var tags := ["Tart", "Baking", "Fruity"];
    assert Join(tags, ',') == "Tart,Baking,Fruity" by {
      assert tags[1..][1..] == ["Fruity"];
    }
    forall i | 0 <= i < |tags|
      ensures ',' !in tags[i]
    {
    }
    JoinSplit(tags, ',');
  }

  /** A slot yields an ingredient exactly when both of its values are
      non-empty strings, and then it is the ingredient built from them. */
  lemma SlotIngredientSpec(raw: JsonObject, n: nat)
    ensures SlotIngredient(raw, n).Success? && SlotIngredient(raw, n).value.Some? <==>
              IngredientKey(n) in raw && raw[IngredientKey(n)].JStr? && raw[IngredientKey(n)].str != "" &&
              MeasureKey(n) in raw && raw[MeasureKey(n)].JStr? && raw[MeasureKey(n)].str != ""
    ensures SlotIngredient(raw, n).Success? && SlotIngredient(raw, n).value.Some? ==>
              SlotIngredient(raw, n).value.value ==
                MakeIngredient(raw[IngredientKey(n)].str, raw[MeasureKey(n)].str)
  {
  }

  /** An empty or null name or measurement gives no ingredient. */
  lemma EmptySlotSkipped(raw: JsonObject, n: nat)
    requires IngredientKey(n) in raw && MeasureKey(n) in raw
    requires raw[IngredientKey(n)] in {JStr(""), JNull} || raw[MeasureKey(n)] in {JStr(""), JNull}
    requires raw[IngredientKey(n)].JStr? || raw[IngredientKey(n)].JNull?
    requires raw[MeasureKey(n)].JStr? || raw[MeasureKey(n)].JNull?
    ensures SlotIngredient(raw, n) == Success(None)
  {
  }

  /** Slots that give nothing leave the set as it was: a meal whose later
      slots are empty or null has exactly the ingredients of its earlier
      slots. */
  lemma {:induction false} EmptySlotsAddNothing(raw: JsonObject, m: nat, n: nat)
    requires m <= n
    requires IngredientSet(raw, m).Success?
    requires forall k :: m < k <= n ==> SlotIngredient(raw, k) == Success(None)
    ensures IngredientSet(raw, n) == IngredientSet(raw, m)
  {
    if m < n {
      EmptySlotsAddNothing(raw, m, n - 1);
    }
  }

  /** After slots 1..n the set has at most one ingredient per slot. */
  lemma {:induction false} IngredientSetSize(raw: JsonObject, n: nat)
    requires IngredientSet(raw, n).Success?
    ensures |IngredientSet(raw, n).value| <= n
  {
    if n > 0 {
      IngredientSetSize(raw, n - 1);
      var earlier := IngredientSet(raw, n - 1).value;
      var slot := SlotIngredient(raw, n).value;
      if slot.Some? {
        assert |earlier + {slot.value}| <= |earlier| + 1;
      }
    }
  }

  /** The set after slots 1..n holds exactly the slots' ingredients. */
  lemma {:induction false} IngredientSetMembership(raw: JsonObject, n: nat, x: Ingredient)
    requires IngredientSet(raw, n).Success?
    ensures x in IngredientSet(raw, n).value <==>
              exists k :: 1 <= k <= n && SlotIngredient(raw, k) == Success(Some(x))
  {
    if n > 0 {
      IngredientSetMembership(raw, n - 1, x);
      if x in IngredientSet(raw, n).value && x !in IngredientSet(raw, n - 1).value {
        assert SlotIngredient(raw, n) == Success(Some(x));
      }
      if exists k :: 1 <= k <= n && SlotIngredient(raw, k) == Success(Some(x)) {
        var k :| 1 <= k <= n && SlotIngredient(raw, k) == Success(Some(x));
        if k < n {
          assert x in IngredientSet(raw, n - 1).value;
        }
      }
    }
  }

  lemma OccurrencesOfRepeat(xs: seq<Ingredient>, i: nat, j: nat)
    requires i < j < |xs| && xs[i] == xs[j]
    ensures multiset(xs)[xs[i]] >= 2
  {
    assert xs == xs[..j] + xs[j..];
    assert xs[i] in xs[..j] && xs[j] in xs[j..];
  }

  lemma DistinctWhenFromSet(xs: seq<Ingredient>, s: set<Ingredient>)
    requires multiset(xs) == multiset(s)
    ensures |xs| == |s|
    ensures forall i, j :: 0 <= i < j < |xs| ==> xs[i] != xs[j]
  {
    assert |multiset(xs)| == |xs|;
    forall i, j | 0 <= i < j < |xs|
      ensures xs[i] != xs[j]
    {
      if xs[i] == xs[j] {
        OccurrencesOfRepeat(xs, i, j);
        assert false;
      }
    }
  }

  /** Decoded `ingredients` is never nil, has at most twenty entries, none
      repeated, sorted by name, each one built from a numbered slot. */
  lemma DecodedIngredients(raw: JsonObject, m: Meal)
    requires IsDecodingOf(raw, m)
    ensures m.ingredients.Some?
    ensures |m.ingredients.value| <= SlotCount
    ensures forall i, j :: 0 <= i < j < |m.ingredients.value| ==> m.ingredients.value[i] != m.ingredients.value[j]
    ensures forall i, j :: 0 <= i < j < |m.ingredients.value| ==>
              StrLe(m.ingredients.value[i].name, m.ingredients.value[j].name)
    ensures forall x :: x in m.ingredients.value <==>
              exists k :: 1 <= k <= SlotCount && SlotIngredient(raw, k) == Success(Some(x))
  {
    var s := IngredientSet(raw, SlotCount).value;
    IngredientSetSize(raw, SlotCount);
    DistinctWhenFromSet(m.ingredients.value, s);
    forall x
      ensures x in m.ingredients.value <==>
                exists k :: 1 <= k <= SlotCount && SlotIngredient(raw, k) == Success(Some(x))
    {
      assert x in m.ingredients.value <==> x in multiset(m.ingredients.value);
      IngredientSetMembership(raw, SlotCount, x);
    }
  }

  // ---------------------------------------------------------------------
  // Encoding

  function IngredientsOf(m: Meal): seq<Ingredient> {
    if m.ingredients.Some? then m.ingredients.value else []
  }

  /** How many ingredient slots encoding writes. */
  function EncodedCount(m: Meal): nat {
    if |IngredientsOf(m)| < SlotCount then |IngredientsOf(m)| else SlotCount
  }

  function TagsJson(tags: seq<string>): JsonValue {
    JArr(seq(|tags|, i requires 0 <= i < |tags| => JStr(tags[i])))
  }

  /** What `encode(to:)` writes before the ingredient loop. */
  function EncodedHeader(m: Meal): JsonObject {
    var base := map["idMeal" := JNum(m.id), "strMeal" := JStr(m.name)];
    var withCategory := EncodeStringIfPresent(base, "strCategory", m.category);
    var withArea := EncodeStringIfPresent(withCategory, "strArea", m.area);
    var withInstructions := EncodeStringIfPresent(withArea, "strInstructions", m.instructions);
    var withThumbnail := EncodeStringIfPresent(withInstructions, "strMealThumb", m.thumbnailURL);
    var withTags := if m.tags.Some? then withThumbnail["strTags" := TagsJson(m.tags.value)] else withThumbnail;
    var withYoutube := EncodeStringIfPresent(withTags, "strYoutube", m.youtubeURL);
    EncodeStringIfPresent(withYoutube, "strSource", m.sourceURL)
  }

  function SlotKeys(count: nat): set<string> {
    (set k | 1 <= k <= count :: IngredientKey(k)) + (set k | 1 <= k <= count :: MeasureKey(k))
  }

  /** `out` is what encoding `m` writes: the header fields, and ingredient k
      (counting from 0) in slot k+1 for the first twenty, and nothing else. */
  ghost predicate IsEncodingOf(m: Meal, out: JsonObject) {
    && (forall key :: key in EncodedHeader(m) ==> key in out && out[key] == EncodedHeader(m)[key])
    && (forall k :: 1 <= k <= EncodedCount(m) ==>
          && IngredientKey(k) in out && out[IngredientKey(k)] == JStr(IngredientsOf(m)[k - 1].name)
          && MeasureKey(k) in out && out[MeasureKey(k)] == JStr(IngredientsOf(m)[k - 1].measurement))
    && out.Keys == EncodedHeader(m).Keys + SlotKeys(EncodedCount(m))
  }

  lemma HeaderKeysBound(m: Meal)
    ensures EncodedHeader(m).Keys <= HeaderKeys
  {
  }

  /** `encodeIfPresent` writes an optional field exactly when it is
      non-nil; `idMeal` and `strMeal` are always written. */
  lemma OptionalFieldsWrittenIfPresent(m: Meal)
    ensures "idMeal" in EncodedMeal(m) && "strMeal" in EncodedMeal(m)
    ensures m.category.Some? <==> "strCategory" in EncodedMeal(m)
    ensures m.area.Some? <==> "strArea" in EncodedMeal(m)
    ensures m.instructions.Some? <==> "strInstructions" in EncodedMeal(m)
    ensures m.thumbnailURL.Some? <==> "strMealThumb" in EncodedMeal(m)
    ensures m.tags.Some? <==> "strTags" in EncodedMeal(m)
    ensures m.youtubeURL.Some? <==> "strYoutube" in EncodedMeal(m)
    ensures m.sourceURL.Some? <==> "strSource" in EncodedMeal(m)
  {
    HeaderKeysNotSlots(EncodedCount(m));
    WithSlotsKeys(EncodedHeader(m), IngredientsOf(m), EncodedCount(m));
  }

  lemma HeaderKeysNotSlots(n: nat)
    ensures forall key :: key in HeaderKeys ==> key !in SlotKeys(n)
  {
    forall key, k | key in HeaderKeys && 1 <= k <= n
      ensures key != IngredientKey(k) && key != MeasureKey(k)
    {
      SlotKeysDiffer(k, k);
    }
  }

  lemma SlotKeysDiffer(j: nat, k: nat)
    ensures IngredientKey(j) != MeasureKey(k)
    ensures IngredientKey(j) == IngredientKey(k) ==> j == k
    ensures MeasureKey(j) == MeasureKey(k) ==> j == k
    ensures IngredientKey(j) !in HeaderKeys && MeasureKey(j) !in HeaderKeys
  {
    assert IngredientKey(j)[3] == 'I' && IngredientKey(j)[5] == 'g';
    assert MeasureKey(k)[3] == 'M' && MeasureKey(j)[3] == 'M' && MeasureKey(j)[6] == 's';
    if IngredientKey(j) == IngredientKey(k) {
      assert NatToDecimal(j) == IngredientKey(j)[13..];
      assert NatToDecimal(k) == IngredientKey(k)[13..];
      NatToDecimalInjective(j, k);
    }
    if MeasureKey(j) == MeasureKey(k) {
      assert NatToDecimal(j) == MeasureKey(j)[10..];
      assert NatToDecimal(k) == MeasureKey(k)[10..];
      NatToDecimalInjective(j, k);
    }
  }

  lemma SlotKeysGrow(count: nat)
    ensures SlotKeys(count + 1) == SlotKeys(count) + {IngredientKey(count + 1), MeasureKey(count + 1)}
  {
  }

  /** `base` with ingredient k (counting from 0) written to slot k+1, for
      every k below `count`: what the first `count` passes of the
      ingredient loop add. */
  function WithSlots(base: JsonObject, ingredients: seq<Ingredient>, count: nat): JsonObject
    requires count <= |ingredients|
  {
    if count == 0 then base
    else WithSlots(base, ingredients, count - 1)
           [IngredientKey(count) := JStr(ingredients[count - 1].name)]
           [MeasureKey(count) := JStr(ingredients[count - 1].measurement)]
  }

  /** The whole object `encode(to:)` writes. */
  function EncodedMeal(m: Meal): JsonObject {
    WithSlots(EncodedHeader(m), IngredientsOf(m), EncodedCount(m))
  }

  lemma {:induction false} WithSlotsKeys(base: JsonObject, ingredients: seq<Ingredient>, count: nat)
    requires count <= |ingredients|
    ensures WithSlots(base, ingredients, count).Keys == base.Keys + SlotKeys(count)
  {
    if count == 0 {
      assert SlotKeys(0) == {};
    } else {
      WithSlotsKeys(base, ingredients, count - 1);
      SlotKeysGrow(count - 1);
    }
  }

  lemma {:induction false} WithSlotsKeepsBase(base: JsonObject, ingredients: seq<Ingredient>, count: nat, key: string)
    requires count <= |ingredients|
    requires base.Keys <= HeaderKeys && key in base
    ensures key in WithSlots(base, ingredients, count)
    ensures WithSlots(base, ingredients, count)[key] == base[key]
  {
    if count > 0 {
      WithSlotsKeepsBase(base, ingredients, count - 1, key);
      SlotKeysDiffer(count, count);
    }
  }

  lemma {:induction false} WithSlotsSlot(base: JsonObject, ingredients: seq<Ingredient>, count: nat, k: nat)
    requires count <= |ingredients|
    requires 1 <= k <= count
    ensures IngredientKey(k) in WithSlots(base, ingredients, count)
    ensures WithSlots(base, ingredients, count)[IngredientKey(k)] == JStr(ingredients[k - 1].name)
    ensures MeasureKey(k) in WithSlots(base, ingredients, count)
    ensures WithSlots(base, ingredients, count)[MeasureKey(k)] == JStr(ingredients[k - 1].measurement)
  {
    SlotKeysDiffer(k, count);
    SlotKeysDiffer(count, k);
    if k < count {
      WithSlotsSlot(base, ingredients, count - 1, k);
    }
  }

  /** The encoded object has exactly the header fields and the first
      `EncodedCount(m)` slots, and the decoder rejects it at `idMeal`. */
  lemma EncodedMealShape(m: Meal)
    ensures IsEncodingOf(m, EncodedMeal(m))
    ensures DecodeFailure(EncodedMeal(m)) == Some(TypeMismatch("idMeal"))
  {
    var header := EncodedHeader(m);
    HeaderKeysBound(m);
    WithSlotsKeys(header, IngredientsOf(m), EncodedCount(m));
    forall key | key in header
      ensures key in EncodedMeal(m) && EncodedMeal(m)[key] == header[key]
    {
      WithSlotsKeepsBase(header, IngredientsOf(m), EncodedCount(m), key);
    }
    forall k | 1 <= k <= EncodedCount(m)
      ensures IngredientKey(k) in EncodedMeal(m)
      ensures EncodedMeal(m)[IngredientKey(k)] == JStr(IngredientsOf(m)[k - 1].name)
      ensures MeasureKey(k) in EncodedMeal(m)
      ensures EncodedMeal(m)[MeasureKey(k)] == JStr(IngredientsOf(m)[k - 1].measurement)
    {
      WithSlotsSlot(header, IngredientsOf(m), EncodedCount(m), k);
    }
    assert EncodedMeal(m)["idMeal"] == JNum(m.id);
  }

  /** `encode(to:)`: the header, then the ingredient loop, which stops after
      the twentieth ingredient. */
  method EncodeMeal(m: Meal) returns (out: JsonObject)
    ensures out == EncodedMeal(m)
    ensures IsEncodingOf(m, out)
    ensures DecodeFailure(out) == Some(TypeMismatch("idMeal"))
  {
    out := EncodedHeader(m);
    if m.ingredients.Some? {
      var ingredients := m.ingredients.value;
      var index := 0;
      while index < |ingredients|
        invariant index <= |ingredients| && index <= SlotCount
        invariant out == WithSlots(EncodedHeader(m), ingredients, index)
      {
        if index >= SlotCount {
          break;
        }
        out := out[IngredientKey(index + 1) := JStr(ingredients[index].name)];
        out := out[MeasureKey(index + 1) := JStr(ingredients[index].measurement)];
        index := index + 1;
      }
    }
    EncodedMealShape(m);
  }

  /** Encoding writes no slot beyond the twentieth, nor beyond the number of
      ingredients. */
  lemma EncodingTruncates(m: Meal, out: JsonObject, k: nat)
    requires IsEncodingOf(m, out)
    requires k > EncodedCount(m)
    ensures IngredientKey(k) !in out && MeasureKey(k) !in out
  {
    HeaderKeysBound(m);
    SlotKeysDiffer(k, k);
    forall j | 1 <= j <= EncodedCount(m)
      ensures IngredientKey(k) != IngredientKey(j) && IngredientKey(k) != MeasureKey(j)
      ensures MeasureKey(k) != IngredientKey(j) && MeasureKey(k) != MeasureKey(j)
    {
      SlotKeysDiffer(k, j);
      SlotKeysDiffer(j, k);
    }
  }

  /** Each written slot, read back by the decoder's slot logic, gives the
      ingredient rebuilt from the stored name and measurement (or nothing
      when one of them is empty); for ingredients built by
      `MakeIngredient` that is the ingredient itself. */
  lemma EncodedSlotsReadBack(m: Meal, out: JsonObject, k: nat)
    requires IsEncodingOf(m, out)
    requires 1 <= k <= EncodedCount(m)
    ensures var x := IngredientsOf(m)[k - 1];
            SlotIngredient(out, k) ==
              if x.name != "" && x.measurement != "" then Success(Some(MakeIngredient(x.name, x.measurement)))
              else Success(None)
    ensures var x := IngredientsOf(m)[k - 1];
            (exists n, ms :: x == MakeIngredient(n, ms)) && x.name != "" && x.measurement != "" ==>
              SlotIngredient(out, k) == Success(Some(x))
  {
    var x := IngredientsOf(m)[k - 1];
    if exists n, ms :: x == MakeIngredient(n, ms) {
      var n, ms :| x == MakeIngredient(n, ms);
      MakeIngredientIdempotent(n, ms);
    }
  }

  // ---------------------------------------------------------------------
  // Derived values

  lemma PlaceholderIsPlaceholder()
    ensures IsPlaceholder(Placeholder)
  {
  }

  function Names(xs: seq<Ingredient>): seq<string> {
    seq(|xs|, i requires 0 <= i < |xs| => xs[i].name)
  }

  /** Every piece of a joined list occurs in any text that contains the
      joined list. */
  lemma PieceInText(xs: seq<string>, i: nat, prefix: string, suffix: string)
    requires i < |xs|
    ensures IsSubstring(xs[i], prefix + Join(xs, ' ') + suffix)
  {
    JoinContains(xs, ' ', i);
    SubstringOfConcat(xs[i], prefix, Join(xs, ' '), suffix);
  }

  /** `searchQuery`: the name, then the tags, then the ingredient names,
      each group preceded by a space and joined by spaces. Every tag and
      every ingredient name occurs in it. */
  method SearchQuery(m: Meal) returns (query: string)
    ensures query == m.name
                     + (if m.tags.Some? then " " + Join(m.tags.value, ' ') else "")
                     + (if m.ingredients.Some? then " " + Join(Names(m.ingredients.value), ' ') else "")
    ensures |query| >= |m.name| && query[..|m.name|] == m.name
    ensures m.tags.Some? ==> forall i :: 0 <= i < |m.tags.value| ==> IsSubstring(m.tags.value[i], query)
    ensures m.ingredients.Some? ==>
              forall i :: 0 <= i < |m.ingredients.value| ==> IsSubstring(m.ingredients.value[i].name, query)
  {
    var tagPart := "";
    if m.tags.Some? {
      tagPart := " " + Join(m.tags.value, ' ');
    }
    var ingredientPart := "";
    if m.ingredients.Some? {
      ingredientPart := " " + Join(Names(m.ingredients.value), ' ');
    }
    query := m.name + tagPart + ingredientPart;
    assert query[..|m.name|] == m.name;
    if m.tags.Some? {
      var tags := m.tags.value;
      assert query == (m.name + " ") + Join(tags, ' ') + ingredientPart;
      forall i | 0 <= i < |tags|
        ensures IsSubstring(tags[i], query)
      {
        PieceInText(tags, i, m.name + " ", ingredientPart);
      }
    }
    if m.ingredients.Some? {
      var names := Names(m.ingredients.value);
      assert query == (m.name + tagPart + " ") + Join(names, ' ') + "";
      forall i | 0 <= i < |m.ingredients.value|
        ensures IsSubstring(m.ingredients.value[i].name, query)
      {
        assert names[i] == m.ingredients.value[i].name;
        PieceInText(names, i, m.name + tagPart + " ", "");
      }
    }
  }
}
