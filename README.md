# Foodi data layer in Dafny

Foodi is an iOS recipe browser for TheMealDB's dessert catalogue. This project models the layer beneath its screens and proves properties of the model:

- **`Meal` wire mapping.** TheMealDB sends a meal as one flat JSON object:
  - `idMeal` is a decimal string.
  - `strTags` is one comma-joined string.
  - Ingredients arrive as twenty numbered `strIngredientN`/`strMeasureN` slot pairs.

  Decoding turns the object into a `Meal`:
  - It parses the id.
  - It splits the tags on commas.
  - It collects the complete slots into a set of `Ingredient`s, sorted by name.

  Encoding goes the other way, writing at most twenty slots. `isPlaceHolder` and `searchQuery` are derived from a meal.
- **`Ingredient`.**
  - The `id` is derived from the raw name and measurement.
  - The display `name` is the raw name with underscores made spaces, title-cased.
  - Its `Codable` conformance stores the three fields verbatim.
- **`MealDBClient`.**
  - It builds URLs from a base, an endpoint and query items.
  - It decodes the `MealListResponse` envelope, whose `meals` array is required.
  - It keeps a set of meals whose details it has fetched. `fetchMealDetails` answers from that set when it can.
- **`Color(hex:)`, integer part.** It removes every `#`, scans hex digits and takes bits 16-23, 8-15 and 0-7 as red, green and blue.

Modules:

| File | Module | Contents |
|---|---|---|
| `wrappers.dfy` | `Wrappers` | `Option` and `Result` |
| `text.dfy` | `Text` | ASCII versions of the standard-library and Foundation string operations the code calls: `lowercased`, `capitalized`, `replacingOccurrences`, `components(separatedBy:)`, `joined(separator:)`, `String <` |
| `decimal.dfy` | `Decimal` | `Int(String)` and `String(Int)` |
| `json.dfy` | `Json` | Decoded JSON values and `JSONDecoder`'s error kinds |
| `ingredients.dfy` | `Ingredients` | `Ingredient` |
| `meals.dfy` | `Meals` | `Meal` |
| `mealdb.dfy` | `MealDB` | `MealDBClient` and `MealListResponse` |
| `hexcolor.dfy` | `HexColor` | `Color(hex:)` |

How each kind of code is modelled:
- **Loops become methods.**
  - Meal decoding: a loop over slots 1..20 into a set, then a sort.
  - Meal encoding: a loop with the break after twenty.
  - `searchQuery`: appends to a string.
  - Envelope decoding.
  - The colour scan.

  Each method is proved against a specification function or predicate, and the properties are proved about that.
- **The client is a class.** Its one field is the cache, `cache: set<Meal>`.
- **The network becomes a parameter.** Each fetch receives a `Reply`: `NoValue` when the request, its validation or its delivery failed, or the JSON body. Each fetch returns the URL it would have requested.

Three behaviours of the code that a reader may not expect:
- An ingredient slot is kept when both strings are non-empty. Whitespace is not trimmed, so a slot holding `" "` yields an ingredient (Foodi/Models/Meal.swift:200).
- An unknown id gets `{"meals": null}` from the server. The non-optional `meals` field rejects that, so `fetchMealDetails` throws `invalidData`; it has no "not found" error (Foodi/MealDBClient.swift:57, Foodi/Models/MealListResponse.swift:13).
- The cache is a `Set<Meal>` under whole-value equality, not a map keyed by id. Two meals with the same id and different fields can both be cached (Foodi/MealDBClient.swift:17,66).

## Model

| member | source | states |
|---|---|---|
| Decimal.ParseIntRoundTrip | Foodi/Models/Meal.swift:161-166 | `Int(_:)` reads back the decimal text of every 64-bit integer |
| Decimal.ParseIntAccepts | Foodi/Models/Meal.swift:162 | a successful `Int(_:)` parse lies in the 64-bit range and the text has a digit |
| Decimal.ParseIntExamples | Foodi/Models/Meal.swift:162 | "52768", "-7" and "+007" parse; "abc", "", "-" and "12a" do not |
| Decimal.NatToDecimalInjective | Foodi/Models/Meal.swift:189-190 | different slot numbers print differently, so slot keys are distinct |
| Json.StringIfPresentRoundTrip | Foodi/Models/Meal.swift:170-173 | what `encodeIfPresent` writes under a new key, `decodeIfPresent` reads back |
| Json.DecodeStringAgrees | Foodi/Models/Meal.swift:161-173 | `decode` succeeds exactly on a present string; `decodeIfPresent` then agrees, and fails only where `decode` does |
| Text.SplitJoin | Foodi/Models/Meal.swift:177 | joining the comma-separated pieces gives back the tag string |
| Text.SplitCount | Foodi/Models/Meal.swift:177 | the number of pieces is the number of separators plus one |
| Text.SplitPiecesLackSeparator | Foodi/Models/Meal.swift:177 | no piece contains the separator |
| Text.JoinSplit | Foodi/Models/Meal.swift:177 | splitting a join of separator-free pieces gives them back |
| Text.JoinContains | Foodi/Models/Meal.swift:44-53 | every joined piece occurs in the joined string |
| Text.StrLeTotal | Foodi/Models/Meal.swift:206 | any two names are ordered one way or the other |
| Text.StrLeTransitive | Foodi/Models/Meal.swift:206 | the name order is transitive |
| Text.CapitalizedIdempotent | Foodi/Models/Ingredient.swift:30 | title-casing twice is title-casing once |
| Text.LowercasedCapitalized | Foodi/Models/Ingredient.swift:28-30 | lower-casing a title-cased string is lower-casing the original |
| Text.ReplacingRemoves | Foodi/Models/Ingredient.swift:28-30 | after replacing a character by a different one, it no longer occurs |
| Ingredients.IdentifierShape | Foodi/Models/Ingredient.swift:28 | the id has no space and one character per character of name and measurement |
| Ingredients.NormalizedConcat | Foodi/Models/Ingredient.swift:28 | normalising name + measurement is normalising each and concatenating |
| Ingredients.SameNameIdentifiers | Foodi/Models/Ingredient.swift:28 | for one name, two measurements give equal ids exactly when they agree after lower-casing and space-to-underscore |
| Ingredients.IdentifierCollisions | Foodi/Models/Ingredient.swift:28 | the id is not unique: ("Butter","1 Cup") and ("butter","1 cup") share it with unequal ingredients, and so do ("Salt","1g") and ("Salt1","g") |
| Ingredients.IdentifierExampleFlour | FoodiTests/ModelTests/IngredientTests.swift:23-24 | "Baking Flour" + "113 grams / 0.5 cups" gives "baking_flour113_grams_/_0.5_cups" |
| Ingredients.IdentifierExampleMetricTon | FoodiTests/ModelTests/IngredientTests.swift:92-95 | "Baking Flour" + "1 metric ton" gives "baking_flour1_metric_ton" |
| Ingredients.IdentifierExampleButter | FoodiTests/ModelTests/IngredientTests.swift:33-37 | "BUTTER" + "300 grams / 1 stick" gives "butter300_grams_/_1_stick" |
| Ingredients.IdentifierExampleMilk | FoodiTests/ModelTests/IngredientTests.swift:34-38 | "DaIRy_MiLk ." + "240 grams / 1 cup" gives "dairy_milk_.240_grams_/_1_cup" |
| Ingredients.DisplayNameShape | Foodi/Models/Ingredient.swift:30 | the display name has no underscore and the raw name's length |
| Ingredients.DisplayNameIdempotent | Foodi/Models/Ingredient.swift:30 | normalising a display name again changes nothing |
| Ingredients.IdentifierOfDisplayName | Foodi/Models/Ingredient.swift:28-30 | the id computed from the display name equals the one computed from the raw name |
| Ingredients.MakeIngredientIdempotent | Foodi/Models/Ingredient.swift:26-32 | rebuilding an ingredient from its own name and measurement gives the same ingredient |
| Ingredients.DisplayNameExamples | FoodiTests/ModelTests/IngredientTests.swift:42-49 | "Baking Flour", "BUTTER" and "DaIRy_MiLk ." display as "Baking Flour", "Butter" and "Dairy Milk ." |
| Ingredients.MeasurementDistinguishes | Foodi/Models/Ingredient.swift:26-32 | with one name, ingredients are equal exactly when the measurements are |
| Ingredients.CodableRoundTrip | Foodi/Models/Ingredient.swift:12-20 | decoding the encoded ingredient gives an equal one |
| Ingredients.DecodeReadsVerbatim | Foodi/Models/Ingredient.swift:12-20 | decoding succeeds exactly when id, name and measurement are strings, and stores them unchanged |
| Meals.DecodeMeal | Foodi/Models/Meal.swift:154-207 | fails exactly when the specification reports an error, with that error; otherwise the result is a decoding of the object: header fields as read, ingredients the slot set in name order |
| Meals.SortByName | Foodi/Models/Meal.swift:206 | the result is sorted by name and is a permutation of the set |
| Meals.InsertByNameSorted | Foodi/Models/Meal.swift:206 | inserting into a name-sorted list keeps it sorted and adds exactly that element |
| Meals.DecodedId | Foodi/Models/Meal.swift:161-166 | a decoded id is the integer `idMeal` parses to; an unparsable `idMeal` string fails with a data-corrupted error; a missing one with key-not-found |
| Meals.DecodedFields | Foodi/Models/Meal.swift:167-181 | the name is `strMeal`; each optional field is copied or `None` when absent or null; tags are the comma pieces, which rejoin to `strTags`, number commas + 1 and contain no comma |
| Meals.NameRequired | Foodi/Models/Meal.swift:167 | without a string `strMeal` decoding fails, with key-not-found when it is absent |
| Meals.TagsExample | FoodiTests/ModelTests/MealTests.swift:68 | "Tart,Baking,Fruity" gives ["Tart", "Baking", "Fruity"] |
| Meals.SlotIngredientSpec | Foodi/Models/Meal.swift:193-202 | a slot gives an ingredient exactly when both values are non-empty strings, and it is built from them |
| Meals.EmptySlotSkipped | Foodi/Models/Meal.swift:198-200 | an empty or null name or measurement gives no ingredient |
| Meals.EmptySlotsAddNothing | Foodi/Models/Meal.swift:186-203 | slots that give nothing leave the collected set unchanged |
| Meals.IngredientSetFailurePersists | Foodi/Models/Meal.swift:187-195 | a slot whose read throws makes the whole decoding throw that error |
| Meals.IngredientSetSize | Foodi/Models/Meal.swift:186-203 | after n slots the set holds at most n ingredients |
| Meals.IngredientSetMembership | Foodi/Models/Meal.swift:186-203 | an ingredient is in the set exactly when some slot 1..n gives it |
| Meals.DistinctWhenFromSet | Foodi/Models/Meal.swift:206 | a list holding a set's elements once each has the set's size and no repeats |
| Meals.DecodedIngredients | Foodi/Models/Meal.swift:186-206 | decoded ingredients are non-nil, at most 20, without repeats, sorted by name, and exactly the slot ingredients |
| Meals.EncodeMeal | Foodi/Models/Meal.swift:211-244 | the result is the encoding of the meal (header fields, then ingredient k in slot k+1 for the first twenty) and decoding it fails with a type mismatch at `idMeal` |
| Meals.WithSlotsKeys | Foodi/Models/Meal.swift:232-243 | after the loop's first n passes the keys are the header keys plus slots 1..n |
| Meals.WithSlotsKeepsBase | Foodi/Models/Meal.swift:215-243 | the loop leaves every header entry unchanged |
| Meals.WithSlotsSlot | Foodi/Models/Meal.swift:237-242 | slot k holds ingredient k-1's name and measurement |
| Meals.EncodedMealShape | Foodi/Models/Meal.swift:211-244 | the encoding has exactly the header entries and the first min(count, 20) slots; decoding it fails at `idMeal` |
| Meals.SlotKeysDiffer | Foodi/Models/Meal.swift:97-149 | slot keys of different numbers or kinds differ and are never header keys |
| Meals.HeaderKeysBound | Foodi/Models/Meal.swift:215-225 | the header encoding uses only the nine named keys |
| Meals.OptionalFieldsWrittenIfPresent | Foodi/Models/Meal.swift:215-225 | `idMeal` and `strMeal` are always written; each optional field's key is present in the encoding exactly when the field is non-nil |
| Meals.EncodingTruncates | Foodi/Models/Meal.swift:234 | no slot beyond the twentieth, or beyond the ingredient count, is written |
| Meals.EncodedSlotsReadBack | Foodi/Models/Meal.swift:237-242 | a written slot reads back as the ingredient rebuilt from it, which is the ingredient itself when it was built by `Ingredient(name:measurement:)` with non-empty fields |
| Meals.PlaceholderIsPlaceholder | Foodi/Models/Meal.swift:39-41 | the static `placeholder` meal answers `isPlaceHolder` with true |
| Meals.SearchQuery | Foodi/Models/Meal.swift:44-53 | the query is the name, then the space-joined tags, then the space-joined ingredient names, each group after a space; it starts with the name and contains every tag and ingredient name |
| MealDB.CategoryUrl | FoodiTests/MealDBClientTests.swift:58-65 | for every category, the list URL built from its query item is `filter.php?c=<raw value>`, and the query reads back as the item `c=<raw value>` |
| MealDB.PairReadsBack | Foodi/MealDBClient.swift:104 | a `name=value` pair parses back to its item |
| MealDB.QueryRoundTrip | Foodi/MealDBClient.swift:101-108 | the query lists the items in order, and parsing it gives them back |
| MealDB.UrlParts | Foodi/MealDBClient.swift:102-104 | a URL is the base, the endpoint path, "?" and the query, and ends in "?" with no items |
| MealDB.ListUrlExample | FoodiTests/MealDBClientTests.swift:68-72 | (list, c=Dessert) gives ".../filter.php?c=Dessert" |
| MealDB.LookupUrlExample | FoodiTests/MealDBClientTests.swift:74-77 | (lookup, i=1) gives ".../lookup.php?i=1" |
| MealDB.QueryStringSingle | Foodi/MealDBClient.swift:104 | a single item's query is `name=value` |
| MealDB.DecodeMealListResponse | Foodi/Models/MealListResponse.swift:11-14 | fails exactly when the body is not an object (value-not-found when it is null, a type mismatch otherwise), lacks `meals`, has it null or not an array, or has an element that is null (value-not-found), not an object (type mismatch) or not a decodable meal, with that error; otherwise decodes every element in order |
| MealDB.EnvelopeExamples | Foodi/Models/MealListResponse.swift:13 | `{"meals": null}` is rejected as value-not-found, a missing `meals` as key-not-found, a null body or a null element as value-not-found, a non-null non-object body or element as a type mismatch, and an empty list is accepted |
| MealDB.MealDBClient.constructor | Foodi/MealDBClient.swift:17 | the cache starts empty |
| MealDB.MealDBClient.FetchFromCache | Foodi/MealDBClient.swift:69-71 | returns a cached meal with the id exactly when one exists |
| MealDB.MealDBClient.UpdateCache | Foodi/MealDBClient.swift:65-67 | the new cache is the old one united with the given meals |
| MealDB.MealDBClient.FetchMeals | Foodi/MealDBClient.swift:25-38 | requests the list URL for the category; fails with `invalidResponse` exactly when the reply does not decode; otherwise returns the decoded meals in order |
| MealDB.MealDBClient.FetchMealDetails | Foodi/MealDBClient.swift:44-61 | a cached id is answered from the cache with no request and no change; otherwise the lookup URL `i=<id>` is requested, `invalidData` is thrown with the cache unchanged unless the reply decodes to at least one meal, and then the first meal is returned and added to the cache |
| MealDB.RefetchIsServedFromCache | Foodi/MealDBClient.swift:46-59 | after a lookup succeeds with a meal of the requested id, a second lookup issues no request and returns the same meal |
| MealDB.SameIdMealsCoexist | Foodi/MealDBClient.swift:65-67 | two meals with one id and different names are both kept; re-adding one changes nothing |
| HexColor.ColorFromHex | Foodi/ViewExtensions/ColorExtension.swift:12-33 | the colour is the specification's for the input, each channel a byte and opacity 1 |
| HexColor.WithoutHashesContents | Foodi/ViewExtensions/ColorExtension.swift:14-15 | no `#` remains and every other character is kept with its multiplicity |
| HexColor.WithoutHashesUnchanged | Foodi/ViewExtensions/ColorExtension.swift:15 | text without `#` is left as it is |
| HexColor.WithoutHashesLeading | Foodi/ViewExtensions/ColorExtension.swift:15 | a leading `#` makes no difference |
| HexColor.LeadingHexDigitsStep | Foodi/ViewExtensions/ColorExtension.swift:21 | the scan consumes one more hex digit at a time |
| HexColor.ScanStops | Foodi/ViewExtensions/ColorExtension.swift:19-21 | the scan reads the hex digits before the first non-hex character, and leaves 0 when there are none |
| HexColor.ChannelsAreBytes | Foodi/ViewExtensions/ColorExtension.swift:23-32 | each channel lies in 0..255, and opacity is 1 |
| HexColor.HighBitsIgnored | Foodi/ViewExtensions/ColorExtension.swift:23-25 | bits above 23 have no effect |
| HexColor.ChannelsReassemble | Foodi/ViewExtensions/ColorExtension.swift:23-25 | red, green and blue reassemble the low 24 bits |
| HexColor.BytesToChannels | Foodi/ViewExtensions/ColorExtension.swift:23-25 | the value 0xRRGGBB gives channels RR, GG and BB |
| HexColor.HexValueTwoMore | Foodi/ViewExtensions/ColorExtension.swift:21 | two more hex digits shift the value by a byte |
| HexColor.SixDigitChannels | Foodi/ViewExtensions/ColorExtension.swift:19-25 | six hex digits RRGGBB give the channels RR, GG, BB |
| HexColor.TintExample | Foodi/MealDetailView.swift:39 | "F6E8AC" gives (246, 232, 172) |
| HexColor.TintWithHashExample | Foodi/ViewExtensions/ColorExtension.swift:15 | "#F6E8AC" gives the same colour |

## Left out

- Network I/O is a parameter. Alamofire's request, `validate()` and response delivery are replaced by the `Reply` each fetch receives. The tests that call the live server are not modelled.
- Concurrency is not modelled. The actor's isolation and what other calls may do at its suspension points are not captured; calls are sequential.
- `MealDBError.errorDescription` is not modelled: it is user-facing text, and the model keeps only the four error cases.
- `Meal.isFavorite` is not modelled: it reads and writes `UserDefaults`.
- JSON text is not modelled: lexing, escaping and number formats. The model works on decoded values.
- Unicode text is approximated by ASCII:
  - `String.lowercased()` and `String <` come from the Swift standard library. They use Unicode default case mapping and compare under canonical equivalence, and they ignore the locale. Here they are ASCII case mapping and a comparison of character codes.
  - `capitalized(with: .current)` is Foundation's and depends on the locale. Here it is ASCII title-casing, and a word starts only after a space, tab, carriage return or line feed. Foundation may also start a word after punctuation. The sample meal's ingredient "free-range eggs, beaten" (FoodiTests/ModelTests/MealTests.swift:78) then displays as "Free-range Eggs, Beaten" in the model, where Foundation may give "Free-Range Eggs, Beaten".
- URL percent-encoding is not modelled. Query names and values appear in the URL as given.
- `MealDB.Url`: the `invalidURL` error is never produced. `URLComponents` yields a URL for every input the client builds, and the forced unwrap of `URLComponents(string:)` never fails for the fixed base.
- `Scanner.scanHexInt64` edge cases are left out: skipping leading whitespace and accepting a `0x` prefix. The model reads only the leading hex digits.
- `HexColor.ScanValue`: a value over 64 bits reads as `UInt64.max`. This follows Foundation's documented overflow behaviour, not its implementation.
- `Color.toHexCode` and the division of each channel by 255 into a `Double` are floating point and are not modelled.
- Hash values are not modelled, only equality. Swift does not promise that unequal values hash differently.
- `Meals.SortByName`: the order among ingredients with equal names is not modelled. In Swift it comes from the set's iteration order, which is unspecified, so the model promises only "sorted by name and a permutation of the set".
- `MealDB.MealDBClient.FetchFromCache`: which meal is returned when several cached meals share an id is not specified, as with `Set.first(where:)`.
- `Meals.EncodeMeal`: a `Meal` round trip is not stated because none holds. Encoding writes `idMeal` as a number and `strTags` as an array, and decoding accepts only strings. `EncodeMeal`'s contract proves that decoding the encoding fails.
- The sample meal test's decoded count of 9 ingredients is not restated on the full sample object. `Meals.EmptySlotSkipped`, `Meals.EmptySlotsAddNothing` and `Meals.DecodedIngredients` give the rule that count follows from.
- SwiftUI views, layout helpers, preference keys, fonts, the image-segmentation modifier and the placeholder animation are screen code with no data logic.
