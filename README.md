# Recipe browser core, modelled in Dafny

The recipe browser (`script.js`) loads rows of a recipe sheet into a flat list
of recipes. It files them into a three-level category index
(category → subcategory → sub-subcategory → recipes). It then routes URL
fragments (`#recipe-…`, `#category-…`, `#subcategory-…`, `#subsubcategory-…`)
to views. The recipe view keeps a stack of recently shown recipes, most
recent first, with no identifier twice. A search box filters recipes by a
case-insensitive substring.

This project models that core:

- `wrappers.dfy`: `Option`.
- `text.dfy` (module `Text`): `startsWith`, `includes`, `split` and `join` on a
  one-character separator, with the split/join round trips.
- `recipes.dfy` (module `Recipes`): the `Recipe` record, the mapping from sheet
  rows to records, and `findIndex` / `find` by identifier.
- `view_stack.dfy` (module `ViewStack`): the stack update of `showRecipe` as a
  function `Shown`, the `findIndex` loop as a method, and the stack lemmas.
- `category_index.dfy` (module `CategoryIndex`): the nested-map index, the
  predicate `IndexOf` that says what the index of a recipe list is, the build
  step, and lemmas about buckets, uniqueness and sizes.
- `router.dfy` (module `Router`): the routing decision of `showRecipeFromHash`
  as a pure function, link construction, and the routing lemmas.
- `search.dfy` (module `Search`): `searchRecipes` as a pure filter.
- `app.dfy` (module `App`): the page state (`recipes`, `categories`,
  `displayedRecipes`) as the class `RecipeBook`, whose methods update it in
  place. It also holds `Dispatch`, the effect of one navigation on the stack.

`encodeURIComponent`, `decodeURIComponent` and `toLowerCase` are library
calls. They appear as parameters: `encode: string -> string`,
`decode: string -> Option<string>` and `lower: string -> string`. For
`decode`, `None` stands for a thrown URIError. Lemmas that need more assume
it only for the strings involved: decoding undoes encoding, and no encoded
name contains `-`. The "exactly when" round trips of the composite links
(`Router.SubcategoryLinkRoundTrip`, `Router.SubsubcategoryLinkRoundTrip`) also
assume that no other piece of the link decodes to one of the names
(`Router.DecodesOnlyFrom`). The real functions meet this. `-` is never escaped, so every piece is the
canonical encoding of the text it decodes to. A piece that decodes to a name
is therefore that name's encoding.

The page state keeps one invariant, `App.RecipeBook.Valid`: no recipe is
shown twice. The constructor establishes it and every view keeps it.

Behaviour of the code that the model keeps as written:

- A subcategory or sub-subcategory fragment is split on every `-`. Only parts
  0–1 (or 0–2) are used. `encodeURIComponent` does not escape `-`, so a link
  built from a name containing `-` routes to different names. `Router.SubcategoryLinkMisSplit`
  shows one. A missing part reaches `decodeURIComponent` as `undefined` and
  decodes to the text "undefined" (`Router.SubcategoryMissingPart`).
- Unknown paths are not handled uniformly:
  - `showCategory` on an unknown name still renders and empties the stack.
  - `showSubcategory` throws a TypeError when the category is missing. It does
    not throw when only the subcategory is missing.
  - `showSubsubcategory` throws unless the whole path exists.
  - When a view throws, the stack is left as it was.
  - A `recipe-` fragment with no matching recipe changes nothing.

  So a missing category path does not always degrade to "no change": the model
  follows the code. `App.Dispatch` states each case.

## Model

| member | source | states |
|---|---|---|
| `Text.Split` | script.js:68-69 | a split yields at least one piece, and no piece contains the separator |
| `Text.SplitCount` | script.js:68-69 | a split yields one more piece than there are separators |
| `Text.JoinSplit` | script.js:359-361 | joining the split pieces with the separator gives back the text that was split |
| `Text.SplitJoin` | script.js:249-251 | splitting a join of separator-free pieces gives back exactly those pieces |
| `Text.Join` | script.js:359-361 | the joined text starts with the first piece, and the separator follows it when more pieces come |
| `Text.SplitAround` | script.js:206-210 | splitting two texts joined by one separator gives the pieces of the first followed by the pieces of the second |
| `Text.SplitHeadWhole` | script.js:249-258 | the first piece of a split is the whole text exactly when the text contains no separator |
| `Recipes.Cell` | script.js:57-64 | a null cell, a missing value or a column past the end of the row reads as "" |
| `Recipes.Lines` | script.js:68-69 | an empty field gives no lines; otherwise the lines contain no newline and joining them with "\n" gives back the field |
| `Recipes.FromRow` | script.js:63-72 | each field comes from its column with "" as default; materials and steps are empty exactly when their cell is, and join back to the cell text |
| `Recipes.FromRows` | script.js:56-73 | every row yields one record, in row order; no row is rejected |
| `Recipes.EmptyRowDefaults` | script.js:57-72 | a row with no cells yields a record whose fields are all empty |
| `Recipes.FirstIndex` | script.js:337-339 | -1 exactly when no entry has the identifier; otherwise the position of the first entry that has it |
| `Recipes.FindById` | script.js:240 | finds a recipe exactly when one has the identifier, and then the first such recipe |
| `ViewStack.FindIndex` | script.js:337-339 | the loop returns -1 exactly when the identifier is absent, otherwise the first position holding it |
| `ViewStack.Shown` | script.js:337-347 | the shown recipe is at index 0; the length grows by one exactly when its identifier was absent and is unchanged otherwise |
| `ViewStack.SpliceIsWithoutId` | script.js:342-344 | with distinct identifiers, splicing out the first entry with an identifier removes every entry with it |
| `ViewStack.AbsentAroundFirst` | script.js:337-344 | with distinct identifiers, the identifier found by `findIndex` occurs nowhere else on the stack |
| `ViewStack.ShownMovesToFront` | script.js:342-347 | with distinct identifiers, the new stack is the recipe followed by all other entries in their old order (a stable removal, not a swap) |
| `ViewStack.ShownKeepsDistinct` | script.js:337-347 | identifiers on the stack stay pairwise distinct |
| `ViewStack.ShowAgainMovesToFront` | script.js:337-347 | showing A, B, then A again leaves exactly [A, B] |
| `ViewStack.ShownTwice` | script.js:333-347 | showing the same recipe twice in a row leaves the stack as showing it once |
| `ViewStack.WithoutIdConcat` | script.js:342-347 | removing an identifier distributes over concatenation, so the remaining entries keep their order |
| `CategoryIndex.BucketCount` | script.js:191-193 | a bucket holds each recipe filed under its path as often as the recipe occurs in the list, and no other recipe |
| `CategoryIndex.BucketMembers` | script.js:191-193 | a recipe is in a bucket exactly when it is in the list and filed under that path |
| `CategoryIndex.BucketConcat` | script.js:175-194 | filing distributes over concatenation: buckets keep source order |
| `CategoryIndex.FiledPathIsIndexed` | script.js:176-190 | each recipe's category, subcategory and sub-subcategory keys exist in the index |
| `CategoryIndex.Insert` | script.js:176-193 | one filing step adds the recipe's category key, appends the recipe to the list at its own path and leaves the list at every other path unchanged |
| `CategoryIndex.LookupIsBucket` | script.js:191-193 | looking up any path in the index gives that path's bucket, or [] where the path is absent |
| `CategoryIndex.InsertKeys` | script.js:176-190 | one filing step keeps every level's key set equal to the names used at that level |
| `CategoryIndex.InsertBuckets` | script.js:191-193 | one filing step keeps every list equal to its bucket |
| `CategoryIndex.InsertPreserves` | script.js:175-194 | filing one more recipe turns the index of a list into the index of the longer list |
| `CategoryIndex.BuildIndex` | script.js:174-194 | starting from {} and filing every recipe gives the index of the list |
| `CategoryIndex.IndexDetermined` | script.js:174 | two indexes of the same recipe list are equal, so rebuilding is idempotent |
| `CategoryIndex.ExactlyOneBucket` | script.js:175-194 | every recipe of the list is in exactly one bucket, the one at its own path |
| `CategoryIndex.IndexSizesSum` | script.js:175-194 | the sizes of all buckets of the index add up to the number of recipes |
| `Router.Route` | script.js:235-260 | a fragment without one of the four prefixes routes to nothing; a recipe or category route carries the decoding of the text after the prefix |
| `Router.Part` | script.js:250-257 | a part inside the split is read as it is; a part past the end reaches the decoder as `undefined`, the text "undefined" |
| `Router.SubcategoryFromParts` | script.js:249-252 | routes to a subcategory exactly when parts 0 and 1 both decode, and then to their decodings; it is malformed exactly when one of them throws |
| `Router.SubsubcategoryFromParts` | script.js:254-258 | routes to a sub-subcategory exactly when parts 0 to 2 all decode, and then to their decodings; it is malformed exactly when one of them throws |
| `Router.SubcategoryIgnoresLaterParts` | script.js:249-252 | parts after the second do not change the subcategory route |
| `Router.SubsubcategoryIgnoresLaterParts` | script.js:254-258 | parts after the third do not change the sub-subcategory route |
| `Router.RouteRecipeFragment` | script.js:238-240 | a `recipe-` fragment routes to the decoding of the rest, and is malformed exactly when that decoding throws |
| `Router.RouteCategoryFragment` | script.js:245-247 | a `category-` fragment routes to the decoding of the rest, and is malformed exactly when that decoding throws |
| `Router.RouteSubcategoryFragment` | script.js:248-252 | a `subcategory-` fragment is routed by decoding parts 0 and 1 of the rest split on `-` |
| `Router.RouteSubsubcategoryFragment` | script.js:253-258 | a `subsubcategory-` fragment is routed by decoding parts 0 to 2 of the rest split on `-` |
| `Router.RecipeLink` | script.js:214-215 | a recipe link is `recipe-` followed by the encoded identifier |
| `Router.CategoryLink` | script.js:201-202 | a category link is `category-` followed by the encoded name |
| `Router.SubcategoryLink` | script.js:205-206 | a subcategory link is `subcategory-` followed by the two encoded names joined with `-` |
| `Router.SubsubcategoryLink` | script.js:209-210 | a sub-subcategory link is `subsubcategory-` followed by the three encoded names joined with `-` |
| `Router.RouteRecipeLink` | script.js:238-244 | a `recipe-` link routes to its recipe identifier whenever decoding undoes encoding |
| `Router.RouteCategoryLink` | script.js:245-247 | a `category-` menu link routes to its category whenever decoding undoes encoding |
| `Router.RouteSubcategoryLink` | script.js:206 | a subcategory menu link routes back to both names when no encoded name contains `-` |
| `Router.RouteSubsubcategoryLink` | script.js:210 | a sub-subcategory menu link routes back to all three names when no encoded name contains `-` |
| `Router.TwoPiecesWhole` | script.js:249-251 | the first two pieces of two split texts are those texts exactly when neither contains `-` |
| `Router.ThreePiecesWhole` | script.js:254-257 | the first three pieces of three split texts are those texts exactly when none contains `-` |
| `Router.SubcategoryLinkParts` | script.js:205-206 | a subcategory link is routed on the pieces of its two encoded names, and the decoder receives the two encoded names exactly when neither contains `-` |
| `Router.SubcategoryLinkRoundTrip` | script.js:205-206 | under the decoder hypotheses, a subcategory link routes back to its names exactly when no encoded name contains `-` |
| `Router.SubsubcategoryLinkParts` | script.js:209-210 | a sub-subcategory link is routed on the pieces of its three encoded names, and the decoder receives the three encoded names exactly when none contains `-` |
| `Router.SubsubcategoryLinkRoundTrip` | script.js:209-210 | under the decoder hypotheses, a sub-subcategory link routes back to its names exactly when no encoded name contains `-` |
| `Router.SubcategoryLinkMisSplit` | script.js:249-251 | the link for names "a-b" and "c" routes to "a" and "b" |
| `Router.SubcategoryMissingPart` | script.js:249-252 | `subcategory-X` with no second part routes to X and the text "undefined" |
| `Search.Matches` | script.js:395-399 | the empty query matches every recipe, which is why the search returns early on it |
| `Search.Hits` | script.js:393-404 | every reported recipe matches the query |
| `Search.SearchRecipes` | script.js:383-389 | an empty lowercased query yields no results; there are never more results than recipes |
| `Search.HitsCount` | script.js:393-404 | a matching recipe is reported exactly as often as it is listed (once, however many fields match); others are not reported |
| `Search.HitsConcat` | script.js:393-404 | results keep the order of the recipe list |
| `Search.SearchResults` | script.js:382-404 | a recipe is a result exactly when the lowercased query is non-empty and is included in its lowercased id, a material or a step |
| `App.Dispatch` | script.js:235-260 | a navigation that renders nothing leaves the stack unchanged, and category-level views empty it. A recipe route renders exactly when the recipe exists; the new stack is then `Shown` of the first recipe with the identifier, which on distinct identifiers is that recipe followed by the other entries in their old order. Subcategory views render exactly when the category exists; sub-subcategory views exactly when the whole path exists. Distinct identifiers stay distinct |
| `App.RecipeBook.constructor` | script.js:2-5 | the state starts with no recipes, an empty index and an empty stack |
| `App.RecipeBook.Load` | script.js:56-73 | the recipe list becomes the mapping of the rows |
| `App.RecipeBook.GenerateCategoryMenu` | script.js:174-194 | after the loop the index is `BuildIndex(recipes)`, the index of the recipe list |
| `App.RecipeBook.File` | script.js:175-194 | one iteration creates the missing containers and appends the recipe to its list |
| `App.RecipeBook.ShowCategory` | script.js:263-286 | the stack is empty afterwards, whatever it held |
| `App.RecipeBook.ShowSubcategory` | script.js:289-308 | renders and empties the stack when the category exists; otherwise throws a TypeError and leaves the stack |
| `App.RecipeBook.ShowSubsubcategory` | script.js:311-330 | renders and empties the stack when the whole path exists; otherwise throws a TypeError and leaves the stack |
| `App.RecipeBook.ShowRecipe` | script.js:333-347 | the new stack is `Shown(old stack, r)`, which is `r` followed by the other entries in their old order; distinct identifiers stay distinct |
| `App.RecipeBook.ShowRecipeFromHash` | script.js:235-260 | the outcome and the new stack are those of `Dispatch` applied to the route of the fragment |
| `App.RecipeBook.ClickRecipeLink` | script.js:214-215 | the handler shows the first recipe with the identifier; if the fragment changes, the route of the link is then applied to that stack, and for an identifier that decoding gives back the result is the same as one showing |

## Left out

- Fetching the sheet (`fetch`, the Promise, the response regex, `JSON.parse`, script.js:8-94): network I/O and library parsing. The rows arrive as a parameter of `Load`.
- `window.onload` (script.js:97-169), with its loading and debug panels and styling: UI plumbing. So is the rule that the index is built and the initial fragment routed only when at least one recipe loaded.
- HTML assembly and `innerHTML` writes for the menu, the views and the search results (script.js:196-228, 264-285, 350-378, 400-408). This includes the divider after every stacked recipe but the last, and the "no results" message. They render and change no modelled state.
- `App.RecipeBook.ClickRecipeLink`: the inline `onclick` handler (script.js:215) puts the identifier in a quoted string inside an HTML attribute. An identifier containing a quote, a backslash or a line break breaks or changes the handler. The model takes the string to be the identifier.
- `addEventListener("hashchange", …)` and reading `window.location.hash` (script.js:231, 236): event wiring. Routing takes the fragment after `#` as a parameter.
- Concrete percent-encoding and decoding, and Unicode `toLowerCase`: library calls, passed as parameters.
- Non-string cell values (numbers, dates, booleans from the sheet): cells are modelled as optional strings.
- Names that clash with `Object.prototype` properties (`constructor`, `__proto__`, …), which JavaScript objects would not treat as fresh keys. Keys are plain map keys here.
- JavaScript key enumeration order of the index, which drives the menu order: bucket contents are modelled, not the order of keys.
- `Router.Route`: its own contract covers the no-prefix case and one direction of the recipe and category routes. Both directions, including exactly when a fragment is malformed, are stated by `Router.RouteRecipeFragment`, `Router.RouteCategoryFragment`, `Router.RouteSubcategoryFragment` and `Router.RouteSubsubcategoryFragment` together with the contracts of `Router.SubcategoryFromParts` and `Router.SubsubcategoryFromParts`.
