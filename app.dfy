/**
 * The page's module-level state (`recipes`, `categories`,
 * `displayedRecipes`) and the operations that change it: loading the rows,
 * building the category index, the three category-level views, the recipe
 * view and the hash router that chooses between them.
 */
module App {
  import opened Wrappers
  import opened Recipes
  import opened CategoryIndex
  import opened ViewStack
  import opened Router

  /** How a navigation ended. */
  datatype Outcome =
      /** A view was shown. */
    | Rendered
      /** Nothing happened: unknown prefix, or no recipe with the routed identifier. */
    | NoChange
      /** A view indexed into a missing category or subcategory and threw a TypeError. */
    | TypeError
      /** `decodeURIComponent` threw a URIError. */
    | UriError

  /**
   * The outcome of acting on `intent` and the recipe stack it leaves: the
   * recipe view moves the recipe to the front, the category-level views
   * empty the stack, and every navigation that does not render (a miss, an
   * exception) leaves the stack as it was.
   */
  function Dispatch(intent: Intent, recipes: seq<Recipe>, categories: Index, stack: seq<Recipe>)
    : (result: (Outcome, seq<Recipe>))
    ensures result.0 != Rendered ==> result.1 == stack
    ensures result.0 == Rendered && !intent.RecipeIntent? ==> result.1 == []
    ensures intent.RecipeIntent? ==> (result.0 == Rendered <==> HasRecipe(recipes, intent.id))
    ensures intent.RecipeIntent? && HasRecipe(recipes, intent.id) ==>
              result.1 == Shown(stack, recipes[FirstIndex(recipes, intent.id)])
    ensures intent.RecipeIntent? && HasRecipe(recipes, intent.id) && DistinctIds(stack) ==>
              result.1 == [recipes[FirstIndex(recipes, intent.id)]] + WithoutId(stack, intent.id)
    ensures intent.CategoryIntent? ==> result.0 == Rendered
    ensures intent.SubcategoryIntent? ==> (result.0 == Rendered <==> intent.category in categories)
    ensures intent.SubsubcategoryIntent? ==>
              (result.0 == Rendered <==>
                 && intent.category in categories
                 && intent.subcategory in categories[intent.category]
                 && intent.subsubcategory in categories[intent.category][intent.subcategory])
    ensures intent.NoIntent? ==> result.0 == NoChange
    ensures intent.Malformed? ==> result.0 == UriError
    ensures DistinctIds(stack) ==> DistinctIds(result.1)
  {
    match intent
    case RecipeIntent(id) =>
      (match FindById(recipes, id)
       case Some(r) =>
         ShownKeepsDistinct(stack, r);
         assert DistinctIds(stack) ==> Shown(stack, r) == [r] + WithoutId(stack, id) by {
           if DistinctIds(stack) {
             ShownMovesToFront(stack, r);
           }
         }
         (Rendered, Shown(stack, r))
       case None => (NoChange, stack))
    case CategoryIntent(_) => (Rendered, [])
    case SubcategoryIntent(c, _) =>
      if c in categories then (Rendered, []) else (TypeError, stack)
    case SubsubcategoryIntent(c, s, ss) =>
      if c in categories && s in categories[c] && ss in categories[c][s] then (Rendered, [])
      else (TypeError, stack)
    case NoIntent => (NoChange, stack)
    case Malformed => (UriError, stack)
  }

  /** Two maps that agree away from `k` agree everywhere once `k` is set in both. */
  lemma UpdateAgrees<K, V>(m1: map<K, V>, m2: map<K, V>, k: K, v: V)
    requires m1 - {k} == m2 - {k}
    ensures m1[k := v] == m2[k := v]
  {
    forall x | x != k
      ensures x in m1 <==> x in m2
      ensures x in m1 ==> m1[x] == m2[x]
    {
      assert x in m1 <==> x in m1 - {k};
      assert x in m2 <==> x in m2 - {k};
      if x in m1 {
        assert m1[x] == (m1 - {k})[x];
        assert m2[x] == (m2 - {k})[x];
      }
    }
  }

  class RecipeBook {
    /** The recipes in sheet order. */
    var recipes: seq<Recipe>
    /** The category index built from `recipes`. */
    var categories: Index
    /** The recipes shown in the detail view, most recently shown first. */
    var displayedRecipes: seq<Recipe>

    /** No recipe is shown twice in the detail view. */
    predicate Valid()
      reads this
    {
      DistinctIds(displayedRecipes)
    }

    constructor ()
      ensures recipes == [] && categories == map[] && displayedRecipes == []
      ensures Valid()
    {
      recipes := [];
      categories := map[];
      displayedRecipes := [];
    }

    /** `recipes = rows.map(...)`: one record per row of the sheet, in row order. */
    method Load(rows: seq<Row>)
      modifies this`recipes
      ensures recipes == FromRows(rows)
    {
      recipes := FromRows(rows);
    }

    /**
     * The index part of `generateCategoryMenu`: start from `{}` and file every
     * recipe in turn.
     */
    method GenerateCategoryMenu()
      modifies this`categories
      ensures categories == BuildIndex(recipes)
      ensures IndexOf(categories, recipes)
    {
      categories := map[];
      var i := 0;
      while i < |recipes|
        invariant 0 <= i <= |recipes|
        invariant categories == BuildIndex(recipes[..i])
      {
        File(recipes[i]);
        assert recipes[..i + 1][..i] == recipes[..i];
        i := i + 1;
      }
      assert recipes[..i] == recipes;
    }

    /**
     * One iteration of the `forEach` in `generateCategoryMenu`: create the
     * containers met for the first time, then `push` the recipe.
     */
    method File(r: Recipe)
      modifies this`categories
      ensures categories == Insert(old(categories), r)
    {
      var c, s, ss := r.category, r.subcategory, r.subsubcategory;
      ghost var subs := if c in categories then categories[c] else map[];
      ghost var subsubs := if s in subs then subs[s] else map[];
      ghost var bucket := if ss in subsubs then subsubs[ss] else [];
      ghost var outer := categories - {c};
      if c !in categories {
        categories := categories[c := map[]];
      }
      assert categories - {c} == outer && categories[c] == subs;
      if s !in categories[c] {
        categories := categories[c := categories[c][s := map[]]];
      }
      assert categories - {c} == outer && categories[c] - {s} == subs - {s};
      assert categories[c][s] == subsubs;
      if ss !in categories[c][s] {
        categories := categories[c := categories[c][s := categories[c][s][ss := []]]];
      }
      assert categories - {c} == outer && categories[c] - {s} == subs - {s};
      assert categories[c][s] - {ss} == subsubs - {ss} && categories[c][s][ss] == bucket;
      ghost var pushed := bucket + [r];
      UpdateAgrees(categories[c][s], subsubs, ss, pushed);
      UpdateAgrees(categories[c], subs, s, subsubs[ss := pushed]);
      UpdateAgrees(categories, old(categories), c, subs[s := subsubs[ss := pushed]]);
      categories := categories[c := categories[c][s := categories[c][s][ss := categories[c][s][ss] + [r]]]];
    }

    /** `showCategory`: the view of one category; it never fails and always empties the stack. */
    method ShowCategory(c: string)
      modifies this`displayedRecipes
      ensures displayedRecipes == []
      ensures Valid()
    {
      displayedRecipes := [];
    }

    /**
     * `showSubcategory`: iterating `categories[c][s]` throws when category `c`
     * is missing, before the stack is emptied; a missing `s` only iterates
     * over nothing.
     */
    method ShowSubcategory(c: string, s: string) returns (outcome: Outcome)
      requires Valid()
      modifies this`displayedRecipes
      ensures Valid()
      ensures c in categories ==> outcome == Rendered && displayedRecipes == []
      ensures c !in categories ==> outcome == TypeError && displayedRecipes == old(displayedRecipes)
    {
      if c !in categories {
        return TypeError;
      }
      displayedRecipes := [];
      outcome := Rendered;
    }

    /**
     * `showSubsubcategory`: `categories[c][s][ss].forEach` throws unless the
     * whole path exists, and then the stack is left as it was.
     */
    method ShowSubsubcategory(c: string, s: string, ss: string) returns (outcome: Outcome)
      requires Valid()
      modifies this`displayedRecipes
      ensures Valid()
      ensures c in categories && s in categories[c] && ss in categories[c][s] ==>
                outcome == Rendered && displayedRecipes == []
      ensures !(c in categories && s in categories[c] && ss in categories[c][s]) ==>
                outcome == TypeError && displayedRecipes == old(displayedRecipes)
    {
      if c !in categories || s !in categories[c] || ss !in categories[c][s] {
        return TypeError;
      }
      displayedRecipes := [];
      outcome := Rendered;
    }

    /**
     * `showRecipe`: find the entry with the same identifier, splice it out
     * if there is one, and put the recipe in front.
     */
    method ShowRecipe(r: Recipe)
      requires Valid()
      modifies this`displayedRecipes
      ensures Valid()
      ensures displayedRecipes == Shown(old(displayedRecipes), r)
      ensures displayedRecipes == [r] + WithoutId(old(displayedRecipes), r.id)
    {
      ghost var stack := displayedRecipes;
      var existing := FindIndex(displayedRecipes, r.id);
      if existing != -1 {
        displayedRecipes := displayedRecipes[..existing] + displayedRecipes[existing + 1..];
      }
      displayedRecipes := [r] + displayedRecipes;
      ShownKeepsDistinct(stack, r);
      ShownMovesToFront(stack, r);
    }

    /**
     * `showRecipeFromHash` on the fragment after `#`: route it, then show the
     * recipe or view it names.
     */
    method ShowRecipeFromHash(fragment: string, decode: string -> Option<string>)
      returns (outcome: Outcome)
      requires Valid()
      modifies this`displayedRecipes
      ensures Valid()
      ensures (outcome, displayedRecipes)
              == Dispatch(Route(fragment, decode), recipes, categories, old(displayedRecipes))
    {
      var intent := Route(fragment, decode);
      match intent
      case RecipeIntent(id) =>
        var found := FindById(recipes, id);
        if found.Some? {
          ShowRecipe(found.value);
          outcome := Rendered;
        } else {
          outcome := NoChange;
        }
      case CategoryIntent(c) =>
        ShowCategory(c);
        outcome := Rendered;
      case SubcategoryIntent(c, s) =>
        outcome := ShowSubcategory(c, s);
      case SubsubcategoryIntent(c, s, ss) =>
        outcome := ShowSubsubcategory(c, s, ss);
      case NoIntent =>
        outcome := NoChange;
      case Malformed =>
        outcome := UriError;
    }
  
    /**
     * A click on a recipe link of the menu. The inline `onclick` handler
     * shows `recipes.find(r => r.id === id)` at once; the browser then moves
     * to the link's fragment, and when that changes the fragment the
     * `hashchange` listener routes it as well. The menu only links recipes
     * of the loaded list, so the recipe is always found.
     */
    method ClickRecipeLink(id: string, encode: string -> string, decode: string -> Option<string>,
                           hashChanges: bool)
      returns (outcome: Outcome)
      requires Valid()
      requires HasRecipe(recipes, id)
      modifies this`displayedRecipes
      ensures Valid()
      ensures !hashChanges ==>
                outcome == Rendered
                && displayedRecipes == Shown(old(displayedRecipes), recipes[FirstIndex(recipes, id)])
      ensures hashChanges ==>
                (outcome, displayedRecipes)
                == Dispatch(Route(RecipeLink(id, encode), decode), recipes, categories,
                            Shown(old(displayedRecipes), recipes[FirstIndex(recipes, id)]))
      ensures decode(encode(id)) == Some(id) ==>
                outcome == Rendered
                && displayedRecipes == Shown(old(displayedRecipes), recipes[FirstIndex(recipes, id)])
    {
      var clicked := FindById(recipes, id);
      ShowRecipe(clicked.value);
      outcome := Rendered;
      if hashChanges {
        outcome := ShowRecipeFromHash(RecipeLink(id, encode), decode);
        if decode(encode(id)) == Some(id) {
          RouteRecipeLink(id, encode, decode);
          ShownTwice(old(displayedRecipes), clicked.value);
        }
      }
    }
  }
}
