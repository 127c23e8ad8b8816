/**
 * `searchRecipes`: the recipes whose identifier, or one of whose materials
 * or steps, contains the query, all compared lowercased. `toLowerCase` is the
 * parameter `lower`.
 */
module Search {
  import opened Text
  import opened Recipes

  /**
   * The lowercased identifier, some lowercased material or some lowercased
   * step includes `q`. Every recipe matches the empty query, which is why
   * `searchRecipes` returns early on it.
   */
  predicate Matches(r: Recipe, q: string, lower: string -> string)
    ensures q == "" ==> Matches(r, q, lower)
  {
    assert OccursAt(lower(r.id), "", 0);
    || Includes(lower(r.id), q)
    || (exists m :: m in r.materials && Includes(lower(m), q))
    || (exists st :: st in r.steps && Includes(lower(st), q))
  }

  /** The `forEach` over the recipes: those that match `q`, each visited once, in order. */
  function Hits(rs: seq<Recipe>, q: string, lower: string -> string): (hits: seq<Recipe>)
    ensures forall i :: 0 <= i < |hits| ==> Matches(hits[i], q, lower)
  {
    if rs == [] then []
    else Hits(rs[..|rs| - 1], q, lower) + if Matches(rs[|rs| - 1], q, lower) then [rs[|rs| - 1]] else []
  }

  /** The search results for `query`: none at all when the lowercased query is empty. */
  function SearchRecipes(rs: seq<Recipe>, query: string, lower: string -> string): (hits: seq<Recipe>)
    ensures lower(query) == "" ==> hits == []
    ensures |hits| <= |rs|
  {
    var q := lower(query);
    if q == "" then [] else HitsCount(rs, q, lower); Hits(rs, q, lower)
  }

  /**
   * A matching recipe is reported exactly as often as it occurs in the list
   * (so once for a recipe listed once, however many of its fields match),
   * and a recipe that does not match is not reported.
   */
  lemma {:induction false} HitsCount(rs: seq<Recipe>, q: string, lower: string -> string)
    ensures forall x :: multiset(Hits(rs, q, lower))[x] == if Matches(x, q, lower) then multiset(rs)[x] else 0
    ensures |Hits(rs, q, lower)| <= |rs|
    decreases |rs|
  {
    if rs != [] {
      var init, last := rs[..|rs| - 1], rs[|rs| - 1];
      assert rs == init + [last];
      HitsCount(init, q, lower);
    }
  }

  /** Results keep the order of the recipe list: searching distributes over concatenation. */
  lemma {:induction false} HitsConcat(a: seq<Recipe>, b: seq<Recipe>, q: string, lower: string -> string)
    ensures Hits(a + b, q, lower) == Hits(a, q, lower) + Hits(b, q, lower)
    decreases |b|
  {
    if b == [] {
      assert a + b == a;
    } else {
      var init := b[..|b| - 1];
      HitsConcat(a, init, q, lower);
      assert (a + b)[..|a + b| - 1] == a + init;
      assert (a + b)[|a + b| - 1] == b[|b| - 1];
    }
  }

  /**
   * A recipe is among the results exactly when the lowercased query is not
   * empty, the recipe is in the list and it matches; it is reported as often
   * as it is listed.
   */
  lemma SearchResults(rs: seq<Recipe>, query: string, lower: string -> string, x: Recipe)
    ensures var q := lower(query);
      && (x in SearchRecipes(rs, query, lower) <==> q != "" && x in rs && Matches(x, q, lower))
      && multiset(SearchRecipes(rs, query, lower))[x] ==
           if q != "" && Matches(x, q, lower) then multiset(rs)[x] else 0
  {
    var q := lower(query);
    if q != "" {
      HitsCount(rs, q, lower);
      assert x in Hits(rs, q, lower) <==> multiset(Hits(rs, q, lower))[x] > 0;
      assert x in rs <==> multiset(rs)[x] > 0;
    }
  }
}
