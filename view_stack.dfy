/**
 * The stack of recipes shown in the detail view (`displayedRecipes`), most
 * recently shown first: `showRecipe` moves a recipe to the front, removing an
 * earlier entry with the same identifier by a stable `splice`.
 */
module ViewStack {
  import opened Recipes

  /** No two entries share an identifier. */
  predicate DistinctIds(stack: seq<Recipe>) {
    forall i, j :: 0 <= i < j < |stack| ==> stack[i].id != stack[j].id
  }

  /**
   * The stack after `showRecipe(r)`: the entry found by `findIndex` is
   * spliced out, then `r` is put in front (`unshift`).
   */
  function Shown(stack: seq<Recipe>, r: Recipe): (s: seq<Recipe>)
    ensures |s| == if HasRecipe(stack, r.id) then |stack| else |stack| + 1
    ensures s[0] == r
  {
    var k := FirstIndex(stack, r.id);
    [r] + if k == -1 then stack else stack[..k] + stack[k + 1..]
  }

  /** The entries of `stack` whose identifier is not `id`, in stack order. */
  function WithoutId(stack: seq<Recipe>, id: string): seq<Recipe>
  {
    if stack == [] then []
    else (if stack[0].id == id then [] else [stack[0]]) + WithoutId(stack[1..], id)
  }

  /** The entries left are exactly those of the stack without the identifier. */
  lemma {:induction false} InWithoutId(stack: seq<Recipe>, id: string, x: Recipe)
    ensures x in WithoutId(stack, id) <==> x in stack && x.id != id
    decreases |stack|
  {
    if stack != [] {
      InWithoutId(stack[1..], id, x);
      assert stack == [stack[0]] + stack[1..];
    }
  }

  /** Filtering out an identifier distributes over concatenation, so order is kept. */
  lemma {:induction false} WithoutIdConcat(a: seq<Recipe>, b: seq<Recipe>, id: string)
    ensures WithoutId(a + b, id) == WithoutId(a, id) + WithoutId(b, id)
    decreases |a|
  {
    if a != [] {
      var head := if a[0].id == id then [] else [a[0]];
      assert (a + b)[0] == a[0] && (a + b)[1..] == a[1..] + b;
      calc {
        WithoutId(a + b, id);
        head + WithoutId(a[1..] + b, id);
        { WithoutIdConcat(a[1..], b, id); }
        head + (WithoutId(a[1..], id) + WithoutId(b, id));
        (head + WithoutId(a[1..], id)) + WithoutId(b, id);
        WithoutId(a, id) + WithoutId(b, id);
      }
    } else {
      assert a + b == b;
    }
  }

  /** Filtering out an identifier that does not occur changes nothing. */
  lemma {:induction false} WithoutAbsentId(stack: seq<Recipe>, id: string)
    requires !HasRecipe(stack, id)
    ensures WithoutId(stack, id) == stack
    decreases |stack|
  {
    if stack != [] {
      assert stack[0].id != id;
      WithoutAbsentId(stack[1..], id);
      assert [stack[0]] + stack[1..] == stack;
    }
  }

  /** A sub-sequence of a stack with distinct identifiers has distinct identifiers. */
  lemma {:induction false} WithoutIdKeepsDistinct(stack: seq<Recipe>, id: string)
    requires DistinctIds(stack)
    ensures DistinctIds(WithoutId(stack, id))
    decreases |stack|
  {
    if stack != [] {
      var tail := stack[1..];
      assert DistinctIds(tail) by {
        forall i, j | 0 <= i < j < |tail| ensures tail[i].id != tail[j].id {
          assert tail[i] == stack[i + 1] && tail[j] == stack[j + 1];
        }
      }
      WithoutIdKeepsDistinct(tail, id);
      var rest := WithoutId(tail, id);
      forall x | x in rest ensures x.id != stack[0].id {
        InWithoutId(tail, id, x);
        var j :| 0 <= j < |tail| && tail[j] == x;
        assert stack[j + 1] == x;
      }
    }
  }

  /**
   * On a stack with distinct identifiers, showing `r` puts it in front of
   * all other entries, in their previous order: the old entry with `r`'s
   * identifier, if any, is the only one that goes.
   */
  lemma ShownMovesToFront(stack: seq<Recipe>, r: Recipe)
    requires DistinctIds(stack)
    ensures Shown(stack, r) == [r] + WithoutId(stack, r.id)
  {
    var k := FirstIndex(stack, r.id);
    if k == -1 {
      WithoutAbsentId(stack, r.id);
    } else {
      SpliceIsWithoutId(stack, r.id, k);
    }
  }

  /** On distinct identifiers, splicing out the first entry with `id` removes every entry with `id`. */
  lemma SpliceIsWithoutId(stack: seq<Recipe>, id: string, k: int)
    requires DistinctIds(stack)
    requires FirstWithId(stack, id, k)
    ensures stack[..k] + stack[k + 1..] == WithoutId(stack, id)
  {
    var before, after := stack[..k], stack[k + 1..];
    var rest := [stack[k]] + after;
    AbsentAroundFirst(stack, id, k);
    assert rest[0] == stack[k] && rest[1..] == after;
    calc {
      WithoutId(stack, id);
      { assert stack == before + rest; }
      WithoutId(before + rest, id);
      { WithoutIdConcat(before, rest, id); }
      WithoutId(before, id) + WithoutId(rest, id);
      WithoutId(before, id) + WithoutId(after, id);
      { WithoutAbsentId(before, id); WithoutAbsentId(after, id); }
      before + after;
    }
  }

  /** With distinct identifiers, `id` occurs neither before nor after its first position. */
  lemma AbsentAroundFirst(stack: seq<Recipe>, id: string, k: int)
    requires DistinctIds(stack)
    requires FirstWithId(stack, id, k)
    ensures !HasRecipe(stack[..k], id) && !HasRecipe(stack[k + 1..], id)
  {
    var before, after := stack[..k], stack[k + 1..];
    forall i | 0 <= i < |before|
      ensures before[i].id != id
    {
      assert before[i] == stack[i];
    }
    forall i | 0 <= i < |after|
      ensures after[i].id != id
    {
      assert after[i] == stack[k + 1 + i];
    }
  }

  /** Showing a recipe keeps the identifiers on the stack pairwise distinct. */
  lemma ShownKeepsDistinct(stack: seq<Recipe>, r: Recipe)
    ensures DistinctIds(stack) ==> DistinctIds(Shown(stack, r))
  {
    if DistinctIds(stack) {
      ShownMovesToFront(stack, r);
      WithoutIdKeepsDistinct(stack, r.id);
      var s := Shown(stack, r);
      forall i, j | 0 <= i < j < |s| ensures s[i].id != s[j].id {
        assert s[j] in WithoutId(stack, r.id);
        InWithoutId(stack, r.id, s[j]);
        if i > 0 {
          assert s[i] == WithoutId(stack, r.id)[i - 1] && s[j] == WithoutId(stack, r.id)[j - 1];
        }
      }
    }
  }

  /**
   * Showing the recipe already in front changes nothing, so showing the
   * same recipe twice in a row is the same as showing it once.
   */
  lemma ShownTwice(stack: seq<Recipe>, r: Recipe)
    ensures Shown(Shown(stack, r), r) == Shown(stack, r)
  {
    var once := Shown(stack, r);
    assert FirstIndex(once, r.id) == 0;
    assert once[..0] + once[1..] == once[1..];
  }

  /** Showing A, then B, then A again leaves [A, B]: A moved to front, not duplicated. */
  lemma ShowAgainMovesToFront(a: Recipe, b: Recipe)
    requires a.id != b.id
    ensures Shown(Shown(Shown([], a), b), a) == [a, b]
  {
    assert Shown([], a) == [a];
    assert Shown([a], b) == [b, a];
    assert FirstIndex([b, a], a.id) == 1;
  }

  /**
   * `displayedRecipes.findIndex(r => r.id === id)` as the loop it performs:
   * the first position holding `id`, or -1.
   */
  method FindIndex(stack: seq<Recipe>, id: string) returns (k: int)
    ensures k == -1 <==> !HasRecipe(stack, id)
    ensures k != -1 ==> FirstWithId(stack, id, k)
    ensures k == FirstIndex(stack, id)
  {
    k := 0;
    while k < |stack|
      invariant 0 <= k <= |stack|
      invariant forall j :: 0 <= j < k ==> stack[j].id != id
    {
      if stack[k].id == id {
        return;
      }
      k := k + 1;
    }
    k := -1;
  }
}
