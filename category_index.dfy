/**
 * The three-level category index (`categories`) that `generateCategoryMenu`
 * builds from the recipe list: category name, then subcategory name, then
 * sub-subcategory name, then the recipes filed there in source order.
 */
module CategoryIndex {
  import opened Recipes

  /** Where a recipe is filed. */
  datatype Path = Path(category: string, subcategory: string, subsubcategory: string)

  function PathOf(r: Recipe): Path {
    Path(r.category, r.subcategory, r.subsubcategory)
  }

  /** `categories[c][s][ss]` is the list of recipes filed under (c, s, ss). */
  type Index = map<string, map<string, map<string, seq<Recipe>>>>

  /** The recipes of `rs` filed under any path of `ps`, in source order. */
  function Matching(rs: seq<Recipe>, ps: set<Path>): seq<Recipe>
  {
    if rs == [] then []
    else Matching(rs[..|rs| - 1], ps) + if PathOf(rs[|rs| - 1]) in ps then [rs[|rs| - 1]] else []
  }

  /** The recipes of `rs` filed under `p`, in source order. */
  function Bucket(rs: seq<Recipe>, p: Path): seq<Recipe>
  {
    Matching(rs, {p})
  }

  /**
   * A bucket holds each recipe filed under its path exactly as often as the
   * recipe occurs in the list, and nothing else.
   */
  lemma {:induction false} BucketCount(rs: seq<Recipe>, p: Path, x: Recipe)
    ensures multiset(Bucket(rs, p))[x] == if PathOf(x) == p then multiset(rs)[x] else 0
    decreases |rs|
  {
    if rs != [] {
      var init, last := rs[..|rs| - 1], rs[|rs| - 1];
      assert rs == init + [last];
      BucketCount(init, p, x);
    }
  }

  /** A recipe is in a bucket exactly when it is in the list and filed under that path. */
  lemma BucketMembers(rs: seq<Recipe>, p: Path, x: Recipe)
    ensures x in Bucket(rs, p) <==> x in rs && PathOf(x) == p
  {
    BucketCount(rs, p, x);
    assert x in Bucket(rs, p) <==> multiset(Bucket(rs, p))[x] > 0;
    assert x in rs <==> multiset(rs)[x] > 0;
  }

  /** Filing distributes over concatenation: earlier recipes stay earlier in their bucket. */
  lemma {:induction false} BucketConcat(a: seq<Recipe>, b: seq<Recipe>, p: Path)
    ensures Bucket(a + b, p) == Bucket(a, p) + Bucket(b, p)
    decreases |b|
  {
    if b == [] {
      assert a + b == a;
    } else {
      var init := b[..|b| - 1];
      BucketConcat(a, init, p);
      assert (a + b)[..|a + b| - 1] == a + init;
      assert (a + b)[|a + b| - 1] == b[|b| - 1];
    }
  }

  /** The category names that occur in `rs`. */
  function Categories(rs: seq<Recipe>): set<string> {
    set r | r in rs :: r.category
  }

  /** The subcategory names that occur in `rs` under category `c`. */
  function Subcategories(rs: seq<Recipe>, c: string): set<string> {
    set r | r in rs && r.category == c :: r.subcategory
  }

  /** The sub-subcategory names that occur in `rs` under `c` and `s`. */
  function Subsubcategories(rs: seq<Recipe>, c: string, s: string): set<string> {
    set r | r in rs && r.category == c && r.subcategory == s :: r.subsubcategory
  }

  /**
   * `idx` is the index of `rs`: a key exists at each level exactly when some
   * recipe uses it there, and each innermost list is that path's bucket.
   */
  ghost predicate IndexOf(idx: Index, rs: seq<Recipe>) {
    && idx.Keys == Categories(rs)
    && (forall c :: c in idx ==> idx[c].Keys == Subcategories(rs, c))
    && (forall c, s :: c in idx && s in idx[c] ==> idx[c][s].Keys == Subsubcategories(rs, c, s))
    && (forall c, s, ss :: c in idx && s in idx[c] && ss in idx[c][s] ==>
          idx[c][s][ss] == Bucket(rs, Path(c, s, ss)))
  }

  /**
   * One iteration of the `forEach` in `generateCategoryMenu`: create the
   * containers met for the first time, then `push` the recipe.
   */
  function Insert(idx: Index, r: Recipe): (filed: Index)
    ensures filed.Keys == idx.Keys + {r.category}
    ensures Lookup(filed, PathOf(r)) == Lookup(idx, PathOf(r)) + [r]
    ensures forall p :: p != PathOf(r) ==> Lookup(filed, p) == Lookup(idx, p)
  {
    var subs := if r.category in idx then idx[r.category] else map[];
    var subsubs := if r.subcategory in subs then subs[r.subcategory] else map[];
    var bucket := if r.subsubcategory in subsubs then subsubs[r.subsubcategory] else [];
    idx[r.category := subs[r.subcategory := subsubs[r.subsubcategory := bucket + [r]]]]
  }

  /** The list at `p`, or the empty list where the index has no such path. */
  function Lookup(idx: Index, p: Path): seq<Recipe> {
    if p.category in idx && p.subcategory in idx[p.category]
       && p.subsubcategory in idx[p.category][p.subcategory]
    then idx[p.category][p.subcategory][p.subsubcategory]
    else []
  }

  /** A path with recipes in `rs` is present, at all three levels, in the index of `rs`. */
  lemma FiledPathIsIndexed(idx: Index, rs: seq<Recipe>, x: Recipe)
    requires IndexOf(idx, rs)
    requires x in rs
    ensures x.category in idx && x.subcategory in idx[x.category]
    ensures x.subsubcategory in idx[x.category][x.subcategory]
  {
    assert x.category in Categories(rs);
    assert x.subcategory in Subcategories(rs, x.category);
    assert x.subsubcategory in Subsubcategories(rs, x.category, x.subcategory);
  }

  /** Looking a path up in the index of `rs` gives that path's bucket, present or not. */
  lemma LookupIsBucket(idx: Index, rs: seq<Recipe>, p: Path)
    requires IndexOf(idx, rs)
    ensures Lookup(idx, p) == Bucket(rs, p)
  {
    var b := Bucket(rs, p);
    if b != [] {
      assert b[0] in b;
      BucketMembers(rs, p, b[0]);
      FiledPathIsIndexed(idx, rs, b[0]);
    }
  }

  lemma CategoriesAppend(rs: seq<Recipe>, r: Recipe, c: string)
    ensures Categories(rs + [r]) == Categories(rs) + {r.category}
    ensures Subcategories(rs + [r], c) == Subcategories(rs, c) + if r.category == c then {r.subcategory} else {}
    ensures c !in Categories(rs) ==> Subcategories(rs, c) == {}
  {
    assert forall x :: x in rs + [r] <==> x in rs || x == r;
  }

  lemma SubsubcategoriesAppend(rs: seq<Recipe>, r: Recipe, c: string, s: string)
    ensures Subsubcategories(rs + [r], c, s) == Subsubcategories(rs, c, s)
      + if r.category == c && r.subcategory == s then {r.subsubcategory} else {}
    ensures s !in Subcategories(rs, c) ==> Subsubcategories(rs, c, s) == {}
  {
    assert forall x :: x in rs + [r] <==> x in rs || x == r;
  }

  lemma BucketAppend(rs: seq<Recipe>, r: Recipe, p: Path)
    ensures Bucket(rs + [r], p) == Bucket(rs, p) + if PathOf(r) == p then [r] else []
  {
    assert (rs + [r])[..|rs|] == rs;
  }

  /** Adding one recipe to the list and inserting it into the index keep them matched. */
  lemma InsertPreserves(idx: Index, rs: seq<Recipe>, r: Recipe)
    requires IndexOf(idx, rs)
    ensures IndexOf(Insert(idx, r), rs + [r])
  {
    InsertKeys(idx, rs, r);
    InsertBuckets(idx, rs, r);
  }

  /** One filing step keeps the category and subcategory key sets equal to the names in use. */
  lemma InsertKeys(idx: Index, rs: seq<Recipe>, r: Recipe)
    requires IndexOf(idx, rs)
    ensures var idx' := Insert(idx, r);
      && idx'.Keys == Categories(rs + [r])
      && (forall c :: c in idx' ==> idx'[c].Keys == Subcategories(rs + [r], c))
      && (forall c, s :: c in idx' && s in idx'[c] ==>
            idx'[c][s].Keys == Subsubcategories(rs + [r], c, s))
  {
    var idx' := Insert(idx, r);
    CategoriesAppend(rs, r, r.category);
    forall c | c in idx'
      ensures idx'[c].Keys == Subcategories(rs + [r], c)
    {
      InsertSubcategoryKeys(idx, rs, r, c);
    }
    forall c, s | c in idx' && s in idx'[c]
      ensures idx'[c][s].Keys == Subsubcategories(rs + [r], c, s)
    {
      InsertSubsubcategoryKeys(idx, rs, r, c, s);
    }
  }

  lemma InsertSubcategoryKeys(idx: Index, rs: seq<Recipe>, r: Recipe, c: string)
    requires IndexOf(idx, rs)
    requires c in Insert(idx, r)
    ensures Insert(idx, r)[c].Keys == Subcategories(rs + [r], c)
  {
    CategoriesAppend(rs, r, c);
    if c != r.category {
      assert Insert(idx, r)[c] == idx[c];
    }
  }

  lemma InsertSubsubcategoryKeys(idx: Index, rs: seq<Recipe>, r: Recipe, c: string, s: string)
    requires IndexOf(idx, rs)
    requires c in Insert(idx, r) && s in Insert(idx, r)[c]
    ensures Insert(idx, r)[c][s].Keys == Subsubcategories(rs + [r], c, s)
  {
    SubsubcategoriesAppend(rs, r, c, s);
    CategoriesAppend(rs, r, c);
    if c != r.category {
      assert Insert(idx, r)[c] == idx[c];
    } else if s != r.subcategory {
      assert c in idx && Insert(idx, r)[c][s] == idx[c][s];
    }
  }

  lemma InsertBuckets(idx: Index, rs: seq<Recipe>, r: Recipe)
    requires IndexOf(idx, rs)
    ensures var idx' := Insert(idx, r);
      forall c, s, ss :: c in idx' && s in idx'[c] && ss in idx'[c][s] ==>
        idx'[c][s][ss] == Bucket(rs + [r], Path(c, s, ss))
  {
    var idx' := Insert(idx, r);
    forall c, s, ss | c in idx' && s in idx'[c] && ss in idx'[c][s]
      ensures idx'[c][s][ss] == Bucket(rs + [r], Path(c, s, ss))
    {
      var p := Path(c, s, ss);
      BucketAppend(rs, r, p);
      LookupIsBucket(idx, rs, p);
    }
  }

  /**
   * The index `generateCategoryMenu` leaves behind: starting from `{}`, each
   * recipe in turn is inserted.
   */
  function BuildIndex(rs: seq<Recipe>): (idx: Index)
    ensures IndexOf(idx, rs)
  {
    if rs == [] then map[]
    else
      var init, last := rs[..|rs| - 1], rs[|rs| - 1];
      assert rs == init + [last];
      InsertPreserves(BuildIndex(init), init, last);
      Insert(BuildIndex(init), last)
  }

  /**
   * The contents of an index are determined by the recipe list alone, so
   * rebuilding from the same recipes gives the same index.
   */
  lemma IndexDetermined(a: Index, b: Index, rs: seq<Recipe>)
    requires IndexOf(a, rs) && IndexOf(b, rs)
    ensures a == b
  {
    forall c | c in a ensures a[c] == b[c] {
      forall s | s in a[c] ensures a[c][s] == b[c][s] {
        assert a[c][s].Keys == b[c][s].Keys;
      }
      assert a[c].Keys == b[c].Keys;
    }
    assert a.Keys == b.Keys;
  }

  /** Every recipe of the list is in exactly one list of its index: the one at its own path. */
  lemma ExactlyOneBucket(idx: Index, rs: seq<Recipe>, r: Recipe, p: Path)
    requires IndexOf(idx, rs)
    requires r in rs
    ensures r in Lookup(idx, p) <==> p == PathOf(r)
  {
    LookupIsBucket(idx, rs, p);
    BucketMembers(rs, p, r);
  }

  /** The paths present in an index, down to the third level. */
  ghost function IndexPaths(idx: Index): set<Path> {
    set c, s, ss | c in idx && s in idx[c] && ss in idx[c][s] :: Path(c, s, ss)
  }

  ghost function Pick(ps: set<Path>): Path
    requires ps != {}
  {
    var p :| p in ps; p
  }

  /** The total length of the lists the index holds at the paths `ps`. */
  ghost function SizeSum(idx: Index, ps: set<Path>): nat
    decreases ps
  {
    if ps == {} then 0
    else
      var p := Pick(ps);
      |Lookup(idx, p)| + SizeSum(idx, ps - {p})
  }

  lemma {:induction false} MatchingAddPath(rs: seq<Recipe>, ps: set<Path>, p: Path)
    requires p !in ps
    ensures |Matching(rs, ps + {p})| == |Bucket(rs, p)| + |Matching(rs, ps)|
    decreases |rs|
  {
    if rs != [] {
      MatchingAddPath(rs[..|rs| - 1], ps, p);
    }
  }

  lemma {:induction false} MatchingNoPaths(rs: seq<Recipe>)
    ensures Matching(rs, {}) == []
    decreases |rs|
  {
    if rs != [] {
      MatchingNoPaths(rs[..|rs| - 1]);
    }
  }

  lemma {:induction false} MatchingAll(rs: seq<Recipe>, ps: set<Path>)
    requires forall x :: x in rs ==> PathOf(x) in ps
    ensures Matching(rs, ps) == rs
    decreases |rs|
  {
    if rs != [] {
      var init, last := rs[..|rs| - 1], rs[|rs| - 1];
      assert rs == init + [last];
      assert last in rs;
      forall x | x in init
        ensures PathOf(x) in ps
      {
        assert x in rs;
      }
      MatchingAll(init, ps);
    }
  }

  lemma {:induction false} SizeSumMatching(idx: Index, rs: seq<Recipe>, ps: set<Path>)
    requires forall p :: p in ps ==> Lookup(idx, p) == Bucket(rs, p)
    ensures SizeSum(idx, ps) == |Matching(rs, ps)|
    decreases ps
  {
    if ps == {} {
      MatchingNoPaths(rs);
    } else {
      var p := Pick(ps);
      var rest := ps - {p};
      SizeSumMatching(idx, rs, rest);
      MatchingAddPath(rs, rest, p);
      assert rest + {p} == ps;
    }
  }

  /** The lengths of all the lists of the index of `rs` add up to the length of `rs`. */
  lemma IndexSizesSum(idx: Index, rs: seq<Recipe>)
    requires IndexOf(idx, rs)
    ensures SizeSum(idx, IndexPaths(idx)) == |rs|
  {
    forall x | x in rs
      ensures PathOf(x) in IndexPaths(idx)
    {
      FiledPathIsIndexed(idx, rs, x);
    }
    MatchingAll(rs, IndexPaths(idx));
    forall p | p in IndexPaths(idx)
      ensures Lookup(idx, p) == Bucket(rs, p)
    {
      LookupIsBucket(idx, rs, p);
    }
    SizeSumMatching(idx, rs, IndexPaths(idx));
  }
}
