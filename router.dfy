/**
 * Hash routing (`showRecipeFromHash`): the fragment after `#` names a recipe,
 * a category, a subcategory or a sub-subcategory. Menu and result links are
 * built by joining URL-encoded names with `-`, and the router takes them apart
 * again by splitting on every `-`.
 *
 * `encodeURIComponent` and `decodeURIComponent` are parameters: `encode` and
 * `decode`, where `decode` answers `None` when the real function would throw
 * a URIError on a malformed escape.
 */
module Router {
  import opened Wrappers
  import opened Text

  /** What a fragment asks for. */
  datatype Intent =
    | RecipeIntent(id: string)
    | CategoryIntent(category: string)
    | SubcategoryIntent(category: string, subcategory: string)
    | SubsubcategoryIntent(category: string, subcategory: string, subsubcategory: string)
      /** No known prefix: nothing happens. */
    | NoIntent
      /** `decodeURIComponent` threw on one of the parts. */
    | Malformed

  const RecipePrefix: string := "recipe-"
  const CategoryPrefix: string := "category-"
  const SubcategoryPrefix: string := "subcategory-"
  const SubsubcategoryPrefix: string := "subsubcategory-"

  /** The fragment starts with one of the four prefixes the router knows. */
  predicate HasKnownPrefix(fragment: string) {
    || StartsWith(fragment, RecipePrefix)
    || StartsWith(fragment, CategoryPrefix)
    || StartsWith(fragment, SubcategoryPrefix)
    || StartsWith(fragment, SubsubcategoryPrefix)
  }

  /**
   * `parts[i]` as `decodeURIComponent` receives it: a part past the end is
   * `undefined`, which the decoder turns into the text "undefined".
   */
  function Part(parts: seq<string>, i: nat): (part: string)
    ensures i < |parts| ==> part == parts[i]
    ensures |parts| <= i ==> part == "undefined"
  {
    if i < |parts| then parts[i] else "undefined"
  }

  /**
   * The routing decision of `showRecipeFromHash`, prefixes tried in source
   * order; the composite routes split the rest on every `-` and decode only
   * the first two or three parts.
   */
  function Route(fragment: string, decode: string -> Option<string>): (intent: Intent)
    ensures intent == NoIntent <==> !HasKnownPrefix(fragment)
    ensures intent.RecipeIntent? ==>
              StartsWith(fragment, RecipePrefix) && decode(fragment[|RecipePrefix|..]) == Some(intent.id)
    ensures intent.CategoryIntent? ==>
              StartsWith(fragment, CategoryPrefix) && decode(fragment[|CategoryPrefix|..]) == Some(intent.category)
  {
    if StartsWith(fragment, RecipePrefix) then
      match decode(fragment[|RecipePrefix|..])
      case Some(id) => RecipeIntent(id)
      case None => Malformed
    else if StartsWith(fragment, CategoryPrefix) then
      match decode(fragment[|CategoryPrefix|..])
      case Some(c) => CategoryIntent(c)
      case None => Malformed
    else if StartsWith(fragment, SubcategoryPrefix) then
      SubcategoryFromParts(Split(fragment[|SubcategoryPrefix|..], '-'), decode)
    else if StartsWith(fragment, SubsubcategoryPrefix) then
      SubsubcategoryFromParts(Split(fragment[|SubsubcategoryPrefix|..], '-'), decode)
    else NoIntent
  }

  /** The subcategory route from the `-`-separated parts: only parts 0 and 1 are used. */
  function SubcategoryFromParts(parts: seq<string>, decode: string -> Option<string>): (intent: Intent)
    ensures intent.SubcategoryIntent? || intent == Malformed
    ensures intent == Malformed <==> decode(Part(parts, 0)).None? || decode(Part(parts, 1)).None?
    ensures intent.SubcategoryIntent? ==>
              decode(Part(parts, 0)) == Some(intent.category) && decode(Part(parts, 1)) == Some(intent.subcategory)
  {
    match (decode(Part(parts, 0)), decode(Part(parts, 1)))
    case (Some(c), Some(s)) => SubcategoryIntent(c, s)
    case _ => Malformed
  }

  /** The sub-subcategory route from the `-`-separated parts: only parts 0 to 2 are used. */
  function SubsubcategoryFromParts(parts: seq<string>, decode: string -> Option<string>): (intent: Intent)
    ensures intent.SubsubcategoryIntent? || intent == Malformed
    ensures intent == Malformed <==>
              decode(Part(parts, 0)).None? || decode(Part(parts, 1)).None? || decode(Part(parts, 2)).None?
    ensures intent.SubsubcategoryIntent? ==>
              && decode(Part(parts, 0)) == Some(intent.category)
              && decode(Part(parts, 1)) == Some(intent.subcategory)
              && decode(Part(parts, 2)) == Some(intent.subsubcategory)
  {
    match (decode(Part(parts, 0)), decode(Part(parts, 1)), decode(Part(parts, 2)))
    case (Some(c), Some(s), Some(ss)) => SubsubcategoryIntent(c, s, ss)
    case _ => Malformed
  }

  /** Parts after the second do not affect the subcategory route. */
  lemma SubcategoryIgnoresLaterParts(parts: seq<string>, more: seq<string>, decode: string -> Option<string>)
    requires |parts| >= 2
    ensures SubcategoryFromParts(parts + more, decode) == SubcategoryFromParts(parts, decode)
  {
    assert (parts + more)[0] == parts[0] && (parts + more)[1] == parts[1];
  }

  /** Parts after the third do not affect the sub-subcategory route. */
  lemma SubsubcategoryIgnoresLaterParts(parts: seq<string>, more: seq<string>, decode: string -> Option<string>)
    requires |parts| >= 3
    ensures SubsubcategoryFromParts(parts + more, decode) == SubsubcategoryFromParts(parts, decode)
  {
    assert (parts + more)[0] == parts[0] && (parts + more)[1] == parts[1] && (parts + more)[2] == parts[2];
  }

  /**
   * A fragment that starts with `recipe-` names the decoding of the rest, or
   * is malformed when that decoding throws.
   */
  lemma RouteRecipeFragment(rest: string, decode: string -> Option<string>)
    ensures decode(rest).Some? ==> Route(RecipePrefix + rest, decode) == RecipeIntent(decode(rest).value)
    ensures decode(rest).None? ==> Route(RecipePrefix + rest, decode) == Malformed
  {
    var fragment := RecipePrefix + rest;
    assert fragment[..|RecipePrefix|] == RecipePrefix && fragment[|RecipePrefix|..] == rest;
  }

  /**
   * A fragment that starts with `category-` names the decoding of the rest,
   * or is malformed when that decoding throws.
   */
  lemma RouteCategoryFragment(rest: string, decode: string -> Option<string>)
    ensures decode(rest).Some? ==> Route(CategoryPrefix + rest, decode) == CategoryIntent(decode(rest).value)
    ensures decode(rest).None? ==> Route(CategoryPrefix + rest, decode) == Malformed
  {
    var fragment := CategoryPrefix + rest;
    assert fragment[0] == 'c';
    assert fragment[..|CategoryPrefix|] == CategoryPrefix && fragment[|CategoryPrefix|..] == rest;
  }

  /** A fragment that starts with `subcategory-` is routed by the parts of the rest. */
  lemma RouteSubcategoryFragment(rest: string, decode: string -> Option<string>)
    ensures Route(SubcategoryPrefix + rest, decode) == SubcategoryFromParts(Split(rest, '-'), decode)
  {
    var fragment := SubcategoryPrefix + rest;
    assert fragment[0] == 's' && fragment[3] == 'c';
    assert fragment[..|SubcategoryPrefix|] == SubcategoryPrefix && fragment[|SubcategoryPrefix|..] == rest;
  }

  /** A fragment that starts with `subsubcategory-` is routed by the parts of the rest. */
  lemma RouteSubsubcategoryFragment(rest: string, decode: string -> Option<string>)
    ensures Route(SubsubcategoryPrefix + rest, decode) == SubsubcategoryFromParts(Split(rest, '-'), decode)
  {
    var fragment := SubsubcategoryPrefix + rest;
    assert !StartsWith(fragment, RecipePrefix) by {
      assert fragment[0] != RecipePrefix[0];
    }
    assert !StartsWith(fragment, CategoryPrefix) by {
      assert fragment[0] != CategoryPrefix[0];
    }
    assert !StartsWith(fragment, SubcategoryPrefix) by {
      assert fragment[3] != SubcategoryPrefix[3];
    }
    assert fragment[..|SubsubcategoryPrefix|] == SubsubcategoryPrefix;
    assert fragment[|SubsubcategoryPrefix|..] == rest;
  }

  /** `#recipe-…` links of the menu, the category views and the search results. */
  function RecipeLink(id: string, encode: string -> string): (link: string)
    ensures StartsWith(link, RecipePrefix) && link[|RecipePrefix|..] == encode(id)
  {
    RecipePrefix + encode(id)
  }

  /** `#category-…` links of the menu. */
  function CategoryLink(c: string, encode: string -> string): (link: string)
    ensures StartsWith(link, CategoryPrefix) && link[|CategoryPrefix|..] == encode(c)
  {
    CategoryPrefix + encode(c)
  }

  /** `#subcategory-…` links of the menu: the two encoded names joined by `-`. */
  function SubcategoryLink(c: string, s: string, encode: string -> string): (link: string)
    ensures link == SubcategoryPrefix + Join([encode(c), encode(s)], '-')
  {
    var names := [encode(c), encode(s)];
    assert names[1..] == [encode(s)];
    SubcategoryPrefix + encode(c) + "-" + encode(s)
  }

  /** `#subsubcategory-…` links of the menu: the three encoded names joined by `-`. */
  function SubsubcategoryLink(c: string, s: string, ss: string, encode: string -> string): (link: string)
    ensures link == SubsubcategoryPrefix + Join([encode(c), encode(s), encode(ss)], '-')
  {
    var names := [encode(c), encode(s), encode(ss)];
    var tail := names[1..];
    assert tail == [encode(s), encode(ss)] && tail[1..] == [encode(ss)];
    assert Join(tail, '-') == encode(s) + "-" + encode(ss);
    assert Join(names, '-') == encode(c) + "-" + Join(tail, '-');
    SubsubcategoryPrefix + encode(c) + "-" + encode(s) + "-" + encode(ss)
  }

  /** A recipe link routes back to its recipe whenever decoding undoes encoding. */
  lemma RouteRecipeLink(id: string, encode: string -> string, decode: string -> Option<string>)
    requires decode(encode(id)) == Some(id)
    ensures Route(RecipeLink(id, encode), decode) == RecipeIntent(id)
  {
    var link := RecipeLink(id, encode);
    assert link[..|RecipePrefix|] == RecipePrefix && link[|RecipePrefix|..] == encode(id);
  }

  /** A category link routes back to its category whenever decoding undoes encoding. */
  lemma RouteCategoryLink(c: string, encode: string -> string, decode: string -> Option<string>)
    requires decode(encode(c)) == Some(c)
    ensures Route(CategoryLink(c, encode), decode) == CategoryIntent(c)
  {
    var link := CategoryLink(c, encode);
    assert link[0] == 'c';
    assert link[..|CategoryPrefix|] == CategoryPrefix && link[|CategoryPrefix|..] == encode(c);
  }

  /**
   * A subcategory link routes back to its two names when neither encoded
   * name contains `-` and decoding undoes encoding.
   */
  lemma RouteSubcategoryLink(c: string, s: string, encode: string -> string,
                             decode: string -> Option<string>)
    requires '-' !in encode(c) && '-' !in encode(s)
    requires decode(encode(c)) == Some(c) && decode(encode(s)) == Some(s)
    ensures Route(SubcategoryLink(c, s, encode), decode) == SubcategoryIntent(c, s)
  {
    var names := [encode(c), encode(s)];
    var rest := Join(names, '-');
    assert names[1..] == [encode(s)];
    assert Join(names[1..], '-') == encode(s);
    assert rest == encode(c) + "-" + encode(s);
    assert SubcategoryLink(c, s, encode) == SubcategoryPrefix + rest;
    RouteSubcategoryFragment(rest, decode);
    SplitJoin(names, '-');
  }

  /**
   * A sub-subcategory link routes back to its three names when no encoded
   * name contains `-` and decoding undoes encoding.
   */
  lemma RouteSubsubcategoryLink(c: string, s: string, ss: string, encode: string -> string,
                                decode: string -> Option<string>)
    requires '-' !in encode(c) && '-' !in encode(s) && '-' !in encode(ss)
    requires decode(encode(c)) == Some(c) && decode(encode(s)) == Some(s)
    requires decode(encode(ss)) == Some(ss)
    ensures Route(SubsubcategoryLink(c, s, ss, encode), decode) == SubsubcategoryIntent(c, s, ss)
  {
    var names := [encode(c), encode(s), encode(ss)];
    var rest := Join(names, '-');
    assert names[1..] == [encode(s), encode(ss)];
    assert Join(names[1..], '-') == encode(s) + "-" + encode(ss);
    assert rest == encode(c) + "-" + encode(s) + "-" + encode(ss);
    assert SubsubcategoryLink(c, s, ss, encode) == SubsubcategoryPrefix + rest;
    RouteSubsubcategoryFragment(rest, decode);
    SplitJoin(names, '-');
  }

  /**
   * `encodeURIComponent` leaves `-` alone, so a subcategory link for the
   * names "a-b" and "c" is split at the wrong `-` and routes to "a" and "b".
   */
  lemma SubcategoryLinkMisSplit(encode: string -> string, decode: string -> Option<string>)
    requires encode("a-b") == "a-b" && encode("c") == "c"
    requires decode("a") == Some("a") && decode("b") == Some("b")
    ensures Route(SubcategoryLink("a-b", "c", encode), decode) == SubcategoryIntent("a", "b")
  {
    var names := ["a", "b", "c"];
    var rest := Join(names, '-');
    assert names[1..] == ["b", "c"];
    assert rest == "a-b-c";
    assert SubcategoryLink("a-b", "c", encode) == SubcategoryPrefix + rest;
    RouteSubcategoryFragment(rest, decode);
    assert '-' !in names[0] && '-' !in names[1] && '-' !in names[2];
    SplitJoin(names, '-');
  }

  /**
   * A subcategory fragment with no `-` after the category decodes the
   * missing second part as the text "undefined".
   */
  lemma SubcategoryMissingPart(name: string, decode: string -> Option<string>)
    requires '-' !in name
    requires decode(name) == Some(name) && decode("undefined") == Some("undefined")
    ensures Route(SubcategoryPrefix + name, decode) == SubcategoryIntent(name, "undefined")
  {
    RouteSubcategoryFragment(name, decode);
    SplitWithoutSeparator(name, '-');
  }

  /** No piece other than `code` itself decodes to `name`. */
  predicate DecodesOnlyFrom(pieces: seq<string>, name: string, code: string, decode: string -> Option<string>) {
    forall x :: x in pieces && decode(x) == Some(name) ==> x == code
  }

  /** The first two pieces of two splits are the two texts exactly when neither holds `-`. */
  lemma TwoPiecesWhole(x: string, y: string)
    ensures var parts := Split(x, '-') + Split(y, '-');
            Part(parts, 0) == x && Part(parts, 1) == y <==> '-' !in x && '-' !in y
  {
    SplitHeadWhole(x, '-');
    SplitHeadWhole(y, '-');
    var parts := Split(x, '-') + Split(y, '-');
    assert parts[0] == Split(x, '-')[0];
    if '-' !in x {
      SplitWithoutSeparator(x, '-');
      assert parts[1] == Split(y, '-')[0];
    }
  }

  /** The first three pieces of three splits are the three texts exactly when none holds `-`. */
  lemma ThreePiecesWhole(x: string, y: string, z: string)
    ensures var parts := Split(x, '-') + Split(y, '-') + Split(z, '-');
            Part(parts, 0) == x && Part(parts, 1) == y && Part(parts, 2) == z
            <==> '-' !in x && '-' !in y && '-' !in z
  {
    var tail := Split(y, '-') + Split(z, '-');
    var parts := Split(x, '-') + tail;
    assert parts == Split(x, '-') + Split(y, '-') + Split(z, '-');
    SplitHeadWhole(x, '-');
    assert parts[0] == Split(x, '-')[0];
    if '-' !in x {
      SplitWithoutSeparator(x, '-');
      assert parts == [x] + tail;
      TwoPiecesWhole(y, z);
      assert Part(parts, 1) == Part(tail, 0) && Part(parts, 2) == Part(tail, 1);
    }
  }

  /**
   * A subcategory link is split as its two encoded names would be split on
   * their own, so the texts handed to the decoder are the two encoded names
   * exactly when neither contains `-`.
   */
  lemma SubcategoryLinkParts(c: string, s: string, encode: string -> string, decode: string -> Option<string>)
    ensures Route(SubcategoryLink(c, s, encode), decode)
            == SubcategoryFromParts(Split(encode(c), '-') + Split(encode(s), '-'), decode)
    ensures var parts := Split(encode(c), '-') + Split(encode(s), '-');
            Part(parts, 0) == encode(c) && Part(parts, 1) == encode(s)
            <==> '-' !in encode(c) && '-' !in encode(s)
  {
    var ec, es := encode(c), encode(s);
    var rest := ec + "-" + es;
    assert SubcategoryLink(c, s, encode) == SubcategoryPrefix + rest;
    RouteSubcategoryFragment(rest, decode);
    SplitAround(ec, '-', es);
    assert rest == ec + ['-'] + es;
    TwoPiecesWhole(ec, es);
  }

  /**
   * When decoding undoes encoding and no other piece of the link decodes to
   * one of the two names, the link routes back to its names exactly when
   * neither encoded name contains `-`.
   */
  lemma SubcategoryLinkRoundTrip(c: string, s: string, encode: string -> string, decode: string -> Option<string>)
    requires decode(encode(c)) == Some(c) && decode(encode(s)) == Some(s)
    requires DecodesOnlyFrom(Split(encode(c), '-') + Split(encode(s), '-'), c, encode(c), decode)
    requires DecodesOnlyFrom(Split(encode(c), '-') + Split(encode(s), '-'), s, encode(s), decode)
    ensures Route(SubcategoryLink(c, s, encode), decode) == SubcategoryIntent(c, s)
            <==> '-' !in encode(c) && '-' !in encode(s)
  {
    SubcategoryLinkParts(c, s, encode, decode);
    var parts := Split(encode(c), '-') + Split(encode(s), '-');
    assert parts[0] in parts && parts[1] in parts;
  }

  /**
   * A sub-subcategory link is split as its three encoded names would be
   * split on their own, so the texts handed to the decoder are the three
   * encoded names exactly when none contains `-`.
   */
  lemma SubsubcategoryLinkParts(c: string, s: string, ss: string, encode: string -> string,
                                decode: string -> Option<string>)
    ensures Route(SubsubcategoryLink(c, s, ss, encode), decode)
            == SubsubcategoryFromParts(Split(encode(c), '-') + Split(encode(s), '-') + Split(encode(ss), '-'), decode)
    ensures var parts := Split(encode(c), '-') + Split(encode(s), '-') + Split(encode(ss), '-');
            Part(parts, 0) == encode(c) && Part(parts, 1) == encode(s) && Part(parts, 2) == encode(ss)
            <==> '-' !in encode(c) && '-' !in encode(s) && '-' !in encode(ss)
  {
    var ec, es, ess := encode(c), encode(s), encode(ss);
    var front := ec + "-" + es;
    var rest := front + "-" + ess;
    assert SubsubcategoryLink(c, s, ss, encode) == SubsubcategoryPrefix + rest;
    RouteSubsubcategoryFragment(rest, decode);
    SplitAround(front, '-', ess);
    SplitAround(ec, '-', es);
    assert rest == front + ['-'] + ess && front == ec + ['-'] + es;
    ThreePiecesWhole(ec, es, ess);
  }

  /**
   * When decoding undoes encoding and no other piece of the link decodes to
   * one of the three names, the link routes back to its names exactly when
   * no encoded name contains `-`.
   */
  lemma SubsubcategoryLinkRoundTrip(c: string, s: string, ss: string, encode: string -> string,
                                    decode: string -> Option<string>)
    requires decode(encode(c)) == Some(c) && decode(encode(s)) == Some(s) && decode(encode(ss)) == Some(ss)
    requires DecodesOnlyFrom(Split(encode(c), '-') + Split(encode(s), '-') + Split(encode(ss), '-'), c, encode(c), decode)
    requires DecodesOnlyFrom(Split(encode(c), '-') + Split(encode(s), '-') + Split(encode(ss), '-'), s, encode(s), decode)
    requires DecodesOnlyFrom(Split(encode(c), '-') + Split(encode(s), '-') + Split(encode(ss), '-'), ss, encode(ss), decode)
    ensures Route(SubsubcategoryLink(c, s, ss, encode), decode) == SubsubcategoryIntent(c, s, ss)
            <==> '-' !in encode(c) && '-' !in encode(s) && '-' !in encode(ss)
  {
    SubsubcategoryLinkParts(c, s, ss, encode, decode);
    var parts := Split(encode(c), '-') + Split(encode(s), '-') + Split(encode(ss), '-');
    assert parts[0] in parts && parts[1] in parts && parts[2] in parts;
  }
}
