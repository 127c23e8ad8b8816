/**
 * The recipe record and the conversion of spreadsheet rows into records
 * (the `rows.map` inside `loadRecipesFromSpreadsheet`), with `recipes.find`
 * by id.
 */
module Recipes {
  import opened Wrappers
  import opened Text

  /** One dish, as built from one row of the sheet. */
  datatype Recipe = Recipe(
    id: string,
    category: string,
    subcategory: string,
    subsubcategory: string,
    materials: seq<string>,
    steps: seq<string>,
    reference: string,
    rating: string)

  /**
   * A row of the sheet as its cells' texts, in column order: id, category,
   * subcategory, subsubcategory, materials, steps, reference, rating. `None`
   * stands for a null cell or a cell whose value is missing.
   */
  type Row = seq<Option<string>>

  /**
   * `values[i] || ""` where `values[i]` is `cell ? cell.v || "" : ""`: a
   * null cell, a missing value and a column past the end of the row all read
   * as the empty string.
   */
  function Cell(row: Row, i: nat): (text: string)
    ensures i >= |row| || row[i] == None ==> text == ""
    ensures i < |row| && row[i].Some? ==> text == row[i].value
  {
    if i < |row| then
      match row[i]
      case Some(v) => v
      case None => ""
    else ""
  }

  /**
   * `text ? text.split("\n") : []`: an empty field has no lines, any other
   * field has one line per newline-separated piece, and the detail view's
   * `join("\n")` gives the field back.
   */
  function Lines(text: string): (lines: seq<string>)
    ensures lines == [] <==> text == ""
    ensures Join(lines, '\n') == text
    ensures forall k :: 0 <= k < |lines| ==> '\n' !in lines[k]
  {
    if text == "" then []
    else
      JoinSplit(text, '\n');
      Split(text, '\n')
  }

  /** The record for one row. */
  function FromRow(row: Row): (r: Recipe)
    ensures r.id == Cell(row, 0) && r.category == Cell(row, 1)
    ensures r.subcategory == Cell(row, 2) && r.subsubcategory == Cell(row, 3)
    ensures r.reference == Cell(row, 6) && r.rating == Cell(row, 7)
    ensures r.materials == [] <==> Cell(row, 4) == ""
    ensures r.steps == [] <==> Cell(row, 5) == ""
    ensures Join(r.materials, '\n') == Cell(row, 4)
    ensures Join(r.steps, '\n') == Cell(row, 5)
  {
    Recipe(
      Cell(row, 0), Cell(row, 1), Cell(row, 2), Cell(row, 3),
      Lines(Cell(row, 4)), Lines(Cell(row, 5)),
      Cell(row, 6), Cell(row, 7))
  }

  /** Every row becomes one record, in row order; no row is rejected. */
  function FromRows(rows: seq<Row>): (rs: seq<Recipe>)
    ensures |rs| == |rows|
    ensures forall i :: 0 <= i < |rows| ==> rs[i] == FromRow(rows[i])
  {
    seq(|rows|, i requires 0 <= i < |rows| => FromRow(rows[i]))
  }

  /** A row with no cells at all still yields a record, all of whose fields are empty. */
  lemma EmptyRowDefaults()
    ensures FromRow([]) == Recipe("", "", "", "", [], [], "", "")
  {
  }

  /** Some recipe of `rs` has identifier `id`. */
  predicate HasRecipe(rs: seq<Recipe>, id: string) {
    exists k :: 0 <= k < |rs| && rs[k].id == id
  }

  /** Position `k` holds the first recipe of `rs` with identifier `id`. */
  predicate FirstWithId(rs: seq<Recipe>, id: string, k: int) {
    0 <= k < |rs| && rs[k].id == id && forall j :: 0 <= j < k ==> rs[j].id != id
  }

  /**
   * `rs.findIndex(r => r.id === id)`: the position of the first recipe with
   * identifier `id`, or -1 when there is none.
   */
  function FirstIndex(rs: seq<Recipe>, id: string): (k: int)
    ensures k == -1 <==> !HasRecipe(rs, id)
    ensures k != -1 ==> FirstWithId(rs, id, k)
  {
    if rs == [] then -1
    else if rs[0].id == id then 0
    else
      var k := FirstIndex(rs[1..], id);
      assert HasRecipe(rs, id) ==> HasRecipe(rs[1..], id) by {
        if HasRecipe(rs, id) {
          var i :| 0 <= i < |rs| && rs[i].id == id;
          assert rs[1..][i - 1].id == id;
        }
      }
      if k == -1 then -1
      else
        assert rs[k + 1] == rs[1..][k];
        forall j | 0 < j < k + 1 ensures rs[j].id != id {
          assert rs[j] == rs[1..][j - 1];
        }
        k + 1
  }

  /** `recipes.find(r => r.id === id)`: the first recipe with that identifier, if any. */
  function FindById(rs: seq<Recipe>, id: string): (found: Option<Recipe>)
    ensures found.Some? <==> HasRecipe(rs, id)
    ensures found.Some? ==> found.value.id == id
    ensures found.Some? ==> exists k :: FirstWithId(rs, id, k) && rs[k] == found.value
  {
    var k := FirstIndex(rs, id);
    if k == -1 then None else Some(rs[k])
  }
}
