/**
 The course catalog of the fee-quote screen: the `Course` record, the
 constant list of seven courses the app ships with, and lookup by id in the
 manner of `Array.prototype.find` (first match, or nothing).
 */
module Catalog {

  /** The outcome of a lookup that may find nothing (`undefined` in the app). */
  datatype Option<+T> = None | Some(value: T)

  /** A training course. Fees are exact amounts in rand. */
  datatype Course = Course(id: int, name: string, duration: string, fee: real)

  /** The fixed catalog, in display order. */
  const Courses: seq<Course> := [
    Course(1, "First Aid", "6 months", 1500.0),
    Course(2, "Sewing", "6 months", 1500.0),
    Course(3, "Landscaping", "6 months", 1500.0),
    Course(4, "Life Skills", "6 months", 1500.0),
    Course(5, "Child Minding", "6 weeks", 750.0),
    Course(6, "Cooking", "6 weeks", 750.0),
    Course(7, "Garden Maintenance", "6 weeks", 750.0)
  ]

  /** Some course of `catalog` carries `id`. */
  predicate HasId(catalog: seq<Course>, id: int)
  {
    exists i :: 0 <= i < |catalog| && catalog[i].id == id
  }

  /** No two courses of `catalog` share an id. */
  predicate UniqueIds(catalog: seq<Course>)
  {
    forall i, j :: 0 <= i < j < |catalog| ==> catalog[i].id != catalog[j].id
  }

  /** Every fee in `catalog` is non-negative. */
  predicate NonNegativeFees(catalog: seq<Course>)
  {
    forall i :: 0 <= i < |catalog| ==> catalog[i].fee >= 0.0
  }

  /**
   The first course whose id is `id`, or `None` when no course carries it.
   */
  function Find(catalog: seq<Course>, id: int): (r: Option<Course>)
    ensures r.None? <==> !HasId(catalog, id)
    ensures r.Some? ==> r.value in catalog && r.value.id == id
  {
    if |catalog| == 0 then None
    else if catalog[0].id == id then Some(catalog[0])
    else Find(catalog[1..], id)
  }

  /** `Find` returns the earliest course carrying the id. */
  lemma {:induction false} FindFirstMatch(catalog: seq<Course>, id: int, i: int)
    requires 0 <= i < |catalog| && catalog[i].id == id
    requires forall j :: 0 <= j < i ==> catalog[j].id != id
    ensures Find(catalog, id) == Some(catalog[i])
    decreases i
  {
    if i > 0 {
      assert catalog[0].id != id;
      var tail := catalog[1..];
      assert forall j :: 0 <= j < i - 1 ==> tail[j] == catalog[j + 1];
      FindFirstMatch(tail, id, i - 1);
    }
  }

  /** With unique ids, every id of the catalog resolves to exactly its own course. */
  lemma FindResolvesUniquely(catalog: seq<Course>, i: int)
    requires UniqueIds(catalog)
    requires 0 <= i < |catalog|
    ensures Find(catalog, catalog[i].id) == Some(catalog[i])
  {
    FindFirstMatch(catalog, catalog[i].id, i);
  }

  /** The shipped catalog: seven courses, ids 1 to 7 in order, fees 1500 or 750. */
  lemma CatalogShape()
    ensures |Courses| == 7
    ensures forall i :: 0 <= i < |Courses| ==> Courses[i].id == i + 1
    ensures UniqueIds(Courses)
    ensures NonNegativeFees(Courses)
    ensures forall i :: 0 <= i < |Courses| ==> Courses[i].fee == 1500.0 || Courses[i].fee == 750.0
    ensures forall i :: 0 <= i < |Courses| ==> (Courses[i].fee == 1500.0 <==> i < 4)
  {
  }
}
