/** The endpoints of `api/routes/categories.py`. Creation asks for no
    credentials and refuses only a repeated name; the slug is stored as
    sent, unchecked. */
module CategoryRoutes {
  import opened Wrappers
  import opened Http
  import opened Models
  import Seqs

  datatype CategoryCreate = CategoryCreate(
    name: string, slug: string, description: Option<string>, imageUrl: Option<string>)

  function NameIndex(categories: seq<Category>, name: string): (r: Option<nat>)
    ensures r.None? <==> forall i :: 0 <= i < |categories| ==> categories[i].name != name
    ensures r.Some? ==> r.value < |categories| && categories[r.value].name == name
  {
    Seqs.FindIndex(categories, (c: Category) => c.name == name)
  }

  /** `POST /categories/`: 400 when a category has that name; otherwise a
      new row with the next id copying the four fields. */
  function CreateCategory(db: Db, c: CategoryCreate): (r: Result<(Db, Category)>)
    ensures r.Ok? <==> forall i :: 0 <= i < |db.categories| ==> db.categories[i].name != c.name
    ensures r.Err? ==> r.status == BadRequest
    ensures r.Ok? ==>
      && r.value.1 == Category(db.nextCategoryId, c.name, c.slug, c.description, c.imageUrl)
      && r.value.0 == db.(categories := db.categories + [r.value.1], nextCategoryId := db.nextCategoryId + 1)
  {
    if NameIndex(db.categories, c.name).Some? then Err(BadRequest, "Category already exists")
    else
      var row := Category(db.nextCategoryId, c.name, c.slug, c.description, c.imageUrl);
      Ok((db.(categories := db.categories + [row], nextCategoryId := db.nextCategoryId + 1), row))
  }

  /** `GET /categories/`: every category, in table order. */
  function GetCategories(db: Db): (r: seq<Category>)
    ensures forall c :: c in r <==> c in db.categories
    ensures |r| == |db.categories|
  {
    db.categories
  }

  ghost predicate UniqueNames(categories: seq<Category>) {
    forall i, j :: 0 <= i < j < |categories| ==> categories[i].name != categories[j].name
  }

  /** Creation keeps category names unique, and the new category is listed
      last. */
  lemma {:induction false} CreateKeepsNamesUnique(db: Db, c: CategoryCreate)
    requires UniqueNames(db.categories)
    requires CreateCategory(db, c).Ok?
    ensures var (db', row) := CreateCategory(db, c).value;
      UniqueNames(db'.categories) && GetCategories(db')[|GetCategories(db')| - 1] == row
  {
    var (db', row) := CreateCategory(db, c).value;
    var n := |db.categories|;
    assert forall i :: 0 <= i < n ==> db'.categories[i] == db.categories[i];
    assert db'.categories[n] == row;
  }

  /** The slug is never checked: whether a creation is accepted does not
      depend on it, and the row stores it as sent, even when another
      category already has it. */
  lemma SlugNotChecked(db: Db, c: CategoryCreate, slug: string)
    ensures CreateCategory(db, c.(slug := slug)).Ok? <==> CreateCategory(db, c).Ok?
    ensures CreateCategory(db, c.(slug := slug)).Ok? ==> CreateCategory(db, c.(slug := slug)).value.1.slug == slug
  {
  }
}
