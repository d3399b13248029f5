/** The category routes: every read and every write is scoped to the acting user's id.
    The list is a skip/take window of the user's rows, ordered only on request, with the
    total of all the user's rows beside it; get-one answers null for a row the user does not
    own; rename reports how many rows it touched, zero included; delete fails when nothing
    matches. */
module CategoryRouter {
  import opened Results
  import opened Tables
  import opened Request
  import opened Database
  import P = Pagination

  const MaxNameLength: nat := 50

  /** The JSON body of a create or a rename. */
  datatype CategoryBody = CategoryBody(name: Field)

  /** `categoryPostParser` and `categoryUpdateParser`, which are the same schema: a required
      string name of at most 50 characters. */
  function ParseCategoryBody(body: CategoryBody): (r: Result<string>)
    ensures r.Ok? <==> body.name.Str? && |body.name.str| <= MaxNameLength
    ensures r.Ok? ==> CategoryBody(Str(r.value)) == body
    ensures r.Err? ==> r.error == InvalidBody("name")
  {
    RequiredString(body.name, "name", Some(MaxNameLength))
  }

  /** `findCategories`: `orderBy` is added to the query only when the pagination carries a
      non-empty ordering field. */
  function FindCategories(rows: seq<Category>, userId: int, p: P.Pagination): (r: Result<seq<Category>>)
    ensures r.Ok? <==> && p.skip >= 0 && p.take >= 0
                       && (P.HasOrdering(p) ==> ParseCategoryOrder(p.orderBy.value, p.direction).Ok?)
    ensures r.Ok? ==> |r.value| <= p.take && |r.value| <= CountCategories(rows, userId)
    ensures r.Ok? ==> forall c :: c in r.value ==> c in rows && c.userId == userId
    ensures r.Ok? && !P.HasOrdering(p) ==> r.value == Window(OwnedCategories(rows, userId), p.skip, p.take)
    ensures r.Ok? && P.HasOrdering(p) ==>
              var o := ParseCategoryOrder(p.orderBy.value, p.direction).value;
              && SortedBy(o, r.value)
              && r.value == Window(SortCategories(o, OwnedCategories(rows, userId)), p.skip, p.take)
  {
    var ordering := if P.HasOrdering(p) then Some((p.orderBy.value, p.direction)) else None;
    FindManyCategories(rows, CategoryQuery(userId, p.skip, p.take, ordering))
  }

  /** Two tables in which a user owns the same rows, in the same order, give that user the
      same listing: no other user's row can change what the user reads. */
  lemma FindCategoriesSeesOnlyOwner(rows: seq<Category>, rows': seq<Category>, userId: int, p: P.Pagination)
    requires OwnedCategories(rows, userId) == OwnedCategories(rows', userId)
    ensures FindCategories(rows, userId, p) == FindCategories(rows', userId, p)
  {
  }

  /** The JSON answer of the list route. */
  datatype CategoryListing = CategoryListing(categories: seq<Category>, pagination: P.Pagination, links: P.Links, total: nat)

  /** `categoryGet`: the page, the parsed pagination, its links and the user's total. */
  function CategoryGet(rows: seq<Category>, userId: int, query: P.PaginationQuery): (r: Result<CategoryListing>)
    ensures var p := P.ParsePaginationQuery(query);
            && (r.Ok? <==> FindCategories(rows, userId, p).Ok?)
            && (r.Ok? ==> && r.value.categories == FindCategories(rows, userId, p).value
                          && r.value.pagination == p
                          && r.value.links == P.GetPaginationLinks(p, "category"))
    ensures r.Ok? ==> r.value.total == |OwnedCategories(rows, userId)|
    ensures r.Ok? ==> |r.value.categories| <= r.value.total
  {
    var p := P.ParsePaginationQuery(query);
    var page :- FindCategories(rows, userId, p);
    Ok(CategoryListing(page, p, P.GetPaginationLinks(p, "category"), CountCategories(rows, userId)))
  }

  /** `categoryGetUnique`: the row matching both the id and the owner, or null. */
  function CategoryGetUnique(rows: seq<Category>, userId: int, id: int): (r: Option<Category>)
    ensures r.Some? ==> r.value in rows && r.value.id == id && r.value.userId == userId
    ensures r.None? <==> forall c :: c in rows && c.id == id ==> c.userId != userId
  {
    FindFirstCategory(rows, id, userId)
  }

  /** `categoryPost`: a body that fails its schema changes nothing; otherwise exactly one row
      with that name, owned by the acting user, is added under a fresh id, which is returned. */
  method CategoryPost(db: Db, userId: int, body: CategoryBody) returns (r: Result<int>)
    requires db.Valid()
    modifies db`categories, db`nextCategoryId
    ensures db.Valid()
    ensures r.Err? <==> ParseCategoryBody(body).Err?
    ensures r.Err? ==> r.error == InvalidBody("name") && db.Snapshot() == old(db.Snapshot())
    ensures r.Ok? ==> && db.categories == old(db.categories) + [Category(r.value, body.name.str, userId)]
                      && r.value == old(db.nextCategoryId)
                      && forall c :: c in old(db.categories) ==> c.id != r.value
    ensures db.languages == old(db.languages) && db.snippets == old(db.snippets)
    ensures db.tags == old(db.tags) && db.snippetTags == old(db.snippetTags)
    ensures forall other :: other != userId ==>
              OwnedCategories(db.categories, other) == OwnedCategories(old(db.categories), other)
  {
    var name :- ParseCategoryBody(body);
    var c := db.CreateCategory(name, userId);
    forall other | other != userId
      ensures OwnedCategories(db.categories, other) == OwnedCategories(old(db.categories), other)
    {
      AppendKeepsOtherOwners(old(db.categories), c, other);
    }
    r := Ok(c.id);
  }

  /** `updateMany` renames nothing when no row matches: a zero count leaves the table as it was. */
  lemma {:induction false} RenameWithoutMatchKeepsRows(rows: seq<Category>, id: int, userId: int, name: string)
    requires CountCategoryMatches(rows, id, userId) == 0
    ensures RenameCategories(rows, id, userId, name) == rows
  {
    if rows != [] {
      RenameWithoutMatchKeepsRows(rows[1..], id, userId, name);
      assert rows == [rows[0]] + rows[1..];
    }
  }

  /** `categoryUpdate`: the body is checked before anything is read or written; then every
      row matching both id and owner (at most one) is renamed and their number reported. An
      unknown or foreign id is not an error: the count is 0 and the table is unchanged. */
  method CategoryUpdate(db: Db, userId: int, id: int, body: CategoryBody) returns (r: Result<nat>)
    requires db.Valid()
    modifies db`categories
    ensures db.Valid()
    ensures r.Err? <==> ParseCategoryBody(body).Err?
    ensures r.Err? ==> r.error == InvalidBody("name") && db.Snapshot() == old(db.Snapshot())
    ensures r.Ok? ==> && r.value == CountCategoryMatches(old(db.categories), id, userId) && r.value <= 1
                      && db.categories == RenameCategories(old(db.categories), id, userId, body.name.str)
    ensures r.Ok? && r.value == 0 ==> db.categories == old(db.categories)
    ensures db.languages == old(db.languages) && db.snippets == old(db.snippets)
    ensures db.tags == old(db.tags) && db.snippetTags == old(db.snippetTags)
    ensures forall other :: other != userId ==>
              OwnedCategories(db.categories, other) == OwnedCategories(old(db.categories), other)
  {
    var name :- ParseCategoryBody(body);
    var count := db.UpdateManyCategories(id, userId, name);
    if count == 0 {
      RenameWithoutMatchKeepsRows(old(db.categories), id, userId, name);
    }
    forall other | other != userId
      ensures OwnedCategories(db.categories, other) == OwnedCategories(old(db.categories), other)
    {
      RenameKeepsOtherOwners(old(db.categories), id, userId, name, other);
    }
    r := Ok(count);
  }

  /** `categoryDelete`: removes the row matching both id and owner and answers its id; when
      none matches it fails and the table is unchanged. Either way no such row is left. */
  method CategoryDelete(db: Db, userId: int, id: int) returns (r: Result<int>)
    requires db.Valid()
    modifies db`categories
    ensures db.Valid()
    ensures r.Err? <==> FindFirstCategory(old(db.categories), id, userId).None?
    ensures r.Err? ==> r.error == RecordNotFound("Category") && db.Snapshot() == old(db.Snapshot())
    ensures r.Ok? ==> && r.value == id
                      && db.categories == RemoveCategories(old(db.categories), id, userId)
                      && |db.categories| == |old(db.categories)| - 1
    ensures FindFirstCategory(db.categories, id, userId).None?
    ensures db.languages == old(db.languages) && db.snippets == old(db.snippets)
    ensures db.tags == old(db.tags) && db.snippetTags == old(db.snippetTags)
    ensures forall other :: other != userId ==>
              OwnedCategories(db.categories, other) == OwnedCategories(old(db.categories), other)
  {
    var deleted :- db.DeleteCategory(id, userId);
    forall other | other != userId
      ensures OwnedCategories(db.categories, other) == OwnedCategories(old(db.categories), other)
    {
      RemoveKeepsOtherOwners(old(db.categories), id, userId, other);
    }
    r := Ok(deleted.id);
  }
}
