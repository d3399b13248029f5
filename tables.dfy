/** The rows of the relational store and the meaning this model gives to the ORM calls the
    routers make. Model assumption, stated once here and used everywhere:
      - a table is the sequence of its rows, in storage order;
      - `findMany({where, skip, take, orderBy})` filters by `where`, orders when asked, then drops `skip` rows and keeps at most `take`; a negative
        `skip` is refused, and so is a negative `take` (which the ORM would serve by counting
        rows from the end of the list; that reading is not modelled); without `orderBy`, and
        among rows whose keys tie, the rows come in storage order, an order the database does
        not promise;
      - `findFirst` returns the first row in storage order that matches, or null;
      - `count` is the number of matching rows;
      - `create` appends one row whose id is the table's next autoincrement value;
      - `updateMany` / `deleteMany` act on every matching row and report how many matched;
      - `delete` removes the matching row and fails when none matches;
      - a nested `connect` fails when the row to connect does not exist. */
module Tables {
  import opened Results

  datatype Category = Category(id: int, name: string, userId: int)
  datatype Language = Language(id: int, name: string)
  datatype Snippet = Snippet(id: int, title: string, code: string, userId: int, languageId: int, categoryId: int)
  datatype Tag = Tag(id: int, name: string, userId: int)
  datatype SnippetTag = SnippetTag(snippetId: int, tagId: int)

  // ---------------------------------------------------------------------------------------
  // The skip/take window of findMany.

  /** The rows left after dropping `skip` and keeping at most `take`. */
  function Window<T>(s: seq<T>, skip: nat, take: nat): (w: seq<T>)
    ensures |w| <= take && |w| <= |s|
    ensures skip < |s| ==> |w| == if take <= |s| - skip then take else |s| - skip
    ensures skip >= |s| ==> w == []
    ensures forall i :: 0 <= i < |w| ==> skip + i < |s| && w[i] == s[skip + i]
  {
    if skip >= |s| then [] else if take >= |s| - skip then s[skip..] else s[skip..skip + take]
  }

  // ---------------------------------------------------------------------------------------
  // Categories.

  predicate CategoryMatches(c: Category, id: int, userId: int) {
    c.id == id && c.userId == userId
  }

  /** `where: { user_id }`: the user's rows, in storage order. */
  function OwnedCategories(rows: seq<Category>, userId: int): (r: seq<Category>)
    ensures |r| <= |rows|
    ensures forall c :: c in r <==> c in rows && c.userId == userId
  {
    if rows == [] then []
    else if rows[0].userId == userId then [rows[0]] + OwnedCategories(rows[1..], userId)
    else OwnedCategories(rows[1..], userId)
  }

  /** `category.count({ where: { user_id } })`. */
  function CountCategories(rows: seq<Category>, userId: int): (n: nat)
    ensures n <= |rows|
    ensures n == 0 <==> forall c :: c in rows ==> c.userId != userId
  {
    var owned := OwnedCategories(rows, userId);
    if owned != [] then assert owned[0] in owned; |owned| else |owned|
  }

  lemma {:induction false} OwnedCategoriesAppend(a: seq<Category>, b: seq<Category>, userId: int)
    ensures OwnedCategories(a + b, userId) == OwnedCategories(a, userId) + OwnedCategories(b, userId)
  {
    if a != [] {
      assert (a + b)[1..] == a[1..] + b;
      OwnedCategoriesAppend(a[1..], b, userId);
    } else {
      assert a + b == b;
    }
  }

  /** `findFirst({ where: { id, user_id } })`. */
  function FindFirstCategory(rows: seq<Category>, id: int, userId: int): (r: Option<Category>)
    ensures r.None? <==> forall c :: c in rows ==> !CategoryMatches(c, id, userId)
    ensures r.Some? ==> r.value in rows && CategoryMatches(r.value, id, userId)
  {
    if rows == [] then None
    else if CategoryMatches(rows[0], id, userId) then Some(rows[0])
    else FindFirstCategory(rows[1..], id, userId)
  }

  function CountCategoryMatches(rows: seq<Category>, id: int, userId: int): (n: nat)
    ensures n <= |rows|
    ensures n == 0 <==> FindFirstCategory(rows, id, userId).None?
  {
    if rows == [] then 0
    else (if CategoryMatches(rows[0], id, userId) then 1 else 0) + CountCategoryMatches(rows[1..], id, userId)
  }

  /** `updateMany({ where: { id, user_id }, data: { name } })`. */
  function RenameCategories(rows: seq<Category>, id: int, userId: int, name: string): (r: seq<Category>)
    ensures |r| == |rows|
    ensures forall i :: 0 <= i < |rows| && CategoryMatches(rows[i], id, userId) ==> r[i] == rows[i].(name := name)
    ensures forall i :: 0 <= i < |rows| && !CategoryMatches(rows[i], id, userId) ==> r[i] == rows[i]
  {
    if rows == [] then []
    else
      var first := if CategoryMatches(rows[0], id, userId) then rows[0].(name := name) else rows[0];
      [first] + RenameCategories(rows[1..], id, userId, name)
  }

  /** `deleteMany({ where: { id, user_id } })`, and `delete` once a match is known to exist. */
  function RemoveCategories(rows: seq<Category>, id: int, userId: int): (r: seq<Category>)
    ensures |r| == |rows| - CountCategoryMatches(rows, id, userId)
    ensures forall c :: c in r <==> c in rows && !CategoryMatches(c, id, userId)
  {
    if rows == [] then []
    else if CategoryMatches(rows[0], id, userId) then RemoveCategories(rows[1..], id, userId)
    else [rows[0]] + RemoveCategories(rows[1..], id, userId)
  }

  ghost predicate CategoryIdsUnique(rows: seq<Category>) {
    forall i, j :: 0 <= i < j < |rows| ==> rows[i].id != rows[j].id
  }

  ghost predicate CategoryIdsBelow(rows: seq<Category>, next: int) {
    forall c :: c in rows ==> c.id < next
  }

  /** With unique ids, an id-and-owner filter matches at most one row. */
  lemma {:induction false} CategoryMatchesAtMostOne(rows: seq<Category>, id: int, userId: int)
    requires CategoryIdsUnique(rows)
    ensures CountCategoryMatches(rows, id, userId) <= 1
  {
    if rows != [] {
      CategoryMatchesAtMostOne(rows[1..], id, userId);
      if CategoryMatches(rows[0], id, userId) {
        assert forall c :: c in rows[1..] ==> c.id != id;
        assert FindFirstCategory(rows[1..], id, userId).None?;
      }
    }
  }

  /** Renaming one user's rows leaves every other user's rows as they were. */
  lemma {:induction false} RenameKeepsOtherOwners(rows: seq<Category>, id: int, userId: int, name: string, other: int)
    requires other != userId
    ensures OwnedCategories(RenameCategories(rows, id, userId, name), other) == OwnedCategories(rows, other)
  {
    if rows != [] {
      var r := RenameCategories(rows, id, userId, name);
      assert r[1..] == RenameCategories(rows[1..], id, userId, name);
      RenameKeepsOtherOwners(rows[1..], id, userId, name, other);
    }
  }

  /** Removing one user's rows leaves every other user's rows as they were. */
  lemma {:induction false} RemoveKeepsOtherOwners(rows: seq<Category>, id: int, userId: int, other: int)
    requires other != userId
    ensures OwnedCategories(RemoveCategories(rows, id, userId), other) == OwnedCategories(rows, other)
  {
    if rows != [] {
      RemoveKeepsOtherOwners(rows[1..], id, userId, other);
      if !CategoryMatches(rows[0], id, userId) {
        var r := RemoveCategories(rows, id, userId);
        assert r[1..] == RemoveCategories(rows[1..], id, userId);
      }
    }
  }

  /** Appending a row owned by one user leaves every other user's rows as they were. */
  lemma AppendKeepsOtherOwners(rows: seq<Category>, c: Category, other: int)
    requires c.userId != other
    ensures OwnedCategories(rows + [c], other) == OwnedCategories(rows, other)
  {
    OwnedCategoriesAppend(rows, [c], other);
    assert OwnedCategories([c], other) == [];
  }

  // ---------------------------------------------------------------------------------------
  // Ordering of categories: `orderBy: [{ <field>: <direction> }]`.

  datatype CategoryField = CategoryId | CategoryName | CategoryUserId
  datatype CategoryOrder = CategoryOrder(field: CategoryField, descending: bool)

  /** The ORM accepts only a scalar field of the model and the direction `asc` or `desc`. */
  function ParseCategoryOrder(field: string, direction: string): (r: Result<CategoryOrder>)
    ensures r.Ok? <==> ((field == "id" || field == "name" || field == "user_id")
                       && (direction == "asc" || direction == "desc"))
    ensures r.Ok? ==> r.value.descending == (direction == "desc")
    ensures r.Ok? ==> (r.value.field == CategoryId <==> field == "id")
    ensures r.Ok? ==> (r.value.field == CategoryName <==> field == "name")
    ensures r.Ok? ==> (r.value.field == CategoryUserId <==> field == "user_id")
  {
    var f :- if field == "id" then Ok(CategoryId)
             else if field == "name" then Ok(CategoryName)
             else if field == "user_id" then Ok(CategoryUserId)
             else Err(InvalidQuery("orderBy"));
    if direction == "asc" then Ok(CategoryOrder(f, false))
    else if direction == "desc" then Ok(CategoryOrder(f, true))
    else Err(InvalidQuery("direction"))
  }

  /** Lexicographic order on character codes. */
  predicate StringLeq(a: string, b: string) {
    a == [] || (b != [] && (a[0] < b[0] || (a[0] == b[0] && StringLeq(a[1..], b[1..]))))
  }

  lemma {:induction false} StringLeqTotal(a: string, b: string)
    ensures StringLeq(a, b) || StringLeq(b, a)
  {
    if a != [] && b != [] && a[0] == b[0] {
      StringLeqTotal(a[1..], b[1..]);
    }
  }

  predicate AscendingLeq(f: CategoryField, a: Category, b: Category) {
    match f
    case CategoryId => a.id <= b.id
    case CategoryName => StringLeq(a.name, b.name)
    case CategoryUserId => a.userId <= b.userId
  }

  /** `a` may come before `b` in a listing ordered by `o`. */
  predicate OrderedBefore(o: CategoryOrder, a: Category, b: Category) {
    if o.descending then AscendingLeq(o.field, b, a) else AscendingLeq(o.field, a, b)
  }

  lemma OrderedBeforeTotal(o: CategoryOrder, a: Category, b: Category)
    ensures OrderedBefore(o, a, b) || OrderedBefore(o, b, a)
  {
    if o.field == CategoryName {
      StringLeqTotal(a.name, b.name);
    }
  }

  predicate SortedBy(o: CategoryOrder, s: seq<Category>) {
    forall i :: 0 < i < |s| ==> OrderedBefore(o, s[i - 1], s[i])
  }

  function InsertCategory(o: CategoryOrder, x: Category, s: seq<Category>): (r: seq<Category>)
    requires SortedBy(o, s)
    ensures SortedBy(o, r)
    ensures multiset(r) == multiset(s) + multiset{x}
    ensures |r| == |s| + 1 && (r[0] == x || (s != [] && r[0] == s[0]))
  {
    if s == [] || OrderedBefore(o, x, s[0]) then [x] + s
    else
      OrderedBeforeTotal(o, x, s[0]);
      assert s == [s[0]] + s[1..];
      [s[0]] + InsertCategory(o, x, s[1..])
  }

  /** Insertion sort: the rows of `s`, rearranged into the order `o`; the sort is stable, so
      rows with equal keys keep their order in `s`. */
  function SortCategories(o: CategoryOrder, s: seq<Category>): (r: seq<Category>)
    ensures SortedBy(o, r)
    ensures multiset(r) == multiset(s)
  {
    if s == [] then []
    else
      assert s == [s[0]] + s[1..];
      InsertCategory(o, s[0], SortCategories(o, s[1..]))
  }

  lemma WindowKeepsSorted(o: CategoryOrder, s: seq<Category>, skip: nat, take: nat)
    requires SortedBy(o, s)
    ensures SortedBy(o, Window(s, skip, take))
  {
    var w := Window(s, skip, take);
    forall i | 0 < i < |w| ensures OrderedBefore(o, w[i - 1], w[i]) {
      assert w[i - 1] == s[skip + i - 1] && w[i] == s[skip + i];
    }
  }

  /** The arguments `findCategories` hands to `findMany`; `orderBy` is set only on request. */
  datatype CategoryQuery = CategoryQuery(userId: int, skip: int, take: int, orderBy: Option<(string, string)>)

  predicate OrderAccepted(q: CategoryQuery) {
    q.orderBy.Some? ==> ParseCategoryOrder(q.orderBy.value.0, q.orderBy.value.1).Ok?
  }

  /** A sorted page holds only the user's rows, sorted, and no more than the user has. */
  lemma SortedPage(rows: seq<Category>, userId: int, o: CategoryOrder, skip: nat, take: nat)
    ensures var page := Window(SortCategories(o, OwnedCategories(rows, userId)), skip, take);
            && SortedBy(o, page)
            && |page| <= CountCategories(rows, userId)
            && forall c :: c in page ==> c in rows && c.userId == userId
  {
    var owned := OwnedCategories(rows, userId);
    var sorted := SortCategories(o, owned);
    var page := Window(sorted, skip, take);
    assert |sorted| == |owned| by {
      assert |multiset(sorted)| == |multiset(owned)|;
    }
    forall c | c in page ensures c in rows && c.userId == userId {
      var i :| 0 <= i < |page| && page[i] == c;
      assert c in sorted by {
        assert sorted[skip + i] == c;
      }
      assert c in multiset(owned) by {
        assert c in multiset(sorted);
      }
    }
    WindowKeepsSorted(o, sorted, skip, take);
  }

  /** `category.findMany(q)`: only the user's rows, at most `take` of them after skipping
      `skip`; in storage order without `orderBy`, sorted by it otherwise. */
  function FindManyCategories(rows: seq<Category>, q: CategoryQuery): (r: Result<seq<Category>>)
    ensures r.Ok? <==> q.skip >= 0 && q.take >= 0 && OrderAccepted(q)
    ensures r.Ok? ==> |r.value| <= q.take && |r.value| <= CountCategories(rows, q.userId)
    ensures r.Ok? ==> forall c :: c in r.value ==> c in rows && c.userId == q.userId
    ensures r.Ok? && q.orderBy.None? ==> r.value == Window(OwnedCategories(rows, q.userId), q.skip, q.take)
    ensures r.Ok? && q.orderBy.Some? ==>
              var o := ParseCategoryOrder(q.orderBy.value.0, q.orderBy.value.1).value;
              && SortedBy(o, r.value)
              && r.value == Window(SortCategories(o, OwnedCategories(rows, q.userId)), q.skip, q.take)
  {
    if q.skip < 0 then Err(InvalidQuery("skip"))
    else if q.take < 0 then Err(InvalidQuery("take"))
    else
      match q.orderBy
      case None => Ok(Window(OwnedCategories(rows, q.userId), q.skip, q.take))
      case Some(ordering) =>
        var o :- ParseCategoryOrder(ordering.0, ordering.1);
        SortedPage(rows, q.userId, o, q.skip, q.take);
        Ok(Window(SortCategories(o, OwnedCategories(rows, q.userId)), q.skip, q.take))
  }

  // ---------------------------------------------------------------------------------------
  // Languages.

  /** `language.findFirst({ where: { name } })`; an absent name is no filter at all. */
  function FindFirstLanguage(rows: seq<Language>, name: Option<string>): (r: Option<Language>)
    ensures r.None? <==> forall l :: l in rows ==> name.Some? && l.name != name.value
    ensures r.Some? ==> r.value in rows && (name.Some? ==> r.value.name == name.value)
    ensures name.None? && rows != [] ==> r == Some(rows[0])
  {
    if rows == [] then None
    else if name.None? || rows[0].name == name.value then
      assert rows[0] in rows;
      Some(rows[0])
    else FindFirstLanguage(rows[1..], name)
  }

  ghost predicate LanguageNamesUnique(rows: seq<Language>) {
    forall i, j :: 0 <= i < j < |rows| ==> rows[i].name != rows[j].name
  }

  ghost predicate LanguageIdsBelow(rows: seq<Language>, next: int) {
    forall l :: l in rows ==> l.id < next
  }

  // ---------------------------------------------------------------------------------------
  // Snippets.

  predicate SnippetMatches(s: Snippet, id: int, userId: int) {
    s.id == id && s.userId == userId
  }

  function SnippetIds(rows: seq<Snippet>): (ids: set<int>)
    ensures forall s :: s in rows ==> s.id in ids
  {
    if rows == [] then {} else {rows[0].id} + SnippetIds(rows[1..])
  }

  function OwnedSnippets(rows: seq<Snippet>, userId: int): (r: seq<Snippet>)
    ensures |r| <= |rows|
    ensures forall s :: s in r <==> s in rows && s.userId == userId
  {
    if rows == [] then []
    else if rows[0].userId == userId then [rows[0]] + OwnedSnippets(rows[1..], userId)
    else OwnedSnippets(rows[1..], userId)
  }

  function FindFirstSnippet(rows: seq<Snippet>, id: int, userId: int): (r: Option<Snippet>)
    ensures r.None? <==> forall s :: s in rows ==> !SnippetMatches(s, id, userId)
    ensures r.Some? ==> r.value in rows && SnippetMatches(r.value, id, userId)
  {
    if rows == [] then None
    else if SnippetMatches(rows[0], id, userId) then Some(rows[0])
    else FindFirstSnippet(rows[1..], id, userId)
  }

  function CountSnippetMatches(rows: seq<Snippet>, id: int, userId: int): (n: nat)
    ensures n <= |rows|
    ensures n == 0 <==> FindFirstSnippet(rows, id, userId).None?
  {
    if rows == [] then 0
    else (if SnippetMatches(rows[0], id, userId) then 1 else 0) + CountSnippetMatches(rows[1..], id, userId)
  }

  /** One row after `data: { title, code, user_id, language_id }`; an undefined value leaves
      its column as it is. */
  function EditSnippet(s: Snippet, title: Option<string>, code: Option<string>, languageId: Option<int>): (e: Snippet)
    ensures e.id == s.id && e.userId == s.userId && e.categoryId == s.categoryId
    ensures title.None? ==> e.title == s.title
    ensures title.Some? ==> e.title == title.value
    ensures code.None? ==> e.code == s.code
    ensures code.Some? ==> e.code == code.value
    ensures languageId.None? ==> e.languageId == s.languageId
    ensures languageId.Some? ==> e.languageId == languageId.value
  {
    s.(title := title.GetOr(s.title), code := code.GetOr(s.code), languageId := languageId.GetOr(s.languageId))
  }

  /** `snippet.updateMany({ where: { id, user_id }, data })`. */
  function UpdateSnippetRows(rows: seq<Snippet>, id: int, userId: int,
                             title: Option<string>, code: Option<string>, languageId: Option<int>): (r: seq<Snippet>)
    ensures |r| == |rows|
    ensures forall i :: 0 <= i < |rows| && SnippetMatches(rows[i], id, userId) ==>
              r[i] == EditSnippet(rows[i], title, code, languageId)
    ensures forall i :: 0 <= i < |rows| && !SnippetMatches(rows[i], id, userId) ==> r[i] == rows[i]
  {
    if rows == [] then []
    else
      var first := if SnippetMatches(rows[0], id, userId) then EditSnippet(rows[0], title, code, languageId) else rows[0];
      [first] + UpdateSnippetRows(rows[1..], id, userId, title, code, languageId)
  }

  /** `snippet.deleteMany({ where: { id, user_id } })`. */
  function RemoveSnippets(rows: seq<Snippet>, id: int, userId: int): (r: seq<Snippet>)
    ensures |r| == |rows| - CountSnippetMatches(rows, id, userId)
    ensures forall s :: s in r <==> s in rows && !SnippetMatches(s, id, userId)
  {
    if rows == [] then []
    else if SnippetMatches(rows[0], id, userId) then RemoveSnippets(rows[1..], id, userId)
    else [rows[0]] + RemoveSnippets(rows[1..], id, userId)
  }

  ghost predicate SnippetIdsUnique(rows: seq<Snippet>) {
    forall i, j :: 0 <= i < j < |rows| ==> rows[i].id != rows[j].id
  }

  ghost predicate SnippetIdsBelow(rows: seq<Snippet>, next: int) {
    forall s :: s in rows ==> s.id < next
  }

  /** Editing one user's rows leaves every other user's rows as they were. */
  lemma {:induction false} UpdateSnippetRowsKeepsOtherOwners(rows: seq<Snippet>, id: int, userId: int,
      title: Option<string>, code: Option<string>, languageId: Option<int>, other: int)
    requires other != userId
    ensures OwnedSnippets(UpdateSnippetRows(rows, id, userId, title, code, languageId), other)
         == OwnedSnippets(rows, other)
  {
    if rows != [] {
      var r := UpdateSnippetRows(rows, id, userId, title, code, languageId);
      assert r[1..] == UpdateSnippetRows(rows[1..], id, userId, title, code, languageId);
      UpdateSnippetRowsKeepsOtherOwners(rows[1..], id, userId, title, code, languageId, other);
    }
  }

  /** Every id in the table is below the next autoincrement value. */
  lemma {:induction false} SnippetIdsBelowNext(rows: seq<Snippet>, next: int, x: int)
    requires SnippetIdsBelow(rows, next) && x in SnippetIds(rows)
    ensures x < next
  {
    if rows[0].id == x {
      assert rows[0] in rows;
    } else {
      SnippetIdsBelowNext(rows[1..], next, x);
    }
  }

  /** With unique ids, an id-and-owner filter matches at most one snippet. */
  lemma {:induction false} SnippetMatchesAtMostOne(rows: seq<Snippet>, id: int, userId: int)
    requires SnippetIdsUnique(rows)
    ensures CountSnippetMatches(rows, id, userId) <= 1
  {
    if rows != [] {
      SnippetMatchesAtMostOne(rows[1..], id, userId);
      if SnippetMatches(rows[0], id, userId) {
        forall s | s in rows[1..] ensures s.id != id {
          var k :| 0 <= k < |rows[1..]| && rows[1..][k] == s;
          assert rows[k + 1] == s;
        }
        assert FindFirstSnippet(rows[1..], id, userId).None?;
      }
    }
  }

  /** An edit keeps a row's id and owner, so a row that matched still matches. */
  lemma UpdateSnippetRowsKeepsMatch(rows: seq<Snippet>, id: int, userId: int,
      title: Option<string>, code: Option<string>, languageId: Option<int>)
    requires FindFirstSnippet(rows, id, userId).Some?
    ensures FindFirstSnippet(UpdateSnippetRows(rows, id, userId, title, code, languageId), id, userId).Some?
  {
    var r := UpdateSnippetRows(rows, id, userId, title, code, languageId);
    var i :| 0 <= i < |rows| && rows[i] == FindFirstSnippet(rows, id, userId).value;
    assert r[i] in r;
  }

  /** Removing one user's snippets leaves every other user's snippets as they were. */
  lemma {:induction false} RemoveSnippetsKeepsOtherOwners(rows: seq<Snippet>, id: int, userId: int, other: int)
    requires other != userId
    ensures OwnedSnippets(RemoveSnippets(rows, id, userId), other) == OwnedSnippets(rows, other)
  {
    if rows != [] {
      RemoveSnippetsKeepsOtherOwners(rows[1..], id, userId, other);
      if !SnippetMatches(rows[0], id, userId) {
        var r := RemoveSnippets(rows, id, userId);
        assert r[1..] == RemoveSnippets(rows[1..], id, userId);
      }
    }
  }

  // ---------------------------------------------------------------------------------------
  // Tags and the snippet-tag join table.

  function FindTag(tags: seq<Tag>, id: int): (r: Option<Tag>)
    ensures r.None? <==> forall t :: t in tags ==> t.id != id
    ensures r.Some? ==> r.value in tags && r.value.id == id
  {
    if tags == [] then None
    else if tags[0].id == id then Some(tags[0])
    else FindTag(tags[1..], id)
  }

  lemma {:induction false} FindTagAppend(a: seq<Tag>, b: seq<Tag>, id: int)
    ensures FindTag(a + b, id) == if FindTag(a, id).Some? then FindTag(a, id) else FindTag(b, id)
  {
    if a != [] {
      assert (a + b)[1..] == a[1..] + b;
      FindTagAppend(a[1..], b, id);
    } else {
      assert a + b == b;
    }
  }

  /** A lookup that misses every row of `a` finds in `a + b` what it finds in `b`. */
  lemma FindTagPastPrefix(a: seq<Tag>, b: seq<Tag>, id: int)
    requires forall t :: t in a ==> t.id != id
    ensures FindTag(a + b, id) == FindTag(b, id)
  {
    FindTagAppend(a, b, id);
  }

  ghost predicate TagIdsBelow(tags: seq<Tag>, next: int) {
    forall t :: t in tags ==> t.id < next
  }

  /** Every link points at an existing snippet and an existing tag. */
  ghost predicate LinksResolve(links: seq<SnippetTag>, snippets: seq<Snippet>, tags: seq<Tag>) {
    forall l :: l in links ==> l.snippetId in SnippetIds(snippets) && FindTag(tags, l.tagId).Some?
  }

  /** The link's tag is owned by `userId`: the relation filter `tag: { user_id }`. */
  predicate TagOwnedBy(tags: seq<Tag>, tagId: int, userId: int) {
    var t := FindTag(tags, tagId);
    t.Some? && t.value.userId == userId
  }

  /** `snippet_tag.deleteMany({ where: { tag: { user_id }, snippet_id } })`. */
  function DeleteSnippetTagLinks(links: seq<SnippetTag>, tags: seq<Tag>, userId: int, snippetId: int): (r: seq<SnippetTag>)
    ensures |r| <= |links|
    ensures forall l :: l in r <==> l in links && !(l.snippetId == snippetId && TagOwnedBy(tags, l.tagId, userId))
  {
    if links == [] then []
    else if links[0].snippetId == snippetId && TagOwnedBy(tags, links[0].tagId, userId) then
      DeleteSnippetTagLinks(links[1..], tags, userId, snippetId)
    else [links[0]] + DeleteSnippetTagLinks(links[1..], tags, userId, snippetId)
  }

  /** The tag rows that `count` calls of createSnippetTag add, one per name, in order. */
  function NewTags(firstId: int, names: seq<string>, userId: int): (r: seq<Tag>)
    ensures |r| == |names|
    ensures forall i :: 0 <= i < |names| ==> r[i] == Tag(firstId + i, names[i], userId)
  {
    seq(|names|, i requires 0 <= i < |names| => Tag(firstId + i, names[i], userId))
  }

  /** The link rows those calls add, each to its own new tag. */
  function NewLinks(snippetId: int, firstId: int, count: nat): (r: seq<SnippetTag>)
    ensures |r| == count
    ensures forall i :: 0 <= i < count ==> r[i] == SnippetTag(snippetId, firstId + i)
  {
    seq(count, i requires 0 <= i < count => SnippetTag(snippetId, firstId + i))
  }

  // ---------------------------------------------------------------------------------------
  // Reading snippets with their tags: `include: { Snippet_tag: { select: { tag: { select:
  // { id, name } } } } }`.

  datatype TagRef = TagRef(id: int, name: string)
  datatype JoinRow = JoinRow(tag: TagRef)

  /** A snippet object as the handlers hold it: the row, the included join rows (until they
      are flattened) and the flattened `tags` (once they are). */
  datatype SnippetView = SnippetView(snippet: Snippet, snippetTag: Option<seq<JoinRow>>, tags: Option<seq<TagRef>>)

  /** The tags a snippet carries, read straight off the link table: the `{ id, name }` of the
      tag of each of its links whose tag exists, in link order. */
  function TagsOf(links: seq<SnippetTag>, tags: seq<Tag>, snippetId: int): seq<TagRef> {
    if links == [] then []
    else
      var t := FindTag(tags, links[0].tagId);
      var head := if links[0].snippetId == snippetId && t.Some? then [TagRef(t.value.id, t.value.name)] else [];
      head + TagsOf(links[1..], tags, snippetId)
  }

  /** Every tag a snippet carries comes from one of its links and names an existing tag. */
  lemma {:induction false} TagRefsResolve(links: seq<SnippetTag>, tags: seq<Tag>, snippetId: int)
    ensures |TagsOf(links, tags, snippetId)| <= |links|
    ensures forall t :: t in TagsOf(links, tags, snippetId) ==>
              FindTag(tags, t.id).Some? && FindTag(tags, t.id).value.name == t.name
    ensures (forall l :: l in links ==> l.snippetId != snippetId) ==> TagsOf(links, tags, snippetId) == []
  {
    if links != [] {
      TagRefsResolve(links[1..], tags, snippetId);
      assert forall l :: l in links[1..] ==> l in links;
    }
  }

  /** The join rows of one snippet: one per tag it carries, in link-table order. */
  function JoinRowsOf(links: seq<SnippetTag>, tags: seq<Tag>, snippetId: int): (r: seq<JoinRow>)
    ensures |r| <= |links|
    ensures forall j :: j in r ==> FindTag(tags, j.tag.id).Some? && FindTag(tags, j.tag.id).value.name == j.tag.name
    ensures (forall l :: l in links ==> l.snippetId != snippetId) ==> r == []
  {
    var refs := TagsOf(links, tags, snippetId);
    TagRefsResolve(links, tags, snippetId);
    var r := seq(|refs|, i requires 0 <= i < |refs| => JoinRow(refs[i]));
    assert forall j :: j in r ==> j.tag in refs;
    r
  }

  function WithJoins(s: Snippet, links: seq<SnippetTag>, tags: seq<Tag>): SnippetView {
    SnippetView(s, Some(JoinRowsOf(links, tags, s.id)), None)
  }

  function IncludeTags(rows: seq<Snippet>, links: seq<SnippetTag>, tags: seq<Tag>): (r: seq<SnippetView>)
    ensures |r| == |rows|
    ensures forall i :: 0 <= i < |rows| ==> r[i] == WithJoins(rows[i], links, tags)
  {
    seq(|rows|, i requires 0 <= i < |rows| => WithJoins(rows[i], links, tags))
  }

  /** `snippet.findMany({ where: { user_id }, include, skip, take })`. */
  function FindManySnippets(snippets: seq<Snippet>, links: seq<SnippetTag>, tags: seq<Tag>,
                            userId: int, skip: int, take: int): (r: Result<seq<SnippetView>>)
    ensures r.Ok? <==> skip >= 0 && take >= 0
    ensures r.Ok? ==> |r.value| <= take
    ensures r.Ok? ==> forall v :: v in r.value ==>
              v.snippet in snippets && v.snippet.userId == userId && v == WithJoins(v.snippet, links, tags)
  {
    if skip < 0 then Err(InvalidQuery("skip"))
    else if take < 0 then Err(InvalidQuery("take"))
    else Ok(IncludeTags(Window(OwnedSnippets(snippets, userId), skip, take), links, tags))
  }

  /** Everything one user can read through the snippet routes: their snippets with joins. */
  function UserSnippets(snippets: seq<Snippet>, links: seq<SnippetTag>, tags: seq<Tag>, userId: int): seq<SnippetView> {
    IncludeTags(OwnedSnippets(snippets, userId), links, tags)
  }
}
