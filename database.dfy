/** The database behind the ORM client: every table, the next autoincrement id of each, and
    the ORM calls the routers make, each changing exactly the tables it names. */
module Database {
  import opened Results
  import opened Tables

  datatype DbState = DbState(
    categories: seq<Category>, languages: seq<Language>, snippets: seq<Snippet>, tags: seq<Tag>,
    snippetTags: seq<SnippetTag>, nextCategoryId: int, nextLanguageId: int, nextSnippetId: int, nextTagId: int)

  /** Ids are below the next autoincrement value and unique where the routers rely on it,
      language names are unique (the key of connect-or-create), and every link resolves. */
  ghost predicate ValidState(st: DbState) {
    && CategoryIdsBelow(st.categories, st.nextCategoryId) && CategoryIdsUnique(st.categories)
    && LanguageIdsBelow(st.languages, st.nextLanguageId) && LanguageNamesUnique(st.languages)
    && SnippetIdsBelow(st.snippets, st.nextSnippetId) && SnippetIdsUnique(st.snippets)
    && TagIdsBelow(st.tags, st.nextTagId)
    && LinksResolve(st.snippetTags, st.snippets, st.tags)
  }

  class Db {
    var categories: seq<Category>
    var languages: seq<Language>
    var snippets: seq<Snippet>
    var tags: seq<Tag>
    var snippetTags: seq<SnippetTag>
    var nextCategoryId: int
    var nextLanguageId: int
    var nextSnippetId: int
    var nextTagId: int

    ghost predicate Valid()
      reads this
    {
      ValidState(Snapshot())
    }

    /** Every table and every autoincrement counter, as one value. */
    function Snapshot(): DbState
      reads this
    {
      DbState(categories, languages, snippets, tags, snippetTags,
              nextCategoryId, nextLanguageId, nextSnippetId, nextTagId)
    }

    constructor ()
      ensures Valid()
      ensures categories == [] && languages == [] && snippets == [] && tags == [] && snippetTags == []
    {
      categories, languages, snippets, tags, snippetTags := [], [], [], [], [];
      nextCategoryId, nextLanguageId, nextSnippetId, nextTagId := 1, 1, 1, 1;
    }

    // -------------------------------------------------------------------------------------
    // category

    /** `category.create({ data: { name, user_id } })`. */
    method CreateCategory(name: string, userId: int) returns (c: Category)
      requires Valid()
      modifies this`categories, this`nextCategoryId
      ensures Valid()
      ensures c == Category(old(nextCategoryId), name, userId)
      ensures categories == old(categories) + [c] && nextCategoryId == old(nextCategoryId) + 1
      ensures languages == old(languages) && snippets == old(snippets) && tags == old(tags)
      ensures snippetTags == old(snippetTags)
      ensures nextLanguageId == old(nextLanguageId) && nextSnippetId == old(nextSnippetId)
      ensures nextTagId == old(nextTagId)
    {
      c := Category(nextCategoryId, name, userId);
      categories := categories + [c];
      nextCategoryId := nextCategoryId + 1;
    }

    /** `category.updateMany({ where: { id, user_id }, data: { name } })`. */
    method UpdateManyCategories(id: int, userId: int, name: string) returns (count: nat)
      requires Valid()
      modifies this`categories
      ensures Valid()
      ensures count == CountCategoryMatches(old(categories), id, userId) && count <= 1
      ensures categories == RenameCategories(old(categories), id, userId, name)
    {
      count := CountCategoryMatches(categories, id, userId);
      CategoryMatchesAtMostOne(categories, id, userId);
      categories := RenameCategories(categories, id, userId, name);
    }

    /** `category.delete({ where: { id, user_id } })`: fails when no row matches. */
    method DeleteCategory(id: int, userId: int) returns (r: Result<Category>)
      requires Valid()
      modifies this`categories
      ensures Valid()
      ensures r.Err? <==> FindFirstCategory(old(categories), id, userId).None?
      ensures r.Err? ==> r.error == RecordNotFound("Category") && categories == old(categories)
      ensures r.Ok? ==> Some(r.value) == FindFirstCategory(old(categories), id, userId)
      ensures r.Ok? ==> categories == RemoveCategories(old(categories), id, userId)
                        && |categories| == |old(categories)| - 1
    {
      match FindFirstCategory(categories, id, userId)
      case None =>
        r := Err(RecordNotFound("Category"));
      case Some(c) =>
        CategoryMatchesAtMostOne(categories, id, userId);
        RemovePreservesCategoryIds(categories, id, userId);
        categories := RemoveCategories(categories, id, userId);
        r := Ok(c);
    }

    /** `category.deleteMany({ where: { id, user_id } })`: zero matches is not an error. */
    method DeleteManyCategories(id: int, userId: int) returns (count: nat)
      requires Valid()
      modifies this`categories
      ensures Valid()
      ensures count == CountCategoryMatches(old(categories), id, userId) && count <= 1
      ensures categories == RemoveCategories(old(categories), id, userId)
    {
      count := CountCategoryMatches(categories, id, userId);
      CategoryMatchesAtMostOne(categories, id, userId);
      RemovePreservesCategoryIds(categories, id, userId);
      categories := RemoveCategories(categories, id, userId);
    }

    // -------------------------------------------------------------------------------------
    // snippet

    /** `snippet.create` with `user: { connect }`, `language: { connectOrCreate }` and
        `category: { connect }`, one atomic nested write: a missing category fails it before
        anything is written; a missing language is created, an existing one reused. */
    method CreateSnippet(title: string, code: string, userId: int, language: string, categoryId: int)
      returns (r: Result<Snippet>)
      requires Valid()
      modifies this`snippets, this`languages, this`nextSnippetId, this`nextLanguageId
      ensures Valid()
      ensures categories == old(categories) && tags == old(tags) && snippetTags == old(snippetTags)
      ensures nextCategoryId == old(nextCategoryId) && nextTagId == old(nextTagId)
      ensures r.Err? <==> FindCategoryById(old(categories), categoryId).None?
      ensures r.Err? ==> r.error == RecordNotFound("Category")
                         && snippets == old(snippets) && languages == old(languages)
                         && nextSnippetId == old(nextSnippetId) && nextLanguageId == old(nextLanguageId)
      ensures r.Ok? ==> var (languageId, newLanguages) := ConnectOrCreateLanguage(old(languages), old(nextLanguageId), language);
                        && r.value == Snippet(old(nextSnippetId), title, code, userId, languageId, categoryId)
                        && snippets == old(snippets) + [r.value]
                        && nextSnippetId == old(nextSnippetId) + 1
                        && languages == newLanguages
                        && nextLanguageId == (if |newLanguages| == |old(languages)| then old(nextLanguageId) else old(nextLanguageId) + 1)
    {
      if FindCategoryById(categories, categoryId).None? {
        return Err(RecordNotFound("Category"));
      }
      var (languageId, newLanguages) := ConnectOrCreateLanguage(languages, nextLanguageId, language);
      var s := Snippet(nextSnippetId, title, code, userId, languageId, categoryId);
      NewSnippetKeepsValid(Snapshot(), s, language);
      nextLanguageId := if |newLanguages| == |languages| then nextLanguageId else nextLanguageId + 1;
      languages := newLanguages;
      snippets, nextSnippetId := snippets + [s], nextSnippetId + 1;
      r := Ok(s);
    }

    /** `snippet.updateMany({ where: { id, user_id }, data })`. */
    method UpdateManySnippets(id: int, userId: int, title: Option<string>, code: Option<string>, languageId: Option<int>)
      returns (count: nat)
      requires Valid()
      modifies this`snippets
      ensures Valid()
      ensures count == CountSnippetMatches(old(snippets), id, userId) && count <= 1
      ensures snippets == UpdateSnippetRows(old(snippets), id, userId, title, code, languageId)
      ensures SnippetIds(snippets) == SnippetIds(old(snippets))
    {
      count := CountSnippetMatches(snippets, id, userId);
      SnippetMatchesAtMostOne(snippets, id, userId);
      UpdateSnippetRowsKeepsValid(Snapshot(), id, userId, title, code, languageId);
      snippets := UpdateSnippetRows(snippets, id, userId, title, code, languageId);
    }

    /** `snippet.deleteMany({ where: { id, user_id } })`, with the snippet's links removed
        alongside (the links cannot outlive their snippet). */
    method DeleteManySnippets(id: int, userId: int) returns (count: nat)
      requires Valid()
      modifies this`snippets, this`snippetTags
      ensures Valid()
      ensures count == CountSnippetMatches(old(snippets), id, userId) && count <= 1
      ensures snippets == RemoveSnippets(old(snippets), id, userId)
      ensures snippetTags == (if count == 0 then old(snippetTags) else LinksNotTo(old(snippetTags), id))
    {
      count := CountSnippetMatches(snippets, id, userId);
      SnippetMatchesAtMostOne(snippets, id, userId);
      RemoveKeepsSnippetIdsUnique(snippets, id, userId);
      RemoveKeepsOtherSnippetIds(snippets, id, userId);
      if count == 0 {
        RemoveWithoutMatchKeepsSnippets(snippets, id, userId);
      }
      if count != 0 {
        snippetTags := LinksNotTo(snippetTags, id);
      }
      snippets := RemoveSnippets(snippets, id, userId);
    }

    // -------------------------------------------------------------------------------------
    // snippet_tag

    /** `snippet_tag.deleteMany({ where: { tag: { user_id }, snippet_id } })`. */
    method DeleteManySnippetTags(userId: int, snippetId: int)
      requires Valid()
      modifies this`snippetTags
      ensures Valid()
      ensures snippetTags == DeleteSnippetTagLinks(old(snippetTags), tags, userId, snippetId)
    {
      snippetTags := DeleteSnippetTagLinks(snippetTags, tags, userId, snippetId);
    }

    /** `snippet_tag.create` with `snippet: { connect }` and `tag: { create }`: fails when the
        snippet does not exist (whoever owns it), otherwise adds one new tag and one link. */
    method CreateSnippetTag(snippetId: int, userId: int, name: string) returns (r: Result<()>)
      requires Valid()
      modifies this`tags, this`snippetTags, this`nextTagId
      ensures Valid()
      ensures r.Err? <==> snippetId !in SnippetIds(snippets)
      ensures r.Err? ==> r.error == RecordNotFound("Snippet") && tags == old(tags)
                         && snippetTags == old(snippetTags) && nextTagId == old(nextTagId)
      ensures r.Ok? ==> && tags == old(tags) + [Tag(old(nextTagId), name, userId)]
                        && snippetTags == old(snippetTags) + [SnippetTag(snippetId, old(nextTagId))]
                        && nextTagId == old(nextTagId) + 1
    {
      if snippetId !in SnippetIds(snippets) {
        return Err(RecordNotFound("Snippet"));
      }
      NewTagKeepsValid(Snapshot(), snippetId, name, userId);
      tags := tags + [Tag(nextTagId, name, userId)];
      snippetTags := snippetTags + [SnippetTag(snippetId, nextTagId)];
      nextTagId := nextTagId + 1;
      r := Ok(());
    }
  }

  // ---------------------------------------------------------------------------------------
  // Helpers for the ORM calls above.

  /** `category: { connect: { id } }` looks the row up by id alone. */
  function FindCategoryById(rows: seq<Category>, id: int): (r: Option<Category>)
    ensures r.None? <==> forall c :: c in rows ==> c.id != id
    ensures r.Some? ==> r.value in rows && r.value.id == id
  {
    if rows == [] then None
    else if rows[0].id == id then Some(rows[0])
    else FindCategoryById(rows[1..], id)
  }

  /** `language: { connectOrCreate: { where: { name }, create: { name } } }`: the id the
      snippet is connected to and the language table afterwards. The name ends up naming
      exactly the connected row; a new row is added only when no row had the name. */
  function ConnectOrCreateLanguage(rows: seq<Language>, nextId: int, name: string): (r: (int, seq<Language>))
    ensures FindFirstLanguage(r.1, Some(name)) == Some(Language(r.0, name))
    ensures FindFirstLanguage(rows, Some(name)).Some? ==> r.1 == rows
    ensures FindFirstLanguage(rows, Some(name)).None? ==> r == (nextId, rows + [Language(nextId, name)])
  {
    match FindFirstLanguage(rows, Some(name))
    case Some(l) => (l.id, rows)
    case None =>
      FindFirstLanguageAppend(rows, Language(nextId, name));
      (nextId, rows + [Language(nextId, name)])
  }

  lemma {:induction false} FindFirstLanguageAppend(rows: seq<Language>, l: Language)
    requires FindFirstLanguage(rows, Some(l.name)).None?
    ensures FindFirstLanguage(rows + [l], Some(l.name)) == Some(l)
  {
    if rows != [] {
      assert (rows + [l])[1..] == rows[1..] + [l];
      FindFirstLanguageAppend(rows[1..], l);
    }
  }

  /** The links that do not point at snippet `id`. */
  function LinksNotTo(links: seq<SnippetTag>, id: int): (r: seq<SnippetTag>)
    ensures forall l :: l in r <==> l in links && l.snippetId != id
  {
    if links == [] then []
    else if links[0].snippetId == id then LinksNotTo(links[1..], id)
    else [links[0]] + LinksNotTo(links[1..], id)
  }

  lemma CategoryHeadIdDiffers(rows: seq<Category>)
    requires CategoryIdsUnique(rows) && rows != []
    ensures forall c :: c in rows[1..] ==> c.id != rows[0].id
  {
    forall c | c in rows[1..] ensures c.id != rows[0].id {
      var k :| 0 <= k < |rows[1..]| && rows[1..][k] == c;
      assert rows[k + 1] == c;
    }
  }

  lemma {:induction false} RemovePreservesCategoryIds(rows: seq<Category>, id: int, userId: int)
    requires CategoryIdsUnique(rows)
    ensures CategoryIdsUnique(RemoveCategories(rows, id, userId))
  {
    if rows != [] {
      RemovePreservesCategoryIds(rows[1..], id, userId);
      if !CategoryMatches(rows[0], id, userId) {
        var rest := RemoveCategories(rows[1..], id, userId);
        var r := [rows[0]] + rest;
        assert r[1..] == rest;
        CategoryHeadIdDiffers(rows);
        forall i, j | 0 <= i < j < |r| ensures r[i].id != r[j].id {
          if i == 0 {
            assert r[j] == rest[j - 1] && rest[j - 1] in rest;
          } else {
            assert r[i] == rest[i - 1] && r[j] == rest[j - 1];
          }
        }
      }
    }
  }

  lemma AppendFreshLanguageKeepsNamesUnique(rows: seq<Language>, name: string)
    requires LanguageNamesUnique(rows)
    requires FindFirstLanguage(rows, Some(name)).None?
    ensures forall id :: LanguageNamesUnique(rows + [Language(id, name)])
  {
    forall id ensures LanguageNamesUnique(rows + [Language(id, name)]) {
      var s := rows + [Language(id, name)];
      forall i, j | 0 <= i < j < |s| ensures s[i].name != s[j].name {
        if j == |rows| {
          assert s[i] in rows;
        }
      }
    }
  }

  lemma AppendKeepsSnippetIds(rows: seq<Snippet>, s: Snippet)
    requires SnippetIdsUnique(rows)
    requires forall t :: t in rows ==> t.id < s.id
    ensures SnippetIdsUnique(rows + [s])
    ensures SnippetIds(rows + [s]) == SnippetIds(rows) + {s.id}
  {
    var r := rows + [s];
    forall i, j | 0 <= i < j < |r| ensures r[i].id != r[j].id {
      if j == |rows| {
        assert r[i] in rows;
      }
    }
    SnippetIdsAppend(rows, [s]);
  }

  lemma {:induction false} SnippetIdsAppend(a: seq<Snippet>, b: seq<Snippet>)
    ensures SnippetIds(a + b) == SnippetIds(a) + SnippetIds(b)
  {
    if a != [] {
      assert (a + b)[1..] == a[1..] + b;
      SnippetIdsAppend(a[1..], b);
    } else {
      assert a + b == b;
    }
  }

  lemma {:induction false} UpdateSnippetRowsKeepsIds(rows: seq<Snippet>, id: int, userId: int,
      title: Option<string>, code: Option<string>, languageId: Option<int>)
    ensures SnippetIds(UpdateSnippetRows(rows, id, userId, title, code, languageId)) == SnippetIds(rows)
  {
    if rows != [] {
      var r := UpdateSnippetRows(rows, id, userId, title, code, languageId);
      assert r[1..] == UpdateSnippetRows(rows[1..], id, userId, title, code, languageId);
      assert r[0].id == rows[0].id;
      UpdateSnippetRowsKeepsIds(rows[1..], id, userId, title, code, languageId);
    }
  }

  /** A new snippet under the next id, with its language connected or created, keeps every
      invariant of the tables. */
  lemma NewSnippetKeepsValid(st: DbState, s: Snippet, language: string)
    requires ValidState(st)
    requires s.id == st.nextSnippetId
    ensures var newLanguages := ConnectOrCreateLanguage(st.languages, st.nextLanguageId, language).1;
            ValidState(st.(languages := newLanguages,
                           nextLanguageId := if |newLanguages| == |st.languages| then st.nextLanguageId else st.nextLanguageId + 1,
                           snippets := st.snippets + [s], nextSnippetId := st.nextSnippetId + 1))
  {
    if FindFirstLanguage(st.languages, Some(language)).None? {
      AppendFreshLanguageKeepsNamesUnique(st.languages, language);
    }
    AppendKeepsSnippetIds(st.snippets, s);
  }

  /** A new tag under the next id, linked to an existing snippet, keeps every invariant. */
  lemma NewTagKeepsValid(st: DbState, snippetId: int, name: string, userId: int)
    requires ValidState(st)
    requires snippetId in SnippetIds(st.snippets)
    ensures ValidState(st.(tags := st.tags + [Tag(st.nextTagId, name, userId)],
                           snippetTags := st.snippetTags + [SnippetTag(snippetId, st.nextTagId)],
                           nextTagId := st.nextTagId + 1))
  {
    var t := Tag(st.nextTagId, name, userId);
    forall l | l in st.snippetTags ensures FindTag(st.tags + [t], l.tagId).Some? {
      FindTagAppend(st.tags, [t], l.tagId);
    }
    assert FindTag(st.tags + [t], t.id).Some? by {
      FindTagAppend(st.tags, [t], t.id);
    }
  }

  /** Editing snippet rows keeps every id, so every invariant of the tables still holds. */
  lemma UpdateSnippetRowsKeepsValid(st: DbState, id: int, userId: int,
      title: Option<string>, code: Option<string>, languageId: Option<int>)
    requires ValidState(st)
    ensures var updated := UpdateSnippetRows(st.snippets, id, userId, title, code, languageId);
            && ValidState(st.(snippets := updated))
            && SnippetIds(updated) == SnippetIds(st.snippets)
  {
    var rows := st.snippets;
    var updated := UpdateSnippetRows(rows, id, userId, title, code, languageId);
    UpdateSnippetRowsKeepsIds(rows, id, userId, title, code, languageId);
    assert forall i :: 0 <= i < |updated| ==> updated[i].id == rows[i].id;
    forall t | t in updated ensures t.id < st.nextSnippetId {
      var i :| 0 <= i < |updated| && updated[i] == t;
      assert rows[i] in rows;
    }
  }


  lemma SnippetHeadIdDiffers(rows: seq<Snippet>)
    requires SnippetIdsUnique(rows) && rows != []
    ensures forall c :: c in rows[1..] ==> c.id != rows[0].id
  {
    forall c | c in rows[1..] ensures c.id != rows[0].id {
      var k :| 0 <= k < |rows[1..]| && rows[1..][k] == c;
      assert rows[k + 1] == c;
    }
  }

  lemma {:induction false} RemoveKeepsSnippetIdsUnique(rows: seq<Snippet>, id: int, userId: int)
    requires SnippetIdsUnique(rows)
    ensures SnippetIdsUnique(RemoveSnippets(rows, id, userId))
  {
    if rows != [] {
      RemoveKeepsSnippetIdsUnique(rows[1..], id, userId);
      var rest := RemoveSnippets(rows[1..], id, userId);
      if !SnippetMatches(rows[0], id, userId) {
        var r := [rows[0]] + rest;
        assert r[1..] == rest;
        SnippetHeadIdDiffers(rows);
        forall i, j | 0 <= i < j < |r| ensures r[i].id != r[j].id {
          if i == 0 {
            assert r[j] in rest;
          } else {
            assert r[i] == rest[i - 1] && r[j] == rest[j - 1];
          }
        }
      }
    }
  }

  lemma {:induction false} RemoveWithoutMatchKeepsSnippets(rows: seq<Snippet>, id: int, userId: int)
    requires CountSnippetMatches(rows, id, userId) == 0
    ensures RemoveSnippets(rows, id, userId) == rows
  {
    if rows != [] {
      RemoveWithoutMatchKeepsSnippets(rows[1..], id, userId);
      assert rows == [rows[0]] + rows[1..];
    }
  }

  lemma {:induction false} RemoveKeepsOtherSnippetIds(rows: seq<Snippet>, id: int, userId: int)
    ensures forall x :: x in SnippetIds(rows) && x != id ==> x in SnippetIds(RemoveSnippets(rows, id, userId))
  {
    if rows != [] {
      RemoveKeepsOtherSnippetIds(rows[1..], id, userId);
      if !SnippetMatches(rows[0], id, userId) {
        var r := [rows[0]] + RemoveSnippets(rows[1..], id, userId);
        assert r[1..] == RemoveSnippets(rows[1..], id, userId);
      }
    }
  }

}
