# SnippetsManager core, modelled in Dafny

SnippetsManager is a small REST API that lets each account store code snippets, grouped
into categories and labelled with tags. This project models its three pieces of real logic.

- **The pagination helper** (`src/utils/pagination.ts`). The query parser fills in the
  defaults (skip 0, take 10, direction "asc"). `getPaginationLinks` builds the `next` and
  `prev` links. Module `Pagination`, pure functions. Module `Decimal` prints integers the way a
  template literal does for magnitudes below 10^21.
- **The category routes** (`src/routers/category.ts`). They cover the paged list with its
  total, get-one, create, rename and delete, each scoped to the acting user. Module
  `CategoryRouter`. The reads are functions over the table. The writes are methods that change
  a shared database object, class `Database.Db`.
- **The snippet routes** (`src/routers/snippet.ts`). They cover:
  - the in-place flattening of join rows into a `tags` list (a loop over an `array`);
  - create, with connect-or-create of the language and one new tag per name (a loop);
  - the field update, followed by the delete-then-recreate replacement of the tags (a loop);
  - list, get-one and delete.

  Module `SnippetRouter`.

The ORM tables are sequences of rows in storage order. Module `Tables` holds the rows and
gives each ORM call its meaning. That meaning is the model's one assumption, stated in the
header of `Tables`:
- `findMany` filters, optionally sorts, then skips and takes;
- `findFirst` returns the first match;
- `create` takes the next autoincrement id;
- `updateMany` and `deleteMany` report how many rows matched;
- `delete` fails on no match;
- a nested `connect` fails when the target row does not exist.

`Database.Db` holds every table and every id counter. Its invariant `Valid` says:
- ids are below their counter;
- snippet and category ids are unique;
- language names are unique;
- every link points at an existing snippet and tag.

Each ORM method names exactly the fields it changes.

The acting user's id is a plain parameter; sessions and JWT handling are outside the model.
Request bodies arrive as `Request.Field` values (absent, string, number, list of strings,
other). The zod schemas become functions to `Result`, and a failure names the property that
failed.

In these places the code does something a reader might not expect; the model follows the code:
- **Tags.** The code always creates a brand-new tag row per supplied name
  (`tag: { create }`, src/routers/snippet.ts:109-114). It never looks up an existing tag, and
  it never merges duplicate names, so `["pouet", "pouet", "pouet"]` yields three tags.
- **Snippet delete.** The code removes categories, not snippets. See "## Findings".
- **Link spelling.** The tests expect links spelled `start=…&per_page=…`
  (src/__tests__/app.test.ts:155-156). The code emits `skip=…&take=…`.
- **Category on create.** A snippet's category is required on create
  (src/routers/snippet.ts:15), not optional.

## Model

| member | source | states |
|---|---|---|
| Pagination.ParsePaginationQuery | src/utils/pagination.ts:10-15 | every absent key takes its default (skip 0, take 10, direction "asc"); every supplied value is kept; `orderBy` stays optional |
| Pagination.EmptyQueryDefaults | src/utils/pagination.ts:10-15 | an empty query parses to skip 0, take 10, no ordering, "asc" |
| Pagination.ParseToQuery | src/utils/pagination.ts:10-15 | a query that spells out a window parses back to that window |
| Pagination.PrevSkip | src/utils/pagination.ts:19 | the previous offset is never negative, is either 0 or `skip - take`, and is 0 whenever `take >= skip` |
| Pagination.SkipsAroundCurrent | src/utils/pagination.ts:18-19 | for a non-negative window, prev offset <= skip <= next offset |
| Pagination.SortingSuffix | src/utils/pagination.ts:21 | the suffix is empty exactly when `orderBy` is absent or empty; otherwise it starts with `&`, and for a field without `&` it reads back as the field and the direction |
| Pagination.GetPaginationLinks | src/utils/pagination.ts:17-27 | for a route without `?` and a field without `&`, `next` and `prev` read back as that route, take and ordering, at offsets `skip + take` and `max(0, skip - take)` |
| Pagination.LinksRoundTrip | src/utils/pagination.ts:17-27 | for a route without `?` and a field without `&`, both links read back as `/v1/<route>?skip=<k>&take=<take>` with the same route, take and ordering; k is `skip + take` for next and `max(0, skip - take)` for prev; the `&orderBy=…&direction=…` suffix is present iff `orderBy` is a non-empty string |
| Pagination.LinkRoundTrip | src/utils/pagination.ts:24-25 | for a route without `?` and a field without `&`, a link reads back as the route, offset, take and ordering it was built from |
| Pagination.LinkQueryRoundTrip | src/utils/pagination.ts:24-25 | for a field without `&`, the `skip=<k>&take=<n><suffix>` part reads back as its offset, take and ordering |
| Pagination.TakeAndSuffixRoundTrip | src/utils/pagination.ts:21-25 | for a field without `&`, the `take=<n><suffix>` part reads back; the ordering appears only when `orderBy` is non-empty |
| Pagination.OrderingRoundTrip | src/utils/pagination.ts:21 | for a field without `&`, the sorting suffix reads back as its field and direction |
| Pagination.AmpersandFieldCutShort | src/utils/pagination.ts:21 | a field holding `&` is inserted unescaped, so the ordering read back is never that field |
| Pagination.AmpersandLinksDoNotReadBack | src/utils/pagination.ts:17-27 | for a field holding `&`, neither link reads back as the route, offset, take and ordering it was built from: with `LinksRoundTrip`, the links read back exactly when the field has no `&` |
| Pagination.FiveByFiveExample | src/__tests__/app.test.ts:151-157 | skip=5, take=5 on the category route gives `/v1/category?skip=10&take=5` and `/v1/category?skip=0&take=5` (the code's spelling) |
| Pagination.NextLinkOfFiveByFive | src/utils/pagination.ts:24 | the next link of that example, spelled out |
| Pagination.PrevLinkOfFiveByFive | src/utils/pagination.ts:25 | the prev link of that example, spelled out |
| Decimal.IntToString | src/utils/pagination.ts:24-25 | the text is digits with a leading `-` exactly for a negative number |
| Decimal.IntToStringRoundTrip | src/utils/pagination.ts:24-25 | the decimal text of any integer, as interpolated into a link, parses back to that integer |
| Decimal.NatToStringRoundTrip | src/utils/pagination.ts:24-25 | the digits of a natural number have that number as their value |
| Request.RequiredString | src/routers/category.ts:10-14 | `z.string().max(n)` accepts exactly a string within the bound, returns it, and otherwise reports the property |
| Request.OptionalString | src/routers/snippet.ts:18-23 | `.optional()` accepts an absent property as none, and a present one only if it fits |
| Request.RequiredStrings | src/routers/snippet.ts:14 | `z.array(z.string())` accepts exactly a list of strings |
| Request.OptionalStrings | src/routers/snippet.ts:22 | an optional list of strings: absent is none, a list is kept, anything else fails |
| Request.RequiredNumber | src/routers/snippet.ts:15 | `z.number()` accepts exactly a number |
| Tables.Window | src/routers/category.ts:31-32 | skip/take keeps at most `take` rows, the ones just after the first `skip`, in order |
| Tables.OwnedCategories | src/routers/category.ts:30 | `where: { user_id }` keeps exactly the rows that user owns |
| Tables.CountCategories | src/routers/category.ts:51 | the count is no more than the table's length, and is 0 exactly when the user owns no row |
| Tables.FindManyCategories | src/routers/category.ts:28-39 | a negative skip or take, or a bad field or direction, is refused; otherwise the page is the skip/take window of the user's rows, in storage order without `orderBy` and in the sorted order with it |
| Tables.SortCategories | src/routers/category.ts:35-37 | the ordered listing is a sorted permutation of the user's rows |
| Tables.SortedPage | src/routers/category.ts:35-39 | a sorted page is sorted, holds only the user's rows, and is no longer than their count |
| Tables.ParseCategoryOrder | src/routers/category.ts:36 | the ordering is accepted iff the field is id, name or user_id and the direction is asc or desc; "id", "name" and "user_id" sort by the id, the name and the owner column, and "desc" reverses |
| Tables.FindFirstCategory | src/routers/category.ts:70-75 | a found row is in the table and matches both id and owner; none is found iff no row matches both |
| Tables.RenameCategories | src/routers/category.ts:107-115 | matching rows get the new name; every other row is unchanged; the length is kept |
| Tables.RemoveCategories | src/routers/category.ts:127-132 | exactly the matching rows are gone; the length drops by their count |
| Tables.CategoryMatchesAtMostOne | src/routers/category.ts:107-111 | with unique ids an id-and-owner filter matches at most one row |
| Tables.RenameKeepsOtherOwners | src/routers/category.ts:107-115 | renaming one user's rows leaves every other user's rows as they were |
| Tables.RemoveKeepsOtherOwners | src/routers/category.ts:127-132 | removing one user's rows leaves every other user's rows as they were |
| Tables.AppendKeepsOtherOwners | src/routers/category.ts:88-93 | a new row owned by one user leaves every other user's rows as they were |
| Tables.FindFirstLanguage | src/routers/snippet.ts:181-183 | the first language with that name; with no name given, the first row of the table |
| Tables.FindFirstSnippet | src/routers/snippet.ts:72-82 | a found snippet is in the table and matches both id and owner; none is found iff no snippet matches both |
| Tables.EditSnippet | src/routers/snippet.ts:125-130 | an edit keeps id, owner and category; a title, code or language id left undefined keeps its column, and a supplied one replaces it |
| Tables.UpdateSnippetRows | src/routers/snippet.ts:119-132 | matching rows get the supplied columns; every other row is unchanged |
| Tables.UpdateSnippetRowsKeepsOtherOwners | src/routers/snippet.ts:120-124 | an update of one user's snippets leaves every other user's snippets as they were |
| Tables.UpdateSnippetRowsKeepsMatch | src/routers/snippet.ts:120-124 | a row that matched before the update still matches after it |
| Tables.RemoveSnippetsKeepsOtherOwners | src/routers/snippet.ts:199-204 | removing one user's snippet leaves every other user's snippets as they were |
| Tables.SnippetMatchesAtMostOne | src/routers/snippet.ts:120-124 | with unique ids an id-and-owner filter matches at most one snippet |
| Tables.RemoveSnippets | src/routers/snippet.ts:199-204 | (the intended delete) exactly the matching snippets are gone; the length drops by their count |
| Tables.DeleteSnippetTagLinks | src/routers/snippet.ts:94-101 | exactly the links of that snippet whose tag the user owns are removed |
| Tables.TagRefsResolve | src/routers/snippet.ts:39-43 | a snippet carries at most one tag per link, each naming an existing tag by its id and name, and none when it has no link |
| Tables.JoinRowsOf | src/routers/snippet.ts:39-43 | at most one join row per link; each names an existing tag by its id and name; a snippet without links has none |
| Tables.IncludeTags | src/routers/snippet.ts:39-43 | one snippet object per row, in order, each carrying that row's join rows |
| Tables.FindManySnippets | src/routers/snippet.ts:36-46 | only the user's snippets, at most `take`, each read with its join rows |
| Database.Db.constructor | src/routers/category.ts:8 | an empty database satisfies the invariant |
| Database.Db.CreateCategory | src/routers/category.ts:88-93 | appends one row under the next id; no other table changes |
| Database.Db.UpdateManyCategories | src/routers/category.ts:107-115 | renames the matching rows and reports their count, at most one |
| Database.Db.DeleteCategory | src/routers/category.ts:127-132 | fails, changing nothing, iff no row matches; otherwise removes it and returns it |
| Database.Db.DeleteManyCategories | src/routers/snippet.ts:199-204 | removes the matching rows and reports their count; zero is not an error |
| Database.Db.CreateSnippet | src/routers/snippet.ts:147-164 | fails, writing nothing, iff the category does not exist; otherwise appends the snippet under the next id with its language connected or created |
| Database.FindCategoryById | src/routers/snippet.ts:160-162 | `category: { connect: { id } }` finds a row with that id, whoever owns it, or none exactly when no row has it |
| Database.ConnectOrCreateLanguage | src/routers/snippet.ts:154-159 | the returned id names a row with that name; an existing name adds no row; a new name adds exactly one under the next id |
| Database.Db.UpdateManySnippets | src/routers/snippet.ts:119-132 | edits the matching rows and reports their count, at most one; the set of snippet ids is kept |
| Database.Db.DeleteManySnippets | src/routers/snippet.ts:199-204 | (the intended delete) removes the matching snippet and its links and reports the count |
| Database.Db.DeleteManySnippetTags | src/routers/snippet.ts:94-101 | removes the snippet's links to the user's tags and nothing else |
| Database.Db.CreateSnippetTag | src/routers/snippet.ts:103-117 | fails, changing nothing, iff the snippet does not exist, whoever owns it; otherwise adds one new tag and one link to it |
| Database.UpdateSnippetRowsKeepsValid | src/routers/snippet.ts:119-132 | editing snippet rows keeps every id and every invariant of the tables |
| Database.NewSnippetKeepsValid | src/routers/snippet.ts:147-164 | a new snippet with its language connected or created keeps every invariant |
| Database.NewTagKeepsValid | src/routers/snippet.ts:103-117 | a new tag linked to an existing snippet keeps every invariant |
| CategoryRouter.ParseCategoryBody | src/routers/category.ts:10-20 | a body is accepted iff its name is a string of at most 50 characters, and then it is exactly that name; otherwise the error names `name` |
| CategoryRouter.FindCategories | src/routers/category.ts:28-40 | the ordering is applied only when `orderBy` is non-empty; the page is at most `take` of the user's own rows: the skip/take window of those rows in storage order, or, with an ordering, of those rows sorted by it |
| CategoryRouter.FindCategoriesSeesOnlyOwner | src/routers/category.ts:28-40 | two tables where a user owns the same rows give that user the same page |
| CategoryRouter.CategoryGet | src/routers/category.ts:42-63 | the answer holds the page, the parsed pagination and its links; `total` counts all the user's rows, so the page is no longer than `total` |
| CategoryRouter.CategoryGetUnique | src/routers/category.ts:65-82 | the row matching both id and owner, or none (not an error) when no row matches both |
| CategoryRouter.CategoryPost | src/routers/category.ts:84-99 | a bad body fails with nothing changed; otherwise exactly one row with that name and owner is added under a fresh id, which is returned; other users' rows are unchanged |
| CategoryRouter.CategoryUpdate | src/routers/category.ts:101-122 | a bad body fails before anything changes; otherwise the matching rows are renamed and counted; count 0 leaves the table as it was; other users' rows are unchanged |
| CategoryRouter.RenameWithoutMatchKeepsRows | src/routers/category.ts:107-121 | a rename that matches nothing leaves the table unchanged |
| CategoryRouter.CategoryDelete | src/routers/category.ts:124-138 | fails iff no row matches both id and owner, and then nothing changes; otherwise removes that row and answers its id; either way no such row is left; other users' rows are unchanged |
| SnippetRouter.ParseSnippetPost | src/routers/snippet.ts:10-16 | accepted iff code is a string, title is at most 50 characters, language is at most 32, tags is a list of strings and category_id a number; an accepted body is read back exactly |
| SnippetRouter.PostBodyRoundTrip | src/routers/snippet.ts:10-16 | every create within the bounds is accepted unchanged |
| SnippetRouter.ParseSnippetUpdate | src/routers/snippet.ts:18-23 | every property may be absent; a present one must pass the create check; an accepted body is read back exactly |
| SnippetRouter.UpdateBodyRoundTrip | src/routers/snippet.ts:18-23 | every update within the bounds is accepted unchanged |
| SnippetRouter.Shorten | src/routers/snippet.ts:31-32 | `tags` holds each join row's `{ id, name }` in order, with the same length; the join rows are cleared; the row is untouched |
| SnippetRouter.ShortenSnippetsTagDepth | src/routers/snippet.ts:29-34 | every element of the array is flattened in place |
| SnippetRouter.ShortenWithJoins | src/routers/snippet.ts:29-46 | a snippet read with its join rows and then flattened carries exactly the tags its links point at, in link order |
| SnippetRouter.TagsOfAppend | src/routers/snippet.ts:31 | the tags read through two runs of links are those of the first run followed by those of the second |
| SnippetRouter.SnippetGet | src/routers/snippet.ts:36-66 | the answer is the skip/take window of the user's snippets, each flattened to its tags, with the parsed pagination and its links; `total` is the number on the page, not the user's count |
| SnippetRouter.SnippetGetUnique | src/routers/snippet.ts:68-92 | the user's snippet with that id, flattened, or none iff the user owns no snippet with that id |
| SnippetRouter.TagsAfter | src/routers/snippet.ts:134-142 | with no `tags` the tag table is unchanged; otherwise the old rows are followed by one new row per name, owned by the user, with consecutive ids |
| SnippetRouter.LinksAfter | src/routers/snippet.ts:134-142 | with no `tags` the link table is unchanged; otherwise other snippets' links are exactly kept, and the table ends with one link per name from the snippet to its new tag |
| SnippetRouter.CreateSnippetTags | src/routers/snippet.ts:139-141 | the loop adds one new tag and one link per name, in order; it fails, changing nothing, iff there are names and the snippet does not exist |
| SnippetRouter.UpdateTagsFromSnippet | src/routers/snippet.ts:134-142 | with no `tags` nothing changes; otherwise the snippet's links to the user's tags are deleted, then one new tag and link per name follow |
| SnippetRouter.ReplacedTagsOfSnippet | src/routers/snippet.ts:134-142 | when every link of the snippet goes to the acting user's own tags, a replacement leaves it exactly one new tag per supplied name, in order, duplicates included, and none of its old tags |
| SnippetRouter.ReplacedTagsKeepForeignTags | src/routers/snippet.ts:134-142 | in general, after a replacement the snippet carries its links to other users' tags, in order, followed by one new tag per supplied name |
| SnippetRouter.DeleteLeavesForeignTags | src/routers/snippet.ts:94-101 | deleting the snippet's links to the user's tags leaves exactly its tags owned by other users, in link order |
| SnippetRouter.ReplacementKeepsOtherSnippets | src/routers/snippet.ts:94-101 | a replacement leaves the tags every other snippet carries as they were |
| SnippetRouter.ReplacementKeepsOtherUsersViews | src/routers/snippet.ts:134-142 | replacing the tags of the user's own snippet changes nothing another user reads |
| SnippetRouter.TripleTagReplacement | src/__tests__/app.test.ts:260-288 | a snippet tagged "template" and "vuejs", given `["pouet", "pouet", "pouet"]`, reads three distinct "pouet" tags and no "vuejs" |
| SnippetRouter.CreatedSnippetTags | src/routers/snippet.ts:165-167 | a new snippet carries one new tag per supplied name, in order |
| SnippetRouter.SnippetPost | src/routers/snippet.ts:144-174 | a bad body fails with nothing changed; a missing category fails with nothing changed; otherwise one snippet is added under the next id, the language is reused or created once, and the snippet carries one new tag per name, in order |
| SnippetRouter.LanguageIdAsWritten | src/routers/snippet.ts:181-185 | the language id update writes: that of the first row with the name, or, when the body names no language, that of the first row of the table |
| SnippetRouter.LanguageIdIntended | src/routers/snippet.ts:181-185 | the corrected lookup: a language id only when the body names an existing language |
| SnippetRouter.EditLanguageColumn | src/routers/snippet.ts:181-185 | with the corrected lookup, a body without a language or naming one with no row keeps the language id, and a name with a row sets that row's id; as written, only the name with no row keeps it |
| SnippetRouter.SnippetUpdate | src/routers/snippet.ts:176-193 | as written: a bad body fails with nothing changed; otherwise the matching rows get the supplied columns and the first-found language id, and are counted; the tags are then replaced whether or not a row matched, failing only when tags are given and no snippet at all has that id |
| SnippetRouter.SnippetUpdateIntended | src/routers/snippet.ts:176-193 | corrected: the matching row is edited and counted, at most one; the tags are replaced only when a row matched; no other user's snippets or tags, as that user reads them, change |
| SnippetRouter.SnippetDelete | src/routers/snippet.ts:195-211 | as written: removes the user's categories with that id and reports their count; the snippets and links are unchanged |
| SnippetRouter.SnippetDeleteIntended | src/routers/snippet.ts:195-211 | corrected: removes the user's snippet with that id (its links go with it, through `Database.Db.DeleteManySnippets`) and reports the count, at most one, zero not being an error; no snippet with that id and owner is left; categories and other users' snippets are unchanged |
| SnippetRouter.SnippetDeleteAsWritten | src/routers/snippet.ts:199-204 | deleting snippet 7, filed under category 8, while also owning category 7 removes category 7, reports 1 and keeps the snippet |
| SnippetRouter.ForeignSnippetTagsAsWritten | src/routers/snippet.ts:185-186 | an update aimed at another user's snippet matches no row, yet attaches the acting user's new tag to it |
| SnippetRouter.AbsentLanguageAsWritten | src/routers/snippet.ts:181-185 | an update of the code alone moves an "html" snippet to "vue", the first language of the table |

## Left out

- Sessions, password hashing, JWT signing and decoding, cookies, and the user and session
  routes. The acting user's id is a parameter and is always defined.
- The ORM's "undefined means no filter" for the user id, for example the `count` at
  src/routers/category.ts:51 or `userId ?? -1` at src/routers/category.ts:50,91. The language
  lookup without a name is modelled; it is a finding.
- zod's numeric coercion, and non-integral numbers. Query values, path ids and body numbers
  (`category_id`, which `z.number()` accepts at src/routers/snippet.ts:15 even when it is not
  whole) are integers in the model; NaN and non-integral numbers are not modelled.
- Only the first failing property of a body is reported, while zod lists every issue.
- Lengths count characters of a `string`, not UTF-16 code units.
- Names sort by character code; the database's collation is not modelled.
- Row order the database does not promise. A listing without `orderBy`, and the rows whose
  sort keys tie (every row of one user under `orderBy=user_id`), come in storage order in the
  model, because `Tables.SortCategories` is a stable sort; the database may return them in any
  order, so the window equations of `Tables.FindManyCategories` and `SnippetRouter.SnippetGet` fix
  an order the code does not.
- Escaping in links. `getPaginationLinks` puts the route, `orderBy` and `direction` into the
  link unescaped (src/utils/pagination.ts:21,24-25). The round-trip lemmas therefore require a
  route without `?` and a field without `&`; `Pagination.AmpersandLinksDoNotReadBack` shows
  that a field with `&` does not read back. URL percent-encoding is not modelled.
- A negative `skip` is a refused query (an ORM error), as in the code.
- Tables.FindManyCategories: refuses a negative `take`, which the ORM serves by counting rows
  from the end of the list; the model answers an error where the code would list the last rows.
  CategoryRouter.FindCategories and CategoryRouter.CategoryGet inherit this.
- Tables.FindManySnippets: refuses a negative `take` in the same way, and so does
  SnippetRouter.SnippetGet.
- Number width. JavaScript numbers are doubles: integers above 2^53 are not exact, so
  `skip + take` can round, and a magnitude of 10^21 or more prints in exponent form
  (`1e+21`). The model's integers are unbounded and always print every digit.
- Snippet listing spreads the whole pagination, `orderBy` and `direction` included, into the
  ORM query (src/routers/snippet.ts:44). How the ORM treats those two keys is not modelled:
  the model applies only the skip/take window to snippets, in storage order.
- Timestamps, and the `user: { connect }` check that the acting account exists.
- The category of a new snippet is connected by id only. The model, like the code, does not
  check that the acting user owns that category.
- What deleting a category does to snippets that reference it, and any foreign-key action.
  Links are assumed to go when their snippet goes.
- Concurrency, `async`/`await`, and the non-atomic gap between deleting and recreating tags.
  Each handler runs to completion as one sequence of steps.
- HTTP status codes and message texts. An error is a `Result.Err` naming the failed property,
  query argument or missing record.

## Findings

| source | as written | input that shows it | evidently intended | confidence | as-written member | corrected member |
|---|---|---|---|---|---|---|
| src/routers/snippet.ts:199 | the snippet delete runs `category.deleteMany` on the path id, and reports that count as deleted snippets | user 1 owns categories 7 and 8 and snippet 7, filed under category 8; `DELETE /v1/snippet/7` removes category 7, reports 1, and snippet 7 remains | remove the user's snippet with that id (and its links) | high (not executed) | SnippetRouter.SnippetDeleteAsWritten | SnippetRouter.SnippetDeleteIntended |
| src/routers/snippet.ts:185-186 | tags are replaced even when `updateMany` matched no row; the tag create connects the snippet by id alone | user 1 sends `PUT /v1/snippet/1 {tags: ["x"]}` where snippet 1 belongs to user 2: count 0, but user 2's snippet now carries user 1's tag "x" | replace tags only of a snippet the user owns | medium (not executed) | SnippetRouter.ForeignSnippetTagsAsWritten | SnippetRouter.SnippetUpdateIntended |
| src/routers/snippet.ts:181-183 | with no `language` in the body, `findFirst({ where: { name: undefined } })` returns the first language row, whose id is written | languages vue (1), html (2); an html snippet updated with `{code: "<br>"}` becomes vue | leave the language as it is when none is given | medium (not executed) | SnippetRouter.AbsentLanguageAsWritten | SnippetRouter.EditLanguageColumn |
