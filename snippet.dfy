/** The snippet routes: the body schemas, the in-place flattening of the included join rows
    into a `tags` list, create with connect-or-create of the language and one fresh tag per
    name, the field update followed by the delete-then-recreate replacement of the tags, the
    list and get-one reads, and delete. */
module SnippetRouter {
  import opened Results
  import opened Tables
  import opened Request
  import opened Database
  import P = Pagination

  const MaxTitleLength: nat := 50
  const MaxLanguageLength: nat := 32

  // ---------------------------------------------------------------------------------------
  // Body schemas.

  /** The JSON body of a create. */
  datatype SnippetPostBody = SnippetPostBody(code: Field, title: Field, language: Field, tags: Field, categoryId: Field)

  /** A create body that passed `snippetPostParser`. */
  datatype NewSnippet = NewSnippet(code: string, title: string, language: string, tags: seq<string>, categoryId: int)

  function PostBodyOf(n: NewSnippet): SnippetPostBody {
    SnippetPostBody(Str(n.code), Str(n.title), Str(n.language), StrList(n.tags), Num(n.categoryId))
  }

  /** `snippetPostParser`: every property is required; the title holds at most 50 characters
      and the language name at most 32. */
  function ParseSnippetPost(b: SnippetPostBody): (r: Result<NewSnippet>)
    ensures r.Ok? <==> && b.code.Str?
                       && StringFits(b.title, Some(MaxTitleLength))
                       && StringFits(b.language, Some(MaxLanguageLength))
                       && b.tags.StrList? && b.categoryId.Num?
    ensures r.Ok? ==> PostBodyOf(r.value) == b
    ensures r.Err? ==> r.error.InvalidBody?
  {
    var code :- RequiredString(b.code, "code", None);
    var title :- RequiredString(b.title, "title", Some(MaxTitleLength));
    var language :- RequiredString(b.language, "language", Some(MaxLanguageLength));
    var tags :- RequiredStrings(b.tags, "tags");
    var categoryId :- RequiredNumber(b.categoryId, "category_id");
    Ok(NewSnippet(code, title, language, tags, categoryId))
  }

  /** Every create within the bounds is accepted and read back as it was sent. */
  lemma PostBodyRoundTrip(n: NewSnippet)
    requires |n.title| <= MaxTitleLength && |n.language| <= MaxLanguageLength
    ensures ParseSnippetPost(PostBodyOf(n)) == Ok(n)
  {
  }

  /** The JSON body of an update. */
  datatype SnippetUpdateBody = SnippetUpdateBody(code: Field, title: Field, language: Field, tags: Field)

  /** An update body that passed `snippetUpdateParser`: `None` is a property left out. */
  datatype SnippetEdit = SnippetEdit(code: Option<string>, title: Option<string>, language: Option<string>, tags: Option<seq<string>>)

  function UpdateBodyOf(e: SnippetEdit): SnippetUpdateBody {
    SnippetUpdateBody(StrOrMissing(e.code), StrOrMissing(e.title), StrOrMissing(e.language), StrsOrMissing(e.tags))
  }

  /** `snippetUpdateParser`: every property is optional, but one that is present must pass
      the same check as in a create. */
  function ParseSnippetUpdate(b: SnippetUpdateBody): (r: Result<SnippetEdit>)
    ensures r.Ok? <==> && (b.code.Missing? || b.code.Str?)
                       && (b.title.Missing? || StringFits(b.title, Some(MaxTitleLength)))
                       && (b.language.Missing? || StringFits(b.language, Some(MaxLanguageLength)))
                       && (b.tags.Missing? || b.tags.StrList?)
    ensures r.Ok? ==> UpdateBodyOf(r.value) == b
    ensures r.Err? ==> r.error.InvalidBody?
  {
    var code :- OptionalString(b.code, "code", None);
    var title :- OptionalString(b.title, "title", Some(MaxTitleLength));
    var language :- OptionalString(b.language, "language", Some(MaxLanguageLength));
    var tags :- OptionalStrings(b.tags, "tags");
    Ok(SnippetEdit(code, title, language, tags))
  }

  /** Every update within the bounds is accepted and read back as it was sent. */
  lemma UpdateBodyRoundTrip(e: SnippetEdit)
    requires e.title.Some? ==> |e.title.value| <= MaxTitleLength
    requires e.language.Some? ==> |e.language.value| <= MaxLanguageLength
    ensures ParseSnippetUpdate(UpdateBodyOf(e)) == Ok(e)
  {
  }

  // ---------------------------------------------------------------------------------------
  // Flattening the included join rows.

  /** One snippet object after `shortenSnippetsTagDepth`: `tags` holds the `{ id, name }` of
      every join row, in the same order, the join rows are cleared, the row is untouched. */
  function Shorten(v: SnippetView): (w: SnippetView)
    requires v.snippetTag.Some?
    ensures w.snippet == v.snippet && w.snippetTag.None? && w.tags.Some?
    ensures |w.tags.value| == |v.snippetTag.value|
    ensures forall i :: 0 <= i < |w.tags.value| ==> w.tags.value[i] == v.snippetTag.value[i].tag
  {
    var joins := v.snippetTag.value;
    SnippetView(v.snippet, None, Some(seq(|joins|, i requires 0 <= i < |joins| => joins[i].tag)))
  }

  /** `shortenSnippetsTagDepth`: flattens every snippet object of the array in place. */
  method ShortenSnippetsTagDepth(a: array<SnippetView>)
    requires forall i :: 0 <= i < a.Length ==> a[i].snippetTag.Some?
    modifies a
    ensures forall i :: 0 <= i < a.Length ==> old(a[i]).snippetTag.Some? && a[i] == Shorten(old(a[i]))
  {
    for k := 0 to a.Length
      invariant forall i :: 0 <= i < k ==> old(a[i]).snippetTag.Some? && a[i] == Shorten(old(a[i]))
      invariant forall i :: k <= i < a.Length ==> a[i] == old(a[i])
    {
      a[k] := Shorten(a[k]);
    }
  }

  lemma {:induction false} TagsOfAppend(a: seq<SnippetTag>, b: seq<SnippetTag>, tags: seq<Tag>, snippetId: int)
    ensures TagsOf(a + b, tags, snippetId) == TagsOf(a, tags, snippetId) + TagsOf(b, tags, snippetId)
  {
    if a != [] {
      assert (a + b)[1..] == a[1..] + b;
      TagsOfAppend(a[1..], b, tags, snippetId);
    } else {
      assert a + b == b;
    }
  }

  /** Flattening a snippet read with its join rows yields exactly its tags. */
  lemma ShortenWithJoins(s: Snippet, links: seq<SnippetTag>, tags: seq<Tag>)
    ensures Shorten(WithJoins(s, links, tags)) == SnippetView(s, None, Some(TagsOf(links, tags, s.id)))
  {
    assert Shorten(WithJoins(s, links, tags)).tags.value == TagsOf(links, tags, s.id);
  }

  // ---------------------------------------------------------------------------------------
  // Reads.

  /** The JSON answer of the list route. */
  datatype SnippetListing = SnippetListing(snippets: seq<SnippetView>, pagination: P.Pagination, links: P.Links, total: nat)

  /** Flattening, element by element, a page read with its join rows gives each snippet
      exactly its tags. */
  lemma FlattenedPage(found: seq<SnippetView>, flat: seq<SnippetView>, links: seq<SnippetTag>, tags: seq<Tag>)
    requires |flat| == |found|
    requires forall v :: v in found ==> v == WithJoins(v.snippet, links, tags)
    requires forall i :: 0 <= i < |found| ==> found[i].snippetTag.Some? && flat[i] == Shorten(found[i])
    ensures forall i :: 0 <= i < |found| ==>
              flat[i] == SnippetView(found[i].snippet, None, Some(TagsOf(links, tags, found[i].snippet.id)))
  {
    forall i | 0 <= i < |found|
      ensures flat[i] == SnippetView(found[i].snippet, None, Some(TagsOf(links, tags, found[i].snippet.id)))
    {
      assert found[i] in found;
      ShortenWithJoins(found[i].snippet, links, tags);
    }
  }

  /** `snippetGet`: a window of the user's snippets, each flattened, with `total` the number
      of snippets on the page (not the user's overall count). */
  method SnippetGet(db: Db, userId: int, query: P.PaginationQuery) returns (r: Result<SnippetListing>)
    ensures var p := P.ParsePaginationQuery(query);
            && (r.Ok? <==> p.skip >= 0 && p.take >= 0)
            && (r.Err? ==> r.error.InvalidQuery?)
            && (r.Ok? ==> && r.value.pagination == p
                          && r.value.links == P.GetPaginationLinks(p, "snippet")
                          && |r.value.snippets| <= p.take)
    ensures r.Ok? ==> r.value.total == |r.value.snippets|
    ensures r.Ok? ==> var p := P.ParsePaginationQuery(query);
                      var page := Window(OwnedSnippets(db.snippets, userId), p.skip, p.take);
                      && |r.value.snippets| == |page|
                      && forall i :: 0 <= i < |page| ==>
                           r.value.snippets[i] == SnippetView(page[i], None, Some(TagsOf(db.snippetTags, db.tags, page[i].id)))
    ensures r.Ok? ==> forall v :: v in r.value.snippets ==> v.snippet in db.snippets && v.snippet.userId == userId
  {
    var p := P.ParsePaginationQuery(query);
    var found :- FindManySnippets(db.snippets, db.snippetTags, db.tags, userId, p.skip, p.take);
    var a := new SnippetView[|found|](i requires 0 <= i < |found| => found[i]);
    forall i | 0 <= i < a.Length ensures a[i].snippetTag.Some? {
      assert found[i] in found;
    }
    assert a[..] == found;
    ShortenSnippetsTagDepth(a);
    FlattenedPage(found, a[..], db.snippetTags, db.tags);
    r := Ok(SnippetListing(a[..], p, P.GetPaginationLinks(p, "snippet"), a.Length));
  }

  /** `snippetGetUnique`: the user's snippet with that id, flattened, or null. */
  method SnippetGetUnique(db: Db, userId: int, id: int) returns (r: Option<SnippetView>)
    ensures r.None? <==> forall s :: s in db.snippets ==> !SnippetMatches(s, id, userId)
    ensures r.Some? ==> && r.value.snippet in db.snippets && SnippetMatches(r.value.snippet, id, userId)
                        && r.value == SnippetView(r.value.snippet, None, Some(TagsOf(db.snippetTags, db.tags, id)))
  {
    match FindFirstSnippet(db.snippets, id, userId) {
      case None =>
        r := None;
      case Some(s) =>
        var links, tags := db.snippetTags, db.tags;
        var a := new SnippetView[1](_ => WithJoins(s, links, tags));
        ShortenSnippetsTagDepth(a);
        ShortenWithJoins(s, db.snippetTags, db.tags);
        r := Some(a[0]);
    }
  }

  // ---------------------------------------------------------------------------------------
  // Replacing a snippet's tags.

  /** The tag table after `updateTagsFromSnippet` with `names`: one new row per name. */
  function TagsAfter(tags: seq<Tag>, firstId: int, userId: int, names: Option<seq<string>>): (r: seq<Tag>)
    ensures names.None? ==> r == tags
    ensures names.Some? ==> |r| == |tags| + |names.value| && r[..|tags|] == tags
    ensures names.Some? ==> forall i :: 0 <= i < |names.value| ==> r[|tags| + i] == Tag(firstId + i, names.value[i], userId)
  {
    if names.None? then tags else tags + NewTags(firstId, names.value, userId)
  }

  /** The link table after `updateTagsFromSnippet` with `names`: the snippet's links to the
      user's tags are gone, then one link per name follows, each to its own new tag. */
  function LinksAfter(links: seq<SnippetTag>, tags: seq<Tag>, firstId: int, userId: int, snippetId: int,
                      names: Option<seq<string>>): (r: seq<SnippetTag>)
    ensures names.None? ==> r == links
    ensures names.Some? ==> forall l: SnippetTag :: l.snippetId != snippetId ==> (l in r <==> l in links)
    ensures names.Some? ==> |names.value| <= |r| && r[|r| - |names.value|..] == NewLinks(snippetId, firstId, |names.value|)
  {
    if names.None? then links
    else
      var kept := DeleteSnippetTagLinks(links, tags, userId, snippetId);
      var added := NewLinks(snippetId, firstId, |names.value|);
      assert forall l :: l in added ==> l.snippetId == snippetId;
      assert (kept + added)[|kept + added| - |added|..] == added;
      kept + added
  }

  /** With no link left to the snippet, deleting its links changes nothing. */
  lemma {:induction false} DeleteLinksOfUnlinkedSnippet(links: seq<SnippetTag>, tags: seq<Tag>, userId: int, snippetId: int)
    requires forall l :: l in links ==> l.snippetId != snippetId
    ensures DeleteSnippetTagLinks(links, tags, userId, snippetId) == links
  {
    if links != [] {
      DeleteLinksOfUnlinkedSnippet(links[1..], tags, userId, snippetId);
      assert links == [links[0]] + links[1..];
    }
  }

  lemma NewTagsSnoc(before: seq<Tag>, firstId: int, names: seq<string>, i: nat, userId: int)
    requires i < |names|
    ensures before + NewTags(firstId, names[..i + 1], userId)
         == before + NewTags(firstId, names[..i], userId) + [Tag(firstId + i, names[i], userId)]
  {
    assert names[..i + 1][i] == names[i];
    assert NewTags(firstId, names[..i + 1], userId)
        == NewTags(firstId, names[..i], userId) + [Tag(firstId + i, names[i], userId)];
  }

  lemma NewLinksSnoc(before: seq<SnippetTag>, snippetId: int, firstId: int, i: nat)
    ensures before + NewLinks(snippetId, firstId, i + 1)
         == before + NewLinks(snippetId, firstId, i) + [SnippetTag(snippetId, firstId + i)]
  {
    assert NewLinks(snippetId, firstId, i + 1) == NewLinks(snippetId, firstId, i) + [SnippetTag(snippetId, firstId + i)];
  }

  /** The `createSnippetTag` loop: one new tag and one link per name, in order. The first
      call fails exactly when the snippet does not exist, and then nothing has changed;
      once one call has succeeded the snippet is known to exist and none can fail. */
  method CreateSnippetTags(db: Db, snippetId: int, userId: int, names: seq<string>) returns (r: Result<()>)
    requires db.Valid()
    modifies db`tags, db`snippetTags, db`nextTagId
    ensures db.Valid()
    ensures r.Err? <==> names != [] && snippetId !in SnippetIds(old(db.snippets))
    ensures r.Err? ==> && r.error == RecordNotFound("Snippet")
                       && db.tags == old(db.tags) && db.snippetTags == old(db.snippetTags)
                       && db.nextTagId == old(db.nextTagId)
    ensures r.Ok? ==> && db.tags == old(db.tags) + NewTags(old(db.nextTagId), names, userId)
                      && db.snippetTags == old(db.snippetTags) + NewLinks(snippetId, old(db.nextTagId), |names|)
                      && db.nextTagId == old(db.nextTagId) + |names|
  {
    ghost var tags0, links0, first := db.tags, db.snippetTags, db.nextTagId;
    for i := 0 to |names|
      invariant db.Valid()
      invariant db.tags == tags0 + NewTags(first, names[..i], userId)
      invariant db.snippetTags == links0 + NewLinks(snippetId, first, i)
      invariant db.nextTagId == first + i
      invariant i > 0 ==> snippetId in SnippetIds(db.snippets)
    {
      ghost var tagsBefore, linksBefore := db.tags, db.snippetTags;
      var created := db.CreateSnippetTag(snippetId, userId, names[i]);
      if created.Err? {
        assert i == 0;
        assert NewTags(first, names[..i], userId) == [];
        assert NewLinks(snippetId, first, i) == [];
        return Err(created.error);
      }
      assert db.tags == tags0 + NewTags(first, names[..i + 1], userId) by {
        assert db.tags == tagsBefore + [Tag(first + i, names[i], userId)];
        NewTagsSnoc(tags0, first, names, i, userId);
      }
      assert db.snippetTags == links0 + NewLinks(snippetId, first, i + 1) by {
        assert db.snippetTags == linksBefore + [SnippetTag(snippetId, first + i)];
        NewLinksSnoc(links0, snippetId, first, i);
      }
    }
    assert names[..|names|] == names;
    r := Ok(());
  }

  /** `updateTagsFromSnippet`: nothing when `tags` is absent; otherwise the snippet's links to
      the user's tags are deleted, then a tag is created and linked per name, in order. The
      first create fails exactly when the snippet does not exist, and then the delete has
      found nothing to remove, so nothing at all has changed. */
  method UpdateTagsFromSnippet(db: Db, snippetId: int, userId: int, names: Option<seq<string>>) returns (r: Result<()>)
    requires db.Valid()
    modifies db`tags, db`snippetTags, db`nextTagId
    ensures db.Valid()
    ensures r.Err? <==> names.Some? && names.value != [] && snippetId !in SnippetIds(old(db.snippets))
    ensures r.Err? ==> && r.error == RecordNotFound("Snippet")
                       && db.tags == old(db.tags) && db.snippetTags == old(db.snippetTags)
                       && db.nextTagId == old(db.nextTagId)
    ensures r.Ok? ==> && db.tags == TagsAfter(old(db.tags), old(db.nextTagId), userId, names)
                      && db.snippetTags == LinksAfter(old(db.snippetTags), old(db.tags), old(db.nextTagId), userId, snippetId, names)
                      && db.nextTagId == old(db.nextTagId) + (if names.Some? then |names.value| else 0)
  {
    if names.None? {
      return Ok(());
    }
    db.DeleteManySnippetTags(userId, snippetId);
    r := CreateSnippetTags(db, snippetId, userId, names.value);
    if r.Err? {
      DeleteLinksOfUnlinkedSnippet(old(db.snippetTags), old(db.tags), userId, snippetId);
    }
  }

  // ---------------------------------------------------------------------------------------
  // What a replacement leaves behind.

  /** The flattened tags of `names` created from `firstId` on, in order. */
  function FreshTagRefs(firstId: int, names: seq<string>): (r: seq<TagRef>)
    ensures |r| == |names|
    ensures forall i :: 0 <= i < |names| ==> r[i] == TagRef(firstId + i, names[i])
  {
    seq(|names|, i requires 0 <= i < |names| => TagRef(firstId + i, names[i]))
  }

  lemma {:induction false} TagsOfUnlinked(links: seq<SnippetTag>, tags: seq<Tag>, snippetId: int)
    requires forall l :: l in links ==> l.snippetId != snippetId
    ensures TagsOf(links, tags, snippetId) == []
  {
    if links != [] {
      TagsOfUnlinked(links[1..], tags, snippetId);
    }
  }

  lemma {:induction false} FindTagInNewTags(firstId: int, names: seq<string>, userId: int, k: nat)
    requires k < |names|
    decreases k
    ensures FindTag(NewTags(firstId, names, userId), firstId + k) == Some(Tag(firstId + k, names[k], userId))
  {
    var added := NewTags(firstId, names, userId);
    if k > 0 {
      assert added[1..] == NewTags(firstId + 1, names[1..], userId);
      FindTagInNewTags(firstId + 1, names[1..], userId, k - 1);
    }
  }

  /** A tag created after every existing one is found under its own id. */
  lemma FindNewTag(tags: seq<Tag>, firstId: int, names: seq<string>, userId: int, k: nat)
    requires TagIdsBelow(tags, firstId)
    requires k < |names|
    ensures FindTag(tags + NewTags(firstId, names, userId), firstId + k) == Some(Tag(firstId + k, names[k], userId))
  {
    FindTagPastPrefix(tags, NewTags(firstId, names, userId), firstId + k);
    FindTagInNewTags(firstId, names, userId, k);
  }

  lemma {:induction false} TagsOfNewLinks(snippetId: int, firstId: int, allTags: seq<Tag>, names: seq<string>,
                                          userId: int, n: nat)
    requires n <= |names|
    requires forall k :: 0 <= k < |names| ==> FindTag(allTags, firstId + k) == Some(Tag(firstId + k, names[k], userId))
    ensures TagsOf(NewLinks(snippetId, firstId, n), allTags, snippetId) == FreshTagRefs(firstId, names[..n])
  {
    if n == 0 {
      assert NewLinks(snippetId, firstId, 0) == [];
    } else {
      var last := SnippetTag(snippetId, firstId + n - 1);
      assert NewLinks(snippetId, firstId, n) == NewLinks(snippetId, firstId, n - 1) + [last];
      TagsOfAppend(NewLinks(snippetId, firstId, n - 1), [last], allTags, snippetId);
      TagsOfNewLinks(snippetId, firstId, allTags, names, userId, n - 1);
      assert FindTag(allTags, firstId + (n - 1)) == Some(Tag(firstId + n - 1, names[n - 1], userId));
      TagsOfOneLink(last, allTags, Tag(firstId + n - 1, names[n - 1], userId));
      FreshTagRefsSnoc(firstId, names, n);
    }
  }

  lemma TagsOfOneLink(link: SnippetTag, tags: seq<Tag>, t: Tag)
    requires FindTag(tags, link.tagId) == Some(t)
    ensures TagsOf([link], tags, link.snippetId) == [TagRef(t.id, t.name)]
  {
    assert [link][1..] == [];
  }

  lemma FreshTagRefsSnoc(firstId: int, names: seq<string>, n: nat)
    requires 0 < n <= |names|
    ensures FreshTagRefs(firstId, names[..n]) == FreshTagRefs(firstId, names[..n - 1]) + [TagRef(firstId + n - 1, names[n - 1])]
  {
    assert names[..n][..n - 1] == names[..n - 1];
  }

  /** Replacing the tags of a snippet whose links all go to the acting user's own tags
      leaves it with exactly one fresh tag per name, in the order given, duplicates included,
      and none of its old tags. A link to another user's tag survives the replacement (see
      `ReplacedTagsKeepForeignTags`); the as-written update can create one
      (`ForeignSnippetTagsAsWritten`). */
  lemma ReplacedTagsOfSnippet(links: seq<SnippetTag>, tags: seq<Tag>, firstId: int, userId: int,
                              snippetId: int, names: seq<string>)
    requires TagIdsBelow(tags, firstId)
    requires forall l :: l in links && l.snippetId == snippetId ==> TagOwnedBy(tags, l.tagId, userId)
    ensures TagsOf(LinksAfter(links, tags, firstId, userId, snippetId, Some(names)),
                   TagsAfter(tags, firstId, userId, Some(names)), snippetId)
         == FreshTagRefs(firstId, names)
  {
    var kept := DeleteSnippetTagLinks(links, tags, userId, snippetId);
    var allTags := tags + NewTags(firstId, names, userId);
    TagsOfAppend(kept, NewLinks(snippetId, firstId, |names|), allTags, snippetId);
    TagsOfUnlinked(kept, allTags, snippetId);
    forall k | 0 <= k < |names| ensures FindTag(allTags, firstId + k) == Some(Tag(firstId + k, names[k], userId)) {
      FindNewTag(tags, firstId, names, userId, k);
    }
    TagsOfNewLinks(snippetId, firstId, allTags, names, userId, |names|);
    assert names[..|names|] == names;
  }

  /** The tags of the snippet's links whose tag belongs to some other user, in link order:
      the links `deleteSnippetTags` leaves in place. */
  function ForeignTagsOf(links: seq<SnippetTag>, tags: seq<Tag>, userId: int, snippetId: int): (r: seq<TagRef>)
    ensures |r| <= |links|
  {
    if links == [] then []
    else
      var t := FindTag(tags, links[0].tagId);
      var head := if links[0].snippetId == snippetId && t.Some? && t.value.userId != userId
                  then [TagRef(t.value.id, t.value.name)] else [];
      head + ForeignTagsOf(links[1..], tags, userId, snippetId)
  }

  /** Deleting the snippet's links to the user's tags leaves exactly its foreign tags, even
      once new tags are added to the table. */
  lemma {:induction false} DeleteLeavesForeignTags(links: seq<SnippetTag>, tags: seq<Tag>, extra: seq<Tag>,
                                                   userId: int, snippetId: int)
    requires forall l :: l in links ==> FindTag(tags, l.tagId).Some?
    ensures TagsOf(DeleteSnippetTagLinks(links, tags, userId, snippetId), tags + extra, snippetId)
         == ForeignTagsOf(links, tags, userId, snippetId)
  {
    if links != [] {
      DeleteLeavesForeignTags(links[1..], tags, extra, userId, snippetId);
      FindTagAppend(tags, extra, links[0].tagId);
      var rest := DeleteSnippetTagLinks(links[1..], tags, userId, snippetId);
      if !(links[0].snippetId == snippetId && TagOwnedBy(tags, links[0].tagId, userId)) {
        assert ([links[0]] + rest)[1..] == rest;
      }
    }
  }

  /** Replacing a snippet's tags, in general: its links to other users' tags stay, in order,
      followed by one fresh tag per name. */
  lemma ReplacedTagsKeepForeignTags(links: seq<SnippetTag>, tags: seq<Tag>, firstId: int, userId: int,
                                    snippetId: int, names: seq<string>)
    requires TagIdsBelow(tags, firstId)
    requires forall l :: l in links ==> FindTag(tags, l.tagId).Some?
    ensures TagsOf(LinksAfter(links, tags, firstId, userId, snippetId, Some(names)),
                   TagsAfter(tags, firstId, userId, Some(names)), snippetId)
         == ForeignTagsOf(links, tags, userId, snippetId) + FreshTagRefs(firstId, names)
  {
    var kept := DeleteSnippetTagLinks(links, tags, userId, snippetId);
    var added := NewTags(firstId, names, userId);
    var allTags := tags + added;
    TagsOfAppend(kept, NewLinks(snippetId, firstId, |names|), allTags, snippetId);
    DeleteLeavesForeignTags(links, tags, added, userId, snippetId);
    forall k | 0 <= k < |names| ensures FindTag(allTags, firstId + k) == Some(Tag(firstId + k, names[k], userId)) {
      FindNewTag(tags, firstId, names, userId, k);
    }
    TagsOfNewLinks(snippetId, firstId, allTags, names, userId, |names|);
    assert names[..|names|] == names;
  }

  lemma {:induction false} DeleteKeepsOtherTags(links: seq<SnippetTag>, tags: seq<Tag>, extra: seq<Tag>,
                                                userId: int, snippetId: int, other: int)
    requires other != snippetId
    requires forall l :: l in links ==> FindTag(tags, l.tagId).Some?
    ensures TagsOf(DeleteSnippetTagLinks(links, tags, userId, snippetId), tags + extra, other) == TagsOf(links, tags, other)
  {
    if links != [] {
      DeleteKeepsOtherTags(links[1..], tags, extra, userId, snippetId, other);
      FindTagAppend(tags, extra, links[0].tagId);
      var rest := DeleteSnippetTagLinks(links[1..], tags, userId, snippetId);
      if !(links[0].snippetId == snippetId && TagOwnedBy(tags, links[0].tagId, userId)) {
        assert ([links[0]] + rest)[1..] == rest;
      }
    }
  }

  /** Replacing one snippet's tags changes the tags of no other snippet. */
  lemma ReplacementKeepsOtherSnippets(links: seq<SnippetTag>, tags: seq<Tag>, firstId: int, userId: int,
                                     snippetId: int, names: Option<seq<string>>, other: int)
    requires other != snippetId
    requires forall l :: l in links ==> FindTag(tags, l.tagId).Some?
    ensures TagsOf(LinksAfter(links, tags, firstId, userId, snippetId, names),
                   TagsAfter(tags, firstId, userId, names), other)
         == TagsOf(links, tags, other)
  {
    if names.Some? {
      var kept := DeleteSnippetTagLinks(links, tags, userId, snippetId);
      var added := NewTags(firstId, names.value, userId);
      TagsOfAppend(kept, NewLinks(snippetId, firstId, |names.value|), tags + added, other);
      TagsOfUnlinked(NewLinks(snippetId, firstId, |names.value|), tags + added, other);
      DeleteKeepsOtherTags(links, tags, added, userId, snippetId, other);
    }
  }

  lemma ViewsFollowTags(rows: seq<Snippet>, l1: seq<SnippetTag>, t1: seq<Tag>, l2: seq<SnippetTag>, t2: seq<Tag>)
    requires forall s :: s in rows ==> TagsOf(l1, t1, s.id) == TagsOf(l2, t2, s.id)
    ensures IncludeTags(rows, l1, t1) == IncludeTags(rows, l2, t2)
  {
    forall i | 0 <= i < |rows| ensures WithJoins(rows[i], l1, t1) == WithJoins(rows[i], l2, t2) {
      assert rows[i] in rows;
    }
  }

  lemma SnippetIdsDistinct(rows: seq<Snippet>, a: Snippet, b: Snippet)
    requires SnippetIdsUnique(rows) && a in rows && b in rows && a.id == b.id
    ensures a == b
  {
    var i :| 0 <= i < |rows| && rows[i] == a;
    var j :| 0 <= j < |rows| && rows[j] == b;
    assert i == j;
  }

  /** Replacing the tags of a snippet the acting user owns leaves every other user's
      snippets, as those users read them, exactly as they were. */
  lemma ReplacementKeepsOtherUsersViews(snippets: seq<Snippet>, links: seq<SnippetTag>, tags: seq<Tag>,
                                       firstId: int, userId: int, snippetId: int, names: Option<seq<string>>, v: int)
    requires v != userId
    requires SnippetIdsUnique(snippets)
    requires FindFirstSnippet(snippets, snippetId, userId).Some?
    requires forall l :: l in links ==> FindTag(tags, l.tagId).Some?
    ensures UserSnippets(snippets, LinksAfter(links, tags, firstId, userId, snippetId, names),
                         TagsAfter(tags, firstId, userId, names), v)
         == UserSnippets(snippets, links, tags, v)
  {
    var m := FindFirstSnippet(snippets, snippetId, userId).value;
    var owned := OwnedSnippets(snippets, v);
    var links', tags' := LinksAfter(links, tags, firstId, userId, snippetId, names), TagsAfter(tags, firstId, userId, names);
    forall s | s in owned ensures TagsOf(links', tags', s.id) == TagsOf(links, tags, s.id) {
      if s.id == snippetId {
        SnippetIdsDistinct(snippets, s, m);
      }
      ReplacementKeepsOtherSnippets(links, tags, firstId, userId, snippetId, names, s.id);
    }
    ViewsFollowTags(owned, links', tags', links, tags);
  }

  // ---------------------------------------------------------------------------------------
  // Create.

  /** A snippet that has just been created, and whose tags were created after every existing
      tag, carries exactly one fresh tag per name, in order. */
  lemma CreatedSnippetTags(links: seq<SnippetTag>, tags: seq<Tag>, snippetId: int, firstId: int,
                           userId: int, names: seq<string>)
    requires forall l :: l in links ==> l.snippetId != snippetId
    requires TagIdsBelow(tags, firstId)
    ensures TagsOf(links + NewLinks(snippetId, firstId, |names|), tags + NewTags(firstId, names, userId), snippetId)
         == FreshTagRefs(firstId, names)
  {
    var allTags := tags + NewTags(firstId, names, userId);
    TagsOfAppend(links, NewLinks(snippetId, firstId, |names|), allTags, snippetId);
    TagsOfUnlinked(links, allTags, snippetId);
    forall k | 0 <= k < |names| ensures FindTag(allTags, firstId + k) == Some(Tag(firstId + k, names[k], userId)) {
      FindNewTag(tags, firstId, names, userId, k);
    }
    TagsOfNewLinks(snippetId, firstId, allTags, names, userId, |names|);
    assert names[..|names|] == names;
  }

  /** `snippetPost`: a body that fails its schema, or names a category that does not exist,
      changes nothing. Otherwise one snippet is added, connected to the language of that
      name (created when missing), and then one fresh tag and one link per name, in order. */
  method SnippetPost(db: Db, userId: int, body: SnippetPostBody) returns (r: Result<()>)
    requires db.Valid()
    modifies db`snippets, db`languages, db`nextSnippetId, db`nextLanguageId, db`tags, db`snippetTags, db`nextTagId
    ensures db.Valid()
    ensures db.categories == old(db.categories)
    ensures ParseSnippetPost(body).Err? ==> r.Err? && r.error.InvalidBody? && db.Snapshot() == old(db.Snapshot())
    ensures ParseSnippetPost(body).Ok? ==>
              var n := ParseSnippetPost(body).value;
              && (r.Err? <==> FindCategoryById(old(db.categories), n.categoryId).None?)
              && (r.Err? ==> r.error == RecordNotFound("Category") && db.Snapshot() == old(db.Snapshot()))
              && (r.Ok? ==>
                    var (languageId, languages) := ConnectOrCreateLanguage(old(db.languages), old(db.nextLanguageId), n.language);
                    && db.snippets == old(db.snippets) + [Snippet(old(db.nextSnippetId), n.title, n.code, userId, languageId, n.categoryId)]
                    && db.languages == languages
                    && db.tags == old(db.tags) + NewTags(old(db.nextTagId), n.tags, userId)
                    && db.snippetTags == old(db.snippetTags) + NewLinks(old(db.nextSnippetId), old(db.nextTagId), |n.tags|)
                    && TagsOf(db.snippetTags, db.tags, old(db.nextSnippetId)) == FreshTagRefs(old(db.nextTagId), n.tags))
  {
    var n :- ParseSnippetPost(body);
    var res := db.CreateSnippet(n.title, n.code, userId, n.language, n.categoryId);
    if res.Err? {
      return Err(res.error);
    }
    var s := res.value;
    assert s in db.snippets;
    forall l | l in db.snippetTags ensures l.snippetId != s.id {
      assert l.snippetId in SnippetIds(old(db.snippets));
      SnippetIdsBelowNext(old(db.snippets), old(db.nextSnippetId), l.snippetId);
    }
    CreatedSnippetTags(db.snippetTags, db.tags, s.id, db.nextTagId, userId, n.tags);
    var made := CreateSnippetTags(db, s.id, userId, n.tags);
    assert made.Ok?;
    r := Ok(());
  }

  // ---------------------------------------------------------------------------------------
  // Update.

  /** The `language_id` that `snippetUpdate` writes, as written: the id of the first language
      row matching `where: { name }`. With no language in the body the filter is empty, so the
      first language row of the table is picked. */
  function LanguageIdAsWritten(languages: seq<Language>, name: Option<string>): (r: Option<int>)
    ensures r.None? <==> FindFirstLanguage(languages, name).None?
    ensures r.Some? && name.Some? ==> Language(r.value, name.value) in languages
    ensures name.None? && languages != [] ==> r == Some(languages[0].id)
  {
    match FindFirstLanguage(languages, name)
    case Some(l) => Some(l.id)
    case None => None
  }

  /** The `language_id` evidently intended: the id of the language named in the body, and no
      change at all when the body names no language or one that does not exist. */
  function LanguageIdIntended(languages: seq<Language>, name: Option<string>): (r: Option<int>)
    ensures r.None? <==> name.None? || FindFirstLanguage(languages, name).None?
    ensures r.Some? ==> name.Some? && Language(r.value, name.value) in languages
  {
    if name.None? then None else LanguageIdAsWritten(languages, name)
  }

  /** The language column of an edit: with the corrected lookup a body without a language,
      or naming one that has no row, keeps the snippet's language; a name that has a row sets
      that row's id. As written, only the missing row keeps it (update never creates a
      language); a missing name does not (`AbsentLanguageAsWritten`). */
  lemma EditLanguageColumn(languages: seq<Language>, s: Snippet, title: Option<string>, code: Option<string>,
                           name: Option<string>)
    ensures (name.None? || FindFirstLanguage(languages, name).None?) ==>
              EditSnippet(s, title, code, LanguageIdIntended(languages, name)).languageId == s.languageId
    ensures name.Some? && FindFirstLanguage(languages, name).Some? ==>
              && EditSnippet(s, title, code, LanguageIdIntended(languages, name)).languageId
                 == FindFirstLanguage(languages, name).value.id
              && EditSnippet(s, title, code, LanguageIdAsWritten(languages, name)).languageId
                 == FindFirstLanguage(languages, name).value.id
    ensures name.Some? && FindFirstLanguage(languages, name).None? ==>
              EditSnippet(s, title, code, LanguageIdAsWritten(languages, name)).languageId == s.languageId
  {
  }

  /** As written, an edit of the code alone moves a snippet written in "html" to "vue",
      the first language of the table. */
  lemma AbsentLanguageAsWritten()
    ensures var languages := [Language(1, "vue"), Language(2, "html")];
            var s := Snippet(5, "title", "<p></p>", 1, 2, 1);
            EditSnippet(s, None, Some("<br>"), LanguageIdAsWritten(languages, None)).languageId == 1
  {
  }

  /** `snippetUpdate` as written: after the body check, the first language matching the
      body's name is looked up, every row matching id and owner is edited (their number is
      the answer), and then the tags are replaced whether or not a row matched. */
  method SnippetUpdate(db: Db, userId: int, id: int, body: SnippetUpdateBody) returns (r: Result<nat>)
    requires db.Valid()
    modifies db`snippets, db`tags, db`snippetTags, db`nextTagId
    ensures db.Valid()
    ensures ParseSnippetUpdate(body).Err? ==> r.Err? && r.error.InvalidBody? && db.Snapshot() == old(db.Snapshot())
    ensures ParseSnippetUpdate(body).Ok? ==>
              var e := ParseSnippetUpdate(body).value;
              && db.snippets == UpdateSnippetRows(old(db.snippets), id, userId, e.title, e.code,
                                                  LanguageIdAsWritten(old(db.languages), e.language))
              && (r.Err? <==> e.tags.Some? && e.tags.value != [] && id !in SnippetIds(old(db.snippets)))
              && (r.Err? ==> && r.error == RecordNotFound("Snippet")
                             && db.tags == old(db.tags) && db.snippetTags == old(db.snippetTags))
              && (r.Ok? ==> && r.value == CountSnippetMatches(old(db.snippets), id, userId)
                            && db.tags == TagsAfter(old(db.tags), old(db.nextTagId), userId, e.tags)
                            && db.snippetTags == LinksAfter(old(db.snippetTags), old(db.tags), old(db.nextTagId),
                                                            userId, id, e.tags))
  {
    var e :- ParseSnippetUpdate(body);
    var languageId := LanguageIdAsWritten(db.languages, e.language);
    var count := db.UpdateManySnippets(id, userId, e.title, e.code, languageId);
    var replaced := UpdateTagsFromSnippet(db, id, userId, e.tags);
    if replaced.Err? {
      return Err(replaced.error);
    }
    r := Ok(count);
  }

  /** The update of the tests: a snippet tagged "template" and "vuejs" is given the tags
      "pouet", "pouet", "pouet"; it then reads three distinct tags all named "pouet", so
      "vuejs" is gone. */
  lemma TripleTagReplacement()
    ensures var tags := [Tag(1, "template", 1), Tag(2, "vuejs", 1)];
            var links := [SnippetTag(1, 1), SnippetTag(1, 2)];
            var names := ["pouet", "pouet", "pouet"];
            var after := TagsOf(LinksAfter(links, tags, 3, 1, 1, Some(names)), TagsAfter(tags, 3, 1, Some(names)), 1);
            after == [TagRef(3, "pouet"), TagRef(4, "pouet"), TagRef(5, "pouet")]
  {
    var tags := [Tag(1, "template", 1), Tag(2, "vuejs", 1)];
    var links := [SnippetTag(1, 1), SnippetTag(1, 2)];
    var names := ["pouet", "pouet", "pouet"];
    assert TagIdsBelow(tags, 3);
    assert forall l :: l in links && l.snippetId == 1 ==> TagOwnedBy(tags, l.tagId, 1) by {
      assert FindTag(tags, 1) == Some(tags[0]);
      assert FindTag(tags, 2) == Some(tags[1]);
    }
    ReplacedTagsOfSnippet(links, tags, 3, 1, 1, names);
    ThreeFreshTagRefs();
  }

  lemma ThreeFreshTagRefs()
    ensures FreshTagRefs(3, ["pouet", "pouet", "pouet"]) == [TagRef(3, "pouet"), TagRef(4, "pouet"), TagRef(5, "pouet")]
  {
  }

  /** As written, an update aimed at another user's snippet matches no row, yet its tags are
      still replaced: the acting user 1 attaches the tag "x" to snippet 1 of user 2, and user
      2 now reads that tag on their own snippet. */
  lemma ForeignSnippetTagsAsWritten()
    ensures var snippets := [Snippet(1, "title", "code", 2, 1, 1)];
            && CountSnippetMatches(snippets, 1, 1) == 0
            && 1 in SnippetIds(snippets)
            && UserSnippets(snippets, [], [], 2) == [SnippetView(snippets[0], Some([]), None)]
            && UserSnippets(snippets, LinksAfter([], [], 1, 1, 1, Some(["x"])), TagsAfter([], 1, 1, Some(["x"])), 2)
               == [SnippetView(snippets[0], Some([JoinRow(TagRef(1, "x"))]), None)]
  {
    var snippets := [Snippet(1, "title", "code", 2, 1, 1)];
    assert OwnedSnippets(snippets, 2) == snippets;
    var links := LinksAfter([], [], 1, 1, 1, Some(["x"]));
    var tags := TagsAfter([], 1, 1, Some(["x"]));
    assert links == [SnippetTag(1, 1)];
    assert tags == [Tag(1, "x", 1)];
    assert FindTag(tags, 1) == Some(Tag(1, "x", 1));
    assert links[1..] == [];
    assert JoinRowsOf(links, tags, 1) == [JoinRow(TagRef(1, "x"))];
    assert IncludeTags(snippets, links, tags)[0] == SnippetView(snippets[0], Some([JoinRow(TagRef(1, "x"))]), None);
  }

  /** `snippetUpdate` as evidently intended: a body without a language keeps the snippet's
      language, and the tags are replaced only when the update matched the user's snippet.
      Whatever the body, no other user's snippets change, as those users read them. */
  method SnippetUpdateIntended(db: Db, userId: int, id: int, body: SnippetUpdateBody) returns (r: Result<nat>)
    requires db.Valid()
    modifies db`snippets, db`tags, db`snippetTags, db`nextTagId
    ensures db.Valid()
    ensures r.Err? <==> ParseSnippetUpdate(body).Err?
    ensures r.Err? ==> r.error.InvalidBody? && db.Snapshot() == old(db.Snapshot())
    ensures r.Ok? ==>
              var e := ParseSnippetUpdate(body).value;
              && r.value == CountSnippetMatches(old(db.snippets), id, userId) && r.value <= 1
              && db.snippets == UpdateSnippetRows(old(db.snippets), id, userId, e.title, e.code,
                                                  LanguageIdIntended(old(db.languages), e.language))
              && (r.value == 0 ==> db.tags == old(db.tags) && db.snippetTags == old(db.snippetTags))
              && (r.value > 0 ==> && db.tags == TagsAfter(old(db.tags), old(db.nextTagId), userId, e.tags)
                                  && db.snippetTags == LinksAfter(old(db.snippetTags), old(db.tags), old(db.nextTagId),
                                                                  userId, id, e.tags))
    ensures forall v :: v != userId ==>
              UserSnippets(db.snippets, db.snippetTags, db.tags, v)
              == UserSnippets(old(db.snippets), old(db.snippetTags), old(db.tags), v)
  {
    var e :- ParseSnippetUpdate(body);
    var languageId := LanguageIdIntended(db.languages, e.language);
    var count := db.UpdateManySnippets(id, userId, e.title, e.code, languageId);
    ghost var updated := db.snippets;
    if count > 0 {
      UpdateSnippetRowsKeepsMatch(old(db.snippets), id, userId, e.title, e.code, languageId);
      var replaced := UpdateTagsFromSnippet(db, id, userId, e.tags);
      assert replaced.Ok? by {
        assert FindFirstSnippet(updated, id, userId).value in updated;
      }
    }
    forall v | v != userId
      ensures UserSnippets(db.snippets, db.snippetTags, db.tags, v)
           == UserSnippets(old(db.snippets), old(db.snippetTags), old(db.tags), v)
    {
      UpdateSnippetRowsKeepsOtherOwners(old(db.snippets), id, userId, e.title, e.code, languageId, v);
      if count > 0 {
        ReplacementKeepsOtherUsersViews(updated, old(db.snippetTags), old(db.tags), old(db.nextTagId),
                                        userId, id, e.tags, v);
      }
    }
    r := Ok(count);
  }

  // ---------------------------------------------------------------------------------------
  // Delete.

  /** `snippetDelete` as written: it runs `category.deleteMany` with the path id and the
      acting user, reports that count as deleted snippets, and leaves the snippet table and
      the links as they were. */
  method SnippetDelete(db: Db, userId: int, id: int) returns (count: nat)
    requires db.Valid()
    modifies db`categories
    ensures db.Valid()
    ensures count == CountCategoryMatches(old(db.categories), id, userId) && count <= 1
    ensures db.categories == RemoveCategories(old(db.categories), id, userId)
    ensures db.snippets == old(db.snippets) && db.snippetTags == old(db.snippetTags)
  {
    count := db.DeleteManyCategories(id, userId);
  }

  /** As written, deleting snippet 7, filed under category 8, while the user also owns
      category 7 reports one deleted snippet, removes category 7 and keeps the snippet. */
  lemma SnippetDeleteAsWritten()
    ensures var categories := [Category(7, "vue", 1), Category(8, "web", 1)];
            var snippets := [Snippet(7, "title", "code", 1, 1, 8)];
            && CountCategoryMatches(categories, 7, 1) == 1
            && RemoveCategories(categories, 7, 1) == [Category(8, "web", 1)]
            && FindFirstSnippet(snippets, 7, 1) == Some(snippets[0])
  {
    var categories := [Category(7, "vue", 1), Category(8, "web", 1)];
    assert categories[1..] == [Category(8, "web", 1)];
    assert RemoveCategories(categories, 7, 1) == RemoveCategories([Category(8, "web", 1)], 7, 1);
    assert [Category(8, "web", 1)][1..] == [];
  }

  /** `snippetDelete` as evidently intended: the user's snippet with that id is removed (with
      its links), the count of removed snippets is reported, zero matches is not an error,
      and no category and no other user's snippet is touched. */
  method SnippetDeleteIntended(db: Db, userId: int, id: int) returns (count: nat)
    requires db.Valid()
    modifies db`snippets, db`snippetTags
    ensures db.Valid()
    ensures count == CountSnippetMatches(old(db.snippets), id, userId) && count <= 1
    ensures db.snippets == RemoveSnippets(old(db.snippets), id, userId)
    ensures FindFirstSnippet(db.snippets, id, userId).None?
    ensures db.categories == old(db.categories)
    ensures forall v :: v != userId ==> OwnedSnippets(db.snippets, v) == OwnedSnippets(old(db.snippets), v)
  {
    count := db.DeleteManySnippets(id, userId);
    forall v | v != userId ensures OwnedSnippets(db.snippets, v) == OwnedSnippets(old(db.snippets), v) {
      RemoveSnippetsKeepsOtherOwners(old(db.snippets), id, userId, v);
    }
  }
}
