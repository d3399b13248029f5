/** The pagination helper shared by the list routes: the query parser that fills in the
    defaults, and the computation of the `next` and `prev` navigation links. */
module Pagination {
  import opened Results
  import opened Decimal

  /** The query string of a list request, after numeric coercion: absent keys are `None`. */
  datatype PaginationQuery = PaginationQuery(
    skip: Option<int>,
    take: Option<int>,
    orderBy: Option<string>,
    direction: Option<string>)

  /** The parsed window: `orderBy` stays optional, the other three always have a value. */
  datatype Pagination = Pagination(skip: int, take: int, orderBy: Option<string>, direction: string)

  const DefaultSkip: int := 0
  const DefaultTake: int := 10
  const DefaultDirection: string := "asc"

  /** Fills in every absent key with its default and keeps every supplied value. */
  function ParsePaginationQuery(q: PaginationQuery): (p: Pagination)
    ensures q.skip.Some? ==> p.skip == q.skip.value
    ensures q.skip.None? ==> p.skip == DefaultSkip
    ensures q.take.Some? ==> p.take == q.take.value
    ensures q.take.None? ==> p.take == DefaultTake
    ensures p.orderBy == q.orderBy
    ensures q.direction.Some? ==> p.direction == q.direction.value
    ensures q.direction.None? ==> p.direction == DefaultDirection
  {
    Pagination(
      q.skip.GetOr(DefaultSkip),
      q.take.GetOr(DefaultTake),
      q.orderBy,
      q.direction.GetOr(DefaultDirection))
  }

  /** The query that states every field of `p` explicitly. */
  function ToQuery(p: Pagination): PaginationQuery {
    PaginationQuery(Some(p.skip), Some(p.take), p.orderBy, Some(p.direction))
  }

  /** An empty query string yields skip 0, take 10, ascending, no ordering field. */
  lemma EmptyQueryDefaults()
    ensures ParsePaginationQuery(PaginationQuery(None, None, None, None))
         == Pagination(0, 10, None, "asc")
  {
  }

  /** Parsing a query that spells out a window gives that window back. */
  lemma ParseToQuery(p: Pagination)
    ensures ParsePaginationQuery(ToQuery(p)) == p
  {
  }

  /** `query.orderBy ? ... : ""` is truthy only for a present, non-empty string. */
  predicate HasOrdering(p: Pagination) {
    p.orderBy.Some? && p.orderBy.value != ""
  }

  function NextSkip(p: Pagination): int {
    p.skip + p.take
  }

  /** `Math.max(0, skip - take)`. */
  function PrevSkip(p: Pagination): (k: int)
    ensures k >= 0 && k >= p.skip - p.take
    ensures k == 0 || k == p.skip - p.take
    ensures p.take >= p.skip ==> k == 0
  {
    if p.skip - p.take > 0 then p.skip - p.take else 0
  }

  /** With a non-negative window the previous offset never passes the current one, and the
      next offset never falls behind it. */
  lemma SkipsAroundCurrent(p: Pagination)
    requires p.skip >= 0 && p.take >= 0
    ensures PrevSkip(p) <= p.skip <= NextSkip(p)
  {
  }

  /** The ordering suffix: empty exactly when there is no ordering; otherwise `&` followed
      by text that reads back as the field and the direction. */
  function SortingSuffix(p: Pagination): (s: string)
    ensures s == "" <==> !HasOrdering(p)
    ensures HasOrdering(p) && '&' !in p.orderBy.value ==>
              s[0] == '&' && ParseOrdering(s[1..]) == Some((p.orderBy.value, p.direction))
  {
    if HasOrdering(p) then
      var ordering := "orderBy=" + p.orderBy.value + "&direction=" + p.direction;
      assert ("&" + ordering)[1..] == ordering;
      if '&' !in p.orderBy.value then
        OrderingRoundTrip(p.orderBy.value, p.direction);
        "&" + ordering
      else "&" + ordering
    else ""
  }

  /** `/v1/<route>?skip=<k>&take=<n><suffix>`, built in the three pieces that the reader
      below takes apart again. */
  function Link(routeName: string, skip: int, take: int, suffix: string): string {
    "/v1/" + routeName + "?" + LinkQuery(skip, take, suffix)
  }

  function LinkQuery(skip: int, take: int, suffix: string): string {
    "skip=" + IntToString(skip) + "&" + TakeAndSuffix(take, suffix)
  }

  function TakeAndSuffix(take: int, suffix: string): string {
    "take=" + IntToString(take) + suffix
  }

  datatype Links = Links(next: string, prev: string)

  /** `getPaginationLinks`: for a route without `?` and an ordering field without `&`, the
      two links read back as that route, page size and ordering, at offsets `skip + take`
      and `max(0, skip - take)`. */
  function GetPaginationLinks(p: Pagination, routeName: string): (r: Links)
    ensures '?' !in routeName && (HasOrdering(p) ==> '&' !in p.orderBy.value) ==>
              && ParseLink(r.next)
                 == Some(LinkParts(routeName, p.skip + p.take, p.take, SuffixOrderBy(p), SuffixDirection(p)))
              && ParseLink(r.prev)
                 == Some(LinkParts(routeName, PrevSkip(p), p.take, SuffixOrderBy(p), SuffixDirection(p)))
  {
    var suffix := SortingSuffix(p);
    var r := Links(Link(routeName, NextSkip(p), p.take, suffix), Link(routeName, PrevSkip(p), p.take, suffix));
    if '?' !in routeName && (HasOrdering(p) ==> '&' !in p.orderBy.value) then
      LinkRoundTrip(routeName, NextSkip(p), p);
      LinkRoundTrip(routeName, PrevSkip(p), p);
      r
    else r
  }

  /** skip=5, take=5 on the category route: next offset 10, previous offset 0. */
  lemma FiveByFiveExample()
    ensures GetPaginationLinks(Pagination(5, 5, None, "asc"), "category")
         == Links("/v1/category?skip=10&take=5", "/v1/category?skip=0&take=5")
  {
    var p := Pagination(5, 5, None, "asc");
    assert GetPaginationLinks(p, "category") == Links(Link("category", 10, 5, ""), Link("category", 0, 5, "")) by {
      assert SortingSuffix(p) == "";
      assert NextSkip(p) == 10 && PrevSkip(p) == 0;
    }
    NextLinkOfFiveByFive();
    PrevLinkOfFiveByFive();
  }

  lemma NextLinkOfFiveByFive()
    ensures Link("category", 10, 5, "") == "/v1/category?skip=10&take=5"
  {
    assert IntToString(10) == "10" by {
      assert NatToString(1) == "1";
      assert NatToString(10) == NatToString(1) + "0";
    }
    assert TakeAndSuffix(5, "") == "take=5" by {
      assert IntToString(5) == "5";
    }
    assert LinkQuery(10, 5, "") == "skip=10&take=5";
  }

  lemma PrevLinkOfFiveByFive()
    ensures Link("category", 0, 5, "") == "/v1/category?skip=0&take=5"
  {
    assert IntToString(0) == "0";
    assert IntToString(5) == "5";
  }

  // ---------------------------------------------------------------------------------------
  // Reading a link back: the partner of `Link`.

  /** What a navigation link carries. */
  datatype LinkParts = LinkParts(
    routeName: string,
    skip: int,
    take: int,
    orderBy: Option<string>,
    direction: Option<string>)

  function StripPrefix(s: string, prefix: string): (r: Option<string>)
    ensures r.Some? ==> s == prefix + r.value
  {
    if prefix <= s then Some(s[|prefix|..]) else None
  }

  /** Splits `s` around the first occurrence of `c`. */
  function SplitAt(s: string, c: char): (r: Option<(string, string)>)
    ensures r.None? <==> c !in s
    ensures r.Some? ==> c !in r.value.0 && s == r.value.0 + [c] + r.value.1
  {
    if s == [] then None
    else if s[0] == c then Some(([], s[1..]))
    else match SplitAt(s[1..], c)
      case None => None
      case Some(parts) => Some(([s[0]] + parts.0, parts.1))
  }

  /** Reads `/v1/<route>?skip=<k>&take=<n>` with an optional `&orderBy=<f>&direction=<d>`. */
  function ParseLink(s: string): Option<LinkParts> {
    var rest :- StripPrefix(s, "/v1/");
    var routeAndQuery :- SplitAt(rest, '?');
    var parts :- ParseLinkQuery(routeAndQuery.1);
    Some(parts.(routeName := routeAndQuery.0))
  }

  /** Reads `skip=<k>&take=<n>...`; the route is left empty. */
  function ParseLinkQuery(q: string): Option<LinkParts> {
    var afterSkipKey :- StripPrefix(q, "skip=");
    var skipAndRest :- SplitAt(afterSkipKey, '&');
    var skip :- ParseInt(skipAndRest.0);
    var tail :- ParseTakeAndSuffix(skipAndRest.1);
    Some(tail.(skip := skip))
  }

  /** Reads `take=<n>` with the optional ordering suffix; route and offset are left empty. */
  function ParseTakeAndSuffix(s: string): Option<LinkParts> {
    var afterTakeKey :- StripPrefix(s, "take=");
    match SplitAt(afterTakeKey, '&')
    case None =>
      var take :- ParseInt(afterTakeKey);
      Some(LinkParts("", 0, take, None, None))
    case Some(takeAndRest) =>
      var take :- ParseInt(takeAndRest.0);
      var ordering :- ParseOrdering(takeAndRest.1);
      Some(LinkParts("", 0, take, Some(ordering.0), Some(ordering.1)))
  }

  /** Reads `orderBy=<f>&direction=<d>` into the field and the direction. */
  function ParseOrdering(s: string): Option<(string, string)> {
    var afterOrderKey :- StripPrefix(s, "orderBy=");
    var orderAndRest :- SplitAt(afterOrderKey, '&');
    var direction :- StripPrefix(orderAndRest.1, "direction=");
    Some((orderAndRest.0, direction))
  }

  lemma StripPrefixOf(prefix: string, s: string)
    ensures StripPrefix(prefix + s, prefix) == Some(s)
  {
    assert (prefix + s)[|prefix|..] == s;
  }

  lemma {:induction false} SplitAtFirst(a: string, c: char, b: string)
    requires c !in a
    ensures SplitAt(a + [c] + b, c) == Some((a, b))
  {
    if a != [] {
      var s := a + [c] + b;
      assert s[0] == a[0] && a[0] != c;
      assert s[1..] == a[1..] + [c] + b;
      SplitAtFirst(a[1..], c, b);
      assert [a[0]] + a[1..] == a;
    } else {
      assert a + [c] + b == [c] + b;
    }
  }

  lemma IntToStringHasNo(i: int, c: char)
    requires !IsDigit(c) && c != '-'
    ensures c !in IntToString(i)
  {
  }

  /** The ordering part of the link, as `ParseLink` should read it back. */
  function SuffixOrderBy(p: Pagination): Option<string> {
    if HasOrdering(p) then p.orderBy else None
  }

  function SuffixDirection(p: Pagination): Option<string> {
    if HasOrdering(p) then Some(p.direction) else None
  }

  lemma OrderingRoundTrip(field: string, direction: string)
    requires '&' !in field
    ensures ParseOrdering("orderBy=" + field + "&direction=" + direction) == Some((field, direction))
  {
    var afterOrderKey := field + "&direction=" + direction;
    assert "orderBy=" + field + "&direction=" + direction == "orderBy=" + afterOrderKey;
    StripPrefixOf("orderBy=", afterOrderKey);
    assert afterOrderKey == field + ['&'] + ("direction=" + direction);
    SplitAtFirst(field, '&', "direction=" + direction);
    StripPrefixOf("direction=", direction);
  }

  lemma TakeAndSuffixRoundTrip(p: Pagination)
    requires HasOrdering(p) ==> '&' !in p.orderBy.value
    ensures ParseTakeAndSuffix(TakeAndSuffix(p.take, SortingSuffix(p)))
         == Some(LinkParts("", 0, p.take, SuffixOrderBy(p), SuffixDirection(p)))
  {
    if HasOrdering(p) {
      var ordering := "orderBy=" + p.orderBy.value + "&direction=" + p.direction;
      assert TakeAndSuffix(p.take, SortingSuffix(p)) == "take=" + (IntToString(p.take) + ['&'] + ordering);
      TakeWithOrderingRoundTrip(p.take, ordering);
      OrderingRoundTrip(p.orderBy.value, p.direction);
    } else {
      assert TakeAndSuffix(p.take, SortingSuffix(p)) == "take=" + IntToString(p.take);
      TakeAloneRoundTrip(p.take);
    }
  }

  lemma TakeAloneRoundTrip(take: int)
    ensures ParseTakeAndSuffix("take=" + IntToString(take)) == Some(LinkParts("", 0, take, None, None))
  {
    var n := IntToString(take);
    StripPrefixOf("take=", n);
    IntToStringHasNo(take, '&');
    assert SplitAt(n, '&') == None;
    IntToStringRoundTrip(take);
  }

  lemma TakeWithOrderingRoundTrip(take: int, ordering: string)
    ensures ParseTakeAndSuffix("take=" + (IntToString(take) + ['&'] + ordering))
         == match ParseOrdering(ordering)
            case None => None
            case Some(o) => Some(LinkParts("", 0, take, Some(o.0), Some(o.1)))
  {
    var n := IntToString(take);
    StripPrefixOf("take=", n + ['&'] + ordering);
    IntToStringHasNo(take, '&');
    SplitAtFirst(n, '&', ordering);
    IntToStringRoundTrip(take);
  }

  lemma LinkQueryRoundTrip(skip: int, p: Pagination)
    requires HasOrdering(p) ==> '&' !in p.orderBy.value
    ensures ParseLinkQuery(LinkQuery(skip, p.take, SortingSuffix(p)))
         == Some(LinkParts("", skip, p.take, SuffixOrderBy(p), SuffixDirection(p)))
  {
    TakeAndSuffixRoundTrip(p);
    LinkQueryReadsSkip(skip, p.take, SortingSuffix(p));
  }

  /** Every link `Link` builds reads back as the route, offset, page size and ordering it was
      built from, provided the route has no `?` and the ordering field has no `&`. */
  lemma LinkRoundTrip(routeName: string, skip: int, p: Pagination)
    requires '?' !in routeName
    requires HasOrdering(p) ==> '&' !in p.orderBy.value
    ensures ParseLink(Link(routeName, skip, p.take, SortingSuffix(p)))
         == Some(LinkParts(routeName, skip, p.take, SuffixOrderBy(p), SuffixDirection(p)))
  {
    LinkQueryRoundTrip(skip, p);
    LinkReadsRoute(routeName, skip, p.take, SortingSuffix(p));
  }

  /** Both links read back as the same route, page size and ordering, and differ only in
      their offsets, which are `skip + take` and `max(0, skip - take)`; the ordering suffix
      is present exactly when `orderBy` is a non-empty string. */
  lemma LinksRoundTrip(p: Pagination, routeName: string)
    requires '?' !in routeName
    requires HasOrdering(p) ==> '&' !in p.orderBy.value
    ensures var links := GetPaginationLinks(p, routeName);
            && ParseLink(links.next)
               == Some(LinkParts(routeName, p.skip + p.take, p.take, SuffixOrderBy(p), SuffixDirection(p)))
            && ParseLink(links.prev)
               == Some(LinkParts(routeName, PrevSkip(p), p.take, SuffixOrderBy(p), SuffixDirection(p)))
    ensures ParseLink(GetPaginationLinks(p, routeName).next).value.orderBy.Some? <==> HasOrdering(p)
  {
    var links := GetPaginationLinks(p, routeName);
    assert SuffixOrderBy(p).Some? <==> HasOrdering(p);
  }

  /** The link builder does not escape the field: a field holding `&` is cut at its first `&`
      when the ordering is read back, so it never reads back as itself. */
  lemma {:induction false} AmpersandFieldCutShort(field: string, direction: string)
    requires '&' in field
    ensures var o := ParseOrdering("orderBy=" + field + "&direction=" + direction);
            o.None? || o.value.0 != field
  {
    var parts := SplitAt(field, '&').value;
    var rest := parts.1 + "&direction=" + direction;
    var afterOrderKey := field + "&direction=" + direction;
    assert "orderBy=" + field + "&direction=" + direction == "orderBy=" + afterOrderKey;
    StripPrefixOf("orderBy=", afterOrderKey);
    assert afterOrderKey == parts.0 + ['&'] + rest;
    SplitAtFirst(parts.0, '&', rest);
  }

  /** The query part is read as `skip=<k>&` followed by the take and the ordering. */
  lemma LinkQueryReadsSkip(skip: int, take: int, suffix: string)
    ensures ParseLinkQuery(LinkQuery(skip, take, suffix))
         == match ParseTakeAndSuffix(TakeAndSuffix(take, suffix))
            case None => None
            case Some(t) => Some(t.(skip := skip))
  {
    var k, tail := IntToString(skip), TakeAndSuffix(take, suffix);
    assert LinkQuery(skip, take, suffix) == "skip=" + (k + ['&'] + tail);
    StripPrefixOf("skip=", k + ['&'] + tail);
    IntToStringHasNo(skip, '&');
    SplitAtFirst(k, '&', tail);
    IntToStringRoundTrip(skip);
  }

  /** A link is read as `/v1/<route>?` followed by its query, for a route without `?`. */
  lemma LinkReadsRoute(routeName: string, skip: int, take: int, suffix: string)
    requires '?' !in routeName
    ensures ParseLink(Link(routeName, skip, take, suffix))
         == match ParseLinkQuery(LinkQuery(skip, take, suffix))
            case None => None
            case Some(q) => Some(q.(routeName := routeName))
  {
    var query := LinkQuery(skip, take, suffix);
    assert Link(routeName, skip, take, suffix) == "/v1/" + (routeName + ['?'] + query);
    StripPrefixOf("/v1/", routeName + ['?'] + query);
    SplitAtFirst(routeName, '?', query);
  }

  /** One link whose ordering field holds `&` does not read back as its own field. */
  lemma AmpersandLink(routeName: string, skip: int, p: Pagination)
    requires '?' !in routeName
    requires HasOrdering(p) && '&' in p.orderBy.value
    ensures var parsed := ParseLink(Link(routeName, skip, p.take, SortingSuffix(p)));
            parsed.None? || parsed.value.orderBy != p.orderBy
  {
    var ordering := "orderBy=" + p.orderBy.value + "&direction=" + p.direction;
    assert TakeAndSuffix(p.take, SortingSuffix(p)) == "take=" + (IntToString(p.take) + ['&'] + ordering);
    TakeWithOrderingRoundTrip(p.take, ordering);
    AmpersandFieldCutShort(p.orderBy.value, p.direction);
    LinkQueryReadsSkip(skip, p.take, SortingSuffix(p));
    LinkReadsRoute(routeName, skip, p.take, SortingSuffix(p));
  }

  /** The converse of `LinksRoundTrip` for the field: when the ordering field holds `&`,
      neither link reads back as the route, offset, page size and ordering it was built from. */
  lemma AmpersandLinksDoNotReadBack(p: Pagination, routeName: string)
    requires '?' !in routeName
    requires HasOrdering(p) && '&' in p.orderBy.value
    ensures var links := GetPaginationLinks(p, routeName);
            && ParseLink(links.next)
               != Some(LinkParts(routeName, p.skip + p.take, p.take, SuffixOrderBy(p), SuffixDirection(p)))
            && ParseLink(links.prev)
               != Some(LinkParts(routeName, PrevSkip(p), p.take, SuffixOrderBy(p), SuffixDirection(p)))
  {
    AmpersandLink(routeName, NextSkip(p), p);
    AmpersandLink(routeName, PrevSkip(p), p);
  }
}
