/**
 * The list-query middleware `advancedResults`: from the flat query of a list
 * request it builds a storage query (filter, projection, sort, skip, limit,
 * relation expansion), runs it, and wraps the page of results in an envelope
 * with `success`, `count`, `pagination` and `data`.
 *
 * The storage layer is abstract: a `Store` holds the whole collection as a
 * sequence and leaves to uninterpreted functions what the storage engine
 * decides on its own, namely which documents a filter matches, the order a
 * sort key gives, what a projection keeps and what a relation expansion adds.
 * `JSON.stringify` is the parameter `stringify`; `JSON.parse` of the rewritten
 * text is part of the store's `matches`.
 */
module Advanced {
  import opened Wrappers
  import Text
  import Operators
  import ParseInt

  /** The request's query parameters, each a single string. */
  type Query = map<string, string>

  /** The control keys, in the order the middleware deletes them. */
  const RemoveFields: seq<string> := ["select", "sort", "limit", "page"]

  const ReservedKeys: set<string> := set i | 0 <= i < |RemoveFields| :: RemoveFields[i]

  /** The sort used when the request gives none: newest first. */
  const DefaultSort: string := "-createdAt"

  const DefaultPage: int := 1
  const DefaultLimit: int := 25

  // ----- Reserved keys -----

  /** The copy of the query with every control key deleted, one key after
      the other. The caller's query is a value and stays as it was. */
  method StripReserved(query: Query) returns (reqQuery: Query)
    ensures reqQuery.Keys == query.Keys - ReservedKeys
    ensures forall k :: k in reqQuery ==> reqQuery[k] == query[k]
  {
    reqQuery := query;
    for i := 0 to |RemoveFields|
      invariant reqQuery.Keys == query.Keys - set j | 0 <= j < i :: RemoveFields[j]
      invariant forall k :: k in reqQuery ==> reqQuery[k] == query[k]
    {
      reqQuery := reqQuery - {RemoveFields[i]};
    }
  }

  /** The text handed to the storage engine as the filter: the serialized
      query without the control keys, with the operator names rewritten. */
  function FilterText(stringify: Query -> string, query: Query): (text: string)
    ensures var serialized := stringify(query - ReservedKeys);
      && text == Operators.Marked(serialized, |serialized|)
      && Operators.Restore(text) == serialized
  {
    Operators.Rewrite(stringify(query - ReservedKeys))
  }

  // ----- Projection and sort -----

  /** `if (req.query[key])`: present and not the empty string. */
  predicate Given(query: Query, key: string)
  {
    key in query && query[key] != ""
  }

  /** `list.split(',').join(' ')`: a comma-separated field list in the
      space-separated form the storage engine takes. */
  function FieldList(list: string): (fields: string)
    ensures |fields| == |list|
    ensures ',' !in fields
    ensures forall i :: 0 <= i < |list| ==> fields[i] == if list[i] == ',' then ' ' else list[i]
  {
    Text.JoinSplitIsReplace(list, ',', ' ');
    Text.Join(Text.Split(list, ','), ' ')
  }

  /** The fields keep their order: splitting the converted list at spaces
      gives the fields of the original list, provided no field name holds a
      space. */
  lemma FieldListKeepsFields(list: string)
    requires ' ' !in list
    ensures Text.Split(FieldList(list), ' ') == Text.Split(list, ',')
  {
    var parts := Text.Split(list, ',');
    forall i | 0 <= i < |parts| ensures ' ' !in parts[i] {
      Text.SplitPiecesFromInput(list, ',', i);
    }
    Text.SplitJoin(parts, ' ');
  }

  /** The projection: the converted `select` list when one is given. */
  function Projection(query: Query): (r: Option<string>)
    ensures r.Some? <==> Given(query, "select")
    ensures r.Some? ==> r.value == Text.ReplaceChar(query["select"], ',', ' ')
  {
    if Given(query, "select") then Some(FieldList(query["select"])) else None
  }

  /** The sort key: the converted `sort` list, or newest first when the
      request gives no (or an empty) `sort`. */
  function SortKey(query: Query): (key: string)
    ensures Given(query, "sort") ==> key == Text.ReplaceChar(query["sort"], ',', ' ')
    ensures !Given(query, "sort") ==> key == DefaultSort
  {
    if Given(query, "sort") then FieldList(query["sort"]) else DefaultSort
  }

  // ----- Page and limit -----

  /** `parseInt(req.query[key], 10) || fallback`: the parsed number unless
      parsing gives NaN or zero; negative numbers are kept. */
  function NumberOr(query: Query, key: string, fallback: int): (n: int)
    ensures key !in query ==> n == fallback
    ensures key in query ==>
      match ParseInt.Parse(query[key])
      case Some(v) => n == if v != 0 then v else fallback
      case None => n == fallback
  {
    var parsed := if key in query then ParseInt.Parse(query[key]) else None;
    if parsed.Some? && parsed.value != 0 then parsed.value else fallback
  }

  function PageNumber(query: Query): int
  {
    NumberOr(query, "page", DefaultPage)
  }

  function LimitNumber(query: Query): int
  {
    NumberOr(query, "limit", DefaultLimit)
  }

  /** A client that sends the decimal form of a non-zero number gets that
      number; anything that is not a number, or zero, gives the fallback. */
  lemma NumberRoundTrip(query: Query, key: string, n: int, fallback: int)
    ensures n != 0 ==> NumberOr(query[key := ParseInt.Show(n)], key, fallback) == n
    ensures NumberOr(query[key := ParseInt.Show(0)], key, fallback) == fallback
    ensures NumberOr(query[key := ""], key, fallback) == fallback
  {
    ParseInt.ParseShow(n, []);
    assert ParseInt.Show(n) + [] == ParseInt.Show(n);
    ParseInt.ParseShow(0, []);
    assert ParseInt.Show(0) + [] == ParseInt.Show(0);
  }

  /** Both parameters never come out as zero. */
  lemma PageAndLimitNonZero(query: Query)
    ensures PageNumber(query) != 0 && LimitNumber(query) != 0
    ensures "page" !in query ==> PageNumber(query) == 1
    ensures "limit" !in query ==> LimitNumber(query) == 25
  {
  }

  function StartIndex(page: int, limit: int): int
  {
    (page - 1) * limit
  }

  function EndIndex(page: int, limit: int): int
  {
    page * limit
  }

  /** The page spans `limit` positions; the next page starts where this one
      ends; with a positive limit the start is non-negative exactly from page
      1 on and positive exactly from page 2 on. */
  lemma PageBounds(page: int, limit: int)
    ensures EndIndex(page, limit) - StartIndex(page, limit) == limit
    ensures StartIndex(page + 1, limit) == EndIndex(page, limit)
    ensures limit > 0 ==> (StartIndex(page, limit) >= 0 <==> page >= 1)
    ensures limit > 0 ==> (StartIndex(page, limit) > 0 <==> page > 1)
  {
    if limit > 0 {
      if page >= 1 {
        MulNonNegative(page - 1, limit);
      } else {
        MulNegative(page - 1, limit);
      }
      if page > 1 {
        MulPositive(page - 1, limit);
      }
    }
  }

  // The sign of a product, one fact per lemma so that each nonlinear step is
  // proved on its own.

  lemma MulNonNegative(a: int, b: int)
    requires a >= 0 && b > 0
    ensures a * b >= 0
  {
  }

  lemma MulPositive(a: int, b: int)
    requires a > 0 && b > 0
    ensures a * b > 0
  {
  }

  lemma MulNegative(a: int, b: int)
    requires a < 0 && b > 0
    ensures a * b < 0
  {
  }

  // ----- The storage layer -----

  /** The relation-expansion descriptor a route passes, such as the review
      route's `{ path: 'product', select: 'name desciption' }`. */
  datatype Populate = Populate(path: string, select: string)

  /** A collection and what the storage engine decides about it. `accepts`
      says whether the engine takes a filter, a projection and a sort key at
      all: it refuses, for instance, a top-level operator such as
      `{"$gt":"5"}`, a value that does not cast to its field's type, a
      projection that mixes included and excluded fields, or a sort on an
      empty or `$`-prefixed field name. */
  datatype Store<!D> = Store(
    docs: seq<D>,
    accepts: (string, Option<string>, Option<string>) -> bool,
    matches: (string, D) -> bool,
    order: (string, seq<D>) -> seq<D>,
    project: (string, D) -> D,
    expand: (Populate, D) -> D)

  datatype StoreError = NegativeSkip | Refused

  /** The query object the middleware builds up step by step; `None` for a
      step not applied. */
  datatype QueryPlan = QueryPlan(
    filter: string,
    select: Option<string>,
    sort: Option<string>,
    skip: Option<int>,
    limit: Option<int>,
    populate: Option<Populate>)

  /** `model.find(filter)`. */
  function Find(filter: string): QueryPlan
  {
    QueryPlan(filter, None, None, None, None, None)
  }

  /** `find(filter)`: every document of `rows` the filter matches, and only
      those, in their order. */
  function Matching<D>(rows: seq<D>, filter: string, matches: (string, D) -> bool): (r: seq<D>)
    ensures |r| <= |rows|
    ensures forall i :: 0 <= i < |r| ==> matches(filter, r[i]) && r[i] in rows
    ensures forall d :: d in rows && matches(filter, d) ==> d in r
  {
    if rows == [] then []
    else
      var rest := Matching(rows[1..], filter, matches);
      if matches(filter, rows[0]) then [rows[0]] + rest else rest
  }

  /** `find` keeps the collection's order and each occurrence: matching a
      concatenation is matching each part, one after the other. */
  lemma {:induction false} MatchingAppend<D>(a: seq<D>, b: seq<D>, filter: string, matches: (string, D) -> bool)
    ensures Matching(a + b, filter, matches) == Matching(a, filter, matches) + Matching(b, filter, matches)
    decreases |a|
  {
    if a == [] {
      assert a + b == b;
    } else {
      assert (a + b)[0] == a[0];
      assert (a + b)[1..] == a[1..] + b;
      MatchingAppend(a[1..], b, filter, matches);
    }
  }

  /** A single document is found exactly when the filter matches it. */
  lemma MatchingOne<D>(d: D, filter: string, matches: (string, D) -> bool)
    ensures Matching([d], filter, matches) == if matches(filter, d) then [d] else []
  {
  }

  /** How many documents a `limit(n)` lets through when `available` remain:
      all for 0, otherwise up to the magnitude of `n` (a negative limit asks
      the engine for a single batch of that many). */
  function Take(n: int, available: nat): (k: nat)
    ensures k <= available
    ensures n != 0 ==> k <= (if n < 0 then -n else n)
  {
    var magnitude := if n < 0 then -n else n;
    if n == 0 || available <= magnitude then available else magnitude
  }

  /** `skip(skip).limit(limit)` on an ordered sequence. */
  function Window<D>(rows: seq<D>, skip: nat, limit: int): (w: seq<D>)
    ensures |w| == if skip < |rows| then Take(limit, |rows| - skip) else 0
    ensures forall i :: 0 <= i < |w| ==> w[i] == rows[skip + i]
  {
    if skip < |rows| then rows[skip..skip + Take(limit, |rows| - skip)] else []
  }

  /** What a returned document looks like after projection and expansion. */
  function Present<D>(store: Store<D>, select: Option<string>, populate: Option<Populate>, d: D): D
  {
    var projected := if select.Some? then store.project(select.value, d) else d;
    if populate.Some? then store.expand(populate.value, projected) else projected
  }

  /** The documents a plan selects, in the order it asks for. */
  function Ordered<D>(store: Store<D>, plan: QueryPlan): seq<D>
  {
    var found := Matching(store.docs, plan.filter, store.matches);
    if plan.sort.Some? then store.order(plan.sort.value, found) else found
  }

  /** Running a query plan: the matching documents in the requested order,
      the window after skip and limit, each document projected and expanded.
      The engine refuses a filter, projection or sort key it does not
      accept, and a negative skip. */
  function Run<D>(store: Store<D>, plan: QueryPlan): (r: Result<seq<D>, StoreError>)
    ensures r.Failure? <==> !store.accepts(plan.filter, plan.select, plan.sort) || (plan.skip.Some? && plan.skip.value < 0)
    ensures r.Failure? ==> r.error == if store.accepts(plan.filter, plan.select, plan.sort) then NegativeSkip else Refused
    ensures r.Success? ==>
      var rows, skip := Ordered(store, plan), if plan.skip.Some? then plan.skip.value else 0;
      var limit := if plan.limit.Some? then plan.limit.value else 0;
      && |r.value| == (if skip < |rows| then Take(limit, |rows| - skip) else 0)
      && forall i :: 0 <= i < |r.value| ==> r.value[i] == Present(store, plan.select, plan.populate, rows[skip + i])
  {
    var skip := if plan.skip.Some? then plan.skip.value else 0;
    if !store.accepts(plan.filter, plan.select, plan.sort) then Failure(Refused)
    else if skip < 0 then Failure(NegativeSkip)
    else
      var window := Window(Ordered(store, plan), skip, if plan.limit.Some? then plan.limit.value else 0);
      Success(seq(|window|, i requires 0 <= i < |window| => Present(store, plan.select, plan.populate, window[i])))
  }

  /** The matching documents in the order the request asks for. */
  function Arranged<D>(store: Store<D>, stringify: Query -> string, query: Query): seq<D>
  {
    store.order(SortKey(query), Matching(store.docs, FilterText(stringify, query), store.matches))
  }

  // ----- The envelope -----

  datatype PageLink = PageLink(page: int, limit: int)

  datatype Pagination = Pagination(next: Option<PageLink>, prev: Option<PageLink>)

  datatype Envelope<D> = Envelope(success: bool, count: int, pagination: Pagination, data: seq<D>)

  /** Lines 2 to 48 of the middleware: the query object built step by step,
      with the page numbers it is built from. */
  method BuildQuery(stringify: Query -> string, populate: Option<Populate>, query: Query)
    returns (plan: QueryPlan, page: int, limit: int, startIndex: int, endIndex: int)
    ensures page == PageNumber(query) && limit == LimitNumber(query)
    ensures startIndex == StartIndex(page, limit) && endIndex == EndIndex(page, limit)
    ensures plan == QueryPlan(FilterText(stringify, query), Projection(query), Some(SortKey(query)),
                              Some(startIndex), Some(limit), populate)
  {
    var reqQuery := StripReserved(query);
    assert reqQuery == query - ReservedKeys;
    var queryStr := stringify(reqQuery);
    queryStr := Operators.Rewrite(queryStr);
    plan := Find(queryStr);

    if Given(query, "select") {
      var fields := FieldList(query["select"]);
      plan := plan.(select := Some(fields));
    }

    if Given(query, "sort") {
      var sortBy := FieldList(query["sort"]);
      plan := plan.(sort := Some(sortBy));
    } else {
      plan := plan.(sort := Some(DefaultSort));
    }

    page := NumberOr(query, "page", DefaultPage);
    limit := NumberOr(query, "limit", DefaultLimit);
    startIndex := (page - 1) * limit;
    endIndex := page * limit;

    plan := plan.(skip := Some(startIndex), limit := Some(limit));

    if populate.Some? {
      plan := plan.(populate := populate);
    }
  }

  /** `data` is the requested page: the window of the matching documents,
      in the requested order, that starts at `start` and holds up to `limit`
      of them, each projected and expanded. */
  ghost predicate IsPage<D>(store: Store<D>, stringify: Query -> string, populate: Option<Populate>, query: Query,
                      data: seq<D>)
  {
    var page, limit := PageNumber(query), LimitNumber(query);
    var start := StartIndex(page, limit);
    var rows := Arranged(store, stringify, query);
    && 0 <= start
    && |data| == (if start < |rows| then Take(limit, |rows| - start) else 0)
    && forall i :: 0 <= i < |data| ==> data[i] == Present(store, Projection(query), populate, rows[start + i])
  }

  /** The middleware. `populate` is the route's relation expansion, if any;
      the result is what it stores in `res.advancedResults` before calling
      `next()`, or the storage error the awaited query raises. */
  method AdvancedResults<D>(store: Store<D>, stringify: Query -> string, populate: Option<Populate>, query: Query)
    returns (outcome: Result<Envelope<D>, StoreError>)
    ensures outcome.Success? <==>
      store.accepts(FilterText(stringify, query), Projection(query), Some(SortKey(query)))
      && StartIndex(PageNumber(query), LimitNumber(query)) >= 0
    ensures outcome.Failure? ==>
      outcome.error == if store.accepts(FilterText(stringify, query), Projection(query), Some(SortKey(query))) then NegativeSkip else Refused
    ensures outcome.Success? ==>
      var page, limit := PageNumber(query), LimitNumber(query);
      var start, end := StartIndex(page, limit), EndIndex(page, limit);
      var env := outcome.value;
      && env.success
      && env.count == |env.data|
      && IsPage(store, stringify, populate, query, env.data)
      && (env.pagination.next.Some? <==> end < |store.docs|)
      && (env.pagination.next.Some? ==> env.pagination.next.value == PageLink(page + 1, limit))
      && (env.pagination.prev.Some? <==> start > 0)
      && (env.pagination.prev.Some? ==> env.pagination.prev.value == PageLink(page - 1, limit))
  {
    var plan, page, limit, startIndex, endIndex := BuildQuery(stringify, populate, query);
    var total := |store.docs|;
    PlanRunsPage(store, stringify, populate, query, plan);

    var results := Run(store, plan);
    if results.Failure? {
      return Failure(results.error);
    }
    var data := results.value;

    var pagination := Pagination(None, None);
    if endIndex < total {
      pagination := pagination.(next := Some(PageLink(page + 1, limit)));
    }
    if startIndex > 0 {
      pagination := pagination.(prev := Some(PageLink(page - 1, limit)));
    }

    outcome := Success(Envelope(true, |data|, pagination, data));
  }

  /** Running the plan the middleware builds fails exactly when the engine
      refuses the filter, projection or sort key or the start is negative, and
      otherwise gives the requested page. */
  lemma PlanRunsPage<D>(store: Store<D>, stringify: Query -> string, populate: Option<Populate>, query: Query,
                        plan: QueryPlan)
    requires plan == QueryPlan(FilterText(stringify, query), Projection(query), Some(SortKey(query)),
                               Some(StartIndex(PageNumber(query), LimitNumber(query))), Some(LimitNumber(query)),
                               populate)
    ensures Run(store, plan).Success? <==>
      store.accepts(FilterText(stringify, query), Projection(query), Some(SortKey(query)))
      && StartIndex(PageNumber(query), LimitNumber(query)) >= 0
    ensures Run(store, plan).Failure? ==>
      Run(store, plan).error == if store.accepts(FilterText(stringify, query), Projection(query), Some(SortKey(query))) then NegativeSkip else Refused
    ensures Run(store, plan).Success? ==> IsPage(store, stringify, populate, query, Run(store, plan).value)
  {
    assert Ordered(store, plan) == Arranged(store, stringify, query);
  }

  // ----- Properties of the pagination -----

  function Min(a: int, b: int): int
  {
    if a <= b then a else b
  }

  /** Pages 1 to `p` of `rows`, one after the other. */
  function Pages<D>(rows: seq<D>, limit: int, p: nat): seq<D>
    requires limit > 0
  {
    if p == 0 then []
    else
      PageBounds(p, limit);
      Pages(rows, limit, p - 1) + Window(rows, StartIndex(p, limit), limit)
  }

  /** With a positive limit the pages follow each other without gap or
      overlap: pages 1 to `p` together are the first `p * limit` documents. */
  lemma {:induction false} PagesTile<D>(rows: seq<D>, limit: int, p: nat)
    requires limit > 0
    ensures EndIndex(p, limit) >= 0
    ensures Pages(rows, limit, p) == rows[..Min(EndIndex(p, limit), |rows|)]
  {
    PageBounds(p, limit);
    if p == 0 {
      assert EndIndex(0, limit) == 0;
    } else {
      PagesTile(rows, limit, p - 1);
      var start, end := StartIndex(p, limit), EndIndex(p, limit);
      assert start == EndIndex(p - 1, limit);
      var w := Window(rows, start, limit);
      if start < |rows| {
        assert w == rows[start..Min(end, |rows|)];
        assert rows[..start] + rows[start..Min(end, |rows|)] == rows[..Min(end, |rows|)];
      } else {
        assert w == [];
      }
    }
  }

  /** Because `total` counts the whole collection and not the matching
      documents, a request can be told of a next page that holds nothing:
      two documents of which the filter matches one, one per page. */
  lemma NextLinkCanPointPastResults()
    ensures
      var store := Store([1, 2], (f: string, s: Option<string>, o: Option<string>) => true, (f: string, d: int) => d == 1, (k: string, xs: seq<int>) => xs,
                         (k: string, d: int) => d, (p: Populate, d: int) => d);
      var query := map["limit" := "1"];
      var rows := Arranged(store, (q: Query) => "{}", query);
      var end := EndIndex(PageNumber(query), LimitNumber(query));
      end < |store.docs| && Window(rows, end, LimitNumber(query)) == []
  {
    var query := map["limit" := "1"];
    NumberRoundTrip(map[], "limit", 1, DefaultLimit);
    assert ParseInt.Show(1) == "1";
    assert map[]["limit" := "1"] == query;
    assert LimitNumber(query) == 1;
    assert PageNumber(query) == 1;
  }

  /** The other direction holds: with no next link there is no further
      matching document, as long as sorting does not add documents. */
  lemma NoNextLinkMeansNoMoreResults<D>(store: Store<D>, stringify: Query -> string, query: Query)
    requires |Arranged(store, stringify, query)|
          <= |Matching(store.docs, FilterText(stringify, query), store.matches)|
    requires EndIndex(PageNumber(query), LimitNumber(query)) >= |store.docs|
    ensures Window(Arranged(store, stringify, query), EndIndex(PageNumber(query), LimitNumber(query)),
                   LimitNumber(query)) == []
  {
  }
}
