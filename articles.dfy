/** The articles repository: the filtered listing query with its positional parameters, the feed,
    and the assembly of an article from a result row and its author's profile. */
module ArticlesRepository {
  import opened Wrappers
  import opened Store
  import opened ProfilesRepository

  /** A result row of the listing queries: the article's columns and its author's username, which the
      author sub-select gives as NULL once the author's user row is deleted (`author_id` is then set
      to NULL). */
  datatype ArticleRow = ArticleRow(
    id: int,
    slug: string,
    title: string,
    description: string,
    body: string,
    createdAt: int,
    updatedAt: int,
    authorUsername: Option<string>)

  /** The Article domain model; timestamps are opaque instants. */
  datatype Article = Article(
    id: int,
    slug: string,
    title: string,
    description: string,
    body: string,
    image: string,
    tags: seq<string>,
    author: Profile,
    favorited: bool,
    favoritesCount: int,
    createdAt: int,
    updatedAt: int)

  /** `favorites_count=0 if requested_user else False`: the declared int field takes False as 0. */
  function FavoritesCountDefault(requestedUser: Option<string>): (n: int)
    ensures n == 0
  {
    if requestedUser.Some? then 0 else 0  // False, which the int field holds as 0
  }

  /** _get_article_from_db_record: the row's columns, `slug` from the argument, the author resolved by
      the profiles repository, and placeholder values for image, tags, favorited and favorites_count. */
  function GetArticleFromDbRecord(t: Tables, row: ArticleRow, slug: string, authorUsername: string,
                                  requestedUser: Option<string>): (r: Result<Article, DbError>)
    ensures var author := GetProfileByUsername(t, authorUsername, requestedUser);
      && (r.Failure? <==> author.Failure?)
      && (r.Failure? ==> r.error == author.error)
      && (r.Success? ==> r.value.author == author.value)
    ensures r.Success? ==>
      && r.value.id == row.id && r.value.slug == slug && r.value.title == row.title
      && r.value.description == row.description && r.value.body == row.body
      && r.value.createdAt == row.createdAt && r.value.updatedAt == row.updatedAt
    ensures r.Success? ==>
      r.value.image == "" && r.value.tags == [] && !r.value.favorited && r.value.favoritesCount == 0
  {
    match GetProfileByUsername(t, authorUsername, requestedUser)
    case Failure(e) => Failure(e)
    case Success(author) =>
      Success(Article(
        row.id, slug, row.title, row.description, row.body, "", [], author,
        false, FavoritesCountDefault(requestedUser), row.createdAt, row.updatedAt))
  }

  /** The message the user lookup raises for a NULL username: Python formats None as "None". */
  const NO_AUTHOR_ERROR: DbError := EntityDoesNotExist("user with username None does not exist")

  /** Whether the row names an author that has a user row. */
  predicate AuthorExists(t: Tables, row: ArticleRow)
  {
    row.authorUsername.Some? && UsernameTaken(t, row.authorUsername.value)
  }

  /** The article a row stands for, as both listings build it: GetArticleFromDbRecord's contract
      gives its fields. A NULL author is looked up as `username=None`, which `=` matches against
      no row, so the lookup fails whatever the users are called. */
  function ArticleOfRow(t: Tables, row: ArticleRow, requestedUser: Option<string>): (r: Result<Article, DbError>)
    ensures r.Success? <==> AuthorExists(t, row)
    ensures row.authorUsername.None? ==> r == Failure(NO_AUTHOR_ERROR)
    ensures row.authorUsername.Some? ==>
      r == GetArticleFromDbRecord(t, row, row.slug, row.authorUsername.value, requestedUser)
  {
    match row.authorUsername
    case None => Failure(NO_AUTHOR_ERROR)
    case Some(name) => GetArticleFromDbRecord(t, row, row.slug, name, requestedUser)
  }

  /** An awaited list comprehension: `f` applied to every element in order, the first failure ending
      the whole list with its error. */
  function MapResult<A, B, E>(f: A -> Result<B, E>, xs: seq<A>): Result<seq<B>, E>
  {
    if xs == [] then Success([])
    else
      match f(xs[0])
      case Failure(e) => Failure(e)
      case Success(first) =>
        match MapResult(f, xs[1..])
        case Failure(e) => Failure(e)
        case Success(rest) => Success([first] + rest)
  }

  /** The comprehension succeeds exactly when every element does, and then holds each element's value
      in order. */
  lemma {:induction false} MapResultSuccess<A, B, E>(f: A -> Result<B, E>, xs: seq<A>)
    ensures var r := MapResult(f, xs);
      && (r.Success? <==> forall i :: 0 <= i < |xs| ==> f(xs[i]).Success?)
      && (r.Success? ==> |r.value| == |xs|)
      && (r.Success? ==> forall i :: 0 <= i < |xs| ==> f(xs[i]) == Success(r.value[i]))
  {
    if xs != [] {
      MapResultSuccess(f, xs[1..]);
      assert forall i :: 1 <= i < |xs| ==> xs[i] == xs[1..][i - 1];
      var r := MapResult(f, xs);
      var rest := MapResult(f, xs[1..]);
      if r.Success? {
        assert forall i :: 1 <= i < |xs| ==> r.value[i] == rest.value[i - 1];
      }
    }
  }

  /** A failed comprehension carries the error of its first failing element. */
  lemma {:induction false} MapResultFailure<A, B, E>(f: A -> Result<B, E>, xs: seq<A>)
    ensures var r := MapResult(f, xs);
      r.Failure? ==> exists i :: (0 <= i < |xs| && f(xs[i]) == Failure(r.error)
                                  && forall j :: 0 <= j < i ==> f(xs[j]).Success?)
  {
    var r := MapResult(f, xs);
    if xs != [] && r.Failure? && f(xs[0]).Success? {
      MapResultFailure(f, xs[1..]);
      var i :| 0 <= i < |xs[1..]| && f(xs[1..][i]) == Failure(r.error)
               && forall j :: 0 <= j < i ==> f(xs[1..][j]).Success?;
      assert xs[i + 1] == xs[1..][i];
      assert forall j :: 1 <= j < i + 1 ==> xs[j] == xs[1..][j - 1];
    }
  }

  /** The list comprehension over the fetched rows: one article per row, in row order; the first row
      whose author cannot be resolved ends the call with that error. */
  function ArticlesFromRows(t: Tables, rows: seq<ArticleRow>, requestedUser: Option<string>): Result<seq<Article>, DbError>
  {
    MapResult(row => ArticleOfRow(t, row, requestedUser), rows)
  }

  /** The listing succeeds exactly when every row's author exists, and then holds one article per row,
      each the one its row stands for, in row order. */
  lemma ArticlesFromRowsSuccess(t: Tables, rows: seq<ArticleRow>, requestedUser: Option<string>)
    ensures var r := ArticlesFromRows(t, rows, requestedUser);
      && (r.Success? <==> forall i :: 0 <= i < |rows| ==> AuthorExists(t, rows[i]))
      && (r.Success? ==> |r.value| == |rows|)
      && (r.Success? ==> forall i :: 0 <= i < |rows| ==> ArticleOfRow(t, rows[i], requestedUser) == Success(r.value[i]))
  {
    MapResultSuccess(row => ArticleOfRow(t, row, requestedUser), rows);
  }

  /** A failed listing reports the error of the first row whose author does not exist. */
  lemma ArticlesFromRowsFailure(t: Tables, rows: seq<ArticleRow>, requestedUser: Option<string>)
    ensures var r := ArticlesFromRows(t, rows, requestedUser);
      r.Failure? ==> exists i :: (0 <= i < |rows| && ArticleOfRow(t, rows[i], requestedUser) == Failure(r.error)
                                  && forall j :: 0 <= j < i ==> AuthorExists(t, rows[j]))
  {
    MapResultFailure(row => ArticleOfRow(t, row, requestedUser), rows);
  }

  /** One article whose author was deleted fails the whole listing, even when a user called "None"
      exists. */
  lemma DeletedAuthorFailsListing(t: Tables, rows: seq<ArticleRow>, requestedUser: Option<string>, k: int)
    requires 0 <= k < |rows| && rows[k].authorUsername.None?
    ensures ArticlesFromRows(t, rows, requestedUser).Failure?
  {
    ArticlesFromRowsSuccess(t, rows, requestedUser);
    assert !AuthorExists(t, rows[k]);
  }

  /** get_articles_for_feed: `fetchFeed` is the feed query, run with the page bounds. Every article
      belongs to the row in the same position and carries that row's author, seen by the requester. */
  function GetArticlesForFeed(t: Tables, fetchFeed: (int, int) -> seq<ArticleRow>, requestedUser: string,
                              limit: int := 20, offset: int := 0): (r: Result<seq<Article>, DbError>)
    ensures var rows := fetchFeed(limit, offset);
      && (r.Success? <==> forall i :: 0 <= i < |rows| ==> AuthorExists(t, rows[i]))
      && (r.Success? ==> |r.value| == |rows|)
      && (r.Success? ==> forall i :: 0 <= i < |rows| ==>
            && r.value[i].id == rows[i].id && r.value[i].slug == rows[i].slug
            && Some(r.value[i].author.username) == rows[i].authorUsername
            && (r.value[i].author.following <==> (requestedUser, rows[i].authorUsername.value) in t.followers))
    ensures var rows := fetchFeed(limit, offset);
      r.Success? ==> forall i :: 0 <= i < |rows| ==> ArticleOfRow(t, rows[i], Some(requestedUser)) == Success(r.value[i])
  {
    var rows := fetchFeed(limit, offset);
    ArticlesFromRowsSuccess(t, rows, Some(requestedUser));
    ArticlesFromRows(t, rows, Some(requestedUser))
  }

  // ---------------------------------------------------------------------------------------------
  // The filtered listing query

  /** The join a filter attaches: the tag sub-select, the author sub-select, the favorites join. */
  datatype JoinKind = TagJoin | AuthorJoin | FavoritedJoin

  /** One attached join and the placeholder its sub-select compares against. */
  datatype Join = Join(kind: JoinKind, placeholder: nat)

  /** The listing query apart from its fixed SELECT list: its joins in order, then LIMIT and OFFSET
      placeholders. */
  datatype Query = Query(joins: seq<Join>, limitPlaceholder: nat, offsetPlaceholder: nat)

  /** A bound query parameter. */
  datatype Param = PStr(s: string) | PInt(i: int)

  /** A filter is applied only when its value is truthy: neither None nor "". */
  predicate Active(v: Option<string>)
  {
    v.Some? && v.value != ""
  }

  /** The value a filter of the given kind was given. */
  function FilterValue(kind: JoinKind, tag: Option<string>, author: Option<string>, favorited: Option<string>): Option<string>
  {
    match kind
    case TagJoin => tag
    case AuthorJoin => author
    case FavoritedJoin => favorited
  }

  /** The position of a filter in the fixed order tag, author, favorited. */
  function Rank(kind: JoinKind): nat
  {
    match kind
    case TagJoin => 0
    case AuthorJoin => 1
    case FavoritedJoin => 2
  }

  /** The active filters and their values, in the fixed order. */
  function ActiveFilters(tag: Option<string>, author: Option<string>, favorited: Option<string>): seq<(JoinKind, string)>
  {
    (if Active(tag) then [(TagJoin, tag.value)] else [])
      + (if Active(author) then [(AuthorJoin, author.value)] else [])
      + (if Active(favorited) then [(FavoritedJoin, favorited.value)] else [])
  }

  /** How many active filters come before a filter of the given kind. */
  function ActiveBefore(kind: JoinKind, tag: Option<string>, author: Option<string>, favorited: Option<string>): nat
  {
    (if Rank(kind) > 0 && Active(tag) then 1 else 0) + (if Rank(kind) > 1 && Active(author) then 1 else 0)
  }

  /** The placeholders of a query in the order they occur in its text. */
  function PlaceholderSequence(q: Query): seq<nat>
  {
    seq(|q.joins|, i requires 0 <= i < |q.joins| => q.joins[i].placeholder) + [q.limitPlaceholder, q.offsetPlaceholder]
  }

  /** The joins of the given active filters: the i-th at placeholder i + 1. */
  function JoinsOf(active: seq<(JoinKind, string)>): seq<Join>
  {
    seq(|active|, i requires 0 <= i < |active| => Join(active[i].0, i + 1))
  }

  /** The values the given active filters bind, in order. */
  function ValuesOf(active: seq<(JoinKind, string)>): seq<Param>
  {
    seq(|active|, i requires 0 <= i < |active| => PStr(active[i].1))
  }

  /** The listing query for the given filters: the active filters' joins, LIMIT and OFFSET at the two
      placeholders after them. */
  function FilterQuery(tag: Option<string>, author: Option<string>, favorited: Option<string>): Query
  {
    var active := ActiveFilters(tag, author, favorited);
    Query(JoinsOf(active), |active| + 1, |active| + 2)
  }

  /** The parameters bound to that query: the active filters' values, then limit and offset. */
  function FilterParams(tag: Option<string>, author: Option<string>, favorited: Option<string>, limit: int, offset: int): seq<Param>
  {
    ValuesOf(ActiveFilters(tag, author, favorited)) + [PInt(limit), PInt(offset)]
  }

  /** One more applied filter adds one join at the next placeholder and one value. */
  lemma ApplyOneMore(active: seq<(JoinKind, string)>, kind: JoinKind, value: Option<string>)
    ensures var next := active + (if Active(value) then [(kind, value.value)] else []);
      && JoinsOf(next) == JoinsOf(active) + (if Active(value) then [Join(kind, |active| + 1)] else [])
      && ValuesOf(next) == ValuesOf(active) + (if Active(value) then [PStr(value.value)] else [])
  {
    if !Active(value) {
      assert active + [] == active;
    }
  }

  /** One `if <filter>:` block of filter_articles: a truthy value is appended to the parameters, the
      counter moves on, and the filter's join takes the new count as its placeholder. `applied` is
      the list of filters applied so far. */
  method ApplyFilter(kind: JoinKind, value: Option<string>, params: seq<Param>, count: nat, joins: seq<Join>,
                     ghost applied: seq<(JoinKind, string)>)
    returns (params': seq<Param>, count': nat, joins': seq<Join>)
    requires joins == JoinsOf(applied) && params == ValuesOf(applied) && count == |applied|
    ensures var next := applied + (if Active(value) then [(kind, value.value)] else []);
      joins' == JoinsOf(next) && params' == ValuesOf(next) && count' == |next|
  {
    ApplyOneMore(applied, kind, value);
    params', count', joins' := params, count, joins;
    if Active(value) {
      params' := params' + [PStr(value.value)];
      count' := count' + 1;
      joins' := joins' + [Join(kind, count')];
    }
  }

  /** The query-building half of filter_articles: each active filter, in the fixed order, appends its
      value and takes the next placeholder; LIMIT and OFFSET take the two after them. */
  method BuildFilterQuery(tag: Option<string>, author: Option<string>, favorited: Option<string>, limit: int, offset: int)
    returns (q: Query, params: seq<Param>)
    ensures q == FilterQuery(tag, author, favorited)
    ensures params == FilterParams(tag, author, favorited, limit, offset)
  {
    var count: nat, joins: seq<Join>;
    ghost var applied: seq<(JoinKind, string)> := [];
    assert JoinsOf([]) == [] && ValuesOf([]) == [];

    params, count, joins := ApplyFilter(TagJoin, tag, [], 0, [], applied);
    applied := applied + (if Active(tag) then [(TagJoin, tag.value)] else []);
    params, count, joins := ApplyFilter(AuthorJoin, author, params, count, joins, applied);
    applied := applied + (if Active(author) then [(AuthorJoin, author.value)] else []);
    params, count, joins := ApplyFilter(FavoritedJoin, favorited, params, count, joins, applied);
    applied := applied + (if Active(favorited) then [(FavoritedJoin, favorited.value)] else []);
    assert applied == ActiveFilters(tag, author, favorited);

    q := Query(joins, count + 1, count + 2);
    params := params + [PInt(limit), PInt(offset)];
  }

  /** filter_articles: build the query, run it through `fetch` (the connection's fetch), and assemble
      one article per returned row. */
  method FilterArticles(t: Tables, fetch: (Query, seq<Param>) -> seq<ArticleRow>,
                        tag: Option<string> := None, author: Option<string> := None,
                        favorited: Option<string> := None, limit: int := 20, offset: int := 0,
                        requestedUser: Option<string> := None)
    returns (r: Result<seq<Article>, DbError>)
    ensures r == ArticlesFromRows(t, fetch(FilterQuery(tag, author, favorited), FilterParams(tag, author, favorited, limit, offset)), requestedUser)
  {
    var query, params := BuildFilterQuery(tag, author, favorited, limit, offset);
    var rows := fetch(query, params);
    r := ArticlesFromRows(t, rows, requestedUser);
  }

  /** The bound parameters match the placeholder sequence: k active filters give k + 2 parameters and
      placeholders 1..k+2 in query order; every join's placeholder selects its own filter's value, and
      the last two select limit then offset. */
  lemma FilterQueryBinding(tag: Option<string>, author: Option<string>, favorited: Option<string>, limit: int, offset: int)
    ensures var q := FilterQuery(tag, author, favorited);
      var params := FilterParams(tag, author, favorited, limit, offset);
      && |q.joins| == |ActiveFilters(tag, author, favorited)|
      && |params| == |q.joins| + 2
      && |PlaceholderSequence(q)| == |params|
      && (forall i :: 0 <= i < |params| ==> PlaceholderSequence(q)[i] == i + 1)
      && (forall i :: 0 <= i < |q.joins| ==>
            1 <= q.joins[i].placeholder <= |params|
            && Some(params[q.joins[i].placeholder - 1].s) == FilterValue(q.joins[i].kind, tag, author, favorited))
      && q.limitPlaceholder == |params| - 1 && params[q.limitPlaceholder - 1] == PInt(limit)
      && q.offsetPlaceholder == |params| && params[q.offsetPlaceholder - 1] == PInt(offset)
  {
    var active := ActiveFilters(tag, author, favorited);
    ActiveFiltersInOrder(tag, author, favorited);
    var q := FilterQuery(tag, author, favorited);
    var params := FilterParams(tag, author, favorited, limit, offset);
    forall i | 0 <= i < |q.joins|
      ensures Some(params[q.joins[i].placeholder - 1].s) == FilterValue(q.joins[i].kind, tag, author, favorited)
    {
      assert q.joins[i] == Join(active[i].0, i + 1);
      assert params[i] == PStr(active[i].1);
    }
  }

  /** With no active filter the query joins nothing and binds exactly [limit, offset] at 1 and 2. */
  lemma NoActiveFilter(tag: Option<string>, author: Option<string>, favorited: Option<string>, limit: int, offset: int)
    requires !Active(tag) && !Active(author) && !Active(favorited)
    ensures FilterQuery(tag, author, favorited) == Query([], 1, 2)
    ensures FilterParams(tag, author, favorited, limit, offset) == [PInt(limit), PInt(offset)]
  {
    assert ActiveFilters(tag, author, favorited) == [];
  }

  // ---------------------------------------------------------------------------------------------
  // Properties of the filter order

  /** Filters are joined in the fixed order, each at most once, and each carries its own value. */
  lemma ActiveFiltersInOrder(tag: Option<string>, author: Option<string>, favorited: Option<string>)
    ensures var active := ActiveFilters(tag, author, favorited);
      && |active| <= 3
      && (forall i, j :: 0 <= i < j < |active| ==> Rank(active[i].0) < Rank(active[j].0))
      && (forall i :: 0 <= i < |active| ==> FilterValue(active[i].0, tag, author, favorited) == Some(active[i].1))
  {
  }

  /** A filter is joined exactly when its value is truthy; None and "" attach nothing. */
  lemma ActiveFiltersPresence(tag: Option<string>, author: Option<string>, favorited: Option<string>, kind: JoinKind)
    ensures var active := ActiveFilters(tag, author, favorited);
      (exists i :: 0 <= i < |active| && active[i].0 == kind) <==> Active(FilterValue(kind, tag, author, favorited))
  {
    var active := ActiveFilters(tag, author, favorited);
    if Active(FilterValue(kind, tag, author, favorited)) {
      var i := ActiveBefore(kind, tag, author, favorited);
      assert active[i].0 == kind;
    }
  }

  /** Placeholders are taken when a filter is applied, never reserved: a filter's placeholder is one
      more than the number of active filters before it, so an inactive filter shifts nothing. */
  lemma PlaceholderCountsEarlierFilters(tag: Option<string>, author: Option<string>, favorited: Option<string>, i: int)
    requires 0 <= i < |ActiveFilters(tag, author, favorited)|
    ensures i == ActiveBefore(ActiveFilters(tag, author, favorited)[i].0, tag, author, favorited)
  {
  }

  /** A single tag filter on the first page binds ["rust", 20, 0] and joins only the tag sub-select. */
  lemma TagOnlyExample()
    ensures FilterQuery(Some("rust"), None, None) == Query([Join(TagJoin, 1)], 2, 3)
    ensures FilterParams(Some("rust"), None, None, 20, 0) == [PStr("rust"), PInt(20), PInt(0)]
  {
    assert ActiveFilters(Some("rust"), None, None) == [(TagJoin, "rust")];
  }
}
