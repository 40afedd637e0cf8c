/** Request schemas of the articles resource: the listing filters with their defaults and bounds,
    and the create-article body. */
module ArticleSchemas {
  import opened Wrappers

  const DEFAULT_ARTICLES_LIMIT: int := 20
  const DEFAULT_ARTICLES_OFFSET: int := 0

  /** ArticlesFilters after validation. */
  datatype ArticlesFilters = ArticlesFilters(
    tag: Option<string>,
    author: Option<string>,
    favorited: Option<string>,
    limit: int,
    offset: int)

  /** A `ge` constraint that failed: the field and its lower bound. */
  datatype FieldError = GreaterOrEqual(field: string, bound: int)

  /** `errors` reports a violation of the bound on `field`. */
  predicate Reports(errors: seq<FieldError>, field: string)
  {
    exists i :: 0 <= i < |errors| && errors[i].field == field
  }

  /** Pydantic validation of ArticlesFilters: `limit >= 1` and `offset >= 0`, every violation reported
      in field order. */
  function NewArticlesFilters(
    tag: Option<string> := None,
    author: Option<string> := None,
    favorited: Option<string> := None,
    limit: int := DEFAULT_ARTICLES_LIMIT,
    offset: int := DEFAULT_ARTICLES_OFFSET): (r: Result<ArticlesFilters, seq<FieldError>>)
    ensures r.Success? <==> limit >= 1 && offset >= 0
    ensures r.Success? ==> r.value == ArticlesFilters(tag, author, favorited, limit, offset)
    ensures r.Failure? ==> (Reports(r.error, "limit") <==> limit < 1)
    ensures r.Failure? ==> (Reports(r.error, "offset") <==> offset < 0)
    ensures r.Failure? ==> forall i :: 0 <= i < |r.error| ==>
      r.error[i] == GreaterOrEqual("limit", 1) || r.error[i] == GreaterOrEqual("offset", 0)
    ensures r.Failure? && |r.error| == 2 ==> r.error[0].field == "limit"
  {
    var errors := (if limit < 1 then [GreaterOrEqual("limit", 1)] else [])
                + (if offset < 0 then [GreaterOrEqual("offset", 0)] else []);
    if errors == [] then Success(ArticlesFilters(tag, author, favorited, limit, offset))
    else
      assert limit < 1 ==> errors[0].field == "limit";
      assert offset < 0 ==> errors[|errors| - 1].field == "offset";
      Failure(errors)
  }

  /** With nothing given, no filter is set and the page is the first twenty articles. */
  lemma ArticlesFiltersDefaults()
    ensures NewArticlesFilters() == Success(ArticlesFilters(None, None, None, 20, 0))
  {
  }

  /** The body of a create-article request; the tag list may be left out. */
  datatype RequestCreateArticle = RequestCreateArticle(
    title: string,
    description: string,
    body: string,
    image: string,
    tags: seq<string> := [])

  lemma RequestCreateArticleTagsDefault(title: string, description: string, body: string, image: string)
    ensures RequestCreateArticle(title, description, body, image).tags == []
  {
  }
}
