/**
  app/api/admin/posts/route.ts: listing posts with optional type, status and
  title filters, and creating a post from a JSON body.
 */
module PostsRoute {
  import opened JsText
  import opened Api

  const RequiredError: string := "Title and type are required"
  const CreateError: string := "Failed to create post"
  const DefaultStatus: string := "DRAFT"
  const AllValues: string := "all"

  /** The `type`, `status` and `search` query parameters (null when absent). */
  datatype PostParams = PostParams(postType: Option<string>, status: Option<string>, search: Option<string>)

  /** The `where` object: equality on type and status, and a case-insensitive
      `contains` on the title. */
  datatype PostWhere = PostWhere(postType: Option<string>, status: Option<string>, titleContains: Option<string>)

  datatype PostQuery = FindMany(where: PostWhere, orderBy: Order)

  /** The JSON body of a create request; `body` is the post's content. */
  datatype PostBody = PostBody(
    title: Option<string>, postType: Option<string>, body: Option<string>,
    date: Option<string>, featuredImage: Option<string>, status: Option<string>)

  /** The `data` of a created post. */
  datatype Post = Post(
    title: string, postType: string, body: Option<string>,
    date: Option<string>, featuredImage: Option<string>, status: string)

  /** A parameter narrows the list when it is present, non-empty and not 'all'. */
  predicate Selects(param: Option<string>) {
    Truthy(param) && param.value != AllValues
  }

  /** The filter a GET request builds: a type and a status condition, upper
      cased, only for parameters that select something, and a title
      condition only for a non-empty search. */
  predicate FilterFor(params: PostParams, w: PostWhere) {
    (if Selects(params.postType) then w.postType == Some(ToUpperCase(params.postType.value)) else w.postType == None) &&
    (if Selects(params.status) then w.status == Some(ToUpperCase(params.status.value)) else w.status == None) &&
    (if Truthy(params.search) then w.titleContains == params.search else w.titleContains == None)
  }

  /** What the database returns for a filter: each condition present holds. */
  predicate PostMatches(w: PostWhere, p: Post) {
    (w.postType.None? || p.postType == w.postType.value) &&
    (w.status.None? || p.status == w.status.value) &&
    (w.titleContains.None? || ContainsInsensitive(p.title, w.titleContains.value))
  }

  /** GET: 401 without a session; otherwise the `where` object is built one
      condition at a time and the posts are requested newest first. */
  method ListPosts(session: bool, params: PostParams) returns (resp: Response<PostQuery>)
    ensures !session ==> resp == JsonError(401, UnauthorizedError)
    ensures session ==> resp.Json? && resp.status == 200 && resp.value.orderBy == CreatedAtDesc
    ensures session ==> FilterFor(params, resp.value.where)
  {
    if !session {
      return JsonError(401, UnauthorizedError);
    }
    var where := PostWhere(None, None, None);
    if Truthy(params.postType) && params.postType.value != AllValues {
      where := where.(postType := Some(ToUpperCase(params.postType.value)));
    }
    if Truthy(params.status) && params.status.value != AllValues {
      where := where.(status := Some(ToUpperCase(params.status.value)));
    }
    if Truthy(params.search) {
      where := where.(titleContains := params.search);
    }
    resp := Json(200, FindMany(where, CreatedAtDesc));
  }

  /** The validation and normalisation of a create request: title and type
      are required; the type is stored upper cased, the status upper cased or
      "DRAFT" when missing or empty, and a missing date as null. */
  function NewPost(b: PostBody): (r: Result<Post, string>)
    ensures r.Failure? <==> !Truthy(b.title) || !Truthy(b.postType)
    ensures r.Failure? ==> r.error == RequiredError
    ensures r.Success? ==> r.value.title == b.title.value && r.value.title != ""
    ensures r.Success? ==> r.value.postType == ToUpperCase(b.postType.value) && IsUpperCase(r.value.postType)
    ensures r.Success? ==> r.value.status != "" && IsUpperCase(r.value.status)
    ensures r.Success? ==> (r.value.status == DefaultStatus <==> !Truthy(b.status) || ToUpperCase(b.status.value) == DefaultStatus)
    ensures r.Success? && Truthy(b.status) ==> r.value.status == ToUpperCase(b.status.value)
    ensures r.Success? ==> r.value.date == OrNull(b.date)
    ensures r.Success? ==> r.value.body == b.body && r.value.featuredImage == b.featuredImage
  {
    if !Truthy(b.title) || !Truthy(b.postType) then Failure(RequiredError)
    else
      var upperStatus := if b.status.Some? then ToUpperCase(b.status.value) else "";
      ToUpperCaseIsUpper(b.postType.value);
      ToUpperCaseIsUpper(upperStatus);
      Success(Post(
        b.title.value,
        ToUpperCase(b.postType.value),
        b.body,
        if Truthy(b.date) then b.date else None,
        b.featuredImage,
        if upperStatus != "" then upperStatus else DefaultStatus))
  }

  /** POST: 401 without a session, 500 when the body is not JSON, 400 when
      validation fails, 500 when the database refuses the row; only a stored
      post revalidates the home layout and the news page. */
  method CreatePost(session: bool, body: Option<PostBody>, dbAccepts: bool, db: Table<Post>, cache: PageCache)
    returns (resp: Response<Post>)
    modifies db, cache
    ensures !session ==> resp == JsonError(401, UnauthorizedError)
    ensures session && body.None? ==> resp == JsonError(500, CreateError)
    ensures session && body.Some? && NewPost(body.value).Failure? ==> resp == JsonError(400, RequiredError)
    ensures session && body.Some? && NewPost(body.value).Success? ==>
      resp == if dbAccepts then Json(200, NewPost(body.value).value) else JsonError(500, CreateError)
    ensures db.rows == if resp.Json? then old(db.rows) + [resp.value] else old(db.rows)
    ensures cache.revalidated ==
      if resp.Json? then old(cache.revalidated) + [Layout("/"), Page("/berita")] else old(cache.revalidated)
  {
    if !session {
      return JsonError(401, UnauthorizedError);
    }
    if body.None? {
      return JsonError(500, CreateError);
    }
    var data := NewPost(body.value);
    if data.Failure? {
      return JsonError(400, data.error);
    }
    if !dbAccepts {
      return JsonError(500, CreateError);
    }
    db.Create(data.value);
    cache.Revalidate([Layout("/"), Page("/berita")]);
    resp := Json(200, data.value);
  }

  /** A created post shows up in every listing whose type and status
      parameters name its type and status in any letter case (or select
      everything) and whose search is any part of its title. */
  lemma {:induction false} CreatedPostIsListed(b: PostBody, params: PostParams, w: PostWhere)
    requires NewPost(b).Success? && FilterFor(params, w)
    requires Selects(params.postType) ==> ToUpperCase(params.postType.value) == ToUpperCase(b.postType.value)
    requires Selects(params.status) ==> ToUpperCase(params.status.value) == NewPost(b).value.status
    requires Truthy(params.search) ==> exists i, j :: 0 <= i <= j <= |b.title.value| && params.search.value == b.title.value[i..j]
    ensures PostMatches(w, NewPost(b).value)
  {
    var p := NewPost(b).value;
    if Truthy(params.search) {
      var i, j :| 0 <= i <= j <= |p.title| && params.search.value == p.title[i..j];
      SliceIsContainedInsensitive(p.title, i, j);
    }
  }

  /** A type parameter that names another type hides the post. */
  lemma OtherTypeIsNotListed(b: PostBody, params: PostParams, w: PostWhere)
    requires NewPost(b).Success? && FilterFor(params, w)
    requires Selects(params.postType) && ToUpperCase(params.postType.value) != ToUpperCase(b.postType.value)
    ensures !PostMatches(w, NewPost(b).value)
  {
  }

  /** A post sent without a status is a draft and is listed under ?status=draft. */
  lemma UnsetStatusListedAsDraft(b: PostBody, w: PostWhere)
    requires NewPost(b).Success? && b.status.None?
    requires FilterFor(PostParams(None, Some("draft"), None), w)
    ensures NewPost(b).value.status == DefaultStatus
    ensures PostMatches(w, NewPost(b).value)
  {
    assert ToUpperCase("draft") == DefaultStatus;
  }
}
