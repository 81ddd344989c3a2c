/**
  app/api/admin/gallery/route.ts: listing gallery items newest first and
  adding an item from a URL and an optional caption.
 */
module GalleryRoute {
  import opened JsText
  import opened Api

  const UrlError: string := "URL is required"
  const CreateError: string := "Failed to create gallery item"

  datatype GalleryBody = GalleryBody(url: Option<string>, caption: Option<string>)

  datatype GalleryItem = GalleryItem(url: string, caption: Option<string>)

  /** The query GET issues: every item, newest first. */
  datatype GalleryQuery = FindMany(orderBy: Order)

  /** GET: 401 without a session, otherwise all items, newest first. */
  function ListGallery(session: bool): (resp: Response<GalleryQuery>)
    ensures session <==> resp.Json?
    ensures !session ==> resp == JsonError(401, UnauthorizedError)
    ensures session ==> resp.status == 200 && resp.value.orderBy == CreatedAtDesc
  {
    if !session then JsonError(401, UnauthorizedError) else Json(200, FindMany(CreatedAtDesc))
  }

  /** Validation and normalisation: the URL must be present and non-empty and
      is stored as given (not trimmed); an empty caption becomes null. */
  function NewGalleryItem(b: GalleryBody): (r: Result<GalleryItem, string>)
    ensures r.Failure? <==> !Truthy(b.url)
    ensures r.Failure? ==> r.error == UrlError
    ensures r.Success? ==> r.value.url == b.url.value && r.value.url != ""
    ensures r.Success? ==> r.value.caption == OrNull(b.caption)
    ensures r.Success? ==> r.value.caption.None? || r.value.caption.value != ""
  {
    if !Truthy(b.url) then Failure(UrlError)
    else Success(GalleryItem(b.url.value, if Truthy(b.caption) then b.caption else None))
  }

  /** POST: 401 without a session, 500 when the body is not JSON or the row is
      refused, 400 without a URL; only a stored item revalidates the home
      layout and the gallery page. */
  method CreateGalleryItem(session: bool, body: Option<GalleryBody>, dbAccepts: bool, db: Table<GalleryItem>, cache: PageCache)
    returns (resp: Response<GalleryItem>)
    modifies db, cache
    ensures !session ==> resp == JsonError(401, UnauthorizedError)
    ensures session && body.None? ==> resp == JsonError(500, CreateError)
    ensures session && body.Some? && !Truthy(body.value.url) ==> resp == JsonError(400, UrlError)
    ensures session && body.Some? && Truthy(body.value.url) ==>
      resp == if dbAccepts then Json(200, NewGalleryItem(body.value).value) else JsonError(500, CreateError)
    ensures db.rows == if resp.Json? then old(db.rows) + [resp.value] else old(db.rows)
    ensures cache.revalidated ==
      if resp.Json? then old(cache.revalidated) + [Layout("/"), Page("/galeri")] else old(cache.revalidated)
  {
    if !session {
      return JsonError(401, UnauthorizedError);
    }
    if body.None? {
      return JsonError(500, CreateError);
    }
    var data := NewGalleryItem(body.value);
    if data.Failure? {
      return JsonError(400, data.error);
    }
    if !dbAccepts {
      return JsonError(500, CreateError);
    }
    db.Create(data.value);
    cache.Revalidate([Layout("/"), Page("/galeri")]);
    resp := Json(200, data.value);
  }

  /** A stored item sent back unchanged is accepted again as the same item:
      the normalisation is idempotent. */
  lemma {:induction false} StoredItemIsStable(b: GalleryBody)
    requires NewGalleryItem(b).Success?
    ensures var item := NewGalleryItem(b).value;
      NewGalleryItem(GalleryBody(Some(item.url), item.caption)) == Success(item)
  {
    var item := NewGalleryItem(b).value;
    assert item.caption.Some? ==> Truthy(item.caption);
  }
}
