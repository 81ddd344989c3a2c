/**
  app/api/admin/facilities/route.ts: listing facilities by name with an
  optional name search, and creating a facility.
 */
module FacilitiesRoute {
  import opened JsText
  import opened Api

  const NameError: string := "Name is required"
  const CreateError: string := "Failed to create facility"

  /** The `where` object: nothing, or a case-insensitive `contains` on the name. */
  datatype FacilityWhere = FacilityWhere(nameContains: Option<string>)

  datatype FacilityQuery = FindMany(where: FacilityWhere, orderBy: Order)

  datatype FacilityBody = FacilityBody(name: Option<string>, description: Option<string>, imageUrl: Option<string>)

  datatype Facility = Facility(name: string, description: Option<string>, imageUrl: Option<string>)

  predicate FacilityMatches(w: FacilityWhere, f: Facility) {
    w.nameContains.None? || ContainsInsensitive(f.name, w.nameContains.value)
  }

  /** GET: 401 without a session; a non-empty search filters on the name only;
      facilities come ordered by name, ascending. */
  function ListFacilities(session: bool, search: Option<string>): (resp: Response<FacilityQuery>)
    ensures !session ==> resp == JsonError(401, UnauthorizedError)
    ensures session ==> resp.Json? && resp.status == 200 && resp.value.orderBy == NameAsc
    ensures session && !Truthy(search) ==> forall f :: FacilityMatches(resp.value.where, f)
    ensures session && Truthy(search) ==> resp.value.where.nameContains == search
  {
    if !session then JsonError(401, UnauthorizedError)
    else Json(200, FindMany(FacilityWhere(if Truthy(search) then search else None), NameAsc))
  }

  /** Validation and normalisation: a name that is missing or blank once
      trimmed is refused; the name is stored trimmed, description and image
      URL as given (not trimmed) or null when empty. */
  function NewFacility(b: FacilityBody): (r: Result<Facility, string>)
    ensures r.Failure? <==> !Truthy(b.name) || Trim(b.name.value) == ""
    ensures r.Failure? ==> r.error == NameError
    ensures r.Success? ==> r.value.name == Trim(b.name.value) && r.value.name != "" && IsTrimmed(r.value.name)
    ensures r.Success? ==> r.value.description == OrNull(b.description) && r.value.imageUrl == OrNull(b.imageUrl)
  {
    if !Truthy(b.name) || Trim(b.name.value) == "" then Failure(NameError)
    else
      Success(Facility(
        Trim(b.name.value),
        if Truthy(b.description) then b.description else None,
        if Truthy(b.imageUrl) then b.imageUrl else None))
  }

  /** POST: 401 without a session, 500 when the body is not JSON or the row is
      refused, 400 for a blank name, 201 with the stored facility otherwise;
      only a stored facility revalidates the public and the admin lists. */
  method CreateFacility(session: bool, body: Option<FacilityBody>, dbAccepts: bool, db: Table<Facility>, cache: PageCache)
    returns (resp: Response<Facility>)
    modifies db, cache
    ensures !session ==> resp == JsonError(401, UnauthorizedError)
    ensures session && body.None? ==> resp == JsonError(500, CreateError)
    ensures session && body.Some? && NewFacility(body.value).Failure? ==> resp == JsonError(400, NameError)
    ensures session && body.Some? && NewFacility(body.value).Success? ==>
      resp == if dbAccepts then Json(201, NewFacility(body.value).value) else JsonError(500, CreateError)
    ensures db.rows == if resp.Json? then old(db.rows) + [resp.value] else old(db.rows)
    ensures cache.revalidated ==
      if resp.Json? then old(cache.revalidated) + [Page("/sarana-prasarana"), Page("/admin/sarana")]
      else old(cache.revalidated)
  {
    if !session {
      return JsonError(401, UnauthorizedError);
    }
    if body.None? {
      return JsonError(500, CreateError);
    }
    var data := NewFacility(body.value);
    if data.Failure? {
      return JsonError(400, data.error);
    }
    if !dbAccepts {
      return JsonError(500, CreateError);
    }
    db.Create(data.value);
    cache.Revalidate([Page("/sarana-prasarana"), Page("/admin/sarana")]);
    resp := Json(201, data.value);
  }

  /** The stored name is already trimmed: sending it back unchanged is
      accepted and stores the same name. */
  lemma {:induction false} StoredNameIsStable(b: FacilityBody)
    requires NewFacility(b).Success?
    ensures var f := NewFacility(b).value;
      NewFacility(FacilityBody(Some(f.name), f.description, f.imageUrl)) == Success(f)
  {
    var f := NewFacility(b).value;
    TrimmedIsFixed(f.name);
  }

  /** A created facility is found by a search for any part of its name. */
  lemma {:induction false} CreatedFacilityIsFound(b: FacilityBody, i: nat, j: nat)
    requires NewFacility(b).Success?
    requires i < j <= |Trim(b.name.value)|
    ensures FacilityMatches(ListFacilities(true, Some(Trim(b.name.value)[i..j])).value.where, NewFacility(b).value)
  {
    var f := NewFacility(b).value;
    assert f.name == Trim(b.name.value);
    SearchFindsName(f, i, j);
  }

  /** A search for any non-empty part of a facility's name finds it. */
  lemma SearchFindsName(f: Facility, i: nat, j: nat)
    requires i < j <= |f.name|
    ensures FacilityMatches(ListFacilities(true, Some(f.name[i..j])).value.where, f)
  {
    SliceIsContainedInsensitive(f.name, i, j);
    assert ListFacilities(true, Some(f.name[i..j])).value.where.nameContains == Some(f.name[i..j]);
  }
}
