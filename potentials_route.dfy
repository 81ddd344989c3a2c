/**
  app/api/admin/potentials/route.ts: listing the village's potentials with an
  optional search over name and description, and creating one.
 */
module PotentialsRoute {
  import opened JsText
  import opened Api

  const NameError: string := "Name is required (min 3 characters)"
  const CreateError: string := "Failed to create potential"
  const MinNameLength: nat := 3

  /** The `where` object: nothing, or a case-insensitive `contains` on the
      name OR on the description. */
  datatype PotentialWhere = MatchAll | NameOrDescContains(search: string)

  datatype PotentialQuery = FindMany(where: PotentialWhere, orderBy: Order)

  datatype PotentialBody = PotentialBody(
    name: Option<string>, desc: Option<string>, emoji: Option<string>, imageUrl: Option<string>)

  datatype Potential = Potential(
    name: string, desc: Option<string>, emoji: Option<string>, imageUrl: Option<string>)

  /** What the database returns for a filter (a null description contains nothing). */
  predicate PotentialMatches(w: PotentialWhere, p: Potential) {
    match w
    case MatchAll => true
    case NameOrDescContains(s) =>
      ContainsInsensitive(p.name, s) || (p.desc.Some? && ContainsInsensitive(p.desc.value, s))
  }

  /** GET: 401 without a session; a non-empty search filters on name or
      description, an absent or empty one filters nothing; newest first. */
  function ListPotentials(session: bool, search: Option<string>): (resp: Response<PotentialQuery>)
    ensures !session ==> resp == JsonError(401, UnauthorizedError)
    ensures session ==> resp.Json? && resp.status == 200 && resp.value.orderBy == CreatedAtDesc
    ensures session && !Truthy(search) ==> forall p :: PotentialMatches(resp.value.where, p)
    ensures session && Truthy(search) ==> resp.value.where == NameOrDescContains(search.value)
  {
    if !session then JsonError(401, UnauthorizedError)
    else
      var where := if Truthy(search) then NameOrDescContains(search.value) else MatchAll;
      Json(200, FindMany(where, CreatedAtDesc))
  }

  /** `x?.trim() || null`: trimmed, or null when missing or blank. */
  function TrimOrNull(o: Option<string>): (r: Option<string>)
    ensures r.None? <==> o.None? || Trim(o.value) == ""
    ensures r.Some? ==> r.value == Trim(o.value) && r.value != "" && IsTrimmed(r.value)
  {
    if o.Some? && Trim(o.value) != "" then Some(Trim(o.value)) else None
  }

  /** Validation and normalisation: the name must have a `length` of at least
      three (UTF-16 code units) once trimmed and is stored trimmed; description and emoji are
      stored trimmed or null; an empty image URL becomes null. */
  function NewPotential(b: PotentialBody): (r: Result<Potential, string>)
    ensures r.Failure? <==> !Truthy(b.name) || Utf16Length(Trim(b.name.value)) < MinNameLength
    ensures r.Failure? ==> r.error == NameError
    ensures r.Success? ==> r.value.name == Trim(b.name.value)
    ensures r.Success? ==> Utf16Length(r.value.name) >= MinNameLength && IsTrimmed(r.value.name)
    ensures r.Success? ==> r.value.desc == TrimOrNull(b.desc) && r.value.emoji == TrimOrNull(b.emoji)
    ensures r.Success? ==> r.value.imageUrl == OrNull(b.imageUrl)
  {
    if !Truthy(b.name) || Utf16Length(Trim(b.name.value)) < MinNameLength then Failure(NameError)
    else
      Success(Potential(
        Trim(b.name.value),
        if b.desc.Some? && Trim(b.desc.value) != "" then Some(Trim(b.desc.value)) else None,
        if b.emoji.Some? && Trim(b.emoji.value) != "" then Some(Trim(b.emoji.value)) else None,
        if Truthy(b.imageUrl) then b.imageUrl else None))
  }

  /** POST: 401 without a session, 500 when the body is not JSON or the row is
      refused, 400 for a short name; only a stored potential revalidates the
      home layout and the potentials page. */
  method CreatePotential(session: bool, body: Option<PotentialBody>, dbAccepts: bool, db: Table<Potential>, cache: PageCache)
    returns (resp: Response<Potential>)
    modifies db, cache
    ensures !session ==> resp == JsonError(401, UnauthorizedError)
    ensures session && body.None? ==> resp == JsonError(500, CreateError)
    ensures session && body.Some? && NewPotential(body.value).Failure? ==> resp == JsonError(400, NameError)
    ensures session && body.Some? && NewPotential(body.value).Success? ==>
      resp == if dbAccepts then Json(200, NewPotential(body.value).value) else JsonError(500, CreateError)
    ensures db.rows == if resp.Json? then old(db.rows) + [resp.value] else old(db.rows)
    ensures cache.revalidated ==
      if resp.Json? then old(cache.revalidated) + [Layout("/"), Page("/potensi")] else old(cache.revalidated)
    ensures AllNamesValid(old(db.rows)) ==> AllNamesValid(db.rows)
  {
    if !session {
      return JsonError(401, UnauthorizedError);
    }
    if body.None? {
      return JsonError(500, CreateError);
    }
    var data := NewPotential(body.value);
    if data.Failure? {
      return JsonError(400, data.error);
    }
    if !dbAccepts {
      return JsonError(500, CreateError);
    }
    AppendKeepsNamesValid(db.rows, data.value);
    db.Create(data.value);
    cache.Revalidate([Layout("/"), Page("/potensi")]);
    resp := Json(200, data.value);
  }

  /** The minimum is counted in UTF-16 code units, as JavaScript's `length`
      counts: an emoji followed by one letter is long enough, two letters
      are not. */
  lemma EmojiNameIsLongEnough()
    ensures NewPotential(PotentialBody(Some("\U{1F600}a"), None, None, None)).Success?
  {
    EmojiNameLength();
    TrimmedIsFixed("\U{1F600}a");
  }

  /** U+1F600 takes a surrogate pair, so with one more letter the length is 3. */
  lemma EmojiNameLength()
    ensures Utf16Length("\U{1F600}a") == 3
  {
    var name := "\U{1F600}a";
    assert name[1..] == "a" && name[1..][1..] == [];
  }

  lemma TwoLetterNameIsShort()
    ensures NewPotential(PotentialBody(Some("ab"), None, None, None)).Failure?
  {
    TrimmedIsFixed("ab");
  }

  /** Every stored potential satisfies the rule the handler enforces. */
  ghost predicate AllNamesValid(rows: seq<Potential>) {
    forall i :: 0 <= i < |rows| ==> Utf16Length(rows[i].name) >= MinNameLength && IsTrimmed(rows[i].name)
  }

  lemma AppendKeepsNamesValid(rows: seq<Potential>, p: Potential)
    requires Utf16Length(p.name) >= MinNameLength && IsTrimmed(p.name)
    ensures AllNamesValid(rows) ==> AllNamesValid(rows + [p])
  {
  }

  /** A created potential is found by a search for any part of its trimmed
      name, in any letter case. */
  lemma {:induction false} CreatedPotentialIsFound(b: PotentialBody, i: nat, j: nat)
    requires NewPotential(b).Success?
    requires i < j <= |Trim(b.name.value)|
    ensures var resp := ListPotentials(true, Some(Trim(b.name.value)[i..j]));
      PotentialMatches(resp.value.where, NewPotential(b).value)
  {
    var p := NewPotential(b).value;
    assert p.name == Trim(b.name.value);
    SearchFindsName(p, i, j);
  }

  /** A search for any non-empty part of a potential's name finds it. */
  lemma SearchFindsName(p: Potential, i: nat, j: nat)
    requires i < j <= |p.name|
    ensures PotentialMatches(ListPotentials(true, Some(p.name[i..j])).value.where, p)
  {
    SliceIsContainedInsensitive(p.name, i, j);
    assert ListPotentials(true, Some(p.name[i..j])).value.where == NameOrDescContains(p.name[i..j]);
  }
}
