/**
  app/api/admin/profile/route.ts: the village profile is a set of key/value
  rows; GET folds them into one object, POST saves one key with an upsert.
 */
module ProfileRoute {
  import opened JsText
  import opened Api

  const RequiredError: string := "Key and value are required"
  const SaveError: string := "Failed to save profile"

  datatype ProfileRow = ProfileRow(key: string, value: string)

  /** The body of a save request. */
  datatype ProfileBody = ProfileBody(key: Option<string>, value: Option<string>)

  /** The database's uniqueness constraint on the key column. */
  predicate UniqueKeys(rows: seq<ProfileRow>) {
    forall i, j :: 0 <= i < j < |rows| ==> rows[i].key != rows[j].key
  }

  /** The one key that `acc[key] = value` does not store in a plain `{}`
      object: it reaches the prototype's `__proto__` setter, which ignores a
      string value. */
  const ProtoKey: string := "__proto__"

  /** One `acc[item.key] = item.value` on the accumulator object. */
  function Assign(acc: map<string, string>, row: ProfileRow): map<string, string>
  {
    if row.key == ProtoKey then acc else acc[row.key := row.value]
  }

  /** `reduce((acc, item) => { acc[item.key] = item.value; ... }, {})`: the rows
      are written into the object from first to last. */
  function FoldProfile(rows: seq<ProfileRow>): map<string, string>
  {
    if rows == [] then map[]
    else Assign(FoldProfile(rows[..|rows| - 1]), rows[|rows| - 1])
  }

  /** The object has exactly the keys of the rows, except `__proto__`. */
  lemma {:induction false} FoldHasRowKeys(rows: seq<ProfileRow>)
    ensures FoldProfile(rows).Keys == (set i | 0 <= i < |rows| :: rows[i].key) - {ProtoKey}
  {
    if rows != [] {
      var n := |rows| - 1;
      FoldHasRowKeys(rows[..n]);
      assert (set i | 0 <= i < |rows| :: rows[i].key)
          == (set i | 0 <= i < n :: rows[..n][i].key) + {rows[n].key};
    }
  }

  /** For a key that occurs several times, the last row with that key wins. */
  lemma {:induction false} LastRowWins(rows: seq<ProfileRow>, i: nat)
    requires i < |rows| && rows[i].key != ProtoKey
    requires forall j :: i < j < |rows| ==> rows[j].key != rows[i].key
    ensures rows[i].key in FoldProfile(rows) && FoldProfile(rows)[rows[i].key] == rows[i].value
  {
    var n := |rows| - 1;
    if i < n {
      assert rows[..n][i] == rows[i];
      LastRowWins(rows[..n], i);
    }
  }

  /** GET's fold, as the handler runs it: one row at a time into an
      accumulator. */
  method ProfileMapOf(rows: seq<ProfileRow>) returns (acc: map<string, string>)
    ensures acc == FoldProfile(rows)
  {
    acc := map[];
    var i := 0;
    while i < |rows|
      invariant 0 <= i <= |rows|
      invariant acc == FoldProfile(rows[..i])
    {
      assert rows[..i + 1][..i] == rows[..i];
      if rows[i].key != ProtoKey {
        acc := acc[rows[i].key := rows[i].value];
      }
      i := i + 1;
    }
    assert rows[..i] == rows;
  }

  /** The first row carrying a key, if any. */
  function FirstIndexOf(rows: seq<ProfileRow>, k: string): (r: Option<nat>)
    ensures r.None? <==> forall j :: 0 <= j < |rows| ==> rows[j].key != k
    ensures r.Some? ==>
      r.value < |rows| && rows[r.value].key == k && forall j :: 0 <= j < r.value ==> rows[j].key != k
  {
    if rows == [] then None
    else if rows[0].key == k then Some(0)
    else
      match FirstIndexOf(rows[1..], k)
      case None => None
      case Some(i) => Some(i + 1)
  }

  /** The first row carrying a key is the one before which no row carries it. */
  lemma FirstIndexOfIs(rows: seq<ProfileRow>, k: string, i: nat)
    requires i < |rows| && rows[i].key == k
    requires forall j :: 0 <= j < i ==> rows[j].key != k
    ensures FirstIndexOf(rows, k) == Some(i)
  {
    var r := FirstIndexOf(rows, k);
    assert r.Some?;
    assert !(r.value < i) && !(i < r.value);
  }

  /** `upsert({ where: { key }, update: { value }, create: { key, value } })`:
      the row with the key gets the new value, or a new row is added. */
  function UpsertRow(rows: seq<ProfileRow>, k: string, v: string): (r: seq<ProfileRow>)
    ensures FirstIndexOf(rows, k).Some? ==> var i := FirstIndexOf(rows, k).value;
      |r| == |rows| && r[i] == ProfileRow(k, v) && forall j :: 0 <= j < |rows| && j != i ==> r[j] == rows[j]
    ensures FirstIndexOf(rows, k).None? ==> r == rows + [ProfileRow(k, v)]
  {
    match FirstIndexOf(rows, k)
    case Some(i) => rows[i := ProfileRow(k, v)]
    case None => rows + [ProfileRow(k, v)]
  }

  /** After an upsert the store maps the key to the value, whether or not the
      key existed, and every other key is unchanged; a `__proto__` row is
      stored but never shows in the object. */
  lemma {:induction false} UpsertUpdatesProfile(rows: seq<ProfileRow>, k: string, v: string)
    requires UniqueKeys(rows)
    ensures FoldProfile(UpsertRow(rows, k, v)) == Assign(FoldProfile(rows), ProfileRow(k, v))
  {
    match FirstIndexOf(rows, k)
    case None =>
      var r := rows + [ProfileRow(k, v)];
      assert r[..|r| - 1] == rows;
    case Some(i) =>
      ReplaceKeyedRow(rows, i, v);
  }

  lemma {:induction false} ReplaceKeyedRow(rows: seq<ProfileRow>, i: nat, v: string)
    requires UniqueKeys(rows) && i < |rows|
    ensures FoldProfile(rows[i := ProfileRow(rows[i].key, v)]) == Assign(FoldProfile(rows), ProfileRow(rows[i].key, v))
  {
    var k := rows[i].key;
    var r := rows[i := ProfileRow(k, v)];
    var n := |rows| - 1;
    if i == n {
      assert r[..n] == rows[..n];
    } else {
      var pre := rows[..n];
      assert r[..n] == pre[i := ProfileRow(k, v)];
      assert pre[i].key == k;
      ReplaceKeyedRow(pre, i, v);
      assert rows[n].key != k;
    }
  }

  /** An upsert keeps the keys unique. */
  lemma {:induction false} UpsertKeepsKeysUnique(rows: seq<ProfileRow>, k: string, v: string)
    requires UniqueKeys(rows)
    ensures UniqueKeys(UpsertRow(rows, k, v))
  {
  }

  /** Saving the same key and value twice leaves the store as saving it once. */
  lemma {:induction false} UpsertIsIdempotent(rows: seq<ProfileRow>, k: string, v: string)
    ensures UpsertRow(UpsertRow(rows, k, v), k, v) == UpsertRow(rows, k, v)
  {
    var once := UpsertRow(rows, k, v);
    match FirstIndexOf(rows, k)
    case Some(i) =>
      assert forall j :: 0 <= j < i ==> once[j] == rows[j];
      FirstIndexOfIs(once, k, i);
    case None =>
      assert forall j :: 0 <= j < |rows| ==> once[j] == rows[j];
      FirstIndexOfIs(once, k, |rows|);
  }

  /** The profile table: its rows, keys unique. */
  class ProfileTable {
    var rows: seq<ProfileRow>

    constructor (initial: seq<ProfileRow>)
      requires UniqueKeys(initial)
      ensures rows == initial
    {
      rows := initial;
    }

    method Upsert(k: string, v: string) returns (saved: ProfileRow)
      modifies this
      ensures rows == UpsertRow(old(rows), k, v)
      ensures saved == ProfileRow(k, v)
      ensures UniqueKeys(old(rows)) ==> UniqueKeys(rows)
    {
      if UniqueKeys(rows) {
        UpsertKeepsKeysUnique(rows, k, v);
      }
      rows := UpsertRow(rows, k, v);
      saved := ProfileRow(k, v);
    }
  }

  /** GET: 401 without a session; otherwise every row folded into one object. */
  method GetProfile(session: bool, db: ProfileTable) returns (resp: Response<map<string, string>>)
    ensures !session ==> resp == JsonError(401, UnauthorizedError)
    ensures session ==> resp == Json(200, FoldProfile(db.rows))
  {
    if !session {
      return JsonError(401, UnauthorizedError);
    }
    var profileMap := ProfileMapOf(db.rows);
    resp := Json(200, profileMap);
  }

  /** POST: 401 without a session, 500 when the body is not JSON or the
      database fails, 400 when the key or the value is missing or empty;
      otherwise the key is upserted and the home layout and the profile page
      are revalidated. */
  method SaveProfile(session: bool, body: Option<ProfileBody>, dbAccepts: bool, db: ProfileTable, cache: PageCache)
    returns (resp: Response<ProfileRow>)
    modifies db, cache
    ensures !session ==> resp == JsonError(401, UnauthorizedError)
    ensures session && body.None? ==> resp == JsonError(500, SaveError)
    ensures session && body.Some? && (!Truthy(body.value.key) || !Truthy(body.value.value)) ==>
      resp == JsonError(400, RequiredError)
    ensures session && body.Some? && Truthy(body.value.key) && Truthy(body.value.value) ==>
      resp == if dbAccepts then Json(200, ProfileRow(body.value.key.value, body.value.value.value))
              else JsonError(500, SaveError)
    ensures db.rows == if resp.Json? then UpsertRow(old(db.rows), resp.value.key, resp.value.value) else old(db.rows)
    ensures cache.revalidated ==
      if resp.Json? then old(cache.revalidated) + [Layout("/"), Page("/profil")] else old(cache.revalidated)
  {
    if !session {
      return JsonError(401, UnauthorizedError);
    }
    if body.None? {
      return JsonError(500, SaveError);
    }
    if !Truthy(body.value.key) || !Truthy(body.value.value) {
      return JsonError(400, RequiredError);
    }
    if !dbAccepts {
      return JsonError(500, SaveError);
    }
    var profile := db.Upsert(body.value.key.value, body.value.value.value);
    cache.Revalidate([Layout("/"), Page("/profil")]);
    resp := Json(200, profile);
  }

  /** What a successful save means for the next GET: the key reads back the
      saved value and every other key reads as before. */
  lemma {:induction false} SavedValueReadsBack(rows: seq<ProfileRow>, k: string, v: string, other: string)
    requires UniqueKeys(rows) && other != k
    ensures k != ProtoKey ==> k in FoldProfile(UpsertRow(rows, k, v)) && FoldProfile(UpsertRow(rows, k, v))[k] == v
    ensures k == ProtoKey ==> FoldProfile(UpsertRow(rows, k, v)) == FoldProfile(rows)
    ensures other in FoldProfile(UpsertRow(rows, k, v)) <==> other in FoldProfile(rows)
    ensures other in FoldProfile(rows) ==> FoldProfile(UpsertRow(rows, k, v))[other] == FoldProfile(rows)[other]
  {
    UpsertUpdatesProfile(rows, k, v);
  }
}
