/**
  app/admin/sarana/page.tsx: the admin list of facilities, with a search box,
  a delete confirmation and a preview of each description with its HTML tags
  removed.
 */
module SaranaPage {
  import opened JsText
  import opened UriComponent
  import opened Decimal
  import FacilitiesRoute

  const FacilitiesEndpoint: string := "/api/admin/facilities"
  const SearchPrefix: string := "/api/admin/facilities?search="

  // ---- The description preview: `replace(/<[^>]*>/g, '')` ----

  /** The first '>' in s, if any. */
  function FirstClose(s: string): (r: Option<nat>)
    ensures r.None? <==> '>' !in s
    ensures r.Some? ==> r.value < |s| && s[r.value] == '>' && '>' !in s[..r.value]
  {
    if s == [] then None
    else if s[0] == '>' then Some(0)
    else
      match FirstClose(s[1..])
      case None => None
      case Some(i) =>
        assert s[..i + 1] == [s[0]] + s[1..][..i];
        Some(i + 1)
  }

  /** The global replacement scans left to right: a '<' that has a '>' after
      it starts a tag reaching to the first such '>', which is dropped; any
      other character is kept. */
  function StripTags(s: string): (r: string)
    ensures |r| <= |s|
    ensures forall c :: c in r ==> c in s
    decreases |s|
  {
    if s == [] then []
    else if s[0] == '<' && FirstClose(s).Some? then
      var rest := s[FirstClose(s).value + 1..];
      assert forall c :: c in rest ==> c in s;
      StripTags(rest)
    else
      var rest := StripTags(s[1..]);
      assert forall c :: c in s[1..] ==> c in s;
      [s[0]] + rest
  }

  /** No '<' is followed anywhere later by '>': nothing left looks like a tag. */
  predicate NoTag(s: string) {
    forall i, j :: 0 <= i < j < |s| && s[i] == '<' ==> s[j] != '>'
  }

  /** Stripped text holds no tag. */
  lemma {:induction false} StripTagsLeavesNoTag(s: string)
    ensures NoTag(StripTags(s))
    decreases |s|
  {
    if s == [] {
    } else if s[0] == '<' && FirstClose(s).Some? {
      StripTagsLeavesNoTag(s[FirstClose(s).value + 1..]);
    } else {
      var rest := StripTags(s[1..]);
      StripTagsLeavesNoTag(s[1..]);
      if s[0] == '<' {
        assert '>' !in s;
        assert '>' !in rest;
      }
      var r := [s[0]] + rest;
      forall i, j | 0 <= i < j < |r| && r[i] == '<'
        ensures r[j] != '>'
      {
        if i == 0 {
          assert r[j] in rest;
        } else {
          assert r[i] == rest[i - 1] && r[j] == rest[j - 1];
        }
      }
    }
  }

  /** Text that holds no tag (in particular text without '<') is left as it is. */
  lemma {:induction false} StripTagsKeepsTagFreeText(s: string)
    requires NoTag(s)
    ensures StripTags(s) == s
    decreases |s|
  {
    if s != [] {
      assert NoTag(s[1..]) by {
        forall i, j | 0 <= i < j < |s[1..]| && s[1..][i] == '<'
          ensures s[1..][j] != '>'
        {
          assert s[i + 1] == '<';
        }
      }
      StripTagsKeepsTagFreeText(s[1..]);
      if s[0] == '<' {
        assert forall j :: 0 <= j < |s| ==> s[j] != '>';
        assert FirstClose(s).None?;
      }
      assert StripTags(s) == [s[0]] + s[1..];
    }
  }

  /** A tag is removed and nothing around it: the text before the first '<'
      is kept, the tag up to the first '>' is dropped, and stripping goes on
      after it. With StripTagsKeepsTagFreeText this fixes the result on
      every input. */
  lemma StripOneTag(a: string, t: string, b: string)
    requires '<' !in a && '>' !in t
    ensures StripTags(a + ['<'] + t + ['>'] + b) == a + StripTags(b)
  {
    var u := ['<'] + t + ['>'] + b;
    RegroupTag(a, t, b);
    StripKeepsPlainPrefix(a, u);
    StripLeadingTag(t, b);
  }

  /** Text free of '<' in front of anything is kept as it is. */
  lemma {:induction false} StripKeepsPlainPrefix(a: string, u: string)
    requires '<' !in a
    ensures StripTags(a + u) == a + StripTags(u)
    decreases |a|
  {
    if a != [] {
      var c, rest, x := a[0], a[1..] + u, StripTags(u);
      assert c in a;
      SplitFirst(a, u);
      StripKeepsPlainFirst(c, rest);
      assert StripTags(a + u) == [c] + StripTags(rest);
      StripKeepsPlainPrefix(a[1..], u);
      assert StripTags(rest) == a[1..] + x;
      SplitFirst(a, x);
    } else {
      assert a + u == u;
      assert a + StripTags(u) == StripTags(u);
    }
  }

  lemma RegroupTag(a: string, t: string, b: string)
    ensures a + ['<'] + t + ['>'] + b == a + (['<'] + t + ['>'] + b)
  {
  }

  lemma SplitFirst(a: string, u: string)
    requires a != []
    ensures a + u == [a[0]] + (a[1..] + u)
  {
    assert a == [a[0]] + a[1..];
  }

  /** A tag at the very start is dropped up to its first '>'. */
  lemma StripLeadingTag(t: string, b: string)
    requires '>' !in t
    ensures StripTags(['<'] + t + ['>'] + b) == StripTags(b)
  {
    var s := ['<'] + t + ['>'] + b;
    assert s[|t| + 1] == '>';
    assert s[..|t| + 1] == ['<'] + t;
    assert FirstClose(s).value == |t| + 1;
    assert s[|t| + 2..] == b;
  }

  /** A first character other than '<' is kept. */
  lemma StripKeepsPlainFirst(c: char, rest: string)
    requires c != '<'
    ensures StripTags([c] + rest) == [c] + StripTags(rest)
  {
    assert ([c] + rest)[1..] == rest;
  }

  /** The worked example: "a<b>c" shows as "ac". */
  lemma StripTagsExample()
    ensures StripTags("a<b>c") == "ac"
  {
    assert "a<b>c" == "a" + ['<'] + "b" + ['>'] + "c";
    StripOneTag("a", "b", "c");
    StripTagsKeepsTextWithoutOpen("c");
  }

  lemma StripTagsKeepsTextWithoutOpen(s: string)
    requires '<' !in s
    ensures StripTags(s) == s
  {
    StripTagsKeepsTagFreeText(s);
  }

  /** Stripping twice is stripping once. */
  lemma StripTagsIsIdempotent(s: string)
    ensures StripTags(StripTags(s)) == StripTags(s)
  {
    StripTagsLeavesNoTag(s);
    StripTagsKeepsTagFreeText(StripTags(s));
  }

  // ---- The list request ----

  /** The URL `fetchFacilities` requests for the current search text. */
  function FacilitiesUrl(search: string): (url: string)
    ensures search == "" ==> url == FacilitiesEndpoint
    ensures search != "" ==> StartsWith(url, SearchPrefix) && url[|SearchPrefix|..] == EncodeURIComponent(search)
  {
    if search != "" then SearchPrefix + EncodeURIComponent(search) else FacilitiesEndpoint
  }

  /** The server's reading of the `search` parameter of a list URL. */
  function SearchParam(url: string): Option<string> {
    if StartsWith(url, SearchPrefix) then DecodeURIComponent(url[|SearchPrefix|..]) else None
  }

  /** The server sees exactly the search the admin typed (none for an empty
      one), so its filter is a name search for that text. */
  lemma FacilitiesUrlCarriesSearch(search: string)
    ensures SearchParam(FacilitiesUrl(search)) == if search == "" then None else Some(search)
    ensures var w := FacilitiesRoute.ListFacilities(true, SearchParam(FacilitiesUrl(search))).value.where;
      w.nameContains == if search == "" then None else Some(search)
  {
    if search != "" {
      DecodeEncode(search);
    } else {
      assert !StartsWith(FacilitiesEndpoint, SearchPrefix) by {
        assert |FacilitiesEndpoint| < |SearchPrefix|;
      }
    }
  }

  // ---- The page's state ----

  datatype FacilityItem = FacilityItem(id: int, name: string, description: Option<string>, imageUrl: Option<string>)

  /** The toasts the page shows. */
  datatype Toast = LoadFailed | Deleted | DeleteFailed {
    function Title(): string {
      if this == Deleted then "Berhasil" else "Error"
    }
    function Description(): string {
      match this
      case LoadFailed => "Gagal memuat sarana & prasarana"
      case Deleted => "Fasilitas berhasil dihapus"
      case DeleteFailed => "Gagal menghapus fasilitas"
    }
    predicate Destructive() {
      this != Deleted
    }
  }

  datatype Request = Get(url: string) | Delete(url: string)


  /** `if (!deleteId) return`: null and 0 both count as no selection. */
  predicate HasSelection(deleteId: Option<int>) {
    deleteId.Some? && deleteId.value != 0
  }

  /** The URL of the DELETE request for a facility id. */
  function DeleteUrl(id: int): string {
    FacilitiesEndpoint + "/" + IntToString(id)
  }

  /** Different ids give different delete URLs, so the request names the
      selected facility and no other. */
  lemma {:induction false} DeleteUrlIsInjective(a: int, b: int)
    requires DeleteUrl(a) == DeleteUrl(b)
    ensures a == b
  {
    var p := FacilitiesEndpoint + "/";
    assert DeleteUrl(a)[|p|..] == IntToString(a);
    assert DeleteUrl(b)[|p|..] == IntToString(b);
    IntToStringIsInjective(a, b);
  }

  class FacilityListPage {
    var facilities: seq<FacilityItem>
    var loading: bool
    var search: string
    var deleteId: Option<int>
    var deleting: bool
    /** Toasts shown and requests sent, in order. */
    var toasts: seq<Toast>
    var requests: seq<Request>

    /** The first render: loading, empty search, nothing selected. */
    constructor ()
      ensures facilities == [] && loading && search == "" && deleteId.None? && !deleting
      ensures toasts == [] && requests == []
    {
      facilities := [];
      loading := true;
      search := "";
      deleteId := None;
      deleting := false;
      toasts := [];
      requests := [];
    }

    /** Typing in the search box. */
    method SetSearch(text: string)
      modifies this
      ensures search == text
      ensures facilities == old(facilities) && loading == old(loading) && deleteId == old(deleteId)
      ensures deleting == old(deleting) && toasts == old(toasts) && requests == old(requests)
    {
      search := text;
    }

    /** The trash button of a row. */
    method SelectForDelete(id: int)
      modifies this
      ensures deleteId == Some(id)
      ensures facilities == old(facilities) && loading == old(loading) && search == old(search)
      ensures deleting == old(deleting) && toasts == old(toasts) && requests == old(requests)
    {
      deleteId := Some(id);
    }

    /** Closing the confirmation dialog without deleting. */
    method CloseDialog()
      modifies this
      ensures deleteId.None?
      ensures facilities == old(facilities) && loading == old(loading) && search == old(search)
      ensures deleting == old(deleting) && toasts == old(toasts) && requests == old(requests)
    {
      deleteId := None;
    }

    /** `fetchFacilities` up to its request: loading is on and the list URL
        for the current search is requested. */
    method StartFetch()
      modifies this
      ensures loading
      ensures requests == old(requests) + [Get(FacilitiesUrl(search))]
      ensures facilities == old(facilities) && search == old(search) && deleteId == old(deleteId)
      ensures deleting == old(deleting) && toasts == old(toasts)
    {
      loading := true;
      requests := requests + [Get(FacilitiesUrl(search))];
    }

    /** `fetchFacilities` after its response: the list on success, an error
        toast on failure (None), and loading off either way. */
    method FinishFetch(data: Option<seq<FacilityItem>>)
      modifies this
      ensures !loading
      ensures facilities == if data.Some? then data.value else old(facilities)
      ensures toasts == if data.Some? then old(toasts) else old(toasts) + [LoadFailed]
      ensures search == old(search) && deleteId == old(deleteId) && deleting == old(deleting)
      ensures requests == old(requests)
    {
      if data.Some? {
        facilities := data.value;
      } else {
        toasts := toasts + [LoadFailed];
      }
      loading := false;
    }

    /** `handleDelete`, with the outcome of the DELETE request (true: an ok
        response; false: a refused response or a network error). Without a
        selection nothing happens. Otherwise the request is sent; an ok
        response shows a success toast and starts a new fetch of the list, any
        other outcome shows an error toast; afterwards nothing is selected and
        the dialog is no longer busy. */
    method HandleDelete(responseOk: bool)
      modifies this
      ensures !HasSelection(old(deleteId)) ==>
        facilities == old(facilities) && loading == old(loading) && deleteId == old(deleteId) &&
        deleting == old(deleting) && toasts == old(toasts) && requests == old(requests)
      ensures HasSelection(old(deleteId)) ==> !deleting && deleteId.None?
      ensures HasSelection(old(deleteId)) ==>
        requests == old(requests) + [Delete(DeleteUrl(old(deleteId).value))] +
          (if responseOk then [Get(FacilitiesUrl(search))] else [])
      ensures HasSelection(old(deleteId)) ==>
        toasts == old(toasts) + [if responseOk then Deleted else DeleteFailed]
      ensures HasSelection(old(deleteId)) ==> loading == (responseOk || old(loading))
      ensures facilities == old(facilities) && search == old(search)
    {
      if deleteId.None? || deleteId.value == 0 {
        return;
      }
      deleting := true;
      requests := requests + [Delete(DeleteUrl(deleteId.value))];
      if responseOk {
        toasts := toasts + [Deleted];
        StartFetch();
      } else {
        toasts := toasts + [DeleteFailed];
      }
      deleting := false;
      deleteId := None;
    }
  }
}
