/**
  lib/local-storage.ts: files saved under `public/uploads` are served at
  `/uploads/<path>`; `extractFilePathFromUrl` recovers the path from such a URL
  with the regular expression `/\/uploads\/(.+)$/`.
 */
module LocalStorage {
  import opened JsText

  const UploadsPrefix: string := "/uploads/"

  /** getFileUrl: the public URL of a stored file. */
  function GetFileUrl(filePath: string): (url: string)
    ensures StartsWith(url, UploadsPrefix)
    ensures url[|UploadsPrefix|..] == filePath
  {
    UploadsPrefix + filePath
  }

  /** The regular expression `/\/uploads\/(.+)$/` succeeds when tried at
      position `i`: "/uploads/" occurs there and is followed by at least one
      character, none of which is a line terminator (`.` does not match
      those, and `$` anchors at the very end since there is no `m` flag). */
  predicate MatchesAt(url: string, i: int) {
    OccursAt(url, UploadsPrefix, i) && i + |UploadsPrefix| < |url| &&
    forall k :: i + |UploadsPrefix| <= k < |url| ==> !IsLineTerminator(url[k])
  }

  /** A match at `i` is the one `String.prototype.match` reports when no
      earlier position matches. */
  predicate LeftmostMatch(url: string, i: int) {
    MatchesAt(url, i) && forall j :: 0 <= j < i ==> !MatchesAt(url, j)
  }

  /** The regular-expression search: try every start position from `i` on. */
  function FirstMatchFrom(url: string, i: nat): (r: Option<nat>)
    decreases |url| - i
    ensures r.Some? ==> i <= r.value && MatchesAt(url, r.value)
    ensures r.Some? ==> forall j :: i <= j < r.value ==> !MatchesAt(url, j)
    ensures r.None? ==> forall j :: i <= j ==> !MatchesAt(url, j)
  {
    if |url| <= i + |UploadsPrefix| then None
    else if MatchesAt(url, i) then Some(i)
    else FirstMatchFrom(url, i + 1)
  }

  /** extractFilePathFromUrl: null for an empty URL and for a URL the regular
      expression does not match; otherwise the (non-empty) text after the
      leftmost matching "/uploads/". */
  function ExtractFilePathFromUrl(url: string): (r: Option<string>)
    ensures url == "" ==> r == None
    ensures r.None? <==> forall i :: !MatchesAt(url, i)
    ensures r.Some? ==> exists i :: LeftmostMatch(url, i) && r.value == url[i + |UploadsPrefix|..]
    ensures r.Some? ==> r.value != "" && forall k :: 0 <= k < |r.value| ==> !IsLineTerminator(r.value[k])
  {
    if url == "" then None
    else
      match FirstMatchFrom(url, 0)
      case Some(i) => assert LeftmostMatch(url, i); Some(url[i + |UploadsPrefix|..])
      case None => None
  }

  /** The extracted path of a URL that has no line break is the suffix after
      the leftmost "/uploads/" (later occurrences stay part of the path). */
  lemma {:induction false} ExtractTakesLeftmostOccurrence(url: string, i: nat)
    requires OccursAt(url, UploadsPrefix, i) && i + |UploadsPrefix| < |url|
    requires forall j :: 0 <= j < i ==> !OccursAt(url, UploadsPrefix, j)
    requires forall k :: 0 <= k < |url| ==> !IsLineTerminator(url[k])
    ensures ExtractFilePathFromUrl(url) == Some(url[i + |UploadsPrefix|..])
  {
    assert MatchesAt(url, i);
    var r := ExtractFilePathFromUrl(url);
    var m :| LeftmostMatch(url, m) && r.value == url[m + |UploadsPrefix|..];
    assert forall j :: 0 <= j < i ==> !MatchesAt(url, j);
  }

  /** Round trip: the path of a stored file is recovered from its URL. */
  lemma {:induction false} ExtractGetFileUrl(p: string)
    requires p != ""
    requires forall k :: 0 <= k < |p| ==> !IsLineTerminator(p[k])
    ensures ExtractFilePathFromUrl(GetFileUrl(p)) == Some(p)
  {
    var url := GetFileUrl(p);
    assert OccursAt(url, UploadsPrefix, 0);
    assert forall k :: |UploadsPrefix| <= k < |url| ==> url[k] == p[k - |UploadsPrefix|];
    assert MatchesAt(url, 0);
  }

  /** A nested "/uploads/" inside the path is kept. */
  lemma ExtractNestedExample()
    ensures ExtractFilePathFromUrl("/uploads/a/uploads/b") == Some("a/uploads/b")
  {
    var p := "a/uploads/b";
    assert GetFileUrl(p) == "/uploads/a/uploads/b";
    ExtractGetFileUrl(p);
  }

  /** A URL without "/uploads/" followed by something yields null. */
  lemma ExtractWithoutMarker(url: string)
    requires !Contains(url, UploadsPrefix)
    ensures ExtractFilePathFromUrl(url) == None
  {
    forall i ensures !MatchesAt(url, i) {
      assert !(0 <= i <= |url| - |UploadsPrefix| && OccursAt(url, UploadsPrefix, i));
    }
  }

  /** The `public/uploads` directory: stored files by their path below it. */
  class UploadDirectory {
    var files: map<string, seq<bv8>>

    constructor ()
      ensures files == map[]
    {
      files := map[];
    }

    /** saveFile: writes the buffer at `filePath` (creating directories as
        needed) and answers the file's public URL, which is `GetFileUrl(filePath)`. */
    method SaveFile(buffer: seq<bv8>, filePath: string, contentType: string) returns (url: string)
      modifies this
      ensures files == old(files)[filePath := buffer]
      ensures url == GetFileUrl(filePath)
    {
      files := files[filePath := buffer];
      url := UploadsPrefix + filePath;
    }
  }
}
