/**
  lib/azure-storage.ts: the storage account settings, the lazily created
  blob-service client that the module keeps in a module-level variable, the
  container client, and `extractBlobNameFromUrl`, which reads a blob name back
  out of a blob URL with `/\.blob\.core\.windows\.net\/[^\/]+\/(.+)$/`.
 */
module AzureStorage {
  import opened JsText

  const DefaultContainerName: string := "uploads"
  const CredentialsError: string := "Azure Storage credentials are not configured"
  const BlobHost: string := ".blob.core.windows.net/"

  /** containerName: the configured container, or "uploads" when the setting
      is missing or empty. */
  function ContainerName(configured: Option<string>): (name: string)
    ensures name != ""
    ensures Truthy(configured) ==> name == configured.value
    ensures !Truthy(configured) ==> name == DefaultContainerName
  {
    if Truthy(configured) then configured.value else DefaultContainerName
  }

  const ConnectionPrefix: string := "DefaultEndpointsProtocol=https;AccountName="
  const KeyField: string := ";AccountKey="
  const ConnectionSuffix: string := ";EndpointSuffix=core.windows.net"

  /** The connection string the client is created from: a fixed template
      with the account name and key filled in. */
  function ConnectionString(accountName: string, accountKey: string): (cs: string)
    ensures StartsWith(cs, ConnectionPrefix)
    ensures |cs| == |ConnectionPrefix| + |accountName| + |KeyField| + |accountKey| + |ConnectionSuffix|
    ensures cs[|ConnectionPrefix|..|ConnectionPrefix| + |accountName|] == accountName
    ensures cs[|ConnectionPrefix| + |accountName|..][..|KeyField|] == KeyField
    ensures cs[|ConnectionPrefix| + |accountName| + |KeyField|..][..|accountKey|] == accountKey
    ensures cs[|cs| - |ConnectionSuffix|..] == ConnectionSuffix
  {
    ConnectionPrefix + accountName + KeyField + accountKey + ConnectionSuffix
  }

  /** The template loses nothing: an account name without ';' and the key are
      determined by the connection string built from them. */
  lemma {:induction false} ConnectionStringDeterminesCredentials(n1: string, k1: string, n2: string, k2: string)
    requires ';' !in n1 && ';' !in n2
    requires ConnectionString(n1, k1) == ConnectionString(n2, k2)
    ensures n1 == n2 && k1 == k2
  {
    assert KeyField[0] == ';';
    TemplateIsInjective(ConnectionPrefix, KeyField, ConnectionSuffix, n1, k1, n2, k2);
  }

  /** Filling a template whose middle field starts with a separator that
      cannot occur in the first value is injective. */
  lemma TemplateIsInjective(p: string, sep: string, q: string, n1: string, k1: string, n2: string, k2: string)
    requires sep != [] && sep[0] !in n1 && sep[0] !in n2
    requires p + n1 + sep + k1 + q == p + n2 + sep + k2 + q
    ensures n1 == n2 && k1 == k2
  {
    var r1, r2 := sep + (k1 + q), sep + (k2 + q);
    assert p + n1 + sep + k1 + q == p + (n1 + r1);
    assert p + n2 + sep + k2 + q == p + (n2 + r2);
    CancelPrefix(p, n1 + r1, n2 + r2);
    SplitAtFirst(n1, r1, n2, r2, sep[0]);
    CancelPrefix(sep, k1 + q, k2 + q);
    CancelSuffix(k1, k2, q);
  }

  lemma CancelPrefix(p: string, x: string, y: string)
    requires p + x == p + y
    ensures x == y
  {
    assert x == (p + x)[|p|..];
    assert y == (p + y)[|p|..];
  }

  lemma CancelSuffix(x: string, y: string, q: string)
    requires x + q == y + q
    ensures x == y
  {
    assert |x| == |y|;
    assert x == (x + q)[..|x|];
    assert y == (y + q)[..|y|];
  }

  /** Two texts that each start with a run free of `c` followed by `c` split
      the same way. */
  lemma SplitAtFirst(a1: string, b1: string, a2: string, b2: string, c: char)
    requires a1 + b1 == a2 + b2
    requires c !in a1 && c !in a2
    requires b1 != [] && b2 != [] && b1[0] == c && b2[0] == c
    ensures a1 == a2 && b1 == b2
  {
    var t := a1 + b1;
    assert forall k :: 0 <= k < |a1| ==> t[k] == a1[k] != c;
    assert forall k :: 0 <= k < |a2| ==> t[k] == a2[k] != c;
    assert t[|a1|] == c && t[|a2|] == (a2 + b2)[|a2|] == c;
    assert |a1| == |a2|;
    assert a1 == t[..|a1|] && a2 == (a2 + b2)[..|a2|];
    assert b1 == t[|a1|..] && b2 == (a2 + b2)[|a2|..];
  }

  /** The first '/' at or after position `j` (or the end of the text). */
  function NextSlash(url: string, j: nat): (k: nat)
    requires j <= |url|
    decreases |url| - j
    ensures j <= k <= |url|
    ensures k < |url| ==> url[k] == '/'
    ensures forall m :: j <= m < k ==> url[m] != '/'
  {
    if j == |url| || url[j] == '/' then j else NextSlash(url, j + 1)
  }

  /** Where the blob name starts when the regular expression is tried at `i`:
      after the host, the container segment (`[^\/]+`, which cannot run past
      a '/') and the '/' that ends it. */
  function NameStart(url: string, i: nat): nat
    requires i + |BlobHost| <= |url|
  {
    NextSlash(url, i + |BlobHost|) + 1
  }

  /** The regular expression succeeds when tried at position `i`: the host
      occurs there, the container segment is non-empty and ends in '/', and
      a non-empty single-line name runs to the end of the URL. */
  predicate BlobMatchAt(url: string, i: int) {
    OccursAt(url, BlobHost, i) &&
    var k := NextSlash(url, i + |BlobHost|);
    i + |BlobHost| < k && k + 1 < |url| && SingleLine(url[k + 1..])
  }

  predicate LeftmostBlobMatch(url: string, i: int) {
    BlobMatchAt(url, i) && forall j :: 0 <= j < i ==> !BlobMatchAt(url, j)
  }

  function FirstBlobMatchFrom(url: string, i: nat): (r: Option<nat>)
    decreases |url| - i
    ensures r.Some? ==> i <= r.value && BlobMatchAt(url, r.value)
    ensures r.Some? ==> forall j :: i <= j < r.value ==> !BlobMatchAt(url, j)
    ensures r.None? ==> forall j :: i <= j ==> !BlobMatchAt(url, j)
  {
    if |url| <= i + |BlobHost| then None
    else if BlobMatchAt(url, i) then Some(i)
    else FirstBlobMatchFrom(url, i + 1)
  }

  /** extractBlobNameFromUrl: null for an empty URL and for a URL of another
      shape; otherwise the name after the leftmost matching host and its
      container segment. The name is a non-empty, single-line suffix of the
      URL and may itself contain '/'. */
  function ExtractBlobNameFromUrl(url: string): (r: Option<string>)
    ensures url == "" ==> r == None
    ensures r.None? <==> forall i :: !BlobMatchAt(url, i)
    ensures r.Some? ==> exists i :: LeftmostBlobMatch(url, i) && r.value == url[NameStart(url, i)..]
    ensures r.Some? ==> r.value != "" && SingleLine(r.value)
  {
    if url == "" then None
    else
      match FirstBlobMatchFrom(url, 0)
      case Some(i) =>
        assert LeftmostBlobMatch(url, i);
        MatchGivesName(url, i);
        Some(url[NameStart(url, i)..])
      case None => None
  }

  /** A match names a non-empty, single-line tail of the URL. */
  lemma MatchGivesName(url: string, i: nat)
    requires BlobMatchAt(url, i)
    ensures 0 < NameStart(url, i) < |url|
    ensures url[NameStart(url, i)..] != "" && SingleLine(url[NameStart(url, i)..])
  {
  }

  /** A blob URL of the usual form `https://<account>.blob.core.windows.net/<container>/<name>`
      gives back `<name>`, with any '/' inside it kept. */
  lemma {:induction false} ExtractFromBlobUrl(account: string, container: string, name: string)
    requires '.' !in account
    requires container != [] && '/' !in container
    requires name != [] && SingleLine(name)
    ensures ExtractBlobNameFromUrl("https://" + account + BlobHost + container + "/" + name) == Some(name)
  {
    var host := "https://" + account;
    assert '.' !in host by {
      forall m | 0 <= m < |host| ensures host[m] != '.' {
        if m >= 8 { assert host[m] == account[m - 8]; }
      }
    }
    assert host + BlobHost + container + "/" + name == "https://" + account + BlobHost + container + "/" + name;
    ExtractAfterHost(host, container, name);
  }

  /** The same for any scheme and account part without '.'. */
  lemma {:induction false} ExtractAfterHost(host: string, container: string, name: string)
    requires '.' !in host
    requires container != [] && '/' !in container
    requires name != [] && SingleLine(name)
    ensures ExtractBlobNameFromUrl(host + BlobHost + container + "/" + name) == Some(name)
  {
    var url := host + BlobHost + container + "/" + name;
    var i := |host|;
    var c := i + |BlobHost|;
    assert url[..i] == host;
    assert url[i..c] == BlobHost;
    assert url[c..c + |container|] == container;
    assert url[c + |container|] == '/';
    assert url[c + |container| + 1..] == name;
    NextSlashSkipsSegment(url, c, container);
    NoMatchBeforeHost(url, i);
    ExtractIsLeftmost(url, i);
  }

  /** A '.'-free start holds no match of the host pattern. */
  lemma NoMatchBeforeHost(url: string, i: nat)
    requires i <= |url| && '.' !in url[..i]
    ensures forall j :: 0 <= j < i ==> !BlobMatchAt(url, j)
  {
    forall j | 0 <= j < i ensures !BlobMatchAt(url, j) {
      assert url[j] == url[..i][j];
      assert BlobHost[0] == '.';
    }
  }

  /** The extraction takes the leftmost match. */
  lemma ExtractIsLeftmost(url: string, i: nat)
    requires LeftmostBlobMatch(url, i)
    ensures ExtractBlobNameFromUrl(url) == Some(url[NameStart(url, i)..])
  {
    var r := ExtractBlobNameFromUrl(url);
    var m :| LeftmostBlobMatch(url, m) && r.value == url[NameStart(url, m)..];
    assert m == i;
  }

  /** From the start of a segment without '/', followed by '/', the next '/'
      is the one after the segment. */
  lemma NextSlashSkipsSegment(url: string, c: nat, segment: string)
    requires c + |segment| < |url| && url[c..c + |segment|] == segment
    requires '/' !in segment && url[c + |segment|] == '/'
    ensures NextSlash(url, c) == c + |segment|
  {
    forall m | c <= m < c + |segment| ensures url[m] != '/' {
      assert url[m] == segment[m - c];
    }
  }

  /** A handle on the storage service, created from a connection string. */
  class BlobServiceClient {
    const connectionString: string

    constructor (connectionString: string)
      ensures this.connectionString == connectionString
    {
      this.connectionString := connectionString;
    }
  }

  /** A handle on one container of the service. */
  datatype ContainerClient = ContainerClient(service: BlobServiceClient, containerName: string)

  /** The module's settings (read once from the environment) and its
      module-level `blobServiceClient` variable, initially null. */
  class StorageModule {
    const accountName: Option<string>
    const accountKey: Option<string>
    const containerName: string
    var blobServiceClient: BlobServiceClient?

    predicate Configured() {
      Truthy(accountName) && Truthy(accountKey)
    }

    /** A cached client exists only when credentials are configured, and it
        was created from the connection string those credentials give. */
    ghost predicate Valid()
      reads this, blobServiceClient
    {
      blobServiceClient != null ==>
        Configured() &&
        blobServiceClient.connectionString == ConnectionString(accountName.value, accountKey.value)
    }

    constructor (accountNameSetting: Option<string>, accountKeySetting: Option<string>, containerSetting: Option<string>)
      ensures Valid() && blobServiceClient == null
      ensures accountName == accountNameSetting && accountKey == accountKeySetting
      ensures containerName == ContainerName(containerSetting)
    {
      accountName, accountKey := accountNameSetting, accountKeySetting;
      containerName := ContainerName(containerSetting);
      blobServiceClient := null;
    }

    /** getBlobServiceClient: throws when the account name or key is missing,
        before any client is made; otherwise the first call creates the client
        from the connection string and every later call returns that same
        object. */
    method GetBlobServiceClient() returns (r: Result<BlobServiceClient, string>)
      requires Valid()
      modifies this
      ensures Valid()
      ensures !Configured() ==> r == Failure(CredentialsError) && blobServiceClient == old(blobServiceClient)
      ensures Configured() ==> r.Success? && blobServiceClient == r.value
      ensures Configured() ==> r.value.connectionString == ConnectionString(accountName.value, accountKey.value)
      ensures old(blobServiceClient) != null ==> r.Success? && r.value == old(blobServiceClient)
      ensures old(blobServiceClient) == null && r.Success? ==> fresh(r.value)
    {
      if !Configured() {
        return Failure(CredentialsError);
      }
      if blobServiceClient == null {
        blobServiceClient := new BlobServiceClient(ConnectionString(accountName.value, accountKey.value));
      }
      r := Success(blobServiceClient);
    }

    /** getContainerClient: the configured container on the shared client. */
    method GetContainerClient() returns (r: Result<ContainerClient, string>)
      requires Valid()
      modifies this
      ensures Valid()
      ensures !Configured() ==> r == Failure(CredentialsError)
      ensures Configured() ==> blobServiceClient != null && r == Success(ContainerClient(blobServiceClient, containerName))
      ensures old(blobServiceClient) != null ==> blobServiceClient == old(blobServiceClient)
    {
      var service := GetBlobServiceClient();
      match service
      case Failure(e) => r := Failure(e);
      case Success(client) => r := Success(ContainerClient(client, containerName));
    }
  }

  /** Two calls in a row hand out one and the same client. */
  method ClientIsShared(storage: StorageModule) returns (first: Result<BlobServiceClient, string>, second: Result<BlobServiceClient, string>)
    requires storage.Valid() && storage.Configured()
    modifies storage
    ensures first.Success? && first == second
  {
    first := storage.GetBlobServiceClient();
    second := storage.GetBlobServiceClient();
  }
}
