/**
 * The merge of one credential into the repository-credentials list of the Argo CD
 * config map (updateData and createRepoElement). The YAML text is abstracted to a
 * codec over the list of entries.
 */
module CredentialsMerge {
  import opened Wrappers
  import opened GitOpsTypes

  /** createRepoElement: the entry appended for a host the list does not hold yet. It names
      the raw username and token as the secrets, not the provisioned secret. */
  function CreateRepoElement(request: GitOpsConfigDto): (entry: RepoCredential)
    ensures entry.url == request.host
    ensures entry.usernameSecret.Some? && entry.usernameSecret.value.key == UsernameKey
    ensures entry.passwordSecret.Some? && entry.passwordSecret.value.key == PasswordKey
    ensures entry.usernameSecret.value.name == request.username && entry.passwordSecret.value.name == request.token
  {
    RepoCredential(request.host, Some(KeyRef(request.username, UsernameKey)), Some(KeyRef(request.token, PasswordKey)))
  }

  /** An existing entry once the merge has pointed both references at the provisioned secret. */
  function PointAtSecret(entry: RepoCredential, secretName: string): RepoCredential {
    entry.(usernameSecret := Some(KeyRef(secretName, UsernameKey)), passwordSecret := Some(KeyRef(secretName, PasswordKey)))
  }

  predicate HasHost(entries: seq<RepoCredential>, host: string) {
    exists i :: 0 <= i < |entries| && entries[i].url == host
  }

  /** Every entry for `host` pointed at the secret; the others as they were. */
  function RewriteMatching(entries: seq<RepoCredential>, host: string, secretName: string): seq<RepoCredential> {
    seq(|entries|, i requires 0 <= i < |entries| =>
      if entries[i].url == host then PointAtSecret(entries[i], secretName) else entries[i])
  }

  datatype MergeResult = MergeResult(entries: seq<RepoCredential>, found: bool)

  /** The list and the flag updateData computes from the decoded list. */
  function Merge(entries: seq<RepoCredential>, request: GitOpsConfigDto, secretName: string): (r: MergeResult)
    ensures r.found <==> exists i :: 0 <= i < |entries| && entries[i].url == request.host
    ensures |r.entries| == if r.found then |entries| else |entries| + 1
    ensures forall i :: 0 <= i < |entries| ==> r.entries[i].url == entries[i].url
  {
    if HasHost(entries, request.host) then MergeResult(RewriteMatching(entries, request.host, secretName), true)
    else MergeResult(entries + [CreateRepoElement(request)], false)
  }

  /** The loop of updateData: rewrite every entry whose url is the request's host, in place,
      then append a new entry when none was. */
  method MergeEntries(repositories: seq<RepoCredential>, request: GitOpsConfigDto, secretName: string)
    returns (merged: seq<RepoCredential>, found: bool)
    ensures MergeResult(merged, found) == Merge(repositories, request, secretName)
  {
    merged, found := repositories, false;
    var i := 0;
    while i < |merged|
      invariant 0 <= i <= |merged| == |repositories|
      invariant forall k :: 0 <= k < i ==>
        merged[k] == if repositories[k].url == request.host then PointAtSecret(repositories[k], secretName) else repositories[k]
      invariant forall k :: i <= k < |merged| ==> merged[k] == repositories[k]
      invariant found <==> exists k :: 0 <= k < i && repositories[k].url == request.host
    {
      if merged[i].url == request.host {
        merged := merged[i := PointAtSecret(merged[i], secretName)];
        found := true;
      }
      i := i + 1;
    }
    if !found {
      merged := merged + [CreateRepoElement(request)];
    } else {
      assert merged == RewriteMatching(repositories, request.host, secretName);
    }
  }

  /** When the host is listed: the flag is set, the list keeps its length, order and urls,
      entries for other hosts are untouched and every entry for the host names the secret. */
  lemma MergeWhenFound(entries: seq<RepoCredential>, request: GitOpsConfigDto, secretName: string)
    requires HasHost(entries, request.host)
    ensures var r := Merge(entries, request, secretName);
      && r.found
      && |r.entries| == |entries|
      && (forall i :: 0 <= i < |entries| ==> r.entries[i].url == entries[i].url)
      && (forall i :: 0 <= i < |entries| && entries[i].url != request.host ==> r.entries[i] == entries[i])
      && (forall i :: 0 <= i < |entries| && entries[i].url == request.host ==>
            r.entries[i].usernameSecret == Some(KeyRef(secretName, UsernameKey)) &&
            r.entries[i].passwordSecret == Some(KeyRef(secretName, PasswordKey)))
  {
  }

  /** When the host is not listed: the flag is clear and exactly one entry is appended, built
      from the raw username and token; the old list is its prefix. */
  lemma MergeWhenMissing(entries: seq<RepoCredential>, request: GitOpsConfigDto, secretName: string)
    requires !HasHost(entries, request.host)
    ensures var r := Merge(entries, request, secretName);
      && !r.found
      && |r.entries| == |entries| + 1
      && r.entries[..|entries|] == entries
      && r.entries[|entries|] == RepoCredential(request.host,
           Some(KeyRef(request.username, UsernameKey)), Some(KeyRef(request.token, PasswordKey)))
  {
  }

  /** Merging the result again with the same request always finds the host. */
  lemma MergeThenFound(entries: seq<RepoCredential>, request: GitOpsConfigDto, secretName: string)
    ensures HasHost(Merge(entries, request, secretName).entries, request.host)
    ensures Merge(Merge(entries, request, secretName).entries, request, secretName).found
  {
    var r := Merge(entries, request, secretName);
    if HasHost(entries, request.host) {
      var i :| 0 <= i < |entries| && entries[i].url == request.host;
      assert r.entries[i].url == request.host;
    } else {
      assert r.entries[|entries|].url == request.host;
    }
  }

  /** Once the host is listed, merging is idempotent: a second merge leaves the list as it is. */
  lemma MergeIdempotentWhenFound(entries: seq<RepoCredential>, request: GitOpsConfigDto, secretName: string)
    requires HasHost(entries, request.host)
    ensures var r := Merge(entries, request, secretName);
      Merge(r.entries, request, secretName) == r
  {
    MergeThenFound(entries, request, secretName);
  }

  /** After an append, a second merge does not leave the appended entry as it was: it points
      it at the provisioned secret instead of the raw username and token. */
  lemma SecondMergeRepointsAppended(entries: seq<RepoCredential>, request: GitOpsConfigDto, secretName: string)
    requires !HasHost(entries, request.host)
    ensures var once := Merge(entries, request, secretName).entries;
      Merge(once, request, secretName).entries == entries + [PointAtSecret(CreateRepoElement(request), secretName)]
  {
    var once := Merge(entries, request, secretName).entries;
    MergeThenFound(entries, request, secretName);
    var twice := Merge(once, request, secretName).entries;
    assert |twice| == |entries| + 1;
    forall i | 0 <= i < |entries|
      ensures twice[i] == entries[i]
    {
      assert once[i] == entries[i];
      assert entries[i].url != request.host;
    }
  }

  /** The YAML codec of the list, abstracted to two functions of the text. */
  datatype Codec = Codec(decode: string -> Option<seq<RepoCredential>>, encode: seq<RepoCredential> -> string)

  /** A codec whose decoding undoes its encoding and whose encodings are never empty
      (YAML writes even an empty list as "[]"). */
  ghost predicate Faithful(codec: Codec) {
    forall entries :: codec.decode(codec.encode(entries)) == Some(entries) && |codec.encode(entries)| > 0
  }

  /** Go's lookup in a map of strings: a missing key reads as "". */
  function Lookup(data: map<string, string>, key: string): string {
    if key in data then data[key] else ""
  }

  /** The list the config map holds: empty text is the empty list, other text is decoded, and
      text that does not decode is an error. */
  function StoredEntries(codec: Codec, data: map<string, string>): Result<seq<RepoCredential>, Error> {
    var text := Lookup(data, CredentialsKey);
    if |text| > 0 then
      match codec.decode(text)
      case Some(entries) => Success(entries)
      case None => Failure(Malformed)
    else Success([])
  }

  /** The map updateData returns: the encoded list under the credentials key, or nothing
      when the encoding is empty. */
  function CredentialsField(text: string): map<string, string> {
    if |text| > 0 then map[CredentialsKey := text] else map[]
  }

  datatype Updated = Updated(data: map<string, string>, found: bool)

  /** What updateData computes from the config map's data. */
  function UpdatedData(codec: Codec, data: map<string, string>, request: GitOpsConfigDto, secretName: string): Result<Updated, Error> {
    match StoredEntries(codec, data)
    case Failure(e) => Failure(e)
    case Success(entries) =>
      var m := Merge(entries, request, secretName);
      Success(Updated(CredentialsField(codec.encode(m.entries)), m.found))
  }

  /** updateData: decode the list, merge the request into it, encode it again. */
  method UpdateData(codec: Codec, data: map<string, string>, request: GitOpsConfigDto, secretName: string)
    returns (r: Result<Updated, Error>)
    ensures r == UpdatedData(codec, data, request, secretName)
  {
    var repositories: seq<RepoCredential> := [];
    var repoStr := Lookup(data, CredentialsKey);
    if |repoStr| > 0 {
      var decoded := codec.decode(repoStr);
      if decoded.None? {
        return Failure(Malformed);
      }
      repositories := decoded.value;
    }
    var merged, found := MergeEntries(repositories, request, secretName);
    var text := codec.encode(merged);
    var repositoryCredentials: map<string, string> := map[];
    if |text| > 0 {
      repositoryCredentials := repositoryCredentials[CredentialsKey := text];
    }
    return Success(Updated(repositoryCredentials, found));
  }

  /** The flag updateData reports is set exactly when the stored list holds the host, and the
      text it returns for the key is the encoding of the merged list. */
  lemma UpdatedDataMeaning(codec: Codec, data: map<string, string>, request: GitOpsConfigDto, secretName: string)
    ensures UpdatedData(codec, data, request, secretName).Success? <==> StoredEntries(codec, data).Success?
    ensures UpdatedData(codec, data, request, secretName).Success? ==>
      var entries := StoredEntries(codec, data).value;
      var u := UpdatedData(codec, data, request, secretName).value;
      && (u.found <==> HasHost(entries, request.host))
      && Lookup(u.data, CredentialsKey) == codec.encode(Merge(entries, request, secretName).entries)
      && u.data.Keys <= {CredentialsKey}
  {
  }

  /** With a faithful codec, writing the returned text back under the key stores exactly the
      merged list. */
  lemma WrittenBackDecodes(codec: Codec, data: map<string, string>, request: GitOpsConfigDto, secretName: string)
    requires Faithful(codec)
    requires UpdatedData(codec, data, request, secretName).Success?
    ensures var u := UpdatedData(codec, data, request, secretName).value;
      StoredEntries(codec, data[CredentialsKey := Lookup(u.data, CredentialsKey)])
        == Success(Merge(StoredEntries(codec, data).value, request, secretName).entries)
  {
    var merged := Merge(StoredEntries(codec, data).value, request, secretName).entries;
    assert codec.decode(codec.encode(merged)) == Some(merged) && |codec.encode(merged)| > 0;
  }

  /** The end-to-end case: an empty config map and a GitHub credential give exactly one entry
      that names the raw username and token. */
  lemma FirstCredentialExample(codec: Codec)
    requires Faithful(codec)
    ensures var request := GitOpsConfigDto(0, "GITHUB", "u", "t", "", "", "https://github.com/org", true, 0);
      var u := UpdatedData(codec, map[], request, GitOpsSecretName);
      && u.Success? && !u.value.found
      && codec.decode(Lookup(u.value.data, CredentialsKey)) == Some([RepoCredential("https://github.com/org",
           Some(KeyRef("u", "username")), Some(KeyRef("t", "password")))])
  {
    var request := GitOpsConfigDto(0, "GITHUB", "u", "t", "", "", "https://github.com/org", true, 0);
    var entry := RepoCredential("https://github.com/org", Some(KeyRef("u", "username")), Some(KeyRef("t", "password")));
    assert Merge([], request, GitOpsSecretName).entries == [entry];
    assert codec.decode(codec.encode([entry])) == Some([entry]) && |codec.encode([entry])| > 0;
  }
}
