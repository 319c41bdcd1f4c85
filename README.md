# GitOps credential mirroring (devtron `pkg/gitops`)

A Dafny model of how devtron's GitOps configuration service mirrors a git-provider credential
into the Argo CD config map. The config map holds, under the key `repository.credentials`,
a YAML list of repository-credential entries (`url`, `usernameSecret`, `passwordSecret`).

The model covers:

- **The merge** (`updateData`, `createRepoElement`). Every entry whose `url` equals the
  request's host is pointed at the provisioned secret (`<secret>/username`, `<secret>/password`).
  If no entry matches, one entry is appended that names the raw username and token as secrets.
  The loop is the method `CredentialsMerge.MergeEntries`, proved against the function
  `CredentialsMerge.Merge`. The YAML text is abstracted to a `Codec`, a pair of functions
  `decode`/`encode`. Properties that need a real round trip require `Faithful(codec)`.
- **The optimistic retry loop** that `CreateGitOpsConfig` and `UpdateGitOpsConfig` both run.
  It makes at most three passes, each of them fetch, merge, and write back only when the host
  was not listed. The config map is the class `ConfigMapStore.Store`: a data map and a
  version that every successful write advances. A config map without a data section arrives
  with a nil map (`None`). Reading it gives an empty list, and assigning into it panics, which
  the model records as the error `NilDataWrite` with no write. What the cluster does to each pass (nothing,
  a failed fetch, or a failed write) is a script of `Fault`s passed in. The method
  `Reconciliation.Reconcile` is proved against the function `Reconciliation.RunFrom`, and the
  lemmas beside it state the attempt bound, the outcomes and when a write happens.
- **The read projections** (`GetGitOpsConfigById`, `GetAllGitOpsConfig`,
  `GetGitOpsConfigByProvider`). They drop the username, token and host and report the creator
  as the user id.
- **The orchestration** of `CreateGitOpsConfig` and `UpdateGitOpsConfig`. The repository's
  answers and the cluster set-up outcome are parameters.

Two points of the code shape the model:

- Every entry for the host is rewritten, not only the first one.
- Any update error leads to another pass, not only a version conflict.

## Model

| member | source | states |
|---|---|---|
| `CredentialsMerge.CreateRepoElement` | pkg/gitops/GitOpsConfigService.go:352-360 | The new entry's url is the host. Its username and password references use the keys `username` and `password`, and they name the raw username and token, not a secret. |
| `CredentialsMerge.Merge` | pkg/gitops/GitOpsConfigService.go:324-336 | The flag is set iff some entry's url is the host. The list keeps its length when found and grows by one otherwise, and every old entry keeps its url and position. |
| `CredentialsMerge.MergeEntries` | pkg/gitops/GitOpsConfigService.go:324-336 | The in-place loop yields exactly the merged list and flag: all entries for the host rewritten, the rest untouched, and one entry appended when none matched. |
| `CredentialsMerge.MergeWhenFound` | pkg/gitops/GitOpsConfigService.go:324-332 | When some entry's url is the host: found is set, the length, order and urls are kept, entries for other hosts are unchanged, and every entry for the host references the secret's `username` and `password` keys. |
| `CredentialsMerge.MergeWhenMissing` | pkg/gitops/GitOpsConfigService.go:333-336 | When no entry's url is the host: found is clear, the old list is a prefix, and exactly one entry is appended. That entry is {url: host, usernameSecret: {username, "username"}, passwordSecret: {token, "password"}}. |
| `CredentialsMerge.FirstCredentialExample` | pkg/gitops/GitOpsConfigService.go:352-360 | An empty config map and a GitHub request with user "u" and token "t" encode exactly one entry, and that entry names "u" and "t" as secrets. |
| `CredentialsMerge.MergeThenFound` | pkg/gitops/GitOpsConfigService.go:324-336 | After any merge the list holds the host, so merging the same request again reports found. |
| `CredentialsMerge.MergeIdempotentWhenFound` | pkg/gitops/GitOpsConfigService.go:324-332 | Once the host is listed, a second merge returns the same list and flag. |
| `CredentialsMerge.SecondMergeRepointsAppended` | pkg/gitops/GitOpsConfigService.go:324-336 | After an append, a second merge re-points the appended entry from the raw username/token to the provisioned secret and keeps the rest. |
| `CredentialsMerge.UpdateData` | pkg/gitops/GitOpsConfigService.go:310-350 | Reads the credentials text ("" for a missing key, empty text as an empty list), decodes, merges and re-encodes. The returned map holds the key only when the encoding is non-empty. Undecodable text gives `Malformed`. |
| `CredentialsMerge.UpdatedDataMeaning` | pkg/gitops/GitOpsConfigService.go:337-349 | updateData succeeds iff the stored text decodes. Its flag is set iff the stored list holds the host. The text it returns for the key is the encoding of the merged list, and it returns no other key. |
| `CredentialsMerge.WrittenBackDecodes` | pkg/gitops/GitOpsConfigService.go:313-323 | With a faithful codec, writing the returned text back under the key makes the stored list exactly the merged list. |
| `ConfigMapStore.Store.Get` | pkg/gitops/GitOpsConfigService.go:137-140 | A fetch returns the current data and version, or the fetch error unchanged. |
| `ConfigMapStore.Store.Update` | pkg/gitops/GitOpsConfigService.go:146-149 | A write succeeds iff it carries the current version and meets no injected failure. It then replaces the data and advances the version. A failed write changes nothing. |
| `Reconciliation.Reconcile` | pkg/gitops/GitOpsConfigService.go:132-159 | The retry loop's error, pass count, final data and version change are exactly those of `RunFrom` from pass 0 on the data it started with. |
| `Reconciliation.RunFrom` | pkg/gitops/GitOpsConfigService.go:132-159 | The loop from a given pass on makes one to three passes in all and at most one write. Without a write the data is unchanged. |
| `Reconciliation.SuccessMeansMerged` | pkg/gitops/GitOpsConfigService.go:141-155 | A successful loop decoded the stored list, and a success without a write means the host was found. |
| `Reconciliation.NilDataNeverWritten` | pkg/gitops/GitOpsConfigService.go:141-145 | A config map with a nil data map reads as an empty list, so the host is not found. Unless the fetch fails, the pass ends at the assignment into the nil map with `NilDataWrite`, no write and no further pass. |
| `Reconciliation.ExhaustedIff` | pkg/gitops/GitOpsConfigService.go:157-159 | The "attemped 3 times" error comes back iff the config map has a data map, the host is not listed and all three writes fail. It then comes after three passes, with no write and the data unchanged. |
| `Reconciliation.FetchErrorAborts` | pkg/gitops/GitOpsConfigService.go:137-140 | A failed fetch on a reached pass ends the loop on that pass with the fetch's error, no further pass and no write. |
| `Reconciliation.SucceedsIff` | pkg/gitops/GitOpsConfigService.go:141-156 | The loop succeeds iff some pass it made found the host or wrote successfully into a data map. Every pass before the last one had a failed write and was retried. |
| `Reconciliation.WriteOnlyWhenMissing` | pkg/gitops/GitOpsConfigService.go:141-146 | A write happens only when the config map has a data map and the stored list lacks the host, and the loop then succeeds. The write puts the encoded merged list under `repository.credentials`. The key set grows by at most that key, and every other key keeps its value. |
| `Reconciliation.ReconcileIdempotent` | pkg/gitops/GitOpsConfigService.go:141-155 | With a faithful codec, after a successful reconciliation the same request reconciled again finds the host on its first pass and writes nothing, whatever its writes would do. |
| `Projection.ToDto` | pkg/gitops/GitOpsConfigService.go:259-266 | A response has empty username, token and host, the record's id, and the record's creator as user id. |
| `Projection.ProjectionIgnoresSecrets` | pkg/gitops/GitOpsConfigService.go:259-266 | Records that differ only in username, token, host or last updater give the same response. |
| `Projection.GetGitOpsConfigById` | pkg/gitops/GitOpsConfigService.go:253-269 | Repository errors pass through unchanged. A found record gives a response with empty username, token and host, user id = creator, and the public fields copied. |
| `Projection.GetGitOpsConfigByProvider` | pkg/gitops/GitOpsConfigService.go:292-308 | The same projection as by id: repository errors pass through, and a found record gives a redacted response with user id = creator. |
| `Projection.GetAllGitOpsConfig` | pkg/gitops/GitOpsConfigService.go:271-290 | Errors pass through. Otherwise there is one redacted response per stored record, in the same order. |
| `GitOpsService.NewRecord` | pkg/gitops/GitOpsConfigService.go:84-93 | The created record keeps the request's username, token and host, and names the requester as both creator and last updater. Its projection is the request without secrets. |
| `GitOpsService.UpdatedRecord` | pkg/gitops/GitOpsConfigService.go:175-181 | The updated record keeps the stored id, creator and last updater, and takes the provider, username, token, host and active flag from the request. |
| `GitOpsService.CreatedReadsBack` | pkg/gitops/GitOpsConfigService.go:84-93 | Reading back a created record gives the request with its assigned id and without its username, token and host. |
| `GitOpsService.UpdatedReadsBack` | pkg/gitops/GitOpsConfigService.go:175-181 | Reading back an updated record gives the request with the stored id and the creator as user id, and without its secrets. The update keeps the audit fields. |
| `GitOpsService.CreateGitOpsConfig` | pkg/gitops/GitOpsConfigService.go:82-163 | The record handed to the repository is `NewRecord(request)`. A repository failure gives the "failed to create in db" error and a set-up failure its own error, both without touching the config map. Otherwise the config map changes as the retry loop says, and the result is the request with the new id or the loop's error. |
| `GitOpsService.UpdateGitOpsConfig` | pkg/gitops/GitOpsConfigService.go:164-251 | A missing record gives "does not exist", and a failed save gives "failed to update in db". Neither touches the config map. The saved record is the stored one with the request's fields. Otherwise the outcome is the retry loop's. |

## Left out

- YAML/JSON encoding and decoding (`ghodss/yaml`, `encoding/json`, `omitempty`): abstracted to the `Codec` functions. The round trip is the precondition `Faithful`, not a proof about YAML.
- The panics on undecodable credentials text and on assignment into a nil data map: modelled as the errors `Malformed` and `NilDataWrite`, which end the loop without a write. The process abort itself is not modelled.
- `null` items in the decoded list, on which the loop would dereference nil: the model's list has no null entries.
- The Kubernetes client calls `GetClient`, `GetSecretFast`, `CreateSecretFast`, the cluster lookup and `GetClusterConfig`: collapsed into one `setup` parameter holding their first error. This includes the `*errors.StatusError` assertion, which dereferences nil for errors of other types.
- The repository calls: their answers are parameters (`created`, `existing`, `saveErr`, the lookups of the `Get*` functions). The id or provider passed to them is not modelled.
- Logging, `time.Now()` audit timestamps, the `UpdatedOn` field, and the JSON tags of the DTO.
- Reconciliation.Reconcile: other writers racing on the config map are not modelled. A single caller sees their effect only as injected write failures, so every pass reads the data the loop started with.
- Go's `int` ids are unbounded integers here. `UserId`/`CreatedBy` are modelled as `int32`.
- `GetAllGitOpsConfig` on an empty table returns a nil slice in Go. Here it is the empty sequence.
