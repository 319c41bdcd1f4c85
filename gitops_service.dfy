/**
 * CreateGitOpsConfig and UpdateGitOpsConfig: write the record, prepare the cluster, then mirror
 * the credential into the config map. The repository's and the cluster's answers are
 * parameters; a failure after the record is written does not undo it.
 */
module GitOpsService {
  import opened Wrappers
  import opened GitOpsTypes
  import opened CredentialsMerge
  import opened ConfigMapStore
  import opened Reconciliation
  import Projection

  /** The record CreateGitOpsConfig hands to the repository; the repository assigns the id. */
  function NewRecord(request: GitOpsConfigDto): (record: GitOpsConfig)
    ensures record.username == request.username && record.token == request.token && record.host == request.host
    ensures record.createdBy == request.userId && record.updatedBy == request.userId
    ensures Projection.ToDto(record) == request.(id := 0, username := "", token := "", host := "")
  {
    GitOpsConfig(0, request.provider, request.username, request.token, request.gitHubOrgId,
                 request.gitLabGroupId, request.host, request.active, request.userId, request.userId)
  }

  /** The record UpdateGitOpsConfig hands to the repository: the stored one with the request's
      fields copied in; the id and the audit fields stay. */
  function UpdatedRecord(model: GitOpsConfig, request: GitOpsConfigDto): (record: GitOpsConfig)
    ensures record.id == model.id && record.createdBy == model.createdBy && record.updatedBy == model.updatedBy
    ensures record.username == request.username && record.token == request.token && record.host == request.host
    ensures record.provider == request.provider && record.active == request.active
  {
    model.(provider := request.provider, username := request.username, token := request.token,
           gitLabGroupId := request.gitLabGroupId, gitHubOrgId := request.gitHubOrgId,
           host := request.host, active := request.active)
  }

  /** Reading back a created record gives the request without its secrets, with the id the
      repository assigned. */
  lemma CreatedReadsBack(request: GitOpsConfigDto, id: int)
    ensures Projection.ToDto(NewRecord(request).(id := id))
      == request.(id := id, username := "", token := "", host := "")
  {
  }

  /** Reading back an updated record gives the request without its secrets, with the stored id
      and the record's creator as user id. */
  lemma UpdatedReadsBack(model: GitOpsConfig, request: GitOpsConfigDto)
    ensures Projection.ToDto(UpdatedRecord(model, request))
      == request.(id := model.id, username := "", token := "", host := "", userId := model.createdBy)
  {
  }

  /**
   * CreateGitOpsConfig. `record` is the record handed to the repository, `created` the
   * repository's answer to saving it; `setup` is the first error of the cluster lookup, client
   * and secret steps, if any.
   */
  method CreateGitOpsConfig(store: Store, codec: Codec, request: GitOpsConfigDto,
                            created: Result<GitOpsConfig, Error>, setup: Option<Error>, faults: seq<Fault>)
    returns (r: Result<GitOpsConfigDto, Error>, record: GitOpsConfig)
    modifies store
    ensures record == NewRecord(request)
    ensures created.Failure? ==>
      r == Failure(ApiError(CreateDbFailedMessage)) && store.data == old(store.data) && store.version == old(store.version)
    ensures created.Success? && setup.Some? ==>
      r == Failure(setup.value) && store.data == old(store.data) && store.version == old(store.version)
    ensures created.Success? && setup.None? ==>
      var run := Reconciled(codec, old(store.data), request, GitOpsSecretName, faults);
      && store.data == run.data
      && store.version == old(store.version) + run.writes
      && r == if run.err == None then Success(request.(id := created.value.id)) else Failure(run.err.value)
  {
    record := NewRecord(request);
    if created.Failure? {
      return Failure(ApiError(CreateDbFailedMessage)), record;
    }
    if setup.Some? {
      return Failure(setup.value), record;
    }
    var err, attempts := Reconcile(store, codec, request, GitOpsSecretName, faults);
    if err.Some? {
      return Failure(err.value), record;
    }
    return Success(request.(id := created.value.id)), record;
  }

  /**
   * UpdateGitOpsConfig. `existing` is the repository's answer for request.id; `saveErr` its
   * answer to saving the updated record, returned in `record`; `setup` as for create.
   */
  method UpdateGitOpsConfig(store: Store, codec: Codec, request: GitOpsConfigDto,
                            existing: Result<GitOpsConfig, Error>, saveErr: Option<Error>, setup: Option<Error>,
                            faults: seq<Fault>)
    returns (err: Option<Error>, record: Option<GitOpsConfig>)
    modifies store
    ensures record == if existing.Success? then Some(UpdatedRecord(existing.value, request)) else None
    ensures existing.Failure? ==> err == Some(ApiError(UpdateMissingMessage))
    ensures existing.Success? && saveErr.Some? ==> err == Some(ApiError(UpdateDbFailedMessage))
    ensures existing.Success? && saveErr.None? && setup.Some? ==> err == setup
    ensures existing.Failure? || saveErr.Some? || setup.Some? ==>
      store.data == old(store.data) && store.version == old(store.version)
    ensures existing.Success? && saveErr.None? && setup.None? ==>
      var run := Reconciled(codec, old(store.data), request, GitOpsSecretName, faults);
      && err == run.err
      && store.data == run.data
      && store.version == old(store.version) + run.writes
  {
    if existing.Failure? {
      return Some(ApiError(UpdateMissingMessage)), None;
    }
    record := Some(UpdatedRecord(existing.value, request));
    if saveErr.Some? {
      return Some(ApiError(UpdateDbFailedMessage)), record;
    }
    if setup.Some? {
      return setup, record;
    }
    var attempts;
    err, attempts := Reconcile(store, codec, request, GitOpsSecretName, faults);
  }
}
